/** String helpers shared by the browser scripts and the Python services:
    substring search, replace-all, split/join on one separator, trimming with
    the JavaScript and the Python notions of white space, ASCII lower-casing
    and decimal rendering of naturals. */
module Text {

  datatype Option<T> = None | Some(value: T)

  /** `key in s` (Python) / `s.includes(key)` (JavaScript). */
  function Contains(s: string, key: string): bool
    decreases |s|
  {
    key <= s || (s != [] && Contains(s[1..], key))
  }

  /** `key` occurs in `s` starting at index `i`. */
  predicate OccursAt(s: string, key: string, i: nat)
  {
    i + |key| <= |s| && s[i..i + |key|] == key
  }

  /** Contains holds exactly when the key occurs at some position. */
  lemma {:induction false} ContainsIff(s: string, key: string)
    ensures Contains(s, key) <==> exists i: nat :: OccursAt(s, key, i)
    decreases |s|
  {
    if s != [] {
      ContainsIff(s[1..], key);
      if Contains(s[1..], key) {
        var i: nat :| OccursAt(s[1..], key, i);
        assert OccursAt(s, key, i + 1);
      }
      if key <= s {
        assert OccursAt(s, key, 0);
      }
      if exists i: nat :: OccursAt(s, key, i) {
        var i: nat :| OccursAt(s, key, i);
        if i > 0 {
          assert OccursAt(s[1..], key, i - 1);
        }
      }
    } else if key == [] {
      assert OccursAt(s, key, 0);
    }
  }

  lemma ContainsAppend(a: string, b: string, key: string)
    requires Contains(b, key)
    ensures Contains(a + b, key)
  {
    ContainsIff(b, key);
    ContainsIff(a + b, key);
    var i: nat :| OccursAt(b, key, i);
    assert OccursAt(a + b, key, |a| + i);
  }

  /** Python `s.replace(key, value)` and JavaScript `s.replace(/key/g, value)`:
      every non-overlapping occurrence, scanning from the left. An empty key
      inserts `value` before every character and at the end, as Python does. */
  function ReplaceAll(s: string, key: string, value: string): string
    decreases |s|
  {
    if |key| == 0 then
      if s == [] then value else value + [s[0]] + ReplaceAll(s[1..], key, value)
    else if key <= s then
      value + ReplaceAll(s[|key|..], key, value)
    else if s == [] then
      []
    else
      [s[0]] + ReplaceAll(s[1..], key, value)
  }

  /** Text without the key is left as it is. */
  lemma {:induction false} ReplaceAllAbsent(s: string, key: string, value: string)
    requires |key| > 0 && !Contains(s, key)
    ensures ReplaceAll(s, key, value) == s
    decreases |s|
  {
    if s != [] {
      assert !(key <= s);
      assert !Contains(s[1..], key);
      ReplaceAllAbsent(s[1..], key, value);
    }
  }

  /** Replacing a single character: each occurrence of `c` becomes `rep`, every
      other character is kept. */
  lemma {:induction false} ReplaceCharSplits(a: string, b: string, c: char, rep: string)
    ensures ReplaceAll(a + b, [c], rep) == ReplaceAll(a, [c], rep) + ReplaceAll(b, [c], rep)
    decreases |a|
  {
    if a == [] {
      assert a + b == b;
    } else {
      assert (a + b)[1..] == a[1..] + b;
      assert (a + b)[0] == a[0];
      ReplaceCharSplits(a[1..], b, c, rep);
      if [c] <= a + b {
        assert (a + b)[1..] == (a + b)[|[c]|..];
        assert a[1..] == a[|[c]|..];
      }
    }
  }

  function IndexOf(s: string, c: char): (r: nat)
    requires c in s
    ensures r < |s| && s[r] == c && c !in s[..r]
  {
    if s[0] == c then 0 else 1 + IndexOf(s[1..], c)
  }

  /** `s.split(sep)` with a one-character separator, in both languages: the
      pieces between separators, so "" gives [""] and "a,," gives ["a", "", ""]. */
  function Split(s: string, sep: char): (r: seq<string>)
    ensures |r| >= 1
    ensures forall i :: 0 <= i < |r| ==> sep !in r[i]
    decreases |s|
  {
    if sep !in s then [s]
    else
      var i := IndexOf(s, sep);
      [s[..i]] + Split(s[i + 1..], sep)
  }

  /** `sep.join(parts)` (Python) / `parts.join(sep)` (JavaScript). */
  function Join(parts: seq<string>, sep: string): string
  {
    if |parts| == 0 then ""
    else if |parts| == 1 then parts[0]
    else parts[0] + sep + Join(parts[1..], sep)
  }

  /** Joining the pieces of a split with the same separator gives the text back. */
  lemma {:induction false} JoinSplit(s: string, sep: char)
    ensures Join(Split(s, sep), [sep]) == s
    decreases |s|
  {
    if sep in s {
      var i := IndexOf(s, sep);
      var rest := Split(s[i + 1..], sep);
      assert Split(s, sep) == [s[..i]] + rest;
      JoinSplit(s[i + 1..], sep);
      assert Join([s[..i]] + rest, [sep]) == s[..i] + [sep] + Join(rest, [sep]) by {
        assert ([s[..i]] + rest)[1..] == rest;
      }
      assert s == s[..i] + [sep] + s[i + 1..];
    }
  }

  /** Splitting text joined from separator-free pieces gives the pieces back. */
  lemma {:induction false} SplitJoin(parts: seq<string>, sep: char)
    requires |parts| >= 1
    requires forall i :: 0 <= i < |parts| ==> sep !in parts[i]
    ensures Split(Join(parts, [sep]), sep) == parts
    decreases |parts|
  {
    if |parts| > 1 {
      var rest := Join(parts[1..], [sep]);
      var s := parts[0] + [sep] + rest;
      assert s[|parts[0]|] == sep;
      assert sep in s;
      var i := IndexOf(s, sep);
      assert i == |parts[0]|;
      assert s[..i] == parts[0];
      assert s[i + 1..] == rest;
      SplitJoin(parts[1..], sep);
    }
  }

  /** Characters JavaScript treats as white space in `trim()` and `\s`
      (WhiteSpace and LineTerminator of ECMAScript). */
  predicate IsJsSpace(c: char)
  {
    c == ' ' || c == '\t' || c == '\n' || c == '\r' || c == '\U{B}' || c == '\U{C}'
    || c == '\U{A0}' || c == '\U{1680}' || ('\U{2000}' <= c <= '\U{200A}')
    || c == '\U{2028}' || c == '\U{2029}' || c == '\U{202F}' || c == '\U{205F}'
    || c == '\U{3000}' || c == '\U{FEFF}'
  }

  /** Characters Python's `str.strip()` and `re` `\s` treat as white space
      (`str.isspace`). */
  predicate IsPySpace(c: char)
  {
    c == ' ' || c == '\t' || c == '\n' || c == '\r' || c == '\U{B}' || c == '\U{C}'
    || ('\U{1C}' <= c <= '\U{1F}') || c == '\U{85}'
    || c == '\U{A0}' || c == '\U{1680}' || ('\U{2000}' <= c <= '\U{200A}')
    || c == '\U{2028}' || c == '\U{2029}' || c == '\U{202F}' || c == '\U{205F}'
    || c == '\U{3000}'
  }

  function TrimLeft(s: string, isSpace: char -> bool): (r: string)
    ensures |r| <= |s| && r == s[|s| - |r|..]
    ensures r == [] || !isSpace(r[0])
    ensures forall i :: 0 <= i < |s| - |r| ==> isSpace(s[i])
  {
    if s != [] && isSpace(s[0]) then TrimLeft(s[1..], isSpace) else s
  }

  function TrimRight(s: string, isSpace: char -> bool): (r: string)
    ensures |r| <= |s| && r == s[..|r|]
    ensures r == [] || !isSpace(r[|r| - 1])
    ensures forall i :: |r| <= i < |s| ==> isSpace(s[i])
  {
    if s != [] && isSpace(s[|s| - 1]) then TrimRight(s[..|s| - 1], isSpace) else s
  }

  /** Removes leading and trailing white space. */
  function Trim(s: string, isSpace: char -> bool): string
  {
    TrimRight(TrimLeft(s, isSpace), isSpace)
  }

  /** What trimming leaves starts and ends with a non-space character, is a
      contiguous piece of the input, and is empty exactly when the input is
      all white space. */
  lemma TrimSpec(s: string, isSpace: char -> bool)
    ensures var r := Trim(s, isSpace);
      && (r == [] || (!isSpace(r[0]) && !isSpace(r[|r| - 1])))
      && (exists k: nat :: OccursAt(s, r, k))
      && (r == [] <==> forall i :: 0 <= i < |s| ==> isSpace(s[i]))
  {
    var l := TrimLeft(s, isSpace);
    var r := TrimRight(l, isSpace);
    assert OccursAt(s, r, |s| - |l|);
    if r == [] {
      forall i | 0 <= i < |s| ensures isSpace(s[i]) {
        if i >= |s| - |l| { assert s[i] == l[i - (|s| - |l|)]; }
      }
    } else {
      assert !isSpace(s[|s| - |l|]);
    }
  }

  /** Text whose ends are not white space is its own trim. */
  lemma TrimUnspaced(s: string, isSpace: char -> bool)
    requires s != [] && !isSpace(s[0]) && !isSpace(s[|s| - 1])
    ensures Trim(s, isSpace) == s
  {
  }

  /** A leading white-space character is trimmed away. */
  lemma TrimLeadingSpace(s: string, isSpace: char -> bool)
    requires s != [] && isSpace(s[0])
    ensures Trim(s, isSpace) == Trim(s[1..], isSpace)
  {
  }

  /** JavaScript `trim()`. */
  function TrimJs(s: string): string { Trim(s, IsJsSpace) }

  /** Python `strip()`. */
  function TrimPy(s: string): string { Trim(s, IsPySpace) }

  predicate IsBlankJs(s: string) { TrimJs(s) == [] }

  predicate IsUpperAscii(c: char) { 'A' <= c <= 'Z' }

  function LowerAsciiChar(c: char): char
  {
    if IsUpperAscii(c) then (c as int + 32) as char else c
  }

  /** Lower-casing of the ASCII letters; every other character is kept. */
  function LowerAscii(s: string): (r: string)
    ensures |r| == |s|
    ensures forall i :: 0 <= i < |s| ==> r[i] == LowerAsciiChar(s[i])
  {
    if s == [] then [] else [LowerAsciiChar(s[0])] + LowerAscii(s[1..])
  }

  predicate IsDigit(c: char) { '0' <= c <= '9' }

  /** The regular expression `^\d+$` (ASCII digits, at least one). */
  predicate AllDigits(s: string)
  {
    |s| > 0 && forall i :: 0 <= i < |s| ==> IsDigit(s[i])
  }

  /** Replaces every maximal run of white space by one `repl` character
      (`s.replace(/\s+/g, '_')`, `re.sub(r'\s+', '_', s)`). */
  function CollapseSpaces(s: string, isSpace: char -> bool, repl: char): (r: string)
    requires !isSpace(repl)
    ensures forall i :: 0 <= i < |r| ==> !isSpace(r[i])
    decreases |s|
  {
    if s == [] then []
    else if isSpace(s[0]) then [repl] + CollapseSpaces(TrimLeft(s[1..], isSpace), isSpace, repl)
    else [s[0]] + CollapseSpaces(s[1..], isSpace, repl)
  }

  /** Collapsing introduces no character but the replacement. */
  lemma {:induction false} CollapseChars(s: string, isSpace: char -> bool, repl: char)
    requires !isSpace(repl)
    ensures forall c :: c in CollapseSpaces(s, isSpace, repl) ==> c in s || c == repl
    decreases |s|
  {
    if s != [] {
      var t := if isSpace(s[0]) then TrimLeft(s[1..], isSpace) else s[1..];
      CollapseChars(t, isSpace, repl);
      assert forall c :: c in t ==> c in s by {
        forall c | c in t ensures c in s {
          var j :| 0 <= j < |t| && t[j] == c;
          assert t[j] == s[|s| - |t| + j];
        }
      }
      var head := if isSpace(s[0]) then repl else s[0];
      var rest := CollapseSpaces(t, isSpace, repl);
      assert CollapseSpaces(s, isSpace, repl) == [head] + rest;
      forall c | c in [head] + rest ensures c in s || c == repl {
        if c != head {
          assert c in rest;
        }
      }
    }
  }

  /** Text without white space is left as it is. */
  lemma {:induction false} CollapseIdentity(s: string, isSpace: char -> bool, repl: char)
    requires !isSpace(repl)
    requires forall i :: 0 <= i < |s| ==> !isSpace(s[i])
    ensures CollapseSpaces(s, isSpace, repl) == s
    decreases |s|
  {
    if s != [] {
      assert !isSpace(s[0]);
      assert forall i :: 0 <= i < |s| - 1 ==> s[1..][i] == s[i + 1];
      CollapseIdentity(s[1..], isSpace, repl);
    }
  }

  function DigitChar(d: nat): char
    requires d < 10
  {
    ('0' as int + d) as char
  }

  /** Decimal rendering of a natural number, as `str(n)` / template literals do. */
  function NatToString(n: nat): (r: string)
    ensures AllDigits(r)
  {
    if n < 10 then [DigitChar(n)] else NatToString(n / 10) + [DigitChar(n % 10)]
  }

  function DigitsValue(s: string): (v: nat)
    requires forall i :: 0 <= i < |s| ==> IsDigit(s[i])
  {
    if s == [] then 0
    else
      assert IsDigit(s[|s| - 1]);
      DigitsValue(s[..|s| - 1]) * 10 + (s[|s| - 1] as int - '0' as int)
  }

  /** Rendering a number and reading it back gives the number. */
  lemma {:induction false} NatToStringValue(n: nat)
    ensures DigitsValue(NatToString(n)) == n
  {
    if n >= 10 {
      var s := NatToString(n);
      NatToStringValue(n / 10);
      assert s[..|s| - 1] == NatToString(n / 10);
    }
  }
}
