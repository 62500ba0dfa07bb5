/** The base of an internal field name derived from a display label, shared
    by the two name generators of the back office: CJK ideographs become
    spaces, letters are lower-cased, everything but ASCII letters, digits,
    white space and '-' is dropped, the ends are trimmed and every run of
    white space becomes one '_'. */
module FieldNames {
  import opened Text

  /** The range `[一-龥]`. */
  predicate IsCjk(c: char)
  {
    '\U{4E00}' <= c <= '\U{9FA5}'
  }

  /** The characters `[a-z0-9\s-]` keeps. */
  predicate IsNameChar(c: char)
  {
    'a' <= c <= 'z' || IsDigit(c) || IsJsSpace(c) || c == '-'
  }

  /** The characters a base name is made of. */
  predicate IsSlugChar(c: char)
  {
    'a' <= c <= 'z' || IsDigit(c) || c == '-' || c == '_'
  }

  /** A label character that survives into the base name. */
  predicate IsWordChar(c: char)
  {
    !IsCjk(c) && IsNameChar(LowerAsciiChar(c)) && !IsJsSpace(c)
  }

  function CjkToSpace(s: string): (r: string)
    ensures |r| == |s|
    ensures forall i :: 0 <= i < |s| ==> r[i] == (if IsCjk(s[i]) then ' ' else s[i])
  {
    seq(|s|, i requires 0 <= i < |s| => if IsCjk(s[i]) then ' ' else s[i])
  }

  function KeepNameChars(s: string): (r: string)
    ensures |r| <= |s|
    ensures forall i :: 0 <= i < |r| ==> IsNameChar(r[i]) && r[i] in s
  {
    if s == [] then [] else (if IsNameChar(s[0]) then [s[0]] else []) + KeepNameChars(s[1..])
  }

  /** The kept text has a character other than white space exactly when the
      input has one that is kept. */
  lemma {:induction false} KeepHasWord(s: string)
    ensures (exists i :: 0 <= i < |KeepNameChars(s)| && !IsJsSpace(KeepNameChars(s)[i]))
            <==> (exists i :: 0 <= i < |s| && IsNameChar(s[i]) && !IsJsSpace(s[i]))
    decreases |s|
  {
    if s != [] {
      KeepHasWord(s[1..]);
      var head: string := if IsNameChar(s[0]) then [s[0]] else [];
      var rest := KeepNameChars(s[1..]);
      assert KeepNameChars(s) == head + rest;
      assert forall i :: 1 <= i < |s| ==> s[i] == s[1..][i - 1];
      assert forall i :: 0 <= i < |rest| ==> rest[i] == (head + rest)[|head| + i];
      if exists i :: 0 <= i < |s| && IsNameChar(s[i]) && !IsJsSpace(s[i]) {
        var i :| 0 <= i < |s| && IsNameChar(s[i]) && !IsJsSpace(s[i]);
        if i == 0 {
          assert (head + rest)[0] == s[0];
        } else {
          assert IsNameChar(s[1..][i - 1]) && !IsJsSpace(s[1..][i - 1]);
        }
      }
    }
  }

  /** `str.replace(/[一-龥]/g, ' ').toLowerCase().replace(/[^a-z0-9\s-]/g, '').trim().replace(/\s+/g, '_')`. */
  function BaseName(labelText: string): string
  {
    CollapseSpaces(TrimJs(KeepNameChars(LowerAscii(CjkToSpace(labelText)))), IsJsSpace, '_')
  }

  /** Collapsing keeps the first and the last character when neither is
      white space. */
  lemma {:induction false} CollapseEnds(s: string)
    requires s != [] && !IsJsSpace(s[|s| - 1])
    ensures var r := CollapseSpaces(s, IsJsSpace, '_');
      r != [] && r[|r| - 1] == s[|s| - 1] && (!IsJsSpace(s[0]) ==> r[0] == s[0])
    decreases |s|
  {
    if |s| > 1 {
      if IsJsSpace(s[0]) {
        var t := TrimLeft(s[1..], IsJsSpace);
        assert s[1..][|s| - 2] == s[|s| - 1];
        assert t != [] && t[|t| - 1] == s[|s| - 1];
        CollapseEnds(t);
      } else {
        assert s[1..][|s| - 2] == s[|s| - 1];
        CollapseEnds(s[1..]);
      }
    }
  }

  /** Trimming keeps characters of its input only. */
  lemma TrimChars(s: string)
    ensures forall i :: 0 <= i < |TrimJs(s)| ==> TrimJs(s)[i] in s
  {
    var l := TrimLeft(s, IsJsSpace);
    var r := TrimRight(l, IsJsSpace);
    forall i | 0 <= i < |r| ensures r[i] in s {
      assert r[i] == l[i] == s[|s| - |l| + i];
    }
  }

  /** A base name is made of lower-case ASCII letters, digits, '-' and '_'. */
  lemma BaseNameChars(labelText: string)
    ensures forall i :: 0 <= i < |BaseName(labelText)| ==> IsSlugChar(BaseName(labelText)[i])
  {
    var kept := KeepNameChars(LowerAscii(CjkToSpace(labelText)));
    var trimmed := TrimJs(kept);
    var b := BaseName(labelText);
    TrimChars(kept);
    CollapseChars(trimmed, IsJsSpace, '_');
    forall i | 0 <= i < |b| ensures IsSlugChar(b[i]) {
      assert !IsJsSpace(b[i]);
      assert b[i] in trimmed || b[i] == '_';
    }
  }

  /** Trimming and collapsing text without '_' gives a result that neither
      starts nor ends with '_'. */
  lemma CollapsedEnds(kept: string)
    requires '_' !in kept
    ensures var b := CollapseSpaces(TrimJs(kept), IsJsSpace, '_'); b != [] ==> b[0] != '_' && b[|b| - 1] != '_'
  {
    var trimmed := TrimJs(kept);
    if trimmed != [] {
      assert !IsJsSpace(trimmed[0]) && !IsJsSpace(trimmed[|trimmed| - 1]) by {
        TrimSpec(kept, IsJsSpace);
      }
      assert trimmed[0] != '_' && trimmed[|trimmed| - 1] != '_' by {
        TrimChars(kept);
        assert trimmed[0] in kept && trimmed[|trimmed| - 1] in kept;
      }
      CollapseEnds(trimmed);
    }
  }

  /** A non-empty base name neither starts nor ends with '_'. */
  lemma BaseNameEnds(labelText: string)
    ensures var b := BaseName(labelText); b != [] ==> b[0] != '_' && b[|b| - 1] != '_'
  {
    var kept := KeepNameChars(LowerAscii(CjkToSpace(labelText)));
    assert '_' !in kept by {
      assert forall i :: 0 <= i < |kept| ==> IsNameChar(kept[i]);
    }
    CollapsedEnds(kept);
  }

  lemma CollapseEmpty(s: string)
    ensures CollapseSpaces(s, IsJsSpace, '_') == [] <==> s == []
  {
  }

  /** After the first two steps, a character is kept and not white space
      exactly when the label character survives. */
  lemma LoweredWords(labelText: string)
    ensures var lowered := LowerAscii(CjkToSpace(labelText));
      |lowered| == |labelText| &&
      forall i :: 0 <= i < |labelText| ==>
        (IsNameChar(lowered[i]) && !IsJsSpace(lowered[i]) <==> IsWordChar(labelText[i]))
  {
  }

  /** A base name is empty exactly when the label has no character that
      survives. */
  lemma BaseNameEmpty(labelText: string)
    ensures BaseName(labelText) == [] <==> forall i :: 0 <= i < |labelText| ==> !IsWordChar(labelText[i])
  {
    var lowered := LowerAscii(CjkToSpace(labelText));
    var kept := KeepNameChars(lowered);
    var trimmed := TrimJs(kept);
    CollapseEmpty(trimmed);
    TrimSpec(kept, IsJsSpace);
    assert trimmed == [] <==> forall i :: 0 <= i < |kept| ==> IsJsSpace(kept[i]);
    KeepHasWord(lowered);
    LoweredWords(labelText);
  }
}
