/** Placeholder substitution in the Word template: text keys are replaced
    run by run inside every paragraph of the body and of the table cells,
    a table key clears its paragraph and appends a table built from the
    rows, and the HTML preview of the template wraps every `{{name}}` in a
    tagged span. A paragraph is the sequence of the texts of its runs. */
module WordProcessor {
  import opened Text

  /** The text of a paragraph: its runs one after the other. */
  function Concat(runs: seq<string>): string
  {
    if runs == [] then "" else Concat(runs[..|runs| - 1]) + runs[|runs| - 1]
  }

  /** Python's `str(value)` of a stored field value: `None` for a missing
      one. */
  function PyStr(value: Option<string>): string
  {
    if value.Some? then value.value else "None"
  }

  // ---- keys ----

  /** The text key of a fixed field. */
  function PlaceholderKey(fieldName: string): (r: string)
    ensures |r| == |fieldName| + 4
    ensures r[..2] == "{{" && r[|r| - 2..] == "}}" && r[2..|r| - 2] == fieldName
  {
    "{{" + fieldName + "}}"
  }

  /** The key of a dynamic table. */
  function TableKey(modelIdentifier: string): string
  {
    "{{table_" + modelIdentifier + "}}"
  }

  const TablePrefix: string := "{{table_"

  /** `key.startswith('{{table_')`: such keys are left to the table
      replacer. */
  predicate IsTableKey(key: string)
  {
    TablePrefix <= key
  }

  /** A table key is never used as a text key, and the key of a fixed field
      is skipped exactly when the field name starts with `table_`. */
  lemma KeysSkipped(fieldName: string, modelIdentifier: string)
    ensures IsTableKey(TableKey(modelIdentifier))
    ensures IsTableKey(PlaceholderKey(fieldName)) <==> "table_" <= fieldName
  {
    var k := PlaceholderKey(fieldName);
    assert TablePrefix == "{{" + "table_";
    if "table_" <= fieldName {
      assert k[..|TablePrefix|] == "{{" + fieldName[..6];
    }
    if IsTableKey(k) {
      assert k[..8] == TablePrefix;
      assert k[6] == 'e' && k[7] == '_';
      assert fieldName[..6] == k[2..8];
    }
  }

  /** The key-value list built from the fixed-form rows: a later row with
      the same field name overwrites the value but keeps the place of the
      first, as a Python dict does. */
  function Placeholders(rows: seq<(string, Option<string>)>): (r: seq<(string, Option<string>)>)
    ensures forall i, j :: 0 <= i < j < |r| ==> r[i].0 != r[j].0
  {
    if rows == [] then []
    else
      var n := |rows| - 1;
      Put(Placeholders(rows[..n]), PlaceholderKey(rows[n].0), rows[n].1)
  }

  /** `d[key] = value` on an insertion-ordered dict. */
  function Put(d: seq<(string, Option<string>)>, key: string, value: Option<string>): (r: seq<(string, Option<string>)>)
    requires forall i, j :: 0 <= i < j < |d| ==> d[i].0 != d[j].0
    ensures forall i, j :: 0 <= i < j < |r| ==> r[i].0 != r[j].0
    ensures (exists i :: 0 <= i < |d| && d[i].0 == key) ==> |r| == |d|
    ensures (forall i :: 0 <= i < |d| ==> d[i].0 != key) ==> r == d + [(key, value)]
  {
    if exists i :: 0 <= i < |d| && d[i].0 == key then
      var i :| 0 <= i < |d| && d[i].0 == key;
      d[i := (key, value)]
    else
      d + [(key, value)]
  }

  /** After `d[key] = value` the dict holds the pair and every other entry. */
  lemma PutSpec(d: seq<(string, Option<string>)>, key: string, value: Option<string>, e: (string, Option<string>))
    requires forall i, j :: 0 <= i < j < |d| ==> d[i].0 != d[j].0
    ensures (key, value) in Put(d, key, value)
    ensures e in d && e.0 != key ==> e in Put(d, key, value)
  {
    var r := Put(d, key, value);
    if exists i :: 0 <= i < |d| && d[i].0 == key {
      var i :| 0 <= i < |d| && d[i].0 == key;
      assert r == d[i := (key, value)] by {
        forall j | 0 <= j < |d| && d[j].0 == key ensures j == i { }
      }
      assert r[i] == (key, value);
      if e in d && e.0 != key {
        var j :| 0 <= j < |d| && d[j] == e;
        assert r[j] == e;
      }
    } else {
      assert r[|d|] == (key, value);
    }
  }

  /** Every row's field ends up with the value of its last row. */
  lemma {:induction false} PlaceholdersLastWins(rows: seq<(string, Option<string>)>, k: nat)
    requires k < |rows| && forall j :: k < j < |rows| ==> rows[j].0 != rows[k].0
    ensures (PlaceholderKey(rows[k].0), rows[k].1) in Placeholders(rows)
    decreases |rows|
  {
    var n := |rows| - 1;
    var before := Placeholders(rows[..n]);
    var e := (PlaceholderKey(rows[k].0), rows[k].1);
    if k < n {
      assert e in before by {
        assert forall j :: k < j < n ==> rows[..n][j] == rows[j];
        PlaceholdersLastWins(rows[..n], k);
      }
      assert PlaceholderKey(rows[n].0) != e.0 by {
        assert PlaceholderKey(rows[n].0)[2..|rows[n].0| + 2] == rows[n].0;
      }
    }
    PutSpec(before, PlaceholderKey(rows[n].0), rows[n].1, e);
  }

  // ---- run-wise replacement ----

  /** The runs after replacing `key`: every run that contains the key has
      all its occurrences replaced, every other run is kept, and nothing
      happens when the paragraph text does not contain the key. */
  function ReplacedRuns(runs: seq<string>, key: string, value: string): (r: seq<string>)
    ensures |r| == |runs|
  {
    if !Contains(Concat(runs), key) then runs
    else seq(|runs|, i requires 0 <= i < |runs| => if Contains(runs[i], key) then ReplaceAll(runs[i], key, value) else runs[i])
  }

  lemma ContainsPrefix(a: string, b: string, key: string)
    requires Contains(a, key)
    ensures Contains(a + b, key)
  {
    ContainsIff(a, key);
    ContainsIff(a + b, key);
    var i: nat :| OccursAt(a, key, i);
    assert (a + b)[i..i + |key|] == a[i..i + |key|];
    assert OccursAt(a + b, key, i);
  }

  /** A run that contains the key makes the paragraph contain it. */
  lemma {:induction false} RunInConcat(runs: seq<string>, key: string, i: nat)
    requires i < |runs| && Contains(runs[i], key)
    ensures Contains(Concat(runs), key)
    decreases |runs|
  {
    var n := |runs| - 1;
    if i == n {
      ContainsAppend(Concat(runs[..n]), runs[n], key);
    } else {
      assert runs[..n][i] == runs[i];
      RunInConcat(runs[..n], key, i);
      ContainsPrefix(Concat(runs[..n]), runs[n], key);
    }
  }

  /** A paragraph whose text does not contain the key is unchanged; in any
      paragraph, a run is rewritten exactly when it contains the key, and a
      rewritten run is that run with every occurrence replaced. */
  lemma ReplacedRunsSpec(runs: seq<string>, key: string, value: string, i: nat)
    requires i < |runs|
    ensures !Contains(Concat(runs), key) ==> ReplacedRuns(runs, key, value) == runs
    ensures Contains(runs[i], key) ==> ReplacedRuns(runs, key, value)[i] == ReplaceAll(runs[i], key, value)
    ensures !Contains(runs[i], key) ==> ReplacedRuns(runs, key, value)[i] == runs[i]
  {
    if Contains(runs[i], key) {
      RunInConcat(runs, key, i);
    }
  }

  /** A key split across two runs is not replaced, although the paragraph
      text contains it. */
  lemma SplitKeyKept()
    ensures Contains(Concat(["{{a", "}}"]), "{{a}}")
    ensures ReplacedRuns(["{{a", "}}"], "{{a}}", "x") == ["{{a", "}}"]
  {
    var runs := ["{{a", "}}"];
    assert runs[..1] == ["{{a"] && runs[..1][..0] == [];
    assert Concat(runs) == "{{a}}";
    assert "{{a}}" <= Concat(runs);
    assert !Contains("{{a", "{{a}}") by {
      assert "{{a"[1..] == "{a" && "{a"[1..] == "a" && "a"[1..] == [];
    }
    assert !Contains("}}", "{{a}}") by {
      assert "}}"[1..] == "}" && "}"[1..] == [];
    }
  }

  /** A paragraph: the texts of its runs. */
  class Paragraph {
    var runs: seq<string>

    constructor (runs0: seq<string>)
      ensures runs == runs0
    {
      runs := runs0;
    }

    function Text(): string
      reads this
    {
      Concat(runs)
    }

    /** `_replace_text_in_paragraph`: overwrite, in an index loop, every
        run that contains the key. */
    method ReplaceText(key: string, value: Option<string>)
      modifies this
      ensures runs == ReplacedRuns(old(runs), key, PyStr(value))
    {
      if Contains(Concat(runs), key) {
        var i := 0;
        ghost var runs0 := runs;
        while i < |runs|
          invariant 0 <= i <= |runs| == |runs0|
          invariant runs[i..] == runs0[i..]
          invariant forall j :: 0 <= j < i ==> runs[j] == ReplacedRuns(runs0, key, PyStr(value))[j]
        {
          if Contains(runs[i], key) {
            var text := ReplaceAll(runs[i], key, PyStr(value));
            runs := runs[i := text];
          }
          i := i + 1;
        }
      }
    }

    /** The inner loop of the document walk: every text key, in order, on
        this paragraph. */
    method ReplaceKeys(placeholders: seq<(string, Option<string>)>)
      modifies this
      ensures runs == ReplacedAll(old(runs), placeholders)
    {
      var m := 0;
      while m < |placeholders|
        invariant 0 <= m <= |placeholders|
        invariant runs == ReplacedAll(old(runs), placeholders[..m])
      {
        assert placeholders[..m + 1][..m] == placeholders[..m];
        if !IsTableKey(placeholders[m].0) {
          ReplaceText(placeholders[m].0, placeholders[m].1);
        }
        m := m + 1;
      }
      assert placeholders[..|placeholders|] == placeholders;
    }

    /** `p.text = ""`: the paragraph keeps one empty run. */
    method Clear()
      modifies this
      ensures runs == [""] && Text() == ""
    {
      runs := [""];
      assert runs[..0] == [];
    }
  }

  /** The runs after every text key of `placeholders`, in order; table keys
      are skipped. */
  function ReplacedAll(runs: seq<string>, placeholders: seq<(string, Option<string>)>): (r: seq<string>)
    ensures |r| == |runs|
  {
    if placeholders == [] then runs
    else
      var n := |placeholders| - 1;
      var before := ReplacedAll(runs, placeholders[..n]);
      if IsTableKey(placeholders[n].0) then before else ReplacedRuns(before, placeholders[n].0, PyStr(placeholders[n].1))
  }

  /** Only the text keys matter: dropping every table key changes nothing. */
  lemma {:induction false} TableKeysIgnored(runs: seq<string>, placeholders: seq<(string, Option<string>)>)
    ensures ReplacedAll(runs, placeholders) == ReplacedAll(runs, TextKeys(placeholders))
    decreases |placeholders|
  {
    if placeholders != [] {
      var n := |placeholders| - 1;
      TableKeysIgnored(runs, placeholders[..n]);
      if !IsTableKey(placeholders[n].0) {
        var t := TextKeys(placeholders[..n]);
        assert (t + [placeholders[n]])[..|t|] == t;
      }
    }
  }

  function TextKeys(placeholders: seq<(string, Option<string>)>): (r: seq<(string, Option<string>)>)
    ensures forall i :: 0 <= i < |r| ==> !IsTableKey(r[i].0) && r[i] in placeholders
  {
    if placeholders == [] then []
    else
      var n := |placeholders| - 1;
      var before := TextKeys(placeholders[..n]);
      if IsTableKey(placeholders[n].0) then before else before + [placeholders[n]]
  }

  /** A run that contains none of the keys is never touched. */
  lemma {:induction false} UntouchedRun(runs: seq<string>, placeholders: seq<(string, Option<string>)>, i: nat)
    requires i < |runs|
    requires forall k :: 0 <= k < |placeholders| ==> !Contains(runs[i], placeholders[k].0)
    ensures ReplacedAll(runs, placeholders)[i] == runs[i]
    decreases |placeholders|
  {
    if placeholders != [] {
      var n := |placeholders| - 1;
      var (key, value) := placeholders[n];
      var before := ReplacedAll(runs, placeholders[..n]);
      assert before[i] == runs[i] by {
        assert forall k :: 0 <= k < n ==> placeholders[..n][k] == placeholders[k];
        UntouchedRun(runs, placeholders[..n], i);
      }
      assert ReplacedRuns(before, key, PyStr(value))[i] == before[i] by {
        ReplacedRunsSpec(before, key, PyStr(value), i);
      }
    }
  }

  // ---- the document ----

  /** A table appended by the table replacer: the header labels and one row
      of cell texts per data row. */
  datatype BuiltTable = BuiltTable(header: seq<string>, rows: seq<seq<string>>)

  /** A column of a dynamic table: the label for the header, the key of the
      cell value in a data row. */
  datatype Column = Column(labelText: string, name: string)

  /** `str(item.get(name, '') if not None else '')`. */
  function CellText(item: map<string, Option<string>>, name: string): string
  {
    if name in item && item[name].Some? then item[name].value else ""
  }

  function BuildTable(items: seq<map<string, Option<string>>>, columns: seq<Column>): (r: BuiltTable)
    ensures |r.header| == |columns| && |r.rows| == |items|
    ensures forall i :: 0 <= i < |columns| ==> r.header[i] == columns[i].labelText
    ensures forall k, i :: 0 <= k < |items| && 0 <= i < |columns| ==>
              |r.rows[k]| == |columns| && r.rows[k][i] == CellText(items[k], columns[i].name)
  {
    BuiltTable(seq(|columns|, i requires 0 <= i < |columns| => columns[i].labelText),
               seq(|items|, k requires 0 <= k < |items| =>
                 seq(|columns|, i requires 0 <= i < |columns| => CellText(items[k], columns[i].name))))
  }

  /** A document: the paragraphs of its body, the paragraphs of its table
      cells in the order rows, cells and paragraphs are visited, and the
      tables appended at its end. */
  class Document {
    var paragraphs: seq<Paragraph>
    var cellParagraphs: seq<Paragraph>
    var appended: seq<BuiltTable>

    /** No paragraph object appears twice. */
    ghost predicate Valid()
      reads this
    {
      && (forall i, j :: 0 <= i < j < |paragraphs| ==> paragraphs[i] != paragraphs[j])
      && (forall i, j :: 0 <= i < j < |cellParagraphs| ==> cellParagraphs[i] != cellParagraphs[j])
      && (forall i, j :: 0 <= i < |paragraphs| && 0 <= j < |cellParagraphs| ==> paragraphs[i] != cellParagraphs[j])
    }

    constructor (body: seq<Paragraph>, cells: seq<Paragraph>)
      requires forall i, j :: 0 <= i < j < |body| ==> body[i] != body[j]
      requires forall i, j :: 0 <= i < j < |cells| ==> cells[i] != cells[j]
      requires forall i, j :: 0 <= i < |body| && 0 <= j < |cells| ==> body[i] != cells[j]
      ensures Valid() && paragraphs == body && cellParagraphs == cells && appended == []
    {
      paragraphs := body;
      cellParagraphs := cells;
      appended := [];
    }

    /** `_replace_placeholders_in_doc`: every paragraph of the body, then
        every paragraph of the cells, gets every text key in order. */
    method ReplacePlaceholders(placeholders: seq<(string, Option<string>)>)
      requires Valid()
      modifies set p | p in paragraphs + cellParagraphs
      ensures forall p :: p in paragraphs + cellParagraphs ==> p.runs == ReplacedAll(old(p.runs), placeholders)
    {
      ReplaceIn(paragraphs, placeholders);
      ReplaceIn(cellParagraphs, placeholders);
    }

    /** `_replace_table_placeholder`: the first body paragraph whose text
        contains the key is cleared and, unless there are no rows, a table
        is appended; the result says whether a paragraph matched. */
    method ReplaceTable(key: string, items: seq<map<string, Option<string>>>, columns: seq<Column>) returns (found: bool)
      modifies this`appended, set p | p in paragraphs
      ensures found <==> exists i :: 0 <= i < |paragraphs| && Contains(old(paragraphs[i].Text()), key)
      ensures found ==> exists i :: 0 <= i < |paragraphs| && Contains(old(paragraphs[i].Text()), key)
                          && (forall j :: 0 <= j < i ==> !Contains(old(paragraphs[j].Text()), key))
                          && paragraphs[i].runs == [""]
                          && (forall p :: p in paragraphs && p != paragraphs[i] ==> p.runs == old(p.runs))
      ensures !found ==> forall p :: p in paragraphs ==> p.runs == old(p.runs)
      ensures appended == old(appended) + (if found && items != [] then [BuildTable(items, columns)] else [])
    {
      var i := 0;
      while i < |paragraphs|
        invariant 0 <= i <= |paragraphs|
        invariant forall j :: 0 <= j < i ==> !Contains(paragraphs[j].Text(), key)
        invariant appended == old(appended)
        invariant forall p :: p in paragraphs ==> p.runs == old(p.runs)
      {
        var p := paragraphs[i];
        if Contains(p.Text(), key) {
          p.Clear();
          if items != [] {
            appended := appended + [BuildTable(items, columns)];
          }
          return true;
        }
        i := i + 1;
      }
      return false;
    }
  }

  /** The paragraph walk of one part of the document. */
  method ReplaceIn(ps: seq<Paragraph>, placeholders: seq<(string, Option<string>)>)
    requires forall i, j :: 0 <= i < j < |ps| ==> ps[i] != ps[j]
    modifies set p | p in ps
    ensures forall p :: p in ps ==> p.runs == ReplacedAll(old(p.runs), placeholders)
  {
    var k := 0;
    while k < |ps|
      invariant 0 <= k <= |ps|
      invariant forall j :: 0 <= j < k ==> ps[j].runs == ReplacedAll(old(ps[j].runs), placeholders)
      invariant forall j :: k <= j < |ps| ==> ps[j].runs == old(ps[j].runs)
    {
      ghost var before := seq(|ps|, j requires 0 <= j < |ps| reads set p | p in ps => ps[j].runs);
      ps[k].ReplaceKeys(placeholders);
      assert forall j :: 0 <= j < |ps| && j != k ==> ps[j].runs == before[j];
      k := k + 1;
    }
    forall p | p in ps ensures p.runs == ReplacedAll(old(p.runs), placeholders) {
      var j :| 0 <= j < |ps| && ps[j] == p;
    }
  }

  // ---- the HTML preview ----

  /** `\w` of Python's regular expressions, restricted to ASCII letters,
      digits, '_' and the common CJK ideographs. */
  predicate IsWord(c: char)
  {
    'a' <= c <= 'z' || 'A' <= c <= 'Z' || '0' <= c <= '9' || c == '_' || '\U{4E00}' <= c <= '\U{9FA5}'
  }

  /** The length of the run of word characters at the start of `s`. */
  function WordRun(s: string): (n: nat)
    ensures n <= |s| && forall i :: 0 <= i < n ==> IsWord(s[i])
    ensures n < |s| ==> !IsWord(s[n])
  {
    if s != [] && IsWord(s[0]) then 1 + WordRun(s[1..]) else 0
  }

  /** A piece of the HTML: a `{{name}}` the pattern matches, or a character
      it passes over. */
  datatype Token = Placeholder(name: string) | Plain(c: char)

  /** The name of the placeholder `s` starts with, if it starts with one:
      `{{`, at least one word character, `}}`. */
  function MatchAt(s: string): (r: Option<string>)
    ensures r.Some? ==> |r.value| > 0 && PlaceholderKey(r.value) <= s && forall i :: 0 <= i < |r.value| ==> IsWord(r.value[i])
  {
    if |s| >= 2 && s[..2] == "{{" then
      var n := WordRun(s[2..]);
      if n > 0 && 2 + n + 2 <= |s| && s[2 + n..4 + n] == "}}" then
        assert s[..n + 4] == "{{" + s[2..2 + n] + "}}";
        Some(s[2..2 + n])
      else None
    else None
  }

  /** `re.sub` scans left to right: at each position either a placeholder
      matches and is consumed whole, or one character is passed over. */
  function Tokens(s: string): (r: seq<Token>)
    ensures forall i :: 0 <= i < |r| && r[i].Placeholder? ==>
              |r[i].name| > 0 && forall k :: 0 <= k < |r[i].name| ==> IsWord(r[i].name[k])
    decreases |s|
  {
    if s == [] then []
    else
      match MatchAt(s)
      case Some(name) => [Placeholder(name)] + Tokens(s[|name| + 4..])
      case None => [Plain(s[0])] + Tokens(s[1..])
  }

  /** The text a token stands for. */
  function Source(t: Token): string
  {
    match t
    case Placeholder(name) => PlaceholderKey(name)
    case Plain(c) => [c]
  }

  function SourceOf(ts: seq<Token>): string
  {
    if ts == [] then "" else Source(ts[0]) + SourceOf(ts[1..])
  }

  /** `wrap_placeholder`: the match inside a span naming the placeholder. */
  function Wrapped(t: Token): string
  {
    match t
    case Placeholder(name) => "<span data-placeholder-for=\"" + name + "\">" + PlaceholderKey(name) + "</span>"
    case Plain(c) => [c]
  }

  function WrappedOf(ts: seq<Token>): string
  {
    if ts == [] then "" else Wrapped(ts[0]) + WrappedOf(ts[1..])
  }

  /** The preview HTML with every placeholder wrapped. */
  function WrapPlaceholders(html: string): string
  {
    WrappedOf(Tokens(html))
  }

  /** The scan loses and invents nothing: its pieces put together are the
      HTML it scanned. */
  lemma {:induction false} TokensCover(s: string)
    ensures SourceOf(Tokens(s)) == s
    decreases |s|
  {
    if s != [] {
      match MatchAt(s)
      case Some(name) =>
        TokensCover(s[|name| + 4..]);
        assert s == s[..|name| + 4] + s[|name| + 4..];
      case None =>
        TokensCover(s[1..]);
        assert s == [s[0]] + s[1..];
    }
  }

  /** HTML without `{{` comes out of the wrapping unchanged. */
  lemma {:induction false} WrapWithoutBraces(s: string)
    requires !Contains(s, "{{")
    ensures WrapPlaceholders(s) == s
    decreases |s|
  {
    if s != [] {
      assert !("{{" <= s);
      assert MatchAt(s) == None;
      assert !Contains(s[1..], "{{");
      WrapWithoutBraces(s[1..]);
    }
  }

  /** A placeholder on its own is wrapped in a span naming it. */
  lemma WrapSingle(name: string)
    requires |name| > 0 && forall i :: 0 <= i < |name| ==> IsWord(name[i])
    ensures WrapPlaceholders(PlaceholderKey(name)) ==
              "<span data-placeholder-for=\"" + name + "\">" + PlaceholderKey(name) + "</span>"
  {
    TokensSingle(name);
    var ts := [Placeholder(name)];
    assert ts[1..] == [];
    assert WrappedOf(ts) == Wrapped(ts[0]) + WrappedOf([]);
  }

  lemma TokensSingle(name: string)
    requires |name| > 0 && forall i :: 0 <= i < |name| ==> IsWord(name[i])
    ensures Tokens(PlaceholderKey(name)) == [Placeholder(name)]
  {
    var s := PlaceholderKey(name);
    MatchSingle(name);
    var rest := s[|name| + 4..];
    assert rest == [];
    assert Tokens(rest) == [];
  }

  lemma MatchSingle(name: string)
    requires |name| > 0 && forall i :: 0 <= i < |name| ==> IsWord(name[i])
    ensures MatchAt(PlaceholderKey(name)) == Some(name)
  {
    var s := PlaceholderKey(name);
    WordRunOf(name, "}}");
    assert s[2..] == name + "}}";
  }

  lemma {:induction false} WordRunOf(name: string, rest: string)
    requires forall i :: 0 <= i < |name| ==> IsWord(name[i])
    requires rest == [] || !IsWord(rest[0])
    ensures WordRun(name + rest) == |name|
    decreases |name|
  {
    if name != [] {
      assert (name + rest)[1..] == name[1..] + rest;
      WordRunOf(name[1..], rest);
    } else {
      assert name + rest == rest;
    }
  }
}
