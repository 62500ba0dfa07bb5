/** The pure parts of the back-office routes: the second copy of the rule
    guard, the upload file-name check, and the per-row transforms of the Excel
    import (label skip, name fallback, fixed-value and free-value validation
    rules). */
module AdminRoutes {
  import opened Text
  import opened RuleGuard
  import opened Engine

  // ---- is_rule_self_referential, second copy ----

  /** The copy of `is_rule_self_referential` in the back-office routes,
      written with its loop; it answers as the rule-authoring copy does on
      every definition. */
  method IsRuleSelfReferentialLoop(definition: Json) returns (r: bool)
    ensures r == IsRuleSelfReferential(definition)
  {
    if !definition.JDict? {
      return false;
    }
    var ifClause := Get(definition.entries, "if", JNull);
    if !ifClause.JDict? {
      return false;
    }
    var trigger := Get(ifClause.entries, "field", JNull);
    if !Truthy(trigger) {
      return false;
    }
    var thenClauses := Get(definition.entries, "then", JList([]));
    if !thenClauses.JList? {
      return false;
    }
    var actions := thenClauses.items;
    var i := 0;
    while i < |actions|
      invariant 0 <= i <= |actions|
      invariant AnyNames(actions, trigger) == AnyNames(actions[i..], trigger)
    {
      var action := actions[i];
      assert actions[i..][1..] == actions[i + 1..];
      if action.JDict? {
        var targets := Get(action.entries, "targets", JList([]));
        if targets.JList? {
          var found := ListContains(targets.items, trigger);
          if found {
            return true;
          }
        }
      }
      i := i + 1;
    }
    return false;
  }

  /** Python's `x in items` for a list. */
  method ListContains(items: seq<Json>, x: Json) returns (found: bool)
    ensures found == ListHas(items, x)
  {
    found := false;
    var k := 0;
    while k < |items|
      invariant 0 <= k <= |items|
      invariant found <==> exists m :: 0 <= m < k && PyEq(items[m], x)
    {
      if PyEq(items[k], x) {
        found := true;
      }
      k := k + 1;
    }
  }

  // ---- allowed_file ----

  /** The position of the last occurrence of `c`. */
  function LastIndexOf(s: string, c: char): (r: Option<nat>)
    ensures r.None? <==> c !in s
    ensures r.Some? ==> r.value < |s| && s[r.value] == c && c !in s[r.value + 1..]
  {
    if s == [] then None
    else if s[|s| - 1] == c then Some(|s| - 1)
    else
      var r := LastIndexOf(s[..|s| - 1], c);
      assert s == s[..|s| - 1] + [s[|s| - 1]];
      if r.Some? then
        assert s[r.value + 1..] == s[..|s| - 1][r.value + 1..] + [s[|s| - 1]];
        r
      else r
  }

  /** `allowed_file`: the name holds a dot and the text after the last dot,
      lower-cased, is `docx`. */
  function AllowedFile(filename: string): bool
  {
    match LastIndexOf(filename, '.')
    case None => false
    case Some(i) => LowerAscii(filename[i + 1..]) == "docx"
  }

  /** A text that lower-cases to `docx` has four characters and no dot. */
  lemma DocxTail(t: string)
    requires LowerAscii(t) == "docx"
    ensures |t| == 4 && '.' !in t
  {
    forall k | 0 <= k < 4 ensures t[k] != '.' {
      assert LowerAsciiChar(t[k]) == "docx"[k];
    }
  }

  /** Equivalently, the name ends with `.docx` in any mix of upper and lower
      case. */
  lemma AllowedFileIff(filename: string)
    ensures AllowedFile(filename) <==>
      |filename| >= 5 && filename[|filename| - 5] == '.' && LowerAscii(filename[|filename| - 4..]) == "docx"
  {
    var n := |filename|;
    var last := LastIndexOf(filename, '.');
    if AllowedFile(filename) {
      var i := last.value;
      DocxTail(filename[i + 1..]);
      assert i == n - 5;
      assert filename[n - 4..] == filename[i + 1..];
    }
    if n >= 5 && filename[n - 5] == '.' && LowerAscii(filename[n - 4..]) == "docx" {
      var tail := filename[n - 4..];
      DocxTail(tail);
      var i := last.value;
      assert forall j :: i < j < n ==> filename[j] != '.' by {
        forall j | i < j < n ensures filename[j] != '.' {
          assert filename[j] == filename[i + 1..][j - i - 1];
        }
      }
      assert forall j :: n - 4 <= j < n ==> filename[j] != '.' by {
        forall j | n - 4 <= j < n ensures filename[j] != '.' {
          assert filename[j] == tail[j - (n - 4)];
        }
      }
    }
  }

  // ---- Excel import, one row at a time ----

  const LabelColumn: string := "显示名称 (Label)"
  const NameColumn: string := "内部名称 (Name)"
  const TypeColumn: string := "字段类型"
  const OptionsColumn: string := "选项 (每行一个)"
  const DefaultColumn: string := "默认值"
  const HelpColumn: string := "帮助提示"
  const FixedNameColumn: string := "字段名"
  const FixedValueColumn: string := "录入内容"

  /** A spreadsheet row after `fillna('')`, each cell as `str()` renders it. */
  type Row = map<string, string>

  /** One line of the import's column-to-rule table: a column, the rule type
      it fills, and for the flag columns the fixed value stored. */
  datatype RuleColumn = RuleColumn(column: string, ruleType: string, fixed: Option<string>)

  /** The column-to-rule table, in its declaration order. */
  const RuleMapping: seq<RuleColumn> := [
    RuleColumn("必填", "required", Some("True")),
    RuleColumn("只读", "disabled", Some("True")),
    RuleColumn("最小长度", "minLength", None),
    RuleColumn("最大长度", "maxLength", None),
    RuleColumn("正则表达式", "pattern", None),
    RuleColumn("最小值", "minValue", None),
    RuleColumn("最大值", "maxValue", None),
    RuleColumn("必须包含 (每行一个)", "contains", None),
    RuleColumn("必须不包含 (每行一个)", "excludes", None)
  ]

  /** The cell texts that switch a flag column on. */
  predicate IsYes(cell: string)
  {
    LowerAscii(cell) in ["true", "yes", "是", "1"]
  }

  /** The rule one column of the table contributes for a row: none for a
      missing or empty cell; for a flag column the fixed value when the cell
      says yes, otherwise nothing; for a free column the cell's text, with
      newlines turned into commas in the one-per-line columns. */
  function RuleFor(row: Row, rc: RuleColumn): Option<ValidationRule>
  {
    if rc.column in row && row[rc.column] != "" then
      match rc.fixed
      case Some(v) => if IsYes(row[rc.column]) then Some(ValidationRule(rc.ruleType, v)) else None
      case None =>
        var value := row[rc.column];
        Some(ValidationRule(rc.ruleType, if Contains(rc.column, "(每行一个)") then ReplaceAll(value, "\n", ",") else value))
    else None
  }

  /** A flag column yields its fixed value exactly when its cell says yes;
      a free column yields its cell's text, newlines turned into commas in
      the one-per-line columns, exactly when the cell is not empty; either
      rule has the column's rule type. */
  lemma RuleForSpec(row: Row, rc: RuleColumn)
    ensures var r := RuleFor(row, rc);
      && (r.Some? ==> rc.column in row && row[rc.column] != "" && r.value.ruleType == rc.ruleType)
      && (rc.fixed.Some? ==> (r.Some? <==> rc.column in row && row[rc.column] != "" && IsYes(row[rc.column])))
      && (rc.fixed.Some? && r.Some? ==> r.value.ruleValue == rc.fixed.value)
      && (rc.fixed.None? ==> (r.Some? <==> rc.column in row && row[rc.column] != ""))
      && (rc.fixed.None? && r.Some? && !Contains(rc.column, "(每行一个)") ==> r.value.ruleValue == row[rc.column])
      && (rc.fixed.None? && r.Some? && Contains(rc.column, "(每行一个)") ==>
            r.value.ruleValue == ReplaceAll(row[rc.column], "\n", ","))
  {
  }

  /** The rules a row yields, in the table's order. */
  function RulesOf(row: Row, mapping: seq<RuleColumn>): (r: seq<ValidationRule>)
    ensures |r| <= |mapping|
  {
    if mapping == [] then []
    else
      var init := RulesOf(row, mapping[..|mapping| - 1]);
      match RuleFor(row, mapping[|mapping| - 1])
      case Some(e) => init + [e]
      case None => init
  }

  /** The rules of joined column lists are the rules of the first followed
      by those of the second, so rules keep the order of the columns. */
  lemma {:induction false} RulesOfAppend(row: Row, xs: seq<RuleColumn>, ys: seq<RuleColumn>)
    ensures RulesOf(row, xs + ys) == RulesOf(row, xs) + RulesOf(row, ys)
    decreases |ys|
  {
    if ys != [] {
      var n := |ys| - 1;
      RulesOfAppend(row, xs, ys[..n]);
      var tail := match RuleFor(row, ys[n]) case Some(e) => [e] case None => [];
      assert (xs + ys)[..|xs + ys| - 1] == xs + ys[..n];
      assert RulesOf(row, xs + ys) == RulesOf(row, xs + ys[..n]) + tail;
      assert RulesOf(row, ys) == RulesOf(row, ys[..n]) + tail;
    } else {
      assert xs + ys == xs;
    }
  }

  /** One column gives the rule its cell yields, if any. */
  lemma RulesOfSingle(row: Row, c: RuleColumn)
    ensures RulesOf(row, [c]) == match RuleFor(row, c) case Some(e) => [e] case None => []
  {
    assert [c][..0] == [];
  }

  /** A rule is produced exactly by a column of the table whose cell yields
      it. */
  lemma {:induction false} RulesOfIff(row: Row, mapping: seq<RuleColumn>, e: ValidationRule)
    ensures e in RulesOf(row, mapping) <==> exists k :: 0 <= k < |mapping| && RuleFor(row, mapping[k]) == Some(e)
    decreases |mapping|
  {
    if mapping != [] {
      var init := mapping[..|mapping| - 1];
      RulesOfIff(row, init, e);
      assert forall k :: 0 <= k < |init| ==> init[k] == mapping[k];
    }
  }

  /** Only the first line of the table fills the `required` rule. */
  lemma RuleTypesAfterFirst()
    ensures forall k :: 1 <= k < |RuleMapping| ==> RuleMapping[k].ruleType[0] != 'r'
  {
  }

  /** A required rule is added exactly when the 必填 cell, lower-cased, is
      true, yes, 是 or 1. */
  lemma RequiredFlag(row: Row)
    ensures ValidationRule("required", "True") in RulesOf(row, RuleMapping)
            <==> "必填" in row && row["必填"] != "" && IsYes(row["必填"])
  {
    var e := ValidationRule("required", "True");
    RulesOfIff(row, RuleMapping, e);
    RuleTypesAfterFirst();
    var first := RuleMapping[0];
    assert first == RuleColumn("必填", "required", Some("True"));
    if e in RulesOf(row, RuleMapping) {
      var k :| 0 <= k < |RuleMapping| && RuleFor(row, RuleMapping[k]) == Some(e);
      RuleForSpec(row, RuleMapping[k]);
      assert RuleMapping[k].ruleType[0] == 'r';
    }
    RuleForSpec(row, first);
  }

  /** The import loop over the column-to-rule table for one row. */
  method ImportRules(row: Row) returns (rules: seq<ValidationRule>)
    ensures rules == RulesOf(row, RuleMapping)
  {
    rules := [];
    var k := 0;
    while k < |RuleMapping|
      invariant 0 <= k <= |RuleMapping|
      invariant rules == RulesOf(row, RuleMapping[..k])
    {
      var rc := RuleMapping[k];
      assert RuleMapping[..k + 1][..k] == RuleMapping[..k];
      if rc.column in row && row[rc.column] != "" {
        if rc.fixed.Some? {
          if IsYes(row[rc.column]) {
            rules := rules + [ValidationRule(rc.ruleType, rc.fixed.value)];
          }
        } else {
          var ruleValue := row[rc.column];
          if Contains(rc.column, "(每行一个)") {
            ruleValue := ReplaceAll(ruleValue, "\n", ",");
          }
          rules := rules + [ValidationRule(rc.ruleType, ruleValue)];
        }
      }
      k := k + 1;
    }
    assert RuleMapping[..|RuleMapping|] == RuleMapping;
  }

  /** A field created by the import. */
  datatype ImportedField = ImportedField(
    name: string, labelText: string, fieldType: string, options: string,
    defaultValue: string, helpTip: string, displayOrder: nat, rules: seq<ValidationRule>)

  /** The internal name made from a label when the row gives none:
      lower-cased, each run of white space replaced by one `_`. */
  function NameFromLabel(text: string): (r: string)
    ensures forall i :: 0 <= i < |r| ==> !IsPySpace(r[i])
  {
    CollapseSpaces(LowerAscii(text), IsPySpace, '_')
  }

  /** The field a row yields: none when its trimmed label is empty. The
      display order is the row's position among all rows of the sheet. */
  function FieldOfRow(row: Row, position: nat): Option<ImportedField>
  {
    var labelText := TrimPy(Get(row, LabelColumn, ""));
    if labelText == "" then None
    else
      var given := TrimPy(Get(row, NameColumn, ""));
      var name := if given != "" then given else NameFromLabel(labelText);
      Some(ImportedField(
        name, labelText, Get(row, TypeColumn, "text"),
        ReplaceAll(Get(row, OptionsColumn, ""), "\n", ","),
        Get(row, DefaultColumn, ""), Get(row, HelpColumn, ""),
        position, RulesOf(row, RuleMapping)))
  }

  /** A row yields a field exactly when its trimmed label is not empty; the
      field carries that label, the trimmed name or else the name made from
      the label, the row's position and the rules of its columns. */
  lemma FieldOfRowSpec(row: Row, position: nat)
    ensures var r := FieldOfRow(row, position);
      && (r.None? <==> TrimPy(Get(row, LabelColumn, "")) == "")
      && (r.Some? ==> r.value.labelText == TrimPy(Get(row, LabelColumn, "")) && r.value.labelText != "")
      && (r.Some? && TrimPy(Get(row, NameColumn, "")) != "" ==> r.value.name == TrimPy(Get(row, NameColumn, "")))
      && (r.Some? && TrimPy(Get(row, NameColumn, "")) == "" ==> r.value.name == NameFromLabel(r.value.labelText))
      && (r.Some? ==> r.value.displayOrder == position && r.value.rules == RulesOf(row, RuleMapping))
  {
  }

  /** A column name after the rename of a fixed-form sheet: 字段名 becomes
      the label column and 录入内容 the default-value column. */
  function Renamed(c: string): string
  {
    if c == FixedNameColumn then LabelColumn
    else if c == FixedValueColumn then DefaultColumn
    else c
  }

  /** The header of a fixed-form sheet after `df.rename`: every column keeps
      its place, so a sheet that already had a label or default-value column
      now carries that name twice. */
  function RenameFixed(columns: seq<string>): (r: seq<string>)
    ensures |r| == |columns|
    ensures forall i :: 0 <= i < |columns| && columns[i] != FixedNameColumn && columns[i] != FixedValueColumn ==> r[i] == columns[i]
    ensures FixedNameColumn !in r && FixedValueColumn !in r
    ensures LabelColumn in r <==> LabelColumn in columns || FixedNameColumn in columns
  {
    var r := seq(|columns|, i requires 0 <= i < |columns| => Renamed(columns[i]));
    assert LabelColumn in columns ==> LabelColumn in r by {
      if LabelColumn in columns {
        var i :| 0 <= i < |columns| && columns[i] == LabelColumn;
        assert r[i] == LabelColumn;
      }
    }
    assert FixedNameColumn in columns ==> LabelColumn in r by {
      if FixedNameColumn in columns {
        var i :| 0 <= i < |columns| && columns[i] == FixedNameColumn;
        assert r[i] == LabelColumn;
      }
    }
    r
  }

  /** The cell of a row under the column at `k`; the workbook is read with
      `fillna('')`, so a missing cell reads as "". */
  function CellAt(cells: seq<string>, k: nat): string
  {
    if k < |cells| then cells[k] else ""
  }

  /** `to_dict('records')` for one row: the cells keyed by their column
      names, a later column overriding an earlier one of the same name. */
  function Record(columns: seq<string>, cells: seq<string>): (r: Row)
    ensures forall c :: c in r <==> c in columns
  {
    if columns == [] then map[]
    else
      var n := |columns| - 1;
      assert forall c :: c in columns <==> c in columns[..n] || c == columns[n] by {
        assert columns == columns[..n] + [columns[n]];
      }
      Record(columns[..n], cells)[columns[n] := CellAt(cells, n)]
  }

  /** A column name maps to the cell of the last column that carries it. */
  lemma {:induction false} RecordLastWins(columns: seq<string>, cells: seq<string>, k: nat)
    requires k < |columns|
    requires forall j :: k < j < |columns| ==> columns[j] != columns[k]
    ensures Record(columns, cells)[columns[k]] == CellAt(cells, k)
    decreases |columns|
  {
    var n := |columns| - 1;
    if k < n {
      assert columns[..n][k] == columns[k];
      RecordLastWins(columns[..n], cells, k);
    }
  }

  /** A fixed-form sheet whose header is 字段名, 录入内容 and then a label
      column takes every label from that last column, not from 字段名. */
  lemma LaterLabelColumnWins(cells: seq<string>)
    ensures Record(RenameFixed([FixedNameColumn, FixedValueColumn, LabelColumn]), cells)[LabelColumn] == CellAt(cells, 2)
  {
    var columns := RenameFixed([FixedNameColumn, FixedValueColumn, LabelColumn]);
    assert columns[2] == LabelColumn;
    RecordLastWins(columns, cells, 2);
  }

  /** The values `f` yields for the elements, each with its index, in order. */
  function Yielded<T, U>(xs: seq<T>, f: (T, nat) -> Option<U>): (r: seq<U>)
    ensures |r| <= |xs|
  {
    if xs == [] then []
    else
      var init := Yielded(xs[..|xs| - 1], f);
      match f(xs[|xs| - 1], |xs| - 1)
      case Some(u) => init + [u]
      case None => init
  }

  /** A property every yielded value has holds of the whole result. */
  lemma {:induction false} YieldedAll<T, U>(xs: seq<T>, f: (T, nat) -> Option<U>, p: U -> bool)
    requires forall x, i :: f(x, i).Some? ==> p(f(x, i).value)
    ensures forall k :: 0 <= k < |Yielded(xs, f)| ==> p(Yielded(xs, f)[k])
    decreases |xs|
  {
    if xs != [] {
      YieldedAll(xs[..|xs| - 1], f, p);
    }
  }

  /** When each value records the index it came from, the recorded indices
      rise strictly and stay below the length. */
  lemma {:induction false} YieldedRise<T, U>(xs: seq<T>, f: (T, nat) -> Option<U>, index: U -> nat)
    requires forall x, i :: f(x, i).Some? ==> index(f(x, i).value) == i
    ensures forall k :: 0 <= k < |Yielded(xs, f)| ==> index(Yielded(xs, f)[k]) < |xs|
    ensures forall j, k :: 0 <= j < k < |Yielded(xs, f)| ==> index(Yielded(xs, f)[j]) < index(Yielded(xs, f)[k])
    decreases |xs|
  {
    if xs != [] {
      YieldedRise(xs[..|xs| - 1], f, index);
    }
  }

  /** The fields a sheet's rows yield, in row order. */
  function FieldsOfRows(rows: seq<Row>): seq<ImportedField>
  {
    Yielded(rows, FieldOfRow)
  }

  /** Every imported field has a non-empty label. */
  lemma ImportedLabelled(rows: seq<Row>)
    ensures forall k :: 0 <= k < |FieldsOfRows(rows)| ==> FieldsOfRows(rows)[k].labelText != ""
  {
    forall row, i: nat | FieldOfRow(row, i).Some? ensures FieldOfRow(row, i).value.labelText != "" {
      FieldOfRowSpec(row, i);
    }
    YieldedAll(rows, FieldOfRow, (f: ImportedField) => f.labelText != "");
  }

  /** The display orders of the imported fields rise strictly and stay below
      the row count: a skipped row leaves a gap, it does not renumber the
      rest. */
  lemma ImportOrdersRise(rows: seq<Row>)
    ensures forall k :: 0 <= k < |FieldsOfRows(rows)| ==> FieldsOfRows(rows)[k].displayOrder < |rows|
    ensures forall j, k :: 0 <= j < k < |FieldsOfRows(rows)| ==>
              FieldsOfRows(rows)[j].displayOrder < FieldsOfRows(rows)[k].displayOrder
  {
    forall row, i: nat | FieldOfRow(row, i).Some? ensures FieldOfRow(row, i).value.displayOrder == i {
      FieldOfRowSpec(row, i);
    }
    YieldedRise(rows, FieldOfRow, (f: ImportedField) => f.displayOrder);
  }

  /** The kinds of sheet the import creates. */
  datatype SheetKind = FixedForm | DynamicTable

  /** One sheet of the workbook: its header and, for each row, its cells in
      column order. */
  datatype Workbook = Workbook(columns: seq<string>, rows: seq<seq<string>>)

  /** The sheet kind and the fields of one workbook sheet; a sheet without a
      label column (after renaming) is skipped. Each row is read as the
      record of the renamed header. */
  function ImportSheet(sheet: Workbook): (r: Option<(SheetKind, seq<ImportedField>)>)
    ensures (FixedNameColumn in sheet.columns && FixedValueColumn in sheet.columns) ==> r.Some? && r.value.0 == FixedForm
    ensures !(FixedNameColumn in sheet.columns && FixedValueColumn in sheet.columns) ==>
              (r.Some? <==> LabelColumn in sheet.columns) && (r.Some? ==> r.value.0 == DynamicTable)
    ensures r.Some? ==> |r.value.1| <= |sheet.rows|
  {
    var isFixed := FixedNameColumn in sheet.columns && FixedValueColumn in sheet.columns;
    var columns := if isFixed then RenameFixed(sheet.columns) else sheet.columns;
    if LabelColumn !in columns then None
    else
      var rows := seq(|sheet.rows|, i requires 0 <= i < |sheet.rows| => Record(columns, sheet.rows[i]));
      Some((if isFixed then FixedForm else DynamicTable, FieldsOfRows(rows)))
  }

  /** The body of the import loop for one row: nothing for a row without a
      label, else the field it describes. */
  method ImportRow(row: Row, position: nat) returns (r: Option<ImportedField>)
    ensures r == FieldOfRow(row, position)
  {
    var labelText := TrimPy(Get(row, LabelColumn, ""));
    if labelText == "" {
      return None;
    }
    var name := TrimPy(Get(row, NameColumn, ""));
    if name == "" {
      name := NameFromLabel(labelText);
    }
    var rules := ImportRules(row);
    r := Some(ImportedField(
      name, labelText, Get(row, TypeColumn, "text"),
      ReplaceAll(Get(row, OptionsColumn, ""), "\n", ","),
      Get(row, DefaultColumn, ""), Get(row, HelpColumn, ""),
      position, rules));
  }

  /** The import loop over a sheet's rows. */
  method ImportRows(rows: seq<Row>) returns (fields: seq<ImportedField>)
    ensures fields == FieldsOfRows(rows)
  {
    fields := [];
    var i := 0;
    while i < |rows|
      invariant 0 <= i <= |rows|
      invariant fields == FieldsOfRows(rows[..i])
    {
      assert rows[..i + 1][..i] == rows[..i];
      var f := ImportRow(rows[i], i);
      if f.Some? {
        fields := fields + [f.value];
      }
      i := i + 1;
    }
    assert rows[..|rows|] == rows;
  }
}
