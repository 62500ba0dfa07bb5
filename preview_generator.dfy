/** The server-side preview of a project: every fixed-form sheet becomes a
    list of `label: value` items whose values are shown through the labels of
    the field's options, and every dynamic table a numbered HTML table. */
module PreviewGenerator {
  import opened Text
  import FieldRoutes
  import LivePreview

  type OptionPair = FieldRoutes.OptionPair

  /** A field definition as the preview reads it; an absent option list is
      the empty one, both being falsy. */
  datatype PreviewField = PreviewField(name: string, labelText: string, fieldType: string,
                                       options: seq<OptionPair>, defaultValue: Option<string>)

  /** A stored value of a fixed form; None is a NULL column. */
  type FormData = map<string, Option<string>>

  /** A dynamic-table row: field name to cell text. */
  type TableRow = map<string, string>

  // ---- value to label ----

  /** `{opt['value']: opt['label'] for opt in options}`: a later option with
      the same value overrides an earlier one. */
  function LabelMap(options: seq<OptionPair>): map<string, string>
  {
    if options == [] then map[]
    else
      var n := |options| - 1;
      LabelMap(options[..n])[options[n].value := options[n].labelText]
  }

  /** A value has a label exactly when some option carries it. */
  lemma {:induction false} LabelMapIff(options: seq<OptionPair>, v: string)
    ensures v in LabelMap(options) <==> exists k :: 0 <= k < |options| && options[k].value == v
    decreases |options|
  {
    if options != [] {
      var n := |options| - 1;
      var init := options[..n];
      LabelMapIff(init, v);
      if options[n].value != v && v in LabelMap(init) {
        var k :| 0 <= k < n && init[k].value == v;
        assert options[k] == init[k];
      }
      if exists k :: 0 <= k < |options| && options[k].value == v {
        var k :| 0 <= k < |options| && options[k].value == v;
        if k < n {
          assert init[k] == options[k];
        }
      }
    }
  }

  /** The label of a value is that of the last option carrying it. */
  lemma {:induction false} LabelMapLast(options: seq<OptionPair>, v: string)
    requires v in LabelMap(options)
    ensures exists k :: 0 <= k < |options| && options[k].value == v && LabelMap(options)[v] == options[k].labelText
                        && forall j :: k < j < |options| ==> options[j].value != v
    decreases |options|
  {
    var n := |options| - 1;
    var init := options[..n];
    if options[n].value == v {
      assert LabelMap(options)[v] == options[n].labelText;
    } else {
      assert LabelMap(options)[v] == LabelMap(init)[v];
      LabelMapLast(init, v);
      var k :| 0 <= k < n && init[k].value == v && LabelMap(init)[v] == init[k].labelText
               && forall j :: k < j < n ==> init[j].value != v;
      assert options[k] == init[k];
      forall j | k < j < |options| ensures options[j].value != v {
        if j < n {
          assert options[j] == init[j];
        }
      }
    }
  }

  /** The value-to-label map of every field that has options; a later field
      of the same name overrides an earlier one. */
  function LabelMaps(fields: seq<PreviewField>): map<string, map<string, string>>
  {
    if fields == [] then map[]
    else
      var n := |fields| - 1;
      var before := LabelMaps(fields[..n]);
      if fields[n].options != [] then before[fields[n].name := LabelMap(fields[n].options)] else before
  }

  /** A field name has a map exactly when a field of that name has options. */
  lemma {:induction false} LabelMapsIff(fields: seq<PreviewField>, name: string)
    ensures name in LabelMaps(fields) <==>
              exists k :: 0 <= k < |fields| && fields[k].name == name && fields[k].options != []
    decreases |fields|
  {
    if fields != [] {
      var n := |fields| - 1;
      LabelMapsIff(fields[..n], name);
      assert forall k :: 0 <= k < n ==> fields[..n][k] == fields[k];
    }
  }

  /** The loop that fills `value_to_label_maps`. */
  method BuildLabelMaps(fields: seq<PreviewField>) returns (maps: map<string, map<string, string>>)
    ensures maps == LabelMaps(fields)
  {
    maps := map[];
    var k := 0;
    while k < |fields|
      invariant 0 <= k <= |fields|
      invariant maps == LabelMaps(fields[..k])
    {
      assert fields[..k + 1][..k] == fields[..k];
      if fields[k].options != [] {
        maps := maps[fields[k].name := LabelMap(fields[k].options)];
      }
      k := k + 1;
    }
    assert fields[..|fields|] == fields;
  }

  /** `map_dict.get(v, v)`. */
  function Lookup(m: map<string, string>, v: string): (r: string)
    ensures v in m ==> r == m[v]
    ensures v !in m ==> r == v
  {
    if v in m then m[v] else v
  }

  /** Every part through the map. */
  function LookupAll(m: map<string, string>, parts: seq<string>): (r: seq<string>)
    ensures |r| == |parts|
    ensures forall i :: 0 <= i < |r| ==> r[i] == Lookup(m, parts[i])
  {
    seq(|parts|, i requires 0 <= i < |parts| => Lookup(m, parts[i]))
  }

  const MultiTypes: seq<string> := ["select-multiple", "checkbox-group"]

  /** The value a field shows: `field.default_value or ''` when the form has
      no entry for it. */
  function RawValue(field: PreviewField, data: FormData): (r: Option<string>)
    ensures field.name in data ==> r == data[field.name]
    ensures field.name !in data ==> r.Some? && (field.defaultValue.Some? ==> r.value == field.defaultValue.value)
                                    && (field.defaultValue.None? ==> r.value == "")
  {
    if field.name in data then data[field.name]
    else if field.defaultValue.Some? then Some(field.defaultValue.value) else Some("")
  }

  /** The stored value as shown: through the field's value-to-label map when
      it has one, element-wise over the comma-separated parts for a
      multi-choice type (joined again with ", "), and as-is otherwise. A NULL
      is never a string and never a key, so it stays NULL. */
  function DisplayValue(field: PreviewField, raw: Option<string>, maps: map<string, map<string, string>>): (r: Option<string>)
    ensures field.name !in maps ==> r == raw
    ensures raw.None? ==> r.None?
    ensures field.name in maps && raw.Some? && field.fieldType !in MultiTypes ==>
              r == Some(Lookup(maps[field.name], raw.value))
    ensures field.name in maps && raw.Some? && field.fieldType in MultiTypes ==>
              r.Some? && exists parts :: |parts| == |Split(raw.value, ',')| && r.value == Join(parts, ", ")
                                         && forall i :: 0 <= i < |parts| ==> parts[i] == Lookup(maps[field.name], Split(raw.value, ',')[i])
  {
    if field.name !in maps || raw.None? then raw
    else
      var m := maps[field.name];
      if field.fieldType in MultiTypes then Some(Join(LookupAll(m, Split(raw.value, ',')), ", "))
      else Some(Lookup(m, raw.value))
  }

  /** A multi-choice value without a comma is shown like a single value. */
  lemma MultiWithoutComma(field: PreviewField, raw: string, maps: map<string, map<string, string>>)
    requires field.name in maps && ',' !in raw && field.fieldType in MultiTypes
    ensures DisplayValue(field, Some(raw), maps) == DisplayValue(field.(fieldType := "select"), Some(raw), maps)
  {
    assert Split(raw, ',') == [raw];
  }

  /** A field none of whose namesakes has options is never remapped. */
  lemma NeverRemappedWithoutOptions(fields: seq<PreviewField>, field: PreviewField, raw: Option<string>)
    requires forall k :: 0 <= k < |fields| && fields[k].name == field.name ==> fields[k].options == []
    ensures DisplayValue(field, raw, LabelMaps(fields)) == raw
  {
    LabelMapsIff(fields, field.name);
  }

  // ---- fixed forms ----

  /** The span that carries a value, or the mask when the value is NULL or
      empty. */
  function Placeholder(name: string, display: Option<string>): string
  {
    "<span data-placeholder-for=\"" + name + "\">"
      + (if display.None? || display.value == "" then LivePreview.Mask else display.value)
      + "</span>"
  }

  /** The span shows the mask exactly when the value is NULL, empty or the
      mask text itself; otherwise it shows the value. */
  lemma PlaceholderMasked(name: string, display: Option<string>)
    ensures Placeholder(name, display) == "<span data-placeholder-for=\"" + name + "\">" + LivePreview.Mask + "</span>"
            <==> display.None? || display.value == "" || display.value == LivePreview.Mask
  {
    var open := "<span data-placeholder-for=\"" + name + "\">";
    var masked := open + LivePreview.Mask + "</span>";
    if display.Some? && display.value != "" {
      var shown := open + display.value + "</span>";
      if shown == masked {
        assert |display.value| == |LivePreview.Mask|;
        assert shown[|open|..|open| + |display.value|] == display.value;
        assert masked[|open|..|open| + |LivePreview.Mask|] == LivePreview.Mask;
      }
    }
  }

  function ItemHtml(field: PreviewField, display: Option<string>): string
  {
    "<li><strong>" + field.labelText + ":</strong> " + Placeholder(field.name, display) + "</li>"
  }

  /** The list items of a fixed form, in field order. */
  function FixedItems(fields: seq<PreviewField>, data: FormData, maps: map<string, map<string, string>>): string
  {
    if fields == [] then ""
    else
      var n := |fields| - 1;
      FixedItems(fields[..n], data, maps) + ItemHtml(fields[n], DisplayValue(fields[n], RawValue(fields[n], data), maps))
  }

  /** Without any option, the list of the project preview is that of the
      sheet preview, which never remaps. */
  lemma {:induction false} NoOptionsSameItems(fields: seq<PreviewField>, data: FormData)
    requires forall k :: 0 <= k < |fields| ==> fields[k].options == []
    ensures FixedItems(fields, data, LabelMaps(fields)) == FixedItems(fields, data, map[])
    decreases |fields|
  {
    if fields != [] {
      var n := |fields| - 1;
      NoLabelMaps(fields);
      assert LabelMaps(fields) == map[];
    }
  }

  lemma {:induction false} NoLabelMaps(fields: seq<PreviewField>)
    requires forall k :: 0 <= k < |fields| ==> fields[k].options == []
    ensures LabelMaps(fields) == map[]
    decreases |fields|
  {
    if fields != [] {
      NoLabelMaps(fields[..|fields| - 1]);
    }
  }

  /** The fixed-form block: the label maps are built from the same fields,
      then one item per field. */
  method FixedFormPreview(fields: seq<PreviewField>, data: FormData, remap: bool) returns (html: string)
    ensures remap ==> html == "<ul>" + FixedItems(fields, data, LabelMaps(fields)) + "</ul>"
    ensures !remap ==> html == "<ul>" + FixedItems(fields, data, map[]) + "</ul>"
  {
    var maps: map<string, map<string, string>> := map[];
    if remap {
      maps := BuildLabelMaps(fields);
    }
    var items := FixedItemsHtml(fields, data, maps);
    html := "<ul>" + items + "</ul>";
  }

  method FixedItemsHtml(fields: seq<PreviewField>, data: FormData, maps: map<string, map<string, string>>)
    returns (items: string)
    ensures items == FixedItems(fields, data, maps)
  {
    items := "";
    var k := 0;
    while k < |fields|
      invariant 0 <= k <= |fields|
      invariant items == FixedItems(fields[..k], data, maps)
    {
      var field := fields[k];
      var item := ItemHtml(field, DisplayValue(field, RawValue(field, data), maps));
      assert fields[..k + 1][..k] == fields[..k];
      items := items + item;
      k := k + 1;
    }
    assert fields[..|fields|] == fields;
  }

  // ---- dynamic tables ----

  function HeaderCells(fields: seq<PreviewField>): string
  {
    if fields == [] then ""
    else HeaderCells(fields[..|fields| - 1]) + "<th>" + fields[|fields| - 1].labelText + "</th>"
  }

  function TableHead(fields: seq<PreviewField>): string
  {
    "<table class=\"table table-bordered\"><thead><tr><th>序号</th>" + HeaderCells(fields) + "</tr></thead><tbody>"
  }

  /** `row.get(field.name, '')`, one cell per field. */
  function RowCells(fields: seq<PreviewField>, row: TableRow): string
  {
    if fields == [] then ""
    else
      var f := fields[|fields| - 1];
      RowCells(fields[..|fields| - 1], row) + "<td>" + (if f.name in row then row[f.name] else "") + "</td>"
  }

  function RowHtml(number: nat, row: TableRow, fields: seq<PreviewField>): string
  {
    "<tr><td>" + NatToString(number) + "</td>" + RowCells(fields, row) + "</tr>"
  }

  /** Items rendered with their position as the loop builds them: the last
      one carries the count. */
  function Numbered<T>(items: seq<T>, render: (nat, T) -> string): string
  {
    if items == [] then "" else Numbered(items[..|items| - 1], render) + render(|items|, items[|items| - 1])
  }

  /** Items rendered with the positions `start`, `start + 1`, ... in order. */
  function NumberedFrom<T>(items: seq<T>, start: nat, render: (nat, T) -> string): string
  {
    if items == [] then "" else render(start, items[0]) + NumberedFrom(items[1..], start + 1, render)
  }

  lemma {:induction false} NumberedFromAppend<T>(items: seq<T>, x: T, start: nat, render: (nat, T) -> string)
    ensures NumberedFrom(items + [x], start, render) == NumberedFrom(items, start, render) + render(start + |items|, x)
    decreases |items|
  {
    if items != [] {
      assert (items + [x])[1..] == items[1..] + [x];
      NumberedFromAppend(items[1..], x, start + 1, render);
    }
  }

  /** The rows are numbered 1, 2, ..., n in their stored order. */
  lemma {:induction false} RowsNumbered<T>(items: seq<T>, render: (nat, T) -> string)
    ensures Numbered(items, render) == NumberedFrom(items, 1, render)
    decreases |items|
  {
    if items != [] {
      var n := |items| - 1;
      RowsNumbered(items[..n], render);
      NumberedFromAppend(items[..n], items[n], 1, render);
      assert items[..n] + [items[n]] == items;
    }
  }

  function RowsHtml(rows: seq<TableRow>, fields: seq<PreviewField>): string
  {
    Numbered(rows, (number: nat, row: TableRow) => RowHtml(number, row, fields))
  }

  /** The row that stands for an empty table; it spans the number column and
      every field column. */
  function NoDataRow(fields: seq<PreviewField>): string
  {
    "<tr><td colspan=\"" + NatToString(|fields| + 1) + "\" class=\"text-center\">无数据</td></tr>"
  }

  /** The sheet preview's sample row: number 1 and an empty span per field. */
  function SampleCells(fields: seq<PreviewField>): string
  {
    if fields == [] then ""
    else SampleCells(fields[..|fields| - 1])
           + "<td><span data-placeholder-for=\"" + fields[|fields| - 1].name + "\"></span></td>"
  }

  /** The table body of a dynamic sheet; `withSample` adds the sheet
      preview's sample row before the no-data row of an empty table. */
  function TableBody(fields: seq<PreviewField>, rows: seq<TableRow>, withSample: bool): string
  {
    if rows != [] then RowsHtml(rows, fields)
    else (if withSample then "<tr><td>1</td>" + SampleCells(fields) + "</tr>" else "") + NoDataRow(fields)
  }

  function TableSpec(fields: seq<PreviewField>, rows: seq<TableRow>, withSample: bool): string
  {
    TableHead(fields) + TableBody(fields, rows, withSample) + "</tbody></table>"
  }

  /** Project and sheet previews draw the same table once there are rows. */
  lemma SameTableWithRows(fields: seq<PreviewField>, rows: seq<TableRow>)
    requires rows != []
    ensures TableSpec(fields, rows, true) == TableSpec(fields, rows, false)
  {
  }

  method RowCellsHtml(fields: seq<PreviewField>, row: TableRow) returns (cells: string)
    ensures cells == RowCells(fields, row)
  {
    cells := "";
    var k := 0;
    while k < |fields|
      invariant 0 <= k <= |fields|
      invariant cells == RowCells(fields[..k], row)
    {
      assert fields[..k + 1][..k] == fields[..k];
      var cellValue := if fields[k].name in row then row[fields[k].name] else "";
      cells := cells + "<td>" + cellValue + "</td>";
      k := k + 1;
    }
    assert fields[..|fields|] == fields;
  }

  method HeaderCellsHtml(fields: seq<PreviewField>) returns (cells: string)
    ensures cells == HeaderCells(fields)
  {
    cells := "";
    var k := 0;
    while k < |fields|
      invariant 0 <= k <= |fields|
      invariant cells == HeaderCells(fields[..k])
    {
      assert fields[..k + 1][..k] == fields[..k];
      cells := cells + "<th>" + fields[k].labelText + "</th>";
      k := k + 1;
    }
    assert fields[..|fields|] == fields;
  }

  method SampleCellsHtml(fields: seq<PreviewField>) returns (cells: string)
    ensures cells == SampleCells(fields)
  {
    cells := "";
    var k := 0;
    while k < |fields|
      invariant 0 <= k <= |fields|
      invariant cells == SampleCells(fields[..k])
    {
      assert fields[..k + 1][..k] == fields[..k];
      cells := cells + "<td><span data-placeholder-for=\"" + fields[k].name + "\"></span></td>";
      k := k + 1;
    }
    assert fields[..|fields|] == fields;
  }

  /** The dynamic-table block: head, then a numbered row per stored row, or
      the no-data row. */
  method DynamicTablePreview(fields: seq<PreviewField>, rows: seq<TableRow>, withSample: bool) returns (html: string)
    ensures html == TableSpec(fields, rows, withSample)
  {
    var head := HeaderHtml(fields);
    var body := TableBodyHtml(fields, rows, withSample);
    html := head + body + "</tbody></table>";
  }

  method HeaderHtml(fields: seq<PreviewField>) returns (html: string)
    ensures html == TableHead(fields)
  {
    var headers := HeaderCellsHtml(fields);
    html := "<table class=\"table table-bordered\"><thead><tr>" + "<th>序号</th>" + headers + "</tr></thead><tbody>";
  }

  method TableBodyHtml(fields: seq<PreviewField>, rows: seq<TableRow>, withSample: bool) returns (body: string)
    ensures body == TableBody(fields, rows, withSample)
  {
    body := "";
    if rows != [] {
      body := RowsBlock(fields, rows);
    } else {
      if withSample {
        var cells := SampleCellsHtml(fields);
        body := "<tr>" + "<td>1</td>" + cells + "</tr>";
      }
      body := body + NoDataRow(fields);
    }
  }

  /** The loop over the stored rows, numbering them from 1. */
  method RowsBlock(fields: seq<PreviewField>, rows: seq<TableRow>) returns (html: string)
    ensures html == RowsHtml(rows, fields)
  {
    html := "";
    var i := 0;
    while i < |rows|
      invariant 0 <= i <= |rows|
      invariant html == RowsHtml(rows[..i], fields)
    {
      var cells := RowCellsHtml(fields, rows[i]);
      var row := "<tr><td>" + NatToString(i + 1) + "</td>" + cells + "</tr>";
      assert rows[..i + 1][..i] == rows[..i];
      assert row == RowHtml(i + 1, rows[i], fields);
      html := html + row;
      i := i + 1;
    }
    assert rows[..|rows|] == rows;
  }

  // ---- whole previews ----

  datatype SheetData = SheetData(name: string, sheetType: string, fields: seq<PreviewField>,
                                 data: FormData, rows: seq<TableRow>)

  datatype SectionData = SectionData(name: string, sheets: seq<SheetData>)

  /** A sheet inside the project preview: fixed forms remap through option
      labels; a sheet of any other type shows only its heading. */
  function SheetHtml(sheet: SheetData): string
  {
    "<h3>" + sheet.name + "</h3>"
      + (if sheet.sheetType == "fixed_form" then "<ul>" + FixedItems(sheet.fields, sheet.data, LabelMaps(sheet.fields)) + "</ul>"
         else if sheet.sheetType == "dynamic_table" then TableSpec(sheet.fields, sheet.rows, false)
         else "")
  }

  function SheetsHtml(sheets: seq<SheetData>): string
  {
    if sheets == [] then "" else SheetsHtml(sheets[..|sheets| - 1]) + SheetHtml(sheets[|sheets| - 1])
  }

  function SectionHtml(section: SectionData): string
  {
    "<h2>" + section.name + "</h2>" + SheetsHtml(section.sheets)
  }

  function SectionsHtml(sections: seq<SectionData>): string
  {
    if sections == [] then "" else SectionsHtml(sections[..|sections| - 1]) + SectionHtml(sections[|sections| - 1])
  }

  lemma SheetsStep(sheets: seq<SheetData>, j: nat)
    requires j < |sheets|
    ensures SheetsHtml(sheets[..j + 1]) == SheetsHtml(sheets[..j]) + SheetHtml(sheets[j])
  {
    assert sheets[..j + 1][..j] == sheets[..j];
  }

  method SheetBlock(sheet: SheetData) returns (html: string)
    ensures html == SheetHtml(sheet)
  {
    html := "<h3>" + sheet.name + "</h3>";
    if sheet.sheetType == "fixed_form" {
      var block := FixedFormPreview(sheet.fields, sheet.data, true);
      html := html + block;
    } else if sheet.sheetType == "dynamic_table" {
      var block := DynamicTablePreview(sheet.fields, sheet.rows, false);
      html := html + block;
    }
  }

  method SectionBlock(section: SectionData) returns (html: string)
    ensures html == SectionHtml(section)
  {
    var body := SheetsBlock(section.sheets);
    html := "<h2>" + section.name + "</h2>" + body;
  }

  method SheetsBlock(sheets: seq<SheetData>) returns (html: string)
    ensures html == SheetsHtml(sheets)
  {
    html := "";
    var j := 0;
    while j < |sheets|
      invariant 0 <= j <= |sheets|
      invariant html == SheetsHtml(sheets[..j])
    {
      var block := SheetBlock(sheets[j]);
      SheetsStep(sheets, j);
      html := html + block;
      j := j + 1;
    }
    assert sheets[..|sheets|] == sheets;
  }

  /** `generate_project_preview_html`: None is the error raised when the
      project's procurement method has no latest template; otherwise the
      sections of that template in order. */
  method ProjectPreview(template: Option<seq<SectionData>>) returns (r: Option<string>)
    ensures template.None? ==> r.None?
    ensures template.Some? ==> r == Some(SectionsHtml(template.value))
  {
    if template.None? {
      return None;
    }
    var sections := template.value;
    var html := "";
    var i := 0;
    while i < |sections|
      invariant 0 <= i <= |sections|
      invariant html == SectionsHtml(sections[..i])
    {
      var block := SectionBlock(sections[i]);
      assert sections[..i + 1][..i] == sections[..i];
      html := html + block;
      i := i + 1;
    }
    assert sections[..|sections|] == sections;
    r := Some(html);
  }

  /** `if project_id`: a missing id and the id 0 are both falsy. */
  predicate HasProject(projectId: Option<int>)
  {
    projectId.Some? && projectId.value != 0
  }

  /** `generate_sheet_preview_html`: a fixed form shows its stored values
      only with a project and never remaps them; a dynamic table shows its
      rows only with a project, and otherwise the sample row too. */
  function SheetPreviewSpec(sheet: SheetData, projectId: Option<int>): string
  {
    var data := if HasProject(projectId) && sheet.sheetType == "fixed_form" then sheet.data else map[];
    var rows := if HasProject(projectId) then sheet.rows else [];
    "<h3>" + sheet.name + "</h3>"
      + (if sheet.sheetType == "fixed_form" then "<ul>" + FixedItems(sheet.fields, data, map[]) + "</ul>"
         else if sheet.sheetType == "dynamic_table" then TableSpec(sheet.fields, rows, true)
         else "")
  }

  method SheetPreview(sheet: SheetData, projectId: Option<int>) returns (html: string)
    ensures html == SheetPreviewSpec(sheet, projectId)
  {
    html := "<h3>" + sheet.name + "</h3>";
    var data: FormData := map[];
    if HasProject(projectId) && sheet.sheetType == "fixed_form" {
      data := sheet.data;
    }
    if sheet.sheetType == "fixed_form" {
      var block := FixedFormPreview(sheet.fields, data, false);
      html := html + block;
    } else if sheet.sheetType == "dynamic_table" {
      var rows: seq<TableRow> := [];
      if HasProject(projectId) {
        rows := sheet.rows;
      }
      var block := DynamicTablePreview(sheet.fields, rows, true);
      html := html + block;
    }
  }

  /** With a project, a fixed sheet none of whose fields has options, or a
      dynamic sheet with rows, previews alone as it does inside the project
      preview. */
  lemma SheetPreviewAgrees(sheet: SheetData, projectId: Option<int>)
    requires HasProject(projectId)
    requires sheet.sheetType == "fixed_form" ==> forall k :: 0 <= k < |sheet.fields| ==> sheet.fields[k].options == []
    requires sheet.sheetType == "dynamic_table" ==> sheet.rows != []
    ensures SheetPreviewSpec(sheet, projectId) == SheetHtml(sheet)
  {
    if sheet.sheetType == "fixed_form" {
      NoOptionsSameItems(sheet.fields, sheet.data);
    }
  }
}
