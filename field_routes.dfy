/** The field-definition routes of the back office: building the option list
    of a choice field from parallel label and value lists, keeping the
    validation entries worth storing, creating and updating a field, and
    reordering the fields of a sheet. */
module FieldRoutes {
  import opened Text
  import opened Engine
  import opened RuleGuard

  /** The field types whose definition carries options. */
  const OptionTypes: seq<string> := ["select", "select-multiple", "radio", "checkbox-group"]

  datatype OptionPair = OptionPair(labelText: string, value: string)

  /** A request handler's outcome: a value, or the response that refuses the
      request. */
  datatype Outcome<T> = Done(value: T) | Refused(response: Response)

  // ---- option pairs ----

  /** The comprehension `[{label, value} for label, value in zip(labels,
      values) if label]`. */
  function Pairs(labels: seq<string>, values: seq<string>): (r: seq<OptionPair>)
    requires |labels| == |values|
    ensures |r| <= |labels|
    ensures forall k :: 0 <= k < |r| ==> r[k].labelText != ""
  {
    if labels == [] then []
    else
      var init := Pairs(labels[..|labels| - 1], values[..|values| - 1]);
      if labels[|labels| - 1] != "" then init + [OptionPair(labels[|labels| - 1], values[|values| - 1])] else init
  }

  /** A pair is built exactly from a position whose label is non-empty, with
      the value at the same position. */
  lemma {:induction false} PairsIff(labels: seq<string>, values: seq<string>, p: OptionPair)
    requires |labels| == |values|
    ensures p in Pairs(labels, values) <==>
              exists i :: 0 <= i < |labels| && labels[i] != "" && p == OptionPair(labels[i], values[i])
    decreases |labels|
  {
    if labels != [] {
      var n := |labels| - 1;
      PairsIff(labels[..n], values[..n], p);
      assert forall i :: 0 <= i < n ==> labels[..n][i] == labels[i] && values[..n][i] == values[i];
    }
  }

  /** The comprehension works position by position: the pairs of two
      joined lists are the pairs of the first followed by those of the
      second, so the pairs keep the order of their labels. */
  lemma {:induction false} PairsAppend(l1: seq<string>, v1: seq<string>, l2: seq<string>, v2: seq<string>)
    requires |l1| == |v1| && |l2| == |v2|
    ensures Pairs(l1 + l2, v1 + v2) == Pairs(l1, v1) + Pairs(l2, v2)
    decreases |l2|
  {
    if l2 != [] {
      var n := |l2| - 1;
      PairsAppend(l1, v1, l2[..n], v2[..n]);
      var tail := if l2[n] != "" then [OptionPair(l2[n], v2[n])] else [];
      assert (l1 + l2)[..|l1 + l2| - 1] == l1 + l2[..n];
      assert (v1 + v2)[..|v1 + v2| - 1] == v1 + v2[..n];
      assert Pairs(l1 + l2, v1 + v2) == Pairs(l1 + l2[..n], v1 + v2[..n]) + tail;
      assert Pairs(l2, v2) == Pairs(l2[..n], v2[..n]) + tail;
    } else {
      assert l1 + l2 == l1 && v1 + v2 == v1;
    }
  }

  /** One position gives its pair exactly when its label is non-empty. */
  lemma PairsSingle(l: string, v: string)
    ensures Pairs([l], [v]) == if l != "" then [OptionPair(l, v)] else []
  {
    assert [l][..0] == [] && [v][..0] == [];
  }

  /** No pair is built exactly when every label is empty. */
  lemma {:induction false} PairsEmpty(labels: seq<string>, values: seq<string>)
    requires |labels| == |values|
    ensures Pairs(labels, values) == [] <==> forall i :: 0 <= i < |labels| ==> labels[i] == ""
    decreases |labels|
  {
    if labels != [] {
      var n := |labels| - 1;
      PairsEmpty(labels[..n], values[..n]);
      assert forall i :: 0 <= i < n ==> labels[..n][i] == labels[i];
    }
  }

  const MismatchMessage: string := "选项标签和值必须提供且数量一致"
  const NoOptionsMessage: string := "对于此字段类型，选项内容不能为空"

  /** The options a create or update stores: for an option-bearing type the
      pairs, refused when there are no labels, the two lists differ in
      length, or every label is empty; for any other type `existing` (none
      on create, the stored options on update). */
  function BuildOptions(fieldType: Option<string>, labels: seq<string>, values: seq<string>,
                        existing: Option<seq<OptionPair>>): (r: Outcome<Option<seq<OptionPair>>>)
    ensures !(fieldType.Some? && fieldType.value in OptionTypes) ==> r == Done(existing)
    ensures fieldType.Some? && fieldType.value in OptionTypes ==>
      && (labels == [] || |labels| != |values| ==> r == Refused(Response(400, MismatchMessage)))
      && ((labels != [] && |labels| == |values| && (forall i :: 0 <= i < |labels| ==> labels[i] == ""))
            ==> r == Refused(Response(400, NoOptionsMessage)))
      && (r.Done? ==> r.value.Some? && r.value.value != []
                      && forall p :: p in r.value.value <==>
                           exists i :: 0 <= i < |labels| && labels[i] != "" && p == OptionPair(labels[i], values[i]))
      && (r.Done? ==> |labels| == |values| && r.value == Some(Pairs(labels, values)))
      && ((labels != [] && |labels| == |values| && (exists i :: 0 <= i < |labels| && labels[i] != "")) ==> r.Done?)
  {
    if fieldType.Some? && fieldType.value in OptionTypes then
      if labels == [] || |labels| != |values| then Refused(Response(400, MismatchMessage))
      else
        var pairs := Pairs(labels, values);
        PairsEmpty(labels, values);
        assert forall p :: p in pairs <==>
          exists i :: 0 <= i < |labels| && labels[i] != "" && p == OptionPair(labels[i], values[i]) by {
          forall p ensures p in pairs <==>
            exists i :: 0 <= i < |labels| && labels[i] != "" && p == OptionPair(labels[i], values[i]) {
            PairsIff(labels, values, p);
          }
        }
        if pairs == [] then Refused(Response(400, NoOptionsMessage)) else Done(Some(pairs))
    else Done(existing)
  }

  // ---- validation entries ----

  /** A scalar JSON value of the `validation` object. */
  datatype Scalar = SNull | SBool(b: bool) | SInt(i: int) | SStr(s: string)

  /** `rule_value or rule_value is False`: truthy values and `False` itself
      are stored; `None`, 0 and "" are not. */
  predicate Stored(v: Scalar)
  {
    match v
    case SNull => false
    case SBool(_) => true
    case SInt(i) => i != 0
    case SStr(s) => s != ""
  }

  /** `str(value)`. */
  function PyStr(v: Scalar): (r: string)
    ensures v == SBool(true) ==> r == "True"
    ensures v == SBool(false) ==> r == "False"
    ensures v.SStr? ==> r == v.s
    ensures v.SInt? && v.i >= 0 ==> r == NatToString(v.i) && AllDigits(r)
    ensures v.SInt? && v.i < 0 ==> |r| > 1 && r[0] == '-' && r[1..] == NatToString(-v.i)
    ensures v == SNull ==> r == "None"
  {
    match v
    case SNull => "None"
    case SBool(b) => if b then "True" else "False"
    case SInt(i) => if i < 0 then "-" + NatToString(-i) else NatToString(i)
    case SStr(s) => s
  }

  /** An integer's text reads back as that integer: its digits, after the
      sign for a negative one. */
  lemma PyStrIntValue(v: Scalar)
    requires v.SInt?
    ensures v.i >= 0 ==> DigitsValue(PyStr(v)) == v.i
    ensures v.i < 0 ==> DigitsValue(PyStr(v)[1..]) == -v.i
  {
    if v.i >= 0 {
      NatToStringValue(v.i);
    } else {
      NatToStringValue(-v.i);
    }
  }

  /** The rules stored for the items of `validation`, in their order. */
  function KeptRules(items: seq<(string, Scalar)>): (r: seq<ValidationRule>)
    ensures |r| <= |items|
  {
    if items == [] then []
    else
      var init := KeptRules(items[..|items| - 1]);
      var (t, v) := items[|items| - 1];
      if Stored(v) then init + [ValidationRule(t, PyStr(v))] else init
  }

  /** The rules of joined entry lists are the rules of the first followed
      by those of the second, so rules keep the order of their entries. */
  lemma {:induction false} KeptRulesAppend(xs: seq<(string, Scalar)>, ys: seq<(string, Scalar)>)
    ensures KeptRules(xs + ys) == KeptRules(xs) + KeptRules(ys)
    decreases |ys|
  {
    if ys != [] {
      var n := |ys| - 1;
      KeptRulesAppend(xs, ys[..n]);
      var (t, v) := ys[n];
      var tail := if Stored(v) then [ValidationRule(t, PyStr(v))] else [];
      assert (xs + ys)[..|xs + ys| - 1] == xs + ys[..n];
      assert KeptRules(xs + ys) == KeptRules(xs + ys[..n]) + tail;
      assert KeptRules(ys) == KeptRules(ys[..n]) + tail;
    } else {
      assert xs + ys == xs;
    }
  }

  /** One entry gives a rule exactly when its value is stored. */
  lemma KeptRulesSingle(t: string, v: Scalar)
    ensures KeptRules([(t, v)]) == if Stored(v) then [ValidationRule(t, PyStr(v))] else []
  {
    assert [(t, v)][..0] == [];
  }

  /** A rule is stored exactly for an entry whose value is truthy or
      `False`, as that value's text. */
  lemma {:induction false} KeptRulesIff(items: seq<(string, Scalar)>, e: ValidationRule)
    ensures e in KeptRules(items) <==>
              exists k :: 0 <= k < |items| && Stored(items[k].1) && e == ValidationRule(items[k].0, PyStr(items[k].1))
    decreases |items|
  {
    if items != [] {
      var n := |items| - 1;
      KeptRulesIff(items[..n], e);
      assert forall k :: 0 <= k < n ==> items[..n][k] == items[k];
    }
  }

  /** An unchecked checkbox is stored as the text False, while a cleared
      text box, a `null` and the number 0 store nothing. */
  lemma FalseIsKept(t: string)
    ensures KeptRules([(t, SBool(false))]) == [ValidationRule(t, "False")]
    ensures KeptRules([(t, SStr(""))]) == [] && KeptRules([(t, SNull)]) == [] && KeptRules([(t, SInt(0))]) == []
  {
    assert [(t, SBool(false))][..0] == [];
    assert [(t, SStr(""))][..0] == [];
    assert [(t, SNull)][..0] == [];
    assert [(t, SInt(0))][..0] == [];
  }

  /** The loop that adds a validation rule per stored entry. */
  method ValidationRules(items: seq<(string, Scalar)>) returns (rules: seq<ValidationRule>)
    ensures rules == KeptRules(items)
  {
    rules := [];
    var k := 0;
    while k < |items|
      invariant 0 <= k <= |items|
      invariant rules == KeptRules(items[..k])
    {
      assert items[..k + 1][..k] == items[..k];
      var (ruleType, ruleValue) := items[k];
      if Stored(ruleValue) {
        rules := rules + [ValidationRule(ruleType, PyStr(ruleValue))];
      }
      k := k + 1;
    }
    assert items[..|items|] == items;
  }

  // ---- the field table ----

  /** A stored field definition with its validation rules. */
  datatype FieldRecord = FieldRecord(
    sheetId: int, name: string, labelText: string, fieldType: string,
    options: Option<seq<OptionPair>>, defaultValue: Option<string>, helpTip: Option<string>,
    displayOrder: int, exportWordAsLabel: bool, exportExcelAsLabel: bool,
    rules: seq<ValidationRule>)

  /** The JSON body of a create or update; None is a key the body lacks. */
  datatype FieldRequest = FieldRequest(
    labelText: Option<string>, name: Option<string>, fieldType: Option<string>,
    optionLabels: seq<string>, optionValues: seq<string>,
    defaultValue: Option<string>, helpTip: Option<string>,
    exportWordAsLabel: Option<bool>, exportExcelAsLabel: Option<bool>,
    validation: seq<(string, Scalar)>)

  const MissingMessage: string := "标签、内部名称和字段类型均为必填项"

  /** `data.get(key, '').strip()` is empty. */
  predicate Blank(v: Option<string>)
  {
    v.None? || TrimPy(v.value) == ""
  }

  function OrDefault<T>(v: Option<T>, d: T): T
  {
    if v.Some? then v.value else d
  }

  /** The largest element of a finite non-empty set. */
  ghost function MaxOf(s: set<int>): (m: int)
    requires s != {}
    ensures m in s && forall x :: x in s ==> x <= m
  {
    NonEmptyHas(s);
    var x :| x in s;
    if s == {x} then x
    else
      var rest := MaxOf(s - {x});
      assert forall y :: y in s ==> y == x || y in s - {x};
      if x > rest then x else rest
  }

  lemma NonEmptyHas(s: set<int>)
    requires s != {}
    ensures exists x :: x in s
  {
    if forall x :: x !in s {
      assert false;
    }
  }

  /** The display orders of the fields of one sheet. */
  ghost function OrdersOf(fields: map<int, FieldRecord>, sheetId: int): set<int>
  {
    set id | id in fields && fields[id].sheetId == sheetId :: fields[id].displayOrder
  }

  /** The order a new field gets: one past the last field of the sheet, or 0
      in an empty sheet. */
  ghost function NextOrder(fields: map<int, FieldRecord>, sheetId: int): (r: int)
    ensures forall id :: id in fields && fields[id].sheetId == sheetId ==> fields[id].displayOrder < r
    ensures OrdersOf(fields, sheetId) == {} ==> r == 0
  {
    var orders := OrdersOf(fields, sheetId);
    assert forall id :: id in fields && fields[id].sheetId == sheetId ==> fields[id].displayOrder in orders;
    if orders == {} then 0 else MaxOf(orders) + 1
  }

  /** NextOrder is the only order that is 0 on an empty sheet, and otherwise
      one past the order of some field of the sheet and above all of them. */
  lemma NextOrderUnique(fields: map<int, FieldRecord>, sheetId: int, r: int)
    requires forall id :: id in fields && fields[id].sheetId == sheetId ==> fields[id].displayOrder < r
    requires (r == 0 && forall id :: id in fields ==> fields[id].sheetId != sheetId)
             || exists id :: id in fields && fields[id].sheetId == sheetId && fields[id].displayOrder == r - 1
    ensures r == NextOrder(fields, sheetId)
  {
    var orders := OrdersOf(fields, sheetId);
    assert forall j :: j in fields && fields[j].sheetId == sheetId ==> fields[j].displayOrder in orders;
    if orders != {} {
      var m := MaxOf(orders);
      var id :| id in fields && fields[id].sheetId == sheetId && fields[id].displayOrder == m;
      assert fields[id].displayOrder < r;
    }
  }

  /** Some field of the sheet already has the name. */
  predicate NameTaken(fields: map<int, FieldRecord>, sheetId: int, name: string)
  {
    exists id :: id in fields && fields[id].sheetId == sheetId && fields[id].name == name
  }

  /** What `create_field` decides, in the order of its checks: the options,
      then the three required keys, then the name's uniqueness in the sheet;
      otherwise the record it stores, at display order `order`. */
  function CreateOutcome(fields: map<int, FieldRecord>, sheetId: int, req: FieldRequest, order: int): Outcome<FieldRecord>
  {
    match BuildOptions(req.fieldType, req.optionLabels, req.optionValues, None)
    case Refused(resp) => Refused(resp)
    case Done(options) =>
      if Blank(req.labelText) || Blank(req.name) || req.fieldType.None? || req.fieldType.value == "" then
        Refused(Response(400, MissingMessage))
      else if NameTaken(fields, sheetId, req.name.value) then
        Refused(Response(400, "字段内部名称 '" + req.name.value + "' 已存在"))
      else
        Done(FieldRecord(sheetId, req.name.value, req.labelText.value, req.fieldType.value, options,
                         req.defaultValue, req.helpTip, order,
                         OrDefault(req.exportWordAsLabel, false), OrDefault(req.exportExcelAsLabel, true),
                         KeptRules(req.validation)))
  }

  /** A record is stored only when the label, the name and the type are
      present and the name is free in the sheet; it then carries that name,
      the sheet, the kept rules and the given display order. A taken name is
      always refused. */
  lemma CreateOutcomeSpec(fields: map<int, FieldRecord>, sheetId: int, req: FieldRequest, order: int)
    ensures var r := CreateOutcome(fields, sheetId, req, order);
      && (r.Done? ==> !Blank(req.labelText) && !Blank(req.name) && req.fieldType.Some? && req.fieldType.value != "")
      && (r.Done? ==> !NameTaken(fields, sheetId, req.name.value) && r.value.name == req.name.value)
      && (r.Done? ==> r.value.sheetId == sheetId && r.value.rules == KeptRules(req.validation))
      && (r.Done? ==> r.value.displayOrder == order)
      && (NameTaken(fields, sheetId, OrDefault(req.name, "")) ==> r.Refused?)
  {
  }

  /** What `update_field` makes of a stored record: absent keys keep the
      label and type, the options follow BuildOptions with the stored ones
      as fallback, default value and help tip are overwritten (with None
      when absent), the export flags change only when present, the rules are
      replaced, and the name never changes. */
  function UpdateOutcome(old_: FieldRecord, req: FieldRequest): (r: Outcome<FieldRecord>)
    ensures r.Done? ==> r.value.name == old_.name && r.value.sheetId == old_.sheetId
                        && r.value.displayOrder == old_.displayOrder
    ensures r.Done? ==> r.value.rules == KeptRules(req.validation)
    ensures r.Done? ==> r.value.labelText == OrDefault(req.labelText, old_.labelText)
    ensures r.Done? ==> r.value.fieldType == OrDefault(req.fieldType, old_.fieldType)
    ensures r.Done? ==> r.value.defaultValue == req.defaultValue && r.value.helpTip == req.helpTip
    ensures r.Done? && req.labelText.None? ==> r.value.labelText == old_.labelText
    ensures r.Done? && req.exportWordAsLabel.None? ==> r.value.exportWordAsLabel == old_.exportWordAsLabel
    ensures r.Done? && req.exportWordAsLabel.Some? ==> r.value.exportWordAsLabel == req.exportWordAsLabel.value
    ensures r.Done? && req.exportExcelAsLabel.None? ==> r.value.exportExcelAsLabel == old_.exportExcelAsLabel
    ensures r.Done? && req.exportExcelAsLabel.Some? ==> r.value.exportExcelAsLabel == req.exportExcelAsLabel.value
    ensures r.Done? && !(OrDefault(req.fieldType, old_.fieldType) in OptionTypes) ==> r.value.options == old_.options
    ensures OrDefault(req.fieldType, old_.fieldType) in OptionTypes ==>
              (r.Done? <==> req.optionLabels != [] && |req.optionLabels| == |req.optionValues|
                            && exists i :: 0 <= i < |req.optionLabels| && req.optionLabels[i] != "")
    ensures r.Done? && OrDefault(req.fieldType, old_.fieldType) in OptionTypes ==>
              r.value.options == Some(Pairs(req.optionLabels, req.optionValues))
  {
    var fieldType := OrDefault(req.fieldType, old_.fieldType);
    match BuildOptions(Some(fieldType), req.optionLabels, req.optionValues, old_.options)
    case Refused(resp) => Refused(resp)
    case Done(options) =>
      Done(old_.(labelText := OrDefault(req.labelText, old_.labelText), fieldType := fieldType,
                 options := options, defaultValue := req.defaultValue, helpTip := req.helpTip,
                 exportWordAsLabel := OrDefault(req.exportWordAsLabel, old_.exportWordAsLabel),
                 exportExcelAsLabel := OrDefault(req.exportExcelAsLabel, old_.exportExcelAsLabel),
                 rules := KeptRules(req.validation)))
  }

  /** The display orders after a reorder over the first ids of the list:
      each id of the sheet gets its position, a later position of the same
      id overriding an earlier one. */
  function Reordered(fields: map<int, FieldRecord>, sheetId: int, order: seq<int>): (r: map<int, FieldRecord>)
    ensures r.Keys == fields.Keys
  {
    if order == [] then fields
    else
      var before := Reordered(fields, sheetId, order[..|order| - 1]);
      var id := order[|order| - 1];
      if id in before && before[id].sheetId == sheetId then before[id := before[id].(displayOrder := |order| - 1)]
      else before
  }

  /** After a reorder, a field of the sheet listed in the order sits at its
      last position in the list; every other field, and everything but the
      order, is unchanged. */
  lemma {:induction false} ReorderedSpec(fields: map<int, FieldRecord>, sheetId: int, order: seq<int>, id: int)
    requires id in fields
    ensures var r := Reordered(fields, sheetId, order);
      && r[id] == fields[id].(displayOrder := r[id].displayOrder)
      && (fields[id].sheetId != sheetId || id !in order ==> r[id] == fields[id])
      && (fields[id].sheetId == sheetId && id in order ==>
            0 <= r[id].displayOrder < |order| && order[r[id].displayOrder] == id
            && id !in order[r[id].displayOrder + 1..])
    decreases |order|
  {
    if order != [] {
      var n := |order| - 1;
      ReorderedSpec(fields, sheetId, order[..n], id);
      var before := Reordered(fields, sheetId, order[..n]);
      assert order == order[..n] + [order[n]];
      if order[n] != id && id in order[..n] && fields[id].sheetId == sheetId {
        var p := before[id].displayOrder;
        assert order[p + 1..] == order[..n][p + 1..] + [order[n]];
      }
    }
  }

  /** The field table of the back office. */
  class FieldStore {
    var fields: map<int, FieldRecord>
    var nextId: int

    predicate Valid()
      reads this
    {
      forall id :: id in fields ==> id < nextId
    }

    constructor ()
      ensures Valid() && fields == map[]
    {
      fields := map[];
      nextId := 1;
    }

    /** `create_field`: a refused request stores nothing; an accepted one
        stores the record under a fresh id, after the last field of its
        sheet. */
    method CreateField(sheetId: int, req: FieldRequest) returns (resp: Response)
      requires Valid()
      modifies this
      ensures Valid()
      ensures var outcome := CreateOutcome(old(fields), sheetId, req, NextOrder(old(fields), sheetId));
        && (outcome.Refused? ==> resp == outcome.response && fields == old(fields))
        && (outcome.Done? ==> resp.status == 201 && old(nextId) !in old(fields)
                              && fields == old(fields)[old(nextId) := outcome.value])
    {
      var order := LastOrder(sheetId);
      var outcome := CreateOutcome(fields, sheetId, req, order);
      match outcome
      case Refused(r) =>
        resp := r;
      case Done(record) =>
        Insert(record);
        resp := Response(201, "新字段创建成功");
    }

    /** The INSERT: the record is stored under the next id, which was free. */
    method Insert(record: FieldRecord)
      requires Valid()
      modifies this
      ensures Valid()
      ensures old(nextId) !in old(fields) && fields == old(fields)[old(nextId) := record]
    {
      fields := fields[nextId := record];
      nextId := nextId + 1;
    }

    /** The query for the sheet's field with the highest display order: one
        past that order, or 0 when the sheet has no field. */
    method LastOrder(sheetId: int) returns (order: int)
      ensures order == NextOrder(fields, sheetId)
    {
      order := 0;
      var found := false;
      var rest := fields.Keys;
      while rest != {}
        invariant rest <= fields.Keys
        invariant forall id :: id in fields && id !in rest && fields[id].sheetId == sheetId ==> fields[id].displayOrder < order
        invariant !found ==> order == 0 && forall id :: id in fields && id !in rest ==> fields[id].sheetId != sheetId
        invariant found ==> exists id :: id in fields && fields[id].sheetId == sheetId && fields[id].displayOrder == order - 1
        decreases rest
      {
        NonEmptyHas(rest);
        var id :| id in rest;
        if fields[id].sheetId == sheetId && (!found || fields[id].displayOrder >= order) {
          order := fields[id].displayOrder + 1;
          found := true;
        }
        rest := rest - {id};
      }
      NextOrderUnique(fields, sheetId, order);
    }

    /** `update_field`; an unknown id raises inside the handler's `try` and
        is answered with 500. */
    method UpdateField(fieldId: int, req: FieldRequest) returns (resp: Response)
      requires Valid()
      modifies this
      ensures Valid()
      ensures fieldId !in old(fields) ==> resp.status == 500 && fields == old(fields)
      ensures fieldId in old(fields) && UpdateOutcome(old(fields)[fieldId], req).Refused? ==>
                resp == UpdateOutcome(old(fields)[fieldId], req).response && fields == old(fields)
      ensures fieldId in old(fields) && UpdateOutcome(old(fields)[fieldId], req).Done? ==>
                resp == Response(200, "字段 '" + UpdateOutcome(old(fields)[fieldId], req).value.labelText + "' 更新成功")
                && fields == old(fields)[fieldId := UpdateOutcome(old(fields)[fieldId], req).value]
    {
      if fieldId !in fields {
        return Response(500, NotFoundMessage);
      }
      var outcome := UpdateOutcome(fields[fieldId], req);
      if outcome.Refused? {
        return outcome.response;
      }
      fields := fields[fieldId := outcome.value];
      resp := Response(200, "字段 '" + outcome.value.labelText + "' 更新成功");
    }

    /** `reorder_fields`: position `index` of the list becomes the display
        order of that id when it is a field of this sheet. */
    method ReorderFields(sheetId: int, order: seq<int>)
      requires Valid()
      modifies this
      ensures Valid()
      ensures fields == Reordered(old(fields), sheetId, order) && nextId == old(nextId)
    {
      var index := 0;
      while index < |order|
        invariant 0 <= index <= |order|
        invariant Valid()
        invariant fields == Reordered(old(fields), sheetId, order[..index]) && nextId == old(nextId)
      {
        assert order[..index + 1][..index] == order[..index];
        var fieldId := order[index];
        if fieldId in fields && fields[fieldId].sheetId == sheetId {
          fields := fields[fieldId := fields[fieldId].(displayOrder := index)];
        }
        index := index + 1;
      }
      assert order[..|order|] == order;
    }
  }
}
