/** The guard of the rule-authoring API: a conditional rule whose trigger
    field is also one of its targets would re-trigger itself, so creating or
    updating such a rule is refused before anything is stored. */
module RuleGuard {
  import opened Text

  /** A decoded JSON document as Python sees it. */
  datatype Json =
    | JNull
    | JBool(b: bool)
    | JInt(i: int)
    | JStr(s: string)
    | JList(items: seq<Json>)
    | JDict(entries: map<string, Json>)

  /** Python truthiness. */
  predicate Truthy(j: Json)
  {
    match j
    case JNull => false
    case JBool(b) => b
    case JInt(i) => i != 0
    case JStr(s) => s != ""
    case JList(items) => items != []
    case JDict(entries) => entries != map[]
  }

  /** `d.get(key, default)`, on rule definitions and on the rows of an imported sheet. */
  function Get<V>(d: map<string, V>, key: string, default: V): (r: V)
    ensures key in d ==> r == d[key]
    ensures key !in d ==> r == default
  {
    if key in d then d[key] else default
  }

  /** Python `==` on the values a rule holds: booleans are the integers 0 and
      1; other values compare structurally. */
  predicate PyEq(a: Json, b: Json)
  {
    if (a.JBool? || a.JInt?) && (b.JBool? || b.JInt?) then NumOf(a) == NumOf(b) else a == b
  }

  function NumOf(j: Json): int
    requires j.JBool? || j.JInt?
  {
    if j.JBool? then (if j.b then 1 else 0) else j.i
  }

  /** `trigger in targets` for a list. */
  predicate ListHas(items: seq<Json>, x: Json)
  {
    exists k :: 0 <= k < |items| && PyEq(items[k], x)
  }

  /** One action of `then` names the trigger among its targets: a dict whose
      `targets` (default []) is a list containing it. */
  predicate Names(action: Json, trigger: Json)
  {
    action.JDict? &&
    var targets := Get(action.entries, "targets", JList([]));
    targets.JList? && ListHas(targets.items, trigger)
  }

  /** The loop of `is_rule_self_referential`: true at the first action that
      names the trigger; non-dict actions and non-list targets are skipped. */
  function AnyNames(actions: seq<Json>, trigger: Json): bool
  {
    if actions == [] then false
    else if Names(actions[0], trigger) then true
    else AnyNames(actions[1..], trigger)
  }

  lemma {:induction false} AnyNamesIff(actions: seq<Json>, trigger: Json)
    ensures AnyNames(actions, trigger) <==> exists i :: 0 <= i < |actions| && Names(actions[i], trigger)
    decreases |actions|
  {
    if actions != [] {
      AnyNamesIff(actions[1..], trigger);
      assert forall i :: 1 <= i < |actions| ==> actions[i] == actions[1..][i - 1];
    }
  }

  /** `is_rule_self_referential`. */
  function IsRuleSelfReferential(definition: Json): bool
  {
    if !definition.JDict? then false
    else
      var ifClause := Get(definition.entries, "if", JNull);
      if !ifClause.JDict? then false
      else
        var trigger := Get(ifClause.entries, "field", JNull);
        if !Truthy(trigger) then false
        else
          var actions := Get(definition.entries, "then", JList([]));
          if !actions.JList? then false
          else AnyNames(actions.items, trigger)
  }

  /** A rule is self-referential exactly when it is a dict whose `if` clause
      is a dict with a truthy `field`, whose `then` is present and a list, and
      one action of which lists that field among its targets. So a non-dict
      definition, a missing or non-dict `if`, an empty trigger and a non-list
      `then` all give false. */
  lemma SelfReferentialIff(definition: Json)
    ensures IsRuleSelfReferential(definition) <==>
      && definition.JDict?
      && "if" in definition.entries && definition.entries["if"].JDict?
      && "field" in definition.entries["if"].entries
      && Truthy(definition.entries["if"].entries["field"])
      && "then" in definition.entries && definition.entries["then"].JList?
      && exists i :: 0 <= i < |definition.entries["then"].items|
           && Names(definition.entries["then"].items[i], definition.entries["if"].entries["field"])
  {
    if definition.JDict? && "if" in definition.entries && definition.entries["if"].JDict?
       && "field" in definition.entries["if"].entries && "then" in definition.entries
       && definition.entries["then"].JList? {
      AnyNamesIff(definition.entries["then"].items, definition.entries["if"].entries["field"]);
    }
  }

  /** A stored conditional rule. */
  datatype StoredRule = StoredRule(sheetId: int, name: Json, definition: Json)

  /** The HTTP status a handler answers with. */
  datatype Response = Response(status: int, message: string)

  const RequiredMessage: string := "规则名称和定义为必填项"
  const NotFoundMessage: string := "404 Not Found: The requested URL was not found on the server. If you entered the URL manually please check your spelling and try again."
  const LoopMessage: string := "联动规则配置错误：触发条件的字段不能作为目标字段，这会造成死循环。"

  /** Python's name for the type of a value. */
  function TypeName(j: Json): string
  {
    match j
    case JNull => "NoneType"
    case JBool(_) => "bool"
    case JInt(_) => "int"
    case JStr(_) => "str"
    case JList(_) => "list"
    case JDict(_) => "dict"
  }

  /** The checks shared by create and update, in their order: `data`, its
      `name` and `definition` must be truthy (a body that is truthy but not a
      dict makes `data.get` raise, answered with 500), and the definition must
      not be self-referential. None means the request may be stored. */
  function RuleRequestError(data: Json): (r: Option<Response>)
    ensures r.None? <==> data.JDict? && Truthy(data)
                          && Truthy(Get(data.entries, "name", JNull))
                          && Truthy(Get(data.entries, "definition", JNull))
                          && !IsRuleSelfReferential(data.entries["definition"])
    ensures r.Some? && r.value.status == 400 && Truthy(data) && data.JDict?
            && Truthy(Get(data.entries, "name", JNull)) && Truthy(Get(data.entries, "definition", JNull))
            ==> r.value.message == LoopMessage
  {
    if !Truthy(data) then Some(Response(400, RequiredMessage))
    else if !data.JDict? then Some(Response(500, "'" + TypeName(data) + "' object has no attribute 'get'"))
    else if !Truthy(Get(data.entries, "name", JNull)) || !Truthy(Get(data.entries, "definition", JNull)) then
      Some(Response(400, RequiredMessage))
    else if IsRuleSelfReferential(data.entries["definition"]) then Some(Response(400, LoopMessage))
    else None
  }

  /** The answer to an accepted update, naming the rule. A name that is not
      a JSON string goes through the database column's own conversion,
      which is not part of this model; it is rendered as empty here. */
  function UpdatedMessage(name: Json): (r: string)
    ensures name.JStr? ==> r == "规则 '" + name.s + "' 已更新"
  {
    "规则 '" + (if name.JStr? then name.s else "") + "' 已更新"
  }

  /** The rules table of the rule-authoring API. Every rule stored through
      it passed the guard, so none is self-referential. */
  class RuleStore {
    var rules: map<int, StoredRule>
    var nextId: int

    predicate Valid()
      reads this
    {
      && (forall id :: id in rules ==> id < nextId)
      && (forall id :: id in rules ==> !IsRuleSelfReferential(rules[id].definition))
    }

    constructor ()
      ensures Valid() && rules == map[]
    {
      rules := map[];
      nextId := 1;
    }

    /** `create_conditional_rule`: a refused request stores nothing; an
        accepted one is stored under a fresh id. */
    method CreateConditionalRule(sheetId: int, data: Json) returns (resp: Response)
      requires Valid()
      modifies this
      ensures Valid()
      ensures RuleRequestError(data).Some? ==>
                (resp == RuleRequestError(data).value && rules == old(rules) && nextId == old(nextId))
      ensures RuleRequestError(data).None? ==>
                resp == Response(201, "新联动规则已创建") && old(nextId) !in old(rules)
                && rules == old(rules)[old(nextId) := StoredRule(sheetId, data.entries["name"], data.entries["definition"])]
    {
      var err := RuleRequestError(data);
      if err.Some? {
        return err.value;
      }
      rules := rules[nextId := StoredRule(sheetId, data.entries["name"], data.entries["definition"])];
      nextId := nextId + 1;
      resp := Response(201, "新联动规则已创建");
    }

    /** `update_conditional_rule`: a refused request changes nothing; an
        accepted one replaces name and definition. The 404 that
        `get_or_404` raises for an unknown id is caught by the handler's own
        `except Exception`, so the answer is 500. */
    method UpdateConditionalRule(ruleId: int, data: Json) returns (resp: Response)
      requires Valid()
      modifies this
      ensures Valid() && nextId == old(nextId)
      ensures ruleId !in old(rules) ==> resp.status == 500 && rules == old(rules)
      ensures ruleId in old(rules) && RuleRequestError(data).Some? ==>
                resp == RuleRequestError(data).value && rules == old(rules)
      ensures ruleId in old(rules) && RuleRequestError(data).None? ==>
                resp == Response(200, UpdatedMessage(data.entries["name"]))
                && (data.entries["name"].JStr? ==> resp.message == "规则 '" + data.entries["name"].s + "' 已更新")
                && rules == old(rules)[ruleId := old(rules)[ruleId].(name := data.entries["name"],
                                                                    definition := data.entries["definition"])]
    {
      if ruleId !in rules {
        return Response(500, NotFoundMessage);
      }
      var err := RuleRequestError(data);
      if err.Some? {
        return err.value;
      }
      rules := rules[ruleId := rules[ruleId].(name := data.entries["name"], definition := data.entries["definition"])];
      resp := Response(200, UpdatedMessage(data.entries["name"]));
    }
  }
}
