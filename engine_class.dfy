/** `ConditionalLogicEngine` of the project page: the form state and the
    option snapshot are fields updated in place; each method is proved to
    have the effect of the matching function of module Engine. */
module LogicEngine {
  import opened Text
  import opened Condition
  import opened Engine

  /** The switch over the action kind, applied to the elements of one
      target. */
  method TargetEffect(cfg: FieldConfig, kind: ActionKind, met: bool, st0: FieldState) returns (st: FieldState)
    ensures st == Apply(TargetPatch(cfg, kind, met), st0)
  {
    match kind {
      case Show => st := st0.(hidden := !met);
      case Hide => st := st0.(hidden := met);
      case Enable => st := EnableTarget(cfg, met, st0);
      case Disable => st := DisableTarget(cfg, met, st0);
      case SetRequired => st := RequireTarget(cfg, met, st0);
      case SetOptional => st := RequireTarget(cfg, if met then false else OriginallyRequired(cfg), st0);
      case _ => st := st0;
    }
  }

  /** `setAttribute('data-allow-…-space', 'true')` for the space rules the
      field defines. */
  method AllowSpaces(cfg: FieldConfig, st0: FieldState) returns (st: FieldState)
    ensures st == st0.(allowEnglishSpace := st0.allowEnglishSpace || HasTrueRule(cfg, "allowEnglishSpace"),
                       allowChineseSpace := st0.allowChineseSpace || HasTrueRule(cfg, "allowChineseSpace"))
  {
    st := st0;
    if HasTrueRule(cfg, "allowEnglishSpace") { st := st.(allowEnglishSpace := true); }
    if HasTrueRule(cfg, "allowChineseSpace") { st := st.(allowChineseSpace := true); }
  }

  method EnableTarget(cfg: FieldConfig, met: bool, st0: FieldState) returns (st: FieldState)
    ensures st == Apply(TargetPatch(cfg, Enable, met), st0)
  {
    st := st0.(disabled := !met);
    if met {
      st := st.(required := OriginallyRequired(cfg));
      st := AllowSpaces(cfg, st);
    }
  }

  method DisableTarget(cfg: FieldConfig, met: bool, st0: FieldState) returns (st: FieldState)
    ensures st == Apply(TargetPatch(cfg, Disable, met), st0)
  {
    st := st0.(disabled := met);
    if met {
      st := st.(required := false, allowEnglishSpace := false, allowChineseSpace := false);
    } else {
      var req := OriginallyRequired(cfg);
      var dis := OriginallyDisabled(cfg);
      st := st.(disabled := dis, required := req && !dis);
      st := AllowSpaces(cfg, st);
    }
  }

  /** `set_required` and `set_optional` differ only in the required flag
      they compute. */
  method RequireTarget(cfg: FieldConfig, isRequired: bool, st0: FieldState) returns (st: FieldState)
    ensures st == Apply(Keep.(required := Some(isRequired), allowEnglishSpace := AllowAttr(cfg, "allowEnglishSpace"),
                              allowChineseSpace := AllowAttr(cfg, "allowChineseSpace")), st0)
  {
    st := st0.(required := isRequired);
    st := AllowSpaces(cfg, st);
  }

  /** The pruning loop of `_filterOptions`: keeps the placeholder option
      and the options whose value is allowed, in their order. */
  method KeepAllowed(original: seq<OptionItem>, allowed: seq<string>) returns (kept: seq<OptionItem>)
    ensures kept == Kept(original, allowed)
  {
    kept := [];
    var i := 0;
    while i < |original|
      invariant 0 <= i <= |original|
      invariant kept == Kept(original[..i], allowed)
    {
      var o := original[i];
      if o.value == "" || o.value in allowed {
        kept := kept + [o];
      }
      assert original[..i + 1][..i] == original[..i];
      i := i + 1;
    }
    assert original[..|original|] == original;
  }

  /** The search for the previous selection among the rebuilt options. */
  method Offers(opts: seq<OptionItem>, v: string) returns (found: bool)
    ensures found == HasValue(opts, v)
  {
    found := false;
    var j := 0;
    while j < |opts|
      invariant 0 <= j <= |opts|
      invariant found <==> exists k :: 0 <= k < j && opts[k].value == v
    {
      if opts[j].value == v {
        found := true;
      }
      j := j + 1;
    }
  }

  class ConditionalLogicEngine {
    const rules: seq<Rule>
    const fields: Fields
    var form: Form
    var originalOptions: Snapshots

    predicate Valid()
      reads this
    {
      Covers(fields, form)
    }

    /** The field list becomes a dictionary keyed by name; no options are
        recorded yet. */
    constructor (form0: Form, rules0: seq<Rule>, fieldList: seq<FieldConfig>)
      requires Covers(FieldsByName(fieldList), form0)
      ensures Valid()
      ensures form == form0 && rules == rules0 && fields == FieldsByName(fieldList)
      ensures originalOptions == map[]
    {
      form := form0;
      rules := rules0;
      fields := FieldsByName(fieldList);
      originalOptions := map[];
    }

    /** `init`: records the options of every select not recorded yet, then
        applies the defined disabled state. */
    method Init()
      requires Valid()
      modifies this
      ensures Valid()
      ensures originalOptions == Snapshot(old(originalOptions), old(form))
      ensures form == InitialDisabledOn(fields, old(form), fields.Keys)
    {
      var remaining := form.Keys;
      ghost var seen: set<string> := {};
      while remaining != {}
        invariant remaining + seen == form.Keys && remaining !! seen
        invariant form == old(form)
        invariant originalOptions == Snapshot(old(originalOptions), map n | n in seen :: form[n])
        decreases remaining
      {
        var name :| name in remaining;
        SnapshotStep(old(originalOptions), form, seen, name);
        if name !in originalOptions && form[name].control.SelectBox? {
          originalOptions := originalOptions[name := form[name].options];
        }
        remaining := remaining - {name};
        seen := seen + {name};
      }
      assert (map n | n in seen :: form[n]) == form;
      ApplyInitialDisabledState();
    }

    /** `_applyInitialDisabledState`: every field defined as disabled that
        has an element is disabled, made optional and loses its space
        attributes. */
    method ApplyInitialDisabledState()
      requires Valid()
      modifies this`form
      ensures Valid()
      ensures form == InitialDisabledOn(fields, old(form), fields.Keys)
    {
      var remaining := fields.Keys;
      ghost var done: set<string> := {};
      while remaining != {}
        invariant remaining + done == fields.Keys && remaining !! done
        invariant form == InitialDisabledOn(fields, old(form), done)
        decreases remaining
      {
        var name :| name in remaining;
        InitialDisabledStep(fields, old(form), done, name);
        if OriginallyDisabled(fields[name]) && name in form {
          var st := form[name];
          form := form[name := st.(disabled := true, required := false, allowEnglishSpace := false, allowChineseSpace := false)];
        }
        remaining := remaining - {name};
        done := done + {name};
      }
    }

    /** `evaluateAllRules`. */
    method EvaluateAllRules()
      requires Valid()
      modifies this`form
      ensures Valid()
      ensures form == AfterPass(fields, originalOptions, old(form), rules)
    {
      var i := 0;
      while i < |rules|
        invariant 0 <= i <= |rules|
        invariant Valid()
        invariant form == AfterPass(fields, originalOptions, old(form), rules[..i])
      {
        ApplyRule(rules[i]);
        assert rules[..i + 1][..i] == rules[..i];
        i := i + 1;
      }
      assert rules[..|rules|] == rules;
    }

    /** `applyRule`: the condition is evaluated once, then every action runs
        with that outcome. */
    method ApplyRule(rule: Rule)
      requires Valid()
      modifies this`form
      ensures Valid()
      ensures form == AfterRule(fields, originalOptions, old(form), rule)
    {
      var met := RuleMet(form, rule);
      ExecuteActions(rule.actions, met, rule.cond.field);
    }

    /** The action loop of `applyRule`. */
    method ExecuteActions(actions: seq<Action>, met: bool, triggerField: string)
      requires Valid()
      modifies this`form
      ensures Valid()
      ensures form == AfterActions(fields, originalOptions, old(form), actions, met, triggerField)
    {
      var j := 0;
      while j < |actions|
        invariant 0 <= j <= |actions|
        invariant Valid()
        invariant form == AfterActions(fields, originalOptions, old(form), actions[..j], met, triggerField)
      {
        ExecuteAction(actions[j], met, triggerField);
        assert actions[..j + 1][..j] == actions[..j];
        j := j + 1;
      }
      assert actions[..|actions|] == actions;
    }

    /** `_executeAction`. */
    method ExecuteAction(a: Action, met: bool, triggerField: string)
      requires Valid()
      modifies this`form
      ensures Valid()
      ensures form == AfterAction(fields, originalOptions, old(form), a, met, triggerField)
    {
      var kind := Kind(a);
      var i := 0;
      while i < |a.targets|
        invariant 0 <= i <= |a.targets|
        invariant Valid()
        invariant form == AfterTargets(fields, kind, met, old(form), a.targets[..i])
      {
        ApplyToTarget(a.targets[i], kind, met);
        assert a.targets[..i + 1][..i] == a.targets[..i];
        i := i + 1;
      }
      assert a.targets[..|a.targets|] == a.targets;
      if kind == ValidateComparison && met {
        PerformComparison(a);
      }
      if kind == FilterOpts {
        var trigger := GetFieldValue(form, triggerField);
        FilterOptions(a, trigger);
      }
    }

    /** One pass of the target loop: the switch over the action kind. */
    method ApplyToTarget(t: string, kind: ActionKind, met: bool)
      requires Valid()
      modifies this`form
      ensures Valid()
      ensures form == AfterTarget(fields, kind, met, old(form), t)
    {
      if t !in form {
        return;
      }
      var st := TargetEffect(fields[t], kind, met, form[t]);
      form := form[t := st];
    }

    /** `_performComparison`: sets or clears the first target's validity
        message. */
    method PerformComparison(a: Action)
      requires Valid()
      modifies this`form
      ensures Valid()
      ensures form == AfterComparison(fields, old(form), a)
    {
      var t := FirstTarget(a);
      var c := ComparisonName(a);
      if t !in form {
        return;
      }
      if c !in form || form[t].value == "" || form[c].value == "" {
        form := form[t := form[t].(validity := "")];
        return;
      }
      var isValid := Check(GetFieldValue(form, t), Cond(t, a.operator, form[c].value));
      var message := "";
      if !isValid {
        message := Interpolate(MessageTemplate(fields, a), form);
      }
      form := form[t := form[t].(validity := message)];
    }

    /** `_filterOptions`: rebuilds the first target's options from the
        snapshot, prunes them on a match, then restores the selection if it
        is still offered. */
    method FilterOptions(a: Action, trigger: Value)
      requires Valid()
      modifies this`form
      ensures Valid()
      ensures form == AfterFilter(originalOptions, old(form), a, trigger)
    {
      var t := FirstTarget(a);
      if t !in form || t !in originalOptions {
        return;
      }
      var original := originalOptions[t];
      var currentVal := form[t].value;
      var opts := original;
      if a.filterValue.Some? && trigger == Str(a.filterValue.value) {
        opts := KeepAllowed(original, a.options);
      }
      var found := Offers(opts, currentVal);
      form := form[t := form[t].(options := opts, value := if found then currentVal else "")];
    }
  }
}
