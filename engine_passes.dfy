/** Repeated evaluation passes. Without `filter_options`, every action only
    assigns attributes (hidden, disabled, required, the space attributes,
    validity) to values computed from the field values, and no action
    changes a value; so a second pass recomputes the same assignments and
    changes nothing. `filter_options` breaks this: it changes a value that an
    earlier rule of the pass may have read. */
module EnginePasses {
  import opened Text
  import opened Condition
  import opened Engine

  /** A patch per field name. */
  type FormPatch = map<string, Patch>

  function ApplyForm(p: FormPatch, form: Form): (r: Form)
    ensures r.Keys == form.Keys
  {
    map n | n in form :: if n in p then Apply(p[n], form[n]) else form[n]
  }

  /** `p` followed by `q`, field by field. */
  function ThenForm(p: FormPatch, q: FormPatch): FormPatch
  {
    map n | n in p.Keys + q.Keys :: if n in p && n in q then Then(p[n], q[n]) else if n in q then q[n] else p[n]
  }

  lemma ApplyFormThen(p: FormPatch, q: FormPatch, form: Form)
    ensures ApplyForm(q, ApplyForm(p, form)) == ApplyForm(ThenForm(p, q), form)
  {
    forall n | n in form
      ensures ApplyForm(q, ApplyForm(p, form))[n] == ApplyForm(ThenForm(p, q), form)[n]
    {
      if n in p && n in q { ApplyThen(p[n], q[n], form[n]); }
    }
  }

  lemma ApplyFormTwice(p: FormPatch, form: Form)
    ensures ApplyForm(p, ApplyForm(p, form)) == ApplyForm(p, form)
  {
    forall n | n in form
      ensures ApplyForm(p, ApplyForm(p, form))[n] == ApplyForm(p, form)[n]
    {
      if n in p { ApplyTwice(p[n], form[n]); }
    }
  }

  /** Two forms with the same names, controls and values: every condition,
      comparison and message reads the same on both. */
  predicate SameView(f: Form, g: Form)
  {
    f.Keys == g.Keys && forall n :: n in f ==> f[n].control == g[n].control && f[n].value == g[n].value
  }

  lemma ValueSameView(f: Form, g: Form, name: string)
    requires SameView(f, g)
    ensures GetFieldValue(f, name) == GetFieldValue(g, name)
  {
  }

  /** Same field values, same message. */
  lemma {:induction false} InterpolateSameValues(msg: string, f: Form, g: Form)
    requires forall n :: GetFieldValue(f, n) == GetFieldValue(g, n)
    ensures Interpolate(msg, f) == Interpolate(msg, g)
    decreases |msg|
  {
    if msg != [] {
      if |msg| >= 2 && msg[0] == '$' && msg[1] == '{' && PlaceholderEnd(msg[2..]).Some? {
        var k := PlaceholderEnd(msg[2..]).value;
        InterpolateSameValues(msg[3 + k..], f, g);
      } else {
        InterpolateSameValues(msg[1..], f, g);
      }
    }
  }

  lemma InterpolateSameView(msg: string, f: Form, g: Form)
    requires SameView(f, g)
    ensures Interpolate(msg, f) == Interpolate(msg, g)
  {
    forall n ensures GetFieldValue(f, n) == GetFieldValue(g, n) {
      ValueSameView(f, g, n);
    }
    InterpolateSameValues(msg, f, g);
  }

  // ---- each step as a patch ----

  function TargetsPatch(fields: Fields, kind: ActionKind, met: bool, targets: seq<string>): FormPatch
  {
    if targets == [] then map[]
    else
      var t := targets[|targets| - 1];
      ThenForm(TargetsPatch(fields, kind, met, targets[..|targets| - 1]),
               if t in fields then map[t := TargetPatch(fields[t], kind, met)] else map[])
  }

  lemma {:induction false} TargetsAsPatch(fields: Fields, kind: ActionKind, met: bool, form: Form, targets: seq<string>)
    requires Covers(fields, form)
    ensures AfterTargets(fields, kind, met, form, targets) == ApplyForm(TargetsPatch(fields, kind, met, targets), form)
    decreases |targets|
  {
    if targets != [] {
      var init := targets[..|targets| - 1];
      var t := targets[|targets| - 1];
      TargetsAsPatch(fields, kind, met, form, init);
      var p := TargetsPatch(fields, kind, met, init);
      var single: FormPatch := if t in fields then map[t := TargetPatch(fields[t], kind, met)] else map[];
      var mid := ApplyForm(p, form);
      assert AfterTarget(fields, kind, met, mid, t) == ApplyForm(single, mid);
      ApplyFormThen(p, single, form);
    }
  }

  function ComparisonPatch(fields: Fields, form: Form, a: Action): FormPatch
    requires Covers(fields, form)
  {
    match ComparisonValidity(fields, form, a)
    case None => map[]
    case Some(msg) => map[FirstTarget(a) := Keep.(validity := Some(msg))]
  }

  lemma ComparisonAsPatch(fields: Fields, form: Form, a: Action)
    requires Covers(fields, form)
    ensures AfterComparison(fields, form, a) == ApplyForm(ComparisonPatch(fields, form, a), form)
  {
  }

  lemma ComparisonSameView(fields: Fields, f: Form, g: Form, a: Action)
    requires Covers(fields, f) && SameView(f, g)
    ensures ComparisonValidity(fields, f, a) == ComparisonValidity(fields, g, a)
  {
    var t := FirstTarget(a);
    ValueSameView(f, g, t);
    if fields.Keys >= f.Keys && ComparisonName(a) in fields {
      InterpolateSameView(MessageTemplate(fields, a), f, g);
    }
  }

  function ActionPatch(fields: Fields, form: Form, a: Action, met: bool): FormPatch
    requires Covers(fields, form)
  {
    ThenForm(TargetsPatch(fields, Kind(a), met, a.targets),
             if Kind(a) == ValidateComparison && met then ComparisonPatch(fields, form, a) else map[])
  }

  lemma ActionAsPatch(fields: Fields, snapshots: Snapshots, form: Form, a: Action, met: bool, triggerField: string)
    requires Covers(fields, form) && Kind(a) != FilterOpts
    ensures AfterAction(fields, snapshots, form, a, met, triggerField) == ApplyForm(ActionPatch(fields, form, a, met), form)
  {
    var tp := TargetsPatch(fields, Kind(a), met, a.targets);
    TargetsAsPatch(fields, Kind(a), met, form, a.targets);
    var f1 := ApplyForm(tp, form);
    var cp: FormPatch := if Kind(a) == ValidateComparison && met then ComparisonPatch(fields, form, a) else map[];
    if Kind(a) == ValidateComparison && met {
      ComparisonAsPatch(fields, f1, a);
      ComparisonSameView(fields, form, f1, a);
      assert AfterComparison(fields, f1, a) == ApplyForm(cp, f1);
    } else {
      assert f1 == ApplyForm(cp, f1);
    }
    ApplyFormThen(tp, cp, form);
  }

  lemma ActionPatchSameView(fields: Fields, f: Form, g: Form, a: Action, met: bool)
    requires Covers(fields, f) && SameView(f, g)
    ensures ActionPatch(fields, f, a, met) == ActionPatch(fields, g, a, met)
  {
    ComparisonSameView(fields, f, g, a);
  }

  predicate NoFilter(actions: seq<Action>)
  {
    forall i :: 0 <= i < |actions| ==> Kind(actions[i]) != FilterOpts
  }

  function ActionsPatch(fields: Fields, form: Form, actions: seq<Action>, met: bool): FormPatch
    requires Covers(fields, form)
  {
    if actions == [] then map[]
    else ThenForm(ActionsPatch(fields, form, actions[..|actions| - 1], met), ActionPatch(fields, form, actions[|actions| - 1], met))
  }

  lemma {:induction false} ActionsAsPatch(fields: Fields, snapshots: Snapshots, form: Form, actions: seq<Action>, met: bool, triggerField: string)
    requires Covers(fields, form) && NoFilter(actions)
    ensures AfterActions(fields, snapshots, form, actions, met, triggerField) == ApplyForm(ActionsPatch(fields, form, actions, met), form)
    decreases |actions|
  {
    if actions != [] {
      var init := actions[..|actions| - 1];
      var a := actions[|actions| - 1];
      assert NoFilter(init) by {
        assert forall i :: 0 <= i < |init| ==> init[i] == actions[i];
      }
      ActionsAsPatch(fields, snapshots, form, init, met, triggerField);
      var p := ActionsPatch(fields, form, init, met);
      var mid := ApplyForm(p, form);
      assert Kind(a) != FilterOpts by { assert a == actions[|actions| - 1]; }
      ActionAsPatch(fields, snapshots, mid, a, met, triggerField);
      ActionPatchSameView(fields, form, mid, a, met);
      ApplyFormThen(p, ActionPatch(fields, form, a, met), form);
    }
  }

  lemma {:induction false} ActionsPatchSameView(fields: Fields, f: Form, g: Form, actions: seq<Action>, met: bool)
    requires Covers(fields, f) && SameView(f, g)
    ensures ActionsPatch(fields, f, actions, met) == ActionsPatch(fields, g, actions, met)
    decreases |actions|
  {
    if actions != [] {
      ActionsPatchSameView(fields, f, g, actions[..|actions| - 1], met);
      ActionPatchSameView(fields, f, g, actions[|actions| - 1], met);
    }
  }

  function RulePatch(fields: Fields, form: Form, rule: Rule): FormPatch
    requires Covers(fields, form)
  {
    ActionsPatch(fields, form, rule.actions, RuleMet(form, rule))
  }

  predicate NoFilterRules(rules: seq<Rule>)
  {
    forall i :: 0 <= i < |rules| ==> NoFilter(rules[i].actions)
  }

  function PassPatch(fields: Fields, form: Form, rules: seq<Rule>): FormPatch
    requires Covers(fields, form)
  {
    if rules == [] then map[]
    else ThenForm(PassPatch(fields, form, rules[..|rules| - 1]), RulePatch(fields, form, rules[|rules| - 1]))
  }

  lemma RulePatchSameView(fields: Fields, f: Form, g: Form, rule: Rule)
    requires Covers(fields, f) && SameView(f, g)
    ensures RulePatch(fields, f, rule) == RulePatch(fields, g, rule)
  {
    ValueSameView(f, g, rule.cond.field);
    ActionsPatchSameView(fields, f, g, rule.actions, RuleMet(f, rule));
  }

  lemma {:induction false} PassPatchSameView(fields: Fields, f: Form, g: Form, rules: seq<Rule>)
    requires Covers(fields, f) && SameView(f, g)
    ensures PassPatch(fields, f, rules) == PassPatch(fields, g, rules)
    decreases |rules|
  {
    if rules != [] {
      PassPatchSameView(fields, f, g, rules[..|rules| - 1]);
      RulePatchSameView(fields, f, g, rules[|rules| - 1]);
    }
  }

  lemma {:induction false} PassAsPatch(fields: Fields, snapshots: Snapshots, form: Form, rules: seq<Rule>)
    requires Covers(fields, form) && NoFilterRules(rules)
    ensures AfterPass(fields, snapshots, form, rules) == ApplyForm(PassPatch(fields, form, rules), form)
    decreases |rules|
  {
    if rules != [] {
      var init := rules[..|rules| - 1];
      var rule := rules[|rules| - 1];
      assert NoFilterRules(init) by {
        assert forall i :: 0 <= i < |init| ==> init[i] == rules[i];
      }
      PassAsPatch(fields, snapshots, form, init);
      var p := PassPatch(fields, form, init);
      var mid := ApplyForm(p, form);
      assert NoFilter(rule.actions);
      ActionsAsPatch(fields, snapshots, mid, rule.actions, RuleMet(mid, rule), rule.cond.field);
      RulePatchSameView(fields, form, mid, rule);
      assert RuleMet(mid, rule) == RuleMet(form, rule) by { ValueSameView(form, mid, rule.cond.field); }
      ApplyFormThen(p, RulePatch(fields, form, rule), form);
    }
  }

  /** A pass without `filter_options` actions changes only hidden, disabled,
      required, the space attributes and validity, never a value, an option
      list or the set of fields. */
  lemma PassKeepsValues(fields: Fields, snapshots: Snapshots, form: Form, rules: seq<Rule>)
    requires Covers(fields, form) && NoFilterRules(rules)
    ensures var r := AfterPass(fields, snapshots, form, rules);
      r.Keys == form.Keys
      && forall n :: n in form ==> r[n].value == form[n].value && r[n].options == form[n].options && r[n].control == form[n].control
  {
    PassAsPatch(fields, snapshots, form, rules);
  }

  /** Running the rules again right after a pass changes nothing, when no
      rule filters options. */
  lemma PassIdempotent(fields: Fields, snapshots: Snapshots, form: Form, rules: seq<Rule>)
    requires Covers(fields, form) && NoFilterRules(rules)
    ensures AfterPass(fields, snapshots, AfterPass(fields, snapshots, form, rules), rules)
         == AfterPass(fields, snapshots, form, rules)
  {
    var p := PassPatch(fields, form, rules);
    var once := AfterPass(fields, snapshots, form, rules);
    PassAsPatch(fields, snapshots, form, rules);
    assert once == ApplyForm(p, form);
    assert SameView(form, once);
    PassAsPatch(fields, snapshots, once, rules);
    PassPatchSameView(fields, form, once, rules);
    ApplyFormTwice(p, form);
  }

  // ---- filter_options can make a second pass differ ----

  function PlainField(value: string): FieldState
  {
    FieldState(TextInput, value, [], false, false, false, false, false, "")
  }

  /** A select `x` offering a placeholder, `a` and `b`, with `a` selected; a
      rule hiding `y` when `x` is empty, followed by a rule keeping only `b`
      in `x` when `t` equals `k`. */
  const ExampleOptions: seq<OptionItem> := [OptionItem("", "-"), OptionItem("a", "A"), OptionItem("b", "B")]
  const ExampleFields: Fields := map["x" := FieldConfig("x", "X", []), "y" := FieldConfig("y", "Y", []), "t" := FieldConfig("t", "T", [])]
  const ExampleForm: Form := map["x" := PlainField("a").(control := SelectBox, options := ExampleOptions), "y" := PlainField(""), "t" := PlainField("k")]
  const ExampleSnapshots: Snapshots := map["x" := ExampleOptions]
  const HideWhenEmpty: Rule := Rule(Cond("x", "is_empty", ""), [Action("hide", "", ["y"], None, "", "", None, [])])
  const FilterOnK: Rule := Rule(Cond("t", "equals", "k"), [Action("filter_options", "", ["x"], None, "", "", Some("k"), ["b"])])

  lemma PassOfTwo(fields: Fields, snapshots: Snapshots, form: Form, r1: Rule, r2: Rule)
    requires Covers(fields, form)
    ensures AfterPass(fields, snapshots, form, [r1, r2])
         == AfterRule(fields, snapshots, AfterRule(fields, snapshots, form, r1), r2)
  {
    assert [r1, r2][..1] == [r1];
    assert [r1][..0] == [];
    assert AfterPass(fields, snapshots, form, [r1]) == AfterRule(fields, snapshots, form, r1);
  }

  lemma RuleOfOne(fields: Fields, snapshots: Snapshots, form: Form, rule: Rule)
    requires Covers(fields, form) && |rule.actions| == 1
    ensures AfterRule(fields, snapshots, form, rule)
         == AfterAction(fields, snapshots, form, rule.actions[0], RuleMet(form, rule), rule.cond.field)
  {
    assert rule.actions[..0] == [];
    assert AfterActions(fields, snapshots, form, [], RuleMet(form, rule), rule.cond.field) == form;
  }

  lemma TargetsOfOne(fields: Fields, kind: ActionKind, met: bool, form: Form, t: string)
    requires Covers(fields, form)
    ensures AfterTargets(fields, kind, met, form, [t]) == AfterTarget(fields, kind, met, form, t)
  {
    assert [t][..0] == [];
  }

  const FilteredExampleForm: Form := ExampleForm["x" := ExampleForm["x"].(options := [OptionItem("", "-"), OptionItem("b", "B")], value := "")]

  /** First rule on the example form: `x` is "a", so `y` stays shown. */
  lemma ExampleStep1()
    ensures AfterRule(ExampleFields, ExampleSnapshots, ExampleForm, HideWhenEmpty) == ExampleForm
  {
    var f0 := ExampleForm;
    assert !RuleMet(f0, HideWhenEmpty);
    RuleOfOne(ExampleFields, ExampleSnapshots, f0, HideWhenEmpty);
    TargetsOfOne(ExampleFields, Hide, false, f0, "y");
    assert f0["y" := f0["y"].(hidden := false)] == f0;
  }

  lemma ExampleKept()
    ensures Kept(ExampleOptions, ["b"]) == [OptionItem("", "-"), OptionItem("b", "B")]
  {
    assert ExampleOptions[..2] == [OptionItem("", "-"), OptionItem("a", "A")];
    assert ExampleOptions[..2][..1] == [OptionItem("", "-")];
    assert ExampleOptions[..2][..1][..0] == [];
  }

  lemma ExampleFilterAction()
    ensures AfterRule(ExampleFields, ExampleSnapshots, ExampleForm, FilterOnK)
         == AfterFilter(ExampleSnapshots, ExampleForm, FilterOnK.actions[0], Str("k"))
  {
    var F, S, f0 := ExampleFields, ExampleSnapshots, ExampleForm;
    var act := FilterOnK.actions[0];
    assert Kind(act) == FilterOpts;
    assert RuleMet(f0, FilterOnK);
    RuleOfOne(F, S, f0, FilterOnK);
    TargetsOfOne(F, FilterOpts, true, f0, "x");
    OtherKindsNoEffect(F["x"], FilterOpts, true, f0["x"]);
    assert AfterTargets(F, FilterOpts, true, f0, act.targets) == f0;
  }

  /** Second rule: `t` equals `k`, so `x` loses `a` and its selection. */
  lemma ExampleStep2()
    ensures AfterRule(ExampleFields, ExampleSnapshots, ExampleForm, FilterOnK) == FilteredExampleForm
  {
    ExampleFilterAction();
    ExampleKept();
    assert !HasValue([OptionItem("", "-"), OptionItem("b", "B")], "a");
  }

  /** Second pass, first rule: `x` is now empty, so `y` is hidden. */
  lemma ExampleStep3()
    ensures AfterRule(ExampleFields, ExampleSnapshots, FilteredExampleForm, HideWhenEmpty)
         == FilteredExampleForm["y" := FilteredExampleForm["y"].(hidden := true)]
  {
    var f := FilteredExampleForm;
    assert RuleMet(f, HideWhenEmpty);
    RuleOfOne(ExampleFields, ExampleSnapshots, f, HideWhenEmpty);
    TargetsOfOne(ExampleFields, Hide, true, f, "y");
  }

  /** The filter rule never touches `y`. */
  lemma ExampleFilterKeepsY(form: Form)
    requires Covers(ExampleFields, form)
    ensures AfterRule(ExampleFields, ExampleSnapshots, form, FilterOnK).Keys == form.Keys
    ensures "y" in form ==> AfterRule(ExampleFields, ExampleSnapshots, form, FilterOnK)["y"] == form["y"]
  {
    RuleOfOne(ExampleFields, ExampleSnapshots, form, FilterOnK);
    TargetsOfOne(ExampleFields, FilterOpts, RuleMet(form, FilterOnK), form, "x");
  }

  /** The filter clears `x` after the first rule has read it, so the first
      pass leaves `y` shown and the second pass hides it: with
      `filter_options`, a pass is not idempotent. */
  lemma FilterBreaksIdempotence()
    ensures var rules := [HideWhenEmpty, FilterOnK];
      var once := AfterPass(ExampleFields, ExampleSnapshots, ExampleForm, rules);
      var twice := AfterPass(ExampleFields, ExampleSnapshots, once, rules);
      !once["y"].hidden && once["x"].value == "" && twice["y"].hidden
  {
    var F, S, rules := ExampleFields, ExampleSnapshots, [HideWhenEmpty, FilterOnK];
    var once := FilteredExampleForm;
    var mid := once["y" := once["y"].(hidden := true)];
    assert AfterPass(F, S, ExampleForm, rules) == once by {
      ExampleStep1();
      ExampleStep2();
      PassOfTwo(F, S, ExampleForm, HideWhenEmpty, FilterOnK);
    }
    assert AfterPass(F, S, once, rules) == AfterRule(F, S, mid, FilterOnK) by {
      ExampleStep3();
      PassOfTwo(F, S, once, HideWhenEmpty, FilterOnK);
    }
    assert AfterRule(F, S, mid, FilterOnK)["y"] == mid["y"] by {
      ExampleFilterKeepsY(mid);
    }
  }
}
