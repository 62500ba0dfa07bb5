/** The state the conditional-logic engine of the project page works on, and
    the effect of one evaluation pass on it, as pure functions.

    The DOM form is replaced by a map from field name to the state of the
    elements carrying that name: every element of a name is updated alike,
    so one record per name is enough. */
module Engine {
  import opened Text
  import opened Condition

  datatype OptionItem = OptionItem(value: string, text: string)

  /** The kind of the first element carrying a name. A radio group remembers
      which value is checked ("" when none is), a checkbox whether the first
      box is ticked. Text inputs, text areas, number and date inputs are all
      `TextInput`. */
  datatype Control = TextInput | SelectBox | RadioGroup(checkedValue: string) | CheckBox(checked: bool)

  /** `value` is the `.value` property of the first element: the text of an
      input, the selected option of a select, the value attribute of a radio
      button or checkbox. `hidden` is the `form-group-hidden` class on the
      wrapper, `validity` the custom validity message. */
  datatype FieldState = FieldState(
    control: Control,
    value: string,
    options: seq<OptionItem>,
    hidden: bool,
    disabled: bool,
    required: bool,
    allowEnglishSpace: bool,
    allowChineseSpace: bool,
    validity: string)

  type Form = map<string, FieldState>

  datatype ValidationRule = ValidationRule(ruleType: string, ruleValue: string)

  /** A field definition as the page receives it. */
  datatype FieldConfig = FieldConfig(name: string, labelText: string, validationRules: seq<ValidationRule>)

  type Fields = map<string, FieldConfig>

  /** One `then` action. Its kind is `action`, or `type` when `action` is
      empty. An absent `comparison_field` or `filter_value` is None; an
      absent `action`, `type`, `operator` or `message` is "", which reads
      alike where these are used (falsy, or an unknown name). */
  datatype Action = Action(
    action: string,
    altType: string,
    targets: seq<string>,
    comparisonField: Option<string>,
    operator: string,
    message: string,
    filterValue: Option<string>,
    options: seq<string>)

  datatype Rule = Rule(cond: Cond, actions: seq<Action>)

  /** Snapshot of each select's options, taken once when the engine starts. */
  type Snapshots = map<string, seq<OptionItem>>

  /** The action kinds the executor recognises; any other name is `Unknown`
      and does nothing. */
  datatype ActionKind = Show | Hide | Enable | Disable | SetRequired | SetOptional | ValidateComparison | FilterOpts | Unknown

  function KindOfName(k: string): ActionKind
  {
    if k == "show" then Show
    else if k == "hide" then Hide
    else if k == "enable" then Enable
    else if k == "disable" then Disable
    else if k == "set_required" then SetRequired
    else if k == "set_optional" then SetOptional
    else if k == "validate_comparison" then ValidateComparison
    else if k == "filter_options" then FilterOpts
    else Unknown
  }

  /** `action.action || action.type`. */
  function Kind(a: Action): ActionKind
  {
    KindOfName(if a.action != "" then a.action else a.altType)
  }

  /** `action.targets[0]`: with no targets JavaScript looks up the name
      "undefined". */
  function FirstTarget(a: Action): string
  {
    if a.targets == [] then "undefined" else a.targets[0]
  }

  /** The name `[name="${action.comparison_field}"]` looks up: an absent
      field renders as "undefined". */
  function ComparisonName(a: Action): string
  {
    match a.comparisonField
    case Some(c) => c
    case None => "undefined"
  }

  /** A validation rule of the given type whose value is the string "True". */
  predicate HasTrueRule(cfg: FieldConfig, ruleType: string)
  {
    exists i :: 0 <= i < |cfg.validationRules| && cfg.validationRules[i] == ValidationRule(ruleType, "True")
  }

  predicate OriginallyRequired(cfg: FieldConfig) { HasTrueRule(cfg, "required") }
  predicate OriginallyDisabled(cfg: FieldConfig) { HasTrueRule(cfg, "disabled") }

  /** The name-keyed dictionary built from the field list: a later field with
      the same name replaces an earlier one. */
  function FieldsByName(list: seq<FieldConfig>): (r: Fields)
    ensures r.Keys == set i | 0 <= i < |list| :: list[i].name
    ensures forall n :: n in r ==> r[n].name == n
  {
    if list == [] then map[]
    else
      var last := list[|list| - 1];
      var r := FieldsByName(list[..|list| - 1])[last.name := last];
      assert forall i :: 0 <= i < |list| - 1 ==> list[..|list| - 1][i] == list[i];
      r
  }

  /** Every name maps to the last field that carries it. */
  lemma {:induction false} FieldsByNameLastWins(list: seq<FieldConfig>, i: nat)
    requires i < |list|
    requires forall j :: i < j < |list| ==> list[j].name != list[i].name
    ensures FieldsByName(list)[list[i].name] == list[i]
    decreases |list|
  {
    if i < |list| - 1 {
      var init := list[..|list| - 1];
      forall j | i < j < |init| ensures init[j].name != init[i].name {
        assert init[j] == list[j];
      }
      FieldsByNameLastWins(init, i);
    }
  }

  /** `_getFieldValue`: `null` when no element has the name, the checked
      value of a radio group ("" if none), the checked state of a checkbox,
      and the `.value` of anything else. */
  function GetFieldValue(form: Form, name: string): (v: Value)
    ensures name !in form <==> v == Null
    ensures name in form && form[name].control.CheckBox? ==> v == Flag(form[name].control.checked)
    ensures name in form && form[name].control.RadioGroup? ==> v == Str(form[name].control.checkedValue)
    ensures name in form && (form[name].control.TextInput? || form[name].control.SelectBox?) ==> v == Str(form[name].value)
  {
    if name !in form then Null
    else match form[name].control
      case RadioGroup(checked) => Str(checked)
      case CheckBox(b) => Flag(b)
      case _ => Str(form[name].value)
  }

  // ---- per-target effects, as patches ----

  /** A set of attribute assignments: `Some(x)` assigns `x`, `None` leaves the
      attribute as it is. Every action except `filter_options` changes a
      field only in this way. */
  datatype Patch = Patch(
    hidden: Option<bool>,
    disabled: Option<bool>,
    required: Option<bool>,
    allowEnglishSpace: Option<bool>,
    allowChineseSpace: Option<bool>,
    validity: Option<string>)

  const Keep: Patch := Patch(None, None, None, None, None, None)

  function Assign<T>(current: T, p: Option<T>): T
  {
    match p
    case None => current
    case Some(x) => x
  }

  function Apply(p: Patch, st: FieldState): (r: FieldState)
    ensures r.control == st.control && r.value == st.value && r.options == st.options
  {
    st.(hidden := Assign(st.hidden, p.hidden),
        disabled := Assign(st.disabled, p.disabled),
        required := Assign(st.required, p.required),
        allowEnglishSpace := Assign(st.allowEnglishSpace, p.allowEnglishSpace),
        allowChineseSpace := Assign(st.allowChineseSpace, p.allowChineseSpace),
        validity := Assign(st.validity, p.validity))
  }

  /** `p` followed by `q`. */
  function Then(p: Patch, q: Patch): Patch
  {
    Patch(if q.hidden.Some? then q.hidden else p.hidden,
          if q.disabled.Some? then q.disabled else p.disabled,
          if q.required.Some? then q.required else p.required,
          if q.allowEnglishSpace.Some? then q.allowEnglishSpace else p.allowEnglishSpace,
          if q.allowChineseSpace.Some? then q.allowChineseSpace else p.allowChineseSpace,
          if q.validity.Some? then q.validity else p.validity)
  }

  lemma ApplyThen(p: Patch, q: Patch, st: FieldState)
    ensures Apply(q, Apply(p, st)) == Apply(Then(p, q), st)
  {
  }

  lemma ApplyTwice(p: Patch, st: FieldState)
    ensures Apply(p, Apply(p, st)) == Apply(p, st)
  {
  }

  /** `setAttribute('data-allow-…-space', 'true')` when the field's rules say
      so, and nothing otherwise. */
  function AllowAttr(cfg: FieldConfig, ruleType: string): Option<bool>
  {
    if HasTrueRule(cfg, ruleType) then Some(true) else None
  }

  /** What one action kind does to one existing target, given whether the
      rule's condition holds. Unknown kinds (and `validate_comparison`,
      `filter_options`, which act outside the target loop) do nothing here. */
  function TargetPatch(cfg: FieldConfig, kind: ActionKind, met: bool): Patch
  {
    var req := OriginallyRequired(cfg);
    var dis := OriginallyDisabled(cfg);
    var eng := AllowAttr(cfg, "allowEnglishSpace");
    var chi := AllowAttr(cfg, "allowChineseSpace");
    if kind == Show then Keep.(hidden := Some(!met))
    else if kind == Hide then Keep.(hidden := Some(met))
    else if kind == Enable then
      if met then Keep.(disabled := Some(false), required := Some(req), allowEnglishSpace := eng, allowChineseSpace := chi)
      else Keep.(disabled := Some(true))
    else if kind == Disable then
      if met then Keep.(disabled := Some(true), required := Some(false), allowEnglishSpace := Some(false), allowChineseSpace := Some(false))
      else Keep.(disabled := Some(dis), required := Some(req && !dis), allowEnglishSpace := eng, allowChineseSpace := chi)
    else if kind == SetRequired then
      Keep.(required := Some(met), allowEnglishSpace := eng, allowChineseSpace := chi)
    else if kind == SetOptional then
      Keep.(required := Some(if met then false else req), allowEnglishSpace := eng, allowChineseSpace := chi)
    else Keep
  }

  /** `show` hides the wrapper exactly when the condition fails and `hide`
      exactly when it holds; neither touches anything else. */
  lemma ShowHideEffect(cfg: FieldConfig, met: bool, st: FieldState)
    ensures Apply(TargetPatch(cfg, Show, met), st) == st.(hidden := !met)
    ensures Apply(TargetPatch(cfg, Hide, met), st) == st.(hidden := met)
  {
  }

  /** `enable` enables when the condition holds, restoring the defined
      required flag, and disables otherwise, leaving required alone. */
  lemma EnableEffect(cfg: FieldConfig, met: bool, st: FieldState)
    ensures var r := Apply(TargetPatch(cfg, Enable, met), st);
      && r.disabled == !met
      && r.required == (if met then OriginallyRequired(cfg) else st.required)
      && r.hidden == st.hidden && r.value == st.value && r.validity == st.validity
  {
  }

  /** `disable` with the condition holding disables the field and makes it
      optional, dropping the space attributes; with the condition failing it
      restores the defined flags: disabled as defined, required only when
      defined required and not defined disabled. */
  lemma DisableEffect(cfg: FieldConfig, met: bool, st: FieldState)
    ensures var r := Apply(TargetPatch(cfg, Disable, met), st);
      && (met ==> r.disabled && !r.required && !r.allowEnglishSpace && !r.allowChineseSpace)
      && (!met ==> r.disabled == OriginallyDisabled(cfg)
                   && r.required == (OriginallyRequired(cfg) && !OriginallyDisabled(cfg))
                   && (r.allowEnglishSpace <==> st.allowEnglishSpace || HasTrueRule(cfg, "allowEnglishSpace")))
      && r.hidden == st.hidden && r.value == st.value && r.validity == st.validity
  {
  }

  /** `set_required` makes the field required exactly when the condition
      holds; `set_optional` makes it optional when the condition holds and
      otherwise restores the defined required flag. Neither changes whether
      the field is disabled. */
  lemma RequiredEffect(cfg: FieldConfig, met: bool, st: FieldState)
    ensures Apply(TargetPatch(cfg, SetRequired, met), st).required == met
    ensures Apply(TargetPatch(cfg, SetOptional, met), st).required == (!met && OriginallyRequired(cfg))
    ensures Apply(TargetPatch(cfg, SetRequired, met), st).disabled == st.disabled
    ensures Apply(TargetPatch(cfg, SetOptional, met), st).disabled == st.disabled
  {
  }

  /** Any other kind leaves the target as it is. */
  lemma OtherKindsNoEffect(cfg: FieldConfig, kind: ActionKind, met: bool, st: FieldState)
    requires kind in {ValidateComparison, FilterOpts, Unknown}
    ensures Apply(TargetPatch(cfg, kind, met), st) == st
  {
  }

  /** Every name the form holds has a field definition (the form is rendered
      from the same definitions). */
  predicate Covers(fields: Fields, form: Form)
  {
    form.Keys <= fields.Keys
  }

  /** One iteration of the target loop: a name with no element is skipped. */
  function AfterTarget(fields: Fields, kind: ActionKind, met: bool, form: Form, t: string): (r: Form)
    requires Covers(fields, form)
    ensures r.Keys == form.Keys
  {
    if t in form then form[t := Apply(TargetPatch(fields[t], kind, met), form[t])] else form
  }

  /** The target loop of `_executeAction`. */
  function AfterTargets(fields: Fields, kind: ActionKind, met: bool, form: Form, targets: seq<string>): (r: Form)
    requires Covers(fields, form)
    ensures r.Keys == form.Keys
  {
    if targets == [] then form
    else AfterTarget(fields, kind, met, AfterTargets(fields, kind, met, form, targets[..|targets| - 1]), targets[|targets| - 1])
  }

  /** The target loop never changes a value, an option list or a control,
      and leaves every field that is not a target as it was. */
  lemma {:induction false} AfterTargetsFrame(fields: Fields, kind: ActionKind, met: bool, form: Form, targets: seq<string>)
    requires Covers(fields, form)
    ensures var r := AfterTargets(fields, kind, met, form, targets);
      && (forall n :: n in form && n !in targets ==> r[n] == form[n])
      && (forall n :: n in form ==> r[n].control == form[n].control && r[n].value == form[n].value && r[n].options == form[n].options)
    decreases |targets|
  {
    if targets != [] {
      var init := targets[..|targets| - 1];
      var t := targets[|targets| - 1];
      AfterTargetsFrame(fields, kind, met, form, init);
      var mid := AfterTargets(fields, kind, met, form, init);
      var r := AfterTarget(fields, kind, met, mid, t);
      assert forall k :: 0 <= k < |init| ==> init[k] == targets[k];
      forall n | n in form
        ensures r[n].control == form[n].control && r[n].value == form[n].value && r[n].options == form[n].options
      {
        if n == t { assert r[n] == Apply(TargetPatch(fields[n], kind, met), mid[n]); }
      }
    }
  }

  /** Every existing target ends up with its patch applied exactly once,
      however often it is listed. */
  lemma {:induction false} AfterTargetsApplied(fields: Fields, kind: ActionKind, met: bool, form: Form, targets: seq<string>, n: string)
    requires Covers(fields, form)
    requires n in form && n in targets
    ensures AfterTargets(fields, kind, met, form, targets)[n] == Apply(TargetPatch(fields[n], kind, met), form[n])
    decreases |targets|
  {
    var init := targets[..|targets| - 1];
    var t := targets[|targets| - 1];
    if n in init {
      var p := TargetPatch(fields[n], kind, met);
      var mid := AfterTargets(fields, kind, met, form, init);
      assert AfterTargets(fields, kind, met, form, targets) == AfterTarget(fields, kind, met, mid, t);
      AfterTargetsApplied(fields, kind, met, form, init, n);
      if n == t {
        ApplyTwice(p, form[n]);
      }
    } else {
      LastTargetApplied(fields, kind, met, form, targets, n);
    }
  }

  /** A target listed last and nowhere before gets its patch applied once. */
  lemma LastTargetApplied(fields: Fields, kind: ActionKind, met: bool, form: Form, targets: seq<string>, n: string)
    requires Covers(fields, form)
    requires n in form && n in targets && n !in targets[..|targets| - 1]
    ensures AfterTargets(fields, kind, met, form, targets)[n] == Apply(TargetPatch(fields[n], kind, met), form[n])
  {
    var init := targets[..|targets| - 1];
    var t := targets[|targets| - 1];
    assert n == t by {
      assert targets == init + [t];
    }
    var mid := AfterTargets(fields, kind, met, form, init);
    assert mid[n] == form[n] by {
      AfterTargetsFrame(fields, kind, met, form, init);
    }
    assert AfterTargets(fields, kind, met, form, targets) == AfterTarget(fields, kind, met, mid, t);
  }

  // ---- validate_comparison ----

  /** `String(v)` as used when filling `${name}` in a message. */
  function ValueText(v: Value): string
  {
    match v
    case Null => "null"
    case Flag(b) => if b then "true" else "false"
    case Str(s) => s
  }

  predicate IsLineTerminator(c: char)
  {
    c == '\n' || c == '\r' || c == '\U{2028}' || c == '\U{2029}'
  }

  /** The index of the first `}` of `s`, if no line terminator comes before
      it: where the lazy group of `\${(.*?)}` can end. */
  function PlaceholderEnd(s: string): (r: Option<nat>)
    ensures r.Some? ==> (r.value < |s| && s[r.value] == '}'
      && forall i :: 0 <= i < r.value ==> s[i] != '}' && !IsLineTerminator(s[i]))
  {
    if s == [] || IsLineTerminator(s[0]) then None
    else if s[0] == '}' then Some(0)
    else match PlaceholderEnd(s[1..])
      case None => None
      case Some(k) => Some(k + 1)
  }

  /** `message.replace(/\${(.*?)}/g, …)`: every `${name}` becomes the text of
      the current value of the field named by the trimmed `name`. */
  function Interpolate(msg: string, form: Form): string
    decreases |msg|
  {
    if msg == [] then []
    else if |msg| >= 2 && msg[0] == '$' && msg[1] == '{' && PlaceholderEnd(msg[2..]).Some? then
      var k := PlaceholderEnd(msg[2..]).value;
      ValueText(GetFieldValue(form, TrimJs(msg[2..2 + k]))) + Interpolate(msg[3 + k..], form)
    else [msg[0]] + Interpolate(msg[1..], form)
  }

  /** A message with no `${` is left exactly as written. */
  lemma {:induction false} InterpolatePlain(msg: string, form: Form)
    requires !Contains(msg, "${")
    ensures Interpolate(msg, form) == msg
    decreases |msg|
  {
    if msg != [] {
      assert !("${" <= msg);
      assert !Contains(msg[1..], "${");
      InterpolatePlain(msg[1..], form);
    }
  }

  /** The message shown when the comparison fails: the action's own message,
      or one naming the comparison field's label. */
  function MessageTemplate(fields: Fields, a: Action): string
    requires ComparisonName(a) in fields
  {
    if a.message != "" then a.message
    else "与'" + fields[ComparisonName(a)].labelText + "'的逻辑关系不正确"
  }

  /** The validity message `_performComparison` gives the first target, or
      None when that target does not exist. */
  function ComparisonValidity(fields: Fields, form: Form, a: Action): Option<string>
    requires Covers(fields, form)
  {
    var t := FirstTarget(a);
    var c := ComparisonName(a);
    if t !in form then None
    else if c !in form || form[t].value == "" || form[c].value == "" then Some("")
    else if Check(GetFieldValue(form, t), Cond(t, a.operator, form[c].value)) then Some("")
    else Some(Interpolate(MessageTemplate(fields, a), form))
  }

  /** `_performComparison`: only the first target's validity changes. */
  function AfterComparison(fields: Fields, form: Form, a: Action): (r: Form)
    requires Covers(fields, form)
    ensures r.Keys == form.Keys
  {
    match ComparisonValidity(fields, form, a)
    case None => form
    case Some(msg) => form[FirstTarget(a) := form[FirstTarget(a)].(validity := msg)]
  }

  /** The comparison leaves the form alone without a target element; it
      clears the message when the comparison element is missing, a side is
      empty or the relation holds; otherwise, for a message without `${`,
      it sets the action's own message or the default, which is never
      empty. Only the first target changes, and only its message. */
  lemma ComparisonOutcome(fields: Fields, form: Form, a: Action)
    requires Covers(fields, form)
    ensures var t := FirstTarget(a);
      var c := ComparisonName(a);
      var r := AfterComparison(fields, form, a);
      && (t !in form ==> r == form)
      && (t in form ==> (forall n :: n in form && n != t ==> r[n] == form[n])
                        && r[t] == form[t].(validity := r[t].validity))
      && (t in form && (c !in form || form[t].value == "" || form[c].value == "") ==> r[t].validity == "")
      && (t in form && c in form && form[t].value != "" && form[c].value != "" ==>
            var ok := Check(GetFieldValue(form, t), Cond(t, a.operator, form[c].value));
            && (ok ==> r[t].validity == "")
            && (!ok && !Contains(MessageTemplate(fields, a), "${") ==>
                  r[t].validity == MessageTemplate(fields, a) && r[t].validity != ""))
  {
    var t := FirstTarget(a);
    var c := ComparisonName(a);
    if t in form && c in form && form[t].value != "" && form[c].value != "" {
      var m := MessageTemplate(fields, a);
      if a.message == "" {
        assert m[0] == "与'"[0];
      }
      if !Contains(m, "${") {
        InterpolatePlain(m, form);
      }
    }
  }

  // ---- filter_options ----

  /** Options that survive the filter: the empty placeholder and every option
      whose value is listed, in their original order. */
  function Kept(original: seq<OptionItem>, allowed: seq<string>): (r: seq<OptionItem>)
    ensures forall o :: o in r <==> o in original && (o.value == "" || o.value in allowed)
    ensures |r| <= |original|
  {
    if original == [] then []
    else
      var last := original[|original| - 1];
      var init := original[..|original| - 1];
      assert original == init + [last];
      Kept(init, allowed) + (if last.value == "" || last.value in allowed then [last] else [])
  }

  /** Pruning works option by option: the options kept from a list are
      those kept from its first part followed by those kept from the rest,
      so the survivors keep their order and their repetitions. */
  lemma {:induction false} KeptAppend(xs: seq<OptionItem>, ys: seq<OptionItem>, allowed: seq<string>)
    ensures Kept(xs + ys, allowed) == Kept(xs, allowed) + Kept(ys, allowed)
    decreases |ys|
  {
    if ys != [] {
      var n := |ys| - 1;
      KeptAppend(xs, ys[..n], allowed);
      var last := ys[n];
      var tail := if last.value == "" || last.value in allowed then [last] else [];
      assert (xs + ys)[..|xs + ys| - 1] == xs + ys[..n];
      assert Kept(xs + ys, allowed) == Kept(xs + ys[..n], allowed) + tail;
      assert Kept(ys, allowed) == Kept(ys[..n], allowed) + tail;
    } else {
      assert xs + ys == xs;
    }
  }

  /** One option survives exactly when it is the placeholder or listed. */
  lemma KeptSingle(o: OptionItem, allowed: seq<string>)
    ensures Kept([o], allowed) == if o.value == "" || o.value in allowed then [o] else []
  {
    assert [o][..0] == [];
  }

  predicate HasValue(opts: seq<OptionItem>, v: string)
  {
    exists i :: 0 <= i < |opts| && opts[i].value == v
  }

  /** `triggerValue === action.filter_value`: an action without a filter
      value never matches, since no field value is `undefined`. */
  predicate FilterMatches(a: Action, trigger: Value)
  {
    a.filterValue.Some? && trigger == Str(a.filterValue.value)
  }

  /** The option list `_filterOptions` rebuilds: the snapshot, pruned only
      when the trigger's raw value is exactly the action's filter value. */
  function FilteredOptions(original: seq<OptionItem>, a: Action, trigger: Value): seq<OptionItem>
  {
    if FilterMatches(a, trigger) then Kept(original, a.options) else original
  }

  /** `_filterOptions`: the first target, when it exists and has a snapshot,
      gets the rebuilt list; its selection is kept when still offered and is
      "" otherwise. */
  function AfterFilter(snapshots: Snapshots, form: Form, a: Action, trigger: Value): (r: Form)
    ensures r.Keys == form.Keys
  {
    var t := FirstTarget(a);
    if t !in form || t !in snapshots then form
    else
      var opts := FilteredOptions(snapshots[t], a, trigger);
      var v := form[t].value;
      form[t := form[t].(options := opts, value := if HasValue(opts, v) then v else "")]
  }

  /** What the filter promises: the list is rebuilt from the snapshot first
      (so earlier pruning never accumulates), pruned only on a match, the
      placeholder option always survives, and the selection is kept exactly
      when it is still offered. Nothing else changes. */
  lemma FilterSpec(snapshots: Snapshots, form: Form, a: Action, trigger: Value)
    requires FirstTarget(a) in form && FirstTarget(a) in snapshots
    ensures var t := FirstTarget(a);
      var r := AfterFilter(snapshots, form, a, trigger)[t];
      && (!FilterMatches(a, trigger) ==> r.options == snapshots[t])
      && (forall o :: o in r.options <==> o in snapshots[t] && (!FilterMatches(a, trigger) || o.value == "" || o.value in a.options))
      && (forall o :: o in snapshots[t] && o.value == "" ==> o in r.options)
      && (r.value == form[t].value <==> HasValue(r.options, form[t].value) || form[t].value == "")
      && (r.value != form[t].value ==> r.value == "")
      && r.hidden == form[t].hidden && r.disabled == form[t].disabled && r.required == form[t].required
      && r.validity == form[t].validity && r.control == form[t].control
  {
  }

  /** Filtering again with the same trigger value changes nothing more. */
  lemma FilterTwice(snapshots: Snapshots, form: Form, a: Action, trigger: Value)
    ensures AfterFilter(snapshots, AfterFilter(snapshots, form, a, trigger), a, trigger) == AfterFilter(snapshots, form, a, trigger)
  {
    var t := FirstTarget(a);
    if t in form && t in snapshots {
      var once := AfterFilter(snapshots, form, a, trigger);
      var opts := FilteredOptions(snapshots[t], a, trigger);
      if !HasValue(opts, form[t].value) && HasValue(opts, "") {
        assert once[t].value == "";
      }
    }
  }

  /** An action without a filter value never prunes, whatever the trigger's
      value: the target gets its snapshot back. */
  lemma FilterNeedsValue(snapshots: Snapshots, form: Form, a: Action, trigger: Value)
    requires a.filterValue.None?
    requires FirstTarget(a) in form && FirstTarget(a) in snapshots
    ensures AfterFilter(snapshots, form, a, trigger)[FirstTarget(a)].options == snapshots[FirstTarget(a)]
  {
  }

  /** A filter target without a snapshot (not a select when the engine
      started) or without an element is left alone. */
  lemma FilterWithoutSnapshot(snapshots: Snapshots, form: Form, a: Action, trigger: Value)
    requires FirstTarget(a) !in form || FirstTarget(a) !in snapshots
    ensures AfterFilter(snapshots, form, a, trigger) == form
  {
  }

  // ---- actions, rules, the pass ----

  /** `_executeAction`: the target loop, then the comparison when the kind is
      `validate_comparison` and the condition holds, then the filter (whatever
      the condition) when the kind is `filter_options`, with the trigger
      field's value read at that moment. */
  function AfterAction(fields: Fields, snapshots: Snapshots, form: Form, a: Action, met: bool, triggerField: string): (r: Form)
    requires Covers(fields, form)
    ensures r.Keys == form.Keys
  {
    var kind := Kind(a);
    var f1 := AfterTargets(fields, kind, met, form, a.targets);
    var f2 := if kind == ValidateComparison && met then AfterComparison(fields, f1, a) else f1;
    if kind == FilterOpts then AfterFilter(snapshots, f2, a, GetFieldValue(f2, triggerField)) else f2
  }

  function AfterActions(fields: Fields, snapshots: Snapshots, form: Form, actions: seq<Action>, met: bool, triggerField: string): (r: Form)
    requires Covers(fields, form)
    ensures r.Keys == form.Keys
  {
    if actions == [] then form
    else
      AfterAction(fields, snapshots, AfterActions(fields, snapshots, form, actions[..|actions| - 1], met, triggerField),
                  actions[|actions| - 1], met, triggerField)
  }

  /** The condition of a rule, evaluated on the current form. */
  function RuleMet(form: Form, rule: Rule): bool
  {
    Check(GetFieldValue(form, rule.cond.field), rule.cond)
  }

  /** `applyRule`: the condition is evaluated once, before any action runs. */
  function AfterRule(fields: Fields, snapshots: Snapshots, form: Form, rule: Rule): (r: Form)
    requires Covers(fields, form)
    ensures r.Keys == form.Keys
  {
    AfterActions(fields, snapshots, form, rule.actions, RuleMet(form, rule), rule.cond.field)
  }

  /** `evaluateAllRules`: the rules in order, each seeing the form the
      previous ones left. */
  function AfterPass(fields: Fields, snapshots: Snapshots, form: Form, rules: seq<Rule>): (r: Form)
    requires Covers(fields, form)
    ensures r.Keys == form.Keys
  {
    if rules == [] then form
    else AfterRule(fields, snapshots, AfterPass(fields, snapshots, form, rules[..|rules| - 1]), rules[|rules| - 1])
  }

  // ---- start-up ----

  /** What `_applyInitialDisabledState` does to a field defined as disabled. */
  function DisabledAtStart(st: FieldState): (r: FieldState)
    ensures r.disabled && !r.required && !r.allowEnglishSpace && !r.allowChineseSpace
    ensures r.value == st.value && r.options == st.options && r.hidden == st.hidden && r.control == st.control
  {
    st.(disabled := true, required := false, allowEnglishSpace := false, allowChineseSpace := false)
  }

  /** `_applyInitialDisabledState` restricted to the field names in `done`. */
  function InitialDisabledOn(fields: Fields, form: Form, done: set<string>): (r: Form)
    requires Covers(fields, form)
    ensures r.Keys == form.Keys
  {
    map n | n in form :: if n in done && OriginallyDisabled(fields[n]) then DisabledAtStart(form[n]) else form[n]
  }

  /** Adding one name to `done` updates at most that field. */
  lemma InitialDisabledStep(fields: Fields, form: Form, done: set<string>, name: string)
    requires Covers(fields, form) && name in fields
    ensures var before := InitialDisabledOn(fields, form, done);
      InitialDisabledOn(fields, form, done + {name})
      == if name in form && OriginallyDisabled(fields[name]) && name !in done
         then before[name := DisabledAtStart(form[name])] else before
  {
  }

  /** At start-up exactly the fields defined as disabled become disabled and
      optional, with the space attributes removed; all others are untouched. */
  lemma InitialDisabledSpec(fields: Fields, form: Form)
    requires Covers(fields, form)
    ensures var r := InitialDisabledOn(fields, form, fields.Keys);
      forall n :: n in form ==>
        (OriginallyDisabled(fields[n]) ==> r[n].disabled && !r[n].required && r[n].value == form[n].value)
        && (!OriginallyDisabled(fields[n]) ==> r[n] == form[n])
  {
  }

  /** Recording the options of the selects of a part of the form, one more
      field at a time. */
  lemma SnapshotStep(snapshots: Snapshots, form: Form, seen: set<string>, name: string)
    requires name in form && seen <= form.Keys
    ensures var part := map n | n in seen :: form[n];
      var before := Snapshot(snapshots, part);
      Snapshot(snapshots, map n | n in seen + {name} :: form[n])
      == if name !in before && form[name].control.SelectBox? then before[name := form[name].options] else before
  {
  }

  /** The option snapshot `init` takes: every select not yet recorded. */
  function Snapshot(snapshots: Snapshots, form: Form): (r: Snapshots)
    ensures forall n :: n in snapshots ==> n in r && r[n] == snapshots[n]
    ensures forall n :: n in form && form[n].control.SelectBox? && n !in snapshots ==> n in r && r[n] == form[n].options
    ensures forall n :: n in r ==> n in snapshots || (n in form && form[n].control.SelectBox?)
  {
    map n | n in snapshots.Keys + (set m | m in form && form[m].control.SelectBox?) ::
      if n in snapshots then snapshots[n] else form[n].options
  }
}
