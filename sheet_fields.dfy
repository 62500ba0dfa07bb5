/** The field page of a sheet in the back office: its own internal-name
    generator, the filling of option values from labels, the combination of
    the two option lists into option objects, the collection of validation
    inputs, the checks `saveField` makes before sending, and the operators
    the rule dialog offers for a trigger field. */
module SheetFields {
  import opened Text
  import opened FieldNames
  import ModalHandler
  import Condition
  import LivePreview
  import FieldRoutes

  // ---- internal names ----

  /** `generateFieldNameFromLabel` of the sheet page: a trimmed, purely
      numeric label becomes `field_<digits>`; otherwise the base name unless
      it is empty or `field`. */
  function SheetFieldName(labelText: string, timestamp: nat, random: nat): string
  {
    ChooseName(TrimJs(labelText), BaseName(labelText), ModalHandler.GeneratedName(timestamp, random))
  }

  /** The choice among the three candidates. */
  function ChooseName(trimmed: string, base: string, generated: string): string
  {
    if AllDigits(trimmed) then "field_" + trimmed
    else if base == "" || base == "field" then generated
    else base
  }

  /** The choice is usable whenever both the base name and the generated
      name are made of name characters and the generated name is. */
  lemma ChooseNameShape(trimmed: string, base: string, generated: string)
    requires forall i :: 0 <= i < |base| ==> IsSlugChar(base[i])
    requires forall i :: 0 <= i < |generated| ==> IsSlugChar(generated[i])
    requires generated != "" && generated != "field"
    ensures var r := ChooseName(trimmed, base, generated);
      && r != "" && r != "field"
      && forall i :: 0 <= i < |r| ==> IsSlugChar(r[i]) && !IsJsSpace(r[i])
  {
    if AllDigits(trimmed) {
      var r := "field_" + trimmed;
      assert r[5] == '_';
      forall i | 0 <= i < |r| ensures IsSlugChar(r[i]) {
        if i >= 6 {
          assert r[i] == trimmed[i - 6];
        }
      }
    }
  }

  /** The name is never empty or `field`, and is made of name characters,
      so it holds no white space. */
  lemma SheetNameShape(labelText: string, timestamp: nat, random: nat)
    ensures var r := SheetFieldName(labelText, timestamp, random);
      && r != "" && r != "field"
      && forall i :: 0 <= i < |r| ==> IsSlugChar(r[i]) && !IsJsSpace(r[i])
  {
    BaseNameChars(labelText);
    ModalHandler.GeneratedNameShape(timestamp, random);
    ChooseNameShape(TrimJs(labelText), BaseName(labelText), ModalHandler.GeneratedName(timestamp, random));
  }

  /** A label of one ideograph followed by one digit: `第1`, `表2`. */
  predicate IdeographDigit(labelText: string)
  {
    |labelText| == 2 && IsCjk(labelText[0]) && IsDigit(labelText[1])
  }

  lemma SpacedIdeograph(labelText: string)
    requires IdeographDigit(labelText)
    ensures LowerAscii(CjkToSpace(labelText)) == [' ', labelText[1]]
  {
    var lowered := LowerAscii(CjkToSpace(labelText));
    assert lowered[0] == ' ' && lowered[1] == labelText[1];
  }

  lemma KeptSpacedDigit(d: char)
    requires IsDigit(d)
    ensures KeepNameChars([' ', d]) == [' ', d]
  {
    assert [' ', d][1..] == [d] && [d][1..] == [];
    assert KeepNameChars([d]) == [d];
  }

  lemma TrimmedSpacedDigit(d: char)
    requires IsDigit(d)
    ensures TrimJs([' ', d]) == [d]
  {
    var s := [' ', d];
    assert IsJsSpace(s[0]) && s[1..] == [d];
    TrimLeadingSpace(s, IsJsSpace);
    TrimUnspaced([d], IsJsSpace);
  }

  /** The base name of an ideograph followed by a digit is that digit. */
  lemma IdeographDigitBase(labelText: string)
    requires IdeographDigit(labelText)
    ensures BaseName(labelText) == labelText[1..]
  {
    var d := labelText[1];
    SpacedIdeograph(labelText);
    KeptSpacedDigit(d);
    TrimmedSpacedDigit(d);
    CollapseIdentity([d], IsJsSpace, '_');
    assert labelText[1..] == [d];
  }

  /** A label that starts with an ideograph is not numeric. */
  lemma IdeographLabelNotDigits(labelText: string)
    requires IdeographDigit(labelText)
    ensures !AllDigits(TrimJs(labelText))
  {
    var c := labelText[0];
    assert !IsDigit(c) && !IsJsSpace(c);
    TrimUnspaced(labelText, IsJsSpace);
  }

  /** On a label whose digit is joined to an ideograph, the sheet page
      keeps the purely numeric base name. */
  lemma SheetNameOfIdeographDigit(labelText: string, timestamp: nat, random: nat)
    requires IdeographDigit(labelText)
    ensures SheetFieldName(labelText, timestamp, random) == labelText[1..]
    ensures AllDigits(SheetFieldName(labelText, timestamp, random))
  {
    IdeographDigitBase(labelText);
    IdeographLabelNotDigits(labelText);
  }

  /** On the same label the field dialog rejects the numeric base name and
      generates one, so the two generators disagree. */
  lemma ModalNameOfIdeographDigit(labelText: string, timestamp: nat, random: nat)
    requires IdeographDigit(labelText)
    ensures ModalHandler.ModalFieldName(labelText, timestamp, random) == ModalHandler.GeneratedName(timestamp, random)
    ensures ModalHandler.ModalFieldName(labelText, timestamp, random) != SheetFieldName(labelText, timestamp, random)
  {
    IdeographDigitBase(labelText);
    SheetNameOfIdeographDigit(labelText, timestamp, random);
    var g := ModalHandler.GeneratedName(timestamp, random);
    assert g[0] == 'f';
  }

  // ---- option values from labels ----

  /** `syncOptionsValue`: a line that has a non-blank value, or whose label
      is blank, keeps its value; every other line gets a name generated from
      its trimmed label. The clock reading and the random number are the
      same for every line. */
  function SyncOptionValues(labels: seq<string>, values: seq<string>, timestamp: nat, random: nat): (r: seq<string>)
    ensures |r| == |labels|
  {
    seq(|labels|, i requires 0 <= i < |labels| =>
      if TrimJs(ModalHandler.At(values, i)) != "" || TrimJs(labels[i]) == "" then ModalHandler.At(values, i)
      else SheetFieldName(TrimJs(labels[i]), timestamp, random))
  }

  /** A string without white space trims to itself. */
  lemma TrimNoSpace(s: string)
    requires forall i :: 0 <= i < |s| ==> !IsJsSpace(s[i])
    ensures TrimJs(s) == s
  {
  }

  /** After syncing, every line with a non-blank label has a non-blank value,
      a non-blank value is never overwritten, and a line with a blank label
      keeps its value. */
  lemma SyncOptionValuesFills(labels: seq<string>, values: seq<string>, timestamp: nat, random: nat, i: nat)
    requires i < |labels|
    ensures var r := SyncOptionValues(labels, values, timestamp, random);
      && (TrimJs(labels[i]) != "" ==> TrimJs(r[i]) != "")
      && (TrimJs(ModalHandler.At(values, i)) != "" || TrimJs(labels[i]) == "" ==> r[i] == ModalHandler.At(values, i))
  {
    var r := SyncOptionValues(labels, values, timestamp, random);
    if TrimJs(ModalHandler.At(values, i)) == "" && TrimJs(labels[i]) != "" {
      SheetNameShape(TrimJs(labels[i]), timestamp, random);
      TrimNoSpace(r[i]);
    }
  }

  /** Syncing a second time changes nothing. */
  lemma SyncOptionValuesIdempotent(labels: seq<string>, values: seq<string>, timestamp: nat, random: nat)
    ensures var once := SyncOptionValues(labels, values, timestamp, random);
      SyncOptionValues(labels, once, timestamp, random) == once
  {
    var once := SyncOptionValues(labels, values, timestamp, random);
    var twice := SyncOptionValues(labels, once, timestamp, random);
    forall i | 0 <= i < |labels| ensures twice[i] == once[i] {
      SyncOptionValuesFills(labels, values, timestamp, random, i);
      assert ModalHandler.At(once, i) == once[i];
    }
  }

  // ---- option objects ----

  /** The value of the option at `i`: the trimmed value line when it is not
      blank, else the label. */
  function OptionValue(labelLine: string, values: seq<string>, i: nat): (r: string)
    ensures TrimJs(ModalHandler.At(values, i)) != "" ==> r == TrimJs(ModalHandler.At(values, i))
    ensures TrimJs(ModalHandler.At(values, i)) == "" ==> r == labelLine
  {
    if i < |values| && TrimJs(values[i]) != "" then TrimJs(values[i]) else labelLine
  }

  /** `f(x, i)` for every element `x` at index `i` that `keep` accepts, in
      order. */
  function KeptMapped<T, U>(xs: seq<T>, keep: T -> bool, f: (T, nat) -> U): seq<U>
  {
    if xs == [] then []
    else
      var n := |xs| - 1;
      var init := KeptMapped(xs[..n], keep, f);
      if keep(xs[n]) then init + [f(xs[n], n)] else init
  }

  lemma {:induction false} KeptMappedIff<T, U>(xs: seq<T>, keep: T -> bool, f: (T, nat) -> U, u: U)
    ensures u in KeptMapped(xs, keep, f) <==> exists i :: 0 <= i < |xs| && keep(xs[i]) && u == f(xs[i], i)
    decreases |xs|
  {
    if xs != [] {
      var n := |xs| - 1;
      KeptMappedIff(xs[..n], keep, f, u);
      assert forall i :: 0 <= i < n ==> xs[..n][i] == xs[i];
    }
  }

  /** Map-then-filter works element by element: on joined lists it gives
      the result for the first part followed by the result for the rest,
      whose positions are counted from where the rest starts. */
  lemma {:induction false} KeptMappedAppend<T, U>(xs: seq<T>, ys: seq<T>, keep: T -> bool, f: (T, nat) -> U)
    ensures KeptMapped(xs + ys, keep, f) == KeptMapped(xs, keep, f) + KeptMapped(ys, keep, (y: T, i: nat) => f(y, i + |xs|))
    decreases |ys|
  {
    var g := (y: T, i: nat) => f(y, i + |xs|);
    if ys != [] {
      var n := |ys| - 1;
      KeptMappedAppend(xs, ys[..n], keep, f);
      var tail := if keep(ys[n]) then [f(ys[n], |xs| + n)] else [];
      assert (xs + ys)[..|xs + ys| - 1] == xs + ys[..n];
      assert (xs + ys)[|xs + ys| - 1] == ys[n];
      assert KeptMapped(xs + ys, keep, f) == KeptMapped(xs + ys[..n], keep, f) + tail;
      assert KeptMapped(ys, keep, g) == KeptMapped(ys[..n], keep, g) + tail;
    } else {
      assert xs + ys == xs;
    }
  }

  /** The options of the label lines, blank labels dropped. */
  function CombinedOptions(labels: seq<string>, values: seq<string>): seq<FieldRoutes.OptionPair>
  {
    KeptMapped(labels, (l: string) => TrimJs(l) != "",
               (l: string, i: nat) => FieldRoutes.OptionPair(l, OptionValue(l, values, i)))
  }

  /** An option is combined exactly from a line with a non-blank label. */
  lemma CombinedOptionsIff(labels: seq<string>, values: seq<string>, p: FieldRoutes.OptionPair)
    ensures p in CombinedOptions(labels, values) <==>
              exists i :: 0 <= i < |labels| && TrimJs(labels[i]) != ""
                          && p == FieldRoutes.OptionPair(labels[i], OptionValue(labels[i], values, i))
  {
    KeptMappedIff(labels, (l: string) => TrimJs(l) != "",
                  (l: string, i: nat) => FieldRoutes.OptionPair(l, OptionValue(l, values, i)), p);
  }

  /** One more label line adds at most its own option, at the end: the
      options follow the order of the label lines. */
  lemma CombinedOptionsSnoc(labels: seq<string>, l: string, values: seq<string>)
    ensures CombinedOptions(labels + [l], values) ==
      CombinedOptions(labels, values)
        + (if TrimJs(l) != "" then [FieldRoutes.OptionPair(l, OptionValue(l, values, |labels|))] else [])
  {
    assert (labels + [l])[..|labels|] == labels;
  }

  /** A combined option has a non-blank label and a non-blank value. */
  lemma CombinedOptionsNonBlank(labels: seq<string>, values: seq<string>, p: FieldRoutes.OptionPair)
    requires p in CombinedOptions(labels, values)
    ensures TrimJs(p.labelText) != "" && TrimJs(p.value) != ""
  {
    CombinedOptionsIff(labels, values, p);
    var i :| 0 <= i < |labels| && TrimJs(labels[i]) != ""
             && p == FieldRoutes.OptionPair(labels[i], OptionValue(labels[i], values, i));
    var v := ModalHandler.At(values, i);
    if TrimJs(v) != "" {
      TrimIdempotent(v);
    }
  }

  lemma TrimIdempotent(s: string)
    ensures TrimJs(TrimJs(s)) == TrimJs(s)
  {
    TrimSpec(s, IsJsSpace);
    var t := TrimJs(s);
    if t != [] {
      assert TrimLeft(t, IsJsSpace) == t;
      assert TrimRight(t, IsJsSpace) == t;
    }
  }

  /** The options of the two text areas: both are trimmed and split into
      lines. */
  function OptionsOf(labelsText: string, valuesText: string): seq<FieldRoutes.OptionPair>
  {
    CombinedOptions(Split(TrimJs(labelsText), '\n'), Split(TrimJs(valuesText), '\n'))
  }

  // ---- validation inputs ----

  /** An element whose id starts with `validation`. */
  datatype ValidationInput = ValidationInput(id: string, isCheckbox: bool, checked: bool, value: string)

  /** The key of an id: the id without the `validation` prefix, first letter
      lower-cased. */
  function KeyOf(id: string): string
  {
    if |id| > 10 then [LowerAsciiChar(id[10])] + id[11..] else ""
  }

  /** The text an element contributes: `True` or nothing for a checkbox, the
      trimmed value otherwise. */
  function InputText(el: ValidationInput): string
  {
    if el.isCheckbox then (if el.checked then "True" else "") else TrimJs(el.value)
  }

  /** The keys whose lines are stored comma-separated. */
  predicate IsListKey(key: string)
  {
    key == "contains" || key == "excludes"
  }

  function StoredText(key: string, text: string): string
  {
    if IsListKey(key) then LivePreview.Subst(text, '\n', ",") else text
  }

  /** `m[key(x)] = StoredText(key(x), text(x))` for every element with a
      non-empty text, in order. */
  function Collected<T>(xs: seq<T>, key: T -> string, text: T -> string): map<string, string>
  {
    if xs == [] then map[]
    else
      var n := |xs| - 1;
      var before := Collected(xs[..n], key, text);
      if text(xs[n]) != "" then before[key(xs[n]) := StoredText(key(xs[n]), text(xs[n]))] else before
  }

  lemma {:induction false} CollectedIff<T>(xs: seq<T>, key: T -> string, text: T -> string, k: string)
    ensures k in Collected(xs, key, text) <==> exists i :: 0 <= i < |xs| && key(xs[i]) == k && text(xs[i]) != ""
    decreases |xs|
  {
    if xs != [] {
      var n := |xs| - 1;
      CollectedIff(xs[..n], key, text, k);
      assert forall i :: 0 <= i < n ==> xs[..n][i] == xs[i];
    }
  }

  lemma {:induction false} CollectedValues<T>(xs: seq<T>, key: T -> string, text: T -> string, k: string)
    requires k in Collected(xs, key, text)
    ensures Collected(xs, key, text)[k] != ""
    ensures IsListKey(k) ==> '\n' !in Collected(xs, key, text)[k]
    decreases |xs|
  {
    var n := |xs| - 1;
    var t := text(xs[n]);
    if t != "" && key(xs[n]) == k {
      SubstNonEmpty(t, '\n', ",");
    } else {
      CollectedValues(xs[..n], key, text, k);
    }
  }

  /** `validation[key] = value` for every element with a non-empty text, in
      document order. */
  function Validation(inputs: seq<ValidationInput>): map<string, string>
  {
    Collected(inputs, (el: ValidationInput) => KeyOf(el.id), InputText)
  }

  /** A key is sent exactly when some element with that key has a non-empty
      text. */
  lemma ValidationIff(inputs: seq<ValidationInput>, key: string)
    ensures key in Validation(inputs) <==>
              exists i :: 0 <= i < |inputs| && KeyOf(inputs[i].id) == key && InputText(inputs[i]) != ""
  {
    CollectedIff(inputs, (el: ValidationInput) => KeyOf(el.id), InputText, key);
  }

  /** A sent value is never empty, and a list value has no line breaks. */
  lemma ValidationValues(inputs: seq<ValidationInput>, key: string)
    requires key in Validation(inputs)
    ensures Validation(inputs)[key] != ""
    ensures IsListKey(key) ==> '\n' !in Validation(inputs)[key]
  {
    CollectedValues(inputs, (el: ValidationInput) => KeyOf(el.id), InputText, key);
  }

  lemma {:induction false} SubstNonEmpty(s: string, c: char, rep: string)
    requires rep != ""
    ensures s != "" ==> LivePreview.Subst(s, c, rep) != ""
  {
  }

  /** Substituting ',' for '\n' and back restores a text without commas. */
  lemma {:induction false} SubstBack(s: string)
    requires ',' !in s
    ensures LivePreview.Subst(LivePreview.Subst(s, '\n', ","), ',', "\n") == s
    decreases |s|
  {
    if s != [] {
      SubstBack(s[1..]);
      var head := if s[0] == '\n' then "," else [s[0]];
      assert LivePreview.Subst(s, '\n', ",") == head + LivePreview.Subst(s[1..], '\n', ",");
      LivePreview.SubstAppend(head, LivePreview.Subst(s[1..], '\n', ","), ',', "\n");
      LivePreview.SubstSingle(head[0], ',', "\n");
      assert head == [head[0]];
    }
  }

  /** The text the dialog shows again for a stored value: list values get
      their line breaks back. */
  function LoadedText(key: string, stored: string): string
  {
    if IsListKey(key) then LivePreview.Subst(stored, ',', "\n") else stored
  }

  /** Saving a text field and opening the dialog again shows the trimmed
      text, as long as it has no comma. */
  lemma ValidationRoundTrip(el: ValidationInput)
    requires !el.isCheckbox && ',' !in TrimJs(el.value)
    ensures LoadedText(KeyOf(el.id), StoredText(KeyOf(el.id), InputText(el))) == TrimJs(el.value)
  {
    if IsListKey(KeyOf(el.id)) {
      SubstBack(TrimJs(el.value));
    }
  }

  /** One more element adds its key with its stored text, when its text is
      not empty. */
  lemma ValidationStep(inputs: seq<ValidationInput>)
    requires inputs != []
    ensures var n := |inputs| - 1;
      var el := inputs[n];
      Validation(inputs) == if InputText(el) != "" then Validation(inputs[..n])[KeyOf(el.id) := StoredText(KeyOf(el.id), InputText(el))] else Validation(inputs[..n])
  {
  }

  /** The `forEach` over the validation elements. */
  method CollectValidation(inputs: seq<ValidationInput>) returns (validation: map<string, string>)
    ensures validation == Validation(inputs)
  {
    validation := map[];
    var k := 0;
    while k < |inputs|
      invariant 0 <= k <= |inputs|
      invariant validation == Validation(inputs[..k])
    {
      var el := inputs[k];
      var key := KeyOf(el.id);
      var value := if el.isCheckbox then (if el.checked then "True" else "") else TrimJs(el.value);
      assert value == InputText(el);
      if value != "" {
        if IsListKey(key) {
          value := LivePreview.Subst(value, '\n', ",");
        }
        validation := validation[key := value];
      }
      ValidationStep(inputs[..k + 1]);
      assert inputs[..k + 1][..k] == inputs[..k];
      k := k + 1;
    }
    assert inputs[..|inputs|] == inputs;
  }

  // ---- saveField ----

  /** The dialog's inputs as `saveField` reads them. */
  datatype FieldForm = FieldForm(
    fieldId: string, labelText: string, name: string, fieldType: string,
    optionLabels: string, optionValues: string, defaultSingle: string, defaultMulti: string,
    helpTip: string, wordAsLabel: bool, excelAsLabel: bool, validation: seq<ValidationInput>)

  datatype Payload = Payload(
    labelText: string, name: string, fieldType: string, options: seq<FieldRoutes.OptionPair>,
    defaultValue: string, helpTip: string, validation: map<string, string>,
    exportWordAsLabel: bool, exportExcelAsLabel: bool)

  /** What `saveField` does: warn and send nothing, or send the payload with
      PUT for an existing field and POST for a new one. */
  datatype SaveOutcome = Warned(message: string) | Sent(isUpdate: bool, payload: Payload)

  function DuplicateMessage(name: string): string
  {
    "字段内部名称 '" + name + "' 已存在，请使用其他名称！"
  }

  const EmptyMessage: string := "显示名称和内部名称不能为空！"

  /** The name must be new in the sheet when the field is new or renamed;
      then label and name must not be blank. */
  function SaveOutcomeOf(form: FieldForm, currentFieldName: string, allNames: seq<string>): SaveOutcome
  {
    var name := TrimJs(form.name);
    var labelText := TrimJs(form.labelText);
    if (form.fieldId == "" || name != currentFieldName) && name in allNames then Warned(DuplicateMessage(name))
    else
      var payload := Payload(labelText, name, form.fieldType, OptionsOf(form.optionLabels, form.optionValues),
                             TrimJs(if form.fieldType == "textarea" then form.defaultMulti else form.defaultSingle),
                             TrimJs(form.helpTip), Validation(form.validation), form.wordAsLabel, form.excelAsLabel);
      if labelText == "" || name == "" then Warned(EmptyMessage) else Sent(form.fieldId != "", payload)
  }

  /** A request is sent only with a non-blank label and name, by PUT exactly
      for an existing field, and never with the name of another field; an
      unchanged name of an edited field is not checked. */
  lemma SaveOutcomeSpec(form: FieldForm, currentFieldName: string, allNames: seq<string>)
    ensures var r := SaveOutcomeOf(form, currentFieldName, allNames);
      && (r.Sent? ==> r.payload.labelText != "" && r.payload.name != "" && (r.isUpdate <==> form.fieldId != ""))
      && (r.Sent? && (form.fieldId == "" || r.payload.name != currentFieldName) ==> r.payload.name !in allNames)
      && (((form.fieldId == "" || TrimJs(form.name) != currentFieldName) && TrimJs(form.name) in allNames)
            ==> r == Warned(DuplicateMessage(TrimJs(form.name))))
      && ((form.fieldId != "" && TrimJs(form.name) == currentFieldName && TrimJs(form.labelText) != "" && currentFieldName != "")
            ==> r.Sent?)
  {
  }

  method SaveField(form: FieldForm, currentFieldName: string, allNames: seq<string>) returns (r: SaveOutcome)
    ensures r == SaveOutcomeOf(form, currentFieldName, allNames)
  {
    var validation := CollectValidation(form.validation);
    var name := TrimJs(form.name);
    var labelText := TrimJs(form.labelText);
    if form.fieldId == "" || name != currentFieldName {
      if name in allNames {
        return Warned(DuplicateMessage(name));
      }
    }
    var options := OptionsOf(form.optionLabels, form.optionValues);
    var defaultValue := TrimJs(if form.fieldType == "textarea" then form.defaultMulti else form.defaultSingle);
    var payload := Payload(labelText, name, form.fieldType, options, defaultValue, TrimJs(form.helpTip),
                           validation, form.wordAsLabel, form.excelAsLabel);
    if payload.labelText == "" || payload.name == "" {
      return Warned(EmptyMessage);
    }
    r := Sent(form.fieldId != "", payload);
  }

  // ---- operators of the rule dialog ----

  const BasicOperators: seq<string> := ["equals", "not_equals", "contains", "not_contains", "is_empty", "is_not_empty"]
  const NumericOperators: seq<string> := ["greater_than", "less_than", "greater_than_or_equals", "less_than_or_equals"]

  datatype SheetField = SheetField(name: string, fieldType: string)

  /** `allFields.find(f => f.name === fieldName)`: the first field with the
      name. */
  function Find(fields: seq<SheetField>, name: string): (r: Option<SheetField>)
    ensures r.Some? <==> exists k :: 0 <= k < |fields| && fields[k].name == name
    ensures r.Some? ==> exists k :: 0 <= k < |fields| && fields[k] == r.value && r.value.name == name
                                    && forall j :: 0 <= j < k ==> fields[j].name != name
  {
    if fields == [] then None
    else if fields[0].name == name then Some(fields[0])
    else
      var r := Find(fields[1..], name);
      assert forall k :: 1 <= k < |fields| ==> fields[k] == fields[1..][k - 1];
      if r.Some? then
        assert exists k :: 0 <= k < |fields[1..]| && fields[1..][k] == r.value && r.value.name == name
                           && forall j :: 0 <= j < k ==> fields[1..][j].name != name;
        var k :| 0 <= k < |fields[1..]| && fields[1..][k] == r.value && r.value.name == name
                 && forall j :: 0 <= j < k ==> fields[1..][j].name != name;
        assert fields[k + 1] == r.value && forall j :: 0 <= j < k + 1 ==> fields[j].name != name;
        r
      else r
  }

  /** `updateIfOperators`: the basic operators, and the numeric ones too
      when the trigger field is a number or a date. */
  function OperatorsFor(fields: seq<SheetField>, fieldName: string): seq<string>
  {
    var field := Find(fields, fieldName);
    if field.Some? && (field.value.fieldType == "number" || field.value.fieldType == "date") then BasicOperators + NumericOperators
    else BasicOperators
  }

  /** Every operator offered is one the engine knows, and a numeric
      comparison is offered exactly when the first field of that name is a
      number or a date. */
  lemma OperatorsOffered(fields: seq<SheetField>, fieldName: string)
    ensures var ops := OperatorsFor(fields, fieldName);
      && (forall k :: 0 <= k < |ops| ==> Condition.IsKnownOperator(ops[k]))
      && ((exists k :: 0 <= k < |ops| && Condition.IsNumericOperator(ops[k])) <==>
            Find(fields, fieldName).Some? && Find(fields, fieldName).value.fieldType in {"number", "date"})
  {
    var ops := OperatorsFor(fields, fieldName);
    assert forall k :: 0 <= k < |BasicOperators| ==> !Condition.IsNumericOperator(BasicOperators[k]);
    assert forall k :: 0 <= k < |BasicOperators| ==> Condition.IsKnownOperator(BasicOperators[k]);
    assert forall k :: 0 <= k < |NumericOperators| ==> Condition.IsNumericOperator(NumericOperators[k]);
    if |ops| > |BasicOperators| {
      assert Condition.IsNumericOperator(ops[6]);
    }
  }
}
