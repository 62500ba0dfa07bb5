# Conditional form logic and field administration of the project-data system

This project models, in Dafny, the core of a web system in which
administrators define sheets of form fields (text, number, date, select,
radio, checkbox, ...) together with their validation rules and
conditional-logic rules, and users fill those forms in; the data then fill
Word templates and are previewed as text.

What is modelled:

- **The conditional-logic engine** of the data-entry page
  (`ConditionalLogicEngine` in `app/static/js/project.js`). Rules of the form
  "if field *op* value then actions" run over the form's fields. The actions
  are show, hide, enable, disable, set_required, set_optional,
  validate_comparison and filter_options. The DOM is a map from field name to
  a `FieldState`. Module `Condition` evaluates one condition, module `Engine`
  gives a pure definition of every step, and class
  `LogicEngine.ConditionalLogicEngine` holds the methods. Each method is
  proved against its pure step. `EnginePasses` proves what a whole pass does:
  a pass without filter_options is idempotent, and a worked example shows
  that a pass with filter_options is not. `Ranks` covers the column counter
  of the dynamic table.
- **The live preview** of a template chapter in the browser
  (`live_preview.js`). It writes the current value of a field, escaped and
  with line breaks as `<br>`, into every `data-placeholder-for` span bound
  to that field. **The preview generator** on the server
  (`preview_generator.py`) builds the preview HTML of a project or a sheet:
  fixed-form items whose values sit in `data-placeholder-for` spans, and
  numbered dynamic tables. Neither fills `{{name}}` placeholders; only the
  Word text replacement does.
- **The administration routes** (`admin.py`, `admin/fields.py`,
  `admin/rules.py`). These cover the import of fields from a spreadsheet,
  the creation, update and reordering of fields, and the save of rules with
  their referential guard. The field store is a class whose methods update
  a map of records.
- **The field dialogs of the back office** (`admin_sheet_fields.js`,
  `modal_handler.js`). These cover name generation from labels, option
  syncing, collecting validation settings, the duplicate-name check on save,
  and the operators offered per field type.
- **The Word text replacement** (`word_processor.py`), on a document made
  of paragraphs of runs.

Every function that only computes is paired with lemmas that state what its
result means. Examples are round trips (split/join, ',' versus line
breaks), idempotence (option syncing, filtering, a pass of the rules),
iff-characterisations (emptiness, which options survive, which keys are
sent) and frame properties (what an action leaves alone). Every method that
changes state is proved against such a function.

Conventions:

- Integers are unbounded.
- JavaScript's `Number()` is modelled on decimal notation only.
- Python `lower()` and JavaScript `toLowerCase()` are modelled on ASCII.
- The clock and the random source of the name generators are parameters.

## Model

| member | source | states |
|---|---|---|
| Condition.Normalize | app/static/js/project.js:91-100 | a checkbox's true/false and the stored strings "True"/"False" become 是/否, `null` stays missing, any other text is kept as it is |
| Condition.CompareNumbers | app/static/js/project.js:110-113 | a numeric comparison is false whenever either side is NaN |
| Condition.CheckboxNormalised | app/static/js/project.js:94-104 | with `equals`, a checked checkbox and "True" match exactly 是, and an unchecked one and "False" match exactly 否 |
| Condition.EmptinessExact | app/static/js/project.js:108-109 | is_empty holds exactly for null and ""; is_not_empty is its negation; "0", 否 and an unchecked box are not empty |
| Condition.UnknownOperatorFalse | app/static/js/project.js:114 | an operator the switch does not know makes the condition false |
| Condition.NegatedOperators | app/static/js/project.js:104-107 | not_equals and not_contains are exactly the negations of equals and contains |
| Condition.NumericNaNFalse | app/static/js/project.js:110-113 | a numeric operator applied to text that is not a number is false, whatever the clause's value |
| Condition.LeadingDigitsUpTo | app/static/js/project.js:110-113 | the digit prefix `Number()` reads ends at the first non-digit |
| Condition.LeadingDigitsAll | app/static/js/project.js:110-113 | a text made only of digits is read in full |
| Condition.NaturalsParse | app/static/js/project.js:110-113 | `Number()` of the decimal rendering of n is n |
| Condition.NaturalsParseUnsigned | app/static/js/project.js:110-113 | the unsigned reader gives n back for the rendering of n |
| Condition.HoldsNumeric | app/static/js/project.js:110-113 | each numeric operator compares `Number()` of the value with `Number()` of the clause's value |
| Condition.CheckNumeric | app/static/js/project.js:91-113 | after normalisation, a numeric clause is the numeric comparison of the two sides |
| Condition.NumbersCompare | app/static/js/project.js:110-113 | text that reads as a number compares by that number under greater_than and less_than_or_equals |
| Condition.CheckStrNumbers | app/static/js/project.js:110-113 | any numeric operator on numeric text compares the two numbers |
| Condition.WholeNumbersCompareNumerically | app/static/js/project.js:110-113 | on rendered whole numbers the order is numeric ("15" > "9"), not textual |
| Condition.DatesAreNotNumbers | app/static/js/project.js:110-113 | an ISO date yyyy-mm-dd is NaN, so every numeric operator on a date is false |
| Condition.DateNotNumber | app/static/js/project.js:110-113 | `Number()` of a yyyy-mm-dd date is NaN |
| Condition.DateNotUnsigned | app/static/js/project.js:110-113 | the unsigned reader stops at the first '-' and rejects the date |
| Engine.FieldsByName | app/static/js/project.js:21 | the dictionary's keys are exactly the names in the field list and each entry carries its own name |
| Engine.FieldsByNameLastWins | app/static/js/project.js:21 | a name maps to the last field in the list that carries it |
| Engine.GetFieldValue | app/static/js/project.js:82-88 | null exactly when no element has the name; a checkbox gives its checked state, a radio group its checked value, anything else its `.value` |
| Engine.ShowHideEffect | app/static/js/project.js:146-147 | show hides the wrapper exactly when the condition fails, hide exactly when it holds, and nothing else changes |
| Engine.EnableEffect | app/static/js/project.js:148-168 | enable sets disabled to the negated condition, restores the defined required flag only when the condition holds, and leaves visibility, value and validity alone |
| Engine.DisableEffect | app/static/js/project.js:169-215 | with the condition, disable makes the field disabled and optional and drops its space attributes; without it, the defined disabled and required flags come back and the defined space attributes are set again |
| Engine.RequiredEffect | app/static/js/project.js:216-250 | set_required makes the field required exactly when the condition holds; set_optional makes it optional when it holds and restores the defined flag otherwise; neither touches disabled |
| Engine.OtherKindsNoEffect | app/static/js/project.js:144-145 | validate_comparison, filter_options and unknown kinds change no target inside the target loop |
| Engine.AfterTarget | app/static/js/project.js:135-136 | one target step keeps the set of fields; a name with no element is skipped |
| Engine.AfterTargets | app/static/js/project.js:134-252 | the target loop keeps the set of fields |
| Engine.AfterTargetsFrame | app/static/js/project.js:134-252 | the target loop changes no value, option list or control, and leaves every non-target as it was |
| Engine.AfterTargetsApplied | app/static/js/project.js:134-252 | every existing target gets its patch applied exactly once, however often it is listed |
| Engine.LastTargetApplied | app/static/js/project.js:134-252 | a target listed only at the end gets its patch once |
| Engine.PlaceholderEnd | app/static/js/project.js:283 | the lazy group of `${...}` ends at the first '}' when no line terminator comes before it |
| Engine.InterpolatePlain | app/static/js/project.js:283 | a message without `${` is shown exactly as written |
| Engine.AfterComparison | app/static/js/project.js:269-287 | the comparison keeps the set of fields |
| Engine.ComparisonOutcome | app/static/js/project.js:269-287 | without a target element nothing changes; with a missing comparison element or an empty side the message is cleared; with both values present it is cleared when the relation holds and, when it fails and holds no `${`, is the action's message or the default naming the comparison field, never empty; only the first target's message changes |
| Engine.Kept | app/static/js/project.js:303-307 | an option survives exactly when it is the empty placeholder or its value is listed, and the list never grows |
| Engine.KeptAppend | app/static/js/project.js:303-307 | pruning a joined list gives the pruned parts in turn, so survivors keep their order and repetitions |
| Engine.KeptSingle | app/static/js/project.js:304 | one option survives exactly when it is the placeholder or its value is listed |
| Engine.AfterFilter | app/static/js/project.js:290-315 | the filter keeps the set of fields |
| Engine.FilterSpec | app/static/js/project.js:290-315 | the list is rebuilt from the snapshot and pruned only on an exact match of the trigger value; the placeholder always survives; the selection stays exactly when it is still offered |
| Engine.FilterTwice | app/static/js/project.js:290-315 | filtering again with the same trigger value changes nothing |
| Engine.FilterNeedsValue | app/static/js/project.js:301 | an action without `filter_value` never prunes: the target gets its snapshot back whatever the trigger's value |
| Engine.FilterWithoutSnapshot | app/static/js/project.js:291-295 | a target without an element or without a snapshot is left alone |
| Engine.AfterAction | app/static/js/project.js:133-266 | an action keeps the set of fields |
| Engine.AfterActions | app/static/js/project.js:129 | the actions of a rule keep the set of fields |
| Engine.AfterRule | app/static/js/project.js:124-130 | a rule keeps the set of fields |
| Engine.AfterPass | app/static/js/project.js:119-121 | a pass keeps the set of fields |
| Engine.DisabledAtStart | app/static/js/project.js:61-76 | a field defined as disabled becomes disabled and optional and loses its space attributes; value, options, visibility and control stay |
| Engine.InitialDisabledOn | app/static/js/project.js:48-79 | the start-up step keeps the set of fields |
| Engine.InitialDisabledStep | app/static/js/project.js:49-78 | handling one more field name changes at most that field |
| Engine.InitialDisabledSpec | app/static/js/project.js:48-79 | at start-up exactly the fields defined as disabled become disabled and optional; all other fields are untouched |
| Engine.SnapshotStep | app/static/js/project.js:28-33 | recording one more element adds its options only when it is a select not recorded yet |
| Engine.Snapshot | app/static/js/project.js:28-33 | earlier snapshots are kept, every select not yet recorded gets its current options, and nothing else is recorded |
| LogicEngine.TargetEffect | app/static/js/project.js:145-251 | the switch over the action kind applies exactly that kind's patch to the target |
| LogicEngine.AllowSpaces | app/static/js/project.js:160-166 | the space attributes are set exactly for the space rules the field defines as "True" |
| LogicEngine.EnableTarget | app/static/js/project.js:148-168 | the enable branch equals the enable patch |
| LogicEngine.DisableTarget | app/static/js/project.js:169-215 | the disable branch equals the disable patch |
| LogicEngine.RequireTarget | app/static/js/project.js:216-250 | set_required and set_optional set the computed required flag and the defined space attributes |
| LogicEngine.KeepAllowed | app/static/js/project.js:303-307 | the pruning loop leaves exactly the options `Kept` describes, in order |
| LogicEngine.Offers | app/static/js/project.js:310 | the search finds the previous value exactly when an option carries it |
| LogicEngine.ConditionalLogicEngine.constructor | app/static/js/project.js:17-24 | the fields become a name-keyed dictionary and no options are recorded |
| LogicEngine.ConditionalLogicEngine.Init | app/static/js/project.js:27-45 | records the snapshot of every select not yet recorded, then leaves the form as the initial disabled state defines it |
| LogicEngine.ConditionalLogicEngine.ApplyInitialDisabledState | app/static/js/project.js:48-79 | the form becomes the start-up state `InitialDisabledSpec` characterises |
| LogicEngine.ConditionalLogicEngine.EvaluateAllRules | app/static/js/project.js:119-121 | the form becomes the result of the pass over all rules in order |
| LogicEngine.ConditionalLogicEngine.ApplyRule | app/static/js/project.js:124-130 | the condition is read once, then every action runs on the form the previous one left |
| LogicEngine.ConditionalLogicEngine.ExecuteActions | app/static/js/project.js:129 | the action loop equals the actions applied in order |
| LogicEngine.ConditionalLogicEngine.ExecuteAction | app/static/js/project.js:133-266 | the target loop, then the comparison (kind validate_comparison, condition met), then the filter (kind filter_options, trigger re-read) |
| LogicEngine.ConditionalLogicEngine.ApplyToTarget | app/static/js/project.js:134-252 | one target step as `AfterTarget` defines it |
| LogicEngine.ConditionalLogicEngine.PerformComparison | app/static/js/project.js:269-287 | only the first target's validity changes, as `ComparisonOutcome` characterises |
| LogicEngine.ConditionalLogicEngine.FilterOptions | app/static/js/project.js:290-315 | the first target's options and selection change as `FilterSpec` characterises |
| EnginePasses.ApplyFormThen | app/static/js/project.js:119-121 | applying two per-field patches one after the other equals applying their composition |
| EnginePasses.ApplyFormTwice | app/static/js/project.js:119-121 | a per-field patch applied twice equals one application |
| EnginePasses.ValueSameView | app/static/js/project.js:82-88 | two forms with the same names, controls and values give the same field values |
| EnginePasses.InterpolateSameValues | app/static/js/project.js:283 | the message text depends only on the field values |
| EnginePasses.InterpolateSameView | app/static/js/project.js:283 | the message text is the same on two forms with the same values |
| EnginePasses.TargetsAsPatch | app/static/js/project.js:134-252 | the target loop is one per-field patch |
| EnginePasses.ComparisonAsPatch | app/static/js/project.js:269-287 | the comparison is one per-field patch |
| EnginePasses.ComparisonSameView | app/static/js/project.js:269-287 | the validity message depends only on names, controls and values |
| EnginePasses.ActionAsPatch | app/static/js/project.js:133-266 | an action other than filter_options is one per-field patch |
| EnginePasses.ActionPatchSameView | app/static/js/project.js:133-266 | that patch depends only on names, controls and values |
| EnginePasses.ActionsAsPatch | app/static/js/project.js:129 | the actions of a rule without filter_options form one patch |
| EnginePasses.ActionsPatchSameView | app/static/js/project.js:129 | that patch depends only on names, controls and values |
| EnginePasses.RulePatchSameView | app/static/js/project.js:124-130 | a rule's patch depends only on names, controls and values |
| EnginePasses.PassPatchSameView | app/static/js/project.js:119-121 | a pass's patch depends only on names, controls and values |
| EnginePasses.PassAsPatch | app/static/js/project.js:119-121 | a pass without filter_options is one per-field patch of the form it started from |
| EnginePasses.PassKeepsValues | app/static/js/project.js:119-121 | such a pass changes no value, option list, control or field set |
| EnginePasses.PassIdempotent | app/static/js/project.js:119-121 | running the rules again right after such a pass changes nothing |
| EnginePasses.PassOfTwo | app/static/js/project.js:120 | a pass over two rules is the second rule applied after the first |
| EnginePasses.RuleOfOne | app/static/js/project.js:127-129 | a rule with one action is that action with the rule's condition |
| EnginePasses.TargetsOfOne | app/static/js/project.js:134 | a target loop over one name is one target step |
| EnginePasses.ExampleStep1 | app/static/js/project.js:124-130 | on the example form, "hide y when x is empty" leaves the form unchanged because x is "a" |
| EnginePasses.ExampleKept | app/static/js/project.js:303-307 | pruning [placeholder, a, b] to ["b"] keeps the placeholder and b |
| EnginePasses.ExampleFilterAction | app/static/js/project.js:260-265 | the filter rule's only effect is the filter with the trigger's current value |
| EnginePasses.ExampleStep2 | app/static/js/project.js:290-315 | the filter rule removes option a from x and clears x's selection |
| EnginePasses.ExampleStep3 | app/static/js/project.js:146-147 | on the filtered form the first rule now hides y |
| EnginePasses.ExampleFilterKeepsY | app/static/js/project.js:290-315 | the filter rule never touches y |
| EnginePasses.FilterBreaksIdempotence | app/static/js/project.js:119-121 | with filter_options a second pass changes the form: the first pass leaves y shown and clears x, the second hides y |
| Ranks.Clamp | app/static/js/project.js:730-732 | the count is kept within [5, 50], unchanged inside the range and cut to the nearer bound outside it |
| Ranks.HiddenFlags | app/static/js/project.js:733-736 | a rank column is hidden exactly when its rank exceeds the count |
| Ranks.ShowThenHide | app/static/js/project.js:729-732 | +5 then -5 returns to the count, except near the top of the range, where it ends at 45 |
| Ranks.HiddenMonotone | app/static/js/project.js:733-736 | raising the count never hides a visible column |
| Ranks.RankColumns.constructor | app/static/js/project.js:505-541 | with the count reset to 5 by `loadForm`, the header hides the columns above rank 5, and the two buttons it sets up end with only "hide more" disabled |
| Ranks.RankColumns.UpdateVisibleRanks | app/static/js/project.js:729-738 | the new count is the clamped sum, the columns follow `HiddenFlags` and the buttons reflect the bounds |
| Ranks.RankColumns.UpdateColumnButtons | app/static/js/project.js:739-746 | with both buttons present, "show more" is disabled at 50 and "hide more" at 5; otherwise nothing changes |
| RuleGuard.Get | app/routes/admin/rules.py:19 | `d.get(key, default)` (also `field_info.get(column, default)` of the sheet import): the entry when the key is present, the default otherwise |
| RuleGuard.AnyNamesIff | app/routes/admin/rules.py:28-33 | the loop answers True exactly when some action names the trigger among its targets |
| RuleGuard.SelfReferentialIff | app/routes/admin/rules.py:13-33 | self-referential exactly when the definition is a dict, its `if` is a dict with a truthy `field`, its `then` is a list, and some dict action has a list `targets` holding that field; so a non-dict definition, a bad `if`, an empty trigger or a non-list `then` gives False |
| RuleGuard.RuleRequestError | app/routes/admin/rules.py:51-56 | a request passes exactly when the body is a truthy dict with a truthy name and definition that is not self-referential; a self-referential definition is refused with 400; a truthy non-dict body is answered with 500 |
| RuleGuard.RuleStore.constructor | app/routes/admin/rules.py:47-89 | the store starts empty |
| RuleGuard.RuleStore.CreateConditionalRule | app/routes/admin/rules.py:47-68 | a refused request stores nothing; an accepted one is stored under a fresh id and answered with 201 and the creation message |
| RuleGuard.UpdatedMessage | app/routes/admin/rules.py:86 | the success answer of an update names the rule when its name is a string |
| RuleGuard.RuleStore.UpdateConditionalRule | app/routes/admin/rules.py:71-89 | an unknown id is answered with 500, a refused request changes nothing, and an accepted one replaces the rule's name and definition and is answered with 200 and a message naming the rule |
| AdminRoutes.IsRuleSelfReferentialLoop | app/routes/admin.py:608-635 | the copy in the back-office routes answers as the rule-authoring copy on every definition |
| AdminRoutes.ListContains | app/routes/admin.py:632 | `x in items` for a list finds x exactly when it is listed |
| AdminRoutes.LastIndexOf | app/routes/admin.py:116 | the split point of `rsplit('.', 1)` is the last '.' and no '.' follows it |
| AdminRoutes.DocxTail | app/routes/admin.py:114-116 | an extension that lower-cases to `docx` has four characters and no dot |
| AdminRoutes.AllowedFileIff | app/routes/admin.py:114-116 | a name is allowed exactly when it ends with '.' and four characters that lower-case to `docx` |
| AdminRoutes.RuleForSpec | app/routes/admin.py:405-416 | a flag column yields its fixed value exactly when its non-empty cell lower-cases to true, yes, 是 or 1; a free column yields its non-empty cell's text, with newlines turned into commas in the one-per-line columns |
| AdminRoutes.RulesOf | app/routes/admin.py:405-416 | a row yields at most one rule per column of the table |
| AdminRoutes.RulesOfAppend | app/routes/admin.py:405-416 | the rules of joined column lists are those of each part in turn, in column order |
| AdminRoutes.RulesOfSingle | app/routes/admin.py:405-416 | one column gives exactly the rule its cell yields |
| AdminRoutes.RulesOfIff | app/routes/admin.py:405-416 | a rule is produced exactly when some column of the table yields it |
| AdminRoutes.RuleTypesAfterFirst | app/routes/admin.py:355-365 | only the first line of the table produces the `required` rule |
| AdminRoutes.RequiredFlag | app/routes/admin.py:405-410 | the required rule is added exactly when the 必填 cell is non-empty and lower-cases to true, yes, 是 or 1 |
| AdminRoutes.ImportRules | app/routes/admin.py:405-416 | the loop over the table adds exactly the rules `RulesOf` gives, in order |
| AdminRoutes.NameFromLabel | app/routes/admin.py:391-392 | the fallback name holds no white space |
| AdminRoutes.FieldOfRowSpec | app/routes/admin.py:385-403 | a row yields a field exactly when its trimmed label is non-empty; the field carries that label, the trimmed name or else the name made from the label, the row's position and its rules |
| AdminRoutes.RenameFixed | app/routes/admin.py:372-373 | in a fixed-form header 字段名 becomes the label column and 录入内容 the default-value column in place, every other column is kept, and a label column exists afterwards exactly when one or 字段名 existed before |
| AdminRoutes.Record | app/routes/admin.py:383 | `to_dict('records')` keys a row by exactly the header's column names |
| AdminRoutes.RecordLastWins | app/routes/admin.py:383 | a column name maps to the cell of the last column carrying it |
| AdminRoutes.LaterLabelColumnWins | app/routes/admin.py:372-386 | a fixed-form sheet headed 字段名, 录入内容 and a label column takes every label from that last column |
| AdminRoutes.YieldedAll | app/routes/admin.py:385-403 | a property every row's field has holds of every imported field |
| AdminRoutes.YieldedRise | app/routes/admin.py:385 | positions recorded from `enumerate` rise strictly and stay below the row count |
| AdminRoutes.ImportedLabelled | app/routes/admin.py:386-388 | every imported field has a non-empty label |
| AdminRoutes.ImportOrdersRise | app/routes/admin.py:385-400 | imported display orders rise strictly and stay below the row count; a skipped row leaves a gap |
| AdminRoutes.ImportSheet | app/routes/admin.py:369-376 | a sheet with 字段名 and 录入内容 is always imported as a fixed form; any other sheet is imported, as a dynamic table, exactly when it has a label column; no more fields than rows |
| AdminRoutes.ImportRow | app/routes/admin.py:386-403 | the loop body yields exactly `FieldOfRow` |
| AdminRoutes.ImportRows | app/routes/admin.py:385-416 | the loop over the rows yields exactly the fields `FieldsOfRows` describes |
| FieldRoutes.Pairs | app/routes/admin/fields.py:23 | the built pairs never outnumber the labels and all have a non-empty label |
| FieldRoutes.PairsAppend | app/routes/admin/fields.py:23 | the pairs of joined lists are those of each part in turn, so pairs keep the order of their labels |
| FieldRoutes.PairsSingle | app/routes/admin/fields.py:23 | one position gives its pair exactly when its label is non-empty |
| FieldRoutes.PairsIff | app/routes/admin/fields.py:23 | a pair is built exactly from a position with a non-empty label, paired with the value at the same position |
| FieldRoutes.PairsEmpty | app/routes/admin/fields.py:23-25 | no pair is built exactly when every label is empty |
| FieldRoutes.BuildOptions | app/routes/admin/fields.py:17-25 | for an option-bearing type: 400 when there are no labels or the lengths differ, 400 when every label is empty, otherwise `Pairs`, in label order; for any other type the fallback (none on create, the stored options on update) |
| FieldRoutes.PyStr | app/routes/admin/fields.py:51 | `str()` of True, False, None, a string, and an integer as its decimal digits after a '-' when negative |
| FieldRoutes.PyStrIntValue | app/routes/admin/fields.py:51 | an integer's text reads back as that integer |
| FieldRoutes.KeptRules | app/routes/admin/fields.py:48-51 | at most one rule per validation entry |
| FieldRoutes.KeptRulesAppend | app/routes/admin/fields.py:48-51 | the rules of joined entry lists are those of each part in turn, in entry order |
| FieldRoutes.KeptRulesSingle | app/routes/admin/fields.py:48-51 | one entry gives a rule exactly when its value is stored |
| FieldRoutes.KeptRulesIff | app/routes/admin/fields.py:48-51 | a rule is stored exactly for an entry whose value is truthy or `False`, with the value's text |
| FieldRoutes.FalseIsKept | app/routes/admin/fields.py:50 | False is stored as "False", while "", null and 0 store nothing |
| FieldRoutes.ValidationRules | app/routes/admin/fields.py:48-51 | the loop adds exactly the rules `KeptRules` gives |
| FieldRoutes.MaxOf | app/routes/admin/fields.py:34-35 | the highest display order of a non-empty sheet is one of its orders and no smaller than any |
| FieldRoutes.NextOrder | app/routes/admin/fields.py:34-36 | the new order is above every order of the sheet, and 0 when the sheet is empty |
| FieldRoutes.NextOrderUnique | app/routes/admin/fields.py:34-36 | `NextOrder` is the only order that is 0 for an empty sheet, or one past an existing order and above all of them |
| FieldRoutes.CreateOutcomeSpec | app/routes/admin/fields.py:12-54 | a record is stored only when label, name and type are present and the name is free in the sheet; it carries that name, the sheet, the kept rules and the given order; a taken name is always refused |
| FieldRoutes.UpdateOutcome | app/routes/admin/fields.py:73-104 | an update keeps the name, sheet and order, replaces the rules with the kept ones, takes the label, type and export flags from the request when present and keeps them otherwise, overwrites default value and help tip, keeps the options for a type without options, and for an option-bearing type stores `Pairs` exactly when the labels are non-empty, as many as the values, and not all empty |
| FieldRoutes.Reordered | app/routes/admin/fields.py:117-121 | a reorder keeps the set of fields |
| FieldRoutes.ReorderedSpec | app/routes/admin/fields.py:117-121 | a listed field of the sheet gets its last position in the list; fields of other sheets and unlisted ids are unchanged; nothing but the order changes |
| FieldRoutes.FieldStore.constructor | app/routes/admin/fields.py:12-126 | the store starts empty |
| FieldRoutes.FieldStore.CreateField | app/routes/admin/fields.py:12-57 | a refused request stores nothing; an accepted one is stored under a fresh id after the sheet's last field, with status 201 |
| FieldRoutes.FieldStore.Insert | app/routes/admin/fields.py:45-46 | the record goes in under the next id, which was free |
| FieldRoutes.FieldStore.LastOrder | app/routes/admin/fields.py:34-36 | the query returns one past the sheet's highest order, or 0 for an empty sheet |
| FieldRoutes.FieldStore.UpdateField | app/routes/admin/fields.py:73-110 | an unknown id gets 500 and changes nothing; a refused request changes nothing; otherwise the record becomes `UpdateOutcome` and the answer is 200 with the message naming the new label |
| FieldRoutes.FieldStore.ReorderFields | app/routes/admin/fields.py:114-123 | the store becomes `Reordered` of the old store and stays valid |
| LivePreview.Subst | app/static/js/modules/live_preview.js:65-66 | replacing one character leaves text without it unchanged, removes it entirely when the replacement lacks it, and brings in no other new character |
| LivePreview.ReplaceIsSubst | app/static/js/modules/live_preview.js:65-66 | `replace(/c/g, rep)` for a single character replaces each occurrence of that character |
| LivePreview.NoRawBrackets | app/static/js/modules/live_preview.js:65 | the escaped text holds no raw `<` or `>` |
| LivePreview.PreviewHtmlIsCharwise | app/static/js/modules/live_preview.js:65-66 | the chain of replacements renders each character on its own: `&`, `<`, `>` become entities and a newline becomes `<br>`, which the newline step adds last so it is not escaped again |
| LivePreview.PreviewRoundTrip | app/static/js/modules/live_preview.js:65-66 | the preview HTML decodes back to exactly the text typed, newlines included |
| LivePreview.OnlyBreaksAreTags | app/static/js/modules/live_preview.js:64-66 | every `<` in the preview HTML opens an inserted `<br>`, so the value cannot inject markup |
| LivePreview.ShownSpec | app/static/js/modules/live_preview.js:68-72 | an empty value shows exactly the mask `**********`; any other value shows HTML that decodes back to it |
| LivePreview.CheckedRadio | app/static/js/modules/live_preview.js:108 | a checked radio is found exactly when one with the name is checked, and its value is that radio's value |
| LivePreview.LiveValue | app/static/js/modules/live_preview.js:98-110 | a checkbox gives 是 exactly when checked and 否 exactly when not; a radio group gives the checked radio's value or "" when none is checked; any other input gives its value |
| LivePreview.LoadValue | app/static/js/modules/live_preview.js:88 | the saved value when it is present and non-empty, otherwise the field's default |
| LivePreview.Bound | app/static/js/modules/live_preview.js:60-74 | every span bound to the field shows the value; every other span is unchanged |
| LivePreview.UnboundWritesNothing | app/static/js/modules/live_preview.js:60-61 | with no span bound to the name nothing is written |
| LivePreview.AfterLoad | app/static/js/modules/live_preview.js:86-90 | the load pass keeps the spans and what they are bound to |
| LivePreview.AfterLoadUnbound | app/static/js/modules/live_preview.js:86-90 | a span bound to no field of the list is untouched |
| LivePreview.AfterLoadBound | app/static/js/modules/live_preview.js:86-90 | a span bound to a field shows that field's load value; among several fields of that name the last one wins |
| LivePreview.PreviewPane.constructor | app/static/js/modules/live_preview.js:56-60 | the pane holds the given spans |
| LivePreview.PreviewPane.UpdatePlaceholder | app/static/js/modules/live_preview.js:56-75 | the spans become `Bound` of the old spans |
| LivePreview.PreviewPane.UpdatePreviewOnLoad | app/static/js/modules/live_preview.js:83-91 | without a configuration nothing changes; otherwise the spans become the load pass over the old spans |
| LivePreview.PreviewPane.HandleLiveUpdate | app/static/js/modules/live_preview.js:98-113 | the spans bound to the input's name show its projected value |
| PreviewGenerator.LabelMapIff | app/services/preview_generator.py:42 | a value has a label exactly when some option carries it |
| PreviewGenerator.LabelMapLast | app/services/preview_generator.py:42 | a value's label is the one of the last option carrying it |
| PreviewGenerator.LabelMapsIff | app/services/preview_generator.py:39-42 | a field name has a map exactly when a field of that name has options |
| PreviewGenerator.BuildLabelMaps | app/services/preview_generator.py:39-42 | the loop builds exactly `LabelMaps` |
| PreviewGenerator.Lookup | app/services/preview_generator.py:55-57 | `map_dict.get(v, v)`: the label when the value is mapped, the value itself otherwise |
| PreviewGenerator.LookupAll | app/services/preview_generator.py:55 | each part is looked up on its own, and the number of parts is kept |
| PreviewGenerator.RawValue | app/services/preview_generator.py:46 | `data.get(name, default or '')`: the stored entry when the key exists (even NULL or ""), else the default or "" |
| PreviewGenerator.DisplayValue | app/services/preview_generator.py:49-57 | an unmapped field shows the raw value; NULL stays NULL; a single-choice value is looked up; a multi-choice value is split at ',' and the looked-up parts are joined with ", " |
| PreviewGenerator.MultiWithoutComma | app/services/preview_generator.py:52-57 | a multi-choice value without a comma is shown like a single value |
| PreviewGenerator.NeverRemappedWithoutOptions | app/services/preview_generator.py:39-57 | a field none of whose namesakes has options is shown exactly as stored |
| PreviewGenerator.PlaceholderMasked | app/services/preview_generator.py:60 | the span shows the mask exactly when the value is NULL, empty or the mask text itself |
| PreviewGenerator.NoOptionsSameItems | app/services/preview_generator.py:44-62 | without options, the project preview's list equals the sheet preview's list, which never remaps |
| PreviewGenerator.NoLabelMaps | app/services/preview_generator.py:39-42 | without options no map is built |
| PreviewGenerator.FixedFormPreview | app/services/preview_generator.py:38-63 | the fixed-form block is the list of one item per field, remapped through the label maps when asked |
| PreviewGenerator.FixedItemsHtml | app/services/preview_generator.py:45-61 | the loop renders one item per field in order |
| PreviewGenerator.NumberedFromAppend | app/services/preview_generator.py:76-77 | numbering one more row appends it with the next position |
| PreviewGenerator.RowsNumbered | app/services/preview_generator.py:76-77 | stored rows are numbered 1, 2, ..., n in their stored order |
| PreviewGenerator.SameTableWithRows | app/services/preview_generator.py:75-83 | once there are rows, the project and sheet previews draw the same table |
| PreviewGenerator.RowCellsHtml | app/services/preview_generator.py:78-80 | one cell per field holding `row.get(name, '')` |
| PreviewGenerator.HeaderCellsHtml | app/services/preview_generator.py:71-72 | one header cell per field label |
| PreviewGenerator.SampleCellsHtml | app/services/preview_generator.py:138-142 | the sample row: number 1 and an empty span per field |
| PreviewGenerator.DynamicTablePreview | app/services/preview_generator.py:65-86 | the dynamic-table block is head, numbered rows or the no-data row, and tail |
| PreviewGenerator.HeaderHtml | app/services/preview_generator.py:69-73 | the table head: the number column, then one column per field |
| PreviewGenerator.TableBodyHtml | app/services/preview_generator.py:75-83 | the rows when there are some, else the no-data row spanning every column (after the sample row in the sheet preview) |
| PreviewGenerator.RowsBlock | app/services/preview_generator.py:76-81 | the loop over stored rows yields `RowsHtml` |
| PreviewGenerator.SheetsStep | app/services/preview_generator.py:29 | one more sheet appends its HTML |
| PreviewGenerator.SheetBlock | app/services/preview_generator.py:29-86 | a sheet's block is its heading and its body by type |
| PreviewGenerator.SectionBlock | app/services/preview_generator.py:23-30 | a section's block is its heading and its sheets |
| PreviewGenerator.SheetsBlock | app/services/preview_generator.py:29 | the loop over sheets yields `SheetsHtml` |
| PreviewGenerator.ProjectPreview | app/services/preview_generator.py:9-88 | with no latest template, an error; otherwise the sections in order |
| PreviewGenerator.SheetPreview | app/services/preview_generator.py:91-148 | the sheet preview equals `SheetPreviewSpec` |
| PreviewGenerator.SheetPreviewAgrees | app/services/preview_generator.py:91-148 | with a project, a fixed sheet without options or a dynamic sheet with rows previews alone as it does inside the project preview |
| WordProcessor.PlaceholderKey | app/services/word_processor.py:85 | the text key of a field is exactly `{{`, the field name, `}}` |
| WordProcessor.KeysSkipped | app/services/word_processor.py:19-32 | a table key is never used for text replacement, and a field's key is skipped exactly when the field name starts with `table_` |
| WordProcessor.Placeholders | app/services/word_processor.py:82-85 | the key-value list built from the stored rows has no key twice |
| WordProcessor.Put | app/services/word_processor.py:85 | `d[key] = value` keeps the keys distinct, keeps the length when the key exists and appends the pair when it is new |
| WordProcessor.PutSpec | app/services/word_processor.py:85 | after `d[key] = value` the dict holds the pair and every other entry |
| WordProcessor.PlaceholdersLastWins | app/services/word_processor.py:84-85 | every field's key carries the value of the last row for that field |
| WordProcessor.ReplacedRuns | app/services/word_processor.py:10-17 | replacement keeps the number of runs |
| WordProcessor.RunInConcat | app/services/word_processor.py:12-15 | a run that contains the key makes the paragraph text contain it |
| WordProcessor.ReplacedRunsSpec | app/services/word_processor.py:10-17 | a paragraph whose text lacks the key is unchanged; a run is rewritten exactly when it contains the key, with every occurrence replaced |
| WordProcessor.SplitKeyKept | app/services/word_processor.py:12-17 | a key split across two runs is not replaced, although the paragraph text contains it |
| WordProcessor.Paragraph.constructor | app/services/word_processor.py:10-13 | a paragraph holds the given runs |
| WordProcessor.Paragraph.ReplaceText | app/services/word_processor.py:10-17 | the runs become `ReplacedRuns` of the old runs with `str(value)` |
| WordProcessor.Paragraph.ReplaceKeys | app/services/word_processor.py:22-24 | every text key, in order, is replaced on the paragraph |
| WordProcessor.Paragraph.Clear | app/services/word_processor.py:38 | `p.text = ""` leaves one empty run and an empty text |
| WordProcessor.ReplacedAll | app/services/word_processor.py:22-24 | replacing every key keeps the number of runs |
| WordProcessor.TableKeysIgnored | app/services/word_processor.py:19-32 | dropping every table key from the dict changes nothing |
| WordProcessor.TextKeys | app/services/word_processor.py:19-32 | the keys used for text are entries of the dict and none is a table key |
| WordProcessor.UntouchedRun | app/services/word_processor.py:15-17 | a run that holds none of the keys is never touched |
| WordProcessor.BuildTable | app/services/word_processor.py:41-52 | the table has one header cell per column label and one row per item, whose cell i is the text of the item's column value ("" for missing or None) |
| WordProcessor.Document.constructor | app/services/word_processor.py:19-32 | a document holds its body paragraphs and cell paragraphs, and no table is appended yet |
| WordProcessor.Document.ReplacePlaceholders | app/services/word_processor.py:19-32 | every paragraph of the body and of the cells gets every text key in order |
| WordProcessor.Document.ReplaceTable | app/services/word_processor.py:34-54 | True exactly when a body paragraph contains the key; then the first such paragraph is cleared, the others are unchanged, and a table is appended unless there are no rows; False changes nothing |
| WordProcessor.ReplaceIn | app/services/word_processor.py:21-24 | every paragraph of a part gets every text key in order |
| WordProcessor.WordRun | app/services/word_processor.py:75 | the longest prefix of word characters |
| WordProcessor.MatchAt | app/services/word_processor.py:75 | a match is `{{`, a non-empty run of word characters, `}}` at the start of the text |
| WordProcessor.Tokens | app/services/word_processor.py:75 | every matched name is a non-empty run of word characters |
| WordProcessor.TokensCover | app/services/word_processor.py:75 | the scan loses and invents nothing: its pieces put together are the HTML scanned |
| WordProcessor.WrapWithoutBraces | app/services/word_processor.py:75 | HTML without `{{` comes out unchanged |
| WordProcessor.WrapSingle | app/services/word_processor.py:71-75 | a placeholder is wrapped in a span naming it, with the original `{{name}}` inside |
| WordProcessor.TokensSingle | app/services/word_processor.py:75 | a lone placeholder scans as one match |
| WordProcessor.MatchSingle | app/services/word_processor.py:75 | a lone placeholder matches with its name |
| FieldNames.CjkToSpace | app/static/js/admin/modules/modal_handler.js:189 | each ideograph of `[一-龥]` becomes a space and every other character is kept |
| FieldNames.KeepNameChars | app/static/js/admin/modules/modal_handler.js:189 | only characters of `[a-z0-9\s-]` from the input remain |
| FieldNames.KeepHasWord | app/static/js/admin/modules/modal_handler.js:189 | the kept text has a non-space character exactly when the input has one that is kept |
| FieldNames.BaseNameChars | app/static/js/admin/modules/modal_handler.js:189 | a base name is made of lower-case ASCII letters, digits, '-' and '_' |
| FieldNames.BaseNameEnds | app/static/js/admin/modules/modal_handler.js:189 | a non-empty base name neither starts nor ends with '_' |
| FieldNames.LoweredWords | app/static/js/admin/modules/modal_handler.js:189 | after the first two steps, a character is kept and is not a space exactly when the label character survives |
| FieldNames.BaseNameEmpty | app/static/js/admin/modules/modal_handler.js:189 | a base name is empty exactly when no label character survives |
| ModalHandler.GeneratedName | app/static/js/admin/modules/modal_handler.js:192-194 | the fallback starts with `field_` |
| ModalHandler.GeneratedNameShape | app/static/js/admin/modules/modal_handler.js:192-194 | the fallback is made of name characters and is neither `field` nor purely numeric |
| ModalHandler.ModalNameShape | app/static/js/admin/modules/modal_handler.js:188-197 | the name is never empty, `field` or purely numeric, holds no white space, and is the base name or the fallback |
| ModalHandler.At | app/static/js/admin/modules/modal_handler.js:49-50 | `xs[i] \|\| ''`: the line when it exists, "" otherwise |
| ModalHandler.SyncedValues | app/static/js/admin/modules/modal_handler.js:48-56 | there are as many value lines as label lines |
| ModalHandler.SyncIdempotent | app/static/js/admin/modules/modal_handler.js:42-59 | a second input event with unchanged labels changes nothing |
| ModalHandler.PaddingIrrelevant | app/static/js/admin/modules/modal_handler.js:45-47 | padding the values with empty lines does not change the result |
| ModalHandler.OptionEditor.constructor | app/static/js/admin/modules/modal_handler.js:41 | the editor starts with no previous labels |
| ModalHandler.OptionEditor.OnLabelsInput | app/static/js/admin/modules/modal_handler.js:42-59 | the value area becomes the synced lines joined by newlines, with exactly one line per label, and the previous labels become the current ones |
| SheetFields.ChooseNameShape | app/static/js/admin_sheet_fields.js:104-118 | the choice among `field_<digits>`, the base name and the fallback is never empty or `field` and holds no white space |
| SheetFields.SheetNameShape | app/static/js/admin_sheet_fields.js:104-118 | the sheet page's name is never empty or `field` and is made of name characters |
| SheetFields.SpacedIdeograph | app/static/js/admin_sheet_fields.js:110 | an ideograph followed by a digit becomes a space and that digit |
| SheetFields.KeptSpacedDigit | app/static/js/admin_sheet_fields.js:110 | a space and a digit survive the character filter |
| SheetFields.TrimmedSpacedDigit | app/static/js/admin_sheet_fields.js:110 | trimming a space and a digit leaves the digit |
| SheetFields.IdeographDigitBase | app/static/js/admin_sheet_fields.js:110 | the base name of an ideograph followed by a digit is that digit |
| SheetFields.IdeographLabelNotDigits | app/static/js/admin_sheet_fields.js:106 | a label that starts with an ideograph is not purely numeric |
| SheetFields.SheetNameOfIdeographDigit | app/static/js/admin_sheet_fields.js:104-118 | on such a label the sheet page returns the purely numeric base name |
| SheetFields.ModalNameOfIdeographDigit | app/static/js/admin/modules/modal_handler.js:188-197 | on the same label the field dialog falls back to the generated name, so the two generators disagree |
| SheetFields.SyncOptionValues | app/static/js/admin_sheet_fields.js:305-312 | as many values as labels |
| SheetFields.TrimNoSpace | app/static/js/admin_sheet_fields.js:311 | a string without white space trims to itself |
| SheetFields.SyncOptionValuesFills | app/static/js/admin_sheet_fields.js:305-312 | after syncing every non-blank label has a non-blank value; a non-blank value or a blank label keeps its line |
| SheetFields.SyncOptionValuesIdempotent | app/static/js/admin_sheet_fields.js:298-315 | syncing a second time changes nothing |
| SheetFields.OptionValue | app/static/js/admin_sheet_fields.js:274 | the trimmed value line when it is not blank, the label otherwise |
| SheetFields.KeptMappedIff | app/static/js/admin_sheet_fields.js:273-276 | an element of a map-then-filter is the image of an accepted element |
| SheetFields.KeptMappedAppend | app/static/js/admin_sheet_fields.js:273-276 | map-then-filter of joined lists is that of each part in turn, positions of the second counted from its start |
| SheetFields.CombinedOptionsSnoc | app/static/js/admin_sheet_fields.js:271-276 | one more label line adds at most its own option, at the end |
| SheetFields.CombinedOptionsIff | app/static/js/admin_sheet_fields.js:271-276 | an option is combined exactly from a line with a non-blank label, paired with `OptionValue` |
| SheetFields.CombinedOptionsNonBlank | app/static/js/admin_sheet_fields.js:273-276 | a combined option has a non-blank label and a non-blank value |
| SheetFields.TrimIdempotent | app/static/js/admin_sheet_fields.js:271-274 | trimming twice is trimming once |
| SheetFields.CollectedIff | app/static/js/admin_sheet_fields.js:250-257 | a key is collected exactly when some element with that key has a non-empty text |
| SheetFields.CollectedValues | app/static/js/admin_sheet_fields.js:253-255 | a collected value is non-empty, and a list value has no line break |
| SheetFields.ValidationIff | app/static/js/admin_sheet_fields.js:250-257 | a validation key is sent exactly when some element with that key has a non-empty text |
| SheetFields.ValidationValues | app/static/js/admin_sheet_fields.js:252-255 | a sent value is never empty, and a contains/excludes value has no line break |
| SheetFields.SubstNonEmpty | app/static/js/admin_sheet_fields.js:254 | replacing newlines by commas keeps a non-empty text non-empty |
| SheetFields.SubstBack | app/static/js/admin_sheet_fields.js:217-257 | newline-to-comma on save and comma-to-newline on load restore a text without commas |
| SheetFields.ValidationRoundTrip | app/static/js/admin_sheet_fields.js:217-222 | saving a text setting and opening the dialog again shows the trimmed text, as long as it has no comma |
| SheetFields.ValidationStep | app/static/js/admin_sheet_fields.js:250-257 | one more element adds its key with its stored text when its text is non-empty |
| SheetFields.CollectValidation | app/static/js/admin_sheet_fields.js:249-257 | the `forEach` fills the dictionary exactly as `Validation` describes |
| SheetFields.SaveOutcomeSpec | app/static/js/admin_sheet_fields.js:245-294 | a request is sent only with a non-blank label and name, by PUT exactly for an existing field, never with another field's name; a new or renamed field whose name exists gets the warning; an unchanged name of an edited field is not checked |
| SheetFields.SaveField | app/static/js/admin_sheet_fields.js:245-295 | the save decides exactly `SaveOutcomeOf` |
| SheetFields.Find | app/static/js/admin_sheet_fields.js:429 | `find` returns the first field with the name, and finds one exactly when one exists |
| SheetFields.OperatorsOffered | app/static/js/admin_sheet_fields.js:427-435 | every operator offered is one the engine knows, and a numeric one is offered exactly when the first field of that name is a number or a date |
| Text.Split | app/static/js/admin/modules/modal_handler.js:43-44 | `split('\n')` gives at least one piece, and no piece holds the separator |
| Text.JoinSplit | app/static/js/admin/modules/modal_handler.js:43-57 | joining the pieces of a split with the same separator gives the text back |
| Text.SplitJoin | app/static/js/admin/modules/modal_handler.js:57 | splitting text joined from separator-free pieces gives the pieces back |
| Text.TrimSpec | app/static/js/admin_sheet_fields.js:260-261 | trimmed text neither starts nor ends with white space, occurs in the input, and is empty exactly when the input is all white space |
| Text.CollapseSpaces | app/routes/admin.py:392 | after each white-space run becomes '_', no white space is left |
| Text.ReplaceAllAbsent | app/services/word_processor.py:16 | `replace` leaves text without the key unchanged |
| Text.NatToStringValue | app/static/js/admin/modules/modal_handler.js:194 | reading back the decimal rendering of a number gives the number |

## Left out

- The DOM. A form is a map from field name to one `FieldState`. The state holds the control kind, value, options, hidden, disabled, required, the two space attributes and the validity message. Things not modelled:
  - Several elements under one name are modelled as one state, apart from a radio group.
  - The wrapper lookup: a field is always assumed to have a wrapper.
  - The required-indicator markup.
  - `reportValidity`.
  - The `required` attribute, which always mirrors the required flag.
- Timers and listeners (`setTimeout`, `setInterval`, `addEventListener`). `ConditionalLogicEngine.Init` therefore does not run the delayed first pass; a pass is a direct call to `EvaluateAllRules`.
- JavaScript `Number()` is modelled on decimal notation: optional sign, digits, an optional fraction, surrounding white space, and "" read as 0. Exponents, hexadecimal, `Infinity` and floating-point rounding are left out; such text is treated as NaN.
- `undefined` is not distinguished from `null`, except for an action's `comparison_field` and `filter_value`, which are optional.
- Engine.Action: an absent `options` list is read as empty, where the browser throws once a matching filter reaches a non-empty option value. An absent `targets` list is read as empty, where `action.targets[0]` throws. A `filter_value` that is not a string is not modelled. The rule editor of the back office writes these keys for the actions that use them (`admin_sheet_fields.js:478-486`); rules written through the rule API may omit them.
- `Engine.Interpolate`: only a message without `${` is proved to pass unchanged (`InterpolatePlain`). The text a `${name}` becomes is defined but has no separate property.
- Engine.ComparisonOutcome: the failure message is stated only for a message without `${`; with one, the text is `Interpolate` of the message, with no separate property.
- RuleGuard.RuleStore.CreateConditionalRule and FieldRoutes.FieldStore.CreateField: the 201 answer's `id` field is not part of `Response`. The contracts instead state that the new record is stored under the previous `nextId`, which is the id the answer carries.
- RuleGuard.RuleStore.UpdateConditionalRule: the answer names the rule only for a name that is a JSON string; for another truthy JSON value, the text depends on the database column's conversion and is not modelled.
- CSS selector quoting of field names in `querySelector` is not modelled; every name is looked up literally.
- Python `lower()` and JavaScript `toLowerCase()` are modelled on ASCII letters; other letters are kept as they are.
- Python `\w` in the placeholder pattern is limited to ASCII letters, digits, '_' and the ideographs U+4E00 to U+9FA5.
- `str()` of a stored value is modelled for strings, booleans, integers and `None`. Floats, and pandas' rendering of numeric cells, are left out; spreadsheet cells are modelled as their text.
- JSON values in the rule guard are null, booleans, integers, strings, lists and dicts. Python `==` is modelled structurally, with booleans equal to the integers 0 and 1 only at the top level.
- The rule and field routes model the decisions and the stored records. Left out:
  - SQLAlchemy sessions, commits and rollbacks.
  - The transaction as a whole; a refused request changes nothing in the model.
  - Exceptions other than the unknown-id case and a non-dict body.
  - The delete routes and the GET routes.
- The duplicated `create_field` of `app/routes/admin.py:510-543` is not modelled separately. It differs from `app/routes/admin/fields.py:12-57` in two ways: it takes the options as given, and it does not set the export flags. Its validation loop at `app/routes/admin.py:534-537` is `FieldRoutes.KeptRules`. The `update_field` of `app/routes/admin.py:558-601` is not modelled.
- The spreadsheet import models one row, one sheet's header and rows, the rename, the records, the rule table and the sheet-kind decision. Left out:
  - Reading the workbook with pandas, including the suffixes `read_excel` gives to repeated header names; the model takes the header as given.
  - The file-name checks at `app/routes/admin.py:336-345`.
  - The section and sheet records; the field's type, options, default value and help tip, which are copied from cells as text.
- The `fetch` loaders of the previews (`loadChapterPreview`, `loadInitialProjectPreview`) and `initializeLivePreview` are I/O.
- The preview generator receives the project, its template and its stored rows as parameters, so the database queries and `get_or_404` are not modelled. A dynamic-table cell is modelled as text.
- The clock (`Date.now()`) and `Math.random()` of the two name generators are parameters. `syncOptionsValue` is modelled with one reading of each for all its lines.
- The rest of the back-office pages (rule list, rule dialog, sortable tables, tabs) is user-interface wiring.
- Word documents:
  - mammoth's HTML conversion, and reading and saving with python-docx, are I/O; the document is given as paragraphs of runs.
  - The paragraphs of table cells are modelled as one sequence in the order the loops visit them. Merged cells, which python-docx returns more than once, are not modelled: the paragraphs must be distinct objects.
  - The table style and the cell objects are left out; `add_table` becomes a `BuiltTable` appended to the document.
  - The walk of `generate_word_document` over the template configuration (`app/services/word_processor.py:89-99`) and the dynamic table models is configuration lookup, so it is not modelled.
- `WordProcessor.ReplacedAll`: a paragraph's text after replacement is not related to replacing the keys in the whole paragraph text. The two differ when a key straddles runs; `SplitKeyKept` exhibits this.
- `Ranks.RankColumns`: only the count, the hidden flag of each rank column and the two buttons are modelled. The rendering of the dynamic table is left out.

## Behaviour the proofs make explicit

- An ISO date such as `2024-01-10` is NaN for `Number()`, so a numeric operator on a date field is always false (`Condition.DatesAreNotNumbers`). The back office nevertheless offers numeric operators for date fields (`SheetFields.OperatorsOffered`).
- The two name generators disagree on a label made of one ideograph and one digit, such as `第1`. The sheet page returns the purely numeric base name `1`; the field dialog falls back to a generated `field_<time>_<random>` (`SheetFields.SheetNameOfIdeographDigit`, `SheetFields.ModalNameOfIdeographDigit`).
- A fixed field whose name starts with `table_` is never substituted as text in Word documents, because its key starts with `{{table_` (`WordProcessor.KeysSkipped`).
- A key split across runs is not replaced, although the paragraph's text contains it (`WordProcessor.SplitKeyKept`).
- With a `filter_options` action, a pass of the rules is not idempotent: the filter can clear a value that an earlier rule has already read (`EnginePasses.FilterBreaksIdempotence`). Without one, a second pass changes nothing (`EnginePasses.PassIdempotent`).
- A fixed-form sheet that also has a `显示名称 (Label)` or `默认值` column holds that name twice after the rename, and the later column wins when rows become records. A sheet headed 字段名, 录入内容, 显示名称 (Label) takes its labels from the last column (`AdminRoutes.LaterLabelColumnWins`).
- Updating a rule or a field with an unknown id is answered with 500, not 404. The 404 that `get_or_404` raises is caught by the handler's own `except Exception`.
- The server preview reads the stored value with `dict.get`, so a stored empty value is not replaced by the default (`PreviewGenerator.RawValue`). It is shown as the mask unless the field's options give the value "" a label, which `map_dict.get` then shows instead (`PreviewGenerator.DisplayValue`, `PreviewGenerator.PlaceholderMasked`). The browser preview does use the default for an empty value (`LivePreview.LoadValue`).
- `syncOptionsValue` fills an empty value line from the name generated from the trimmed label, not from the label itself (`SheetFields.SyncOptionValues`).
