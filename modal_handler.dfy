/** The field dialog of the back office: the option editor that keeps the
    value lines in step with the label lines, and the generator of an
    internal name from a display label. */
module ModalHandler {
  import opened Text
  import opened FieldNames

  /** The fallback name; the clock reading and the random number in [0, 1000)
      are parameters. */
  function GeneratedName(timestamp: nat, random: nat): (r: string)
    ensures |r| > 6 && r[..6] == "field_"
  {
    "field_" + NatToString(timestamp) + "_" + NatToString(random)
  }

  /** A generated name is made of name characters and is neither `field`
      nor purely numeric. */
  lemma GeneratedNameShape(timestamp: nat, random: nat)
    ensures var r := GeneratedName(timestamp, random);
      (forall i :: 0 <= i < |r| ==> IsSlugChar(r[i])) && r != "field" && !AllDigits(r)
  {
    var r := GeneratedName(timestamp, random);
    var t, n := NatToString(timestamp), NatToString(random);
    assert r == "field_" + t + "_" + n;
    forall i | 0 <= i < |r| ensures IsSlugChar(r[i]) {
      if i >= 6 + |t| + 1 {
        assert r[i] == n[i - 7 - |t|];
      } else if 6 <= i < 6 + |t| {
        assert r[i] == t[i - 6];
      }
    }
    assert r[0] == 'f';
  }

  /** `generateFieldNameFromLabel`: the base name, unless it is empty,
      `field` or purely numeric. */
  function ModalFieldName(labelText: string, timestamp: nat, random: nat): string
  {
    var base := BaseName(labelText);
    if base == "" || base == "field" || AllDigits(base) then GeneratedName(timestamp, random) else base
  }

  /** The generated name is never empty, `field` or purely numeric, holds no
      white space, and is the base name whenever that one is usable. */
  lemma ModalNameShape(labelText: string, timestamp: nat, random: nat)
    ensures var r := ModalFieldName(labelText, timestamp, random);
      && r != "" && r != "field" && !AllDigits(r)
      && (forall i :: 0 <= i < |r| ==> IsSlugChar(r[i]) && !IsJsSpace(r[i]))
      && (r == BaseName(labelText) || r == GeneratedName(timestamp, random))
  {
    BaseNameChars(labelText);
    GeneratedNameShape(timestamp, random);
  }

  // ---- option lines ----

  /** `xs[i] || ''`. */
  function At(xs: seq<string>, i: nat): (r: string)
    ensures i < |xs| ==> r == xs[i]
    ensures i >= |xs| ==> r == ""
  {
    if i < |xs| then xs[i] else ""
  }

  /** The value lines after the labels changed: a line that was empty, or
      still equal to the label it was derived from, follows the new label;
      any other line is the user's own and is kept. */
  function SyncedValues(labels: seq<string>, values: seq<string>, previous: seq<string>): (r: seq<string>)
    ensures |r| == |labels|
  {
    seq(|labels|, i requires 0 <= i < |labels| =>
      if At(values, i) == "" || At(values, i) == At(previous, i) then labels[i] else At(values, i))
  }

  /** A second input event with unchanged labels changes nothing. */
  lemma {:induction false} SyncIdempotent(labels: seq<string>, values: seq<string>, previous: seq<string>)
    ensures SyncedValues(labels, SyncedValues(labels, values, previous), labels) == SyncedValues(labels, values, previous)
  {
    var once := SyncedValues(labels, values, previous);
    var twice := SyncedValues(labels, once, labels);
    forall i | 0 <= i < |labels| ensures twice[i] == once[i] {
      assert At(once, i) == once[i] && At(labels, i) == labels[i];
    }
  }

  /** Extra value lines beyond the labels are dropped, and missing ones
      behave as empty lines. */
  lemma PaddingIrrelevant(labels: seq<string>, values: seq<string>, previous: seq<string>, k: nat)
    ensures SyncedValues(labels, values + seq(k, _ => ""), previous) == SyncedValues(labels, values, previous)
  {
    var padded := values + seq(k, _ => "");
    forall i | 0 <= i < |labels| ensures At(padded, i) == At(values, i) {
      if i >= |values| && i < |padded| {
        assert padded[i] == "";
      }
    }
  }

  /** The two text areas of the option editor and the labels seen at the
      previous input event. */
  class OptionEditor {
    var labelsText: string
    var valuesText: string
    var previousLabels: seq<string>

    constructor (labels0: string, values0: string)
      ensures labelsText == labels0 && valuesText == values0 && previousLabels == []
    {
      labelsText := labels0;
      valuesText := values0;
      previousLabels := [];
    }

    /** The `input` listener of the label area: pads the value lines to the
        label count, maps each label line to its value line, writes the
        lines back and remembers the labels. */
    method OnLabelsInput()
      modifies this`valuesText, this`previousLabels
      ensures valuesText == Join(SyncedValues(Split(labelsText, '\n'), Split(old(valuesText), '\n'), old(previousLabels)), "\n")
      ensures previousLabels == Split(labelsText, '\n')
      ensures Split(valuesText, '\n') == SyncedValues(Split(labelsText, '\n'), Split(old(valuesText), '\n'), old(previousLabels))
      ensures |Split(valuesText, '\n')| == |Split(labelsText, '\n')|
    {
      var currentLabels := Split(labelsText, '\n');
      var currentValues := Split(valuesText, '\n');
      ghost var values0 := currentValues;
      ghost var k := 0;
      while |currentValues| < |currentLabels|
        invariant currentValues == values0 + seq(k, _ => "")
        decreases |currentLabels| - |currentValues|
      {
        currentValues := currentValues + [""];
        k := k + 1;
        assert values0 + seq(k, _ => "") == values0 + seq(k - 1, _ => "") + [""];
      }
      PaddingIrrelevant(currentLabels, values0, previousLabels, k);
      var newValues := SyncedValues(currentLabels, currentValues, previousLabels);
      forall i | 0 <= i < |newValues| ensures '\n' !in newValues[i] {
        assert newValues[i] == currentLabels[i] || newValues[i] == At(currentValues, i);
        assert i < |currentValues|;
        assert '\n' !in currentValues[i] by {
          if i >= |values0| {
            assert currentValues[i] == "";
          } else {
            assert currentValues[i] == values0[i];
          }
        }
      }
      valuesText := Join(newValues, "\n");
      SplitJoin(newValues, '\n');
      previousLabels := currentLabels;
    }
  }
}
