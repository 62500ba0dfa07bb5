/** The live preview of the project page: every span of the rendered document
    bound to a field (`data-placeholder-for`) shows that field's current value,
    HTML-escaped with line breaks as `<br>`, or a row of asterisks when the
    value is empty. */
module LivePreview {
  import opened Text

  /** What an empty value shows. */
  const Mask: string := "**********"

  // ---- the escape chain ----

  /** Replacing one character: every occurrence of `c` becomes `rep`. */
  function Subst(s: string, c: char, rep: string): (r: string)
    ensures c !in s ==> r == s
    ensures c !in rep ==> c !in r
    ensures forall d :: d !in s && d !in rep ==> d !in r
  {
    if s == [] then []
    else (if s[0] == c then rep else [s[0]]) + Subst(s[1..], c, rep)
  }

  /** `replace(/c/g, rep)` for one character is Subst. */
  lemma {:induction false} ReplaceIsSubst(s: string, c: char, rep: string)
    ensures ReplaceAll(s, [c], rep) == Subst(s, c, rep)
    decreases |s|
  {
    if s != [] {
      ReplaceIsSubst(s[1..], c, rep);
      if s[0] == c {
        assert [c] <= s;
        assert s[|[c]|..] == s[1..];
      } else {
        assert !([c] <= s);
      }
    }
  }

  lemma {:induction false} SubstAppend(a: string, b: string, c: char, rep: string)
    ensures Subst(a + b, c, rep) == Subst(a, c, rep) + Subst(b, c, rep)
    decreases |a|
  {
    if a == [] {
      assert a + b == b;
    } else {
      assert (a + b)[1..] == a[1..] + b;
      SubstAppend(a[1..], b, c, rep);
    }
  }

  /** The escape of `updatePlaceholder`: `&` first, then `<`, then `>`. */
  function EscapeHtml(s: string): string
  {
    ReplaceAll(ReplaceAll(ReplaceAll(s, "&", "&amp;"), "<", "&lt;"), ">", "&gt;")
  }

  /** The escaped text holds no raw `<` or `>`. */
  lemma NoRawBrackets(s: string)
    ensures '<' !in EscapeHtml(s) && '>' !in EscapeHtml(s)
  {
    ReplaceIsSubst(s, '&', "&amp;");
    ReplaceIsSubst(Subst(s, '&', "&amp;"), '<', "&lt;");
    ReplaceIsSubst(Subst(Subst(s, '&', "&amp;"), '<', "&lt;"), '>', "&gt;");
  }

  /** The HTML written into a span for a non-empty value: the escaped text
      with each newline turned into `<br>` afterwards. */
  function PreviewHtml(s: string): string
  {
    ReplaceAll(EscapeHtml(s), "\n", "<br>")
  }

  // ---- the same transformation, one character at a time ----

  function RenderChar(c: char): string
  {
    if c == '&' then "&amp;"
    else if c == '<' then "&lt;"
    else if c == '>' then "&gt;"
    else if c == '\n' then "<br>"
    else [c]
  }

  function Rendered(s: string): string
  {
    if s == [] then [] else RenderChar(s[0]) + Rendered(s[1..])
  }

  /** The four substitutions in the order written. */
  function Chain(s: string): string
  {
    Subst(Subst(Subst(Subst(s, '&', "&amp;"), '<', "&lt;"), '>', "&gt;"), '\n', "<br>")
  }

  lemma ChainAppend(a: string, b: string)
    ensures Chain(a + b) == Chain(a) + Chain(b)
  {
    SubstAppend(a, b, '&', "&amp;");
    var a1, b1 := Subst(a, '&', "&amp;"), Subst(b, '&', "&amp;");
    SubstAppend(a1, b1, '<', "&lt;");
    var a2, b2 := Subst(a1, '<', "&lt;"), Subst(b1, '<', "&lt;");
    SubstAppend(a2, b2, '>', "&gt;");
    var a3, b3 := Subst(a2, '>', "&gt;"), Subst(b2, '>', "&gt;");
    SubstAppend(a3, b3, '\n', "<br>");
  }

  lemma SubstSingle(c: char, d: char, rep: string)
    ensures Subst([c], d, rep) == if c == d then rep else [c]
  {
    assert [c][1..] == [];
  }

  lemma ChainChar(c: char)
    ensures Chain([c]) == RenderChar(c)
  {
    SubstSingle(c, '&', "&amp;");
    var s1 := Subst([c], '&', "&amp;");
    if c == '&' {
      assert '<' !in s1 && '>' !in s1 && '\n' !in s1;
    } else {
      SubstSingle(c, '<', "&lt;");
      var s2 := Subst(s1, '<', "&lt;");
      if c == '<' {
        assert '>' !in s2 && '\n' !in s2;
      } else {
        SubstSingle(c, '>', "&gt;");
        var s3 := Subst(s2, '>', "&gt;");
        if c == '>' {
          assert '\n' !in s3;
        } else {
          SubstSingle(c, '\n', "<br>");
        }
      }
    }
  }

  /** The chain of `replace` calls in `updatePlaceholder` renders each
      character on its own: `&`, `<` and `>` become entities and a newline
      becomes `<br>`, which is not escaped again because the newline step
      comes last. */
  lemma {:induction false} PreviewHtmlIsCharwise(s: string)
    ensures PreviewHtml(s) == Rendered(s)
    decreases |s|
  {
    var s1 := Subst(s, '&', "&amp;");
    var s2 := Subst(s1, '<', "&lt;");
    var s3 := Subst(s2, '>', "&gt;");
    ReplaceIsSubst(s, '&', "&amp;");
    ReplaceIsSubst(s1, '<', "&lt;");
    ReplaceIsSubst(s2, '>', "&gt;");
    ReplaceIsSubst(s3, '\n', "<br>");
    assert PreviewHtml(s) == Chain(s);
    ChainIsRendered(s);
  }

  lemma {:induction false} ChainIsRendered(s: string)
    ensures Chain(s) == Rendered(s)
    decreases |s|
  {
    if s != [] {
      assert s == [s[0]] + s[1..];
      ChainAppend([s[0]], s[1..]);
      ChainChar(s[0]);
      ChainIsRendered(s[1..]);
    }
  }

  /** Reading the preview HTML back: the three entities and `<br>` stand for
      the characters they replaced; everything else stands for itself. */
  function Decode(t: string): string
    decreases |t|
  {
    if t == [] then []
    else if "&amp;" <= t then "&" + Decode(t[5..])
    else if "&lt;" <= t then "<" + Decode(t[4..])
    else if "&gt;" <= t then ">" + Decode(t[4..])
    else if "<br>" <= t then "\n" + Decode(t[4..])
    else [t[0]] + Decode(t[1..])
  }

  lemma DecodeStep(c: char, rest: string)
    ensures Decode(RenderChar(c) + rest) == [c] + Decode(rest)
  {
    var t := RenderChar(c) + rest;
    if c == '&' {
      assert t[..5] == "&amp;" && t[5..] == rest;
    } else if c == '<' {
      assert t[..4] == "&lt;" && t[1] == 'l' && t[4..] == rest;
    } else if c == '>' {
      assert t[..4] == "&gt;" && t[1] == 'g' && t[4..] == rest;
    } else if c == '\n' {
      assert t[..4] == "<br>" && t[0] == '<' && t[4..] == rest;
    } else {
      assert t[0] == c && t[1..] == rest;
    }
  }

  /** Nothing of the value is lost: the preview HTML decodes back to the
      text typed, newlines included. */
  lemma {:induction false} PreviewRoundTrip(s: string)
    ensures Decode(PreviewHtml(s)) == s
    decreases |s|
  {
    PreviewHtmlIsCharwise(s);
    RenderedRoundTrip(s);
  }

  lemma {:induction false} RenderedRoundTrip(s: string)
    ensures Decode(Rendered(s)) == s
    decreases |s|
  {
    if s != [] {
      DecodeStep(s[0], Rendered(s[1..]));
      RenderedRoundTrip(s[1..]);
    }
  }

  lemma {:induction false} RenderedBreaks(s: string)
    ensures forall i :: 0 <= i < |Rendered(s)| && Rendered(s)[i] == '<' ==> OccursAt(Rendered(s), "<br>", i)
    decreases |s|
  {
    if s != [] {
      var head, tail := RenderChar(s[0]), Rendered(s[1..]);
      RenderedBreaks(s[1..]);
      forall i | 0 <= i < |head + tail| && (head + tail)[i] == '<'
        ensures OccursAt(head + tail, "<br>", i)
      {
        if i < |head| {
          assert head == "<br>" && i == 0;
          assert (head + tail)[..4] == head;
        } else {
          assert tail[i - |head|] == '<';
          assert OccursAt(tail, "<br>", i - |head|);
          assert (head + tail)[i..i + 4] == tail[i - |head|..i - |head| + 4];
        }
      }
    }
  }

  /** Every `<` in the preview HTML opens an inserted `<br>`: the value
      cannot inject markup. */
  lemma OnlyBreaksAreTags(s: string)
    ensures forall i :: 0 <= i < |PreviewHtml(s)| && PreviewHtml(s)[i] == '<' ==> OccursAt(PreviewHtml(s), "<br>", i)
  {
    PreviewHtmlIsCharwise(s);
    RenderedBreaks(s);
  }

  /** What a bound span shows for a value (`if (value)`: the empty string is
      the only falsy string). */
  function Shown(value: string): string
  {
    if value != "" then PreviewHtml(value) else Mask
  }

  /** An empty value shows exactly the mask; any other value shows HTML that
      decodes back to it. */
  lemma ShownSpec(value: string)
    ensures value == "" ==> Shown(value) == Mask
    ensures value != "" ==> Decode(Shown(value)) == value
  {
    if value != "" {
      PreviewRoundTrip(value);
    }
  }

  // ---- the values that reach the preview ----

  /** The kinds of input `handleLiveUpdate` distinguishes. */
  datatype InputKind = CheckboxInput | RadioInput | OtherInput

  /** The element an input or change event came from. */
  datatype EventTarget = EventTarget(name: string, kind: InputKind, value: string, checked: bool)

  /** A radio button of the form. */
  datatype Radio = Radio(name: string, value: string, checked: bool)

  /** `querySelector('[name=…]:checked')`: the first checked radio with that
      name. */
  function CheckedRadio(radios: seq<Radio>, name: string): (r: Option<string>)
    ensures r.Some? <==> exists i :: 0 <= i < |radios| && radios[i].name == name && radios[i].checked
    ensures r.Some? ==> exists i :: 0 <= i < |radios| && radios[i] == Radio(name, r.value, true)
  {
    if radios == [] then None
    else if radios[0].name == name && radios[0].checked then Some(radios[0].value)
    else
      var r := CheckedRadio(radios[1..], name);
      assert forall i :: 0 <= i < |radios| - 1 ==> radios[1..][i] == radios[i + 1];
      r
  }

  /** `handleLiveUpdate`: a checkbox projects 是/否, a radio the value of the
      checked button of its group or "" when none is checked, any other
      input its value. */
  function LiveValue(target: EventTarget, radios: seq<Radio>): (v: string)
    ensures target.kind == CheckboxInput ==> (v == "是" <==> target.checked) && (v == "否" <==> !target.checked)
    ensures target.kind == RadioInput && CheckedRadio(radios, target.name) == None ==> v == ""
    ensures target.kind == RadioInput && v != "" ==> exists i :: 0 <= i < |radios| && radios[i] == Radio(target.name, v, true)
    ensures target.kind == OtherInput ==> v == target.value
  {
    match target.kind
    case CheckboxInput => if target.checked then "是" else "否"
    case RadioInput =>
      (match CheckedRadio(radios, target.name)
       case Some(x) => x
       case None => "")
    case OtherInput => target.value
  }

  /** A field of the sheet configuration as the preview reads it. */
  datatype FieldInfo = FieldInfo(name: string, defaultValue: string)

  /** `updatePreviewOnLoad`: the saved value when present and non-empty, else
      the field's default (`null` read as ""). */
  function LoadValue(data: Option<map<string, string>>, field: FieldInfo): (v: string)
    ensures data.Some? && field.name in data.value && data.value[field.name] != "" ==> v == data.value[field.name]
    ensures !(data.Some? && field.name in data.value && data.value[field.name] != "") ==> v == field.defaultValue
  {
    if data.Some? && field.name in data.value && data.value[field.name] != "" then data.value[field.name]
    else field.defaultValue
  }

  /** A span of the rendered document bound to a field. */
  datatype Span = Span(boundTo: string, html: string)

  /** Every span bound to `name` shows `value`; the others keep their HTML. */
  function Bound(spans: seq<Span>, name: string, value: string): (r: seq<Span>)
    ensures |r| == |spans|
    ensures forall i :: 0 <= i < |r| ==> r[i].boundTo == spans[i].boundTo
    ensures forall i :: 0 <= i < |r| && spans[i].boundTo == name ==> r[i].html == Shown(value)
    ensures forall i :: 0 <= i < |r| && spans[i].boundTo != name ==> r[i] == spans[i]
  {
    seq(|spans|, i requires 0 <= i < |spans| =>
      if spans[i].boundTo == name then spans[i].(html := Shown(value)) else spans[i])
  }

  /** When no span is bound to the name, nothing is written. */
  lemma UnboundWritesNothing(spans: seq<Span>, name: string, value: string)
    requires forall i :: 0 <= i < |spans| ==> spans[i].boundTo != name
    ensures Bound(spans, name, value) == spans
  {
  }

  /** The spans after the load pass over the first fields of the list. */
  function AfterLoad(spans: seq<Span>, data: Option<map<string, string>>, fields: seq<FieldInfo>): (r: seq<Span>)
    ensures |r| == |spans|
    ensures forall i :: 0 <= i < |r| ==> r[i].boundTo == spans[i].boundTo
  {
    if fields == [] then spans
    else
      var last := fields[|fields| - 1];
      Bound(AfterLoad(spans, data, fields[..|fields| - 1]), last.name, LoadValue(data, last))
  }

  /** After loading, a span bound to no field of the list is untouched. */
  lemma {:induction false} AfterLoadUnbound(spans: seq<Span>, data: Option<map<string, string>>, fields: seq<FieldInfo>, i: int)
    requires 0 <= i < |spans|
    requires forall k :: 0 <= k < |fields| ==> fields[k].name != spans[i].boundTo
    ensures AfterLoad(spans, data, fields)[i] == spans[i]
    decreases |fields|
  {
    if fields != [] {
      var init := fields[..|fields| - 1];
      assert forall k :: 0 <= k < |init| ==> init[k] == fields[k];
      AfterLoadUnbound(spans, data, init, i);
    }
  }

  /** After loading, a span bound to a field shows that field's load value;
      when several fields share the name, the last one wins. */
  lemma {:induction false} AfterLoadBound(spans: seq<Span>, data: Option<map<string, string>>, fields: seq<FieldInfo>, i: int, k: int)
    requires 0 <= i < |spans| && 0 <= k < |fields|
    requires fields[k].name == spans[i].boundTo
    requires forall m :: k < m < |fields| ==> fields[m].name != spans[i].boundTo
    ensures AfterLoad(spans, data, fields)[i].html == Shown(LoadValue(data, fields[k]))
    decreases |fields|
  {
    var init := fields[..|fields| - 1];
    if k < |fields| - 1 {
      assert forall m :: 0 <= m < |init| ==> init[m] == fields[m];
      AfterLoadBound(spans, data, init, i, k);
    }
  }

  /** The preview pane: the spans of the document that carry a
      `data-placeholder-for` attribute, in document order. A page without a
      preview pane has no spans. */
  class PreviewPane {
    var spans: seq<Span>

    constructor (spans0: seq<Span>)
      ensures spans == spans0
    {
      spans := spans0;
    }

    /** `updatePlaceholder`: writes the shown text into every span bound to
        the field. */
    method UpdatePlaceholder(fieldName: string, value: string)
      modifies this
      ensures spans == Bound(old(spans), fieldName, value)
    {
      var shown := if value != "" then PreviewHtml(value) else Mask;
      var i := 0;
      while i < |spans|
        invariant 0 <= i <= |spans| && |spans| == |old(spans)|
        invariant forall k :: i <= k < |spans| ==> spans[k] == old(spans)[k]
        invariant forall k :: 0 <= k < i ==> spans[k] == Bound(old(spans), fieldName, value)[k]
      {
        if spans[i].boundTo == fieldName {
          spans := spans[i := spans[i].(html := shown)];
        }
        i := i + 1;
      }
    }

    /** `updatePreviewOnLoad`: without a field list nothing happens; otherwise
        every field of the list is written in order. */
    method UpdatePreviewOnLoad(data: Option<map<string, string>>, config: Option<seq<FieldInfo>>)
      modifies this
      ensures config.None? ==> spans == old(spans)
      ensures config.Some? ==> spans == AfterLoad(old(spans), data, config.value)
    {
      if config.None? {
        return;
      }
      var fields := config.value;
      var j := 0;
      while j < |fields|
        invariant 0 <= j <= |fields|
        invariant spans == AfterLoad(old(spans), data, fields[..j])
      {
        UpdatePlaceholder(fields[j].name, LoadValue(data, fields[j]));
        assert fields[..j + 1][..j] == fields[..j];
        j := j + 1;
      }
      assert fields[..|fields|] == fields;
    }

    /** `handleLiveUpdate`: the projected value of the input goes to the
        spans bound to its name. */
    method HandleLiveUpdate(target: EventTarget, radios: seq<Radio>)
      modifies this
      ensures spans == Bound(old(spans), target.name, LiveValue(target, radios))
    {
      var value := target.value;
      if target.kind == CheckboxInput {
        value := if target.checked then "是" else "否";
      } else if target.kind == RadioInput {
        var checkedRadio := CheckedRadio(radios, target.name);
        value := if checkedRadio.Some? then checkedRadio.value else "";
      }
      UpdatePlaceholder(target.name, value);
    }
  }
}
