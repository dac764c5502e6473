/**
 * The two composites, `Panel` and `FormField`: their `render()` builds and returns a
 * new element tree from their own state, which the renderer then renders in turn.
 * Each tree is proved smaller (by `Size`) than the composite that built it.
 */
module Composites {
  import opened Wrappers
  import opened Tree
  import opened Helpers
  import opened Selector
  import opened ElementOps
  import opened Catalog

  lemma {:induction false} PropSize(es: seq<(string, Value)>, name: string)
    ensures Lookup(es, name).Some? ==> Size(Lookup(es, name).value) < SizeAssoc(es)
  {
    if es != [] && es[0].0 != name {
      PropSize(es[1..], name);
    }
  }

  lemma SizeCons(x: Value, xs: seq<Value>)
    ensures SizeSeq([x] + xs) == Size(x) + SizeSeq(xs)
  {
    assert ([x] + xs)[1..] == xs;
  }

  /** An element built by `h`, or any non-void factory, weighs at most its arguments plus four. */
  lemma HSize(tag: string, args: seq<Value>)
    ensures Size(Obj(H(tag, args))) <= 4 + SizeSeq(args)
  {
    var n := H(tag, args);
    assert SizeAssoc(n.attrs) == 1 && SizeAssoc(n.props) == 1;
    assert NodeSize(n) == 1 + SizeSeq(n.children) + 2;
  }

  /**
   * `Panel::render()`: `div(".panel $class", div('.panel-body', $body))`. The class is
   * interpolated into the selector as PHP prints it; an object class throws.
   */
  function PanelView(n: Node): (r: Result<Value, Error>)
    requires n.kind.Panel?
    ensures r.Failure? <==> n.cls.Obj? || n.cls.Other?
    ensures r.Failure? ==> r.error == Interpolate(n.cls).error
    ensures r.Success? ==> r.value.Obj? && r.value.node.kind == Html("div", false)
    ensures r.Success? ==> r.value.node.cls == Str(Strip("panel " + Interpolate(n.cls).value).0)
    ensures r.Success? ==> r.value.node.children == [PanelBody(n)]
    ensures r.Success? ==> (r.value.node.id ==
      Some(match Strip("panel " + Interpolate(n.cls).value).1 case Some(x) => x case None => ""))
    ensures r.Success? ==> r.value.node.attrs == [] && r.value.node.props == []
    ensures r.Success? ==> Size(r.value) < Size(Obj(n))
  {
    match Interpolate(n.cls)
    case Failure(e) => Failure(e)
    case Success(c) =>
      var args := [Str(".panel " + c), PanelBody(n)];
      assert args[0].s[1..] == "panel " + c;
      assert args[1..] == [PanelBody(n)];
      PanelSize(n, args[0].s, args[1]);
      Success(Obj(H("div", args)))
  }

  /**
   * The inner `div('.panel-body', $body)`, with its selector already applied
   * (`PanelBodyIsSelectorDiv` proves the two equal).
   */
  function PanelBody(n: Node): (r: Value)
    ensures r.Obj? && r.node.kind == Html("div", false)
    ensures Size(r) <= 6 + Size(Prop(n, "body"))
  {
    var d := Node(Html("div", false), Some(""), Str("panel-body"), [Prop(n, "body")], [], []);
    SizeCons(Prop(n, "body"), []);
    assert [Prop(n, "body")] + [] == [Prop(n, "body")];
    assert SizeSeq(d.children) == Size(Prop(n, "body")) + 1;
    assert NodeSize(d) == 1 + SizeSeq(d.children) + 1 + 1;
    Obj(d)
  }

  /** The inner div is what `div('.panel-body', $body)` builds. */
  lemma PanelBodyIsSelectorDiv(n: Node)
    ensures PanelBody(n) == Obj(H("div", [Str(".panel-body"), Prop(n, "body")]))
  {
    ClassOnlySelector(Str(".panel-body"), [Prop(n, "body")]);
  }

  lemma PanelSize(n: Node, sel: string, b: Value)
    requires n.kind.Panel? && Size(b) <= 6 + Size(Prop(n, "body"))
    ensures Size(Obj(H("div", [Str(sel), b]))) < Size(Obj(n))
  {
    PairSize("div", Str(sel), b);
    PropBound(n, "body");
    ObjSize(n);
    assert Size(Str(sel)) == 1;
  }

  /** An element built from two arguments weighs at most the two plus six. */
  lemma PairSize(tag: string, x: Value, y: Value)
    ensures Size(Obj(H(tag, [x, y]))) <= 6 + Size(x) + Size(y)
  {
    HSize(tag, [x, y]);
    SizeCons(x, [y]);
    SizeCons(y, []);
  }

  /** An element built from one argument weighs at most it plus five. */
  lemma SingleSize(tag: string, x: Value)
    ensures Size(Obj(H(tag, [x]))) <= 5 + Size(x)
  {
    HSize(tag, [x]);
    SizeCons(x, []);
  }

  lemma PropBound(n: Node, name: string)
    ensures Size(Prop(n, name)) <= SizeAssoc(n.props)
  {
    PropSize(n.props, name);
  }

  /** The `type` attribute of the form control, read as `at($field->attrs, 'type')` reads it. */
  function FieldType(field: Value): (r: Value)
    ensures !(field.Obj? && field.node.kind.Html?) ==> r == Null
    ensures r != Null ==> Lookup(field.node.attrs, "type") == Some(r)
    ensures field.Obj? && field.node.kind.Html? && Lookup(field.node.attrs, "type").Some? ==>
      r == Lookup(field.node.attrs, "type").value
  {
    if field.Obj? && field.node.kind.Html? then At(Some(field.node.attrs), "type", Null) else Null
  }

  /** `$type == 'checkbox'` under PHP 8's loose comparison. */
  predicate IsCheckbox(t: Value)
  {
    t == Str("checkbox") || t == Bool(true)
  }

  /**
   * The wrapper's selector, `classList('form-group', when($icon, 'has-feedback'), $class)`:
   * a dot and `form-group`, then ` has-feedback` when an icon is set, then a space and
   * the own class as text when the class is set and not '' (so `false` leaves a
   * trailing space). An object class throws.
   */
  function WrapperClass(n: Node): (r: Result<string, Error>)
    ensures r.Failure? <==> n.cls.Obj? || n.cls.Other?
    ensures r.Success? ==>
      r.value == "." + "form-group" + (if Present(Prop(n, "icon")) then " " + "has-feedback" else "") +
        (if Present(n.cls) then " " + Interpolate(n.cls).value else "")
  {
    var w := When(Prop(n, "icon"), Str("has-feedback"), Null);
    assert w != Null <==> Present(Prop(n, "icon"));
    ClassListThree("form-group", w, n.cls);
    ClassList([Str("form-group"), w, n.cls])
  }

  /** `classList($g, $w, $c)`: a dot, then the enumeration of the three. */
  lemma ClassListThree(g: string, w: Value, c: Value)
    requires |g| >= 2 && (w == Null || (w.Str? && w.s != ""))
    ensures ClassList([Str(g), w, c]).Failure? <==> c.Obj? || c.Other?
    ensures ClassList([Str(g), w, c]).Success? ==>
      ClassList([Str(g), w, c]).value == "." + g + (if w != Null then " " + w.s else "") +
        (if Present(c) then " " + Interpolate(c).value else "")
  {
    var args := [Str(g), w, c];
    EnumThree(g, w, c);
    if !(c.Obj? || c.Other?) {
      var ws := if w != Null then " " + w.s else "";
      var cs := if Present(c) then " " + Interpolate(c).value else "";
      var l := Enum(" ", args).value;
      assert l == g + ws + cs;
      assert |l| >= 2;
      ClassListOf(args, l);
      assert "." + l == "." + g + ws + cs;
    }
  }

  /** A successful enumeration of at least two characters is always truthy, so `classList` dots it. */
  lemma ClassListOf(args: seq<Value>, l: string)
    requires Enum(" ", args) == Success(l) && |l| >= 2
    ensures ClassList(args) == Success("." + l)
  {
  }

  /** `enum(' ', $g, $w, $c)` for a non-empty first string and an optional non-empty second one. */
  lemma EnumThree(g: string, w: Value, c: Value)
    requires g != "" && (w == Null || (w.Str? && w.s != ""))
    ensures Enum(" ", [Str(g), w, c]).Failure? <==> c.Obj? || c.Other?
    ensures Enum(" ", [Str(g), w, c]).Success? ==>
      Enum(" ", [Str(g), w, c]).value == g + (if w != Null then " " + w.s else "") +
        (if Present(c) then " " + Interpolate(c).value else "")
  {
    if !Present(c) {
      EnumThreeDropped(g, w, c);
    } else if c.Obj? || c.Other? {
      EnumTwo(g, w);
      assert [Str(g), w] + [c] == [Str(g), w, c];
      EnumSnocFails(" ", [Str(g), w], c);
    } else {
      EnumThreeKept(g, w, c);
    }
  }

  lemma EnumThreeDropped(g: string, w: Value, c: Value)
    requires g != "" && (w == Null || (w.Str? && w.s != "")) && !Present(c)
    ensures Enum(" ", [Str(g), w, c]) == Success(g + (if w != Null then " " + w.s else ""))
  {
    EnumTwo(g, w);
    assert [Str(g), w] + [c] == [Str(g), w, c];
    EnumSnocDropped(" ", [Str(g), w], c);
  }

  lemma EnumThreeKept(g: string, w: Value, c: Value)
    requires g != "" && (w == Null || (w.Str? && w.s != "")) && Present(c) && Interpolate(c).Success?
    ensures Enum(" ", [Str(g), w, c]) == Success(g + (if w != Null then " " + w.s else "") + (" " + Interpolate(c).value))
  {
    var e := g + (if w != Null then " " + w.s else "");
    var t := Interpolate(c).value;
    EnumTwo(g, w);
    EnumThirdKept(g, w, c);
    assert e + " " + t == e + (" " + t);
  }

  lemma EnumThirdKept(g: string, w: Value, c: Value)
    requires Enum(" ", [Str(g), w]).Success? && Kept([Str(g), w]) != []
    requires Present(c) && Interpolate(c).Success?
    ensures Enum(" ", [Str(g), w, c]) == Success(Enum(" ", [Str(g), w]).value + " " + Interpolate(c).value)
  {
    assert [Str(g), w] + [c] == [Str(g), w, c];
    EnumSnocKept(" ", [Str(g), w], c);
  }

  /** `enum(' ', $g, $w)` for a non-empty string and an optional non-empty second one. */
  lemma EnumTwo(g: string, w: Value)
    requires g != "" && (w == Null || (w.Str? && w.s != ""))
    ensures Enum(" ", [Str(g), w]) == Success(g + (if w != Null then " " + w.s else ""))
    ensures Kept([Str(g), w]) != []
  {
    var first := [Str(g), w];
    EnumPair(" ", Str(g), w);
    assert Present(Str(g)) && Interpolate(Str(g)).value == g;
    if w != Null {
      assert g + " " + w.s == g + (" " + w.s);
    } else {
      assert g + "" == g;
    }
    assert first[0] == Str(g) && Present(first[0]);
    assert Kept(first) == [Str(g)] + Kept(first[1..]);
  }

  /**
   * The third part of the wrapper: '' when no icon is set, otherwise
   * `span(".form-control-feedback $icon")`; an object icon cannot be interpolated and throws.
   */
  function Feedback(icon: Value): (r: Result<Value, Error>)
    ensures r.Failure? <==> icon.Obj? || icon.Other?
    ensures icon == Null ==> r == Success(Str(""))
    ensures r.Success? && icon != Null ==>
      r.value == Obj(H("span", [Str(".form-control-feedback " + Interpolate(icon).value)]))
    ensures r.Success? ==> Size(r.value) <= 6
  {
    if icon == Null then Success(Str(""))
    else
      match Interpolate(icon)
      case Failure(e) => Failure(e)
      case Success(t) =>
        var args := [Str(".form-control-feedback " + t)];
        HSize("span", args);
        SizeCons(args[0], []);
        Success(Obj(H("span", args)))
  }

  /**
   * The label and the children `FormField::render` leaves: for a checkbox with a
   * label, a label holding the control and the label text, and no children; otherwise
   * the optional label and the control with `form-control` added to its class.
   */
  function LabelAndChildren(n: Node): (r: Result<(Value, seq<Value>), Error>)
    requires n.kind.FormField? && |n.children| == 1
    ensures Prop(n, "label") != Null && IsCheckbox(FieldType(n.children[0])) ==>
      (r.Failure? <==> Interpolate(Prop(n, "label")).Failure?)
    ensures !(Prop(n, "label") != Null && IsCheckbox(FieldType(n.children[0]))) ==>
      (r.Failure? <==> !n.children[0].Obj? || AddClass(n.children[0].node, "form-control").Failure?)
    ensures r.Success? ==> Size(r.value.0) + Size(List(r.value.1)) <= 9 + Size(n.children[0]) + Size(Prop(n, "label"))
  {
    var field := n.children[0];
    var caption := Prop(n, "label");
    if caption != Null && IsCheckbox(FieldType(field)) then
      match Interpolate(caption)
      case Failure(e) => Failure(e)
      case Success(t) => Success(CheckboxLabel(field, t))
    else if !field.Obj? then Failure(NotAnObject(TypeName(field)))
    else ControlLabel(caption, field.node)
  }

  /** `label($field, " $label")`, and no children left. */
  function CheckboxLabel(field: Value, t: string): (r: (Value, seq<Value>))
    ensures r.1 == []
    ensures Size(r.0) + Size(List(r.1)) <= 9 + Size(field)
  {
    PairSize("label", field, Str(" " + t));
    (Obj(H("label", [field, Str(" " + t)])), [])
  }

  /**
   * `when($label, label($label))`, and the control, with `form-control` added, as the
   * only child; adding the class throws when the control's class is an object.
   */
  function ControlLabel(caption: Value, f: Node): (r: Result<(Value, seq<Value>), Error>)
    ensures r.Failure? <==> AddClass(f, "form-control").Failure?
    ensures r.Failure? ==> r.error == AddClass(f, "form-control").error
    ensures r.Success? ==> r.value.0 == When(caption, Obj(H("label", [caption])), Null)
    ensures r.Success? ==> r.value.1 == [Obj(AddClass(f, "form-control").value)]
    ensures r.Success? ==> Size(r.value.0) + Size(List(r.value.1)) <= 7 + Size(caption) + Size(Obj(f))
  {
    SingleSize("label", caption);
    var l := When(caption, Obj(H("label", [caption])), Null);
    assert Size(l) <= 5 + Size(caption);
    match AddClass(f, "form-control")
    case Failure(e) => Failure(e)
    case Success(f') =>
      ClassFreeSize(f, f');
      Success((l, [Obj(f')]))
  }

  /** Two elements that differ only in their class weigh the same, alone or as a one-item list. */
  lemma ClassFreeSize(f: Node, f': Node)
    requires f'.(cls := f.cls) == f
    ensures Size(List([Obj(f')])) == 2 + Size(Obj(f))
  {
    assert NodeSize(f') == NodeSize(f);
    SizeCons(Obj(f'), []);
    assert [Obj(f')] == [Obj(f')] + [];
  }

  /**
   * The component's state once `FormField::render()` has run: the children are cleared
   * (checkbox) or the control gains `form-control`, before the wrapper is built, so
   * the change stays even when building the wrapper throws. Nothing changes when the
   * arity check, the label text or the control fails first.
   */
  function FormFieldAfter(n: Node): (r: Node)
    requires n.kind.FormField?
    ensures r.(children := n.children) == n
    ensures |n.children| != 1 ==> r == n
  {
    if |n.children| != 1 then n
    else
      match LabelAndChildren(n)
      case Failure(_) => n
      case Success(lk) => n.(children := lk.1)
  }

  /**
   * `FormField::render()`: the wrapper div it returns, and the component's state
   * afterwards (render changes it). Anything but exactly one child throws; then the
   * label and the control are dealt with, then the wrapper's class list and the
   * feedback span are built, in the order PHP evaluates the arguments of `div`.
   */
  function FormFieldView(n: Node): (r: Result<(Value, Node), Error>)
    requires n.kind.FormField?
    ensures |n.children| != 1 ==> r == Failure(FormFieldArity)
    ensures |n.children| == 1 && LabelAndChildren(n).Failure? ==> r == Failure(LabelAndChildren(n).error)
    ensures |n.children| == 1 && LabelAndChildren(n).Success? && WrapperClass(n).Failure? ==>
      r == Failure(WrapperClass(n).error)
    ensures (|n.children| == 1 && LabelAndChildren(n).Success? && WrapperClass(n).Success? &&
             Feedback(Prop(n, "icon")).Failure?) ==> r == Failure(Feedback(Prop(n, "icon")).error)
    ensures r.Success? ==> r.value.0.Obj? && r.value.0.node.kind == Html("div", false)
    ensures r.Success? ==> r.value.1 == FormFieldAfter(n)
    ensures r.Success? ==> r.value.0.node.cls == Str(Strip(WrapperClass(n).value[1..]).0)
    ensures r.Success? ==> (r.value.0.node.id ==
      Some(match Strip(WrapperClass(n).value[1..]).1 case Some(x) => x case None => ""))
    ensures r.Success? ==> r.value.0.node.attrs == [] && r.value.0.node.props == []
    ensures r.Success? ==> (r.value.0.node.children ==
      [LabelAndChildren(n).value.0, List(r.value.1.children), Feedback(Prop(n, "icon")).value])
    ensures r.Success? ==> Size(r.value.0) < Size(Obj(n))
  {
    if |n.children| != 1 then Failure(FormFieldArity)
    else
      match LabelAndChildren(n)
      case Failure(e) => Failure(e)
      case Success(lk) =>
        match WrapperClass(n)
        case Failure(e) => Failure(e)
        case Success(w) =>
          match Feedback(Prop(n, "icon"))
          case Failure(e) => Failure(e)
          case Success(fb) =>
            FormFieldWeight(n);
            Success((Wrapper(w, lk.0, List(lk.1), fb), n.(children := lk.1)))
  }

  /** `div($class, $label, $children, $feedback)`, the wrapper `FormField::render` returns. */
  function Wrapper(w: string, a: Value, b: Value, c: Value): (r: Value)
    requires w != "" && w[0] == '.'
    ensures r.Obj? && r.node.kind == Html("div", false)
    ensures r.node.cls == Str(Strip(w[1..]).0)
    ensures r.node.id == Some(match Strip(w[1..]).1 case Some(x) => x case None => "")
    ensures r.node.attrs == [] && r.node.props == []
    ensures r.node.children == [a, b, c]
    ensures Size(r) <= 6 + Size(a) + Size(b) + Size(c)
  {
    var args := [Str(w), a, b, c];
    QuadSize("div", args[0], a, b, c);
    assert args[1..] == [a, b, c];
    Obj(H("div", args))
  }

  lemma FormFieldWeight(n: Node)
    requires n.kind.FormField? && |n.children| == 1
    ensures Size(Obj(n)) >= 66 + Size(n.children[0]) + Size(Prop(n, "label"))
  {
    PropBound(n, "label");
    SizeCons(n.children[0], []);
    assert n.children == [n.children[0]] + [];
  }

  /** An element built from four arguments, the first a string, weighs at most the other three plus six. */
  lemma QuadSize(tag: string, a: Value, b: Value, c: Value, d: Value)
    requires a.Str?
    ensures Size(Obj(H(tag, [a, b, c, d]))) <= 6 + Size(b) + Size(c) + Size(d)
  {
    HSize(tag, [a, b, c, d]);
    QuadSeqSize(a, b, c, d);
  }

  lemma QuadSeqSize(a: Value, b: Value, c: Value, d: Value)
    ensures SizeSeq([a, b, c, d]) == 1 + Size(a) + Size(b) + Size(c) + Size(d)
  {
    SizeCons(a, [b, c, d]);
    SizeCons(b, [c, d]);
    SizeCons(c, [d]);
    SizeCons(d, []);
    assert [a, b, c, d] == [a] + [b, c, d];
    assert [b, c, d] == [b] + [c, d];
    assert [c, d] == [c] + [d];
    assert [d] == [d] + [];
  }

  /**
   * A checkbox with a label: the label wraps the control followed by a space and the
   * label text, the component is left without children, and the wrapper holds the
   * label, the (empty) children and the feedback, in that order.
   */
  lemma FormFieldCheckbox(n: Node)
    requires n.kind.FormField? && |n.children| == 1
    requires Prop(n, "label") != Null && IsCheckbox(FieldType(n.children[0]))
    requires Interpolate(Prop(n, "label")).Success? && WrapperClass(n).Success? && Feedback(Prop(n, "icon")).Success?
    ensures FormFieldView(n).Success?
    ensures FormFieldView(n).value.1.children == []
    ensures FormFieldView(n).value.0.node.children ==
      [Obj(H("label", [n.children[0], Str(" " + Interpolate(Prop(n, "label")).value)])),
       List([]),
       Feedback(Prop(n, "icon")).value]
  {
  }

  /**
   * Any other control: the label is there only when a label text is set, the control
   * gains the `form-control` class and stays the only child.
   */
  lemma FormFieldControl(n: Node)
    requires n.kind.FormField? && |n.children| == 1 && n.children[0].Obj?
    requires !(Prop(n, "label") != Null && IsCheckbox(FieldType(n.children[0])))
    requires AddClass(n.children[0].node, "form-control").Success?
    requires WrapperClass(n).Success? && Feedback(Prop(n, "icon")).Success?
    ensures FormFieldView(n).Success?
    ensures FormFieldView(n).value.1.children == [Obj(AddClass(n.children[0].node, "form-control").value)]
    ensures FormFieldView(n).value.0.node.children ==
      [if Present(Prop(n, "label")) then Obj(H("label", [Prop(n, "label")])) else Null,
       List([Obj(AddClass(n.children[0].node, "form-control").value)]),
       Feedback(Prop(n, "icon")).value]
  {
  }

  /**
   * A `#` in the component's own class reaches the wrapper's selector: `class('#z')`
   * without an icon gives the wrapper div the id `z` and the class `form-group`.
   */
  lemma FormFieldHashClass(n: Node)
    requires n.kind.FormField? && FormFieldView(n).Success?
    requires n.cls == Str("#z") && !Present(Prop(n, "icon"))
    ensures FormFieldView(n).value.0.node.id == Some("z")
    ensures FormFieldView(n).value.0.node.cls == Str("form-group")
  {
    HashWrapperClass(n);
  }

  lemma HashWrapperClass(n: Node)
    requires n.kind.FormField? && n.cls == Str("#z") && !Present(Prop(n, "icon"))
    ensures WrapperClass(n).Success? && Strip(WrapperClass(n).value[1..]) == ("form-group", Some("z"))
  {
    var w := WrapperClass(n).value;
    assert Present(n.cls) && Interpolate(n.cls).value == "#z";
    assert w == "." + "form-group" + "" + " " + "#z";
    StripFormGroupHash();
  }

  lemma StripFormGroupHash()
    ensures Strip(("." + "form-group" + "" + " " + "#z")[1..]) == ("form-group", Some("z"))
  {
    assert ("." + "form-group" + "" + " " + "#z")[1..] == "form-group" + " #z";
    StripMatchUnspaced(" ", "z", []);
    assert " " + "#" + "z" + [] == " #z";
    StripPlainPrefix("form-group", " #z");
    assert "form-group" + "" == "form-group";
  }

  /**
   * A checkbox whose label is an object: the label text cannot be built, so render
   * throws and the component keeps its control.
   */
  lemma FormFieldCheckboxObjectLabel(n: Node)
    requires n.kind.FormField? && |n.children| == 1 && IsCheckbox(FieldType(n.children[0]))
    requires Prop(n, "label").Obj?
    ensures FormFieldView(n) == Failure(Interpolate(Prop(n, "label")).error)
    ensures FormFieldAfter(n) == n
  {
  }

  /**
   * The control gains `form-control` before the wrapper is built: when the icon then
   * cannot be turned into text, render fails but the component keeps the change.
   */
  lemma FormFieldFeedbackError(n: Node)
    requires n.kind.FormField? && |n.children| == 1 && n.children[0].Obj?
    requires !(Prop(n, "label") != Null && IsCheckbox(FieldType(n.children[0])))
    requires AddClass(n.children[0].node, "form-control").Success?
    requires WrapperClass(n).Success? && Feedback(Prop(n, "icon")).Failure?
    ensures FormFieldView(n) == Failure(Feedback(Prop(n, "icon")).error)
    ensures FormFieldAfter(n).children == [Obj(AddClass(n.children[0].node, "form-control").value)]
  {
  }

  /** A control whose class is an object cannot be given `form-control`: render throws and nothing changes. */
  lemma FormFieldControlObjectClass(n: Node)
    requires n.kind.FormField? && |n.children| == 1 && n.children[0].Obj?
    requires !(Prop(n, "label") != Null && IsCheckbox(FieldType(n.children[0])))
    requires n.children[0].node.cls.Obj? || n.children[0].node.cls.Other?
    ensures FormFieldView(n) == Failure(Interpolate(n.children[0].node.cls).error)
    ensures FormFieldAfter(n) == n
  {
  }

  /** A control that is not an object cannot be given a class: the call fails. */
  lemma FormFieldNotObject(n: Node)
    requires n.kind.FormField? && |n.children| == 1 && !n.children[0].Obj?
    ensures FormFieldView(n) == Failure(NotAnObject(TypeName(n.children[0])))
  {
    assert FieldType(n.children[0]) == Null;
    assert LabelAndChildren(n) == Failure(NotAnObject(TypeName(n.children[0])));
  }

  /**
   * Rendering is not idempotent: rendering the state a first render left adds
   * `form-control` to the control a second time.
   */
  lemma FormFieldRenderTwice(n: Node)
    requires n.kind.FormField? && |n.children| == 1 && n.children[0].Obj?
    requires !(Prop(n, "label") != Null && IsCheckbox(FieldType(n.children[0])))
    requires AddClass(n.children[0].node, "form-control").Success?
    requires WrapperClass(n).Success? && Feedback(Prop(n, "icon")).Success?
    ensures FormFieldView(n).Success?
    ensures var m := FormFieldView(n).value.1;
      FormFieldView(m).Success? &&
      FormFieldView(m).value.1.children ==
        [Obj(AddClass(AddClass(n.children[0].node, "form-control").value, "form-control").value)]
  {
    FormFieldControl(n);
    var c := n.children[0].node;
    var c1 := AddClass(c, "form-control").value;
    var m := FormFieldView(n).value.1;
    assert m == FormFieldAfter(n);
    assert m == n.(children := [Obj(c1)]);
    ControlKeepsType(c, c1);
    assert FieldType(m.children[0]) == FieldType(n.children[0]);
    assert Prop(m, "label") == Prop(n, "label") && Prop(m, "icon") == Prop(n, "icon");
    assert WrapperClass(m) == WrapperClass(n);
    assert c1.cls.Str?;
    FormFieldControl(m);
  }

  /** Adding a class keeps the kind and the attributes, so the control's `type` is unchanged. */
  lemma ControlKeepsType(c: Node, c1: Node)
    requires AddClass(c, "form-control") == Success(c1)
    ensures FieldType(Obj(c1)) == FieldType(Obj(c))
  {
  }
}
