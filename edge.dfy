/**
 * `Edge::render` (and the global `render` that forwards to it): turns a list of peer
 * nodes into markup. Elements render themselves (an HTML element as its tag, a plain
 * element as its children, a composite as the tree its `render()` returns), strings
 * are copied, arrays are spliced in place, nulls vanish and anything else is rejected.
 */
module Edge {
  import opened Wrappers
  import opened Tree
  import opened Selector
  import opened ElementOps
  import opened HtmlElement
  import opened Catalog
  import opened Composites

  /** Two renderings one after the other: the first failure wins, otherwise the texts join. */
  function Then(a: Result<string, Error>, b: Result<string, Error>): (r: Result<string, Error>)
    ensures r.Success? <==> a.Success? && b.Success?
    ensures r.Success? ==> r.value == a.value + b.value
    ensures a.Failure? ==> r == a
    ensures a.Success? && b.Failure? ==> r == b
  {
    match a
    case Failure(_) => a
    case Success(x) =>
      match b
      case Failure(_) => b
      case Success(y) => Success(x + y)
  }

  /** `render(...$elements)`: the pieces in order, joined with no separator. */
  function RenderSeq(xs: seq<Value>): Result<string, Error>
    decreases SizeSeq(xs), 1
  {
    if xs == [] then Success("")
    else Then(RenderValue(xs[0]), RenderSeq(xs[1..]))
  }

  /** An associative array is spread into `render`: its values, in order. */
  function RenderAssoc(es: seq<(string, Value)>): Result<string, Error>
    decreases SizeAssoc(es), 1
  {
    if es == [] then Success("")
    else
      var entry := es[0];
      assert entry.1 < entry;
      Then(RenderValue(entry.1), RenderAssoc(es[1..]))
  }

  /** The values of an associative array, in order: what `...$e` passes for it. */
  function Values(es: seq<(string, Value)>): (r: seq<Value>)
    ensures |r| == |es|
    ensures forall j :: 0 <= j < |es| ==> r[j] == es[j].1
  {
    if es == [] then [] else [es[0].1] + Values(es[1..])
  }

  /** Spreading an associative array into `render` renders its values in order; the keys play no part. */
  lemma {:induction false} RenderAssocValues(es: seq<(string, Value)>)
    ensures RenderAssoc(es) == RenderSeq(Values(es))
  {
    if es != [] {
      RenderAssocValues(es[1..]);
      var vs := Values(es);
      assert vs[0] == es[0].1 && vs[1..] == Values(es[1..]);
    }
  }

  /** One argument of `Edge::render`. */
  function RenderValue(v: Value): (r: Result<string, Error>)
    decreases Size(v), 1
    ensures v.Bool? || v.Int? || v.Other? || v.Resource? ==> r == Failure(InvalidChildType(TypeName(v)))
  {
    match v
    case Obj(n) => OwnRender(n)
    case Str(s) => Success(s)
    case List(xs) => RenderSeq(xs)
    case Dict(es) => RenderAssoc(es)
    case Null => Success("")
    case _ => Failure(InvalidChildType(TypeName(v)))
  }

  /**
   * `render($e->render())` for an element `e`: `Element::render` renders the children,
   * `HTMLElement::render` wraps them in the tag, and a composite's own tree is rendered.
   */
  function OwnRender(n: Node): Result<string, Error>
    decreases NodeSize(n) + 1, 0
  {
    assert SizeSeq(n.children) < NodeSize(n) + 1;
    if n.kind.Plain? then RenderSeq(n.children)
    else if n.kind.Html? then
      match OpenTagAttrs(n)
      case Failure(e) => Failure(e)
      case Success(attrs) =>
        match RenderSeq(n.children)
        case Failure(e) => Failure(e)
        case Success(content) => Success(Markup(n.kind.tag, n.kind.isVoid, attrs, content))
    else
      match CompositeView(n)
      case Failure(e) => Failure(e)
      case Success(view) =>
        ObjSize(n);
        RenderValue(view)
  }

  /** The tree a composite's `render()` returns: `Panel::render` or `FormField::render`. */
  function CompositeView(n: Node): (r: Result<Value, Error>)
    requires n.kind.Panel? || n.kind.FormField?
    ensures r.Success? ==> Size(r.value) < Size(Obj(n))
  {
    if n.kind.Panel? then PanelView(n)
    else
      match FormFieldView(n)
      case Failure(e) => Failure(e)
      case Success(view) => Success(view.0)
  }

  /** The markup of an HTML element: the content is dropped for a void tag, which has no end tag. */
  function Markup(tag: string, isVoid: bool, attrs: string, content: string): (r: string)
    ensures isVoid ==> r == "<" + tag + attrs + ">"
    ensures !isVoid ==> |r| == 2 * |tag| + |attrs| + |content| + 5
    ensures !isVoid ==> r[..|tag| + |attrs| + 2] == "<" + tag + attrs + ">"
    ensures !isVoid ==> r[|tag| + |attrs| + 2..|r| - |tag| - 3] == content
    ensures !isVoid ==> r[|r| - |tag| - 3..] == "</" + tag + ">"
  {
    if isVoid then "<" + tag + attrs + ">" else "<" + tag + attrs + ">" + content + "</" + tag + ">"
  }

  /**
   * The loop of `Edge::render`: each argument's markup is appended in turn; the first
   * rejected argument or failing element stops it.
   */
  method Render(items: seq<Value>) returns (r: Result<string, Error>)
    ensures r == RenderSeq(items)
  {
    var o := "";
    var i := 0;
    assert items[i..] == items;
    ThenUnit(RenderSeq(items));
    while i < |items|
      invariant 0 <= i <= |items|
      invariant RenderSeq(items) == Then(Success(o), RenderSeq(items[i..]))
    {
      assert items[i..][0] == items[i] && items[i..][1..] == items[i + 1..];
      var piece := RenderValue(items[i]);
      if piece.Failure? {
        return Failure(piece.error);
      }
      ThenAssoc(Success(o), piece, RenderSeq(items[i + 1..]));
      o := o + piece.value;
      i := i + 1;
    }
    assert items[i..] == [];
    ThenUnit(Success(o));
    return Success(o);
  }

  /** Rendering two lists one after the other is rendering their concatenation. */
  lemma {:induction false} RenderConcat(a: seq<Value>, b: seq<Value>)
    ensures RenderSeq(a + b) == Then(RenderSeq(a), RenderSeq(b))
    decreases |a|
  {
    if a == [] {
      assert a + b == b;
      ThenUnit(RenderSeq(b));
    } else {
      assert (a + b)[0] == a[0] && (a + b)[1..] == a[1..] + b;
      RenderConcat(a[1..], b);
      ThenAssoc(RenderValue(a[0]), RenderSeq(a[1..]), RenderSeq(b));
    }
  }

  /**
   * No partial output: a list renders exactly when every argument does, and then as
   * the first argument's text followed by the rest's.
   */
  lemma {:induction false} RenderAllOrNothing(xs: seq<Value>)
    ensures RenderSeq(xs).Success? <==> forall i :: 0 <= i < |xs| ==> RenderValue(xs[i]).Success?
    ensures RenderSeq(xs).Success? && xs != [] ==>
      RenderSeq(xs).value == RenderValue(xs[0]).value + RenderSeq(xs[1..]).value
  {
    if xs != [] {
      RenderAllOrNothing(xs[1..]);
      assert forall i :: 1 <= i < |xs| ==> xs[1..][i - 1] == xs[i];
    }
  }

  lemma ThenUnit(x: Result<string, Error>)
    ensures Then(Success(""), x) == x && Then(x, Success("")) == x
  {
    if x.Success? {
      assert "" + x.value == x.value && x.value + "" == x.value;
    }
  }

  lemma ThenAssoc(x: Result<string, Error>, y: Result<string, Error>, z: Result<string, Error>)
    ensures Then(x, Then(y, z)) == Then(Then(x, y), z)
  {
    if x.Success? && y.Success? && z.Success? {
      assert x.value + (y.value + z.value) == (x.value + y.value) + z.value;
    }
  }

  /** A null argument contributes nothing, wherever it is. */
  lemma NullNeutral(a: seq<Value>, b: seq<Value>)
    ensures RenderSeq(a + [Null] + b) == RenderSeq(a + b)
  {
    RenderConcat(a + [Null], b);
    RenderConcat(a, [Null]);
    RenderConcat(a, b);
    assert RenderSeq([Null]) == Then(Success(""), Success(""));
    ThenUnit(Success(""));
    ThenUnit(RenderSeq(a));
    assert a + [Null] + b == (a + [Null]) + b;
  }

  /** An array argument is spliced: its items are rendered as if passed in its place. */
  lemma Splice(a: seq<Value>, xs: seq<Value>, b: seq<Value>)
    ensures RenderSeq(a + [List(xs)] + b) == RenderSeq(a + xs + b)
  {
    RenderConcat(a + [List(xs)], b);
    RenderConcat(a, [List(xs)]);
    RenderConcat(a + xs, b);
    RenderConcat(a, xs);
    assert [List(xs)][1..] == [];
    assert RenderSeq([List(xs)]) == Then(RenderSeq(xs), Success(""));
    ThenUnit(RenderSeq(xs));
    assert a + [List(xs)] + b == (a + [List(xs)]) + b;
    assert a + xs + b == (a + xs) + b;
  }

  /** The texts of a list of strings, joined. */
  function Texts(xs: seq<Value>): (r: string)
    requires forall i :: 0 <= i < |xs| ==> xs[i].Str?
  {
    if xs == [] then "" else xs[0].s + Texts(xs[1..])
  }

  /** Strings render as themselves, joined with nothing between them. */
  lemma {:induction false} RenderStrings(xs: seq<Value>)
    requires forall i :: 0 <= i < |xs| ==> xs[i].Str?
    ensures RenderSeq(xs) == Success(Texts(xs))
  {
    if xs != [] {
      RenderStrings(xs[1..]);
    }
  }

  /**
   * The first argument that is neither an element, a string, an array nor null stops
   * the rendering with an error naming its type.
   */
  lemma RejectsScalar(a: seq<Value>, v: Value, b: seq<Value>)
    requires RenderSeq(a).Success?
    requires v.Bool? || v.Int? || v.Other? || v.Resource?
    ensures RenderSeq(a + [v] + b) == Failure(InvalidChildType(TypeName(v)))
  {
    RenderConcat(a, [v] + b);
    assert a + [v] + b == a + ([v] + b);
    assert ([v] + b)[0] == v && ([v] + b)[1..] == b;
    assert RenderSeq([v] + b) == Then(RenderValue(v), RenderSeq(b));
  }

  /** An HTML element's output: start tag with its attributes, content, end tag unless void. */
  lemma HtmlOutput(n: Node)
    requires n.kind.Html?
    ensures OwnRender(n).Success? <==> OpenTagAttrs(n).Success? && RenderSeq(n.children).Success?
    ensures OwnRender(n).Success? ==>
      OwnRender(n).value == Markup(n.kind.tag, n.kind.isVoid, OpenTagAttrs(n).value, RenderSeq(n.children).value)
  {
  }

  /** A bad attribute is reported before anything in the content is rendered. */
  lemma AttributeErrorFirst(n: Node)
    requires n.kind.Html? && OpenTagAttrs(n).Failure?
    ensures OwnRender(n) == Failure(OpenTagAttrs(n).error)
  {
  }

  /** A void element still renders its content, so a bad child makes it fail. */
  lemma VoidRendersContent(n: Node)
    requires n.kind.Html? && n.kind.isVoid
    requires OpenTagAttrs(n).Success? && RenderSeq(n.children).Failure?
    ensures OwnRender(n) == Failure(RenderSeq(n.children).error)
  {
  }

  /** A plain element renders as its children, with no markup of its own. */
  lemma PlainOutput(n: Node)
    requires n.kind.Plain?
    ensures OwnRender(n) == RenderSeq(n.children)
  {
  }

  /** A FormField with anything but one child fails to render. */
  lemma FormFieldArityError(n: Node)
    requires n.kind.FormField? && |n.children| != 1
    ensures OwnRender(n) == Failure(FormFieldArity)
  {
  }

  /** `<div class="c">content</div>`. */
  function DivText(c: string, content: string): string
  {
    "<div class=\"" + c + "\">" + content + "</div>"
  }

  /** A `div` with a class, no id and no attributes, whose children render to `content`. */
  lemma DivOutput(d: Node, c: string, content: string)
    requires d.kind == Html("div", false) && EmptyText(d.id) && d.attrs == []
    requires d.cls == Str(c) && !EmptyText(Some(c))
    requires RenderSeq(d.children) == Success(content)
    ensures OwnRender(d) == Success(DivText(c, content))
  {
    var attrs := " class=\"" + c + "\"";
    assert ClassAttr(d.cls) == Success(attrs);
    assert OpenTagAttrs(d) == Success(attrs) by {
      assert AttrsText(d.attrs, "div") == Success("");
      assert "" + attrs + "" == attrs;
    }
    assert "<" + "div" + attrs + ">" == "<div class=\"" + c + "\">";
    assert "<" + "div" + attrs + ">" + content + "</" + "div" + ">" == "<div class=\"" + c + "\">" + content + "</div>";
  }

  /** A single child renders as that child. */
  lemma RenderSingle(v: Value, t: string)
    requires RenderValue(v) == Success(t)
    ensures RenderSeq([v]) == Success(t)
  {
    assert [v][1..] == [];
    ThenUnit(Success(t));
  }

  /** `div(".c", x)`, for a class text `c` without `#`, wraps what `x` renders to in a classed `div`. */
  lemma ClassDivOutput(sel: string, c: string, x: Value, t: string)
    requires sel == "." + c
    requires forall k :: 0 <= k < |c| ==> c[k] != '#'
    requires !EmptyText(Some(c))
    requires RenderValue(x) == Success(t)
    ensures RenderValue(Obj(H("div", [Str(sel), x]))) == Success(DivText(c, t))
  {
    ClassDivNode(sel, c, x);
    RenderSingle(x, t);
    DivOutput(Node(Html("div", false), Some(""), Str(c), [x], [], []), c, t);
  }

  /** The element `div(".c", x)` builds, for a class text `c` without `#`. */
  lemma ClassDivNode(sel: string, c: string, x: Value)
    requires sel == "." + c
    requires forall k :: 0 <= k < |c| ==> c[k] != '#'
    ensures H("div", [Str(sel), x]) == Node(Html("div", false), Some(""), Str(c), [x], [], [])
  {
    assert ("." + c)[1..] == c;
    assert forall k :: 0 <= k < |"." + c| ==> ("." + c)[k] != '#' by {
      forall k | 0 <= k < |"." + c|
        ensures ("." + c)[k] != '#'
      {
        if k >= 1 {
          assert ("." + c)[k] == c[k - 1];
        }
      }
    }
    ClassOnlySelector(Str("." + c), [x]);
  }

  /** The inner `div.panel-body` of a panel whose body renders to `b`. */
  lemma PanelBodyOutput(n: Node, b: string)
    requires RenderValue(Prop(n, "body")) == Success(b)
    ensures RenderValue(PanelBody(n)) == Success(DivText("panel-body", b))
  {
    var d := PanelBody(n).node;
    RenderSingle(Prop(n, "body"), b);
    assert |"panel-body"| == 10;
    DivOutput(d, "panel-body", b);
    assert RenderValue(PanelBody(n)) == OwnRender(d);
  }

  /**
   * A panel whose own class, as text, has no `#` and whose body renders to `b` is
   * `<div class="panel CLS"><div class="panel-body">b</div></div>`.
   * (An empty or unset own class leaves a trailing space: `class="panel "`.)
   */
  lemma PanelOutput(n: Node, b: string)
    requires n.kind.Panel? && Interpolate(n.cls).Success?
    requires forall k :: 0 <= k < |Interpolate(n.cls).value| ==> Interpolate(n.cls).value[k] != '#'
    requires RenderValue(Prop(n, "body")) == Success(b)
    ensures OwnRender(n) == Success(DivText("panel " + Interpolate(n.cls).value, DivText("panel-body", b)))
  {
    var own := Interpolate(n.cls).value;
    var v := Obj(H("div", [Str(".panel " + own), PanelBody(n)]));
    assert PanelView(n) == Success(v);
    PanelRender(n);
    PanelDivOutput(n, own, b);
  }

  /** A panel renders as the tree its `render()` returns, or fails as building it does. */
  lemma PanelRender(n: Node)
    requires n.kind.Panel?
    ensures PanelView(n).Failure? ==> OwnRender(n) == Failure(PanelView(n).error)
    ensures PanelView(n).Success? ==> OwnRender(n) == RenderValue(PanelView(n).value)
  {
  }

  /** `div(".panel $own", div('.panel-body', $body))` for a class text without `#`. */
  lemma PanelDivOutput(n: Node, own: string, b: string)
    requires forall k :: 0 <= k < |own| ==> own[k] != '#'
    requires RenderValue(Prop(n, "body")) == Success(b)
    ensures RenderValue(Obj(H("div", [Str(".panel " + own), PanelBody(n)]))) ==
      Success(DivText("panel " + own, DivText("panel-body", b)))
  {
    var c := "panel " + own;
    NoHashAfter("panel ", own);
    PanelBodyOutput(n, b);
    ClassDivOutput(".panel " + own, c, PanelBody(n), DivText("panel-body", b));
  }

  lemma NoHashAfter(p: string, own: string)
    requires forall k :: 0 <= k < |p| ==> p[k] != '#'
    requires forall k :: 0 <= k < |own| ==> own[k] != '#'
    ensures forall k :: 0 <= k < |p + own| ==> (p + own)[k] != '#'
  {
  }

  /** A panel without a body still renders its inner `div.panel-body`, empty. */
  lemma PanelWithoutBody(n: Node)
    requires n.kind.Panel? && Prop(n, "body") == Null && Interpolate(n.cls).Success?
    requires forall k :: 0 <= k < |Interpolate(n.cls).value| ==> Interpolate(n.cls).value[k] != '#'
    ensures OwnRender(n) == Success(DivText("panel " + Interpolate(n.cls).value, DivText("panel-body", "")))
  {
    PanelOutput(n, "");
  }

  /**
   * A `#` in the panel's class text becomes part of the outer selector: `class('#y')`
   * gives `div(".panel #y", ...)`, whose id is `y` and whose class is `panel` (the
   * optional space before `#` is deleted with the match).
   */
  lemma PanelHashClass(n: Node)
    requires n.kind.Panel? && n.cls == Str("#y")
    ensures PanelView(n).Success?
    ensures PanelView(n).value.node.id == Some("y")
    ensures PanelView(n).value.node.cls == Str("panel")
  {
    StripMatchUnspaced(" ", "y", []);
    assert " " + "#" + "y" + [] == " #y";
    StripPlainPrefix("panel", " #y");
    assert "panel " + "#y" == "panel" + " #y";
    assert "panel" + "" == "panel";
  }

  /** A panel whose class is an object cannot interpolate it into its selector: rendering throws. */
  lemma PanelObjectClass(n: Node)
    requires n.kind.Panel? && (n.cls.Obj? || n.cls.Other?)
    ensures OwnRender(n) == Failure(Interpolate(n.cls).error)
  {
  }

  /** An HTML element whose class is an object throws before anything else is rendered. */
  lemma HtmlObjectClass(n: Node)
    requires n.kind.Html? && (n.cls.Obj? || n.cls.Other?)
    ensures OwnRender(n) == Failure(Interpolate(n.cls).error)
  {
  }

  /** `Panel::render` never looks at the panel's children: whatever was appended is not shown. */
  lemma PanelIgnoresChildren(n: Node, items: seq<Value>)
    requires n.kind.Panel?
    ensures OwnRender(n.(children := n.children + items)) == OwnRender(n)
  {
    var m := n.(children := n.children + items);
    assert Prop(m, "body") == Prop(n, "body");
    assert PanelView(m) == PanelView(n);
  }
}
