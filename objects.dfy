/**
 * The element and mixin objects themselves. Each method changes the object's fields in
 * place and is proved to leave exactly the state the matching function of `ElementOps`,
 * `Composites` or `Edge` describes. Children are held as values (see README).
 */
module Objects {
  import opened Wrappers
  import opened Tree
  import opened Helpers
  import opened Selector
  import opened ElementOps
  import opened HtmlElement
  import opened Catalog
  import opened Composites
  import Edge

  /** The two items `IconMixin::run` pushes: a spacer and an `i` element with the icon's classes. */
  function IconItems(c: string): (r: seq<Value>)
    ensures |r| == 2 && r[0] == Str(" &nbsp;")
  {
    Pushed(IconNode(c))
  }

  /** `i(".$class")`: an empty `i` element whose selector is the icon's classes. */
  function IconNode(c: string): (r: Node)
    ensures r.kind == Html("i", false) && r.children == [] && r.attrs == []
  {
    var e := Strip(c);
    Node(Html("i", false), Some(match e.1 case Some(x) => x case None => ""), Str(e.0), [], [], [])
  }

  /** The icon element is exactly what `h('i', ".$class")` builds. */
  lemma IconNodeIsH(c: string)
    ensures IconNode(c) == H("i", [Str("." + c)])
  {
    assert ("." + c)[0] == '.' && ("." + c)[1..] == c;
  }

  /** The spacer and the given icon element. */
  function Pushed(icon: Node): (r: seq<Value>)
    ensures |r| == 2
  {
    [Str(" &nbsp;"), Obj(icon)]
  }

  /** What running the mixins `ms`, in order, appends. */
  function PushedAll(ms: seq<IconMixin>): (r: seq<Value>)
  {
    if ms == [] then [] else PushedAll(ms[..|ms| - 1]) + Pushed(ms[|ms| - 1].icon)
  }

  lemma {:induction false} PushedAllItems(ms: seq<IconMixin>)
    ensures PushedAll(ms) == IconsItems(Classes(ms))
  {
    if ms != [] {
      var init, last := ms[..|ms| - 1], ms[|ms| - 1];
      PushedAllItems(init);
      assert Classes(ms) == Classes(init) + [last.cls];
      IconsItemsSnoc(Classes(init), last.cls);
      assert Pushed(last.icon) == IconItems(last.cls);
    }
  }

  /** What applying icon mixins with classes `cs`, in order, appends. */
  function IconsItems(cs: seq<string>): (r: seq<Value>)
    ensures |r| == 2 * |cs|
  {
    if cs == [] then [] else IconsItems(cs[..|cs| - 1]) + IconItems(cs[|cs| - 1])
  }

  /** The state `with(...$mixins)` leaves, for icon mixins with classes `cs`. */
  function WithIcons(n: Node, cs: seq<string>): (r: Node)
    ensures r.children == n.children + IconsItems(cs)
    ensures r.(children := n.children) == n
  {
    n.(children := n.children + IconsItems(cs))
  }

  lemma IconsItemsSnoc(cs: seq<string>, c: string)
    ensures IconsItems(cs + [c]) == IconsItems(cs) + IconItems(c)
  {
    assert (cs + [c])[..|cs|] == cs;
  }

  /** Mixins are applied one after the other: the items of each come after those of the ones before. */
  lemma {:induction false} IconsItemsOrder(cs: seq<string>, i: nat)
    requires i < |cs|
    ensures IconsItems(cs)[2 * i..2 * i + 2] == IconItems(cs[i])
    decreases |cs|
  {
    var init := cs[..|cs| - 1];
    var a := IconsItems(init);
    var b := IconItems(cs[|cs| - 1]);
    assert IconsItems(cs) == a + b;
    if i < |cs| - 1 {
      IconsItemsOrder(init, i);
      assert cs[i] == init[i];
      SliceLeft(a, b, 2 * i, 2 * i + 2);
    } else {
      SliceRight(a, b);
    }
  }

  lemma SliceLeft(a: seq<Value>, b: seq<Value>, lo: nat, hi: nat)
    requires lo <= hi <= |a|
    ensures (a + b)[lo..hi] == a[lo..hi]
  {
  }

  lemma SliceRight(a: seq<Value>, b: seq<Value>)
    ensures (a + b)[|a|..|a| + |b|] == b
  {
  }

  /** The CSS classes of a list of icon mixins, in order. */
  function Classes(ms: seq<IconMixin>): (r: seq<string>)
    ensures |r| == |ms| && forall j :: 0 <= j < |ms| ==> r[j] == ms[j].cls
  {
    seq(|ms|, j requires 0 <= j < |ms| => ms[j].cls)
  }

  /** The state `render()` leaves: only a FormField changes itself. */
  function RenderState(n: Node): Node
  {
    if n.kind.FormField? then FormFieldAfter(n) else n
  }

  /** The keys with truthy values, collected by the loop of `_class`. */
  method TruthyKeysOf(es: seq<(string, Value)>) returns (c: seq<string>)
    ensures c == TruthyKeys(es)
  {
    c := [];
    var i := 0;
    while i < |es|
      invariant 0 <= i <= |es|
      invariant c == TruthyKeys(es[..i])
    {
      assert es[..i + 1][..i] == es[..i];
      if Truthy(es[i].1) {
        c := c + [es[i].0];
      }
      i := i + 1;
    }
    assert es[..i] == es;
  }

  /**
   * An element object: the fields of `Element`, of `HTMLElement` (`attrs`, with `tag`
   * and `isVoid` fixed in `kind`) and the declared properties of the composites.
   */
  class Element {
    const kind: Kind
    var id: Option<string>
    var cls: Value
    var children: seq<Value>
    var attrs: seq<(string, Value)>
    var props: seq<(string, Value)>

    /** The element's state as a value. */
    function Snapshot(): Node
      reads this
    {
      Node(kind, id, cls, children, attrs, props)
    }

    /** A new object of class `k` before its constructor body runs. */
    constructor Empty(k: Kind)
      ensures Snapshot() == Fresh(k)
    {
      kind := k;
      id := None;
      cls := Str("");
      children := [];
      attrs := [];
      props := InitProps(k);
    }

    /** `new K(...$args)`: may throw only for a void element given content. */
    static method New(k: Kind, args: seq<Value>) returns (r: Result<Element, Error>)
      ensures r.Success? <==> Construct(k, args).Success?
      ensures r.Failure? ==> r.error == Construct(k, args).error
      ensures r.Success? ==> fresh(r.value) && r.value.Snapshot() == Construct(k, args).value
    {
      var e := new Element.Empty(k);
      var x := ExtractSelector(args);
      if Truthy(Str(x.sel)) {
        e.cls := Str(x.cls);
        e.id := Some(x.id);
      }
      var err := e.Append(x.rest);
      if err.Some? {
        return Failure(err.value);
      }
      return Success(e);
    }

    /** `id($v)`. */
    method Id(v: string)
      modifies this
      ensures Snapshot() == SetId(old(Snapshot()), v)
    {
      id := Some(v);
    }

    /** `_(...$items)`: appends, or refuses content on a void element and changes nothing. */
    method Append(items: seq<Value>) returns (err: Option<Error>)
      modifies this
      ensures err.Some? <==> ElementOps.Append(old(Snapshot()), items).Failure?
      ensures err.Some? ==> err.value == ElementOps.Append(old(Snapshot()), items).error && Snapshot() == old(Snapshot())
      ensures err.None? ==> Snapshot() == ElementOps.Append(old(Snapshot()), items).value
    {
      if kind.Html? && kind.isVoid && |items| > 0 {
        return Some(VoidContent(kind.tag));
      }
      if items != [] {
        children := children + items;
      }
      return None;
    }

    /** `_class($v)`. */
    method SetClass(v: Value)
      modifies this
      ensures Snapshot() == ElementOps.SetClass(old(Snapshot()), v)
    {
      match v {
        case Dict(es) =>
          var c := TruthyKeysOf(es);
          cls := Str(Join(" ", c));
        case List(xs) =>
          var c := TruthyKeysOf(Indexed(xs));
          cls := Str(Join(" ", c));
        case _ =>
          cls := v;
      }
    }

    /** `addClass($c)`: throws, changing nothing, when the class cannot be turned into text. */
    method AddClass(c: string) returns (err: Option<Error>)
      modifies this
      ensures err.Some? <==> ElementOps.AddClass(old(Snapshot()), c).Failure?
      ensures err.Some? ==> err.value == ElementOps.AddClass(old(Snapshot()), c).error && Snapshot() == old(Snapshot())
      ensures err.None? ==> Snapshot() == ElementOps.AddClass(old(Snapshot()), c).value
    {
      var t := Enum(" ", [cls, Str(c)]);
      if t.Failure? {
        return Some(t.error);
      }
      cls := Str(t.value);
      return None;
    }

    /** `$el->name(...$args)` for a name the class does not define as a method. */
    method Set(name: string, args: seq<Value>) returns (err: Option<Error>)
      modifies this
      ensures err.Some? <==> ElementOps.Set(old(Snapshot()), name, args).Failure?
      ensures err.Some? ==> err.value == ElementOps.Set(old(Snapshot()), name, args).error && Snapshot() == old(Snapshot())
      ensures err.None? ==> Snapshot() == ElementOps.Set(old(Snapshot()), name, args).value
    {
      if name == "class" {
        SetClass(FirstArg(args));
        return None;
      }
      if kind.Html? {
        attrs := Put(attrs, name, if |args| > 0 then args[0] else Bool(true));
        return None;
      }
      if name == "children" {
        var v := ArgValue(args);
        if !v.List? {
          return Some(NonListChildren(TypeName(v)));
        }
        children := v.items;
        return None;
      }
      if name in Declared(kind) {
        props := Put(props, name, ArgValue(args));
        return None;
      }
      return Some(UnknownAttribute(name, ClassName(kind)));
    }

    /**
     * `render()` followed by `Edge::render` of what it returns: the markup, and for a
     * FormField the change it makes to itself.
     */
    method Render() returns (r: Result<string, Error>)
      modifies this
      ensures r == Edge.OwnRender(old(Snapshot()))
      ensures Snapshot() == RenderState(old(Snapshot()))
    {
      var n := Snapshot();
      if kind.Plain? {
        r := Edge.Render(children);
      } else if kind.Html? {
        var ca := ClassAttr(cls);
        if ca.Failure? {
          return Failure(ca.error);
        }
        var a := SerializeAttributes(attrs, kind.tag);
        if a.Failure? {
          return Failure(a.error);
        }
        var content := Edge.Render(children);
        if content.Failure? {
          return Failure(content.error);
        }
        r := Success(Edge.Markup(kind.tag, kind.isVoid, IdAttr(id) + ca.value + a.value, content.value));
      } else if kind.Panel? {
        var view := PanelView(n);
        if view.Failure? {
          return Failure(view.error);
        }
        r := Edge.RenderValue(view.value);
      } else {
        var view := FormFieldView(n);
        children := FormFieldAfter(n).children;
        if view.Failure? {
          return Failure(view.error);
        }
        r := Edge.RenderValue(view.value.0);
      }
    }

    /**
     * One step of `with`: `$mixin->applyTo($this)` then `$mixin->run()` for the `i`-th
     * mixin. The mixins applied before keep this element as their target.
     */
    method WithOne(ms: seq<IconMixin>, i: nat)
      requires i < |ms|
      requires forall j :: 0 <= j < i ==> ms[j].target == this
      modifies this, ms[i]
      ensures forall j :: 0 <= j <= i ==> ms[j].target == this
      ensures children == old(children) + Pushed(ms[i].icon)
      ensures id == old(id) && cls == old(cls) && attrs == old(attrs) && props == old(props)
    {
      ms[i].ApplyTo(this);
      var _ := ms[i].Run();
    }

    /**
     * `with(...$mixins)`: each mixin in turn is applied to this element and run; the
     * element ends up with the icon items of every mixin, in order, after its children.
     */
    method With(ms: seq<IconMixin>)
      modifies this, set m | m in ms
      ensures Snapshot() == WithIcons(old(Snapshot()), Classes(ms))
      ensures forall j :: 0 <= j < |ms| ==> ms[j].target == this
    {
      var i := 0;
      while i < |ms|
        invariant 0 <= i <= |ms|
        invariant children == old(children) + PushedAll(ms[..i])
        invariant id == old(id) && cls == old(cls) && attrs == old(attrs) && props == old(props)
        invariant forall j :: 0 <= j < i ==> ms[j].target == this
      {
        assert ms[..i + 1][..i] == ms[..i];
        WithOne(ms, i);
        i := i + 1;
      }
      assert ms[..i] == ms;
      PushedAllItems(ms);
    }
  }

  /** `Mixin` with its one concrete subclass, `IconMixin`. */
  class IconMixin {
    /** The icon's CSS classes. */
    const cls: string
    /** The `i` element `run()` builds from the class, which never changes. */
    const icon: Node := IconNode(cls)
    /** The element the mixin was last applied to. */
    var target: Element?

    /** `new IconMixin($class)`, as `icon($class)` builds it: the class is kept as given. */
    constructor(c: string)
      ensures cls == c && target == null
    {
      cls := c;
      target := null;
    }

    /** `applyTo($target, $tunnel)`: the target replaces any earlier one. */
    method ApplyTo(t: Element)
      modifies this
      ensures target == t
    {
      target := t;
    }

    /**
     * `target($prop)`, the tunnel: the named field of the target as it is now. An HTML
     * target also has `attrs`, `tag` and `isVoid`; the declared properties of a
     * composite read as their value; any other name reads as null.
     */
    function Target(prop: string): (r: Value)
      requires target != null
      reads this, target
      ensures prop == "children" ==> r == List(target.children)
      ensures prop == "class" ==> r == target.cls
      ensures prop == "id" ==> r == (if target.id.Some? then Str(target.id.value) else Null)
      ensures target.kind.Html? && prop == "attrs" ==> r == Dict(target.attrs)
      ensures target.kind.Html? && prop == "tag" ==> r == Str(target.kind.tag)
      ensures target.kind.Html? && prop == "isVoid" ==> r == Bool(target.kind.isVoid)
      ensures !(prop in ["children", "class", "id"]) && !(target.kind.Html? && prop in ["attrs", "tag", "isVoid"]) ==>
        r == Prop(target.Snapshot(), prop)
    {
      if prop == "children" then List(target.children)
      else if prop == "class" then target.cls
      else if prop == "id" then (match target.id case Some(s) => Str(s) case None => Null)
      else if target.kind.Html? && prop == "attrs" then Dict(target.attrs)
      else if target.kind.Html? && prop == "tag" then Str(target.kind.tag)
      else if target.kind.Html? && prop == "isVoid" then Bool(target.kind.isVoid)
      else Prop(target.Snapshot(), prop)
    }

    /**
     * `run()`: pushes the spacer and the icon onto the target's children, bypassing
     * the void check of `_`. Without a target there is nothing to push onto.
     */
    method Run() returns (err: Option<Error>)
      modifies target
      ensures target == old(target)
      ensures err.Some? <==> target == null
      ensures err.Some? ==> err.value == NotAnObject("NULL")
      ensures target != null ==>
        target.Snapshot() == old(target.Snapshot()).(children := old(target.children) + Pushed(icon))
    {
      if target == null {
        return Some(NotAnObject("NULL"));
      }
      target.children := target.children + Pushed(icon);
      return None;
    }
  }

  /**
   * An icon on a void element: its children grow, but the output does not change, as
   * the content of a void element is rendered and dropped.
   */
  lemma IconOnVoidInvisible(n: Node, c: string)
    requires n.kind.Html? && n.kind.isVoid
    ensures Edge.OwnRender(n.(children := n.children + IconItems(c))) == Edge.OwnRender(n)
  {
    var items := IconItems(c);
    var icon := IconNode(c);
    assert AttrsText(icon.attrs, "i").Success?;
    assert Edge.RenderSeq(icon.children) == Success("");
    assert Edge.RenderValue(items[1]).Success?;
    assert items[1..][1..] == [];
    assert Edge.RenderSeq(items).Success?;
    Edge.RenderConcat(n.children, items);
  }
}
