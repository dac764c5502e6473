/**
 * The operations of `Element` and the two that `HTMLElement` overrides (`_` and
 * `__call`), as functions from an element's state to its new state. The class
 * `Objects.Element` performs them in place and is proved against these.
 */
module ElementOps {
  import opened Wrappers
  import opened Tree
  import opened Helpers
  import opened Selector

  /** The properties a composite declares besides `id`, `class` and `children`. */
  function Declared(k: Kind): seq<string>
  {
    match k
    case FormField => ["label", "icon"]
    case Panel => ["body"]
    case _ => []
  }

  /** Every declared property starts out null. */
  function InitProps(k: Kind): (r: seq<(string, Value)>)
    ensures Keys(r) == Declared(k)
    ensures forall j :: 0 <= j < |r| ==> r[j].1 == Null
  {
    match k
    case FormField => [("label", Null), ("icon", Null)]
    case Panel => [("body", Null)]
    case _ => []
  }

  /** A fresh object before its constructor body runs: no id, no class, no children. */
  function Fresh(k: Kind): Node
  {
    Node(k, None, Str(""), [], [], InitProps(k))
  }

  /** Reading a declared property (`$this->label`); an unset one reads as null. */
  function Prop(n: Node, name: string): Value
  {
    match Lookup(n.props, name)
    case Some(v) => v
    case None => Null
  }

  /** `Element::_`: the items go after the existing children, in order; nothing else changes. */
  function AppendBase(n: Node, items: seq<Value>): (r: Node)
    ensures r.children == n.children + items
    ensures r.(children := n.children) == n
  {
    if items == [] then n else n.(children := n.children + items)
  }

  /**
   * `HTMLElement::_`: a void element refuses any non-empty list of items (and keeps its
   * children); an empty call always succeeds.
   */
  function HtmlAppend(n: Node, items: seq<Value>): (r: Result<Node, Error>)
    requires n.kind.Html?
    ensures r.Failure? <==> n.kind.isVoid && |items| > 0
    ensures r.Failure? ==> r.error == VoidContent(n.kind.tag)
    ensures r.Success? ==> r.value.children == n.children + items && r.value.(children := n.children) == n
  {
    if |items| > 0 && n.kind.isVoid then Failure(VoidContent(n.kind.tag)) else Success(AppendBase(n, items))
  }

  /** `$el->_(...)`, dispatched on the element's class. */
  function Append(n: Node, items: seq<Value>): (r: Result<Node, Error>)
    ensures r.Failure? <==> n.kind.Html? && n.kind.isVoid && |items| > 0
    ensures r.Success? ==> r.value.children == n.children + items && r.value.(children := n.children) == n
  {
    if n.kind.Html? then HtmlAppend(n, items) else Success(AppendBase(n, items))
  }

  /** `id($v)`: the id becomes `$v`; nothing else changes. */
  function SetId(n: Node, v: string): (r: Node)
    ensures r.id == Some(v) && r.(id := n.id) == n
  {
    n.(id := Some(v))
  }

  /** The keys whose values are truthy, in order: the list `_class` builds in its loop. */
  function TruthyKeys(es: seq<(string, Value)>): (r: seq<string>)
    ensures |r| <= |es|
    ensures forall j :: 0 <= j < |es| && Truthy(es[j].1) ==> es[j].0 in r
    ensures forall k :: k in r ==> exists j :: 0 <= j < |es| && es[j].0 == k && Truthy(es[j].1)
  {
    if es == [] then []
    else
      var last := es[|es| - 1];
      var r := TruthyKeys(es[..|es| - 1]) + (if Truthy(last.1) then [last.0] else []);
      assert forall j :: 0 <= j < |es| - 1 ==> es[..|es| - 1][j] == es[j];
      r
  }

  /** The loop keeps map order: the keys of a joined map are those of the first part, then the second's. */
  lemma {:induction false} TruthyKeysAppend(a: seq<(string, Value)>, b: seq<(string, Value)>)
    ensures TruthyKeys(a + b) == TruthyKeys(a) + TruthyKeys(b)
    decreases |b|
  {
    if b == [] {
      assert a + b == a;
    } else {
      var init := b[..|b| - 1];
      assert (a + b)[..|a + b| - 1] == a + init;
      assert (a + b)[|a + b| - 1] == b[|b| - 1];
      TruthyKeysAppend(a, init);
    }
  }

  /** A PHP list seen as an array: its keys are the positions 0, 1, ... */
  function Indexed(xs: seq<Value>): (r: seq<(string, Value)>)
    ensures |r| == |xs|
    ensures forall j :: 0 <= j < |xs| ==> r[j] == (IntText(j), xs[j])
  {
    seq(|xs|, j requires 0 <= j < |xs| => (IntText(j), xs[j]))
  }

  /** The value `_class($v)` stores: an array becomes its truthy keys joined by spaces; anything else is kept as it is. */
  function StoredClass(v: Value): Value
  {
    match v
    case Dict(es) => Str(Join(" ", TruthyKeys(es)))
    case List(xs) => Str(Join(" ", TruthyKeys(Indexed(xs))))
    case _ => v
  }

  /** A class map keeps exactly the truthy keys, in map order. */
  lemma ClassMapExample()
    ensures StoredClass(Dict([("a", Bool(true)), ("b", Bool(false)), ("c", Int(1))])) == Str("a c")
  {
    var es := [("a", Bool(true)), ("b", Bool(false)), ("c", Int(1))];
    assert es[..2] == [("a", Bool(true)), ("b", Bool(false))];
    assert es[..2][..1] == [("a", Bool(true))];
    assert [("a", Bool(true))][..0] == [];
    assert TruthyKeys(es) == ["a", "c"];
    assert Join(" ", ["a", "c"]) == "a" + " " + Join(" ", ["c"]);
  }

  /**
   * `_class($v)`: an array is replaced by its truthy keys joined by single spaces; any
   * other value (a string, but also `false`, a number or an object) is stored as it is.
   * Nothing else changes.
   */
  function SetClass(n: Node, v: Value): (r: Node)
    ensures v.Dict? ==> r.cls == Str(Join(" ", TruthyKeys(v.entries)))
    ensures v.List? ==> r.cls == Str(Join(" ", TruthyKeys(Indexed(v.items))))
    ensures !(v.Dict? || v.List?) ==> r.cls == v
    ensures r.(cls := n.cls) == n
  {
    n.(cls := StoredClass(v))
  }

  /**
   * `addClass($c)`: the class becomes `enum(' ', $class, $c)`. An unset or '' class gives
   * `$c` alone, adding '' leaves the class's text, otherwise one space separates them;
   * `false` is kept by `enum` and prints as '', and an object class makes it throw.
   * Nothing else changes.
   */
  function AddClass(n: Node, c: string): (r: Result<Node, Error>)
    ensures r.Failure? <==> n.cls.Obj? || n.cls.Other?
    ensures r.Failure? ==> r.error == Interpolate(n.cls).error
    ensures r.Success? ==> r.value.(cls := n.cls) == n
    ensures r.Success? ==> r.value.cls == Str(
      if !Present(n.cls) then c
      else if c == "" then Interpolate(n.cls).value
      else Interpolate(n.cls).value + " " + c)
  {
    var args := [n.cls, Str(c)];
    assert args[0] == n.cls && args[1] == Str(c) && args[1..] == [Str(c)];
    match Enum(" ", args)
    case Failure(e) =>
      assert Kept(args)[0] == n.cls;
      Failure(e)
    case Success(t) =>
      EnumPair(" ", n.cls, Str(c));
      Success(n.(cls := Str(t)))
  }

  /**
   * Two `addClass` calls build the same list as one `enum` over all three parts, for
   * any class but `false` (see `AddClassAfterFalse`).
   */
  lemma AddClassTwice(n: Node, a: string, b: string)
    requires n.cls != Bool(false)
    ensures AddClass(n, a).Failure? <==> Enum(" ", [n.cls, Str(a), Str(b)]).Failure?
    ensures AddClass(n, a).Success? ==>
      AddClass(AddClass(n, a).value, b) == Success(n.(cls := Str(Enum(" ", [n.cls, Str(a), Str(b)]).value)))
  {
    var xs := [n.cls, Str(a)];
    assert xs + [Str(b)] == [n.cls, Str(a), Str(b)];
    if n.cls.Obj? || n.cls.Other? {
      assert Present(xs[0]) && Interpolate(xs[0]).Failure?;
      EnumSnocFailed(" ", xs, Str(b));
    } else {
      EnumPair(" ", n.cls, Str(a));
      var e1 := Enum(" ", xs).value;
      assert AddClass(n, a).value == n.(cls := Str(e1));
      PairKept(n.cls, a);
      if b == "" {
        EnumSnocDropped(" ", xs, Str(b));
        assert e1 + "" == e1;
      } else if Kept(xs) == [] {
        EnumSnocFirst(" ", xs, Str(b));
      } else {
        EnumSnocKept(" ", xs, Str(b));
      }
    }
  }

  /**
   * A class and a string keep something exactly when the class is set or the string is
   * not ''; the text is '' only then, or for a class `false` with ''.
   */
  lemma PairKept(c: Value, a: string)
    requires !(c.Obj? || c.Other?)
    ensures Kept([c, Str(a)]) == [] <==> !Present(c) && a == ""
    ensures c != Bool(false) && Kept([c, Str(a)]) != [] ==> Enum(" ", [c, Str(a)]).value != ""
  {
    var xs := [c, Str(a)];
    assert xs[1..] == [Str(a)] && [Str(a)][1..] == [];
    EnumPair(" ", c, Str(a));
    if c.Int? {
      assert |IntText(c.i)| > 0;
    }
  }

  /**
   * `class(false)` stores `false`, which `enum` keeps and prints as '': a later
   * `addClass('x')` gives the class ` x`, with a leading space, while adding '' first
   * turns the class into '' and loses that space.
   */
  lemma AddClassAfterFalse(n: Node)
    ensures AddClass(SetClass(n, Bool(false)), "x") == Success(n.(cls := Str(" x")))
    ensures AddClass(AddClass(SetClass(n, Bool(false)), "").value, "x") == Success(n.(cls := Str("x")))
  {
    var f := SetClass(n, Bool(false));
    assert f.cls == Bool(false);
    assert Interpolate(Bool(false)).value == "";
    var r := AddClass(f, "x");
    assert r.Success? && r.value.cls == Str("" + " " + "x") && "" + " " + "x" == " x";
    assert r.value == f.(cls := Str(" x"));
    var g := AddClass(f, "").value;
    assert g.cls == Str("");
    var r' := AddClass(g, "x");
    assert r'.Success? && r'.value.cls == Str("x");
    assert r'.value == g.(cls := Str("x"));
  }

  /** One `enum` over `false`, '' and `x` keeps the space: two `addClass` calls on `false` differ from it. */
  lemma EnumKeepsFalse()
    ensures Enum(" ", [Bool(false), Str(""), Str("x")]) == Success(" x")
  {
    var xs := [Bool(false), Str("")];
    EnumPair(" ", Bool(false), Str(""));
    assert Kept(xs) != [] by {
      assert xs[0] == Bool(false);
    }
    assert Enum(" ", xs) == Success("");
    EnumSnoc(" ", xs, Str("x"));
    assert xs + [Str("x")] == [Bool(false), Str(""), Str("x")];
    assert "" + " " + "x" == " x";
  }

  /** The value a declared property receives: `true` for no argument, the argument, or the list. */
  function ArgValue(args: seq<Value>): Value
  {
    if |args| == 0 then Bool(true) else if |args| == 1 then args[0] else List(args)
  }

  /** `$args[0]`, which reads as null when there is no argument. */
  function FirstArg(args: seq<Value>): Value
  {
    if |args| > 0 then args[0] else Null
  }

  /**
   * `Element::__call($name, $args)`: `class` goes to `_class($args[0])`; a declared
   * property gets `true`, `$args[0]` or `$args`; any other name throws and leaves the
   * element as it was. `children` is a declared property of every element and gets
   * the same value; the model keeps children as a list, so it takes the list-valued
   * cases (several arguments, or one list) and reports `NonListChildren` for the
   * others (no argument, or one value that is not a list).
   */
  function ElementSet(n: Node, name: string, args: seq<Value>): (r: Result<Node, Error>)
    requires !n.kind.Html?
    ensures name == "class" ==> r == Success(SetClass(n, FirstArg(args)))
    ensures name != "class" && name in Declared(n.kind) ==>
      r.Success? && Prop(r.value, name) == ArgValue(args) && r.value.(props := n.props) == n
    ensures name != "class" && name in Declared(n.kind) ==>
      forall other :: other != name ==> Prop(r.value, other) == Prop(n, other)
    ensures name == "children" && ArgValue(args).List? ==>
      r == Success(n.(children := ArgValue(args).items))
    ensures name == "children" && !ArgValue(args).List? ==>
      r == Failure(NonListChildren(TypeName(ArgValue(args))))
    ensures name != "class" && name != "children" && name !in Declared(n.kind) ==>
      r == Failure(UnknownAttribute(name, ClassName(n.kind)))
  {
    if name == "class" then Success(SetClass(n, FirstArg(args)))
    else if name == "children" then
      match ArgValue(args)
      case List(items) => Success(n.(children := items))
      case v => Failure(NonListChildren(TypeName(v)))
    else if name in Declared(n.kind) then
      var props := Put(n.props, name, ArgValue(args));
      PutLookup(n.props, name, ArgValue(args), name);
      forall other | other != name ensures Lookup(props, other) == Lookup(n.props, other) {
        PutLookup(n.props, name, ArgValue(args), other);
      }
      Success(n.(props := props))
    else Failure(UnknownAttribute(name, ClassName(n.kind)))
  }

  /**
   * `HTMLElement::__call($name, $args)`: `class` as for every element; any other name
   * is an attribute that gets `$args[0]`, or `true` without arguments. A name set
   * before keeps its position and takes the new value; a new name goes last. No name
   * is refused.
   */
  function HtmlSet(n: Node, name: string, args: seq<Value>): (r: Node)
    requires n.kind.Html?
    ensures name == "class" ==> r == SetClass(n, FirstArg(args))
    ensures name != "class" ==>
      Lookup(r.attrs, name) == Some(if |args| > 0 then args[0] else Bool(true)) &&
      r.(attrs := n.attrs) == n
    ensures name != "class" ==> forall other :: other != name ==> Lookup(r.attrs, other) == Lookup(n.attrs, other)
    ensures name != "class" && Lookup(n.attrs, name).Some? ==> Keys(r.attrs) == Keys(n.attrs)
    ensures name != "class" && Lookup(n.attrs, name).None? ==>
      r.attrs == n.attrs + [(name, if |args| > 0 then args[0] else Bool(true))]
  {
    if name == "class" then SetClass(n, FirstArg(args))
    else
      var v := if |args| > 0 then args[0] else Bool(true);
      PutLookup(n.attrs, name, v, name);
      forall other | other != name ensures Lookup(Put(n.attrs, name, v), other) == Lookup(n.attrs, other) {
        PutLookup(n.attrs, name, v, other);
      }
      n.(attrs := Put(n.attrs, name, v))
  }

  /**
   * `->children($a, $b)` stores the list of its arguments and `->children([$a])` the
   * list it is given, on every element that is not an HTML one; `->children()` would
   * store `true`.
   */
  lemma ChildrenThroughCall(n: Node, a: Value, b: Value)
    requires !n.kind.Html?
    ensures ElementSet(n, "children", [a, b]) == Success(n.(children := [a, b]))
    ensures ElementSet(n, "children", [List([a])]) == Success(n.(children := [a]))
    ensures ElementSet(n, "children", []) == Failure(NonListChildren("boolean"))
  {
  }

  /** `$el->name(...$args)` for a method the class does not define, dispatched on the class. */
  function Set(n: Node, name: string, args: seq<Value>): (r: Result<Node, Error>)
    ensures n.kind.Html? ==> r.Success?
    ensures r.Failure? && name != "children" ==> r.error == UnknownAttribute(name, ClassName(n.kind))
    ensures r.Failure? && name == "children" ==> r.error == NonListChildren(TypeName(ArgValue(args)))
    ensures r.Success? ==> r.value.kind == n.kind
    ensures r.Success? && (n.kind.Html? || name != "children") ==> r.value.children == n.children
    ensures r.Success? && !n.kind.Html? && name == "children" ==>
      ArgValue(args).List? && r.value.children == ArgValue(args).items
  {
    if n.kind.Html? then Success(HtmlSet(n, name, args)) else ElementSet(n, name, args)
  }

  /**
   * `Element::__construct(...$children)` (reached through `HTMLElement::__construct`
   * after `tag` and `isVoid` are fixed). A leading selector sets class and id (the id
   * being '' when the selector has no `#`); without one the class stays '' and the id
   * null. The other arguments are appended in order, so a void element given any of
   * them throws.
   */
  function Construct(k: Kind, args: seq<Value>): (r: Result<Node, Error>)
    ensures r.Failure? <==> k.Html? && k.isVoid && |ExtractSelector(args).rest| > 0
    ensures r.Failure? ==> r.error == VoidContent(k.tag)
    ensures r.Success? ==>
      r.value.kind == k && r.value.attrs == [] && r.value.props == InitProps(k) &&
      r.value.children == ExtractSelector(args).rest
    ensures r.Success? && |args| > 0 && IsSelector(args[0]) ==>
      r.value.cls == Str(ExtractSelector(args).cls) && r.value.id == Some(ExtractSelector(args).id) &&
      r.value.children == args[1..]
    ensures r.Success? && !(|args| > 0 && IsSelector(args[0])) ==>
      r.value.cls == Str("") && r.value.id == None && r.value.children == args
    ensures r.Success? ==> SizeSeq(r.value.children) <= SizeSeq(args)
  {
    var e := ExtractSelector(args);
    var n := if Truthy(Str(e.sel)) then Fresh(k).(cls := Str(e.cls), id := Some(e.id)) else Fresh(k);
    Append(n, e.rest)
  }

  /** A constructor that is not a void element's never throws. */
  lemma ConstructTotal(k: Kind, args: seq<Value>)
    requires !(k.Html? && k.isVoid)
    ensures Construct(k, args).Success?
  {
  }

  /** A void element accepts a selector and nothing else. */
  lemma VoidConstruct(tag: string, args: seq<Value>)
    ensures Construct(Html(tag, true), args).Success? <==>
      |args| == 0 || (|args| == 1 && IsSelector(args[0]))
  {
  }
}
