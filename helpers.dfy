/** The global helper functions the element code is built on (`enum`, `classList`, `when`, `at`, `map`, `array_of`). */
module Helpers {
  import opened Wrappers
  import opened Tree

  /** The arguments `enum` keeps, in order: those that are set and are not '' (`false` and "0" stay). */
  function Kept(args: seq<Value>): (r: seq<Value>)
    ensures |r| <= |args|
    ensures forall k :: 0 <= k < |r| ==> Present(r[k])
  {
    if args == [] then [] else (if Present(args[0]) then [args[0]] else []) + Kept(args[1..])
  }

  /** `enum` keeps exactly the present arguments. */
  lemma {:induction false} KeptMembers(args: seq<Value>)
    ensures forall v :: v in Kept(args) <==> v in args && Present(v)
  {
    if args != [] {
      KeptMembers(args[1..]);
      assert forall v :: v in args <==> v == args[0] || v in args[1..];
    }
  }

  /** PHP's `join($d, $xs)`. */
  function Join(d: string, xs: seq<string>): string
  {
    if xs == [] then "" else if |xs| == 1 then xs[0] else xs[0] + d + Join(d, xs[1..])
  }

  lemma {:induction false} JoinSnoc(d: string, xs: seq<string>, y: string)
    requires xs != []
    ensures Join(d, xs + [y]) == Join(d, xs) + d + y
  {
    if |xs| == 1 {
      assert xs + [y] == [xs[0], y];
    } else {
      assert (xs + [y])[1..] == xs[1..] + [y];
      JoinSnoc(d, xs[1..], y);
    }
  }

  lemma {:induction false} KeptAppend(xs: seq<Value>, ys: seq<Value>)
    ensures Kept(xs + ys) == Kept(xs) + Kept(ys)
  {
    if xs == [] {
      assert xs + ys == ys;
    } else {
      assert (xs + ys)[1..] == xs[1..] + ys;
      KeptAppend(xs[1..], ys);
    }
  }

  /**
   * The items as `join` turns them into text, each as string interpolation does; the
   * first item that is an object stops it with an error.
   */
  function ItemTexts(vs: seq<Value>): (r: Result<seq<string>, Error>)
    ensures r.Failure? <==> exists k :: 0 <= k < |vs| && Interpolate(vs[k]).Failure?
    ensures r.Success? ==> |r.value| == |vs| && forall k :: 0 <= k < |vs| ==> r.value[k] == Interpolate(vs[k]).value
  {
    if vs == [] then Success([])
    else if Interpolate(vs[0]).Failure? then Failure(Interpolate(vs[0]).error)
    else
      var rest := ItemTexts(vs[1..]);
      if rest.Failure? then rest else Success([Interpolate(vs[0]).value] + rest.value)
  }

  /** Converting two lists one after the other: the first error wins, otherwise the texts concatenate. */
  lemma {:induction false} ItemTextsAppend(a: seq<Value>, b: seq<Value>)
    ensures ItemTexts(a + b) ==
      if ItemTexts(a).Failure? then ItemTexts(a)
      else if ItemTexts(b).Failure? then ItemTexts(b)
      else Success(ItemTexts(a).value + ItemTexts(b).value)
  {
    if a == [] {
      assert a + b == b;
      if ItemTexts(b).Success? {
        assert [] + ItemTexts(b).value == ItemTexts(b).value;
      }
    } else {
      assert (a + b)[0] == a[0] && (a + b)[1..] == a[1..] + b;
      ItemTextsAppend(a[1..], b);
      if Interpolate(a[0]).Success? && ItemTexts(a[1..]).Success? && ItemTexts(b).Success? {
        var t := Interpolate(a[0]).value;
        assert [t] + (ItemTexts(a[1..]).value + ItemTexts(b).value) == ([t] + ItemTexts(a[1..]).value) + ItemTexts(b).value;
      }
    }
  }

  lemma ItemTextsSingle(v: Value)
    requires Interpolate(v).Success?
    ensures ItemTexts([v]) == Success([Interpolate(v).value])
  {
    assert [v][0] == v && [v][1..] == [];
    assert [Interpolate(v).value] + [] == [Interpolate(v).value];
  }

  /**
   * `enum($d, ...$args)`: the arguments that are neither null nor '', turned into text
   * and joined by `$d`. `false` is kept and prints as ''; an object among the kept
   * arguments makes `join` throw. With nothing kept the result is ''.
   */
  function Enum(d: string, args: seq<Value>): (r: Result<string, Error>)
    ensures r.Failure? <==> exists k :: 0 <= k < |args| && Present(args[k]) && Interpolate(args[k]).Failure?
    ensures (forall k :: 0 <= k < |args| ==> !Present(args[k])) ==> r == Success("")
  {
    var kept := Kept(args);
    KeptFailure(args);
    match ItemTexts(kept)
    case Failure(e) => Failure(e)
    case Success(ts) => Success(Join(d, ts))
  }

  /** Some kept argument cannot be turned into text exactly when some present argument cannot; none is kept when none is present. */
  lemma KeptFailure(args: seq<Value>)
    ensures (exists k :: 0 <= k < |Kept(args)| && Interpolate(Kept(args)[k]).Failure?) <==>
      (exists k :: 0 <= k < |args| && Present(args[k]) && Interpolate(args[k]).Failure?)
    ensures (forall k :: 0 <= k < |args| ==> !Present(args[k])) ==> Kept(args) == []
  {
    var kept := Kept(args);
    if exists k :: 0 <= k < |kept| && Interpolate(kept[k]).Failure? {
      var k :| 0 <= k < |kept| && Interpolate(kept[k]).Failure?;
      var j := KeptFrom(args, k);
      assert 0 <= j < |args| && Present(args[j]) && Interpolate(args[j]).Failure?;
    }
    if exists k :: 0 <= k < |args| && Present(args[k]) && Interpolate(args[k]).Failure? {
      var k :| 0 <= k < |args| && Present(args[k]) && Interpolate(args[k]).Failure?;
      var j := KeptAt(args, k);
      assert 0 <= j < |kept| && Interpolate(kept[j]).Failure?;
    }
    if kept != [] {
      var j := KeptFrom(args, 0);
      assert Present(args[j]);
    }
  }

  /** Every kept argument is a present argument. */
  lemma KeptFrom(args: seq<Value>, k: nat) returns (j: nat)
    requires k < |Kept(args)|
    ensures j < |args| && args[j] == Kept(args)[k] && Present(args[j])
  {
    KeptMembers(args);
    assert Kept(args)[k] in args;
    j :| 0 <= j < |args| && args[j] == Kept(args)[k];
  }

  /** Every present argument is kept. */
  lemma KeptAt(args: seq<Value>, k: nat) returns (j: nat)
    requires k < |args| && Present(args[k])
    ensures j < |Kept(args)| && Kept(args)[j] == args[k]
  {
    KeptMembers(args);
    assert args[k] in Kept(args);
    j :| 0 <= j < |Kept(args)| && Kept(args)[j] == args[k];
  }

  /** `enum` of two arguments, the form `addClass` uses, in closed form. */
  lemma EnumPair(d: string, a: Value, b: Value)
    requires Interpolate(a).Success? && Interpolate(b).Success?
    ensures Enum(d, [a, b]) == Success(
      if !Present(a) then Interpolate(b).value
      else if !Present(b) then Interpolate(a).value
      else Interpolate(a).value + d + Interpolate(b).value)
  {
    var args := [a, b];
    assert args[1..] == [b];
    assert [b][1..] == [];
    if Present(a) && Present(b) {
      assert Kept(args) == [a] + [b];
      ItemTextsAppend([a], [b]);
      ItemTextsSingle(a);
      ItemTextsSingle(b);
      var ta, tb := Interpolate(a).value, Interpolate(b).value;
      assert [ta] + [tb] == [ta, tb];
      assert [ta, tb][1..] == [tb];
      assert Join(d, [ta, tb]) == ta + d + tb;
    } else if Present(a) {
      assert Kept(args) == [a] + [];
      ItemTextsSingle(a);
    } else if Present(b) {
      assert Kept(args) == [] + [b];
      ItemTextsSingle(b);
    } else {
      assert Kept(args) == [];
      assert ItemTexts([]) == Success([]);
    }
  }

  /**
   * `enum` as a left fold: one more argument, when kept, is joined to the text so far
   * after the delimiter, or stands alone when nothing was kept before. The first
   * error wins.
   */
  lemma {:induction false} EnumSnoc(d: string, xs: seq<Value>, y: Value)
    ensures Enum(d, xs + [y]) ==
      match Enum(d, xs)
      case Failure(e) => Failure(e)
      case Success(e) =>
        if !Present(y) then Success(e)
        else
          match Interpolate(y)
          case Failure(f) => Failure(f)
          case Success(t) => Success(if Kept(xs) == [] then t else e + d + t)
  {
    KeptAppend(xs, [y]);
    var kx := Kept(xs);
    assert [y][1..] == [];
    if !Present(y) {
      assert Kept([y]) == [];
      assert kx + [] == kx;
    } else {
      assert Kept([y]) == [y];
      ItemTextsAppend(kx, [y]);
      if ItemTexts(kx).Success? && Interpolate(y).Success? {
        var ts := ItemTexts(kx).value;
        var t := Interpolate(y).value;
        ItemTextsSingle(y);
        if kx != [] {
          JoinSnoc(d, ts, t);
        } else {
          assert ts + [t] == [t];
        }
      }
    }
  }

  /** A dropped argument at the end changes nothing. */
  lemma EnumSnocDropped(d: string, xs: seq<Value>, y: Value)
    requires !Present(y)
    ensures Enum(d, xs + [y]) == Enum(d, xs)
  {
    EnumSnoc(d, xs, y);
  }

  /** A kept object at the end makes `enum` throw. */
  lemma EnumSnocFails(d: string, xs: seq<Value>, y: Value)
    requires Present(y) && Interpolate(y).Failure?
    ensures Enum(d, xs + [y]).Failure?
  {
    EnumSnoc(d, xs, y);
  }

  /** Once `enum` fails on a prefix, one more argument does not change that. */
  lemma EnumSnocFailed(d: string, xs: seq<Value>, y: Value)
    requires Enum(d, xs).Failure?
    ensures Enum(d, xs + [y]).Failure?
  {
    EnumSnoc(d, xs, y);
  }

  /** A kept argument at the end, after nothing kept, stands alone. */
  lemma EnumSnocFirst(d: string, xs: seq<Value>, y: Value)
    requires Enum(d, xs).Success? && Kept(xs) == []
    requires Present(y) && Interpolate(y).Success?
    ensures Enum(d, xs + [y]) == Success(Interpolate(y).value)
  {
    EnumSnoc(d, xs, y);
  }

  /** A kept argument at the end, after something kept before, follows the delimiter. */
  lemma EnumSnocKept(d: string, xs: seq<Value>, y: Value)
    requires Enum(d, xs).Success? && Kept(xs) != []
    requires Present(y) && Interpolate(y).Success?
    ensures Enum(d, xs + [y]) == Success(Enum(d, xs).value + d + Interpolate(y).value)
  {
    EnumSnoc(d, xs, y);
  }

  /** `enum` of strings: the non-empty ones joined, as a string `enum` on texts does. */
  lemma EnumTexts(d: string, a: string, b: string)
    ensures Enum(d, [Str(a), Str(b)]) == Success(if a == "" then b else if b == "" then a else a + d + b)
  {
    EnumPair(d, Str(a), Str(b));
  }

  /**
   * `classList(...$args)`: the enumeration prefixed by a dot, or '' when the
   * enumeration is falsy in PHP ('' or "0"); it fails where `enum` does.
   */
  function ClassList(args: seq<Value>): (r: Result<string, Error>)
    ensures r.Failure? <==> Enum(" ", args).Failure?
    ensures r.Success? ==> (r.value == "" <==> !Truthy(Str(Enum(" ", args).value)))
    ensures r.Success? && r.value != "" ==> r.value[0] == '.' && r.value[1..] == Enum(" ", args).value
  {
    match Enum(" ", args)
    case Failure(e) => Failure(e)
    case Success(l) => Success(if Truthy(Str(l)) then "." + l else "")
  }

  /** `when($exp, $a, $b)`: `$a` when `$exp` is set and not '', otherwise `$b`. */
  function When<T>(e: Value, a: T, b: T): (r: T)
    ensures Present(e) ==> r == a
    ensures !Present(e) ==> r == b
  {
    if Present(e) then a else b
  }

  /** A falsy but set condition still selects `$a`. */
  lemma WhenIgnoresTruthiness<T>(a: T, b: T)
    ensures When(Bool(false), a, b) == a
    ensures When(Int(0), a, b) == a
    ensures When(Str("0"), a, b) == a
    ensures When(Null, a, b) == b && When(Str(""), a, b) == b
  {
  }

  /**
   * `at($array, $key, $def)`: null for a null array; the stored value when the key
   * is set to something other than null; `$def` otherwise.
   */
  function At(arr: Option<seq<(string, Value)>>, key: string, def: Value): (r: Value)
    ensures arr.None? ==> r == Null
    ensures (arr.Some? && Lookup(arr.value, key).Some? && Lookup(arr.value, key).value != Null)
      ==> r == Lookup(arr.value, key).value
    ensures (arr.Some? && (Lookup(arr.value, key).None? || Lookup(arr.value, key).value == Null))
      ==> r == def
  {
    match arr
    case None => Null
    case Some(es) =>
      match Lookup(es, key)
      case Some(v) => if v != Null then v else def
      case None => def
  }

  /** `map($a, $fn)`: null for a null array, otherwise `$fn` applied to each item in place. */
  function MapList<A, B>(a: Option<seq<A>>, f: A -> B): (r: Option<seq<B>>)
    ensures r.None? <==> a.None?
    ensures a.Some? ==> |r.value| == |a.value|
    ensures a.Some? ==> forall i :: 0 <= i < |a.value| ==> r.value[i] == f(a.value[i])
  {
    match a
    case None => None
    case Some(xs) => Some(seq(|xs|, i requires 0 <= i < |xs| => f(xs[i])))
  }

  /** `array_of(...$x)`: its arguments, unchanged, as one list. */
  function ArrayOf(xs: seq<Value>): (r: Value)
    ensures r.List? && r.items == xs
  {
    List(xs)
  }
}
