/**
 * The PHP values an element tree is made of, the element snapshot itself, and the
 * few PHP runtime rules (truthiness, `empty()`, string interpolation, `gettype`) that
 * the element code relies on.
 */
module Tree {
  import opened Wrappers

  /** The exceptions the core throws, one constructor per throw site. */
  datatype Error =
    | UnknownAttribute(name: string, className: string)           // Element::__call
    | VoidContent(tag: string)                                     // HTMLElement::_
    | UnsupportedAttributeType(typeName: string, attr: string, tag: string) // HTMLElement::render
    | InvalidChildType(typeName: string)                           // Edge::render
    | FormFieldArity                                               // FormField::render
    | NotConvertibleToString(typeName: string)                     // "$x" on an object
    | NotAnObject(typeName: string)                                // method call on a non-object
    | NonListChildren(typeName: string)                            // `children` given a non-list (not modelled)

  /** The concrete PHP class of an element; the HTML subclasses all behave as `HTMLElement`. */
  datatype Kind =
    | Plain
    | Html(tag: string, isVoid: bool)
    | FormField
    | Panel

  /**
   * A PHP value as it can appear among an element's children, attributes or properties.
   * `List` is a PHP list, `Dict` a string-keyed PHP array (a class map, for one), `Obj`
   * an element, `Other` an object of any other class (named by `get_class`), and
   * `Resource` a resource with its handle number.
   */
  datatype Value =
    | Null
    | Bool(b: bool)
    | Int(i: int)
    | Str(s: string)
    | List(items: seq<Value>)
    | Dict(entries: seq<(string, Value)>)
    | Obj(node: Node)
    | Other(className: string)
    | Resource(handle: nat)

  /**
   * The state of one element object: the fields of `Element` (`id`, `class`,
   * `children`), those of `HTMLElement` (`attrs`; `tag` and `isVoid` live in the kind)
   * and the declared properties of the composites (`label`, `icon`, `body`). The class
   * holds whatever `_class` stored (a string, or any scalar or object passed to it).
   */
  datatype Node = Node(
    kind: Kind,
    id: Option<string>,
    cls: Value,
    children: seq<Value>,
    attrs: seq<(string, Value)>,
    props: seq<(string, Value)>)

  /** PHP's `gettype`, as quoted in the exception messages. */
  function TypeName(v: Value): string
  {
    match v
    case Null => "NULL"
    case Bool(_) => "boolean"
    case Int(_) => "integer"
    case Str(_) => "string"
    case List(_) => "array"
    case Dict(_) => "array"
    case Obj(_) => "object"
    case Other(_) => "object"
    case Resource(_) => "resource"
  }

  /** The name `get_class` gives for an element of this kind. */
  function ClassName(k: Kind): string
  {
    match k
    case Plain => "Edge\\Element"
    case Html(_, _) => "Edge\\HTML\\Interfaces\\HTMLElement"
    case FormField => "Edge\\FormField"
    case Panel => "Edge\\Panel"
  }

  /** PHP truthiness: what `if ($v)` accepts. */
  predicate Truthy(v: Value)
  {
    match v
    case Null => false
    case Bool(b) => b
    case Int(i) => i != 0
    case Str(s) => s != "" && s != "0"
    case List(xs) => |xs| > 0
    case Dict(es) => |es| > 0
    case Obj(_) => true
    case Other(_) => true
    case Resource(_) => true
  }

  /** PHP's `empty()` on a field holding a string or null. */
  predicate EmptyText(t: Option<string>)
  {
    t == None || t == Some("") || t == Some("0")
  }

  /** `isset($v) && $v !== ''`: the test `when` and `enum` apply. */
  predicate Present(v: Value)
  {
    v != Null && v != Str("")
  }

  function DigitChar(d: nat): char
    requires d < 10
  {
    "0123456789"[d]
  }

  /** Decimal text of a natural number, most significant digit first, with no leading zero. */
  function NatText(n: nat): (r: string)
    ensures |r| > 0
    ensures forall k :: 0 <= k < |r| ==> '0' <= r[k] <= '9'
    ensures r[0] == '0' <==> n == 0
    ensures r[0] == '0' ==> |r| == 1
  {
    if n < 10 then [DigitChar(n)] else NatText(n / 10) + [DigitChar(n % 10)]
  }

  /** The number a string of decimal digits denotes. */
  function DigitsValue(s: string): nat
    requires forall k :: 0 <= k < |s| ==> '0' <= s[k] <= '9'
  {
    if s == [] then 0 else 10 * DigitsValue(s[..|s| - 1]) + (s[|s| - 1] as int - '0' as int)
  }

  /** The number an integer's text denotes: a leading `-` negates the digits after it. */
  function TextValue(s: string): int
    requires |s| > 0
    requires forall k :: 0 <= k < |s| ==> ('0' <= s[k] <= '9') || (k == 0 && s[k] == '-')
  {
    if s[0] == '-' then -(DigitsValue(s[1..]) as int) else DigitsValue(s)
  }

  /** Reading the digits back gives the number: `NatText` loses nothing. */
  lemma {:induction false} NatTextValue(n: nat)
    ensures DigitsValue(NatText(n)) == n
  {
    if n >= 10 {
      NatTextValue(n / 10);
      var r := NatText(n);
      assert r[..|r| - 1] == NatText(n / 10);
    }
  }

  /** PHP's conversion of an integer to a string. */
  function IntText(i: int): (r: string)
    ensures |r| > 0
    ensures (r[0] == '-') <==> i < 0
    ensures forall k :: 0 <= k < |r| ==> ('0' <= r[k] <= '9') || (k == 0 && r[k] == '-')
  {
    if i < 0 then "-" + NatText(-i) else NatText(i)
  }

  /** The text of an integer denotes that integer. */
  lemma IntTextValue(i: int)
    ensures TextValue(IntText(i)) == i
  {
    if i < 0 {
      NatTextValue(-i);
      assert IntText(i)[1..] == NatText(-i);
    } else {
      NatTextValue(i);
    }
  }

  /**
   * The text a value gives inside a double-quoted PHP string: "Array" for arrays,
   * `Resource id #N` for a resource, an error for an object (no class here defines
   * `__toString`).
   */
  function Interpolate(v: Value): (r: Result<string, Error>)
    ensures r.Failure? <==> v.Obj? || v.Other?
    ensures r.Failure? ==> r.error.NotConvertibleToString?
    ensures v.Str? ==> r == Success(v.s)
    ensures v == Null || v == Bool(false) ==> r == Success("")
    ensures v.Int? ==> r == Success(IntText(v.i))
    ensures v.Resource? ==> r == Success("Resource id #" + NatText(v.handle))
  {
    match v
    case Null => Success("")
    case Bool(b) => Success(if b then "1" else "")
    case Int(i) => Success(IntText(i))
    case Str(s) => Success(s)
    case List(_) => Success("Array")
    case Dict(_) => Success("Array")
    case Obj(_) => Failure(NotConvertibleToString(ClassNameOf(v)))
    case Other(c) => Failure(NotConvertibleToString(c))
    case Resource(h) => Success("Resource id #" + NatText(h))
  }

  function ClassNameOf(v: Value): string
    requires v.Obj?
  {
    ClassName(v.node.kind)
  }

  // ---------------------------------------------------------------------------
  // Association lists: the ordered PHP arrays `attrs` and the declared properties.
  // ---------------------------------------------------------------------------

  /** The value stored under `k`, if any: that of the first entry with that key. */
  function Lookup(es: seq<(string, Value)>, k: string): (r: Option<Value>)
    ensures r.None? <==> forall j :: 0 <= j < |es| ==> es[j].0 != k
    ensures r.Some? ==>
      exists j :: 0 <= j < |es| && es[j] == (k, r.value) && forall i :: 0 <= i < j ==> es[i].0 != k
  {
    if es == [] then None
    else if es[0].0 == k then Some(es[0].1)
    else Lookup(es[1..], k)
  }

  /** The keys of an association list, in order. */
  function Keys(es: seq<(string, Value)>): (r: seq<string>)
    ensures |r| == |es|
    ensures forall j :: 0 <= j < |es| ==> r[j] == es[j].0
  {
    if es == [] then [] else [es[0].0] + Keys(es[1..])
  }

  /**
   * `$a[$k] = $v` on an ordered PHP array: an existing key keeps its position and gets
   * the new value, a new key is appended at the end.
   */
  function Put(es: seq<(string, Value)>, k: string, v: Value): (r: seq<(string, Value)>)
    ensures Lookup(es, k).Some? ==> |r| == |es| && Keys(r) == Keys(es)
    ensures Lookup(es, k).None? ==> r == es + [(k, v)]
  {
    if es == [] then [(k, v)]
    else if es[0].0 == k then [(k, v)] + es[1..]
    else [es[0]] + Put(es[1..], k, v)
  }

  lemma {:induction false} PutLookup(es: seq<(string, Value)>, k: string, v: Value, k': string)
    ensures Lookup(Put(es, k, v), k') == if k' == k then Some(v) else Lookup(es, k')
  {
    if es != [] && es[0].0 != k {
      PutLookup(es[1..], k, v, k');
    }
  }

  // ---------------------------------------------------------------------------
  // Size: the measure the renderer's recursion decreases. A composite weighs more
  // than the tree its own render() builds from its parts.
  // ---------------------------------------------------------------------------

  function Weight(k: Kind): nat
  {
    match k
    case Plain => 1
    case Html(_, _) => 1
    case FormField => 64
    case Panel => 16
  }

  function Size(v: Value): nat
    ensures Size(v) >= 1
  {
    match v
    case List(xs) => 1 + SizeSeq(xs)
    case Dict(es) => 1 + SizeAssoc(es)
    case Obj(n) => 1 + NodeSize(n)
    case _ => 1
  }

  function SizeSeq(xs: seq<Value>): nat
    ensures SizeSeq(xs) >= 1
  {
    if xs == [] then 1 else Size(xs[0]) + SizeSeq(xs[1..])
  }

  function SizeAssoc(es: seq<(string, Value)>): nat
    ensures SizeAssoc(es) >= 1
  {
    if es == [] then 1
    else
      var entry := es[0];
      assert entry.1 < entry;
      Size(entry.1) + SizeAssoc(es[1..])
  }

  /** An element weighs one more than its node. */
  lemma ObjSize(n: Node)
    ensures Size(Obj(n)) == NodeSize(n) + 1
  {
  }

  function NodeSize(n: Node): nat
  {
    Weight(n.kind) + SizeSeq(n.children) + SizeAssoc(n.attrs) + SizeAssoc(n.props)
  }
}
