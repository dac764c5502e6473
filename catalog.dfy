/**
 * The factory functions of the HTML catalog: one per tag, each building an
 * `HTMLElement` with that tag; the fifteen void elements of section 13.1.2 of the
 * WHATWG HTML Living Standard that the catalog covers are built with `isVoid` set.
 * Also `h`, `row`, `column`, `panel` and `form_field`.
 */
module Catalog {
  import opened Wrappers
  import opened Tree
  import opened Selector
  import opened ElementOps

  /** The factories that pass `isVoid = true`. */
  const VoidTags: set<string> := {
    "area", "base", "br", "wbr", "embed", "hr", "img", "input",
    "keygen", "link", "meta", "param", "source", "col", "track"
  }

  /**
   * The factory for `tag` (`a(...)`, `br(...)`, `var_(...)`, one per tag the catalog
   * lists): an HTML element
   * with that tag, void exactly when the tag is one of the fifteen void tags.
   */
  function Tag(tag: string, args: seq<Value>): (r: Result<Node, Error>)
    ensures r.Success? ==> r.value.kind == Html(tag, tag in VoidTags)
    ensures r.Failure? <==> tag in VoidTags && |ExtractSelector(args).rest| > 0
  {
    Construct(Html(tag, tag in VoidTags), args)
  }

  /** The void table: `col` is void while `colgroup` is not; `var_` builds a `var`. */
  lemma TagTable()
    ensures Tag("col", []).value.kind == Html("col", true)
    ensures Tag("colgroup", []).value.kind == Html("colgroup", false)
    ensures Tag("var", []).value.kind.tag == "var"
  {
  }

  /** `h($tag, ...$args)`: a non-void HTML element with exactly that tag; it never throws. */
  function H(tag: string, args: seq<Value>): (r: Node)
    ensures r.kind == Html(tag, false)
    ensures r.children == ExtractSelector(args).rest
    ensures r.attrs == [] && r.props == []
    ensures SizeSeq(r.children) <= SizeSeq(args)
  {
    Construct(Html(tag, false), args).value
  }

  /** A non-void factory is `h` with its tag. */
  lemma NonVoidFactory(tag: string, args: seq<Value>)
    requires tag !in VoidTags
    ensures Tag(tag, args) == Success(H(tag, args))
  {
  }

  /** `row(...$args)`: a div whose selector is always `.row`. */
  function Row(args: seq<Value>): (r: Node)
    ensures r.kind == Html("div", false) && r.cls == Str("row") && r.id == Some("")
    ensures r.children == args
  {
    ClassOnlySelector(Str(".row"), args);
    assert ".row"[1..] == "row";
    H("div", [Str(".row")] + args)
  }

  /** A caller's own leading selector given to `row` is not parsed: it stays a text child. */
  lemma RowKeepsSelectorAsText(sel: string, rest: seq<Value>)
    requires IsSelector(Str(sel))
    ensures Row([Str(sel)] + rest).cls == Str("row")
    ensures Row([Str(sel)] + rest).children == [Str(sel)] + rest
  {
  }

  /** `column(...$args)`: a div given the arguments as they are, so a leading selector applies. */
  function Column(args: seq<Value>): (r: Node)
    ensures r == H("div", args)
  {
    H("div", args)
  }

  lemma ColumnAppliesSelector(rest: seq<Value>)
    ensures Column([Str(".x")] + rest).cls == Str("x")
    ensures Column([Str(".x")] + rest).children == rest
  {
    ClassOnlySelector(Str(".x"), rest);
    assert ".x"[1..] == "x";
  }

  /** `panel(...$args)`: a `Panel`, built by the plain element constructor. */
  function NewPanel(args: seq<Value>): (r: Node)
    ensures r.kind == Panel && r.children == ExtractSelector(args).rest
    ensures Lookup(r.props, "body") == Some(Null)
  {
    Construct(Panel, args).value
  }

  /** `form_field(...$args)`: a `FormField`, built by the plain element constructor. */
  function NewFormField(args: seq<Value>): (r: Node)
    ensures r.kind == FormField && r.children == ExtractSelector(args).rest
    ensures Lookup(r.props, "label") == Some(Null) && Lookup(r.props, "icon") == Some(Null)
  {
    Construct(FormField, args).value
  }
}
