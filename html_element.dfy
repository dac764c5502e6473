/**
 * The attribute part of `HTMLElement::render`: ` id="…"`, ` class="…"`, then every
 * attribute in map order, each serialised by the type of its value. Boolean attributes
 * take the value-less form of section 2.3.2 of the WHATWG HTML Living Standard.
 */
module HtmlElement {
  import opened Wrappers
  import opened Tree

  /** `htmlspecialchars` with `ENT_COMPAT | ENT_HTML5` on one character: `'` is left alone. */
  function EscapeChar(c: char): string
  {
    if c == '&' then "&amp;"
    else if c == '<' then "&lt;"
    else if c == '>' then "&gt;"
    else if c == '"' then "&quot;"
    else [c]
  }

  /** The characters the escaping replaces. */
  predicate Special(c: char)
  {
    c == '&' || c == '<' || c == '>' || c == '"'
  }

  /**
   * `htmlspecialchars($v, ENT_COMPAT | ENT_HTML5)` on valid text. The result cannot
   * close the quoted attribute or open a tag: it holds no `"`, `<` or `>`.
   */
  function Escape(s: string): (r: string)
    ensures forall k :: 0 <= k < |r| ==> r[k] != '"' && r[k] != '<' && r[k] != '>'
    ensures |r| >= |s|
  {
    if s == [] then [] else EscapeChar(s[0]) + Escape(s[1..])
  }

  /** Text without special characters passes through unchanged (the single quote among them). */
  lemma {:induction false} EscapePlain(s: string)
    requires forall k :: 0 <= k < |s| ==> !Special(s[k])
    ensures Escape(s) == s
  {
    if s != [] {
      EscapePlain(s[1..]);
      assert [s[0]] + s[1..] == s;
    }
  }

  /** Decoding the four entities the escaping produces: the inverse of `Escape`. */
  function Unescape(t: string): string
    decreases |t|
  {
    if t == [] then []
    else if |t| >= 5 && t[..5] == "&amp;" then "&" + Unescape(t[5..])
    else if |t| >= 4 && t[..4] == "&lt;" then "<" + Unescape(t[4..])
    else if |t| >= 4 && t[..4] == "&gt;" then ">" + Unescape(t[4..])
    else if |t| >= 6 && t[..6] == "&quot;" then "\"" + Unescape(t[6..])
    else [t[0]] + Unescape(t[1..])
  }

  lemma UnescapeEntity(e: string, c: char, rest: string)
    requires Special(c) && e == EscapeChar(c)
    ensures Unescape(e + rest) == [c] + Unescape(rest)
  {
    var t := e + rest;
    assert t[..|e|] == e && t[|e|..] == rest;
    if c == '&' {
      assert t[..5] == "&amp;";
    } else if c == '<' {
      assert t[..4] == "&lt;" && t[1] == 'l';
    } else if c == '>' {
      assert t[..4] == "&gt;" && t[1] == 'g';
    } else {
      assert t[..6] == "&quot;" && t[1] == 'q';
    }
  }

  lemma UnescapePlain(c: char, rest: string)
    requires c != '&'
    ensures Unescape([c] + rest) == [c] + Unescape(rest)
  {
    var t := [c] + rest;
    assert t[0] == c && t[1..] == rest;
    assert |t| >= 4 ==> t[..4][0] == c;
    assert |t| >= 5 ==> t[..5][0] == c;
    assert |t| >= 6 ==> t[..6][0] == c;
  }

  /** Escaping loses nothing: decoding the entities gives the original value back. */
  lemma {:induction false} EscapeRoundTrip(s: string)
    ensures Unescape(Escape(s)) == s
  {
    if s != [] {
      EscapeRoundTrip(s[1..]);
      if Special(s[0]) {
        UnescapeEntity(EscapeChar(s[0]), s[0], Escape(s[1..]));
      } else {
        assert Escape(s) == [s[0]] + Escape(s[1..]);
        UnescapePlain(s[0], Escape(s[1..]));
      }
      assert [s[0]] + s[1..] == s;
    }
  }

  /** The value types `render` can serialise (floating point is not modelled). */
  predicate Supported(v: Value)
  {
    v.Str? || v.Bool? || v.Int? || v.Null?
  }

  /**
   * One attribute: a string escaped and quoted, `true` as the bare name, an integer
   * as its digits, `false` and null as nothing, any other type an error naming the
   * type, the attribute and the tag. Names are never escaped.
   */
  function AttrText(k: string, v: Value, tag: string): (r: Result<string, Error>)
    ensures r.Failure? <==> !Supported(v)
    ensures r.Failure? ==> r.error == UnsupportedAttributeType(TypeName(v), k, tag)
    ensures v.Str? ==> r == Success(" " + k + "=\"" + Escape(v.s) + "\"")
    ensures v == Bool(true) ==> r == Success(" " + k)
    ensures v == Bool(false) || v == Null ==> r == Success("")
    ensures v.Int? ==> r == Success(" " + k + "=\"" + IntText(v.i) + "\"")
  {
    match v
    case Str(s) => Success(" " + k + "=\"" + Escape(s) + "\"")
    case Bool(b) => Success(if b then " " + k else "")
    case Int(i) => Success(" " + k + "=\"" + IntText(i) + "\"")
    case Null => Success("")
    case _ => Failure(UnsupportedAttributeType(TypeName(v), k, tag))
  }

  /**
   * The attributes in map order, concatenated. The first attribute whose value has
   * an unsupported type decides the error.
   */
  function AttrsText(attrs: seq<(string, Value)>, tag: string): (r: Result<string, Error>)
    ensures |attrs| == 1 ==> r == AttrText(attrs[0].0, attrs[0].1, tag)
  {
    if attrs == [] then Success("")
    else
      var init := attrs[..|attrs| - 1];
      assert |attrs| == 1 ==> init == [];
      var last := attrs[|attrs| - 1];
      match AttrsText(init, tag)
      case Failure(e) => Failure(e)
      case Success(t) =>
        match AttrText(last.0, last.1, tag)
        case Failure(e) => Failure(e)
        case Success(a) =>
          assert |attrs| == 1 ==> t == "" && t + a == a && last == attrs[0];
          Success(t + a)
  }

  /**
   * The serialisation fails exactly when some value has an unsupported type, and then
   * with the error of the first such value.
   */
  lemma {:induction false} AttrsTextFails(attrs: seq<(string, Value)>, tag: string)
    ensures AttrsText(attrs, tag).Failure? <==> exists j :: 0 <= j < |attrs| && !Supported(attrs[j].1)
    ensures AttrsText(attrs, tag).Failure? ==>
      exists j :: 0 <= j < |attrs| && !Supported(attrs[j].1) &&
        (forall i :: 0 <= i < j ==> Supported(attrs[i].1)) &&
        AttrsText(attrs, tag).error == UnsupportedAttributeType(TypeName(attrs[j].1), attrs[j].0, tag)
    decreases |attrs|
  {
    if attrs != [] {
      var init := attrs[..|attrs| - 1];
      AttrsTextFails(init, tag);
      assert forall j :: 0 <= j < |init| ==> init[j] == attrs[j];
    }
  }

  /** Once a prefix of the attributes fails, the whole list fails the same way. */
  lemma {:induction false} AttrsPrefixFailure(attrs: seq<(string, Value)>, i: nat, tag: string)
    requires i <= |attrs| && AttrsText(attrs[..i], tag).Failure?
    ensures AttrsText(attrs, tag) == AttrsText(attrs[..i], tag)
    decreases |attrs| - i
  {
    if i < |attrs| {
      assert attrs[..i + 1] == attrs[..i] + [attrs[i]];
      AttrsSnocFailure(attrs[..i], attrs[i], tag);
      AttrsPrefixFailure(attrs, i + 1, tag);
    } else {
      assert attrs[..i] == attrs;
    }
  }

  lemma AttrsSnocFailure(xs: seq<(string, Value)>, y: (string, Value), tag: string)
    requires AttrsText(xs, tag).Failure?
    ensures AttrsText(xs + [y], tag) == AttrsText(xs, tag)
  {
    assert (xs + [y])[..|xs|] == xs;
  }

  /**
   * The pieces follow map order: the attributes of a joined map serialise as those of
   * the first part followed by those of the second, and fail when either part does.
   */
  lemma {:induction false} AttrsTextAppend(a: seq<(string, Value)>, b: seq<(string, Value)>, tag: string)
    ensures AttrsText(a + b, tag).Success? <==> AttrsText(a, tag).Success? && AttrsText(b, tag).Success?
    ensures AttrsText(a + b, tag).Success? ==>
      AttrsText(a + b, tag).value == AttrsText(a, tag).value + AttrsText(b, tag).value
    decreases |b|
  {
    if b == [] {
      assert a + b == a;
    } else {
      var init := b[..|b| - 1];
      assert (a + b)[..|a + b| - 1] == a + init;
      assert (a + b)[|a + b| - 1] == b[|b| - 1];
      AttrsTextAppend(a, init, tag);
      if AttrsText(a + b, tag).Success? {
        var x, y := AttrsText(a, tag).value, AttrsText(init, tag).value;
        var z := AttrText(b[|b| - 1].0, b[|b| - 1].1, tag).value;
        assert (x + y) + z == x + (y + z);
      }
    }
  }

  /**
   * The `foreach ($this->attrs as $k => $v)` loop of `render`: it accumulates the
   * pieces and stops at the first unsupported value.
   */
  method SerializeAttributes(attrs: seq<(string, Value)>, tag: string) returns (r: Result<string, Error>)
    ensures r == AttrsText(attrs, tag)
  {
    var o := "";
    var i := 0;
    while i < |attrs|
      invariant 0 <= i <= |attrs|
      invariant AttrsText(attrs[..i], tag) == Success(o)
    {
      assert attrs[..i + 1][..i] == attrs[..i];
      assert attrs[..i + 1][i] == attrs[i];
      var (k, v) := attrs[i];
      var piece := "";
      match v {
        case Str(text) =>
          piece := " " + k + "=\"" + Escape(text) + "\"";
        case Bool(b) =>
          if b {
            piece := " " + k;
          }
        case Int(n) =>
          piece := " " + k + "=\"" + IntText(n) + "\"";
        case Null =>
        case _ =>
          AttrsPrefixFailure(attrs, i + 1, tag);
          return Failure(UnsupportedAttributeType(TypeName(v), k, tag));
      }
      o := o + piece;
      i := i + 1;
    }
    assert attrs[..i] == attrs;
    r := Success(o);
  }

  /** ` id="…"`, left out when the id is PHP-empty (null, '' or "0"); never escaped. */
  function IdAttr(id: Option<string>): (r: string)
    ensures r == "" <==> EmptyText(id)
  {
    if EmptyText(id) then "" else " id=\"" + id.value + "\""
  }

  /**
   * ` class="…"`, left out when the class is empty in PHP (null, `false`, 0, '', "0");
   * otherwise the class as text, never escaped. An object class cannot be turned into
   * text and throws.
   */
  function ClassAttr(cls: Value): (r: Result<string, Error>)
    ensures r.Failure? <==> cls.Obj? || cls.Other?
    ensures r.Failure? ==> r.error == Interpolate(cls).error
    ensures r.Success? ==> (r.value == "" <==> !Truthy(cls))
    ensures r.Success? && Truthy(cls) ==> r.value == " class=\"" + Interpolate(cls).value + "\""
  {
    if !Truthy(cls) then Success("")
    else
      match Interpolate(cls)
      case Failure(e) => Failure(e)
      case Success(t) => Success(" class=\"" + t + "\"")
  }

  /**
   * The whole attribute text of an HTML element: id, class, then the attributes. An
   * object class throws before any attribute is looked at; otherwise the first bad
   * attribute decides the error.
   */
  function OpenTagAttrs(n: Node): (r: Result<string, Error>)
    requires n.kind.Html?
    ensures r.Failure? <==> ClassAttr(n.cls).Failure? || AttrsText(n.attrs, n.kind.tag).Failure?
    ensures ClassAttr(n.cls).Failure? ==> r == Failure(ClassAttr(n.cls).error)
    ensures ClassAttr(n.cls).Success? && AttrsText(n.attrs, n.kind.tag).Failure? ==>
      r == Failure(AttrsText(n.attrs, n.kind.tag).error)
    ensures r.Success? ==>
      r.value == IdAttr(n.id) + ClassAttr(n.cls).value + AttrsText(n.attrs, n.kind.tag).value
  {
    match ClassAttr(n.cls)
    case Failure(e) => Failure(e)
    case Success(c) =>
      match AttrsText(n.attrs, n.kind.tag)
      case Failure(e) => Failure(e)
      case Success(a) => Success(IdAttr(n.id) + c + a)
  }
}
