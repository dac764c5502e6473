/**
 * `Element::extractSelector`: recognising a leading `.class#id` argument. The regular
 * expression `/ ?#(\S+) ?/` that `preg_replace_callback` applies to the selector is
 * written out here as a scan over the characters.
 */
module Selector {
  import opened Wrappers
  import opened Tree

  /** PCRE's `\s` without the UTF-8 flag: space, tab, line feed, vertical tab, form feed, carriage return. */
  predicate IsSpace(c: char)
  {
    c == ' ' || c == '\t' || c == '\n' || c == '\r' || c as int == 11 || c as int == 12
  }

  /** The length of the longest prefix of `s` without whitespace: what the greedy `\S+` takes. */
  function RunLen(s: string): (n: nat)
    ensures n <= |s|
    ensures forall k :: 0 <= k < n ==> !IsSpace(s[k])
    ensures n < |s| ==> IsSpace(s[n])
  {
    if s == [] || IsSpace(s[0]) then 0 else 1 + RunLen(s[1..])
  }

  /**
   * A match of ` ?#(\S+) ?` that starts at the first character of `s`: its length and
   * its capture. The optional leading space is taken when it leads to a match; the
   * capture is every non-space character after the `#`; one trailing space is taken.
   */
  function MatchAt(s: string): (m: Option<(nat, string)>)
    ensures m.Some? ==> 2 <= m.value.0 <= |s|
    ensures m.Some? ==> |m.value.1| > 0 && forall k :: 0 <= k < |m.value.1| ==> !IsSpace(m.value.1[k])
    ensures m.Some? ==> s[0] == '#' || (s[0] == ' ' && s[1] == '#')
    ensures m.Some? ==>
      var lead := if s[0] == '#' then 0 else 1;
      var end := lead + 1 + |m.value.1|;
      m.value.1 == s[lead + 1..][..RunLen(s[lead + 1..])] &&
      m.value.0 == (if end < |s| && s[end] == ' ' then end + 1 else end)
    ensures m.None? ==> !(|s| >= 2 && s[0] == '#' && !IsSpace(s[1]))
    ensures m.None? ==> !(|s| >= 3 && s[0] == ' ' && s[1] == '#' && !IsSpace(s[2]))
  {
    var lead := if |s| >= 3 && s[0] == ' ' && s[1] == '#' && !IsSpace(s[2]) then 1 else 0;
    if lead == 1 || (|s| >= 2 && s[0] == '#' && !IsSpace(s[1])) then
      assert (lead == 0) == (s[0] == '#');
      var start := lead + 1;
      var t := s[start..];
      assert t[0] == s[start] && !IsSpace(t[0]);
      var cap := t[..RunLen(t)];
      assert forall k :: 0 <= k < |cap| ==> cap[k] == t[k];
      var end := start + |cap|;
      Some((if end < |s| && s[end] == ' ' then end + 1 else end, cap))
    else
      None
  }

  /**
   * `preg_replace_callback('/ ?#(\S+) ?/', ...)` over `s`: every non-overlapping match,
   * found left to right, is deleted; the id is the capture of the last match, `None`
   * when nothing matched. The text is `s` itself exactly when nothing matched, and
   * every match removes at least two characters.
   */
  function Strip(s: string): (r: (string, Option<string>))
    ensures |r.0| <= |s|
    ensures r.1.None? ==> r.0 == s
    ensures r.1.Some? ==> |r.0| + 2 <= |s|
    decreases |s|
  {
    if s == [] then ("", None)
    else
      match MatchAt(s)
      case None =>
        var rest := Strip(s[1..]);
        ([s[0]] + rest.0, rest.1)
      case Some(m) =>
        var rest := Strip(s[m.0..]);
        (rest.0, if rest.1.Some? then rest.1 else Some(m.1))
  }

  /**
   * One step of the scan at a match: the match is deleted, the scan goes on after it,
   * and its capture is the id unless a later match supplies one. With `StripKeep`
   * this describes `Strip` completely.
   */
  lemma StripAtMatch(s: string)
    requires MatchAt(s).Some?
    ensures var m := MatchAt(s).value;
      var rest := Strip(s[m.0..]);
      Strip(s) == (rest.0, if rest.1.Some? then rest.1 else Some(m.1))
  {
  }

  /** A text without `#` is left alone: no id and no deletion. */
  lemma {:induction false} StripWithoutHash(s: string)
    requires forall k :: 0 <= k < |s| ==> s[k] != '#'
    ensures Strip(s) == (s, None)
  {
    if s != [] {
      assert MatchAt(s).None?;
      StripWithoutHash(s[1..]);
      assert [s[0]] + s[1..] == s;
    }
  }

  /** `#x` occurs somewhere in `s`. */
  ghost predicate FollowsHash(x: string, s: string)
  {
    exists i {:trigger s[i]} :: 0 <= i && i + 1 + |x| <= |s| && s[i] == '#' && s[i + 1..i + 1 + |x|] == x
  }

  lemma FollowsHashShift(x: string, s: string, m: nat)
    requires m <= |s| && FollowsHash(x, s[m..])
    ensures FollowsHash(x, s)
  {
    var t := s[m..];
    var i :| 0 <= i && i + 1 + |x| <= |t| && t[i] == '#' && t[i + 1..i + 1 + |x|] == x;
    assert s[m + i] == '#';
    assert s[m + i + 1..m + i + 1 + |x|] == t[i + 1..i + 1 + |x|];
  }

  lemma MatchFollowsHash(s: string)
    requires MatchAt(s).Some?
    ensures FollowsHash(MatchAt(s).value.1, s)
  {
    var lead := if s[0] == '#' then 0 else 1;
    var x := MatchAt(s).value.1;
    assert s[lead + 1..lead + 1 + |x|] == s[lead + 1..][..|x|];
    assert s[lead] == '#' && s[lead + 1..lead + 1 + |x|] == x;
  }

  /** The id found is a non-empty run of non-space characters that follows a `#` in `s`. */
  lemma {:induction false} StripIdOccurs(s: string)
    requires Strip(s).1.Some?
    ensures |Strip(s).1.value| > 0
    ensures forall k :: 0 <= k < |Strip(s).1.value| ==> !IsSpace(Strip(s).1.value[k])
    ensures FollowsHash(Strip(s).1.value, s)
    decreases |s|
  {
    match MatchAt(s)
    case None =>
      StripIdOccurs(s[1..]);
      FollowsHashShift(Strip(s).1.value, s, 1);
    case Some(m) =>
      if Strip(s[m.0..]).1.Some? {
        StripIdOccurs(s[m.0..]);
        FollowsHashShift(Strip(s).1.value, s, m.0);
      } else {
        MatchFollowsHash(s);
      }
  }

  /** `\S+` stops at the first space: a run without whitespace followed by a space is taken whole. */
  lemma {:induction false} RunLenStops(x: string, rest: string)
    requires forall k :: 0 <= k < |x| ==> !IsSpace(x[k])
    requires rest != [] && IsSpace(rest[0])
    ensures RunLen(x + rest) == |x|
  {
    if x == [] {
      assert x + rest == rest;
    } else {
      assert (x + rest)[0] == x[0] && (x + rest)[1..] == x[1..] + rest;
      RunLenStops(x[1..], rest);
    }
  }

  /**
   * A match `#x ` (or ` #x `) is deleted whole and the scan goes on after it: the id is
   * the one found later in the text if there is one, and `x` otherwise. So every match
   * disappears from the class text and the last capture is the id.
   */
  lemma StripMatch(p: string, x: string, t: string)
    requires p == "" || p == " "
    requires |x| > 0 && forall k :: 0 <= k < |x| ==> !IsSpace(x[k])
    ensures Strip(p + "#" + x + " " + t) ==
      (Strip(t).0, if Strip(t).1.Some? then Strip(t).1 else Some(x))
  {
    var s := p + "#" + x + " " + t;
    var lead := |p|;
    assert MatchAt(s) == Some((lead + 2 + |x|, x)) by {
      assert s[lead] == '#' && s[lead + 1] == x[0];
      assert s[lead + 1..] == x + (" " + t);
      RunLenStops(x, " " + t);
      assert (x + (" " + t))[..|x|] == x;
      assert s[lead + 1 + |x|] == ' ';
    }
    assert s[lead + 2 + |x|..] == t;
  }

  /**
   * A match `#x` (or ` #x`) that ends the text, or that other whitespace than a space
   * follows, ends right after `x`: the optional trailing space takes nothing, so a tab
   * or line feed after the id stays in the class text.
   */
  lemma StripMatchUnspaced(p: string, x: string, t: string)
    requires p == "" || p == " "
    requires |x| > 0 && forall k :: 0 <= k < |x| ==> !IsSpace(x[k])
    requires t == [] || (IsSpace(t[0]) && t[0] != ' ')
    ensures MatchAt(p + "#" + x + t) == Some((|p| + 1 + |x|, x))
    ensures Strip(p + "#" + x + t) ==
      (Strip(t).0, if Strip(t).1.Some? then Strip(t).1 else Some(x))
  {
    var s := p + "#" + x + t;
    MatchUnspaced(p, x, t);
    StripAtMatch(s);
    assert s[|p| + 1 + |x|..] == t;
  }

  lemma MatchUnspaced(p: string, x: string, t: string)
    requires p == "" || p == " "
    requires |x| > 0 && forall k :: 0 <= k < |x| ==> !IsSpace(x[k])
    requires t == [] || (IsSpace(t[0]) && t[0] != ' ')
    ensures MatchAt(p + "#" + x + t) == Some((|p| + 1 + |x|, x))
  {
    var s := p + "#" + x + t;
    var lead := |p|;
    assert s[lead] == '#' && s[lead + 1] == x[0];
    assert s[lead + 1..] == x + t;
    if t == [] {
      assert x + t == x;
      RunLenAll(x);
    } else {
      RunLenStops(x, t);
    }
    assert (x + t)[..|x|] == x;
    assert lead + 1 + |x| < |s| ==> s[lead + 1 + |x|] == t[0];
  }

  /** No match starts at a character that is neither `#` nor a space. */
  lemma NoMatchAt(s: string)
    requires s != [] && s[0] != '#' && s[0] != ' '
    ensures MatchAt(s).None?
  {
  }

  /** A character that is neither `#` nor a space starts no match and stays in the class text. */
  lemma StripConsPlain(c: char, v: string)
    requires c != '#' && c != ' '
    ensures Strip([c] + v).0 == [c] + Strip(v).0
    ensures Strip([c] + v).1 == Strip(v).1
  {
    var s := [c] + v;
    NoMatchAt(s);
    StripKeep(s);
    assert s[1..] == v;
  }

  lemma HeadTail(w: string, u: string)
    requires w != []
    ensures w + u == [w[0]] + (w[1..] + u)
  {
    assert [w[0]] + w[1..] == w;
  }

  /** Characters that are neither `#` nor a space start no match: they stay, in order, before what the rest gives. */
  lemma {:induction false} StripPlainPrefix(w: string, u: string)
    requires forall k :: 0 <= k < |w| ==> w[k] != '#' && w[k] != ' '
    ensures Strip(w + u).0 == w + Strip(u).0
    ensures Strip(w + u).1 == Strip(u).1
    decreases |w|
  {
    if w == [] {
      assert w + u == u;
    } else {
      StripPlainPrefix(w[1..], u);
      StripConsPlain(w[0], w[1..] + u);
      HeadTail(w, u);
      HeadTail(w, Strip(u).0);
    }
  }

  /** `a #x #y`: both matches are deleted, the class text is `a` and the id the last capture, `y`. */
  lemma StripTwoIds()
    ensures Strip("a #x #y") == ("a", Some("y"))
  {
    var y := "#y";
    StripHashRun(y);
    assert y[1..] == "y";
    StripLeadingClass('a', "x", y);
    assert ['a'] + (" " + "#" + "x" + " " + y) == "a #x #y";
    assert ['a'] + "" == "a";
  }

  /** A class character, then ` #x ` and the rest: the character stays and the match is deleted. */
  lemma StripLeadingClass(c: char, x: string, t: string)
    requires c != '#' && c != ' '
    requires |x| > 0 && forall k :: 0 <= k < |x| ==> !IsSpace(x[k])
    ensures Strip([c] + (" " + "#" + x + " " + t)) ==
      ([c] + Strip(t).0, if Strip(t).1.Some? then Strip(t).1 else Some(x))
  {
    var u := " " + "#" + x + " " + t;
    StripMatch(" ", x, t);
    var s := [c] + u;
    assert s[0] == c && s[1..] == u;
    assert MatchAt(s).None?;
    StripKeep(s);
  }

  /** The selector text without its leading dot: `$sel` after `substr($sel, 1)`. */
  function Body(sel: string): string
  {
    if |sel| > 0 && sel[0] == '.' then sel[1..] else sel
  }

  /** A first argument is a selector when it is a string starting with `.` or `#`. */
  predicate IsSelector(v: Value)
  {
    v.Str? && |v.s| > 0 && (v.s[0] == '.' || v.s[0] == '#')
  }

  /** `[full selector, CSS classes, id]` plus the argument list as `array_shift` leaves it. */
  datatype Extraction = Extraction(sel: string, cls: string, id: string, rest: seq<Value>)

  /**
   * `extractSelector(&$args)`. An empty list, a non-string first argument and a
   * string not starting with `.` or `#` (the empty string included) all give
   * `('', '', '')` and leave the list untouched; a selector is shifted off the list,
   * the rest keeping its order, and split into class text and id.
   */
  function ExtractSelector(args: seq<Value>): (r: Extraction)
    ensures !(|args| > 0 && IsSelector(args[0])) ==> r == Extraction("", "", "", args)
    ensures |args| > 0 && IsSelector(args[0]) ==>
      r.sel == args[0].s && r.rest == args[1..] &&
      r.cls == Strip(Body(args[0].s)).0 && r.id == (match Strip(Body(args[0].s)).1 case Some(x) => x case None => "")
    ensures Truthy(Str(r.sel)) <==> |args| > 0 && IsSelector(args[0])
  {
    if |args| > 0 && IsSelector(args[0]) then
      var sel := args[0].s;
      var (cls, id) := Strip(Body(sel));
      Extraction(sel, cls, match id case Some(x) => x case None => "", args[1..])
    else
      Extraction("", "", "", args)
  }

  /** Without a `#`, the class text is the selector minus its leading dot and the id is ''. */
  lemma ClassOnlySelector(v: Value, rest: seq<Value>)
    requires v.Str? && |v.s| > 0 && v.s[0] == '.'
    requires forall k :: 0 <= k < |v.s| ==> v.s[k] != '#'
    ensures ExtractSelector([v] + rest) == Extraction(v.s, v.s[1..], "", rest)
  {
    assert ([v] + rest)[1..] == rest;
    StripWithoutHash(v.s[1..]);
  }

  lemma {:induction false} RunLenAll(s: string)
    requires forall k :: 0 <= k < |s| ==> !IsSpace(s[k])
    ensures RunLen(s) == |s|
  {
    if s != [] {
      RunLenAll(s[1..]);
    }
  }

  /** A `#` followed by non-space characters up to the end is one match, deleted whole. */
  lemma StripHashRun(s: string)
    requires |s| >= 2 && s[0] == '#'
    requires forall k :: 1 <= k < |s| ==> !IsSpace(s[k])
    ensures MatchAt(s) == Some((|s|, s[1..]))
    ensures Strip(s) == ("", Some(s[1..]))
  {
    RunLenAll(s[1..]);
    assert s[1..][..|s[1..]|] == s[1..];
    assert s[|s|..] == "";
  }

  /** One step of the scan over a character that starts no match. */
  lemma StripKeep(s: string)
    requires s != [] && MatchAt(s).None?
    ensures Strip(s) == ([s[0]] + Strip(s[1..]).0, Strip(s[1..]).1)
  {
  }

  lemma StripDotted()
    ensures Strip("a.b#x") == ("a.b", Some("x"))
  {
    StripHashRun("#x");
    assert "#x"[1..] == "x";
    assert "b#x"[1..] == "#x" && !IsSpace('#');
    assert Strip("#x") == ("", Some("x"));
    StripKeep("b#x");
    assert Strip("b#x").0 == ['b'] + "" == "b";
    assert ".b#x"[1..] == "b#x";
    StripKeep(".b#x");
    assert Strip(".b#x").0 == ['.'] + "b" == ".b";
    assert "a.b#x"[1..] == ".b#x";
    StripKeep("a.b#x");
    assert Strip("a.b#x").0 == ['a'] + ".b" == "a.b";
  }

  /** `.a.b#x`: the class text keeps its inner dot, the id follows the `#`. */
  lemma SelectorDotted(rest: seq<Value>)
    ensures ExtractSelector([Str(".a.b#x")] + rest) == Extraction(".a.b#x", "a.b", "x", rest)
  {
    assert ([Str(".a.b#x")] + rest)[1..] == rest;
    assert ".a.b#x"[1..] == "a.b#x";
    StripDotted();
  }

  /** `#x`: an id and no class. */
  lemma SelectorIdOnly(rest: seq<Value>)
    ensures ExtractSelector([Str("#x")] + rest) == Extraction("#x", "", "x", rest)
  {
    assert ([Str("#x")] + rest)[1..] == rest;
    StripHashRun("#x");
    assert "#x"[1..] == "x";
  }

  /** `#x.y`: the id run is greedy and takes the dot along. */
  lemma SelectorGreedy(rest: seq<Value>)
    ensures ExtractSelector([Str("#x.y")] + rest) == Extraction("#x.y", "", "x.y", rest)
  {
    assert ([Str("#x.y")] + rest)[1..] == rest;
    StripHashRun("#x.y");
    assert "#x.y"[1..] == "x.y";
  }

  /** `.a #x #y`: class `a` and, of the two ids, the last one, `y`. */
  lemma SelectorTwoIds(rest: seq<Value>)
    ensures ExtractSelector([Str(".a #x #y")] + rest) == Extraction(".a #x #y", "a", "y", rest)
  {
    assert ([Str(".a #x #y")] + rest)[1..] == rest;
    assert ".a #x #y"[1..] == "a #x #y";
    StripTwoIds();
  }

  /** A string starting with neither `.` nor `#` is an ordinary first child. */
  lemma SelectorPlain(rest: seq<Value>)
    ensures ExtractSelector([Str("plain text")] + rest) == Extraction("", "", "", [Str("plain text")] + rest)
  {
  }
}
