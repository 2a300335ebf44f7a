/** What expansion does to markup and text together: the result, written out as a
    stream of tags, characters, comments and instructions, is the original's with
    every include replaced in place. */
module XIncludeMarkup {
  import opened Prelude
  import opened Arena
  import opened XInclude

  datatype Token = OpenTag(markup: Markup) | CloseTag | Leaf(kind: Kind) | Char(c: char)

  function Chars(s: string): (r: seq<Token>)
    ensures |r| == |s| && forall i :: 0 <= i < |s| ==> r[i] == Char(s[i])
  {
    seq(|s|, i requires 0 <= i < |s| => Char(s[i]))
  }

  /** A tree written out in document order. */
  function Stream(n: Node): (r: seq<Token>)
    ensures r != [] && !r[0].Char? && !r[0].CloseTag?
    decreases n, 0
  {
    if n.Other? then [Leaf(n.kind)] else [OpenTag(n.markup)] + (Chars(n.text) + (StreamOf(n.kids) + [CloseTag]))
  }

  function StreamOf(items: seq<Item>): seq<Token>
    decreases items, 1
  {
    if items == [] then [] else Stream(items[0].node) + (Chars(items[0].tail) + StreamOf(items[1..]))
  }

  function MixedStream(m: Mixed): seq<Token> {
    Chars(m.text) + StreamOf(m.items)
  }

  // ------------------------------------------------------------------
  // Streams of mixed content
  // ------------------------------------------------------------------

  lemma {:induction false} CharsConcat(s: string, t: string)
    ensures Chars(s + t) == Chars(s) + Chars(t)
  {
  }

  lemma {:induction false} Assoc3<T>(a: seq<T>, b: seq<T>, c: seq<T>)
    ensures a + (b + c) == (a + b) + c
  {
  }

  lemma {:induction false} StreamConcat(xs: seq<Item>, ys: seq<Item>)
    ensures StreamOf(xs + ys) == StreamOf(xs) + StreamOf(ys)
  {
    if xs == [] {
      assert xs + ys == ys;
    } else {
      var s, t, r := Stream(xs[0].node), Chars(xs[0].tail), StreamOf(xs[1..]);
      assert (xs + ys)[0] == xs[0] && (xs + ys)[1..] == xs[1..] + ys;
      StreamConcat(xs[1..], ys);
      Assoc4(s, t, r, StreamOf(ys));
    }
  }

  lemma {:induction false} Assoc4<T>(s: seq<T>, t: seq<T>, r: seq<T>, u: seq<T>)
    ensures s + (t + (r + u)) == (s + (t + r)) + u
  {
  }

  lemma {:induction false} OneItem(item: Item)
    ensures StreamOf([item]) == Stream(item.node) + Chars(item.tail)
  {
    assert [item][1..] == [];
    assert Chars(item.tail) + [] == Chars(item.tail);
  }

  lemma {:induction false} StreamAddTail(items: seq<Item>, s: string)
    requires items != []
    ensures StreamOf(AddTail(items, s)) == StreamOf(items) + Chars(s)
  {
    var n := |items| - 1;
    var last := items[n];
    assert items == items[..n] + [last] && AddTail(items, s) == items[..n] + [Item(last.node, last.tail + s)];
    StreamConcat(items[..n], [last]);
    StreamConcat(items[..n], [Item(last.node, last.tail + s)]);
    OneItem(last);
    OneItem(Item(last.node, last.tail + s));
    CharsConcat(last.tail, s);
    Assoc4(StreamOf(items[..n]), Stream(last.node), Chars(last.tail), Chars(s));
  }

  lemma {:induction false} CatStream(a: Mixed, b: Mixed)
    ensures MixedStream(Cat(a, b)) == MixedStream(a) + MixedStream(b)
  {
    if a.items == [] {
      CharsConcat(a.text, b.text);
      NoItems(a);
      Assoc3(Chars(a.text), Chars(b.text), StreamOf(b.items));
    } else {
      StreamConcat(AddTail(a.items, b.text), b.items);
      StreamAddTail(a.items, b.text);
      Assoc22(Chars(a.text), StreamOf(a.items), Chars(b.text), StreamOf(b.items));
    }
  }

  lemma {:induction false} NoItems(a: Mixed)
    requires a.items == []
    ensures MixedStream(a) == Chars(a.text)
  {
  }

  lemma {:induction false} Assoc22<T>(s: seq<T>, t: seq<T>, r: seq<T>, u: seq<T>)
    ensures s + ((t + r) + u) == (s + t) + (r + u)
  {
  }

  lemma {:induction false} OnlyText(s: string)
    ensures MixedStream(Mixed(s, [])) == Chars(s)
  {
  }

  lemma {:induction false} OnlyItem(item: Item)
    ensures MixedStream(Mixed("", [item])) == Stream(item.node) + Chars(item.tail)
  {
    OneItem(item);
    assert Chars("") == [];
  }

  // ------------------------------------------------------------------
  // The expected stream
  // ------------------------------------------------------------------

  /** What stands between the tags of `e` when every include below it is replaced:
      parse="xml" by the root element of the resource, parse="text" by its
      characters, an include that cannot be loaded by the content of its first
      fallback; an include's tail stays where it is. */
  function Inner(env: Env, e: Node, base: string, depth: nat): seq<Token>
    requires e.Elem?
    decreases Left(depth), 1, 0
  {
    Chars(e.text) + if depth > XINCLUDE_MAX_DEPTH then [] else InnerAll(env, e.kids, base, depth)
  }

  function InnerAll(env: Env, items: seq<Item>, base: string, depth: nat): seq<Token>
    requires depth <= XINCLUDE_MAX_DEPTH
    decreases Left(depth), 0, |items| + 1
  {
    if items == [] then []
    else InnerAll(env, items[..|items| - 1], base, depth) + InnerItem(env, items[|items| - 1], base, depth)
  }

  function InnerItem(env: Env, item: Item, base: string, depth: nat): seq<Token>
    requires depth <= XINCLUDE_MAX_DEPTH
    decreases Left(depth), 0, 0
  {
    (if item.node.Other? then [Leaf(item.node.kind)]
     else if item.node.markup.Include? then Referred(env, item.node, base, depth + 1)
     else Whole(item.node.markup, Inner(env, item.node, base, depth + 1)))
    + Chars(item.tail)
  }

  function Whole(markup: Markup, inner: seq<Token>): seq<Token> {
    [OpenTag(markup)] + inner + [CloseTag]
  }

  /** What stands in for an include, its tail apart. */
  function Referred(env: Env, inc: Node, base: string, depth: nat): seq<Token>
    requires IsInclude(inc)
    decreases Left(depth), 2, 0
  {
    var m := inc.markup;
    if m.href == None || env.read(env.resolve(m.href.value, base), base) == None then
      FallbackIsElement(inc.kids);
      if FindFallback(inc.kids).None? then [] else Inner(env, FindFallback(inc.kids).value, base, depth + 1)
    else
      var at := env.resolve(m.href.value, base);
      var data := env.read(at, base).value;
      if m.parse == Some("text") then
        var s := env.decode(data, if m.encoding == None || m.encoding == Some("") then "utf-8" else m.encoding.value);
        if s.None? then [] else Chars(s.value)
      else if env.parse(data).None? || !env.parse(data).value.Elem? then []
      else Whole(env.parse(data).value.markup, Inner(env, env.parse(data).value, at, depth + 1))
  }

  lemma {:induction false} WholeElement(n: Node, markup: Markup, inner: seq<Token>)
    requires n.Elem? && n.markup == markup && inner == Chars(n.text) + StreamOf(n.kids)
    ensures Stream(n) == Whole(markup, inner)
  {
    Assoc3(Chars(n.text), StreamOf(n.kids), [CloseTag]);
    Assoc3([OpenTag(markup)], inner, [CloseTag]);
  }

  /** On success the stream of the result is the expected one. */
  lemma {:induction false} MarkupIsSubstituted(env: Env, e: Node, base: string, depth: nat)
    requires e.Elem? && Expanded(env, e, base, depth).Ok?
    ensures Stream(Expanded(env, e, base, depth).value) == Whole(e.markup, Inner(env, e, base, depth))
    decreases Left(depth), 1, 0
  {
    var m := ExpandedAll(env, e.kids, base, depth).value;
    AllReferred(env, e.kids, base, depth);
    CatStream(Mixed(e.text, []), m);
    OnlyText(e.text);
    WholeElement(Expanded(env, e, base, depth).value, e.markup, Inner(env, e, base, depth));
  }

  lemma {:induction false} AllReferred(env: Env, items: seq<Item>, base: string, depth: nat)
    requires depth <= XINCLUDE_MAX_DEPTH && ExpandedAll(env, items, base, depth).Ok?
    ensures MixedStream(ExpandedAll(env, items, base, depth).value) == InnerAll(env, items, base, depth)
    decreases Left(depth), 0, |items| + 1
  {
    if items == [] {
      OnlyText("");
    } else {
      var front, last := items[..|items| - 1], items[|items| - 1];
      AllReferred(env, front, base, depth);
      ItemReferred(env, last, base, depth);
      CatStream(ExpandedAll(env, front, base, depth).value, ExpandedItem(env, last, base, depth).value);
    }
  }

  lemma {:induction false} ItemReferred(env: Env, item: Item, base: string, depth: nat)
    requires depth <= XINCLUDE_MAX_DEPTH && ExpandedItem(env, item, base, depth).Ok?
    ensures MixedStream(ExpandedItem(env, item, base, depth).value) == InnerItem(env, item, base, depth)
    decreases Left(depth), 0, 0
  {
    if item.node.Other? {
      OnlyItem(item);
    } else if item.node.markup.Include? {
      IncludeReferred(env, item.node, base, depth + 1);
      CatStream(Replacement(env, item.node, base, depth + 1).value, Mixed(item.tail, []));
      OnlyText(item.tail);
    } else {
      MarkupIsSubstituted(env, item.node, base, depth + 1);
      OnlyItem(Item(Expanded(env, item.node, base, depth + 1).value, item.tail));
    }
  }

  lemma {:induction false} FallbackReferred(env: Env, f: Node, base: string, depth: nat)
    requires f.Elem? && Expanded(env, f, base, depth).Ok?
    ensures MixedStream(Content(Expanded(env, f, base, depth).value)) == Inner(env, f, base, depth)
    decreases Left(depth), 1, 1
  {
    var m := ExpandedAll(env, f.kids, base, depth).value;
    AllReferred(env, f.kids, base, depth);
    CatStream(Mixed(f.text, []), m);
    OnlyText(f.text);
  }

  lemma {:induction false} IncludeReferred(env: Env, inc: Node, base: string, depth: nat)
    requires IsInclude(inc) && Replacement(env, inc, base, depth).Ok?
    ensures MixedStream(Replacement(env, inc, base, depth).value) == Referred(env, inc, base, depth)
    decreases Left(depth), 2, 0
  {
    var m := inc.markup;
    match Load(env, m.href, base)
    case None =>
      FallbackIsElement(inc.kids);
      FallbackReferred(env, FindFallback(inc.kids).value, base, depth + 1);
    case Some(data) =>
      if m.parse == Some("text") {
        OnlyText(Replacement(env, inc, base, depth).value.text);
      } else {
        var root, at := env.parse(data).value, env.resolve(m.href.value, base);
        MarkupIsSubstituted(env, root, at, depth + 1);
        OnlyItem(Item(Expanded(env, root, at, depth + 1).value, ""));
        assert Chars("") == [];
      }
  }

  // ------------------------------------------------------------------
  // Which includes can be replaced
  // ------------------------------------------------------------------

  /** The fallback that is used is the first among the children of the include. */
  lemma {:induction false} FirstFallback(items: seq<Item>, i: nat)
    requires i < |items| && items[i].node.Elem? && items[i].node.markup.Fallback?
    requires forall j :: 0 <= j < i ==> !(items[j].node.Elem? && items[j].node.markup.Fallback?)
    ensures FindFallback(items) == Some(items[i].node)
    decreases i
  {
    if i > 0 {
      assert !(items[0].node.Elem? && items[0].node.markup.Fallback?);
      FirstFallback(items[1..], i - 1);
    }
  }

  lemma {:induction false} NoFallback(items: seq<Item>)
    requires forall j :: 0 <= j < |items| ==> !(items[j].node.Elem? && items[j].node.markup.Fallback?)
    ensures FindFallback(items) == None
  {
    if items != [] {
      assert !(items[0].node.Elem? && items[0].node.markup.Fallback?);
      NoFallback(items[1..]);
    }
  }

  /** The errors of an include itself, in the order in which they are looked for. */
  lemma {:induction false} IncludeFailures(env: Env, inc: Node, base: string, depth: nat)
    requires IsInclude(inc)
    ensures var m := inc.markup; var r := Replacement(env, inc, base, depth);
      if m.href == None || env.read(env.resolve(m.href.value, base), base) == None then
        FindFallback(inc.kids) == None ==> r == Err(LoadFailed(m.href))
      else
        var data := env.read(env.resolve(m.href.value, base), base).value;
        var codec := if m.encoding == None || m.encoding == Some("") then "utf-8" else m.encoding.value;
        && (m.parse == Some("text") && env.decode(data, codec) == None ==> r == Err(DecodeFailed(m.href.value)))
        && (m.parse != None && m.parse != Some("xml") && m.parse != Some("text") ==> r == Err(UnsupportedParse(m.parse.value)))
        && ((m.parse == None || m.parse == Some("xml")) && (env.parse(data) == None || env.parse(data).value.Other?) ==> r == Err(Syntax))
  {
  }

  // ------------------------------------------------------------------
  // A stream determines its tree
  // ------------------------------------------------------------------

  /** Running text ends where the next tag begins. */
  lemma {:induction false} TextEnds(s: string, t: string, u: seq<Token>, v: seq<Token>)
    requires Chars(s) + u == Chars(t) + v
    requires u != [] && v != [] && !u[0].Char? && !v[0].Char?
    ensures s == t && u == v
  {
    var x, y := Chars(s) + u, Chars(t) + v;
    assert x[|s|] == u[0] && y[|t|] == v[0];
    assert forall i :: 0 <= i < |s| ==> x[i].Char?;
    assert forall i :: 0 <= i < |t| ==> y[i].Char?;
    assert |s| == |t|;
    assert x[|s|..] == u && y[|t|..] == v;
    forall i | 0 <= i < |s| ensures s[i] == t[i] {
      assert x[i] == Char(s[i]) && y[i] == Char(t[i]);
    }
  }

  lemma {:induction false} AfterFirst<T>(x: seq<T>, y: seq<T>, a: T, b: T)
    requires [a] + x == [b] + y
    ensures a == b && x == y
  {
    assert ([a] + x)[0] == a && ([b] + y)[0] == b;
    assert ([a] + x)[1..] == x && ([b] + y)[1..] == y;
  }

  /** Equal streams, whatever follows them, come from equal trees. */
  lemma {:induction false} StreamDetermines(x: Node, y: Node, u: seq<Token>, v: seq<Token>)
    requires Stream(x) + u == Stream(y) + v
    ensures x == y && u == v
    decreases x, 0
  {
    SameKindOfNode(x, y, u, v);
    if x.Other? {
      AfterFirst(u, v, Leaf(x.kind), Leaf(y.kind));
    } else {
      var rx, ry := StreamOf(x.kids) + [CloseTag], StreamOf(y.kids) + [CloseTag];
      Assoc3([OpenTag(x.markup)], Chars(x.text) + rx, u);
      Assoc3([OpenTag(y.markup)], Chars(y.text) + ry, v);
      AfterFirst((Chars(x.text) + rx) + u, (Chars(y.text) + ry) + v, OpenTag(x.markup), OpenTag(y.markup));
      Assoc3(Chars(x.text), rx, u);
      Assoc3(Chars(y.text), ry, v);
      BeforeClose(x.kids, u);
      BeforeClose(y.kids, v);
      TextEnds(x.text, y.text, rx + u, ry + v);
      ItemsDetermine(x.kids, y.kids, u, v);
    }
  }

  lemma {:induction false} SameKindOfNode(x: Node, y: Node, u: seq<Token>, v: seq<Token>)
    requires Stream(x) + u == Stream(y) + v
    ensures x.Other? <==> y.Other?
  {
    assert (Stream(x) + u)[0] == Stream(x)[0] && (Stream(y) + v)[0] == Stream(y)[0];
  }

  lemma {:induction false} BeforeClose(items: seq<Item>, u: seq<Token>)
    ensures var r := (StreamOf(items) + [CloseTag]) + u;
      r != [] && !r[0].Char? && (r[0].CloseTag? <==> items == [])
  {
    if items != [] {
      assert StreamOf(items)[0] == Stream(items[0].node)[0];
    }
  }

  lemma {:induction false} ItemsDetermine(xs: seq<Item>, ys: seq<Item>, u: seq<Token>, v: seq<Token>)
    requires (StreamOf(xs) + [CloseTag]) + u == (StreamOf(ys) + [CloseTag]) + v
    ensures xs == ys && u == v
    decreases xs, 1
  {
    BeforeClose(xs, u);
    BeforeClose(ys, v);
    if xs == [] {
      assert StreamOf(xs) + [CloseTag] == [CloseTag] && StreamOf(ys) + [CloseTag] == [CloseTag];
      AfterFirst(u, v, CloseTag, CloseTag);
    } else {
      var rx, ry := StreamOf(xs[1..]) + [CloseTag], StreamOf(ys[1..]) + [CloseTag];
      Unfolded(xs, u);
      Unfolded(ys, v);
      StreamDetermines(xs[0].node, ys[0].node, Chars(xs[0].tail) + (rx + u), Chars(ys[0].tail) + (ry + v));
      BeforeClose(xs[1..], u);
      BeforeClose(ys[1..], v);
      TextEnds(xs[0].tail, ys[0].tail, rx + u, ry + v);
      ItemsDetermine(xs[1..], ys[1..], u, v);
      assert xs == [xs[0]] + xs[1..] && ys == [ys[0]] + ys[1..];
    }
  }

  lemma {:induction false} Unfolded(xs: seq<Item>, u: seq<Token>)
    requires xs != []
    ensures (StreamOf(xs) + [CloseTag]) + u == Stream(xs[0].node) + (Chars(xs[0].tail) + ((StreamOf(xs[1..]) + [CloseTag]) + u))
  {
    Assoc5(Stream(xs[0].node), Chars(xs[0].tail), StreamOf(xs[1..]), [CloseTag], u);
  }

  lemma {:induction false} Assoc5<T>(a: seq<T>, b: seq<T>, c: seq<T>, d: seq<T>, e: seq<T>)
    ensures ((a + (b + c)) + d) + e == a + (b + ((c + d) + e))
  {
  }

  /** The result of processing is the one tree that is written out as expected. */
  lemma {:induction false} ResultIsDetermined(env: Env, e: Node, base: string, depth: nat, n: Node)
    requires e.Elem? && Processed(env, e, base, depth).Ok?
    ensures Processed(env, e, base, depth) == Ok(n) <==>
      Stream(n) == if depth == 0 && !HasInclude(e) then Stream(e) else Whole(e.markup, Inner(env, e, base, depth))
  {
    var r := Processed(env, e, base, depth).value;
    if !(depth == 0 && !HasInclude(e)) {
      MarkupIsSubstituted(env, e, base, depth);
    }
    if Stream(n) == Stream(r) {
      assert Stream(n) + [] == Stream(r) + [];
      StreamDetermines(n, r, [], []);
    }
  }
}
