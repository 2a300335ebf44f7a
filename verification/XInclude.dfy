/** XInclude processing: what expansion means, that the in-place loop computes
    it, and what it does to the text and the directives of a tree. */
module XInclude {
  import opened Prelude
  import opened Arena

  const XINCLUDE_MAX_DEPTH := 250

  type Bytes = seq<bv8>

  /** A child and its tail. */
  datatype Item = Item(node: Node, tail: string)

  datatype Markup =
    | Plain(name: QName, attrs: seq<Attr>)
    | Include(href: Option<string>, parse: Option<string>, encoding: Option<string>)
    | Fallback

  /** A comment or processing instruction, or an element with its leading text. */
  datatype Node = Other(kind: Kind) | Elem(markup: Markup, text: string, kids: seq<Item>)

  /** The world outside: URL resolution, reads (that may fail), codecs and the parser. */
  datatype Env = Env(
    resolve: (string, string) -> string,
    read: (string, string) -> Option<Bytes>,
    decode: (Bytes, string) -> Option<string>,
    parse: Bytes -> Option<Node>)

  datatype Error = TooDeep | LoadFailed(target: Option<string>) | DecodeFailed(source: string) | UnsupportedParse(kind: string) | Syntax

  // ------------------------------------------------------------------
  // Mixed content
  // ------------------------------------------------------------------

  /** Text followed by children with their tails. */
  datatype Mixed = Mixed(text: string, items: seq<Item>)

  function AddTail(items: seq<Item>, s: string): (r: seq<Item>)
    requires items != []
    ensures |r| == |items|
  {
    items[|items| - 1 := Item(items[|items| - 1].node, items[|items| - 1].tail + s)]
  }

  /** Running text joins: the text of `b` continues the last tail of `a`. */
  function Cat(a: Mixed, b: Mixed): Mixed {
    if a.items == [] then Mixed(a.text + b.text, b.items)
    else Mixed(a.text, AddTail(a.items, b.text) + b.items)
  }

  function Content(e: Node): Mixed
    requires e.Elem?
  {
    Mixed(e.text, e.kids)
  }

  lemma {:induction false} CatAssoc(a: Mixed, b: Mixed, c: Mixed)
    ensures Cat(Cat(a, b), c) == Cat(a, Cat(b, c))
  {
    if a.items == [] && b.items == [] {
      assert (a.text + b.text) + c.text == a.text + (b.text + c.text);
    } else if b.items == [] {
      var n := |a.items| - 1;
      assert (a.items[n].tail + b.text) + c.text == a.items[n].tail + (b.text + c.text);
      assert AddTail(AddTail(a.items, b.text), c.text) == AddTail(a.items, b.text + c.text);
    } else if a.items == [] {
    } else {
      assert AddTail(AddTail(a.items, b.text) + b.items, c.text) == AddTail(a.items, b.text) + AddTail(b.items, c.text);
    }
  }

  lemma {:induction false} CatItems(a: Mixed, ys: seq<Item>)
    ensures Cat(a, Mixed("", ys)) == Mixed(a.text, a.items + ys)
  {
    if a.items == [] {
      assert a.text + "" == a.text;
    } else {
      assert a.items[|a.items| - 1].tail + "" == a.items[|a.items| - 1].tail;
      assert AddTail(a.items, "") == a.items;
    }
  }

  // ------------------------------------------------------------------
  // What expansion means
  // ------------------------------------------------------------------

  predicate IsInclude(n: Node) { n.Elem? && n.markup.Include? }

  predicate HasInclude(n: Node) {
    IsInclude(n) || (n.Elem? && exists i :: 0 <= i < |n.kids| && HasInclude(n.kids[i].node))
  }

  /** The first fallback among the children of an include. */
  function FindFallback(items: seq<Item>): Option<Node> {
    if items == [] then None
    else if items[0].node.Elem? && items[0].node.markup.Fallback? then Some(items[0].node)
    else FindFallback(items[1..])
  }

  lemma {:induction false} FallbackIsElement(items: seq<Item>)
    ensures FindFallback(items).Some? ==> FindFallback(items).value.Elem?
  {
    if items != [] { FallbackIsElement(items[1..]); }
  }

  function Left(depth: nat): nat {
    if depth > XINCLUDE_MAX_DEPTH then 0 else XINCLUDE_MAX_DEPTH + 1 - depth
  }

  /** The bytes an include refers to; none if it has no target or reading fails. */
  function Load(env: Env, href: Option<string>, base: string): Option<Bytes> {
    if href.None? then None else env.read(env.resolve(href.value, base), base)
  }

  function ParseKind(m: Markup): string
    requires m.Include?
  {
    if m.parse.Some? then m.parse.value else "xml"
  }

  /** Expansion of the children of `e`; the element itself is never replaced. */
  function Expanded(env: Env, e: Node, base: string, depth: nat): (r: Result<Node, Error>)
    requires e.Elem?
    ensures r.Ok? ==> r.value.Elem? && r.value.markup == e.markup
    decreases Left(depth), 1, 0
  {
    if depth > XINCLUDE_MAX_DEPTH then Err(TooDeep)
    else
      match ExpandedAll(env, e.kids, base, depth)
      case Err(x) => Err(x)
      case Ok(m) =>
        var c := Cat(Mixed(e.text, []), m);
        Ok(Elem(e.markup, c.text, c.items))
  }

  function ExpandedAll(env: Env, items: seq<Item>, base: string, depth: nat): Result<Mixed, Error>
    requires depth <= XINCLUDE_MAX_DEPTH
    decreases Left(depth), 0, |items| + 1
  {
    if items == [] then Ok(Mixed("", []))
    else
      match ExpandedAll(env, items[..|items| - 1], base, depth)
      case Err(x) => Err(x)
      case Ok(m) =>
        match ExpandedItem(env, items[|items| - 1], base, depth)
        case Err(x) => Err(x)
        case Ok(k) => Ok(Cat(m, k))
  }

  /** What one child becomes in its parent's content. */
  function ExpandedItem(env: Env, item: Item, base: string, depth: nat): Result<Mixed, Error>
    requires depth <= XINCLUDE_MAX_DEPTH
    decreases Left(depth), 0, 0
  {
    if item.node.Other? then Ok(Mixed("", [item]))
    else if item.node.markup.Include? then
      match Replacement(env, item.node, base, depth + 1)
      case Err(x) => Err(x)
      case Ok(m) => Ok(Cat(m, Mixed(item.tail, [])))
    else
      match Expanded(env, item.node, base, depth + 1)
      case Err(x) => Err(x)
      case Ok(n) => Ok(Mixed("", [Item(n, item.tail)]))
  }

  /** What stands in for an include, its own tail apart. */
  function Replacement(env: Env, inc: Node, base: string, depth: nat): Result<Mixed, Error>
    requires IsInclude(inc)
    decreases Left(depth), 2, 0
  {
    var m := inc.markup;
    match Load(env, m.href, base)
    case None =>
      FallbackIsElement(inc.kids);
      if FindFallback(inc.kids).None? then Err(LoadFailed(m.href))
      else
        (match Expanded(env, FindFallback(inc.kids).value, base, depth + 1)
         case Err(x) => Err(x)
         case Ok(f) => Ok(Content(f)))
    case Some(data) =>
      if ParseKind(m) == "text" then
        (match env.decode(data, if m.encoding.Some? && m.encoding.value != "" then m.encoding.value else "utf-8")
         case None => Err(DecodeFailed(m.href.value))
         case Some(s) => Ok(Mixed(s, [])))
      else if ParseKind(m) != "xml" then Err(UnsupportedParse(ParseKind(m)))
      else if env.parse(data).None? || !env.parse(data).value.Elem? then Err(Syntax)
      else
        (match Expanded(env, env.parse(data).value, env.resolve(m.href.value, base), depth + 1)
         case Err(x) => Err(x)
         case Ok(root) => Ok(Mixed("", [Item(root, "")])))
  }

  /** The whole operation: a tree without includes is not even walked. */
  function Processed(env: Env, e: Node, base: string, depth: nat): Result<Node, Error>
    requires e.Elem?
  {
    if depth == 0 && !HasInclude(e) then Ok(e) else Expanded(env, e, base, depth)
  }

  // ------------------------------------------------------------------
  // The loop
  // ------------------------------------------------------------------

  /** Merge text into the character stream just before child `idx`. */
  method InsertText(text: string, items: seq<Item>, idx: nat, s: string) returns (text': string, items': seq<Item>)
    requires idx <= |items|
    ensures Mixed(text', items') == Cat(Cat(Mixed(text, items[..idx]), Mixed(s, [])), Mixed("", items[idx..]))
    ensures |items'| == |items|
  {
    CatItems(Cat(Mixed(text, items[..idx]), Mixed(s, [])), items[idx..]);
    assert items == items[..idx] + items[idx..];
    if s == "" {
      CatItems(Mixed(text, items[..idx]), []);
      assert items[..idx] + [] == items[..idx];
      return text, items;
    }
    if idx == 0 {
      return text + s, items;
    }
    text' := text;
    items' := items[idx - 1 := Item(items[idx - 1].node, items[idx - 1].tail + s)];
    assert items' == (AddTail(items[..idx], s) + []) + items[idx..];
  }

  /** Insert the children of a fallback one after the other. */
  method InsertKids(items: seq<Item>, idx: nat, kids: seq<Item>) returns (items': seq<Item>)
    requires idx <= |items|
    ensures items' == items[..idx] + kids + items[idx..]
  {
    items' := items;
    for offset := 0 to |kids|
      invariant items' == items[..idx] + kids[..offset] + items[idx..]
    {
      assert items'[..idx + offset] == items[..idx] + kids[..offset] && items'[idx + offset..] == items[idx..];
      items' := items'[..idx + offset] + [kids[offset]] + items'[idx + offset..];
      assert kids[..offset + 1] == kids[..offset] + [kids[offset]];
    }
    assert kids[..|kids|] == kids;
  }

  /** Splice a fallback's content in, its last tail continued by `tail`. */
  method SpliceFallback(text: string, items: seq<Item>, idx: nat, fb: Node, tail: string) returns (text': string, items': seq<Item>)
    requires fb.Elem? && idx <= |items|
    ensures Mixed(text', items') == Cat(Cat(Mixed(text, items[..idx]), Cat(Content(fb), Mixed(tail, []))), Mixed("", items[idx..]))
  {
    ghost var pre, post := Mixed(text, items[..idx]), items[idx..];
    text', items' := InsertText(text, items, idx, fb.text);
    ghost var mid := Cat(pre, Mixed(fb.text, []));
    CatItems(mid, post);
    MiddleSplit(text', items', mid, post, idx);
    if fb.kids == [] {
      text', items' := InsertText(text', items', idx, tail);
      CatAssoc(pre, Mixed(fb.text, []), Mixed(tail, []));
    } else {
      var n := |fb.kids|;
      var joined := AddTail(fb.kids, tail);
      items' := InsertKids(items', idx, fb.kids);
      items' := items'[idx + n - 1 := Item(fb.kids[n - 1].node, fb.kids[n - 1].tail + tail)];
      assert items' == mid.items + joined + post;
      CatItems(mid, joined);
      CatItems(Mixed(mid.text, mid.items + joined), post);
      CatAssoc(pre, Mixed(fb.text, []), Mixed("", joined));
      CatItems(Mixed(fb.text, []), joined);
      assert [] + joined == joined && joined + [] == joined;
    }
  }

  lemma {:induction false} MiddleSplit(text: string, items: seq<Item>, mid: Mixed, post: seq<Item>, idx: nat)
    requires Mixed(text, items) == Mixed(mid.text, mid.items + post) && |items| == idx + |post|
    ensures items[..idx] == mid.items && items[idx..] == post && text == mid.text
  {
  }

  /** The content of a parent in which the include at `idx` has been replaced. */
  ghost predicate Replaced(text: string, items: seq<Item>, idx: nat, m: Mixed, text': string, items': seq<Item>)
    requires idx < |items|
  {
    Mixed(text', items') == Cat(Cat(Mixed(text, items[..idx]), Cat(m, Mixed(items[idx].tail, []))), Mixed("", items[idx + 1..]))
  }

  method Remove(items: seq<Item>, idx: nat) returns (r: seq<Item>)
    requires idx < |items|
    ensures |r| == |items| - 1 && r[..idx] == items[..idx] && r[idx..] == items[idx + 1..]
  {
    r := items[..idx] + items[idx + 1..];
  }

  /** Replace the include at `idx` by what it refers to. */
  method ExpandInclude(env: Env, text: string, items: seq<Item>, idx: nat, base: string, depth: nat)
    returns (error: Option<Error>, text': string, items': seq<Item>)
    requires idx < |items| && IsInclude(items[idx].node)
    ensures match Replacement(env, items[idx].node, base, depth)
            case Err(x) => error == Some(x)
            case Ok(m) => error == None && Replaced(text, items, idx, m, text', items')
    requires depth > 0
    decreases Left(depth), 2, 0
  {
    var inc, tail := items[idx].node, items[idx].tail;
    var m := inc.markup;
    error, text' := None, text;
    var data := Load(env, m.href, base);
    items' := Remove(items, idx);
    ghost var rest := items';
    if data.None? {
      FallbackIsElement(inc.kids);
      var fallback := FindFallback(inc.kids);
      if fallback.None? {
        return Some(LoadFailed(m.href)), text', items';
      }
      var fb := Process(env, fallback.value, base, depth + 1);
      if fb.Err? {
        return Some(fb.error), text', items';
      }
      text', items' := SpliceFallback(text', items', idx, fb.value, tail);
      return;
    }
    if ParseKind(m) == "text" {
      var s := env.decode(data.value, if m.encoding.Some? && m.encoding.value != "" then m.encoding.value else "utf-8");
      if s.None? {
        return Some(DecodeFailed(m.href.value)), text', items';
      }
      text', items' := InsertText(text', items', idx, s.value + tail);
      return;
    }
    if ParseKind(m) != "xml" {
      return Some(UnsupportedParse(ParseKind(m))), text', items';
    }
    var included := env.parse(data.value);
    if included.None? || !included.value.Elem? {
      return Some(Syntax), text', items';
    }
    var root := Process(env, included.value, env.resolve(m.href.value, base), depth + 1);
    if root.Err? {
      return Some(root.error), text', items';
    }
    items' := items'[..idx] + [Item(root.value, tail)] + items'[idx..];
    RootSpliced(text, items, idx, root.value);
  }

  lemma {:induction false} RootSpliced(text: string, items: seq<Item>, idx: nat, root: Node)
    requires idx < |items|
    ensures Replaced(text, items, idx, Mixed("", [Item(root, "")]), text, items[..idx] + [Item(root, items[idx].tail)] + items[idx + 1..])
  {
    var k := [Item(root, items[idx].tail)];
    assert "" + items[idx].tail == items[idx].tail;
    assert Cat(Mixed("", [Item(root, "")]), Mixed(items[idx].tail, [])) == Mixed("", k) by {
      assert AddTail([Item(root, "")], items[idx].tail) + [] == k;
    }
    CatItems(Mixed(text, items[..idx]), k);
    CatItems(Mixed(text, items[..idx] + k), items[idx + 1..]);
  }

  /** Up to child `i` of `e` the content is expanded, the rest is as it was. */
  ghost predicate UpTo(env: Env, e: Node, base: string, depth: nat, i: nat, text: string, items: seq<Item>)
    requires e.Elem? && depth <= XINCLUDE_MAX_DEPTH && i <= |e.kids|
  {
    var m := ExpandedAll(env, e.kids[..i], base, depth);
    m.Ok? && Mixed(text, items) == Cat(Cat(Mixed(e.text, []), m.value), Mixed("", e.kids[i..]))
  }

  /** What is expanded so far. */
  function Done(env: Env, e: Node, base: string, depth: nat, i: nat): Mixed
    requires e.Elem? && depth <= XINCLUDE_MAX_DEPTH && i <= |e.kids| && ExpandedAll(env, e.kids[..i], base, depth).Ok?
  {
    Cat(Mixed(e.text, []), ExpandedAll(env, e.kids[..i], base, depth).value)
  }

  lemma {:induction false} NothingYet(env: Env, e: Node, base: string, depth: nat)
    requires e.Elem? && depth <= XINCLUDE_MAX_DEPTH
    ensures UpTo(env, e, base, depth, 0, e.text, e.kids)
  {
    assert e.kids[..0] == [] && e.kids[0..] == e.kids;
    assert e.text + "" == e.text;
  }

  lemma {:induction false} Ahead(env: Env, e: Node, base: string, depth: nat, i: nat, text: string, items: seq<Item>)
    requires e.Elem? && depth <= XINCLUDE_MAX_DEPTH && i <= |e.kids| && UpTo(env, e, base, depth, i, text, items)
    ensures |items| >= |e.kids| - i
    ensures var idx := |items| - (|e.kids| - i);
      Mixed(text, items[..idx]) == Done(env, e, base, depth, i) && items[idx..] == e.kids[i..]
  {
    CatItems(Done(env, e, base, depth, i), e.kids[i..]);
  }

  lemma {:induction false} Advance(env: Env, e: Node, base: string, depth: nat, i: nat, k: Mixed, text: string, items: seq<Item>)
    requires e.Elem? && depth <= XINCLUDE_MAX_DEPTH && i < |e.kids| && ExpandedAll(env, e.kids[..i], base, depth).Ok?
    requires ExpandedItem(env, e.kids[i], base, depth) == Ok(k)
    requires Mixed(text, items) == Cat(Cat(Done(env, e, base, depth, i), k), Mixed("", e.kids[i + 1..]))
    ensures UpTo(env, e, base, depth, i + 1, text, items)
  {
    assert e.kids[..i + 1][..i] == e.kids[..i] && e.kids[..i + 1][i] == e.kids[i];
    CatAssoc(Mixed(e.text, []), ExpandedAll(env, e.kids[..i], base, depth).value, k);
  }

  lemma {:induction false} StopsThere(env: Env, items: seq<Item>, base: string, depth: nat, i: nat, x: Error)
    requires depth <= XINCLUDE_MAX_DEPTH && i < |items|
    requires ExpandedAll(env, items[..i], base, depth).Ok? && ExpandedItem(env, items[i], base, depth) == Err(x)
    ensures ExpandedAll(env, items, base, depth) == Err(x)
  {
    assert items[..i + 1][..i] == items[..i] && items[..i + 1][i] == items[i];
    FailsOn(env, items, base, depth, i + 1, x);
  }

  lemma {:induction false} FailsOn(env: Env, items: seq<Item>, base: string, depth: nat, i: nat, x: Error)
    requires depth <= XINCLUDE_MAX_DEPTH && i <= |items| && ExpandedAll(env, items[..i], base, depth) == Err(x)
    ensures ExpandedAll(env, items, base, depth) == Err(x)
    decreases |items| - i
  {
    if i < |items| {
      assert items[..i + 1][..i] == items[..i];
      FailsOn(env, items, base, depth, i + 1, x);
    } else {
      assert items[..i] == items;
    }
  }

  lemma {:induction false} AllDone(env: Env, e: Node, base: string, depth: nat, text: string, items: seq<Item>)
    requires e.Elem? && depth <= XINCLUDE_MAX_DEPTH && UpTo(env, e, base, depth, |e.kids|, text, items)
    ensures Expanded(env, e, base, depth) == Ok(Elem(e.markup, text, items))
  {
    assert e.kids[..|e.kids|] == e.kids && e.kids[|e.kids|..] == [];
    var d := Done(env, e, base, depth, |e.kids|);
    CatItems(d, []);
    assert d.items + [] == d.items;
  }

  /** A child that is not an include stays in its place. */
  lemma {:induction false} InPlace(d: Mixed, item: Item, rest: seq<Item>)
    ensures Mixed(d.text, d.items + [item] + rest) == Cat(Cat(d, Mixed("", [item])), Mixed("", rest))
  {
    CatItems(d, [item]);
    CatItems(Mixed(d.text, d.items + [item]), rest);
  }

  /** Expand the `i`-th of the children listed at the start. */
  method Step(env: Env, e: Node, base: string, depth: nat, i: nat, text: string, items: seq<Item>)
    returns (error: Option<Error>, text': string, items': seq<Item>)
    requires e.Elem? && depth <= XINCLUDE_MAX_DEPTH && i < |e.kids| && UpTo(env, e, base, depth, i, text, items)
    ensures match error
            case None => UpTo(env, e, base, depth, i + 1, text', items')
            case Some(x) => Expanded(env, e, base, depth) == Err(x)
    decreases Left(depth), 0, 0
  {
    var child := e.kids[i];
    Ahead(env, e, base, depth, i, text, items);
    var idx := |items| - (|e.kids| - i);
    ghost var done, rest := Done(env, e, base, depth, i), e.kids[i + 1..];
    assert items[idx] == items[idx..][0] == child && items[idx + 1..] == items[idx..][1..] == rest;
    assert items == items[..idx] + [child] + rest;
    error, text', items' := None, text, items;
    if child.node.Other? {
      InPlace(done, child, rest);
      Advance(env, e, base, depth, i, Mixed("", [child]), text', items');
    } else if child.node.markup.Include? {
      error, text', items' := ExpandInclude(env, text, items, idx, base, depth + 1);
      if error.Some? {
        StopsThere(env, e.kids, base, depth, i, error.value);
      } else {
        Advance(env, e, base, depth, i, ExpandedItem(env, child, base, depth).value, text', items');
      }
    } else {
      var sub := Process(env, child.node, base, depth + 1);
      if sub.Err? {
        StopsThere(env, e.kids, base, depth, i, sub.error);
        error := Some(sub.error);
      } else {
        items' := items[idx := Item(sub.value, child.tail)];
        assert items' == items[..idx] + [Item(sub.value, child.tail)] + rest;
        InPlace(done, Item(sub.value, child.tail), rest);
        Advance(env, e, base, depth, i, Mixed("", [Item(sub.value, child.tail)]), text', items');
      }
    }
  }

  /** Expand the children of `e` one after the other, in its live child list. */
  method Process(env: Env, e: Node, base: string, depth: nat) returns (r: Result<Node, Error>)
    requires e.Elem?
    ensures r == Processed(env, e, base, depth)
    decreases Left(depth), 1, 0
  {
    if depth > XINCLUDE_MAX_DEPTH {
      return Err(TooDeep);
    }
    if depth == 0 && !HasInclude(e) {
      return Ok(e);
    }
    var text, items := e.text, e.kids;
    NothingYet(env, e, base, depth);
    for i := 0 to |e.kids|
      invariant UpTo(env, e, base, depth, i, text, items)
    {
      var error;
      error, text, items := Step(env, e, base, depth, i, text, items);
      if error.Some? {
        return Err(error.value);
      }
    }
    AllDone(env, e, base, depth, text, items);
    r := Ok(Elem(e.markup, text, items));
  }

  // ------------------------------------------------------------------
  // The text of the result
  // ------------------------------------------------------------------

  /** The character data of a subtree, in document order. */
  function TextIn(n: Node): string
    decreases n
  {
    if n.Other? then "" else n.text + TextOf(n.kids)
  }

  function TextOf(items: seq<Item>): string {
    if items == [] then "" else TextOf(items[..|items| - 1]) + (TextIn(items[|items| - 1].node) + items[|items| - 1].tail)
  }

  lemma {:induction false} TextOfConcat(xs: seq<Item>, ys: seq<Item>)
    ensures TextOf(xs + ys) == TextOf(xs) + TextOf(ys)
    decreases |ys|
  {
    if ys == [] {
      assert xs + ys == xs;
    } else {
      var front, last := ys[..|ys| - 1], ys[|ys| - 1];
      var all, t := xs + ys, TextIn(last.node) + last.tail;
      assert all[..|all| - 1] == xs + front && all[|all| - 1] == last;
      TextOfConcat(xs, front);
      assert TextOf(ys) == TextOf(front) + t;
      assert (TextOf(xs) + TextOf(front)) + t == TextOf(xs) + (TextOf(front) + t);
    }
  }

  lemma {:induction false} TextOfAddTail(items: seq<Item>, s: string)
    requires items != []
    ensures TextOf(AddTail(items, s)) == TextOf(items) + s
  {
    var n := |items| - 1;
    assert AddTail(items, s)[..n] == items[..n];
    Append3(TextOf(items[..n]), TextIn(items[n].node), items[n].tail, s);
  }

  lemma {:induction false} Append3(a: string, b: string, c: string, s: string)
    ensures a + (b + (c + s)) == (a + (b + c)) + s
  {
  }

  function MixedText(m: Mixed): string { m.text + TextOf(m.items) }

  lemma {:induction false} CatText(a: Mixed, b: Mixed)
    ensures MixedText(Cat(a, b)) == MixedText(a) + MixedText(b)
  {
    if a.items == [] {
      Append3(a.text, "", b.text, TextOf(b.items));
      assert a.text + "" == a.text;
      assert (a.text + b.text) + TextOf(b.items) == a.text + (b.text + TextOf(b.items));
    } else {
      TextOfConcat(AddTail(a.items, b.text), b.items);
      TextOfAddTail(a.items, b.text);
      var t, u, v := TextOf(a.items), b.text, TextOf(b.items);
      assert a.text + ((t + u) + v) == (a.text + t) + (u + v);
    }
  }

  /** The text of `e` in which every include stands for the text of its resource
      or fallback, itself expanded, and keeps its own tail. */
  function Substituted(env: Env, e: Node, base: string, depth: nat): string
    requires e.Elem?
    decreases Left(depth), 1, 0
  {
    e.text + if depth > XINCLUDE_MAX_DEPTH then "" else SubstitutedAll(env, e.kids, base, depth)
  }

  function SubstitutedAll(env: Env, items: seq<Item>, base: string, depth: nat): string
    requires depth <= XINCLUDE_MAX_DEPTH
    decreases Left(depth), 0, |items| + 1
  {
    if items == [] then ""
    else SubstitutedAll(env, items[..|items| - 1], base, depth) + SubstitutedItem(env, items[|items| - 1], base, depth)
  }

  function SubstitutedItem(env: Env, item: Item, base: string, depth: nat): string
    requires depth <= XINCLUDE_MAX_DEPTH
    decreases Left(depth), 0, 0
  {
    (if item.node.Other? then ""
     else if item.node.markup.Include? then Resource(env, item.node, base, depth + 1)
     else Substituted(env, item.node, base, depth + 1))
    + item.tail
  }

  function Resource(env: Env, inc: Node, base: string, depth: nat): string
    requires IsInclude(inc)
    decreases Left(depth), 2, 0
  {
    var m := inc.markup;
    match Load(env, m.href, base)
    case None =>
      FallbackIsElement(inc.kids);
      if FindFallback(inc.kids).None? then "" else Substituted(env, FindFallback(inc.kids).value, base, depth + 1)
    case Some(data) =>
      if ParseKind(m) == "text" then
        (match env.decode(data, if m.encoding.Some? && m.encoding.value != "" then m.encoding.value else "utf-8")
         case None => ""
         case Some(s) => s)
      else if env.parse(data).None? || !env.parse(data).value.Elem? then ""
      else Substituted(env, env.parse(data).value, env.resolve(m.href.value, base), depth + 1)
  }

  /** On success the text of the tree is the original's with every include
      replaced in place. */
  lemma {:induction false} TextIsSubstituted(env: Env, e: Node, base: string, depth: nat)
    requires e.Elem? && Expanded(env, e, base, depth).Ok?
    ensures TextIn(Expanded(env, e, base, depth).value) == Substituted(env, e, base, depth)
    decreases Left(depth), 1, 0
  {
    AllSubstituted(env, e.kids, base, depth);
    CatText(Mixed(e.text, []), ExpandedAll(env, e.kids, base, depth).value);
    assert e.text + "" == e.text;
  }

  lemma {:induction false} AllSubstituted(env: Env, items: seq<Item>, base: string, depth: nat)
    requires depth <= XINCLUDE_MAX_DEPTH && ExpandedAll(env, items, base, depth).Ok?
    ensures MixedText(ExpandedAll(env, items, base, depth).value) == SubstitutedAll(env, items, base, depth)
    decreases Left(depth), 0, |items| + 1
  {
    if items != [] {
      var front, last := items[..|items| - 1], items[|items| - 1];
      AllSubstituted(env, front, base, depth);
      ItemSubstituted(env, last, base, depth);
      CatText(ExpandedAll(env, front, base, depth).value, ExpandedItem(env, last, base, depth).value);
    }
  }

  lemma {:induction false} SingleText(item: Item)
    ensures MixedText(Mixed("", [item])) == TextIn(item.node) + item.tail
  {
    var t := TextIn(item.node) + item.tail;
    assert [item][..|[item]| - 1] == [];
    assert TextOf([item]) == "" + t == t;
    assert "" + t == t;
  }

  lemma {:induction false} ItemSubstituted(env: Env, item: Item, base: string, depth: nat)
    requires depth <= XINCLUDE_MAX_DEPTH && ExpandedItem(env, item, base, depth).Ok?
    ensures MixedText(ExpandedItem(env, item, base, depth).value) == SubstitutedItem(env, item, base, depth)
    decreases Left(depth), 0, 0
  {
    if item.node.Other? {
      SingleText(item);
    } else if item.node.markup.Include? {
      ResourceSubstituted(env, item.node, base, depth + 1);
      CatText(Replacement(env, item.node, base, depth + 1).value, Mixed(item.tail, []));
      assert item.tail + "" == item.tail;
    } else {
      TextIsSubstituted(env, item.node, base, depth + 1);
      SingleText(Item(Expanded(env, item.node, base, depth + 1).value, item.tail));
    }
  }

  lemma {:induction false} ResourceSubstituted(env: Env, inc: Node, base: string, depth: nat)
    requires IsInclude(inc) && Replacement(env, inc, base, depth).Ok?
    ensures MixedText(Replacement(env, inc, base, depth).value) == Resource(env, inc, base, depth)
    decreases Left(depth), 2, 0
  {
    var m := inc.markup;
    match Load(env, m.href, base)
    case None =>
      FallbackIsElement(inc.kids);
      TextIsSubstituted(env, FindFallback(inc.kids).value, base, depth + 1);
    case Some(data) =>
      if ParseKind(m) == "text" {
        var s := Replacement(env, inc, base, depth).value.text;
        assert s + "" == s;
      } else {
        var root, at := env.parse(data).value, env.resolve(m.href.value, base);
        TextIsSubstituted(env, root, at, depth + 1);
        SingleText(Item(Expanded(env, root, at, depth + 1).value, ""));
        var t := TextIn(Expanded(env, root, at, depth + 1).value);
        assert t + "" == t;
      }
  }

  // ------------------------------------------------------------------
  // The directives of the result
  // ------------------------------------------------------------------

  predicate AnyInclude(items: seq<Item>) {
    exists i :: 0 <= i < |items| && HasInclude(items[i].node)
  }

  lemma {:induction false} AnyOfCat(a: Mixed, b: Mixed)
    ensures AnyInclude(Cat(a, b).items) <==> AnyInclude(a.items) || AnyInclude(b.items)
  {
    var c := Cat(a, b).items;
    forall i | 0 <= i < |a.items| ensures c[i].node == a.items[i].node {
    }
    forall i | 0 <= i < |b.items| ensures c[|a.items| + i].node == b.items[i].node {
    }
    if AnyInclude(c) {
      var i :| 0 <= i < |c| && HasInclude(c[i].node);
      if i >= |a.items| { assert HasInclude(b.items[i - |a.items|].node); }
    }
    if AnyInclude(b.items) {
      var i :| 0 <= i < |b.items| && HasInclude(b.items[i].node);
      assert HasInclude(c[|a.items| + i].node);
    }
  }

  /** Some included document that is used has an include as its root. */
  predicate StrayRoot(env: Env, e: Node, base: string, depth: nat)
    requires e.Elem?
    decreases Left(depth), 1, 0
  {
    depth <= XINCLUDE_MAX_DEPTH && StrayAmong(env, e.kids, base, depth)
  }

  predicate StrayAmong(env: Env, items: seq<Item>, base: string, depth: nat)
    requires depth <= XINCLUDE_MAX_DEPTH
    decreases Left(depth), 0, |items| + 1
  {
    items != [] && (StrayAmong(env, items[..|items| - 1], base, depth) || StrayItem(env, items[|items| - 1].node, base, depth))
  }

  predicate StrayItem(env: Env, n: Node, base: string, depth: nat)
    requires depth <= XINCLUDE_MAX_DEPTH
    decreases Left(depth), 0, 0
  {
    n.Elem? && if n.markup.Include? then StrayResource(env, n, base, depth + 1) else StrayRoot(env, n, base, depth + 1)
  }

  predicate StrayResource(env: Env, inc: Node, base: string, depth: nat)
    requires IsInclude(inc)
    decreases Left(depth), 2, 0
  {
    var m := inc.markup;
    match Load(env, m.href, base)
    case None =>
      FallbackIsElement(inc.kids);
      FindFallback(inc.kids).Some? && StrayRoot(env, FindFallback(inc.kids).value, base, depth + 1)
    case Some(data) =>
      && ParseKind(m) != "text" && env.parse(data).Some? && env.parse(data).value.Elem?
      && (IsInclude(env.parse(data).value) || StrayRoot(env, env.parse(data).value, env.resolve(m.href.value, base), depth + 1))
  }

  /** An include remains below the start exactly if one is an included root. */
  lemma {:induction false} RemainingIncludes(env: Env, e: Node, base: string, depth: nat)
    requires e.Elem? && Expanded(env, e, base, depth).Ok?
    ensures AnyInclude(Expanded(env, e, base, depth).value.kids) <==> StrayRoot(env, e, base, depth)
    decreases Left(depth), 1, 0
  {
    RemainingAmong(env, e.kids, base, depth);
    AnyOfCat(Mixed(e.text, []), ExpandedAll(env, e.kids, base, depth).value);
  }

  lemma {:induction false} RemainingAmong(env: Env, items: seq<Item>, base: string, depth: nat)
    requires depth <= XINCLUDE_MAX_DEPTH && ExpandedAll(env, items, base, depth).Ok?
    ensures AnyInclude(ExpandedAll(env, items, base, depth).value.items) <==> StrayAmong(env, items, base, depth)
    decreases Left(depth), 0, |items| + 1
  {
    if items != [] {
      var front, last := items[..|items| - 1], items[|items| - 1];
      RemainingAmong(env, front, base, depth);
      RemainingItem(env, last, base, depth);
      AnyOfCat(ExpandedAll(env, front, base, depth).value, ExpandedItem(env, last, base, depth).value);
    }
  }

  lemma {:induction false} AnyOfOne(item: Item)
    ensures AnyInclude([item]) <==> HasInclude(item.node)
  {
    assert [item][0] == item;
  }

  lemma {:induction false} RemainingItem(env: Env, item: Item, base: string, depth: nat)
    requires depth <= XINCLUDE_MAX_DEPTH && ExpandedItem(env, item, base, depth).Ok?
    ensures AnyInclude(ExpandedItem(env, item, base, depth).value.items) <==> StrayItem(env, item.node, base, depth)
    decreases Left(depth), 0, 0
  {
    if item.node.Other? {
      AnyOfOne(item);
    } else if item.node.markup.Include? {
      RemainingResource(env, item.node, base, depth + 1);
      AnyOfCat(Replacement(env, item.node, base, depth + 1).value, Mixed(item.tail, []));
    } else {
      RemainingIncludes(env, item.node, base, depth + 1);
      AnyOfOne(Item(Expanded(env, item.node, base, depth + 1).value, item.tail));
    }
  }

  lemma {:induction false} RemainingResource(env: Env, inc: Node, base: string, depth: nat)
    requires IsInclude(inc) && Replacement(env, inc, base, depth).Ok?
    ensures AnyInclude(Replacement(env, inc, base, depth).value.items) <==> StrayResource(env, inc, base, depth)
    decreases Left(depth), 2, 0
  {
    var m := inc.markup;
    match Load(env, m.href, base)
    case None =>
      FallbackIsElement(inc.kids);
      RemainingIncludes(env, FindFallback(inc.kids).value, base, depth + 1);
    case Some(data) =>
      if ParseKind(m) != "text" {
        var root, at := env.parse(data).value, env.resolve(m.href.value, base);
        RemainingIncludes(env, root, at, depth + 1);
        AnyOfOne(Item(Expanded(env, root, at, depth + 1).value, ""));
      }
  }

  /** In particular none remains if no document has an include as its root. */
  lemma {:induction false} NoIncludeRemains(env: Env, e: Node, base: string, depth: nat)
    requires e.Elem? && Processed(env, e, base, depth).Ok?
    requires forall data :: env.parse(data).Some? ==> !IsInclude(env.parse(data).value)
    ensures !AnyInclude(Processed(env, e, base, depth).value.kids)
  {
    if depth == 0 && !HasInclude(e) {
    } else {
      RemainingIncludes(env, e, base, depth);
      NoStray(env, e, base, depth);
    }
  }

  lemma {:induction false} NoStray(env: Env, e: Node, base: string, depth: nat)
    requires e.Elem? && forall data :: env.parse(data).Some? ==> !IsInclude(env.parse(data).value)
    ensures !StrayRoot(env, e, base, depth)
    decreases Left(depth), 1, 0
  {
    if depth <= XINCLUDE_MAX_DEPTH { NoStrayAmong(env, e.kids, base, depth); }
  }

  lemma {:induction false} NoStrayAmong(env: Env, items: seq<Item>, base: string, depth: nat)
    requires depth <= XINCLUDE_MAX_DEPTH
    requires forall data :: env.parse(data).Some? ==> !IsInclude(env.parse(data).value)
    ensures !StrayAmong(env, items, base, depth)
    decreases Left(depth), 0, |items| + 1
  {
    if items != [] {
      NoStrayAmong(env, items[..|items| - 1], base, depth);
      var n := items[|items| - 1].node;
      if IsInclude(n) {
        NoStrayResource(env, n, base, depth + 1);
      } else if n.Elem? {
        NoStray(env, n, base, depth + 1);
      }
    }
  }

  lemma {:induction false} NoStrayResource(env: Env, inc: Node, base: string, depth: nat)
    requires IsInclude(inc) && forall data :: env.parse(data).Some? ==> !IsInclude(env.parse(data).value)
    ensures !StrayResource(env, inc, base, depth)
    decreases Left(depth), 2, 0
  {
    FallbackIsElement(inc.kids);
    match Load(env, inc.markup.href, base)
    case None =>
      if FindFallback(inc.kids).Some? { NoStray(env, FindFallback(inc.kids).value, base, depth + 1); }
    case Some(data) =>
      if env.parse(data).Some? && env.parse(data).value.Elem? {
        NoStray(env, env.parse(data).value, env.resolve(inc.markup.href.value, base), depth + 1);
      }
  }

  // ------------------------------------------------------------------
  // The early exit and the depth limit
  // ------------------------------------------------------------------

  /** No element sits more than the permitted number of levels down. */
  predicate Shallow(e: Node, depth: nat)
    requires e.Elem?
    decreases e
  {
    depth <= XINCLUDE_MAX_DEPTH && forall i :: 0 <= i < |e.kids| && e.kids[i].node.Elem? ==> Shallow(e.kids[i].node, depth + 1)
  }

  /** A tree without includes is left as it is, if it is not too deep to walk:
      leaving early changes the outcome for deeper trees only. */
  lemma {:induction false} WithoutIncludes(env: Env, e: Node, base: string, depth: nat)
    requires e.Elem? && !HasInclude(e)
    ensures Expanded(env, e, base, depth) == if Shallow(e, depth) then Ok(e) else Err(TooDeep)
    decreases e, |e.kids| + 1
  {
    if depth <= XINCLUDE_MAX_DEPTH {
      KidsWithoutIncludes(env, e, base, depth, |e.kids|);
      assert e.kids[..|e.kids|] == e.kids;
      CatItems(Mixed(e.text, []), e.kids);
      assert [] + e.kids == e.kids;
    }
  }

  predicate ShallowKids(e: Node, n: nat, depth: nat)
    requires e.Elem? && n <= |e.kids|
  {
    forall i :: 0 <= i < n && e.kids[i].node.Elem? ==> Shallow(e.kids[i].node, depth + 1)
  }

  lemma {:induction false} KidsWithoutIncludes(env: Env, e: Node, base: string, depth: nat, n: nat)
    requires e.Elem? && !HasInclude(e) && n <= |e.kids| && depth <= XINCLUDE_MAX_DEPTH
    ensures ExpandedAll(env, e.kids[..n], base, depth) == if ShallowKids(e, n, depth) then Ok(Mixed("", e.kids[..n])) else Err(TooDeep)
    decreases e, n
  {
    if n > 0 {
      var kid := e.kids[n - 1];
      KidsWithoutIncludes(env, e, base, depth, n - 1);
      assert !HasInclude(kid.node);
      if kid.node.Elem? { WithoutIncludes(env, kid.node, base, depth + 1); }
      OneKidMore(env, e.kids[..n - 1], kid, base, depth, ShallowKids(e, n - 1, depth), kid.node.Elem? ==> Shallow(kid.node, depth + 1));
      assert e.kids[..n] == e.kids[..n - 1] + [kid];
    }
  }

  lemma {:induction false} OneKidMore(env: Env, front: seq<Item>, kid: Item, base: string, depth: nat, frontFits: bool, kidFits: bool)
    requires depth <= XINCLUDE_MAX_DEPTH
    requires ExpandedAll(env, front, base, depth) == if frontFits then Ok(Mixed("", front)) else Err(TooDeep)
    requires ExpandedItem(env, kid, base, depth) == if kidFits then Ok(Mixed("", [kid])) else Err(TooDeep)
    ensures ExpandedAll(env, front + [kid], base, depth) == if frontFits && kidFits then Ok(Mixed("", front + [kid])) else Err(TooDeep)
  {
    assert (front + [kid])[..|front|] == front;
    CatItems(Mixed("", front), [kid]);
  }

  /** A document that includes itself is refused by the depth limit. */
  lemma {:induction false} SelfInclusionIsRefused(env: Env, href: string, data: Bytes, name: QName, attrs: seq<Attr>, text: string, tail: string,
                                                  base: string, depth: nat)
    requires forall b :: env.read(env.resolve(href, b), b) == Some(data)
    requires env.parse(data) == Some(Elem(Plain(name, attrs), text, [Item(Elem(Include(Some(href), None, None), "", []), tail)]))
    ensures Expanded(env, env.parse(data).value, base, depth) == Err(TooDeep)
    decreases Left(depth)
  {
    if depth <= XINCLUDE_MAX_DEPTH {
      var root := env.parse(data).value;
      SelfInclusionIsRefused(env, href, data, name, attrs, text, tail, env.resolve(href, base), depth + 2);
      assert Replacement(env, root.kids[0].node, base, depth + 1) == Err(TooDeep);
      assert ExpandedItem(env, root.kids[0], base, depth) == Err(TooDeep);
      assert root.kids[..|root.kids| - 1] == [] && ExpandedAll(env, [], base, depth) == Ok(Mixed("", []));
    }
  }

  /** An include that is itself the root of an included document stays. */
  lemma {:induction false} IncludedRootStays(env: Env, name: QName, href: string, data: Bytes, base: string)
    requires env.read(env.resolve(href, base), base) == Some(data)
    requires env.parse(data) == Some(Elem(Include(None, None, None), "", []))
    ensures var e := Elem(Plain(name, []), "", [Item(Elem(Include(Some(href), None, None), "", []), "")]);
      Processed(env, e, base, 0).Ok? && AnyInclude(Processed(env, e, base, 0).value.kids)
  {
    var root := env.parse(data).value;
    var inc := Item(Elem(Include(Some(href), None, None), "", []), "");
    var e := Elem(Plain(name, []), "", [inc]);
    assert HasInclude(e) by { assert HasInclude(e.kids[0].node); }
    assert ExpandedAll(env, [], env.resolve(href, base), 2) == Ok(Mixed("", []));
    assert "" + "" == "";
    assert Expanded(env, root, env.resolve(href, base), 2) == Ok(root);
    assert Replacement(env, inc.node, base, 1) == Ok(Mixed("", [Item(root, "")]));
    assert e.kids[..0] == [];
    assert ExpandedAll(env, e.kids, base, 0).Ok?;
    assert StrayResource(env, inc.node, base, 1);
    assert StrayAmong(env, e.kids, base, 0);
    RemainingIncludes(env, e, base, 0);
  }
}
