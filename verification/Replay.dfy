/** Building a tree from parse events: once as iterparse replays them, applying
    the options on the way, and once with one node per event and no merging. */
module Replay {
  import opened Prelude
  import opened Arena
  import opened ParseOptions

  datatype Event =
    | StartNamespace(prefix: Option<string>, uri: string)
    | EndNamespace
    | StartElement(name: QName, attrs: seq<Attr>, decls: seq<Decl>)
    | EndElement(name: QName)
    | TextEvent(content: string)
    | CDataEvent(content: string)
    | CommentEvent(content: string)
    | PIEvent(target: string, data: Option<string>)

  /** The open elements, outermost first, each with the children completed so
      far; the completed top-level nodes; and the next arena index. */
  datatype Building = Building(open: seq<Tree>, tops: seq<Tree>, next: Id)

  function Grown(t: Tree, x: Tree): Tree {
    t.(kids := t.kids + [x])
  }

  /** Complete `x` below the innermost open element, or at the top level. */
  function AddChild(b: Building, x: Tree): Building {
    if b.open == [] then b.(tops := b.tops + [x])
    else b.(open := b.open[|b.open| - 1 := Grown(b.open[|b.open| - 1], x)])
  }

  function Leaf(b: Building, k: Kind): Tree {
    Node(b.next, k, [])
  }

  function AddLeaf(b: Building, k: Kind): Building {
    AddChild(b, Leaf(b, k)).(next := b.next + 1)
  }

  /** Character data: dropped outside the root, merged into a text node that is
      the last child, otherwise a new text node. */
  function AddText(b: Building, s: string): Building {
    if b.open == [] then b
    else
      var t := b.open[|b.open| - 1];
      var n := |t.kids|;
      if n > 0 && t.kids[n - 1].kind.Text? then
        var x := t.kids[n - 1].(kind := Text(t.kids[n - 1].kind.text + s));
        b.(open := b.open[|b.open| - 1 := t.(kids := t.kids[n - 1 := x])])
      else AddLeaf(b, Text(s))
  }

  function Open(b: Building, k: Kind): Building {
    Building(b.open + [Node(b.next, k, [])], b.tops, b.next + 1)
  }

  function Close(b: Building): Building
    requires b.open != []
  {
    AddChild(b.(open := b.open[..|b.open| - 1]), b.open[|b.open| - 1])
  }

  /** One replayed event; `None` for an end tag with no open element. */
  function Step(o: Options, b: Building, e: Event): Option<Building> {
    match e
    case StartNamespace(_, _) => Some(b)
    case EndNamespace => Some(b)
    case StartElement(name, attrs, decls) => Some(Open(b, Element(name, attrs, decls)))
    case EndElement(_) => if b.open == [] then None else Some(Close(b))
    case TextEvent(s) => Some(AddText(b, s))
    case CDataEvent(s) =>
      if o.stripCdata then Some(AddText(b, s))
      else if b.open == [] then Some(b)
      else Some(AddLeaf(b, CData(s)))
    case CommentEvent(s) => if o.removeComments then Some(b) else Some(AddLeaf(b, Comment(s)))
    case PIEvent(target, data) => if o.removePis then Some(b) else Some(AddLeaf(b, PI(target, data)))
  }

  /** One event of the plain build: one node per event, no merging, no options. */
  function PlainStep(b: Building, e: Event): Option<Building> {
    match e
    case StartNamespace(_, _) => Some(b)
    case EndNamespace => Some(b)
    case StartElement(name, attrs, decls) => Some(Open(b, Element(name, attrs, decls)))
    case EndElement(_) => if b.open == [] then None else Some(Close(b))
    case TextEvent(s) => if b.open == [] then Some(b) else Some(AddLeaf(b, Text(s)))
    case CDataEvent(s) => if b.open == [] then Some(b) else Some(AddLeaf(b, CData(s)))
    case CommentEvent(s) => Some(AddLeaf(b, Comment(s)))
    case PIEvent(target, data) => Some(AddLeaf(b, PI(target, data)))
  }

  const EMPTY := Building([], [], 1)

  function Run(o: Options, es: seq<Event>): Option<Building> {
    if es == [] then Some(EMPTY)
    else
      var b := Run(o, es[..|es| - 1]);
      if b.None? then None else Step(o, b.value, es[|es| - 1])
  }

  function PlainRun(es: seq<Event>): Option<Building> {
    if es == [] then Some(EMPTY)
    else
      var b := PlainRun(es[..|es| - 1]);
      if b.None? then None else PlainStep(b.value, es[|es| - 1])
  }

  /** Every end tag closes an element and none is left open. */
  predicate Balanced(es: seq<Event>) {
    PlainRun(es).Some? && PlainRun(es).value.open == []
  }

  /** The completed top-level elements; the first is the root element. */
  function Elements(ts: seq<Tree>): seq<Tree> {
    if ts == [] then []
    else Elements(ts[..|ts| - 1]) + (if ts[|ts| - 1].kind.Element? then [ts[|ts| - 1]] else [])
  }

  // ------------------------------------------------------------------
  // Replay is the plain build, rewritten
  // ------------------------------------------------------------------

  /** Up to ids, every child list of the replay is the rewritten child list of the
      plain build. */
  ghost predicate Mirrors(o: Options, r: Building, p: Building) {
    MirrorsAll(o, r.open, p.open) && MirrorsTops(o, Elements(r.tops), Elements(p.tops))
  }

  ghost predicate MirrorsAll(o: Options, ys: seq<Tree>, xs: seq<Tree>) {
    |ys| == |xs| && forall i :: 0 <= i < |ys| ==> MirrorsOpen(o, ys[i], xs[i])
  }

  ghost predicate MirrorsOpen(o: Options, y: Tree, x: Tree) {
    y.kind == x.kind && x.kind.Element? && EraseAll(y.kids) == PostKids(o, EraseAll(x.kids))
  }

  ghost predicate MirrorsTops(o: Options, ys: seq<Tree>, xs: seq<Tree>) {
    |ys| == |xs| && forall i :: 0 <= i < |ys| ==> Erase(ys[i]) == Rewritten(o, Erase(xs[i]))
  }

  lemma {:induction false} ElementsSnoc(ts: seq<Tree>, x: Tree)
    ensures Elements(ts + [x]) == Elements(ts) + (if x.kind.Element? then [x] else [])
  {
    assert (ts + [x])[..|ts + [x]| - 1] == ts;
  }

  /** What the replay must add below an element for a plain child `x`. */
  ghost predicate Follows(o: Options, before: seq<Tree>, after: seq<Tree>, x: Tree) {
    EraseAll(after) ==
      if Removed(x.kind, o) then EraseAll(before)
      else Join(Coalesce, EraseAll(before),
                if x.kind.Element? then Rewritten(o, Erase(x)) else Erase(x).(kind := Converted(x.kind, o)))
  }

  lemma {:induction false} ExtendKids(o: Options, rk: seq<Tree>, rk': seq<Tree>, pk: seq<Tree>, x: Tree)
    requires EraseAll(rk) == PostKids(o, EraseAll(pk)) && Follows(o, rk, rk', x)
    ensures EraseAll(rk') == PostKids(o, EraseAll(pk + [x]))
  {
    EraseConcat(pk, [x]);
    assert EraseAll([x]) == [Erase(x)];
    PostOneMore(o, EraseAll(pk), Erase(x));
  }

  lemma {:induction false} ReplaceLast(o: Options, ys: seq<Tree>, xs: seq<Tree>, y: Tree, x: Tree)
    requires MirrorsAll(o, ys, xs) && ys != [] && MirrorsOpen(o, y, x)
    ensures MirrorsAll(o, ys[|ys| - 1 := y], xs[|ys| - 1 := x])
  {
  }

  /** Extending the innermost open element on both sides keeps the mirror. */
  lemma {:induction false} MirrorChild(o: Options, r: Building, p: Building, r': Building, p': Building,
                                       rk: seq<Tree>, x: Tree)
    requires Mirrors(o, r, p) && r.open != []
    requires r'.open == r.open[|r.open| - 1 := r.open[|r.open| - 1].(kids := rk)] && r'.tops == r.tops
    requires p'.open == AddChild(p, x).open && p'.tops == p.tops
    requires Follows(o, r.open[|r.open| - 1].kids, rk, x)
    ensures Mirrors(o, r', p')
  {
    var m := |r.open| - 1;
    assert MirrorsOpen(o, r.open[m], p.open[m]);
    ExtendKids(o, r.open[m].kids, rk, p.open[m].kids, x);
    ReplaceLast(o, r.open, p.open, r.open[m].(kids := rk), Grown(p.open[m], x));
  }

  lemma {:induction false} MirrorLeaf(o: Options, r: Building, p: Building, k: Kind)
    requires Mirrors(o, r, p) && r.open != []
    requires !k.Element? && !Removed(k, o) && (k.Text? ==> false) && (k.CData? ==> !o.stripCdata)
    ensures Mirrors(o, AddLeaf(r, k), AddLeaf(p, k))
  {
    var m := |r.open| - 1;
    var x, y := Leaf(p, k), Leaf(r, k);
    EraseConcat(r.open[m].kids, [y]);
    assert EraseAll([y]) == [Erase(x)] by { assert EraseAll([]) == []; }
    MirrorChild(o, r, p, AddLeaf(r, k), AddLeaf(p, k), r.open[m].kids + [y], x);
  }

  lemma {:induction false} MirrorText(o: Options, r: Building, p: Building, k: Kind)
    requires Mirrors(o, r, p) && r.open != []
    requires k.Text? || (k.CData? && o.stripCdata)
    ensures Mirrors(o, AddText(r, k.text), AddLeaf(p, k))
  {
    var m := |r.open| - 1;
    var x := Leaf(p, k);
    var ks, ks' := r.open[m].kids, AddText(r, k.text).open[m].kids;
    MergedText(ks, ks', k.text, r.next);
    assert Erase(x) == Node(0, k, []);
    assert Erase(x).(kind := Converted(k, o)) == Node(0, Text(k.text), []);
    MirrorChild(o, r, p, AddText(r, k.text), AddLeaf(p, k), ks', x);
  }

  lemma {:induction false} MergedText(ks: seq<Tree>, ks': seq<Tree>, s: string, id: Id)
    requires var n := |ks|;
      ks' == if n > 0 && ks[n - 1].kind.Text? then ks[n - 1 := ks[n - 1].(kind := Text(ks[n - 1].kind.text + s))]
             else ks + [Node(id, Text(s), [])]
    ensures EraseAll(ks') == Join(Coalesce, EraseAll(ks), Node(0, Text(s), []))
  {
    var n := |ks|;
    if n > 0 && ks[n - 1].kind.Text? {
      var head := ks'[n - 1];
      assert ks' == ks[..n - 1] + [head];
      EraseConcat(ks[..n - 1], [head]);
      assert EraseAll(ks)[..n - 1] == EraseAll(ks[..n - 1]);
      assert EraseAll([head]) == [Erase(head)];
    } else {
      var x := Node(id, Text(s), []);
      EraseConcat(ks, [x]);
      assert EraseAll([x]) == [Node(0, Text(s), [])];
    }
  }

  lemma {:induction false} MirrorClose(o: Options, r: Building, p: Building)
    requires Mirrors(o, r, p) && r.open != []
    ensures Mirrors(o, Close(r), Close(p))
  {
    var m := |r.open| - 1;
    var y, x := r.open[m], p.open[m];
    assert MirrorsOpen(o, y, x);
    ErasedElement(o, x);
    if m == 0 {
      ElementsSnoc(r.tops, y);
      ElementsSnoc(p.tops, x);
    } else {
      MirrorCloseInner(o, r.(open := r.open[..m]), p.(open := p.open[..m]), y, x);
    }
  }

  lemma {:induction false} MirrorCloseInner(o: Options, r: Building, p: Building, y: Tree, x: Tree)
    requires Mirrors(o, r, p) && r.open != []
    requires x.kind.Element? && Erase(y) == Rewritten(o, Erase(x))
    ensures Mirrors(o, AddChild(r, y), AddChild(p, x))
  {
    var ks := r.open[|r.open| - 1].kids;
    EraseConcat(ks, [y]);
    assert EraseAll([y]) == [Erase(y)];
    MirrorChild(o, r, p, AddChild(r, y), AddChild(p, x), ks + [y], x);
  }

  lemma {:induction false} ErasedElement(o: Options, x: Tree)
    requires x.kind.Element?
    ensures Rewritten(o, Erase(x)) == Node(0, x.kind, PostKids(o, EraseAll(x.kids)))
  {
  }

  lemma {:induction false} MirrorTop(o: Options, r: Building, p: Building, r': Building, x: Tree)
    requires Mirrors(o, r, p) && r.open == [] && !x.kind.Element?
    requires r'.open == [] && Elements(r'.tops) == Elements(r.tops)
    ensures forall n :: Mirrors(o, r', AddChild(p, x).(next := n))
  {
    ElementsSnoc(p.tops, x);
  }

  lemma {:induction false} MirrorStep(o: Options, r: Building, p: Building, e: Event)
    requires Mirrors(o, r, p) && PlainStep(p, e).Some?
    ensures Step(o, r, e).Some? && Mirrors(o, Step(o, r, e).value, PlainStep(p, e).value)
  {
    match e
    case StartNamespace(_, _) =>
    case EndNamespace =>
    case StartElement(name, attrs, decls) =>
      assert PostKids(o, []) == [];
    case EndElement(_) => MirrorClose(o, r, p);
    case TextEvent(s) =>
      if r.open != [] { MirrorText(o, r, p, Text(s)); }
    case CDataEvent(s) =>
      if r.open != [] {
        if o.stripCdata { MirrorText(o, r, p, CData(s)); } else { MirrorLeaf(o, r, p, CData(s)); }
      }
    case CommentEvent(s) => MirrorMisc(o, r, p, Comment(s), o.removeComments);
    case PIEvent(target, data) => MirrorMisc(o, r, p, PI(target, data), o.removePis);
  }

  lemma {:induction false} MirrorMisc(o: Options, r: Building, p: Building, k: Kind, drop: bool)
    requires Mirrors(o, r, p) && (k.Comment? || k.PI?) && drop == Removed(k, o)
    ensures Mirrors(o, if drop then r else AddLeaf(r, k), AddLeaf(p, k))
  {
    if r.open == [] {
      ElementsSnoc(r.tops, Leaf(r, k));
      MirrorTop(o, r, p, if drop then r else AddLeaf(r, k), Leaf(p, k));
    } else if drop {
      MirrorChild(o, r, p, r, AddLeaf(p, k), r.open[|r.open| - 1].kids, Leaf(p, k));
    } else {
      MirrorLeaf(o, r, p, k);
    }
  }

  lemma {:induction false} MirrorRun(o: Options, es: seq<Event>)
    requires PlainRun(es).Some?
    ensures Run(o, es).Some? && Mirrors(o, Run(o, es).value, PlainRun(es).value)
  {
    if es != [] {
      MirrorRun(o, es[..|es| - 1]);
      MirrorStep(o, Run(o, es[..|es| - 1]).value, PlainRun(es[..|es| - 1]).value, es[|es| - 1]);
    }
  }

  /** The root element of a finished build. */
  function RootElement(b: Building): Option<Tree> {
    if Elements(b.tops) == [] then None else Some(Elements(b.tops)[0])
  }

  /** For every balanced stream and every choice of options, the replayed root is
      the plainly built root after removal, conversion and coalescing. The
      post-parse pass itself, which is skipped when no option is on, gives the
      replayed root exactly when an option is on or there is nothing to coalesce. */
  lemma {:induction false} ReplayEqualsRewriting(o: Options, es: seq<Event>)
    requires Balanced(es)
    ensures Run(o, es).Some? && Run(o, es).value.open == []
    ensures var r, p := RootElement(Run(o, es).value), RootElement(PlainRun(es).value);
      && (r.Some? <==> p.Some?)
      && (r.Some? ==> Erase(r.value) == Erase(Rewritten(o, p.value)))
      && (r.Some? ==> (Erase(r.value) == Erase(Postprocessed(o, p.value))
                       <==> o.Any() || TextApart(p.value)))
  {
    MirrorRun(o, es);
    var p := RootElement(PlainRun(es).value);
    if p.Some? {
      EraseAfter(Coalesce, After(Strip(o), p.value));
      EraseAfter(Strip(o), p.value);
      if !o.Any() { RewritingChangesNothing(o, p.value); }
    }
  }

  lemma {:induction false} RunSnoc(o: Options, es: seq<Event>, e: Event)
    requires Run(o, es).Some? && PlainRun(es).Some?
    ensures Run(o, es + [e]) == Step(o, Run(o, es).value, e)
    ensures PlainRun(es + [e]) == PlainStep(PlainRun(es).value, e)
  {
    assert (es + [e])[..|es|] == es;
  }

  lemma {:induction false} AddToOnly(b: Building, t: Tree, x: Tree)
    requires b.open == [t]
    ensures AddChild(b, x).open == [Node(t.id, t.kind, t.kids + [x])] && AddChild(b, x).tops == b.tops
  {
  }

  /** One element with the children `kids`, still open. */
  function Single(k: Kind, kids: seq<Tree>, next: Id): Building {
    Building([Node(1, k, kids)], [], next)
  }

  /** Replay and plain build, side by side. */
  ghost predicate Reaches(o: Options, es: seq<Event>, b: Building, p: Building) {
    Run(o, es) == Some(b) && PlainRun(es) == Some(p)
  }

  lemma {:induction false} ReachesNext(o: Options, es: seq<Event>, e: Event, b: Building, p: Building, b': Building, p': Building)
    requires Reaches(o, es, b, p) && Step(o, b, e) == Some(b') && PlainStep(p, e) == Some(p')
    ensures Reaches(o, es + [e], b', p')
  {
    RunSnoc(o, es, e);
  }

  lemma {:induction false} ReachesOpen(o: Options, name: QName)
    ensures var k := Element(name, [], []); Reaches(o, [StartElement(name, [], [])], Single(k, [], 2), Single(k, [], 2))
  {
    var e, s := StartElement(name, [], []), Single(Element(name, [], []), [], 2);
    assert [] + [e] == [e] && Open(EMPTY, Element(name, [], [])).open == s.open;
    ReachesNext(o, [], e, EMPTY, EMPTY, s, s);
  }

  lemma {:induction false} FirstText(k: Kind, s: string)
    requires k.Element?
    ensures AddText(Single(k, [], 2), s) == AddLeaf(Single(k, [], 2), Text(s)) == Single(k, [Node(2, Text(s), [])], 3)
  {
    AddToOnly(Single(k, [], 2), Node(1, k, []), Node(2, Text(s), []));
    assert [] + [Node(2, Text(s), [])] == [Node(2, Text(s), [])];
  }

  lemma {:induction false} SecondText(k: Kind, s: string, u: string)
    requires k.Element?
    ensures var b := Single(k, [Node(2, Text(s), [])], 3);
      && AddText(b, u) == Single(k, [Node(2, Text(s + u), [])], 3)
      && AddLeaf(b, Text(u)) == Single(k, [Node(2, Text(s), []), Node(3, Text(u), [])], 4)
  {
    var x := Node(2, Text(s), []);
    AddToOnly(Single(k, [x], 3), Node(1, k, [x]), Node(3, Text(u), []));
    assert [x] + [Node(3, Text(u), [])] == [x, Node(3, Text(u), [])];
    assert [x][0 := Node(2, Text(s + u), [])] == [Node(2, Text(s + u), [])];
  }

  /** With every option off the two do differ on adjacent text events. */
  lemma {:induction false} OptionsOffDiffer(name: QName, s: string, u: string)
    ensures var o := Options(false, false, false);
            var es := [StartElement(name, [], [])] + [TextEvent(s)] + [TextEvent(u)] + [EndElement(name)];
            var k := Element(name, [], []);
            && Run(o, es) == Some(Building([], [Node(1, k, [Node(2, Text(s + u), [])])], 3))
            && PlainRun(es) == Some(Building([], [Node(1, k, [Node(2, Text(s), []), Node(3, Text(u), [])])], 4))
  {
    var o, k := Options(false, false, false), Element(name, [], []);
    var e0, x, y := [StartElement(name, [], [])], Node(2, Text(s), []), Node(3, Text(u), []);
    var merged, plain := Single(k, [Node(2, Text(s + u), [])], 3), Single(k, [x, y], 4);
    ReachesOpen(o, name);
    FirstText(k, s);
    ReachesNext(o, e0, TextEvent(s), Single(k, [], 2), Single(k, [], 2), Single(k, [x], 3), Single(k, [x], 3));
    SecondText(k, s, u);
    ReachesNext(o, e0 + [TextEvent(s)], TextEvent(u), Single(k, [x], 3), Single(k, [x], 3), merged, plain);
    CloseOnly(merged);
    CloseOnly(plain);
    ReachesNext(o, e0 + [TextEvent(s)] + [TextEvent(u)], EndElement(name), merged, plain, Close(merged), Close(plain));
  }

  lemma {:induction false} CloseOnly(b: Building)
    requires |b.open| == 1 && b.tops == []
    ensures Close(b) == Building([], [b.open[0]], b.next)
  {
  }
}
