/** The events of a tree, and the tree that the plain build makes of them. */
module EventRoundTrip {
  import opened Prelude
  import opened Arena
  import opened Replay

  function EventOf(k: Kind): Event
    requires !k.Element? && !k.Root?
  {
    match k
    case Text(s) => TextEvent(s)
    case CData(s) => CDataEvent(s)
    case Comment(s) => CommentEvent(s)
    case PI(target, data) => PIEvent(target, data)
  }

  /** The events that a parser reports for a tree. */
  function Events(t: Tree): seq<Event>
    decreases t, 0
  {
    match t.kind
    case Element(name, attrs, decls) => [StartElement(name, attrs, decls)] + EventsAll(t.kids) + [EndElement(name)]
    case Root => EventsAll(t.kids)
    case k => [EventOf(k)]
  }

  function EventsAll(ts: seq<Tree>): seq<Event>
    decreases ts, 1
  {
    if ts == [] then [] else EventsAll(ts[..|ts| - 1]) + Events(ts[|ts| - 1])
  }

  /** Only elements have children, and no node stands for a document. */
  ghost predicate Parsed(t: Tree)
    decreases t
  {
    !t.kind.Root? && (!t.kind.Element? ==> t.kids == []) && forall i :: 0 <= i < |t.kids| ==> Parsed(t.kids[i])
  }

  lemma {:induction false} PlainSnoc(es: seq<Event>, e: Event)
    ensures PlainRun(es + [e]) == if PlainRun(es).None? then None else PlainStep(PlainRun(es).value, e)
  {
    assert (es + [e])[..|es|] == es;
  }

  lemma {:induction false} LeafEvent(b: Building, k: Kind)
    requires !k.Element? && !k.Root? && (b.open != [] || !k.Textual())
    ensures PlainStep(b, EventOf(k)) == Some(AddLeaf(b, k))
  {
  }

  lemma {:induction false} LeafRead(xs: seq<Event>, b: Building, t: Tree) returns (x: Tree)
    requires PlainRun(xs) == Some(b) && Parsed(t) && !t.kind.Element? && (b.open != [] || !t.kind.Textual())
    ensures Erase(x) == Erase(t)
    ensures PlainRun(xs + [EventOf(t.kind)]) == Some(AddChild(b, x).(next := b.next + 1))
  {
    x := Leaf(b, t.kind);
    LeafEvent(b, t.kind);
    PlainSnoc(xs, EventOf(t.kind));
  }

  /** The innermost open element with more children. */
  function Filled(b: Building, ks: seq<Tree>, next: Id): Building
    requires b.open != []
  {
    var t := b.open[|b.open| - 1];
    Building(b.open[..|b.open| - 1] + [t.(kids := t.kids + ks)], b.tops, next)
  }

  lemma {:induction false} FilledMore(b: Building, ks: seq<Tree>, x: Tree, next: Id, after: Id)
    requires b.open != []
    ensures AddChild(Filled(b, ks, next), x).(next := after) == Filled(b, ks + [x], after)
  {
    var t := b.open[|b.open| - 1];
    assert (t.kids + ks) + [x] == t.kids + (ks + [x]);
  }

  lemma {:induction false} NotFilled(b: Building)
    requires b.open != []
    ensures Filled(b, [], b.next) == b
  {
    var t := b.open[|b.open| - 1];
    assert t.kids + [] == t.kids;
  }

  lemma {:induction false} EventsSplit(xs: seq<Event>, ts: seq<Tree>)
    requires ts != []
    ensures xs + EventsAll(ts) == (xs + EventsAll(ts[..|ts| - 1])) + Events(ts[|ts| - 1])
  {
  }

  lemma {:induction false} ForestRead(xs: seq<Event>, b: Building, ts: seq<Tree>, ys: seq<Event>) returns (ks: seq<Tree>, next: Id)
    requires PlainRun(xs) == Some(b) && b.open != [] && forall i :: 0 <= i < |ts| ==> Parsed(ts[i])
    requires ys == xs + EventsAll(ts)
    ensures EraseAll(ks) == EraseAll(ts)
    ensures PlainRun(ys) == Some(Filled(b, ks, next))
    decreases ts, 1
  {
    if ts == [] {
      ks, next := [], b.next;
      NotFilled(b);
      assert ys == xs;
    } else {
      EventsSplit(xs, ts);
      ks, next := ForestMore(xs, b, ts, xs + EventsAll(ts[..|ts| - 1]), ys);
    }
  }

  lemma {:induction false} ForestMore(xs: seq<Event>, b: Building, ts: seq<Tree>, mid: seq<Event>, ys: seq<Event>)
    returns (ks: seq<Tree>, next: Id)
    requires PlainRun(xs) == Some(b) && b.open != [] && ts != [] && forall i :: 0 <= i < |ts| ==> Parsed(ts[i])
    requires mid == xs + EventsAll(ts[..|ts| - 1]) && ys == mid + Events(ts[|ts| - 1])
    ensures EraseAll(ks) == EraseAll(ts)
    ensures PlainRun(ys) == Some(Filled(b, ks, next))
    decreases ts, 0
  {
    var front, last := ts[..|ts| - 1], ts[|ts| - 1];
    assert front + [last] == ts;
    var ks0, n0 := ForestRead(xs, b, front, mid);
    var x, n := TreeRead(mid, Filled(b, ks0, n0), last, ys);
    FilledMore(b, ks0, x, n0, n);
    SameForest(ks0, x, front, last);
    ks, next := ks0 + [x], n;
  }

  lemma {:induction false} SameForest(ks: seq<Tree>, x: Tree, ts: seq<Tree>, t: Tree)
    requires EraseAll(ks) == EraseAll(ts) && Erase(x) == Erase(t)
    ensures EraseAll(ks + [x]) == EraseAll(ts + [t])
  {
    assert |EraseAll(ks)| == |EraseAll(ts)|;
    forall i | 0 <= i < |ks + [x]| ensures Erase((ks + [x])[i]) == Erase((ts + [t])[i]) {
      if i < |ks| {
        assert EraseAll(ks)[i] == EraseAll(ts)[i];
      }
    }
  }

  lemma {:induction false} EventsAround(xs: seq<Event>, t: Tree)
    requires t.kind.Element?
    ensures xs + Events(t) ==
      ((xs + [StartElement(t.kind.name, t.kind.attrs, t.kind.decls)]) + EventsAll(t.kids)) + [EndElement(t.kind.name)]
  {
  }

  /** Whatever stands before: reading the events of `t` completes a tree equal to `t`. */
  lemma {:induction false} TreeRead(xs: seq<Event>, b: Building, t: Tree, ys: seq<Event>) returns (x: Tree, next: Id)
    requires PlainRun(xs) == Some(b) && Parsed(t) && (b.open != [] || !t.kind.Textual()) && ys == xs + Events(t)
    ensures Erase(x) == Erase(t)
    ensures PlainRun(ys) == Some(AddChild(b, x).(next := next))
    decreases t, 0
  {
    if t.kind.Element? {
      EventsAround(xs, t);
      var s := StartElement(t.kind.name, t.kind.attrs, t.kind.decls);
      PlainSnoc(xs, s);
      x, next := ElementRead(xs + [s], b, t, (xs + [s]) + EventsAll(t.kids));
    } else {
      x := LeafRead(xs, b, t);
      next := b.next + 1;
    }
  }

  lemma {:induction false} ElementRead(xs: seq<Event>, b: Building, t: Tree, mid: seq<Event>) returns (x: Tree, next: Id)
    requires t.kind.Element? && Parsed(t) && PlainRun(xs) == Some(Open(b, t.kind)) && mid == xs + EventsAll(t.kids)
    ensures Erase(x) == Erase(t)
    ensures PlainRun(mid + [EndElement(t.kind.name)]) == Some(AddChild(b, x).(next := next))
    decreases t.kids, 2
  {
    var ks, n := ForestRead(xs, Open(b, t.kind), t.kids, mid);
    PlainSnoc(mid, EndElement(t.kind.name));
    ClosedAgain(b, t.kind, ks, n);
    x, next := Node(b.next, t.kind, ks), n;
  }

  lemma {:induction false} ClosedAgain(b: Building, k: Kind, ks: seq<Tree>, n: Id)
    ensures Filled(Open(b, k), ks, n).open != []
    ensures Close(Filled(Open(b, k), ks, n)) == AddChild(b, Node(b.next, k, ks)).(next := n)
  {
    var o := Open(b, k);
    assert o.open[..|o.open| - 1] == b.open;
    assert Node(b.next, k, []).kids + ks == ks;
    assert (b.open + [Node(b.next, k, ks)])[..|b.open|] == b.open;
  }

  /** The plain build undoes the reading-off of events, markup, attributes,
      declarations and text alike. */
  lemma {:induction false} PlainBuildIsInverse(t: Tree)
    requires Parsed(t) && t.kind.Element?
    ensures Balanced(Events(t)) && RootElement(PlainRun(Events(t)).value).Some?
    ensures Erase(RootElement(PlainRun(Events(t)).value).value) == Erase(t)
  {
    assert Events(t) == [] + Events(t);
    var x, next := TreeRead([], EMPTY, t, Events(t));
    assert Erase(x).kind == t.kind;
    ElementsSnoc([], x);
    assert [] + [x] == [x];
  }
}
