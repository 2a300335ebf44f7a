/** Bringing new elements into a document: the document's own are moved with
    their tails, those of another document come in as copies. */
module Adoption {
  import opened Prelude
  import opened Arena
  import opened Dom
  import opened Siblings
  import opened SiblingEdits
  import opened PairEdits
  import opened SubtreeCopy
  import opened NewElements
  import LockStep

  // ------------------------------------------------------------------
  // What has been adopted is ready to be placed
  // ------------------------------------------------------------------

  lemma {:induction false} FlatMember(ps: seq<Pair>, n: Id) returns (k: nat)
    requires n in Flat(ps)
    ensures k < |ps| && (n == ps[k].node || n in ps[k].tail)
  {
    if n == ps[0].node || n in ps[0].tail {
      k := 0;
    } else {
      assert n in Flat(ps[1..]);
      k := FlatMember(ps[1..], n);
      k := k + 1;
    }
  }

  lemma {:induction false} NotInFlat(a: Arena, prs: seq<Pair>, n: Id)
    requires Proper(a.kind, prs) && Content(a, n) && n !in Nodes(prs)
    ensures n !in Flat(prs)
  {
    forall k | 0 <= k < |prs| ensures n != prs[k].node && n !in prs[k].tail {
      assert Nodes(prs)[k] == prs[k].node;
      forall j | 0 <= j < |prs[k].tail| ensures prs[k].tail[j] != n { assert IsText(a.kind, prs[k].tail[j]); }
    }
    if n in Flat(prs) { var k := FlatMember(prs, n); }
  }

  lemma {:induction false} LooseMore(a: Arena, b: Arena, ns: seq<Id>, seg: seq<Id>)
    requires Loose(a, ns) && Loose(b, seg)
    requires forall x :: x in seg ==> x !in ns
    requires forall x :: x in a.kind ==> x in b.kind && (x in b.parent ==> x in a.parent)
    ensures Loose(b, ns + seg)
  {
    NoDupConcat(ns, seg);
  }

  lemma {:induction false} FlatSnoc(prs: seq<Pair>, pr: Pair)
    ensures Flat(prs + [pr]) == Flat(prs) + ([pr.node] + pr.tail)
  {
    FlatConcat(prs, [pr]);
    assert [pr][1..] == [] && Flat([pr]) == [pr.node] + pr.tail;
  }

  lemma {:induction false} ProperMore(kind: Kinds, prs: seq<Pair>, pr: Pair)
    requires Proper(kind, prs) && Proper(kind, [pr])
    ensures Proper(kind, prs + [pr])
  {
    assert [pr][0] == pr;
  }

  lemma {:induction false} TailFacts(a: Arena, n: Id)
    requires Wf(a) && Content(a, n)
    ensures Proper(a.kind, [Pair(n, Tail(a, n))])
    ensures NoDup([n] + Tail(a, n))
    ensures forall x :: x in Tail(a, n) ==> x in a.parent
    ensures Tail(a, n) != [] ==> n in a.parent
  {
    RunIsText(a.kind, Following(a, n));
    if n in a.parent {
      TailFits(a, n);
      SegmentFacts(a, a.parent[n], IndexOf(a.kids[a.parent[n]], n), Tail(a, n));
    }
  }

  lemma {:induction false} SegmentFacts(a: Arena, p: Id, i: nat, tail: seq<Id>)
    requires Wf(a) && p in a.kids && i + 1 + |tail| <= |a.kids[p]| && tail == a.kids[p][i + 1..i + 1 + |tail|]
    ensures NoDup([a.kids[p][i]] + tail) && forall x :: x in tail ==> x in a.parent
  {
    assert a.kids[p][i..i + 1 + |tail|] == [a.kids[p][i]] + tail;
  }

  lemma {:induction false} ExtractedLoose(a: Arena, n: Id, ns: seq<Id>)
    requires Wf(a) && Content(a, n) && Loose(a, ns) && n !in ns
    ensures Loose(Extracted(a, n), ns + ([n] + Tail(a, n)))
  {
    var b, seg := Extracted(a, n), [n] + Tail(a, n);
    TailFacts(a, n);
    forall x ensures (x in b.parent <==> x in a.parent && x != n && x !in Tail(a, n)) && b.kind == a.kind {
      ExtractedParents(a, n, x);
    }
    SegmentLoose(a, b, n, Tail(a, n));
    forall x | x in seg ensures x !in ns {
      if x in Tail(a, n) { assert x in a.parent; }
    }
    LooseMore(a, b, ns, seg);
  }

  lemma {:induction false} SegmentLoose(a: Arena, b: Arena, n: Id, tail: seq<Id>)
    requires Wf(a) && b.kind == a.kind && n in a.kind && NoDup([n] + tail)
    requires forall x :: x in tail ==> x in a.parent
    requires forall x :: x in b.parent ==> x != n && x !in tail
    ensures Loose(b, [n] + tail)
  {
    var seg := [n] + tail;
    forall i | 0 <= i < |seg| ensures seg[i] in b.kind && seg[i] !in b.parent {
      if i > 0 {
        assert seg[i] == tail[i - 1];
        Known(a, seg[i]);
      }
    }
  }

  lemma {:induction false} LoosePrefix(a: Arena, ns: seq<Id>, ms: seq<Id>)
    requires Loose(a, ns + ms)
    ensures Loose(a, ns)
  {
    assert forall i :: 0 <= i < |ns| ==> ns[i] == (ns + ms)[i];
  }

  /** Taking out a child leaves what was adopted ready. */
  lemma {:induction false} ReadyWithout(k: Intake, a: Arena, gone: set<Id>, n: Id)
    requires Wf(a) && Ready(k, a, gone) && Content(k.a1, n) && n !in gone && n !in Flat(k.prs)
    ensures Ready(k, Extracted(a, n), gone + {n})
    ensures Loose(Extracted(a, n), Flat(k.prs) + ([n] + Tail(a, n)))
  {
    ExtractedDrops(a, n);
    DroppedTwice(k.a1, a, Extracted(a, n), gone, {n});
    ExtractedLoose(a, n, Flat(k.prs));
    LoosePrefix(Extracted(a, n), Flat(k.prs), [n] + Tail(a, n));
    ExtractedParents(a, n, n);
  }

  // ------------------------------------------------------------------
  // Nodes of this document
  // ------------------------------------------------------------------

  /** The next element is by now a node of this document: it leaves its place. */
  lemma {:induction false} ReadyMoved(k: Intake, a: Arena, n: Id)
    requires Wf(a) && Ready(k, a, k.Moved()) && |k.prs| < |k.els|
    requires !k.els[|k.prs|].Foreign? && NodeOf(k.els[|k.prs|], k.copies) == Some(n)
    ensures var k' := k.With(k.a1, None, Pair(n, Tail(a, n))); Ready(k', Extracted(a, n), k'.Moved())
  {
    var pr := Pair(n, Tail(a, n));
    NextNode(k);
    NotInFlat(a, k.prs, n);
    ReadyWithout(k, a, k.Moved(), n);
    DroppedTail(k.a1, a, k.Moved(), n);
    MovedTook(k, pr);
    OneMore(k, k.a1, None, pr);
    TailFacts(a, n);
    ExtractedParents(a, n, n);
    ProperMore(a.kind, k.prs, pr);
    FlatSnoc(k.prs, pr);
  }

  lemma {:induction false} MovedTook(k: Intake, pr: Pair)
    requires k.Sound() && |k.prs| < |k.els| && !k.els[|k.prs|].Foreign?
    requires NodeOf(k.els[|k.prs|], k.copies) == Some(pr.node) && pr.tail == Tail(k.a1, pr.node)
    ensures k.With(k.a1, None, pr).Took(|k.prs|) && Extends(k.a1, k.a1)
  {
    assert Usable(k.a0, k.els, |k.prs|);
  }

  // ------------------------------------------------------------------
  // Elements of another document
  // ------------------------------------------------------------------

  /** `a1` with the nodes that `b` has and `a` has not. */
  function Overlay(a1: Arena, a: Arena, b: Arena): Arena {
    Arena(b.kind, b.kids + a1.kids, (b.parent - a.kind.Keys) + a1.parent)
  }

  ghost predicate Overlays(a1: Arena, a: Arena, b: Arena) {
    Wf(a1) && Wf(a) && Wf(b) && a.kind == a1.kind && Extends(a, b)
  }

  lemma {:induction false} OverlayKids(a1: Arena, a: Arena, b: Arena, q: Id)
    requires Overlays(a1, a, b)
    ensures Kids(Overlay(a1, a, b), q) == if q in a.kind then Kids(a1, q) else Kids(b, q)
    ensures q in Overlay(a1, a, b).kids <==> q in b.kind
  {
  }

  lemma {:induction false} OverlayParent(a1: Arena, a: Arena, b: Arena, x: Id)
    requires Overlays(a1, a, b)
    ensures Parent(Overlay(a1, a, b), x) == if x in a.kind then Parent(a1, x) else Parent(b, x)
  {
    Known(a1, x);
  }

  /** The children of a new node are new. */
  lemma {:induction false} NewBelowNew(a: Arena, b: Arena, q: Id, i: nat)
    requires Wf(a) && Wf(b) && Extends(a, b) && q !in a.kind && q in b.kids && i < |b.kids[q]|
    ensures b.kids[q][i] !in a.kind
  {
    assert b.parent[b.kids[q][i]] == q;
  }

  lemma {:induction false} OverlayWf(a1: Arena, a: Arena, b: Arena)
    requires Overlays(a1, a, b)
    ensures Wf(Overlay(a1, a, b))
  {
    var d := Overlay(a1, a, b);
    forall q, i | q in d.kids && 0 <= i < |d.kids[q]|
      ensures d.kids[q][i] in d.kind && Parent(d, d.kids[q][i]) == Some(q)
    {
      OverlayKids(a1, a, b, q);
      OverlayParent(a1, a, b, d.kids[q][i]);
      if q !in a.kind { NewBelowNew(a, b, q, i); }
    }
    forall c | c in d.parent ensures d.parent[c] in d.kids && c in d.kids[d.parent[c]] {
      OverlayParent(a1, a, b, c);
      OverlayKids(a1, a, b, d.parent[c]);
    }
    forall q | q in d.kids ensures NoDup(d.kids[q]) { OverlayKids(a1, a, b, q); }
  }

  lemma {:induction false} OverlayExtends(a1: Arena, a: Arena, b: Arena)
    requires Overlays(a1, a, b)
    ensures Extends(a1, Overlay(a1, a, b))
  {
    forall x | x in a1.kind
      ensures x in Overlay(a1, a, b).parent <==> x in a1.parent
      ensures x in a1.parent ==> Overlay(a1, a, b).parent[x] == a1.parent[x]
    {
      OverlayParent(a1, a, b, x);
    }
  }

  /** What was missing in `a` is missing in `b`, and of the new nodes nothing is. */
  lemma {:induction false} OverlayDrops(a1: Arena, a: Arena, b: Arena, gone: set<Id>)
    requires Overlays(a1, a, b) && Dropped(a1, a, gone) && forall n :: n in gone ==> n in a.kind
    ensures Dropped(Overlay(a1, a, b), b, gone)
  {
    var d := Overlay(a1, a, b);
    forall q | q in d.kids ensures Loses(d, b, q, gone) { OverlayLoses(a1, a, b, gone, q); }
    forall x | x in b.parent ensures x in d.parent { OverlayParent(a1, a, b, x); }
  }

  lemma {:induction false} OverlayLoses(a1: Arena, a: Arena, b: Arena, gone: set<Id>, q: Id)
    requires Overlays(a1, a, b) && Dropped(a1, a, gone) && q in b.kind && forall n :: n in gone ==> n in a.kind
    ensures Loses(Overlay(a1, a, b), b, q, gone)
  {
    var d := Overlay(a1, a, b);
    OverlayKids(a1, a, b, q);
    if q in a.kind {
      assert Loses(a1, a, q, gone);
      OverlayExtends(a1, a, b);
      ListStays(a1, d, q);
      ListStays(a, b, q);
    } else {
      OverlayWf(a1, a, b);
      NewKept(a, b, d, q, gone);
    }
  }

  lemma {:induction false} NewKept(a: Arena, b: Arena, d: Arena, q: Id, gone: set<Id>)
    requires Wf(a) && Wf(b) && Wf(d) && Extends(a, b) && q !in a.kind && q in b.kids && d.kind == b.kind && Kids(d, q) == Kids(b, q)
    requires forall n :: n in gone ==> n in a.kind
    ensures Loses(d, b, q, gone)
  {
    var ps := Children(d, q);
    forall i | 0 <= i < |ps| ensures ps[i].node !in gone {
      PairsAreTails(d, q, i);
      var j :| 0 <= j < |d.kids[q]| && d.kids[q][j] == ps[i].node;
      NewBelowNew(a, b, q, j);
    }
    KeepAll(ps, gone);
  }

  /** A copy `c` of the tree of the next element, and of its tail, has been made. */
  ghost predicate CopyMade(k: Intake, a: Arena, b: Arena, c: Tree, pr: Pair) {
    && |k.prs| < |k.els| && k.els[|k.prs|].Foreign? && Cloned(a, b, k.els[|k.prs|].tree, k.els[|k.prs|].tail, c, pr)
    && Loose(b, [pr.node] + pr.tail) && Proper(b.kind, [pr])
  }

  lemma {:induction false} ReadyForeign(k: Intake, a: Arena, b: Arena, c: Tree, pr: Pair)
    requires Wf(a) && Wf(b) && Ready(k, a, k.Moved()) && Extends(a, b) && CopyMade(k, a, b, c, pr)
    ensures var k' := k.With(Overlay(k.a1, a, b), Some(c), pr); Ready(k', b, k'.Moved())
  {
    CopyTaken(k, a, b, c, pr);
    MovedKnown(k);
    OverlayDrops(k.a1, a, b, k.Moved());
    CopyIsNew(k, a, b, c, pr);
    PairsReady(a, b, k.prs, pr);
  }

  lemma {:induction false} CopyIsNew(k: Intake, a: Arena, b: Arena, c: Tree, pr: Pair)
    requires CopyMade(k, a, b, c, pr)
    ensures forall x :: x in [pr.node] + pr.tail ==> x !in a.kind
  {
  }

  lemma {:induction false} CopyTaken(k: Intake, a: Arena, b: Arena, c: Tree, pr: Pair)
    requires Wf(a) && Wf(b) && Ready(k, a, k.Moved()) && Extends(a, b) && CopyMade(k, a, b, c, pr)
    ensures var k' := k.With(Overlay(k.a1, a, b), Some(c), pr); k'.Sound() && k'.Moved() == k.Moved()
  {
    OverlayWf(k.a1, a, b);
    OverlayExtends(k.a1, a, b);
    CopyTook(k, a, b, c, pr);
    NewRoot(k, pr);
    OneMore(k, Overlay(k.a1, a, b), Some(c), pr);
    assert k.Moved() + {} == k.Moved();
  }

  /** The new pair joins those that are detached already. */
  lemma {:induction false} PairsReady(a: Arena, b: Arena, prs: seq<Pair>, pr: Pair)
    requires Extends(a, b) && Proper(a.kind, prs) && Loose(a, Flat(prs)) && Proper(b.kind, [pr]) && Loose(b, [pr.node] + pr.tail)
    requires forall x :: x in [pr.node] + pr.tail ==> x !in a.kind
    ensures Proper(b.kind, prs + [pr]) && Loose(b, Flat(prs + [pr]))
  {
    LooseMore(a, b, Flat(prs), [pr.node] + pr.tail);
    FlatSnoc(prs, pr);
    ProperKept(a, b, prs);
    ProperMore(b.kind, prs, pr);
  }

  lemma {:induction false} MovedKnown(k: Intake)
    requires k.Sound()
    ensures forall n :: n in k.Moved() ==> n in k.a1.kind
  {
    forall j | 0 <= j < |k.prs| && !k.els[j].Foreign? ensures k.prs[j].node in k.a1.kind {
      assert k.Took(j) && Usable(k.a0, k.els, j);
      if k.els[j].Inner? { InnerNode(k, k.els[j].at, k.els[j].path, j); }
    }
  }

  lemma {:induction false} NewRoot(k: Intake, pr: Pair)
    requires k.Sound() && pr.node !in k.a1.kind
    ensures pr.node !in Nodes(k.prs)
  {
    forall j | 0 <= j < |k.prs| ensures k.prs[j].node in k.a1.kind {
      assert k.Took(j) && Usable(k.a0, k.els, j);
      if k.els[j].Inner? { InnerNode(k, k.els[j].at, k.els[j].path, j); }
    }
  }

  lemma {:induction false} CopyTook(k: Intake, a: Arena, b: Arena, c: Tree, pr: Pair)
    requires Wf(a) && Wf(b) && Ready(k, a, k.Moved()) && Extends(a, b) && CopyMade(k, a, b, c, pr)
    ensures k.With(Overlay(k.a1, a, b), Some(c), pr).Took(|k.prs|)
  {
    var b1 := Overlay(k.a1, a, b);
    HeldInOverlay(k.a1, a, b, c);
    FreshEarlier(k.a0, a, c);
    OverlayParent(k.a1, a, b, c.id);
  }

  lemma {:induction false} HeldInOverlay(a1: Arena, a: Arena, b: Arena, c: Tree)
    requires Overlays(a1, a, b) && Holds(b, c) && FreshTree(a, c)
    ensures Holds(Overlay(a1, a, b), c)
    decreases c
  {
    OverlayKids(a1, a, b, c.id);
    forall i | 0 <= i < |c.kids| ensures Holds(Overlay(a1, a, b), c.kids[i]) { HeldInOverlay(a1, a, b, c.kids[i]); }
  }

  lemma {:induction false} ProperKept(a: Arena, b: Arena, prs: seq<Pair>)
    requires Proper(a.kind, prs) && Loose(a, Flat(prs)) && Extends(a, b)
    ensures Proper(b.kind, prs)
  {
    forall i | 0 <= i < |prs| ensures !IsText(b.kind, prs[i].node) && AllText(b.kind, prs[i].tail) {
      NodesInFlat(prs, i);
    }
  }

  /** New detached text nodes. */
  method CreateRun(doc: Document, ts: seq<Kind>) returns (ns: seq<Id>)
    requires doc.Valid()
    modifies doc
    ensures doc.Valid() && Extends(old(doc.arena), doc.arena)
    ensures NewRun(old(doc.arena), doc.arena, ts, ns) && Loose(doc.arena, ns)
  {
    ghost var a, lo := doc.arena, doc.next;
    ns := [];
    for i := 0 to |ts|
      invariant doc.Valid() && Extends(a, doc.arena) && lo <= doc.next
      invariant |ns| == i && NewRun(a, doc.arena, ts[..i], ns) && Loose(doc.arena, ns)
    {
      ghost var b := doc.arena;
      var n := doc.Create(ts[i]);
      CreatedAlso(a, b, ts[..i], ns, n, ts[i]);
      assert ts[..i + 1] == ts[..i] + [ts[i]];
      ns := ns + [n];
    }
    assert ts[..|ts|] == ts;
  }

  lemma {:induction false} CreatedAlso(a: Arena, b: Arena, ts: seq<Kind>, ns: seq<Id>, n: Id, k: Kind)
    requires Wf(a) && Wf(b) && Extends(a, b) && NewRun(a, b, ts, ns) && Loose(b, ns) && n !in b.kind
    ensures Extends(a, Added(b, n, k)) && NewRun(a, Added(b, n, k), ts + [k], ns + [n]) && Loose(Added(b, n, k), ns + [n])
  {
    Known(b, n);
    assert forall i :: 0 <= i < |ns| ==> ns[i] in b.kind;
    NoDupConcat(ns, [n]);
  }

  /** A copy of an element of another document and of its tail run. */
  method Clone(doc: Document, t: Tree, ts: seq<Kind>) returns (c: Tree, pr: Pair)
    requires doc.Valid() && !t.kind.Textual() && forall i :: 0 <= i < |ts| ==> ts[i].Textual()
    modifies doc
    ensures doc.Valid() && Extends(old(doc.arena), doc.arena)
    ensures Cloned(old(doc.arena), doc.arena, t, ts, c, pr)
    ensures Loose(doc.arena, [pr.node] + pr.tail) && Proper(doc.arena.kind, [pr])
  {
    ghost var a := doc.arena;
    var n;
    n, c := CopySubtree(doc, t);
    BeyondIsFresh(a, c, old(doc.next), doc.next);
    ghost var b := doc.arena;
    var ns := CreateRun(doc, ts);
    CloneFacts(a, b, doc.arena, t, ts, n, c, ns);
    pr := Pair(n, ns);
  }

  lemma {:induction false} CloneFacts(a: Arena, b: Arena, d: Arena, t: Tree, ts: seq<Kind>, n: Id, c: Tree, ns: seq<Id>)
    requires Wf(a) && Wf(b) && Grown(a, b, n) && Extends(b, d) && !t.kind.Textual() && forall i :: 0 <= i < |ts| ==> ts[i].Textual()
    requires Holds(b, c) && c.id == n && Copy(t, c) && FreshTree(a, c)
    requires NewRun(b, d, ts, ns) && Loose(d, ns)
    ensures Extends(a, d) && Cloned(a, d, t, ts, c, Pair(n, ns))
    ensures Loose(d, [n] + ns) && Proper(d.kind, [Pair(n, ns)])
  {
    ExtendsTwice(a, b, d);
    HeldStays(b, d, c);
    assert NewRun(a, d, ts, ns);
    NoDupConcat([n], ns);
  }

  lemma {:induction false} BeyondIsFresh(a: Arena, c: Tree, lo: Id, hi: Id)
    requires Between(lo, c, hi) && forall x :: x in a.kind ==> x < lo
    ensures FreshTree(a, c)
    decreases c
  {
    forall i | 0 <= i < |c.kids| ensures FreshTree(a, c.kids[i]) { BeyondIsFresh(a, c.kids[i], lo, hi); }
  }

  // ------------------------------------------------------------------
  // Adopting the whole right-hand side
  // ------------------------------------------------------------------

  /** A detached node of this document, with its tail, for the next new element. */
  method Adopt(doc: Document, els: seq<NewEl>, copies: seq<Option<Tree>>, ghost k: Intake) returns (pr: Pair, copy: Option<Tree>, ghost k': Intake)
    requires doc.Valid() && Ready(k, doc.arena, k.Moved()) && k.els == els && k.copies == copies && |copies| < |els|
    modifies doc
    ensures doc.Valid() && Ready(k', doc.arena, k'.Moved()) && k' == k.With(k'.a1, copy, pr)
  {
    ghost var a := doc.arena;
    var el := els[|copies|];
    NextUsable(k);
    if el.Foreign? {
      var c;
      c, pr := Clone(doc, el.tree, el.tail);
      ReadyForeign(k, a, doc.arena, c, pr);
      copy, k' := Some(c), k.With(Overlay(k.a1, a, doc.arena), Some(c), pr);
    } else {
      var n := NodeOf(el, copies).value;
      ReadyMoved(k, a, n);
      var tail := Extract(doc, n);
      pr, copy := Pair(n, tail), None;
      k' := k.With(k.a1, None, pr);
    }
  }

  lemma {:induction false} NextUsable(k: Intake)
    requires k.Sound() && |k.prs| < |k.els|
    ensures Usable(k.a0, k.els, |k.prs|)
    ensures !k.els[|k.prs|].Foreign? ==> NodeOf(k.els[|k.prs|], k.copies).Some?
  {
    if !k.els[|k.prs|].Foreign? { NextNode(k); }
  }

  lemma {:induction false} ReadyAtFirst(a: Arena, els: seq<NewEl>)
    requires Wf(a) && Acceptable(a, els)
    ensures var k := Intake(a, els, a, [], []); Ready(k, a, k.Moved())
  {
    DroppedNone(a);
    assert Intake(a, els, a, [], []).Moved() == {};
  }

  /** Adopt every new element before anything is removed or placed. */
  method AdoptAll(doc: Document, els: seq<NewEl>) returns (prs: seq<Pair>, ghost k: Intake)
    requires doc.Valid() && Acceptable(doc.arena, els)
    modifies doc
    ensures doc.Valid() && k.Of(old(doc.arena), els) && k.prs == prs
    ensures Ready(k, doc.arena, k.Moved())
  {
    prs := [];
    var copies: seq<Option<Tree>> := [];
    k := Intake(doc.arena, els, doc.arena, [], []);
    ReadyAtFirst(doc.arena, els);
    for i := 0 to |els|
      invariant doc.Valid() && |prs| == |copies| == i
      invariant Ready(k, doc.arena, k.Moved()) && k == Intake(old(doc.arena), els, k.a1, copies, prs)
    {
      var pr, copy;
      pr, copy, k := Adopt(doc, els, copies, k);
      prs, copies := prs + [pr], copies + [copy];
    }
  }
}
