/** `el.replace(old, new)` and `el[k] = new`. */
module Replacing {
  import opened Prelude
  import opened Arena
  import opened Dom
  import opened Siblings
  import opened SiblingEdits
  import opened PairEdits
  import opened SubtreeCopy
  import opened NewElements
  import opened Adoption
  import opened Placement
  import opened Slices
  import opened ElementEdits
  import opened SwapPlan

  // ------------------------------------------------------------------
  // Replacing one child
  // ------------------------------------------------------------------

  lemma {:induction false} UnparentSwap(parent: map<Id, Id>, seg: seq<Id>, n: Id, p: Id)
    requires n !in seg
    ensures Unparent(Reparent(parent, [n], p), seg) == Reparent(Unparent(parent, seg), [n], p)
    decreases |seg|
  {
    assert [n][..0] == [];
    if seg != [] { UnparentSwap(parent, seg[..|seg| - 1], n, p); }
  }

  lemma {:induction false} SpliceThenCut(a: Arena, p: Id, i: nat, m: nat, n: Id)
    requires p in a.kids && i + m <= |a.kids[p]| && n !in a.kids[p][i..i + m]
    ensures var b := Splice(a, p, i, [n]);
      i + 1 + m <= |b.kids[p]| && Cut(b, p, i + 1, m) == Splice(Cut(a, p, i, m), p, i, [n])
  {
    var ks := a.kids[p];
    var b := Splice(a, p, i, [n]);
    assert b.kids[p][i + 1..i + 1 + m] == ks[i..i + m];
    UnparentSwap(a.parent, ks[i..i + m], n, p);
    assert b.kids[p][..i + 1] + b.kids[p][i + 1 + m..] == ks[..i] + [n] + ks[i + m..];
    assert a.kids[p := ks[..i] + [n] + ks[i..]][p := ks[..i] + [n] + ks[i + m..]] == a.kids[p := ks[..i] + [n] + ks[i + m..]];
    var c := Cut(a, p, i, m);
    assert c.kids[p][..i] + [n] + c.kids[p][i..] == ks[..i] + [n] + ks[i + m..];
    assert c.kids[p := ks[..i] + [n] + ks[i + m..]] == a.kids[p := ks[..i] + [n] + ks[i + m..]];
  }

  /** Putting `n` in before `o` does not change what taking `o` out removes. */
  lemma {:induction false} InsertedBefore(a: Arena, b: Arena, p: Id, o: Id, n: Id)
    requires Wf(a) && Parent(a, o) == Some(p) && n in a.kind && n !in a.parent
    requires b == Splice(a, p, IndexOf(a.kids[p], o), [n]) && Wf(b)
    ensures var i := IndexOf(a.kids[p], o);
      && p in Extracted(a, o).kids && i <= |Extracted(a, o).kids[p]|
      && Extracted(b, o) == Splice(Extracted(a, o), p, i, [n])
  {
    var i, m := IndexOf(a.kids[p], o), 1 + |Tail(a, o)|;
    ExtractedIsCut(a, p, o, i, m);
    NotInSegment(a, p, i, m, n);
    SpliceThenCut(a, p, i, m, n);
    ShiftedOne(a, b, p, i, n);
    ExtractedIsCut(b, p, o, i + 1, m);
  }

  lemma {:induction false} ExtractedIsCut(a: Arena, p: Id, o: Id, i: nat, m: nat)
    requires Wf(a) && Parent(a, o) == Some(p) && IndexOf(a.kids[p], o) == i && 1 + |Tail(a, o)| == m
    ensures i < |a.kids[p]| && a.kids[p][i] == o && i + m <= |a.kids[p]| && Extracted(a, o) == Cut(a, p, i, m)
    ensures |Extracted(a, o).kids[p]| == |a.kids[p]| - m
  {
    TailFits(a, o);
  }

  lemma {:induction false} ShiftedOne(a: Arena, b: Arena, p: Id, i: nat, n: Id)
    requires Wf(a) && p in a.kids && i < |a.kids[p]| && b == Splice(a, p, i, [n]) && Wf(b)
    ensures var o := a.kids[p][i];
      && Parent(b, o) == Some(p) && IndexOf(b.kids[p], o) == i + 1 && Tail(b, o) == Tail(a, o)
  {
    OneFurther(a.kids[p], i, n, b.kids[p]);
    TailAtPosition(a, p, i);
    TailAtPosition(b, p, i + 1);
    IndexOfAt(b.kids[p], i + 1);
  }

  lemma {:induction false} OneFurther<T>(ks: seq<T>, i: nat, n: T, now: seq<T>)
    requires i < |ks| && now == ks[..i] + [n] + ks[i..]
    ensures i + 1 < |now| && now[i + 1] == ks[i] && now[i + 2..] == ks[i + 1..]
  {
  }

  lemma {:induction false} NotInSegment(a: Arena, p: Id, i: nat, m: nat, n: Id)
    requires Wf(a) && p in a.kids && i + m <= |a.kids[p]| && n !in a.parent
    ensures n !in a.kids[p][i..i + m]
  {
    var ks := a.kids[p];
    forall k | i <= k < i + m ensures ks[k] != n {
    }
  }

  lemma {:induction false} OthersLeft(cs: seq<Pair>, k: nat, own: set<Id>, prs: seq<Pair>)
    requires k < |cs| && NoDup(Nodes(cs)) && MovedAreReused(cs, prs, own) && cs[k].node !in own
    ensures Keep(cs, own + {cs[k].node}) == Keep(cs[..k], own) + Keep(cs[k + 1..], own)
  {
    var o := cs[k].node;
    SliceCleared(cs, k, k + 1, own, prs);
    assert Nodes(cs)[k] == o;
    assert Selected(cs, k, k + 1) == [o];
    UnusedOnly(o, prs);
  }

  lemma {:induction false} UnusedOnly(o: Id, prs: seq<Pair>)
    requires o !in Nodes(prs)
    ensures Unused([o], prs) == {o}
  {
    assert [o][..0] == [] && Unused([], prs) == {};
  }

  /** The position of `o` before its pair goes is the position for the new one after. */
  lemma {:induction false} SamePosition(a: Arena, p: Id, o: Pair, xs: seq<Pair>, ys: seq<Pair>)
    requires Wf(a) && p in a.kids && Children(a, p) == xs + [o] + ys
    ensures IndexOf(a.kids[p], o.node) == |Lead(a, p)| + |Flat(xs)|
  {
    var ps := Children(a, p);
    assert ps[|xs|] == o && ps[..|xs|] == xs;
    PositionOf(a, p, |xs|, |Lead(a, p)| + |Flat(xs)|);
  }

  lemma {:induction false} KeepAround(cs: seq<Pair>, k: nat, own: set<Id>)
    requires k < |cs| && cs[k].node !in own
    ensures Keep(cs, own) == Keep(cs[..k], own) + [cs[k]] + Keep(cs[k + 1..], own)
  {
    assert cs == cs[..k] + ([cs[k]] + cs[k + 1..]);
    KeepMiddle(cs[..k], cs[k], cs[k + 1..], own);
  }

  lemma {:induction false} ExtractedWf(a: Arena, o: Id)
    requires Wf(a)
    ensures Wf(Extracted(a, o))
  {
    if o in a.parent {
      TailFits(a, o);
      ExtractSteps(a, o, a.parent[o], IndexOf(a.kids[a.parent[o]], o), |Tail(a, o)|);
      var p, i := a.parent[o], IndexOf(a.kids[a.parent[o]], o);
      CutNone(a, p, i + 1);
      for j := 0 to |Tail(a, o)|
        invariant Wf(Cut(a, p, i + 1, j))
      {
        CutMore(a, p, i + 1, j);
        DetachedWf(Cut(a, p, i + 1, j), a.kids[p][i + 1 + j]);
      }
      DetachedWf(Cut(a, p, i + 1, |Tail(a, o)|), o);
    }
  }

  lemma {:induction false} OtherThanAdopted(k: Intake, a: Arena, o: Id)
    requires Wf(a) && Ready(k, a, k.Moved()) && |k.els| == |k.prs|
    requires Content(k.a0, o) && o !in OwnIds(k.els)
    ensures Content(k.a1, o) && o !in k.Moved() && o !in Flat(k.prs) && Parent(a, o) == Parent(k.a0, o)
  {
    OldNodes(k, o);
    NotInFlat(a, k.prs, o);
    DroppedTail(k.a1, a, k.Moved(), o);
  }

  lemma {:induction false} StillReady(k: Intake, a: Arena, o: Id)
    requires Wf(a) && Ready(k, a, k.Moved()) && |k.els| == |k.prs|
    requires Content(k.a0, o) && o !in OwnIds(k.els)
    ensures Ready(k, Extracted(a, o), k.Moved() + {o}) && Wf(Extracted(a, o))
    ensures Parent(a, o) == Parent(k.a0, o)
  {
    OtherThanAdopted(k, a, o);
    ExtractedWf(a, o);
    ReadyWithout(k, a, k.Moved(), o);
  }

  /** The other children, once the one at position `at` is gone as well. */
  lemma {:induction false} LeftAround(k: Intake, p: Id, at: nat, cs: seq<Pair>, o: Id)
    requires k.Sound() && Replaces(k, p, at, cs, o)
    ensures Keep(cs, OwnIds(k.els) + {o}) == Keep(cs[..at], OwnIds(k.els)) + Keep(cs[at + 1..], OwnIds(k.els))
  {
    OldNodesMoved(k, p);
    DistinctChildren(k.a0, p);
    OthersLeft(cs, at, OwnIds(k.els), k.prs);
  }

  lemma {:induction false} OldGone(k: Intake, a: Arena, p: Id, at: nat, cs: seq<Pair>, o: Id)
    requires Wf(a) && Ready(k, a, k.Moved()) && Replaces(k, p, at, cs, o)
    ensures Gap(k, p, at, cs).At(Extracted(a, o), 0) && Wf(Extracted(a, o)) && Parent(a, o) == Some(p)
  {
    LeftAround(k, p, at, cs, o);
    PairsAreTails(k.a0, p, at);
    StillReady(k, a, o);
    ReadyToPlace(k, Extracted(a, o), p, {o});
    BlockOpens(Gap(k, p, at, cs), Extracted(a, o), Keep(cs, OwnIds(k.els) + {o}));
  }

  /** Before it leaves, the child at position `at` sits after those kept before it. */
  lemma {:induction false} OneStillThere(k: Intake, a: Arena, p: Id, at: nat, cs: seq<Pair>, o: Id)
    requires Wf(a) && Ready(k, a, k.Moved()) && Replaces(k, p, at, cs, o)
    ensures p in a.kids && IndexOf(a.kids[p], o) == |Lead(k.a0, p)| + |Flat(Keep(cs[..at], OwnIds(k.els)))|
  {
    assert k.Moved() + {} == k.Moved() && OwnIds(k.els) + {} == OwnIds(k.els);
    ReadyToPlace(k, a, p, {});
    KeepAround(cs, at, OwnIds(k.els));
    SamePosition(a, p, cs[at], Keep(cs[..at], OwnIds(k.els)), Keep(cs[at + 1..], OwnIds(k.els)));
  }

  lemma {:induction false} NextPlace(block: Block, c: Arena, i: nat)
    requires block.At(c, i) && Wf(c) && i < |block.k.prs|
    ensures block.p in c.kids
    ensures Place(c, block.p, block.Anchor()) == |Lead(block.k.a0, block.p)| + |Flat(block.xs + block.k.prs[..i])|
  {
    PlaceOf(c, block.p, block.xs + block.k.prs[..i], block.ys, block.Anchor());
  }

  lemma {:induction false} PutNext(block: Block, c: Arena, i: nat, at: nat)
    requires block.At(c, i) && Wf(c) && i < |block.k.prs| && block.p in c.kids && at == Place(c, block.p, block.Anchor())
    ensures Fits(block, c, i, at)
  {
    BlockGrows(block.xs, block.k.prs, i, block.ys);
    PlaceStep(block.k, c, block.p, block.gone, i, block.xs + block.k.prs[..i], block.ys, block.Anchor());
  }

  lemma {:induction false} LooseHead(a: Arena, prs: seq<Pair>)
    requires Loose(a, Flat(prs)) && prs != []
    ensures prs[0].node in a.kind && prs[0].node !in a.parent
  {
    assert Flat(prs)[0] == prs[0].node;
  }

  lemma {:induction false} PutIn(block: Block, c: Arena, i: nat, at: nat)
    requires block.At(c, i) && Wf(c) && i < |block.k.prs| && at == |Lead(block.k.a0, block.p)| + |Flat(block.xs + block.k.prs[..i])|
    ensures Fits(block, c, i, at)
  {
    NextPlace(block, c, i);
    PutNext(block, c, i, at);
  }

  lemma {:induction false} PlaceOfOld(k: Intake, a: Arena, p: Id, at: nat, cs: seq<Pair>, o: Id)
    requires Wf(a) && Ready(k, a, k.Moved()) && Replaces(k, p, at, cs, o) && k.prs != []
    ensures Parent(a, o) == Some(p) && Wf(Extracted(a, o))
    ensures Fits(Gap(k, p, at, cs), Extracted(a, o), 0, IndexOf(Kids(a, p), o))
  {
    OldGone(k, a, p, at, cs, o);
    OneStillThere(k, a, p, at, cs, o);
    NothingBefore(Keep(cs[..at], OwnIds(k.els)), k.prs);
    PutIn(Gap(k, p, at, cs), Extracted(a, o), 0, IndexOf(Kids(a, p), o));
  }

  lemma {:induction false} NothingBefore(xs: seq<Pair>, prs: seq<Pair>)
    ensures xs + prs[..0] == xs
  {
  }

  lemma {:induction false} OnePlaced(k: Intake, a: Arena, p: Id, at: nat, cs: seq<Pair>, o: Id)
    requires Wf(k.a0) && Wf(k.a1) && Extends(k.a0, k.a1) && Replaces(k, p, at, cs, o)
    requires |k.prs| == 1 && Gap(k, p, at, cs).At(a, 1)
    ensures Assigned(k, a, p, SimpleSlice(cs, at, at + 1, OwnIds(k.els), k.prs))
  {
    PairsAreTails(k.a0, p, at);
    BlockPlaced(Gap(k, p, at, cs), a, {o});
    OneReplaced(cs, at, OwnIds(k.els), k.prs);
  }

  lemma {:induction false} OneReplaced(cs: seq<Pair>, at: nat, reused: set<Id>, prs: seq<Pair>)
    requires at < |cs|
    ensures SimpleSlice(cs, at, at + 1, reused, prs) == Keep(cs[..at], reused) + prs + Keep(cs[at + 1..], reused)
  {
  }

  /** The child at position `at` gives way: the new element first goes in front of
      the old one, then the old one leaves, then the new one's tail follows it. */
  method ReplaceChild(doc: Document, p: Id, o: Id, el: NewEl, ghost at: nat) returns (ghost k: Intake)
    requires doc.Valid() && p in doc.arena.kids && Usable(doc.arena, [el], 0) && Own(o) != el
    requires at < |Children(doc.arena, p)| && Children(doc.arena, p)[at].node == o
    modifies doc
    ensures doc.Valid() && k.Of(old(doc.arena), [el])
    ensures Assigned(k, doc.arena, p, SimpleSlice(old(Children(doc.arena, p)), at, at + 1, OwnIds([el]), k.prs))
  {
    ghost var cs := Children(doc.arena, p);
    OneAcceptable(doc.arena, el);
    NotThis(o, el);
    var adopted;
    adopted, k := AdoptAll(doc, [el]);
    Exchange(doc, p, o, adopted, k, at, cs);
  }

  lemma {:induction false} NotThis(o: Id, el: NewEl)
    requires Own(o) != el
    ensures o !in OwnIds([el])
  {
  }

  /** `el.replace(old, new)`, and `el[at] = new` for the child at `at`: the same as
      assigning `[new]` to the slice that holds just the old one. */
  method Replace(doc: Document, p: Id, o: Id, el: NewEl) returns (done: bool, ghost at: nat, ghost k: Intake)
    requires doc.Valid() && p in doc.arena.kids && Content(doc.arena, o) && Usable(doc.arena, [el], 0) && el != Own(o)
    modifies doc
    ensures doc.Valid() && (done <==> Parent(old(doc.arena), o) == Some(p))
    ensures !done ==> doc.arena == old(doc.arena)
    ensures done ==>
      var cs := old(Children(doc.arena, p));
      && at < |cs| && cs[at].node == o && k.Of(old(doc.arena), [el])
      && Assigned(k, doc.arena, p, SimpleSlice(cs, at, at + 1, OwnIds([el]), k.prs))
  {
    at, k := 0, Intake(doc.arena, [el], doc.arena, [], []);
    if Parent(doc.arena, o) != Some(p) {
      return false, at, k;
    }
    at := TailInPair(doc.arena, o);
    k := ReplaceChild(doc, p, o, el, at);
    done := true;
  }

  method Exchange(doc: Document, p: Id, o: Id, adopted: seq<Pair>, ghost k: Intake, ghost at: nat, ghost cs: seq<Pair>)
    requires doc.Valid() && Ready(k, doc.arena, k.Moved()) && Replaces(k, p, at, cs, o) && adopted == k.prs && |adopted| == 1
    modifies doc
    ensures doc.Valid() && Assigned(k, doc.arena, p, SimpleSlice(cs, at, at + 1, OwnIds(k.els), adopted))
  {
    PlaceOfOld(k, doc.arena, p, at, cs, o);
    LooseHead(doc.arena, adopted);
    SwapPair(doc, p, o, adopted[0]);
    OnePlaced(k, doc.arena, p, at, cs, o);
  }

  /** The three edits amount to taking `o` out and putting the pair in its place. */
  method SwapPair(doc: Document, p: Id, o: Id, pr: Pair)
    requires doc.Valid() && Parent(doc.arena, o) == Some(p) && pr.node in doc.arena.kind && pr.node !in doc.arena.parent
    requires Loose(Extracted(doc.arena, o), [pr.node] + pr.tail)
    modifies doc
    ensures doc.Valid() && var a := old(doc.arena); var i := IndexOf(a.kids[p], o);
      && p in Extracted(a, o).kids && i <= |Extracted(a, o).kids[p]|
      && doc.arena == Splice(Extracted(a, o), p, i, [pr.node] + pr.tail)
  {
    ghost var a, i := doc.arena, IndexOf(doc.arena.kids[p], o);
    SpliceNone(a, p, i);
    SpliceMore(a, p, i, [], pr.node);
    assert [] + [pr.node] == [pr.node];
    doc.InsertBefore(p, pr.node, o);
    InsertedBefore(a, doc.arena, p, o, pr.node);
    var tail := Extract(doc, o);
    SpliceAgain(Extracted(a, o), p, i, pr.node, pr.tail);
    LooseTail(Extracted(a, o), p, i, pr.node, pr.tail);
    AttachTail(doc, p, pr.tail, pr.node, i);
  }
}
