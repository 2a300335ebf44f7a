/** Slice assignment on the content children of an element, against what it
    should do to their list. */
module Slices {
  import opened Prelude
  import opened Arena
  import opened Dom
  import opened Siblings
  import opened SiblingEdits
  import opened PairEdits
  import opened SubtreeCopy
  import opened NewElements
  import opened Adoption
  import opened Placement

  /** What slice assignment leaves behind: `p` has the children `now` and its
      leading text, every other list, here and in the copies, has lost what moved. */
  ghost predicate Assigned(k: Intake, a: Arena, p: Id, now: seq<Pair>) {
    && a.kind == k.a1.kind && p in a.kids
    && Lead(a, p) == Lead(k.a0, p) && Children(a, p) == now
    && OthersLose(k.a1, a, p, k.Moved())
  }

  /** Among the children `cs`, those that come in again are the ones that moved. */
  ghost predicate MovedAreReused(cs: seq<Pair>, prs: seq<Pair>, reused: set<Id>) {
    forall i :: 0 <= i < |cs| ==> (cs[i].node in Nodes(prs) <==> cs[i].node in reused)
  }

  /** What the simple slice makes of the children `cs`. */
  function SimpleSlice(cs: seq<Pair>, start: nat, stop: nat, reused: set<Id>, added: seq<Pair>): seq<Pair>
    requires start <= |cs| && stop <= |cs|
  {
    Keep(cs[..Min(start, stop)], reused) + added + Keep(cs[stop..], reused)
  }

  /** List assignment `cs[start:stop] = added`, where what moves leaves its old place. */
  function ListSlice(cs: seq<Pair>, start: nat, stop: nat, reused: set<Id>, added: seq<Pair>): seq<Pair>
    requires start <= |cs| && stop <= |cs|
  {
    Keep(cs[..start], reused) + added + Keep(cs[if start < stop then stop else start..], reused)
  }

  /** The two agree exactly when the slice is not reversed, or nothing is
      assigned, or every child between the bounds is moved anyway. */
  lemma {:induction false} SimpleSliceIsListSlice(cs: seq<Pair>, start: nat, stop: nat, reused: set<Id>, added: seq<Pair>)
    requires start <= |cs| && stop <= |cs| && MovedAreReused(cs, added, reused)
    ensures SimpleSlice(cs, start, stop, reused, added) == ListSlice(cs, start, stop, reused, added)
      <==> start <= stop || added == [] || forall i :: stop <= i < start ==> cs[i].node in reused
  {
    if stop < start {
      var mid := cs[stop..start];
      var m := Keep(mid, reused);
      assert cs[..start] == cs[..stop] + mid && cs[stop..] == mid + cs[start..];
      KeepConcat(cs[..stop], mid, reused);
      KeepConcat(mid, cs[start..], reused);
      NothingKept(mid, reused);
      assert forall i :: stop <= i < start ==> cs[i] == mid[i - stop];
      if m != [] {
        var i := KeptFrom(mid, reused, m[0]);
        assert cs[stop + i] == m[0] && m[0].node !in reused;
        if added != [] { assert Nodes(added)[0] == added[0].node; }
      }
      BlockMoved(Keep(cs[..stop], reused), m, added, Keep(cs[start..], reused));
    }
  }

  lemma {:induction false} NothingKept(ps: seq<Pair>, gone: set<Id>)
    ensures Keep(ps, gone) == [] <==> forall i :: 0 <= i < |ps| ==> ps[i].node in gone
  {
    if ps != [] {
      NothingKept(ps[1..], gone);
      assert forall i :: 0 < i < |ps| ==> ps[i] == ps[1..][i - 1];
    }
  }

  lemma {:induction false} KeptFrom(ps: seq<Pair>, gone: set<Id>, p: Pair) returns (i: nat)
    requires p in Keep(ps, gone)
    ensures i < |ps| && ps[i] == p && p.node !in gone
  {
    KeepMember(ps, gone, p);
    i :| 0 <= i < |ps| && ps[i] == p;
  }

  lemma {:induction false} BlockMoved(x: seq<Pair>, m: seq<Pair>, n: seq<Pair>, y: seq<Pair>)
    requires m != [] && n != [] ==> m[0] != n[0]
    ensures x + n + (m + y) == (x + m) + n + y <==> n == [] || m == []
  {
    var l, r := x + n + (m + y), (x + m) + n + y;
    if n == [] {
      assert l == r;
    } else if m == [] {
      assert l == r;
    } else {
      assert l[|x|] == n[0] && r[|x|] == m[0];
    }
  }

  // ------------------------------------------------------------------
  // The simple slice
  // ------------------------------------------------------------------

  method ContentChildren(a: Arena, p: Id) returns (kids: seq<Id>)
    requires Wf(a) && p in a.kids
    ensures kids == Nodes(Children(a, p))
  {
    kids := [];
    var cur := FirstChild(a, p);
    ghost var i := 0;
    assert Kids(a, p)[0..] == Kids(a, p);
    while cur.Some?
      invariant i <= |Kids(a, p)| && cur == ChildAt(a, p, i)
      invariant ListedTo(a.kind, Kids(a, p), i, kids)
      decreases |Kids(a, p)| - i
    {
      ListNext(a.kind, Kids(a, p), i, kids);
      if !IsText(a.kind, cur.value) {
        kids := kids + [cur.value];
      }
      SiblingStep(a, p, i);
      cur := NextSibling(a, cur.value);
      i := i + 1;
    }
    assert kids + [] == kids;
  }

  ghost predicate ListedTo(kind: Kinds, ks: seq<Id>, i: nat, kids: seq<Id>) {
    i <= |ks| && Nodes(Pairs(kind, ks)) == kids + Nodes(Pairs(kind, ks[i..]))
  }

  lemma {:induction false} ListNext(kind: Kinds, ks: seq<Id>, i: nat, kids: seq<Id>)
    requires ListedTo(kind, ks, i, kids) && i < |ks|
    ensures ListedTo(kind, ks, i + 1, if IsText(kind, ks[i]) then kids else kids + [ks[i]])
  {
    assert ks[i..][0] == ks[i] && ks[i..][1..] == ks[i + 1..];
    NodesStep(kind, ks[i..]);
  }

  lemma {:induction false} NodesStep(kind: Kinds, ks: seq<Id>)
    requires ks != []
    ensures Nodes(Pairs(kind, ks)) == (if IsText(kind, ks[0]) then [] else [ks[0]]) + Nodes(Pairs(kind, ks[1..]))
  {
  }

  lemma {:induction false} ChildrenAreContent(a: Arena, p: Id)
    requires Wf(a)
    ensures var ns := Nodes(Children(a, p)); NoDup(ns) && forall i :: 0 <= i < |ns| ==> Content(a, ns[i]) && Parent(a, ns[i]) == Some(p)
  {
    DistinctChildren(a, p);
    forall i | 0 <= i < |Children(a, p)| ensures Content(a, Children(a, p)[i].node) && Parent(a, Children(a, p)[i].node) == Some(p) {
      PairsAreTails(a, p, i);
    }
  }

  /** The ids that a slice selects; none if the bounds are reversed. */
  function Selected(cs: seq<Pair>, start: nat, stop: nat): seq<Id>
    requires start <= |cs| && stop <= |cs|
  {
    if start < stop then Nodes(cs)[start..stop] else []
  }

  /** What is left of the children once the slice is cleared. */
  lemma {:induction false} SliceCleared(cs: seq<Pair>, start: nat, stop: nat, reused: set<Id>, prs: seq<Pair>)
    requires start <= |cs| && stop <= |cs| && NoDup(Nodes(cs))
    requires forall i :: 0 <= i < |cs| ==> (cs[i].node in Nodes(prs) <==> cs[i].node in reused)
    ensures Keep(cs, reused + Unused(Selected(cs, start, stop), prs))
         == Keep(cs[..Min(start, stop)], reused) + Keep(cs[stop..], reused)
  {
    var x, y := cs[..Min(start, stop)], cs[stop..];
    if start < stop {
      assert cs == x + (cs[start..stop] + y);
      SliceMembers(cs, start, stop, reused, prs);
      KeepThree(x, cs[start..stop], y, reused, Unused(Selected(cs, start, stop), prs));
    } else {
      assert Unused([], prs) == {} && reused + {} == reused;
      assert cs == x + y;
      KeepConcat(x, y, reused);
    }
  }

  lemma {:induction false} KeepThree(x: seq<Pair>, mid: seq<Pair>, y: seq<Pair>, reused: set<Id>, cut: set<Id>)
    requires forall i :: 0 <= i < |mid| ==> mid[i].node in reused + cut
    requires forall i :: 0 <= i < |x| ==> x[i].node !in cut
    requires forall i :: 0 <= i < |y| ==> y[i].node !in cut
    ensures Keep(x + (mid + y), reused + cut) == Keep(x, reused) + Keep(y, reused)
  {
    KeepConcat(x, mid + y, reused + cut);
    KeepConcat(mid, y, reused + cut);
    KeepNone(mid, reused + cut);
    KeepSame(x, reused, reused + cut);
    KeepSame(y, reused, reused + cut);
  }

  lemma {:induction false} SliceMembers(cs: seq<Pair>, start: nat, stop: nat, reused: set<Id>, prs: seq<Pair>)
    requires start <= stop <= |cs| && NoDup(Nodes(cs))
    requires forall i :: 0 <= i < |cs| ==> (cs[i].node in Nodes(prs) <==> cs[i].node in reused)
    ensures var cut := Unused(Nodes(cs)[start..stop], prs);
      && (forall i :: 0 <= i < |cs[start..stop]| ==> cs[start..stop][i].node in reused + cut)
      && (forall i :: 0 <= i < |cs[..start]| ==> cs[..start][i].node !in cut)
      && (forall i :: 0 <= i < |cs[stop..]| ==> cs[stop..][i].node !in cut)
  {
    var ids := Nodes(cs)[start..stop];
    forall i | 0 <= i < |cs[start..stop]| ensures cs[start..stop][i].node in reused + Unused(ids, prs) {
      assert ids[i] == cs[start + i].node == cs[start..stop][i].node;
    }
    forall i | 0 <= i < |cs[..start]| ensures cs[..start][i].node !in Unused(ids, prs) {
      NotSelected(cs, start, stop, i);
    }
    forall i | 0 <= i < |cs[stop..]| ensures cs[stop..][i].node !in Unused(ids, prs) {
      NotSelected(cs, start, stop, stop + i);
    }
  }

  lemma {:induction false} NotSelected(cs: seq<Pair>, start: nat, stop: nat, i: nat)
    requires start <= stop <= |cs| && NoDup(Nodes(cs)) && i < |cs| && (i < start || stop <= i)
    ensures cs[i].node !in Nodes(cs)[start..stop]
  {
    var ids := Nodes(cs)[start..stop];
    forall j | 0 <= j < |ids| ensures ids[j] != cs[i].node {
      assert ids[j] == Nodes(cs)[start + j] && Nodes(cs)[i] == cs[i].node;
    }
  }

  /** The first child after the slice that is still there. */
  method FindAnchor(a: Arena, p: Id, rest: seq<Id>, prs: seq<Pair>, ghost cs: seq<Pair>, ghost reused: set<Id>) returns (anchor: Option<Id>)
    requires Wf(a) && rest == Nodes(cs) && MovedAreReused(cs, prs, reused) && KeptHere(a, p, cs, reused)
    ensures Anchors(Keep(cs, reused), anchor)
  {
    anchor := None;
    assert cs[0..] == cs;
    for i := 0 to |rest|
      invariant anchor == None && Keep(cs, reused) == Keep(cs[i..], reused)
    {
      assert cs[i..][0] == cs[i] && cs[i..][1..] == cs[i + 1..];
      if rest[i] !in Nodes(prs) && Parent(a, rest[i]) == Some(p) {
        return Some(rest[i]);
      }
    }
  }

  /** A block of pairs that goes in between `xs` and `ys`. */
  datatype Block = Block(k: Intake, p: Id, gone: set<Id>, xs: seq<Pair>, ys: seq<Pair>) {
    ghost predicate At(a: Arena, i: nat) {
      i <= |k.prs| && Placing(k, a, p, gone, i, (xs + k.prs[..i]) + ys)
    }

    function Anchor(): Option<Id> {
      if ys == [] then None else Some(ys[0].node)
    }
  }

  method PlaceInBlock(doc: Document, p: Id, prs: seq<Pair>, i: nat, anchor: Option<Id>, ghost block: Block)
    requires doc.Valid() && block.At(doc.arena, i) && i < |prs| && p == block.p && prs == block.k.prs && Anchors(block.ys, anchor)
    modifies doc
    ensures doc.Valid() && block.At(doc.arena, i + 1)
  {
    BlockGrows(block.xs, prs, i, block.ys);
    PlaceNext(doc, p, prs, i, anchor, block.k, block.gone, block.xs + prs[..i], block.ys);
  }

  /** All the new elements go before one anchor, in order. */
  method PlaceBlock(doc: Document, p: Id, prs: seq<Pair>, anchor: Option<Id>, ghost block: Block)
    requires doc.Valid() && block.At(doc.arena, 0) && p == block.p && prs == block.k.prs && Anchors(block.ys, anchor)
    modifies doc
    ensures doc.Valid() && block.At(doc.arena, |prs|)
  {
    for i := 0 to |prs|
      invariant doc.Valid() && block.At(doc.arena, i)
    {
      PlaceInBlock(doc, p, prs, i, anchor, block);
    }
  }

  lemma {:induction false} BlockGrows(xs: seq<Pair>, prs: seq<Pair>, i: nat, ys: seq<Pair>)
    requires i < |prs|
    ensures (xs + prs[..i]) + [prs[i]] + ys == (xs + prs[..i + 1]) + ys
  {
    assert prs[..i + 1] == prs[..i] + [prs[i]];
  }

  /** Once everything is placed, lists other than `p`'s have lost only moved pairs. */
  lemma {:induction false} AllPlaced(k: Intake, a: Arena, p: Id, cut: set<Id>, now: seq<Pair>)
    requires Wf(k.a1) && Placing(k, a, p, k.Moved() + cut, |k.prs|, now)
    requires forall n :: n in cut ==> Parent(k.a1, n) == Some(p)
    ensures Assigned(k, a, p, now)
  {
    forall q | q in k.a1.kids && q != p ensures Loses(k.a1, a, q, k.Moved()) {
      assert Loses(k.a1, a, q, k.Moved() + cut);
      ChildrenAreContent(k.a1, q);
      assert forall i :: 0 <= i < |Children(k.a1, q)| ==> Children(k.a1, q)[i].node == Nodes(Children(k.a1, q))[i];
      KeepSame(Children(k.a1, q), k.Moved(), k.Moved() + cut);
    }
  }

  /** Old children stay children of their parent when copies are added. */
  lemma {:induction false} CutIsHere(k: Intake, p: Id, cut: set<Id>)
    requires Extends(k.a0, k.a1) && forall n :: n in cut ==> n in k.a0.kind && Parent(k.a0, n) == Some(p)
    ensures forall n :: n in cut ==> Parent(k.a1, n) == Some(p)
  {
  }

  ghost predicate KeptHere(a: Arena, p: Id, cs: seq<Pair>, reused: set<Id>) {
    forall i :: 0 <= i < |cs| && cs[i].node !in reused ==> Parent(a, cs[i].node) == Some(p)
  }

  lemma {:induction false} OldNodesMoved(k: Intake, p: Id)
    requires k.Sound() && |k.prs| == |k.els|
    ensures MovedAreReused(Children(k.a0, p), k.prs, OwnIds(k.els))
  {
    var cs := Children(k.a0, p);
    ChildrenAreContent(k.a0, p);
    forall i | 0 <= i < |cs| ensures cs[i].node in Nodes(k.prs) <==> cs[i].node in OwnIds(k.els) {
      assert Nodes(cs)[i] == cs[i].node;
      OldNodes(k, cs[i].node);
    }
  }

  lemma {:induction false} RestStays(a: Arena, p: Id, xs: seq<Pair>, rest: seq<Pair>, reused: set<Id>)
    requires Wf(a) && Children(a, p) == xs + Keep(rest, reused)
    ensures KeptHere(a, p, rest, reused)
  {
    forall i | 0 <= i < |rest| && rest[i].node !in reused ensures Parent(a, rest[i].node) == Some(p) {
      KeepMember(rest, reused, rest[i]);
      StillChild(a, p, xs, Keep(rest, reused), rest[i]);
    }
  }

  lemma {:induction false} StillChild(a: Arena, p: Id, xs: seq<Pair>, ys: seq<Pair>, c: Pair)
    requires Wf(a) && Children(a, p) == xs + ys && c in ys
    ensures Parent(a, c.node) == Some(p)
  {
    var i :| 0 <= i < |ys| && ys[i] == c;
    assert (xs + ys)[|xs| + i] == c;
    PairsAreTails(a, p, |xs| + i);
  }

  /** What an assignment to `cs[start:stop]` has to work with. */
  datatype SlicePlan = SlicePlan(a0: Arena, p: Id, start: nat, stop: nat, els: seq<NewEl>) {
    ghost predicate Sound() {
      && Wf(a0) && p in a0.kids && start <= |Cs()| && stop <= |Cs()|
      && Acceptable(a0, els)
    }

    function Cs(): seq<Pair> { Children(a0, p) }

    function Reused(): set<Id> { OwnIds(els) }

    function Cut(prs: seq<Pair>): set<Id>
      requires start <= |Cs()| && stop <= |Cs()|
    {
      Unused(Selected(Cs(), start, stop), prs)
    }

    function Front(): seq<Pair>
      requires start <= |Cs()| && stop <= |Cs()|
    {
      Keep(Cs()[..Min(start, stop)], Reused())
    }

    function Rest(): seq<Pair>
      requires stop <= |Cs()|
    {
      Keep(Cs()[stop..], Reused())
    }

    /** Everything is adopted, and the slice is cleared. */
    ghost predicate Cleared(a: Arena, k: Intake) {
      && Sound() && k.Of(a0, els)
      && Placing(k, a, p, k.Moved() + Cut(k.prs), 0, Front() + Rest())
      && MovedAreReused(Cs(), k.prs, Reused()) && KeptHere(a, p, Cs()[stop..], Reused())
    }

    /** The new elements are where the slice was. */
    ghost predicate Filled(a: Arena, k: Intake) {
      && start <= |Cs()| && stop <= |Cs()| && MovedAreReused(Cs(), k.prs, Reused())
      && Assigned(k, a, p, SimpleSlice(Cs(), start, stop, Reused(), k.prs))
    }
  }

  lemma {:induction false} SliceReady(plan: SlicePlan, a: Arena, k: Intake)
    requires plan.Sound() && Wf(a) && k.Of(plan.a0, plan.els)
    requires Ready(k, a, k.Moved() + plan.Cut(k.prs))
    ensures plan.Cleared(a, k)
  {
    OldNodesMoved(k, plan.p);
    DistinctChildren(plan.a0, plan.p);
    SliceCleared(plan.Cs(), plan.start, plan.stop, plan.Reused(), k.prs);
    ReadyToPlace(k, a, plan.p, plan.Cut(k.prs));
    RestStays(a, plan.p, plan.Front(), plan.Cs()[plan.stop..], plan.Reused());
  }

  /** Adopt the new elements, then drop the selected children they did not reuse. */
  method ClearSlice(doc: Document, selected: seq<Id>, els: seq<NewEl>, ghost plan: SlicePlan) returns (adopted: seq<Pair>, ghost k: Intake)
    requires doc.Valid() && plan.Sound() && plan.a0 == doc.arena && plan.els == els
    requires selected == Selected(plan.Cs(), plan.start, plan.stop)
    modifies doc
    ensures doc.Valid() && plan.Cleared(doc.arena, k) && k.prs == adopted
  {
    adopted, k := AdoptAll(doc, els);
    SelectedAreContent(plan);
    DropUnused(doc, selected, adopted, k);
    SliceReady(plan, doc.arena, k);
  }

  lemma {:induction false} SelectedAreContent(plan: SlicePlan)
    requires plan.Sound()
    ensures var ids := Selected(plan.Cs(), plan.start, plan.stop);
      NoDup(ids) && forall i :: 0 <= i < |ids| ==> Content(plan.a0, ids[i]) && Parent(plan.a0, ids[i]) == Some(plan.p)
  {
    ChildrenAreContent(plan.a0, plan.p);
  }

  /** Find the anchor and place the new elements before it. */
  method FillSlice(doc: Document, p: Id, rest: seq<Id>, adopted: seq<Pair>, ghost plan: SlicePlan, ghost k: Intake)
    requires doc.Valid() && plan.Cleared(doc.arena, k) && k.prs == adopted && p == plan.p && rest == Nodes(plan.Cs()[plan.stop..])
    modifies doc
    ensures doc.Valid() && plan.Filled(doc.arena, k)
  {
    RestMoved(plan.Cs(), plan.stop, adopted, plan.Reused());
    var anchor := FindAnchor(doc.arena, p, rest, adopted, plan.Cs()[plan.stop..], plan.Reused());
    ghost var block := Block(k, p, k.Moved() + plan.Cut(adopted), plan.Front(), plan.Rest());
    assert block.xs + adopted[..0] == block.xs;
    PlaceBlock(doc, p, adopted, anchor, block);
    SliceFilled(plan, doc.arena, block);
  }

  lemma {:induction false} SliceFilled(plan: SlicePlan, a: Arena, block: Block)
    requires plan.Sound() && block.k.Of(plan.a0, plan.els)
    requires MovedAreReused(plan.Cs(), block.k.prs, plan.Reused()) && block.At(a, |block.k.prs|)
    requires block == Block(block.k, plan.p, block.k.Moved() + plan.Cut(block.k.prs), plan.Front(), plan.Rest())
    ensures plan.Filled(a, block.k)
  {
    var prs := block.k.prs;
    assert prs[..|prs|] == prs;
    SelectedAreContent(plan);
    CutIsHere(block.k, plan.p, plan.Cut(prs));
    AllPlaced(block.k, a, plan.p, plan.Cut(prs), plan.Front() + prs + plan.Rest());
  }

  lemma {:induction false} RestMoved(cs: seq<Pair>, stop: nat, prs: seq<Pair>, reused: set<Id>)
    requires stop <= |cs| && MovedAreReused(cs, prs, reused)
    ensures MovedAreReused(cs[stop..], prs, reused)
  {
  }

  /** `el[start:stop] = els`. */
  method SetSimpleSlice(doc: Document, p: Id, start: nat, stop: nat, els: seq<NewEl>) returns (ghost k: Intake)
    requires doc.Valid() && p in doc.arena.kids && start <= |Children(doc.arena, p)| && stop <= |Children(doc.arena, p)|
    requires Acceptable(doc.arena, els)
    modifies doc
    ensures doc.Valid() && k.Of(old(doc.arena), els)
    ensures MovedAreReused(old(Children(doc.arena, p)), k.prs, OwnIds(els))
    ensures Assigned(k, doc.arena, p, SimpleSlice(old(Children(doc.arena, p)), start, stop, OwnIds(els), k.prs))
  {
    ghost var plan := SlicePlan(doc.arena, p, start, stop, els);
    var kids := ContentChildren(doc.arena, p);
    var adopted;
    adopted, k := ClearSlice(doc, if start < stop then kids[start..stop] else [], els, plan);
    assert kids[stop..] == Nodes(plan.Cs()[stop..]);
    FillSlice(doc, p, kids[stop..], adopted, plan, k);
  }
}
