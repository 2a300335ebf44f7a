/** Removing what a slice assignment drops and placing what it brings in. */
module Placement {
  import opened Prelude
  import opened Arena
  import opened Dom
  import opened Siblings
  import opened SiblingEdits
  import opened PairEdits
  import opened SubtreeCopy
  import opened NewElements
  import opened Adoption

  // ------------------------------------------------------------------
  // Dropping the old children that are not used again
  // ------------------------------------------------------------------

  /** The ids of `ks` that no adopted pair holds. */
  function Unused(ks: seq<Id>, prs: seq<Pair>): (r: set<Id>)
    ensures forall n :: n in r <==> n in ks && n !in Nodes(prs)
  {
    if ks == [] then {}
    else
      var last := ks[|ks| - 1];
      assert forall n :: n in ks <==> n in ks[..|ks| - 1] || n == last;
      Unused(ks[..|ks| - 1], prs) + if last in Nodes(prs) then {} else {last}
  }

  method DropUnused(doc: Document, ks: seq<Id>, prs: seq<Pair>, ghost k: Intake)
    requires doc.Valid() && Ready(k, doc.arena, k.Moved()) && k.prs == prs && |prs| == |k.els|
    requires NoDup(ks) && forall i :: 0 <= i < |ks| ==> Content(k.a0, ks[i])
    modifies doc
    ensures doc.Valid() && Ready(k, doc.arena, k.Moved() + Unused(ks, prs))
  {
    assert k.Moved() + {} == k.Moved();
    for i := 0 to |ks|
      invariant doc.Valid() && Ready(k, doc.arena, k.Moved() + Unused(ks[..i], prs))
    {
      DropNext(doc, ks, i, prs, k);
    }
    assert ks[..|ks|] == ks;
  }

  method DropNext(doc: Document, ks: seq<Id>, i: nat, prs: seq<Pair>, ghost k: Intake)
    requires doc.Valid() && k.prs == prs && |prs| == |k.els| && NoDup(ks) && i < |ks| && Content(k.a0, ks[i])
    requires Ready(k, doc.arena, k.Moved() + Unused(ks[..i], prs))
    modifies doc
    ensures doc.Valid() && Ready(k, doc.arena, k.Moved() + Unused(ks[..i + 1], prs))
  {
    UnusedNext(ks, i, prs);
    GroupSets(k.Moved(), Unused(ks[..i], prs), Unused(ks[..i + 1], prs), ks[i]);
    if ks[i] !in Nodes(prs) {
      OldNodes(k, ks[i]);
      NotInFlat(doc.arena, prs, ks[i]);
      DropOne(doc, ks[i], k.Moved() + Unused(ks[..i], prs), k);
    }
  }

  lemma {:induction false} GroupSets(a: set<Id>, b: set<Id>, c: set<Id>, n: Id)
    ensures c == b ==> a + c == a + b
    ensures c == b + {n} ==> a + c == a + b + {n}
  {
  }

  lemma {:induction false} UnusedNext(ks: seq<Id>, i: nat, prs: seq<Pair>)
    requires NoDup(ks) && i < |ks|
    ensures Unused(ks[..i + 1], prs) == Unused(ks[..i], prs) + if ks[i] in Nodes(prs) then {} else {ks[i]}
    ensures ks[i] !in Unused(ks[..i], prs)
  {
    assert ks[..i + 1][..i] == ks[..i] && ks[..i + 1][i] == ks[i];
  }

  method DropOne(doc: Document, n: Id, ghost gone: set<Id>, ghost k: Intake)
    requires doc.Valid() && Ready(k, doc.arena, gone) && Content(k.a0, n) && n !in gone && n !in Flat(k.prs)
    modifies doc
    ensures doc.Valid() && Ready(k, doc.arena, gone + {n})
  {
    ReadyWithout(k, doc.arena, gone, n);
    var tail := Extract(doc, n);
  }

  // ------------------------------------------------------------------
  // Placing the adopted pairs
  // ------------------------------------------------------------------

  /** The first `i` pairs are placed: `p` has the children `now`, every other
      list has lost the pairs of `gone`, the other pairs are still detached. */
  ghost predicate Placing(k: Intake, a: Arena, p: Id, gone: set<Id>, i: nat, now: seq<Pair>) {
    && i <= |k.prs| && p in a.kids && a.kind == k.a1.kind
    && Lead(a, p) == Lead(k.a0, p) && Children(a, p) == now
    && OthersLose(k.a1, a, p, gone)
    && Proper(a.kind, k.prs) && Loose(a, Flat(k.prs[i..]))
  }

  /** Every sibling list but `p`'s has lost the pairs of `gone`. */
  ghost predicate OthersLose(a0: Arena, a: Arena, p: Id, gone: set<Id>) {
    forall q {:trigger Loses(a0, a, q, gone)} :: q in a0.kids && q != p ==> Loses(a0, a, q, gone)
  }

  /** `p`'s own list loses the listed elements of this document and those of `cut`. */
  lemma {:induction false} ReadyToPlace(k: Intake, a: Arena, p: Id, cut: set<Id>)
    requires Ready(k, a, k.Moved() + cut) && |k.prs| == |k.els| && p in k.a0.kids
    ensures Placing(k, a, p, k.Moved() + cut, 0, Keep(Children(k.a0, p), OwnIds(k.els) + cut))
  {
    assert k.prs[0..] == k.prs;
    assert Loses(k.a1, a, p, k.Moved() + cut);
    ListStays(k.a0, k.a1, p);
    SameKept(k, p, cut);
  }

  lemma {:induction false} SameKept(k: Intake, p: Id, cut: set<Id>)
    requires k.Sound() && |k.prs| == |k.els|
    ensures Keep(Children(k.a0, p), k.Moved() + cut) == Keep(Children(k.a0, p), OwnIds(k.els) + cut)
  {
    var cs := Children(k.a0, p);
    forall i | 0 <= i < |cs| ensures cs[i].node in k.Moved() + cut <==> cs[i].node in OwnIds(k.els) + cut {
      PairsAreTails(k.a0, p, i);
      OldNodes(k, cs[i].node);
    }
    KeepSame(cs, k.Moved() + cut, OwnIds(k.els) + cut);
  }

  ghost predicate Anchors(ys: seq<Pair>, anchor: Option<Id>) {
    anchor == if ys == [] then None else Some(ys[0].node)
  }

  lemma {:induction false} NextIsLoose(a: Arena, prs: seq<Pair>, i: nat)
    requires i < |prs| && Loose(a, Flat(prs[i..]))
    ensures Loose(a, [prs[i].node] + prs[i].tail) && Loose(a, Flat(prs[i + 1..]))
    ensures forall x :: x in Flat(prs[i + 1..]) ==> x !in [prs[i].node] + prs[i].tail
  {
    var seg, rest := [prs[i].node] + prs[i].tail, Flat(prs[i + 1..]);
    assert prs[i..][0] == prs[i] && prs[i..][1..] == prs[i + 1..];
    assert Flat(prs[i..]) == seg + rest;
    LoosePrefix(a, seg, rest);
    LooseSuffix(a, seg, rest);
  }

  lemma {:induction false} LooseSuffix(a: Arena, ns: seq<Id>, ms: seq<Id>)
    requires Loose(a, ns + ms)
    ensures Loose(a, ms) && forall x :: x in ms ==> x !in ns
  {
    assert forall i :: 0 <= i < |ms| ==> ms[i] == (ns + ms)[|ns| + i];
    forall i, j | 0 <= i < |ms| && 0 <= j < |ns| ensures ms[i] != ns[j] {
      assert (ns + ms)[j] != (ns + ms)[|ns| + i];
    }
  }

  lemma {:induction false} SplicedLoose(a: Arena, p: Id, i: nat, seg: seq<Id>, ns: seq<Id>)
    requires p in a.kids && i <= |a.kids[p]| && Loose(a, ns) && forall x :: x in ns ==> x !in seg
    ensures Loose(Splice(a, p, i, seg), ns)
  {
    var b := Splice(a, p, i, seg);
    forall j | 0 <= j < |ns| ensures ns[j] in b.kind && ns[j] !in b.parent {
      ReparentOther(a.parent, seg, p, ns[j]);
    }
  }

  lemma {:induction false} PlaceStep(k: Intake, a: Arena, p: Id, gone: set<Id>, i: nat, xs: seq<Pair>, ys: seq<Pair>, anchor: Option<Id>)
    requires Wf(a) && Placing(k, a, p, gone, i, xs + ys) && i < |k.prs| && Anchors(ys, anchor)
    ensures Loose(a, [k.prs[i].node] + k.prs[i].tail) && (anchor.Some? ==> anchor.value in a.kids[p])
    ensures var b := Splice(a, p, Place(a, p, anchor), [k.prs[i].node] + k.prs[i].tail);
            Placing(k, b, p, gone, i + 1, xs + [k.prs[i]] + ys)
  {
    var pr := k.prs[i];
    var seg := [pr.node] + pr.tail;
    var b := Splice(a, p, Place(a, p, anchor), seg);
    NextIsLoose(a, k.prs, i);
    PlaceOf(a, p, xs, ys, anchor);
    assert Proper(a.kind, [pr]);
    SplicedView(a, p, xs, pr, ys, anchor);
    SplicedLoose(a, p, Place(a, p, anchor), seg, Flat(k.prs[i + 1..]));
    OthersKept(k.a1, a, b, p, gone);
  }

  lemma {:induction false} OthersKept(a0: Arena, a: Arena, b: Arena, p: Id, gone: set<Id>)
    requires b.kind == a.kind && b.kids.Keys == a.kids.Keys && forall q :: q in a.kids && q != p ==> b.kids[q] == a.kids[q]
    requires OthersLose(a0, a, p, gone)
    ensures OthersLose(a0, b, p, gone)
  {
    forall q | q in a0.kids && q != p ensures Loses(a0, b, q, gone) {
      assert Loses(a0, a, q, gone);
    }
  }

  /** Place the `i`-th adopted pair before its anchor. */
  method PlaceNext(doc: Document, p: Id, prs: seq<Pair>, i: nat, anchor: Option<Id>,
                   ghost k: Intake, ghost gone: set<Id>, ghost xs: seq<Pair>, ghost ys: seq<Pair>)
    requires doc.Valid() && Placing(k, doc.arena, p, gone, i, xs + ys) && i < |prs| && k.prs == prs && Anchors(ys, anchor)
    modifies doc
    ensures doc.Valid() && Placing(k, doc.arena, p, gone, i + 1, xs + [prs[i]] + ys)
  {
    PlaceStep(k, doc.arena, p, gone, i, xs, ys, anchor);
    Attach(doc, p, prs[i].node, prs[i].tail, anchor);
  }
}
