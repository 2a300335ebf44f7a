/** `el[start:stop:step] = value` on the document. */
module SliceAssignment {
  import opened Prelude
  import opened Arena
  import opened Dom
  import opened Siblings
  import opened SiblingEdits
  import opened PairEdits
  import opened SubtreeCopy
  import opened NewElements
  import opened Adoption
  import opened Placement
  import opened Slices
  import opened ExtendedTerms
  import opened ExtendedSlices
  import opened ExtendedPlan
  import opened PythonSlices

  lemma {:induction false} TargetsAreContent(plan: Plan)
    requires plan.Sound()
    ensures var ts := plan.Targets();
      NoDup(ts) && forall x :: 0 <= x < |ts| ==> Content(plan.a0, ts[x]) && Parent(plan.a0, ts[x]) == Some(plan.p)
    ensures forall i :: 0 <= i < |plan.Cs()| ==> (plan.Cs()[i].node in plan.Targets() <==> i in plan.pos)
  {
    var cs, ts := plan.Cs(), plan.Targets();
    ChildrenAreContent(plan.a0, plan.p);
    forall x | 0 <= x < |ts| ensures Content(plan.a0, ts[x]) && Parent(plan.a0, ts[x]) == Some(plan.p) {
      assert Nodes(cs)[plan.pos[x]] == ts[x];
    }
    forall x, y | 0 <= x < y < |ts| ensures ts[x] != ts[y] {
      SamePlace(cs, plan.pos[x], plan.pos[y]);
    }
    forall i | 0 <= i < |cs| ensures cs[i].node in ts <==> i in plan.pos {
      if i in plan.pos {
        var x :| 0 <= x < |plan.pos| && plan.pos[x] == i;
        assert ts[x] == cs[i].node;
      }
      if cs[i].node in ts {
        var x :| 0 <= x < |ts| && ts[x] == cs[i].node;
        SamePlace(cs, plan.pos[x], i);
      }
    }
  }

  lemma {:induction false} SamePlace(cs: seq<Pair>, i: nat, j: nat)
    requires NoDup(Nodes(cs)) && i < |cs| && j < |cs|
    ensures cs[i].node == cs[j].node ==> i == j
  {
    assert Nodes(cs)[i] == cs[i].node && Nodes(cs)[j] == cs[j].node;
  }

  lemma {:induction false} SameKept(e: Extended, f: Extended, i: nat)
    requires e.cs == f.cs && e.pos == f.pos && e.reused == f.reused && i <= |e.cs|
    ensures e.NextKept(i) == f.NextKept(i)
    decreases |e.cs| - i
  {
    if i < |e.cs| && !e.Kept(i) { SameKept(e, f, i + 1); }
  }

  lemma {:induction false} FirstKept(e: Extended, i: nat, c: nat)
    requires i <= c <= |e.cs| && (c < |e.cs| ==> e.Kept(c)) && forall k :: i <= k < c ==> !e.Kept(k)
    ensures e.NextKept(i) == c
  {
  }

  /** The first following child that is neither a target nor moves. */
  method FindSlotAnchor(a: Arena, p: Id, kids: seq<Id>, targets: seq<Id>, els: seq<NewEl>, x: nat, position: nat, ghost plan: Plan)
    returns (anchor: Option<Id>)
    requires plan.Sound() && a == plan.a0 && p == plan.p && els == plan.els
    requires kids == Nodes(plan.Cs()) && targets == plan.Targets() && x < |plan.pos| && position == plan.pos[x]
    ensures anchor == plan.With([]).AnchorId(x)
  {
    ghost var e := plan.With([]);
    TargetsAreContent(plan);
    ChildrenAreContent(a, p);
    var i := position + 1;
    while i < |kids|
      invariant position + 1 <= i <= |kids|
      invariant forall k :: position + 1 <= k < i ==> !e.Kept(k)
    {
      assert kids[i] == plan.Cs()[i].node && Parent(a, kids[i]) == Some(p);
      if kids[i] !in targets && !(Own(kids[i]) in els && Parent(a, kids[i]) == Some(p)) {
        FirstKept(e, position + 1, i);
        return Some(kids[i]);
      }
      i := i + 1;
    }
    FirstKept(e, position + 1, |kids|);
    anchor := None;
  }

  method FindAnchors(a: Arena, p: Id, kids: seq<Id>, targets: seq<Id>, els: seq<NewEl>, positions: seq<nat>, ghost plan: Plan)
    returns (anchors: seq<Option<Id>>)
    requires plan.Sound() && a == plan.a0 && p == plan.p && els == plan.els && positions == plan.pos
    requires kids == Nodes(plan.Cs()) && targets == plan.Targets()
    ensures plan.With([]).Captured(anchors)
  {
    anchors := [];
    for x := 0 to |positions|
      invariant |anchors| == x && forall y :: 0 <= y < x ==> anchors[y] == plan.With([]).AnchorId(y)
    {
      var anchor := FindSlotAnchor(a, p, kids, targets, els, x, positions[x], plan);
      anchors := anchors + [anchor];
    }
  }

  lemma {:induction false} NewAreDistinct(a: Arena, prs: seq<Pair>)
    requires Loose(a, Flat(prs))
    ensures NoDup(prs)
  {
    DistinctPairs(prs);
    forall x, y | 0 <= x < y < |prs| ensures prs[x] != prs[y] {
      assert Nodes(prs)[x] != Nodes(prs)[y];
    }
  }

  lemma {:induction false} WithIsSound(plan: Plan, a: Arena, prs: seq<Pair>)
    requires plan.Sound() && |prs| == |plan.els| && MovedAreReused(plan.Cs(), prs, OwnIds(plan.els)) && Loose(a, Flat(prs))
    ensures plan.With(prs).Sound()
  {
    NewAreDistinct(a, prs);
    var cs := plan.Cs();
    forall i, x | 0 <= i < |cs| && 0 <= x < |prs| && plan.With(prs).Kept(i) ensures cs[i] != prs[x] {
      assert Nodes(prs)[x] == prs[x].node;
    }
  }

  lemma {:induction false} TargetsGone(plan: Plan, prs: seq<Pair>)
    requires plan.Sound() && plan.With(prs).Sound() && MovedAreReused(plan.Cs(), prs, OwnIds(plan.els))
    ensures Keep(plan.Cs(), OwnIds(plan.els) + plan.Cut(prs)) == plan.With(prs).Placed(0)
  {
    var cs, e, gone := plan.Cs(), plan.With(prs), OwnIds(plan.els) + plan.Cut(prs);
    TargetsAreContent(plan);
    forall i | 0 <= i < |cs| ensures e.Kept(i) <==> cs[i].node !in gone {
    }
    NonePlaced(e, 0, gone);
    assert cs[0..] == cs;
  }

  lemma {:induction false} ReadyAtZero(plan: Plan, a: Arena, k: Intake)
    requires plan.Sound() && k.Of(plan.a0, plan.els) && Ready(k, a, k.Moved() + plan.Cut(k.prs))
    ensures plan.Takes(k) && Filling(k, a, plan.p, k.Moved() + plan.Cut(k.prs), plan.With(k.prs), 0)
  {
    OldNodesMoved(k, plan.p);
    WithIsSound(plan, a, k.prs);
    TargetsGone(plan, k.prs);
    ReadyToPlace(k, a, plan.p, plan.Cut(k.prs));
  }

  /** Adopt the new elements, then drop the targets that are not among them. */
  method ClearTargets(doc: Document, targets: seq<Id>, els: seq<NewEl>, ghost plan: Plan) returns (adopted: seq<Pair>, ghost k: Intake)
    requires doc.Valid() && plan.Sound() && plan.a0 == doc.arena && els == plan.els && targets == plan.Targets()
    modifies doc
    ensures doc.Valid() && plan.Takes(k) && k.prs == adopted
    ensures Filling(k, doc.arena, plan.p, k.Moved() + plan.Cut(adopted), plan.With(adopted), 0)
  {
    adopted, k := AdoptAll(doc, els);
    TargetsAreContent(plan);
    DropUnused(doc, targets, adopted, k);
    ReadyAtZero(plan, doc.arena, k);
  }

  /** The anchors depend on the positions and on what moves, not on what comes in. */
  lemma {:induction false} CapturedToo(e: Extended, f: Extended, anchors: seq<Option<Id>>)
    requires e.Fits() && e.cs == f.cs && e.pos == f.pos && e.reused == f.reused && f.Captured(anchors)
    ensures e.Captured(anchors)
  {
    forall x | 0 <= x < |anchors| ensures e.AnchorId(x) == f.AnchorId(x) { SameKept(e, f, e.pos[x] + 1); }
  }

  lemma {:induction false} AnchorFits(e: Extended, i: nat)
    requires e.Sound() && i < |e.pos|
    ensures Anchors(e.Beyond(e.Anchor(i), i), e.AnchorId(i))
  {
    BeyondStarts(e, e.Anchor(i), i);
  }

  method PlaceSlot(doc: Document, p: Id, adopted: seq<Pair>, i: nat, anchors: seq<Option<Id>>, ghost k: Intake, ghost gone: set<Id>, ghost e: Extended)
    requires doc.Valid() && e.Sound() && i < |e.pos| && adopted == k.prs == e.added && e.Captured(anchors)
    requires Filling(k, doc.arena, p, gone, e, i)
    modifies doc
    ensures doc.Valid() && Filling(k, doc.arena, p, gone, e, i + 1)
  {
    ghost var c := e.Anchor(i);
    PlaceOne(e, i);
    AnchorFits(e, i);
    PlaceNext(doc, p, adopted, i, anchors[i], k, gone, e.Upto(c, i) + e.Group(c, |e.cs|, i), e.Beyond(c, i));
  }

  /** Each new element in turn goes before its anchor. */
  method PlaceSlots(doc: Document, p: Id, adopted: seq<Pair>, anchors: seq<Option<Id>>, ghost k: Intake, ghost gone: set<Id>, ghost e: Extended)
    requires doc.Valid() && e.Sound() && adopted == k.prs == e.added && e.Captured(anchors)
    requires Filling(k, doc.arena, p, gone, e, 0)
    modifies doc
    ensures doc.Valid() && Filling(k, doc.arena, p, gone, e, |adopted|)
  {
    for i := 0 to |adopted|
      invariant doc.Valid() && Filling(k, doc.arena, p, gone, e, i)
    {
      PlaceSlot(doc, p, adopted, i, anchors, k, gone, e);
    }
  }

  lemma {:induction false} AllSlotsPlaced(plan: Plan, a: Arena, k: Intake)
    requires plan.Takes(k) && Filling(k, a, plan.p, k.Moved() + plan.Cut(k.prs), plan.With(k.prs), |k.prs|)
    ensures Assigned(k, a, plan.p, plan.With(k.prs).Placed(|k.prs|))
  {
    TargetsAreContent(plan);
    CutIsHere(k, plan.p, plan.Cut(k.prs));
    AllPlaced(k, a, plan.p, plan.Cut(k.prs), plan.With(k.prs).Placed(|k.prs|));
  }

  /** The extended slice, once its positions are known to be as many as the new elements. */
  method SetExtendedSlice(doc: Document, p: Id, positions: seq<nat>, els: seq<NewEl>) returns (ghost k: Intake)
    requires doc.Valid() && p in doc.arena.kids && |positions| == |els| && NoDup(positions)
    requires forall x :: 0 <= x < |positions| ==> positions[x] < |Children(doc.arena, p)|
    requires Acceptable(doc.arena, els)
    modifies doc
    ensures doc.Valid() && k.Of(old(doc.arena), els)
    ensures var e := Extended(old(Children(doc.arena, p)), positions, OwnIds(els), k.prs);
      |k.prs| == |positions| && e.Sound() && Assigned(k, doc.arena, p, e.Placed(|positions|))
  {
    ghost var plan := Plan(doc.arena, p, positions, els);
    var kids := ContentChildren(doc.arena, p);
    var targets := seq(|positions|, x requires 0 <= x < |positions| => kids[positions[x]]);
    assert targets == plan.Targets();
    var anchors := FindAnchors(doc.arena, p, kids, targets, els, positions, plan);
    var adopted;
    adopted, k := ClearTargets(doc, targets, els, plan);
    CapturedToo(plan.With(adopted), plan.With([]), anchors);
    PlaceSlots(doc, p, adopted, anchors, k, k.Moved() + plan.Cut(adopted), plan.With(adopted));
    AllSlotsPlaced(plan, doc.arena, k);
  }

  // ------------------------------------------------------------------
  // Both kinds
  // ------------------------------------------------------------------

  function Nats(r: seq<int>): (ns: seq<nat>)
    requires forall i :: 0 <= i < |r| ==> r[i] >= 0
    ensures |ns| == |r| && forall i :: 0 <= i < |r| ==> ns[i] == r[i]
  {
    seq(|r|, i requires 0 <= i < |r| => r[i] as nat)
  }

  /** The positions that a slice with a step other than 1 selects. */
  function Selection(start: Option<int>, stop: Option<int>, step: int, n: nat): (r: seq<nat>)
    requires step != 0
    ensures NoDup(r) && forall x :: 0 <= x < |r| ==> r[x] < n
    ensures Monotone(r, step)
  {
    var b := Indices(start, stop, step, n);
    Positions(b.0, b.1, step, n);
    Nats(Range(b.0, b.1, step))
  }

  /** The selection is what a reader of `[start:stop:step]` expects: the positions
      within the bounds that are a whole number of steps from the first one. */
  lemma {:induction false} SelectionTakes(start: Option<int>, stop: Option<int>, step: int, n: nat)
    requires step != 0
    ensures var r := Selection(start, stop, step, n);
      && (forall i :: InSlice(i, start, stop, step, n) ==> r != [] && if step > 0 then r[0] <= i else i <= r[0])
      && (forall i: nat :: i in r <==> r != [] && InSlice(i, start, stop, step, n) && (i - r[0]) % step == 0)
  {
    var (b, e) := Indices(start, stop, step, n);
    Positions(b, e, step, n);
    SliceTakes(start, stop, step, n);
    SameMembers(Range(b, e, step));
  }

  lemma {:induction false} SameMembers(r: seq<int>)
    requires forall i :: 0 <= i < |r| ==> r[i] >= 0
    ensures forall i: nat :: i in Nats(r) <==> i in r
  {
    forall i: nat ensures i in Nats(r) <==> i in r {
      if i in r {
        var x :| 0 <= x < |r| && r[x] == i;
        assert Nats(r)[x] == i;
      }
    }
  }

  /** What Python's list assignment would make of the children. */
  function Wanted(cs: seq<Pair>, start: Option<int>, stop: Option<int>, step: int, reused: set<Id>, prs: seq<Pair>): seq<Pair>
    requires step != 0 && (step != 1 ==> |Selection(start, stop, step, |cs|)| == |prs|)
  {
    if step == 1 then
      var (b, e) := Indices(start, stop, 1, |cs|);
      Slices.ListSlice(cs, b, e, reused, prs)
    else
      Extended(cs, Selection(start, stop, step, |cs|), reused, prs).ListSlice()
  }

  /** A condition on the arguments: when the code does what a list would. */
  ghost predicate LikeList(cs: seq<Pair>, start: Option<int>, stop: Option<int>, step: int, reused: set<Id>, count: nat)
    requires step != 0
  {
    if step == 1 then
      var (b, e) := Indices(start, stop, 1, |cs|);
      b <= e || count == 0 || forall i :: e <= i < b ==> cs[i].node in reused
    else
      var at := Extended(cs, Selection(start, stop, step, |cs|), reused, []);
      step > 0 || forall x, y :: 0 <= x < y < |at.pos| ==> at.Anchor(x) != at.Anchor(y)
  }

  lemma {:induction false} ExtendedIsWanted(e: Extended, step: int)
    requires e.Sound() && Monotone(e.pos, step)
    ensures var at := Extended(e.cs, e.pos, e.reused, []);
      e.Placed(|e.pos|) == e.ListSlice() <==> step > 0 || forall x, y :: 0 <= x < y < |at.pos| ==> at.Anchor(x) != at.Anchor(y)
  {
    var at := Extended(e.cs, e.pos, e.reused, []);
    StepDecides(e, step);
    forall x | 0 <= x < |e.pos| ensures e.Anchor(x) == at.Anchor(x) { SameKept(e, at, e.pos[x] + 1); }
  }

  /** What the code makes of the children. */
  function Made(cs: seq<Pair>, start: Option<int>, stop: Option<int>, step: int, reused: set<Id>, prs: seq<Pair>): seq<Pair>
    requires step != 0 && (step != 1 ==> |Selection(start, stop, step, |cs|)| == |prs|)
  {
    if step == 1 then
      var (b, e) := Indices(start, stop, 1, |cs|);
      SimpleSlice(cs, b, e, reused, prs)
    else
      Extended(cs, Selection(start, stop, step, |cs|), reused, prs).Placed(|prs|)
  }

  /** Bounds in order: what lies before the start stays in front of the new
      elements, what lies at or after the stop stays behind them. */
  lemma {:induction false} PlainSlice(cs: seq<Pair>, start: Option<int>, stop: Option<int>, reused: set<Id>, prs: seq<Pair>, x: nat, y: nat)
    requires x <= y && StartsAt(x, start, |cs|) && StopsAt(y, stop, |cs|)
    ensures Made(cs, start, stop, 1, reused, prs) == Keep(cs[..x], reused) + prs + Keep(cs[y..], reused)
  {
    PlainBounds(start, stop, |cs|, x, y);
  }

  /** `el[-k:] = els` keeps all but the last `k` children. */
  lemma {:induction false} FromTheEnd(cs: seq<Pair>, k: int, reused: set<Id>, prs: seq<Pair>)
    requires 0 < k <= |cs|
    ensures Made(cs, Some(-k), None, 1, reused, prs) == Keep(cs[..|cs| - k], reused) + prs
  {
    assert Indices(Some(-k), None, 1, |cs|) == (|cs| - k, |cs|);
    PlainBounds(Some(-k), None, |cs|, |cs| - k, |cs|);
    PlainSlice(cs, Some(-k), None, reused, prs, |cs| - k, |cs|);
    assert cs[|cs|..] == [];
  }

  ghost predicate Refused(step: int, start: Option<int>, stop: Option<int>, n: nat, count: nat) {
    step == 0 || (step != 1 && |Selection(start, stop, step, n)| != count)
  }

  /** A slice whose step is not 1: the lengths must match. */
  method SetStepped(doc: Document, p: Id, start: Option<int>, stop: Option<int>, step: int, els: seq<NewEl>, kids: seq<Id>)
    returns (done: bool, ghost k: Intake, ghost now: seq<Pair>)
    requires doc.Valid() && p in doc.arena.kids && Acceptable(doc.arena, els) && step != 0 && step != 1
    requires kids == Nodes(Children(doc.arena, p))
    modifies doc
    ensures doc.Valid()
    ensures var cs := old(Children(doc.arena, p));
      && (done <==> |Selection(start, stop, step, |cs|)| == |els|)
      && (!done ==> doc.arena == old(doc.arena))
      && (done ==> k.Of(old(doc.arena), els) && |k.prs| == |els| && Assigned(k, doc.arena, p, now))
      && (done ==> now == Made(cs, start, stop, step, OwnIds(els), k.prs))
      && (done ==> (now == Wanted(cs, start, stop, step, OwnIds(els), k.prs) <==> LikeList(cs, start, stop, step, OwnIds(els), |els|)))
  {
    ghost var cs := Children(doc.arena, p);
    k, now := Intake(doc.arena, els, doc.arena, [], []), [];
    var positions := Selection(start, stop, step, |kids|);
    if |positions| != |els| {
      return false, k, now;
    }
    k := SetExtendedSlice(doc, p, positions, els);
    ghost var e := Extended(cs, positions, OwnIds(els), k.prs);
    now := e.Placed(|positions|);
    ExtendedIsWanted(e, step);
    done := true;
  }

  lemma {:induction false} PlainIsWanted(cs: seq<Pair>, start: Option<int>, stop: Option<int>, reused: set<Id>, prs: seq<Pair>)
    requires MovedAreReused(cs, prs, reused)
    ensures Made(cs, start, stop, 1, reused, prs) == Wanted(cs, start, stop, 1, reused, prs)
      <==> LikeList(cs, start, stop, 1, reused, |prs|)
  {
    var (b, e) := Indices(start, stop, 1, |cs|);
    SimpleSliceIsListSlice(cs, b, e, reused, prs);
  }

  /** A slice whose step is 1 takes any number of new elements. */
  method SetPlain(doc: Document, p: Id, start: Option<int>, stop: Option<int>, els: seq<NewEl>, kids: seq<Id>)
    returns (ghost k: Intake, ghost now: seq<Pair>)
    requires doc.Valid() && p in doc.arena.kids && Acceptable(doc.arena, els) && kids == Nodes(Children(doc.arena, p))
    modifies doc
    ensures doc.Valid() && k.Of(old(doc.arena), els) && Assigned(k, doc.arena, p, now)
    ensures MovedAreReused(old(Children(doc.arena, p)), k.prs, OwnIds(els))
    ensures now == Made(old(Children(doc.arena, p)), start, stop, 1, OwnIds(els), k.prs)
  {
    ghost var cs := Children(doc.arena, p);
    var (b, e) := Indices(start, stop, 1, |kids|);
    k := SetSimpleSlice(doc, p, b, e, els);
    now := Made(cs, start, stop, 1, OwnIds(els), k.prs);
  }

  /** `el[start:stop:step] = els`; a value error if it is refused. */
  method SetSlice(doc: Document, p: Id, start: Option<int>, stop: Option<int>, step: Option<int>, els: seq<NewEl>)
    returns (done: bool, ghost k: Intake, ghost now: seq<Pair>)
    requires doc.Valid() && p in doc.arena.kids && Acceptable(doc.arena, els)
    modifies doc
    ensures doc.Valid()
    ensures var s := if step.Some? then step.value else 1; var cs := old(Children(doc.arena, p));
      && (done <==> !Refused(s, start, stop, |cs|, |els|))
      && (!done ==> doc.arena == old(doc.arena))
      && (done ==> k.Of(old(doc.arena), els) && |k.prs| == |els| && Assigned(k, doc.arena, p, now))
      && (done ==> now == Made(cs, start, stop, s, OwnIds(els), k.prs))
      && (done ==> (now == Wanted(cs, start, stop, s, OwnIds(els), k.prs) <==> LikeList(cs, start, stop, s, OwnIds(els), |els|)))
  {
    var s := if step.Some? then step.value else 1;
    ghost var cs := Children(doc.arena, p);
    var kids := ContentChildren(doc.arena, p);
    k, now := Intake(doc.arena, els, doc.arena, [], []), [];
    if s == 0 {
      return false, k, now;
    }
    if s != 1 {
      done, k, now := SetStepped(doc, p, start, stop, s, els, kids);
      return;
    }
    k, now := SetPlain(doc, p, start, stop, els, kids);
    PlainIsWanted(cs, start, stop, OwnIds(els), k.prs);
    done := true;
  }

  // ------------------------------------------------------------------
  // Where the code and a list differ
  // ------------------------------------------------------------------

  /** `el[2:1] = [x]` on three children: a list puts `x` in at 2, the code at 1. */
  lemma {:induction false} ReversedBoundsDiffer(a: Pair, b: Pair, c: Pair, x: Pair)
    ensures SimpleSlice([a, b, c], 2, 1, {}, [x]) == [a, x, b, c]
    ensures Slices.ListSlice([a, b, c], 2, 1, {}, [x]) == [a, b, x, c]
  {
    var cs := [a, b, c];
    assert cs[..1] == [a] && cs[1..] == [b, c] && cs[..2] == [a, b] && cs[2..] == [c];
    KeepAll([a], {});
    KeepAll([b, c], {});
    KeepAll([a, b], {});
    KeepAll([c], {});
  }

  /** `el[::-1] = [x, y]` on two children: both go before the same anchor, the end,
      in the order in which the slice lists them, and not in that of their positions. */
  lemma {:induction false} ReversingStepDiffers(a: Pair, b: Pair, x: Pair, y: Pair)
    requires x != y
    ensures var e := Extended([a, b], [1, 0], {}, [x, y]); e.Sound() && e.Placed(2) != e.ListSlice()
    ensures Selection(None, None, -1, 2) == [1, 0]
  {
    assert Range(-1, -1, -1) == [] && Range(0, -1, -1) == [0] && Range(1, -1, -1) == [1, 0];
    var e := Extended([a, b], [1, 0], {}, [x, y]);
    assert e.pos[0] == 1 && e.pos[1] == 0;
    assert !e.Kept(0) && !e.Kept(1);
    assert e.Anchor(0) == 2 && e.Anchor(1) == 2;
    DisorderedDiffer(e, 0, 1);
  }
}
