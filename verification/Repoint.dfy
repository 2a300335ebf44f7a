/** Re-pointing live wrappers onto a same-shaped clone in another document. */
module Repoint {
  import opened Prelude
  import opened Arena
  import opened Dom
  import opened ProxyCache
  import opened LockStep
  import opened ProxyHolder
  import SubtreeCopy
  import NewElements
  import CrossDocument

  /** The trees of a subtree and of its clone, and the pairs of the lock-step walk. */
  datatype Walk = Walk(st: Tree, dt: Tree, zip: seq<(Id, Id)>) {
    ghost predicate Over(sa: Arena, da: Arena, s: Id, d: Id) {
      Wf(sa) && Wf(da) && Holds(sa, st) && Holds(da, dt) && st.id == s && dt.id == d && zip == Zip(st, dt)
    }
  }

  method CollectWalk(sdoc: Arena, ddoc: Arena, snode: Id, dnode: Id, ghost walk: Walk) returns (pairs: seq<(Id, Id)>)
    requires walk.Over(sdoc, ddoc, snode, dnode)
    ensures pairs == walk.zip
  {
    pairs := CollectPairs(sdoc, ddoc, snode, dnode, walk.st, walk.dt);
  }

  /** Move the wrapper of the `k`-th pair. */
  method MoveNext(src: DocHolderBase, dst: DocHolderBase, pairs: seq<(Id, Id)>, k: nat, ghost was: Before)
    requires dst != src && Injective(pairs) && k < |pairs| && was.Moved(src, dst, pairs[..k])
    requires was.Free(pairs)
    modifies src, dst, was.w`holder, was.w`doc, was.w`nodeId
    ensures was.Moved(src, dst, pairs[..k + 1])
  {
    ShiftOne(src.LiveProxies(), dst.LiveProxies(), src.wrappers, pairs, k, was.s, was.d, was.w);
    src.MoveProxy(dst, pairs[k].0, pairs[k].1);
  }

  /** Move pair after pair, stopping early once the source cache is empty. */
  method MovePairs(src: DocHolderBase, dst: DocHolderBase, pairs: seq<(Id, Id)>, ghost was: Before)
    returns (k: nat)
    requires dst != src && Injective(pairs) && was.Moved(src, dst, pairs[..0]) && was.Free(pairs)
    modifies src, dst, was.w`holder, was.w`doc, was.w`nodeId
    ensures k <= |pairs| && was.Moved(src, dst, pairs[..k]) && (k < |pairs| ==> src.proxyEntries == 0)
  {
    k := 0;
    while k < |pairs|
      invariant 0 <= k <= |pairs| && was.Moved(src, dst, pairs[..k])
    {
      MoveNext(src, dst, pairs, k, was);
      k := k + 1;
      if src.proxyEntries == 0 {
        // Every live source wrapper has been moved; skip the rest.
        break;
      }
    }
  }

  method MoveAll(src: DocHolderBase, dst: DocHolderBase, pairs: seq<(Id, Id)>, ghost was: Before)
    requires dst != src && Injective(pairs) && was.Moved(src, dst, pairs[..0]) && was.Free(pairs)
    modifies src, dst, was.w`holder, was.w`doc, was.w`nodeId
    ensures was.Moved(src, dst, pairs)
  {
    var k := MovePairs(src, dst, pairs, was);
    src.MovedEarlyExit(dst, pairs, k, was.s, was.d, was.w);
  }

  /** The upfront sweep; `nothing` when no live wrapper is left to move. */
  method SweepForMove(src: DocHolderBase, dst: DocHolderBase, ghost pairs: seq<(Id, Id)>, ghost was: Before) returns (nothing: bool)
    requires dst != src && was.Now(src, dst) && Injective(pairs)
    modifies src`proxies, src`trackedProxySlots, src`proxySlotTracked, src`proxyEntries, src`sweepAt
    ensures was.Moved(src, dst, pairs[..0])
    ensures nothing ==> was.Moved(src, dst, pairs)
  {
    src.SweepDead();
    nothing := src.proxyEntries == 0;
    src.MovedNone(dst, was.s, was.d);
    if nothing {
      src.MovedEarlyExit(dst, pairs, 0, was.s, was.d, was.w);
    }
  }

  /** `sdoc` and `ddoc` are the two documents as they stand while both are locked. */
  method RepointInto(src: DocHolderBase, dst: DocHolderBase, snode: Id, dnode: Id, sdoc: Arena, ddoc: Arena,
                     ghost walk: Walk, ghost was: Before)
    requires dst != src && was.Now(src, dst) && walk.Over(sdoc, ddoc, snode, dnode)
    requires Injective(walk.zip) && was.Free(walk.zip)
    modifies src, dst, was.w`holder, was.w`doc, was.w`nodeId
    ensures was.Moved(src, dst, walk.zip)
  {
    var nothing := SweepForMove(src, dst, walk.zip, was);
    if !nothing {
      var pairs := CollectWalk(sdoc, ddoc, snode, dnode, walk);
      MoveAll(src, dst, pairs, was);
    }
  }

  /** Re-point every live wrapper of the subtree at `snode` to the same-shaped
      clone at `dnode` in the document of `dst`; every other wrapper is left alone. */
  method RepointSubtree(src: DocHolderBase, dst: DocHolderBase, snode: Id, dnode: Id, ghost st: Tree, ghost dt: Tree)
    requires src.Valid() && dst.Valid() && Wf(src.doc.arena) && Wf(dst.doc.arena)
    requires Holds(src.doc.arena, st) && st.id == snode && Holds(dst.doc.arena, dt) && dt.id == dnode && SameShape(st, dt)
    requires forall y :: y in Targets(Zip(st, dt)) ==> y !in dst.LiveProxies()
    modifies src, dst, src.wrappers`holder, src.wrappers`doc, src.wrappers`nodeId
    ensures dst == src ==> src.Snap() == old(src.Snap()) && src.wrappers == old(src.wrappers)
    ensures dst != src ==> src.Moved(dst, Zip(st, dt), old(src.LiveProxies()), old(dst.LiveProxies()), old(src.wrappers))
    ensures old(src.Known()) && old(dst.Known()) ==> src.Known() && dst.Known()
  {
    if src == dst {
      // Same holder on both sides: nothing to move between caches.
      return;
    }
    ZipInjective(src.doc.arena, dst.doc.arena, st, dt);
    src.OwnersDiffer(dst);
    RepointInto(src, dst, snode, dnode, src.doc.arena, dst.doc.arena, Walk(st, dt, Zip(st, dt)),
                Before(src.LiveProxies(), dst.LiveProxies(), src.wrappers));
    MovedToKnown(dst.doc.arena, st, dt, old(src.LiveProxies()));
  }

  /** Wrappers move to nodes that the destination has. */
  lemma {:induction false} MovedToKnown<W>(da: Arena, st: Tree, dt: Tree, m: map<Id, W>)
    requires Holds(da, dt) && SameShape(st, dt)
    ensures forall y :: y in MovedTo(Zip(st, dt), m) ==> y in da.kind
  {
    MovedKeys(Zip(st, dt), m);
    EveryNodePaired(st, dt);
    forall u | u in Preorder(dt) ensures u.id in da.kind { HoldsBelow(da, dt, u); }
  }

  /** The live wrappers of both caches, and all the wrappers of the source, before the moves. */
  datatype Before = Before(s: map<nat, Wrapper>, d: map<nat, Wrapper>, w: set<Wrapper>) {
    ghost predicate Now(src: DocHolderBase, dst: DocHolderBase)
      reads src, dst, src.wrappers, dst.wrappers
    {
      && src.Valid() && dst.Valid() && src.Disjoint(dst)
      && s == src.LiveProxies() && d == dst.LiveProxies() && w == src.wrappers
    }

    ghost predicate Moved(src: DocHolderBase, dst: DocHolderBase, pairs: seq<(Id, Id)>)
      reads src, dst, src.wrappers, dst.wrappers
    {
      src.Moved(dst, pairs, s, d, w)
    }

    ghost predicate Free(pairs: seq<(Id, Id)>) {
      forall y :: y in Targets(pairs) ==> y !in d
    }
  }

  lemma {:induction false} ShiftedWrappers(s: map<nat, Wrapper>, w: set<Wrapper>, pairs: seq<(Id, Id)>, k: nat,
                                           s0: map<nat, Wrapper>, d0: map<nat, Wrapper>, w0: set<Wrapper>)
    requires Injective(pairs) && k < |pairs| && s == s0 - Sources(pairs[..k]) && w == w0 - MovedTo(pairs[..k], s0).Values
    requires forall y :: y in Targets(pairs) ==> y !in d0
    ensures (if pairs[k].0 in s then w - {s[pairs[k].0]} else w) == w0 - MovedTo(pairs[..k + 1], s0).Values
  {
    MovedValues(pairs, s0, d0, k);
    RemoveSets(w0, MovedTo(pairs[..k], s0).Values, if pairs[k].0 in s0 then {s0[pairs[k].0]} else {});
  }

  lemma {:induction false} RemoveSets<W>(w: set<W>, gone: set<W>, more: set<W>)
    ensures w - (gone + more) == (w - gone) - more
  {
  }

  lemma {:induction false} ShiftOne(s: map<nat, Wrapper>, d: map<nat, Wrapper>, w: set<Wrapper>, pairs: seq<(Id, Id)>, k: nat,
                                    s0: map<nat, Wrapper>, d0: map<nat, Wrapper>, w0: set<Wrapper>)
    requires Injective(pairs) && k < |pairs| && Shifted(s, d, w, pairs[..k], s0, d0, w0)
    requires forall y :: y in Targets(pairs) ==> y !in d0
    ensures pairs[k].1 !in d
    ensures var (x, y) := pairs[k];
            Shifted(s - {x}, if x in s then d[y := s[x]] else d, if x in s then w - {s[x]} else w, pairs[..k + 1], s0, d0, w0)
  {
    NotYetMoved(pairs, s0, d0, k);
    ShiftedWrappers(s, w, pairs, k, s0, d0, w0);
    MoveCounts(pairs, s0, d0, k, s, d);
  }

  lemma {:induction false} MovedValues(pairs: seq<(Id, Id)>, s0: map<nat, Wrapper>, d0: map<nat, Wrapper>, k: nat)
    requires Injective(pairs) && k < |pairs|
    requires forall y :: y in Targets(pairs) ==> y !in d0
    ensures MovedTo(pairs[..k + 1], s0).Values ==
      MovedTo(pairs[..k], s0).Values + if pairs[k].0 in s0 then {s0[pairs[k].0]} else {}
    ensures pairs[k].0 in s0 <==> pairs[k].0 in s0 - Sources(pairs[..k])
  {
    MoveUnfolds(pairs, s0, k);
    NotYetMoved(pairs, s0, d0, k);
    if pairs[k].0 in s0 {
      NewValue(MovedTo(pairs[..k], s0), pairs[k].1, s0[pairs[k].0]);
    }
  }

  lemma {:induction false} NewValue<W>(m: map<nat, W>, y: nat, v: W)
    requires y !in m
    ensures m[y := v].Values == m.Values + {v}
  {
    var m' := m[y := v];
    assert y in m' && m'[y] == v;
    forall u | u in m.Values ensures u in m'.Values {
      var x :| x in m && m[x] == u;
      assert x in m' && m'[x] == u;
    }
  }

  lemma {:induction false} NotYetMoved(pairs: seq<(Id, Id)>, s0: map<nat, Wrapper>, d0: map<nat, Wrapper>, k: nat)
    requires Injective(pairs) && k < |pairs|
    requires forall y :: y in Targets(pairs) ==> y !in d0
    ensures pairs[k].1 !in d0 + MovedTo(pairs[..k], s0) && pairs[k].0 !in Sources(pairs[..k])
  {
    MovedKeys(pairs[..k], s0);
    InSources(pairs, k);
    if pairs[k].1 in Targets(pairs[..k]) { var i := TargetIndex(pairs[..k], pairs[k].1); }
    if pairs[k].0 in Sources(pairs[..k]) { var i := SourceIndex(pairs[..k], pairs[k].0); }
  }

  lemma {:induction false} CountMove(s: map<nat, Wrapper>, d: map<nat, Wrapper>, x: nat, y: nat)
    requires y !in d
    ensures |s - {x}| + |if x in s then d[y := s[x]] else d| == |s| + |d|
  {
    if x in s {
      assert (s - {x}).Keys == s.Keys - {x};
      assert d[y := s[x]].Keys == d.Keys + {y};
      assert |(s - {x}).Keys| == |s.Keys| - 1;
    } else {
      assert s - {x} == s;
    }
  }

  lemma {:induction false} MoveUnfolds(pairs: seq<(Id, Id)>, s0: map<nat, Wrapper>, k: nat)
    requires k < |pairs|
    ensures Sources(pairs[..k + 1]) == Sources(pairs[..k]) + {pairs[k].0}
    ensures MovedTo(pairs[..k + 1], s0) ==
      if pairs[k].0 in s0 then MovedTo(pairs[..k], s0)[pairs[k].1 := s0[pairs[k].0]] else MovedTo(pairs[..k], s0)
  {
    assert pairs[..k + 1][..k] == pairs[..k] && pairs[..k + 1][k] == pairs[k];
  }

  lemma {:induction false} UpdateOutside<W>(d0: map<nat, W>, m: map<nat, W>, y: nat, v: W)
    ensures d0 + m[y := v] == (d0 + m)[y := v]
  {
  }

  lemma {:induction false} RemoveMore<W>(s0: map<nat, W>, gone: set<nat>, x: nat)
    ensures s0 - (gone + {x}) == (s0 - gone) - {x}
  {
  }

  /** One move takes a wrapper out of one cache and puts it into the other. */
  lemma {:induction false} MoveCounts(pairs: seq<(Id, Id)>, s0: map<nat, Wrapper>, d0: map<nat, Wrapper>, k: nat,
                                      s: map<nat, Wrapper>, d: map<nat, Wrapper>)
    requires Injective(pairs) && k < |pairs|
    requires forall y :: y in Targets(pairs) ==> y !in d0
    requires s == s0 - Sources(pairs[..k]) && d == d0 + MovedTo(pairs[..k], s0)
    ensures var d' := if pairs[k].0 in s then d[pairs[k].1 := s[pairs[k].0]] else d;
      && s0 - Sources(pairs[..k + 1]) == s - {pairs[k].0}
      && d0 + MovedTo(pairs[..k + 1], s0) == d'
      && |s - {pairs[k].0}| + |d'| == |s| + |d|
  {
    var x, y := pairs[k].0, pairs[k].1;
    NotYetMoved(pairs, s0, d0, k);
    MoveUnfolds(pairs, s0, k);
    RemoveMore(s0, Sources(pairs[..k]), x);
    if x in s0 { UpdateOutside(d0, MovedTo(pairs[..k], s0), y, s0[x]); }
    CountMove(s, d, x, y);
  }

  /** In terms of child paths: the live wrapper of the source node at a path becomes
      the wrapper of the clone node at the same path. */
  lemma {:induction false} MovedAlongPaths<W>(sa: Arena, da: Arena, s: Tree, d: Tree, m: map<Id, W>, x: Id, y: Id, path: seq<nat>)
    requires Wf(sa) && Wf(da) && Holds(sa, s) && Holds(da, d) && SameShape(s, d)
    requires SamePath(s, d, x, y, path)
    ensures x in m <==> y in MovedTo(Zip(s, d), m)
    ensures x in m ==> MovedTo(Zip(s, d), m)[y] == m[x]
  {
    PairsAreSamePaths(s, d, x, y);
    ZipInjective(sa, da, s, d);
    MovedAt(Zip(s, d), m, x, y);
  }

  // ------------------------------------------------------------------
  // An imported clone can be re-pointed
  // ------------------------------------------------------------------

  lemma {:induction false} CopyHasSameShape(s: Tree, c: Tree)
    requires SubtreeCopy.Copy(s, c)
    ensures SameShape(s, c)
    decreases s
  {
    forall i | 0 <= i < |s.kids| ensures SameShape(s.kids[i], c.kids[i]) { CopyHasSameShape(s.kids[i], c.kids[i]); }
  }

  lemma {:induction false} FreshThroughout(a0: Arena, c: Tree, u: Tree)
    requires NewElements.FreshTree(a0, c) && u in Preorder(c)
    ensures u.id !in a0.kind
    decreases c
  {
    if u != c {
      InForest(c.kids, u);
      var i :| 0 <= i < |c.kids| && u in Preorder(c.kids[i]);
      FreshThroughout(a0, c.kids[i], u);
    }
  }

  /** What importing promises about the clone is what re-pointing asks for, as long
      as only known nodes had wrappers. */
  lemma {:induction false} CloneCanBeRepointed<W>(a0: Arena, t: Tree, ds: seq<Decl>, c: Tree, live: map<Id, W>)
    requires SubtreeCopy.Copy(CrossDocument.Redeclared(t, ds), c) && NewElements.FreshTree(a0, c)
    requires forall n :: n in live ==> n in a0.kind
    ensures SameShape(t, c) && forall y :: y in Targets(Zip(t, c)) ==> y !in live
  {
    CopyHasSameShape(CrossDocument.Redeclared(t, ds), c);
    EveryNodePaired(t, c);
    forall y | y in Targets(Zip(t, c)) ensures y !in live {
      var u :| u in Preorder(c) && u.id == y;
      FreshThroughout(a0, c, u);
    }
  }
}
