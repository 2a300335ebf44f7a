/** The native document holder: the proxy cache updated in place, and the move of
    live wrappers between the caches of two documents. */
module ProxyHolder {
  import opened Prelude
  import opened Arena
  import opened Dom
  import opened ProxyCache
  import opened LockStep

  /** An element wrapper. `alive` is lost when its last strong reference goes. */
  class Wrapper {
    var alive: bool
    var holder: DocHolderBase
    var doc: Document
    var nodeId: nat

    constructor (holder: DocHolderBase, doc: Document, nodeId: nat)
      ensures alive && this.holder == holder && this.doc == doc && this.nodeId == nodeId
    {
      alive, this.holder, this.doc, this.nodeId := true, holder, doc, nodeId;
    }
  }

  class DocHolderBase {
    const doc: Document
    var proxies: seq<Option<Wrapper>>
    var trackedProxySlots: seq<nat>
    var proxySlotTracked: seq<bool>
    var proxyEntries: nat
    var sweepAt: nat
    /** At least the wrappers in the slots, dead or alive. */
    ghost var wrappers: set<Wrapper>

    constructor (doc: Document)
      ensures this.doc == doc && Snap() == Empty<Wrapper>() && Valid() && Known()
    {
      this.doc := doc;
      proxies, trackedProxySlots, proxySlotTracked, proxyEntries, sweepAt := [], [], [], 0, PROXY_SWEEP_MIN;
      wrappers := {};
    }

    function Snap(): Cache<Wrapper>
      reads this
    {
      Cache(proxies, trackedProxySlots, proxySlotTracked, proxyEntries, sweepAt)
    }

    ghost predicate Slotted()
      reads this
    {
      forall n :: 0 <= n < |proxies| && proxies[n].Some? ==> proxies[n].value in wrappers
    }

    /** The live wrapper of each node that has one. */
    ghost function LiveProxies(): map<nat, Wrapper>
      requires Slotted()
      reads this, wrappers
    {
      map n | 0 <= n < |proxies| && proxies[n].Some? && proxies[n].value.alive :: proxies[n].value
    }

    /** `live` tells the live wrappers in the slots from the dead ones. */
    ghost predicate Tells(live: set<Wrapper>)
      requires Slotted()
      reads this, wrappers
    {
      forall n :: 0 <= n < |proxies| && proxies[n].Some? ==> (proxies[n].value in live <==> proxies[n].value.alive)
    }

    ghost function Live(): (live: set<Wrapper>)
      requires Slotted()
      reads this, wrappers
      ensures Tells(live)
    {
      set n | 0 <= n < |proxies| && proxies[n].Some? && proxies[n].value.alive :: proxies[n].value
    }

    lemma {:induction false} ToldApart(live: set<Wrapper>)
      requires Slotted() && Tells(live)
      ensures LiveMap(Snap(), live) == LiveProxies()
    {
    }

    /** Every cached wrapper points back at this holder, its document and its slot. */
    ghost predicate Owned()
      reads this, wrappers
    {
      && Slotted() && (forall w :: w in wrappers ==> w.holder == this)
      && forall n :: 0 <= n < |proxies| && proxies[n].Some? ==> proxies[n].value.doc == doc && proxies[n].value.nodeId == n
    }

    ghost predicate Valid()
      reads this, wrappers
    {
      ProxyCache.Valid(Snap()) && Owned()
    }

    /** Only nodes of the document have live wrappers. */
    ghost predicate Known()
      requires Slotted()
      reads this, wrappers, doc
    {
      forall n :: n in LiveProxies() ==> n in doc.arena.kind
    }

    /** Keep or drop one tracked slot. */
    method SweepSlot(nid: nat, ghost c: Cache<Wrapper>, ghost live: set<Wrapper>) returns (keep: bool)
      requires |proxies| == |proxySlotTracked|
      requires Alive(c, live, nid) <==> nid < |proxies| && proxies[nid].Some? && proxies[nid].value.alive
      modifies this`proxies, this`proxySlotTracked
      ensures keep <==> Alive(c, live, nid)
      ensures keep ==> proxies == old(proxies) && proxySlotTracked == old(proxySlotTracked)
      ensures !keep && nid < |old(proxies)| ==>
        proxies == old(proxies)[nid := None] && proxySlotTracked == old(proxySlotTracked)[nid := false]
      ensures !keep && nid >= |old(proxies)| ==> proxies == old(proxies) && proxySlotTracked == old(proxySlotTracked)
    {
      keep := false;
      if nid < |proxies| {
        if proxies[nid].Some? && proxies[nid].value.alive {
          keep := true;
        } else {
          proxies := proxies[nid := None];
        }
      }
      if !keep && nid < |proxySlotTracked| {
        proxySlotTracked := proxySlotTracked[nid := false];
      }
    }

    /** Drop the tracked slots whose wrapper is dead. */
    method SweepTracked(ghost live: set<Wrapper>) returns (liveEntries: nat)
      requires Coherent(Snap()) && Slotted() && Tells(live)
      modifies this`proxies, this`trackedProxySlots, this`proxySlotTracked
      ensures proxies == SweptProxies(old(Snap()), live, old(trackedProxySlots))
      ensures proxySlotTracked == SweptBits(old(Snap()), live, old(trackedProxySlots))
      ensures trackedProxySlots == Kept(old(Snap()), live, old(trackedProxySlots))
      ensures liveEntries == |trackedProxySlots|
    {
      ghost var c := Snap();
      liveEntries := 0;
      var was := trackedProxySlots;
      trackedProxySlots := [];
      NothingSwept(c, live);
      for i := 0 to |was|
        invariant SweptTo(c, live, was[..i]) && liveEntries == |trackedProxySlots|
      {
        var keep := SweepNext(was, i, c, live);
        if keep {
          liveEntries := liveEntries + 1;
        }
      }
      assert was[..|was|] == was;
    }

    /** The tracked nodes `ns` of the cache `c` have been looked at. */
    ghost predicate SweptTo(c: Cache<Wrapper>, live: set<Wrapper>, ns: seq<nat>)
      reads this
    {
      proxies == SweptProxies(c, live, ns) && proxySlotTracked == SweptBits(c, live, ns) && trackedProxySlots == Kept(c, live, ns)
    }

    /** Look at the next tracked slot; a kept one is tracked again. */
    method SweepNext(was: seq<nat>, i: nat, ghost c: Cache<Wrapper>, ghost live: set<Wrapper>) returns (keep: bool)
      requires i < |was| && NoDup(was) && |c.proxies| == |c.bits| && SweptTo(c, live, was[..i])
      requires forall n :: 0 <= n < |c.proxies| && c.proxies[n].Some? ==> (c.proxies[n].value in live <==> c.proxies[n].value.alive)
      modifies this`proxies, this`trackedProxySlots, this`proxySlotTracked
      ensures SweptTo(c, live, was[..i + 1])
      ensures |trackedProxySlots| == |old(trackedProxySlots)| + if keep then 1 else 0
    {
      SlotNow(c, live, was, i);
      keep := SweepSlot(was[i], c, live);
      if keep {
        trackedProxySlots := trackedProxySlots + [was[i]];
      }
    }

    lemma {:induction false} NothingSwept(c: Cache<Wrapper>, live: set<Wrapper>)
      requires c == Snap().(tracked := c.tracked)
      ensures proxies == SweptProxies(c, live, []) && proxySlotTracked == SweptBits(c, live, [])
    {
    }

    /** The next tracked slot is as it was, and what looking at it does. */
    lemma {:induction false} SlotNow(c: Cache<Wrapper>, live: set<Wrapper>, was: seq<nat>, i: nat)
      requires i < |was| && NoDup(was) && |c.proxies| == |c.bits|
      ensures var n := was[i]; var now := SweptProxies(c, live, was[..i]);
        && (n < |c.proxies| ==> now[n] == c.proxies[n])
        && SweptProxies(c, live, was[..i + 1]) == (if Alive(c, live, n) || n >= |c.proxies| then now else now[n := None])
        && SweptBits(c, live, was[..i + 1]) ==
             (if Alive(c, live, n) || n >= |c.bits| then SweptBits(c, live, was[..i]) else SweptBits(c, live, was[..i])[n := false])
        && Kept(c, live, was[..i + 1]) == Kept(c, live, was[..i]) + if Alive(c, live, n) then [n] else []
    {
      assert was[..i + 1] == was[..i] + [was[i]];
      SweptOneMore(c, live, was[..i], was[i]);
      assert was[i] !in was[..i];
    }

    method TrimTail()
      requires |proxies| == |proxySlotTracked|
      modifies this`proxies, this`proxySlotTracked
      ensures proxies == old(proxies)[..TrimTo(old(proxies), old(proxySlotTracked))]
      ensures proxySlotTracked == old(proxySlotTracked)[..TrimTo(old(proxies), old(proxySlotTracked))]
    {
      while proxies != [] && proxies[|proxies| - 1].None? && !proxySlotTracked[|proxySlotTracked| - 1]
        invariant |proxies| == |proxySlotTracked| <= |old(proxies)|
        invariant proxies == old(proxies)[..|proxies|] && proxySlotTracked == old(proxySlotTracked)[..|proxies|]
        invariant TrimTo(proxies, proxySlotTracked) == TrimTo(old(proxies), old(proxySlotTracked))
        decreases |proxies|
      {
        proxies := proxies[..|proxies| - 1];
        proxySlotTracked := proxySlotTracked[..|proxySlotTracked| - 1];
      }
    }

    method SweepCache(ghost live: set<Wrapper>)
      requires Coherent(Snap()) && Slotted() && Tells(live)
      modifies this`proxies, this`trackedProxySlots, this`proxySlotTracked, this`proxyEntries, this`sweepAt
      ensures Snap() == Swept(old(Snap()), live)
    {
      var liveEntries := SweepTracked(live);
      TrimTail();
      proxyEntries := liveEntries;
      sweepAt := if 2 * liveEntries > PROXY_SWEEP_MIN then 2 * liveEntries else PROXY_SWEEP_MIN;
    }

    /** Sweep: no live wrapper is lost, only live ones are left. */
    method SweepDead()
      requires Coherent(Snap()) && Slotted()
      modifies this`proxies, this`trackedProxySlots, this`proxySlotTracked, this`proxyEntries, this`sweepAt
      ensures Snap() == Swept(old(Snap()), old(Live()))
      ensures ProxyCache.Valid(Snap()) && Slotted() && LiveProxies() == old(LiveProxies())
      ensures proxyEntries == |LiveProxies()|
      ensures old(Owned()) ==> Owned()
    {
      ghost var c, live := Snap(), Live();
      ToldApart(live);
      SweepCache(live);
      SweepKeeps(c, live);
      assert Tells(live);
      ToldApart(live);
    }

    method RemoveProxySlot(nid: nat) returns (was: Option<Wrapper>)
      requires Coherent(Snap())
      modifies this`proxies, this`proxyEntries
      ensures Snap() == Removed(old(Snap()), nid)
      ensures was == if nid < |old(proxies)| then old(proxies)[nid] else None
    {
      if nid >= |proxies| {
        return None;
      }
      was := proxies[nid];
      if was.Some? {
        proxies := proxies[nid := None];
        proxyEntries := if proxyEntries > 0 then proxyEntries - 1 else 0;
      }
    }

    method InsertProxySlot(nid: nat, w: Wrapper)
      requires |proxies| == |proxySlotTracked|
      modifies this`proxies, this`trackedProxySlots, this`proxySlotTracked, this`proxyEntries, this`sweepAt
      ensures Snap() == Inserted(old(Snap()), nid, w)
    {
      if nid >= |proxies| {
        proxies := Padded(proxies, nid + 1, None);
        proxySlotTracked := Padded(proxySlotTracked, nid + 1, false);
      }
      assert proxies == Padded(old(proxies), nid + 1, None) && proxySlotTracked == Padded(old(proxySlotTracked), nid + 1, false);
      if proxies[nid].None? {
        proxyEntries := proxyEntries + 1;
      }
      if !proxySlotTracked[nid] {
        proxySlotTracked := proxySlotTracked[nid := true];
        trackedProxySlots := trackedProxySlots + [nid];
      }
      proxies := proxies[nid := Some(w)];
    }

    /** Put a live wrapper into the slot of its node. */
    method InsertLiveProxy(nid: nat, w: Wrapper)
      requires Valid() && w.alive && w.holder == this && w.doc == doc && w.nodeId == nid
      modifies this
      ensures wrappers == old(wrappers) + {w} && Owned()
      ensures Snap() == Inserted(old(Snap()), nid, w) && Tells(old(Live()) + {w})
      ensures Coherent(Snap()) && proxyEntries <= sweepAt
      ensures LiveProxies() == old(LiveProxies())[nid := w]
    {
      ghost var live := Live() + {w};
      assert Tells(live);
      ToldApart(live);
      InsertKeeps(Snap(), live, nid, w);
      FillSlot(nid, w, live);
      ToldApart(live);
    }

    method FillSlot(nid: nat, w: Wrapper, ghost live: set<Wrapper>)
      requires |proxies| == |proxySlotTracked| && Owned() && Tells(live) && w in live
      requires w.alive && w.holder == this && w.doc == doc && w.nodeId == nid
      modifies this
      ensures wrappers == old(wrappers) + {w} && Snap() == Inserted(old(Snap()), nid, w)
      ensures Owned() && Tells(live)
    {
      ghost var c := Snap();
      InsertProxySlot(nid, w);
      wrappers := wrappers + {w};
      SlotsAfterInsert(c, nid, w);
    }

    /** Cache a live wrapper, sweeping if the threshold is reached. */
    method CacheProxy(nid: nat, w: Wrapper)
      requires Valid() && w.alive && w.holder == this && w.doc == doc && w.nodeId == nid
      modifies this
      ensures Valid() && LiveProxies() == old(LiveProxies())[nid := w] && wrappers == old(wrappers) + {w}
      ensures Snap() == SweptIfFull(Inserted(old(Snap()), nid, w), old(Live()) + {w})
    {
      ghost var live := Live() + {w};
      InsertLiveProxy(nid, w);
      SweepIfFull(live);
    }

    method SweepIfFull(ghost live: set<Wrapper>)
      requires Coherent(Snap()) && Owned() && Tells(live)
      modifies this`proxies, this`trackedProxySlots, this`proxySlotTracked, this`proxyEntries, this`sweepAt
      ensures Valid() && LiveProxies() == old(LiveProxies())
      ensures Snap() == SweptIfFull(old(Snap()), live)
    {
      if proxyEntries >= sweepAt {
        SweptByEither(Snap(), live, Live());
        SweepDead();
      }
    }

    lemma {:induction false} SlotsAfterInsert(c: Cache<Wrapper>, nid: nat, w: Wrapper)
      requires |c.proxies| == |c.bits| && Snap() == Inserted(c, nid, w)
      ensures forall n :: 0 <= n < |proxies| && proxies[n].Some? ==>
                (n == nid && proxies[n] == Some(w)) || (n < |c.proxies| && proxies[n] == c.proxies[n])
    {
    }

    /** Two sets that tell the same wrappers alive sweep alike. */
    lemma {:induction false} SweptByEither(c: Cache<Wrapper>, l: set<Wrapper>, m: set<Wrapper>)
      requires c == Snap() && Coherent(c) && Slotted() && Tells(l) && Tells(m)
      ensures Swept(c, l) == Swept(c, m)
    {
      forall n: nat ensures Alive(c, l, n) == Alive(c, m, n) {
      }
      assert SweptProxies(c, l, c.tracked) == SweptProxies(c, m, c.tracked) && SweptBits(c, l, c.tracked) == SweptBits(c, m, c.tracked);
      KeptByEither(c, l, m, c.tracked);
    }

    lemma {:induction false} KeptByEither(c: Cache<Wrapper>, l: set<Wrapper>, m: set<Wrapper>, ns: seq<nat>)
      requires forall n: nat :: Alive(c, l, n) == Alive(c, m, n)
      ensures Kept(c, l, ns) == Kept(c, m, ns)
    {
      if ns != [] { KeptByEither(c, l, m, ns[..|ns| - 1]); }
    }

    /** The wrapper of a node: the live one if there is one, otherwise a new one
        that takes the slot. */
    method ProxyForId(nid: nat) returns (el: Wrapper)
      requires Valid()
      modifies this
      ensures Valid()
      ensures nid in old(LiveProxies()) ==> el == old(LiveProxies())[nid] && Snap() == old(Snap())
      ensures nid !in old(LiveProxies()) ==> fresh(el) && LiveProxies() == old(LiveProxies())[nid := el]
      ensures el.alive && el.holder == this && el.doc == doc && el.nodeId == nid
      ensures Snap() == LookedUp(old(Snap()), old(Live()), nid, el)
      ensures old(Known()) && nid in doc.arena.kind ==> Known()
    {
      ToldApart(Live());
      if nid < |proxies| && proxies[nid].Some? {
        if proxies[nid].value.alive {
          return proxies[nid].value;
        }
      }
      el := NewProxy(nid);
    }

    method NewProxy(nid: nat) returns (el: Wrapper)
      requires Valid() && nid !in LiveProxies()
      modifies this
      ensures Valid() && fresh(el) && LiveProxies() == old(LiveProxies())[nid := el]
      ensures el.alive && el.holder == this && el.doc == doc && el.nodeId == nid
      ensures Snap() == SweptIfFull(Inserted(old(Snap()), nid, el), old(Live()) + {el})
    {
      el := new Wrapper(this, doc, nid);
      CacheProxy(nid, el);
    }

    /** Empty the slot of node `sid` and return its wrapper if it is alive. */
    method TakeProxy(sid: nat) returns (el: Option<Wrapper>)
      requires Valid()
      modifies this`proxies, this`proxyEntries, this`wrappers
      ensures Valid() && LiveProxies() == old(LiveProxies()) - {sid}
      ensures el == if sid in old(LiveProxies()) then Some(old(LiveProxies())[sid]) else None
      ensures el.Some? ==> el.value.alive && el.value in old(wrappers) && wrappers == old(wrappers) - {el.value}
      ensures el.None? ==> wrappers == old(wrappers)
    {
      ghost var live := Live();
      ToldApart(live);
      RemoveKeeps(Snap(), live, sid);
      var wref := RemoveProxySlot(sid);
      el := if wref.Some? && wref.value.alive then wref else None;
      if el.Some? {
        assert forall n :: 0 <= n < |proxies| && proxies[n].Some? ==> proxies[n].value != el.value;
        wrappers := wrappers - {el.value};
      }
      assert Slotted() && Tells(live);
      ToldApart(live);
    }

    /** Point a live wrapper at node `did` of this document and cache it. */
    method AdoptProxy(did: nat, el: Wrapper)
      requires Valid() && el.alive && el !in wrappers && did !in LiveProxies()
      modifies this, el`holder, el`doc, el`nodeId
      ensures Valid() && LiveProxies() == old(LiveProxies())[did := el] && wrappers == old(wrappers) + {el}
      ensures el.holder == this && el.doc == doc && el.nodeId == did
    {
      el.holder, el.doc, el.nodeId := this, doc, did;
      assert LiveProxies() == old(LiveProxies());
      CacheProxy(did, el);
    }

    ghost predicate Disjoint(dst: DocHolderBase)
      reads this, dst
    {
      wrappers !! dst.wrappers
    }

    lemma {:induction false} OwnersDiffer(dst: DocHolderBase)
      requires dst != this && Valid() && dst.Valid()
      ensures Disjoint(dst)
    {
    }

    /** Move the wrapper of source node `sid`, if a live one is cached, to node `did`
        of the destination. */
    method MoveProxy(dst: DocHolderBase, sid: nat, did: nat)
      requires dst != this && Valid() && dst.Valid() && Disjoint(dst) && did !in dst.LiveProxies()
      modifies this, dst, wrappers`holder, wrappers`doc, wrappers`nodeId
      ensures Valid() && dst.Valid() && Disjoint(dst)
      ensures LiveProxies() == old(LiveProxies()) - {sid}
      ensures dst.LiveProxies() ==
        if sid in old(LiveProxies()) then old(dst.LiveProxies())[did := old(LiveProxies())[sid]] else old(dst.LiveProxies())
      ensures wrappers == if sid in old(LiveProxies()) then old(wrappers) - {old(LiveProxies())[sid]} else old(wrappers)
    {
      var el := TakeProxy(sid);
      if el.Some? {
        dst.AdoptProxy(did, el.value);
      }
    }

    lemma {:induction false} NothingCached()
      requires ProxyCache.Valid(Snap()) && Slotted() && proxyEntries == 0
      ensures LiveProxies() == map[]
    {
      NoSlotOccupied(proxies);
    }

    /** After the moves of `pairs`: each live wrapper of a source belongs to its
        target, no other one has left this cache, and none is lost. */
    ghost predicate Moved(dst: DocHolderBase, pairs: seq<(Id, Id)>, s0: map<nat, Wrapper>, d0: map<nat, Wrapper>, w0: set<Wrapper>)
      reads this, dst, wrappers, dst.wrappers
    {
      && Valid() && dst.Valid() && Disjoint(dst)
      && Shifted(LiveProxies(), dst.LiveProxies(), wrappers, pairs, s0, d0, w0)
    }

    lemma {:induction false} MovedNone(dst: DocHolderBase, s0: map<nat, Wrapper>, d0: map<nat, Wrapper>)
      requires Valid() && dst.Valid() && Disjoint(dst) && s0 == LiveProxies() && d0 == dst.LiveProxies()
      ensures forall pairs: seq<(Id, Id)> :: Moved(dst, pairs[..0], s0, d0, wrappers)
    {
      forall pairs: seq<(Id, Id)> ensures pairs[..0] == [] {
      }
      assert d0 + map[] == d0 && s0 - {} == s0;
    }

    /** With an empty source cache the remaining pairs have nothing to move. */
    lemma {:induction false} MovedEarlyExit(dst: DocHolderBase, pairs: seq<(Id, Id)>, k: nat,
                                            s0: map<nat, Wrapper>, d0: map<nat, Wrapper>, w0: set<Wrapper>)
      requires Injective(pairs) && k <= |pairs| && Moved(dst, pairs[..k], s0, d0, w0)
      requires k < |pairs| ==> proxyEntries == 0
      ensures Moved(dst, pairs, s0, d0, w0)
    {
      if k < |pairs| {
        NothingCached();
        EarlyKeys(s0, pairs, k);
        MovedEarly(pairs, s0, k);
        assert s0 - Sources(pairs) == map[];
      } else {
        assert pairs[..k] == pairs;
      }
    }
  }

  /** `s`, `d` and `w` are `s0`, `d0` and `w0` after the moves of `pairs`. */
  ghost predicate Shifted(s: map<nat, Wrapper>, d: map<nat, Wrapper>, w: set<Wrapper>, pairs: seq<(Id, Id)>,
                          s0: map<nat, Wrapper>, d0: map<nat, Wrapper>, w0: set<Wrapper>) {
    && s == s0 - Sources(pairs)
    && d == d0 + MovedTo(pairs, s0)
    && |s| + |d| == |s0| + |d0|
    && w == w0 - MovedTo(pairs, s0).Values
  }

  lemma {:induction false} NoSlotOccupied(ps: seq<Option<Wrapper>>)
    requires Occupied(ps) == 0
    ensures forall n :: 0 <= n < |ps| ==> ps[n].None?
  {
    if ps != [] { NoSlotOccupied(ps[..|ps| - 1]); }
  }

  lemma {:induction false} EarlyKeys(s0: map<nat, Wrapper>, pairs: seq<(Id, Id)>, k: nat)
    requires k <= |pairs| && s0 - Sources(pairs[..k]) == map[]
    ensures s0.Keys <= Sources(pairs[..k])
  {
    var gone := Sources(pairs[..k]);
    assert forall x :: x in s0 - gone <==> x in s0 && x !in gone;
  }
}
