/** The identity proxy cache as a value: weak slots indexed by node id, a compact
    list of tracked slots, and a sweep threshold re-armed at every sweep. */
module ProxyCache {
  import opened Prelude

  const PROXY_SWEEP_MIN: nat := 4096

  /** `proxies[n]` is the weakly held wrapper for node `n`, dead or alive. */
  datatype Cache<W(==)> = Cache(
    proxies: seq<Option<W>>,
    tracked: seq<nat>,
    bits: seq<bool>,
    entries: nat,
    sweepAt: nat)

  function Empty<W>(): Cache<W> {
    Cache([], [], [], 0, PROXY_SWEEP_MIN)
  }

  function Occupied<W>(proxies: seq<Option<W>>): nat {
    if proxies == [] then 0
    else Occupied(proxies[..|proxies| - 1]) + if proxies[|proxies| - 1].Some? then 1 else 0
  }

  ghost predicate Coherent<W>(c: Cache<W>) {
    && |c.proxies| == |c.bits|
    && c.entries == Occupied(c.proxies)
    && NoDup(c.tracked)
    && (forall n :: 0 <= n < |c.bits| ==> (c.bits[n] <==> n in c.tracked))
    && (forall n :: n in c.tracked ==> n < |c.bits|)
    && (forall n :: 0 <= n < |c.proxies| && c.proxies[n].Some? ==> c.bits[n])
  }

  ghost predicate Valid<W>(c: Cache<W>) {
    Coherent(c) && c.entries < c.sweepAt
  }

  predicate Alive<W(==)>(c: Cache<W>, live: set<W>, n: nat) {
    n < |c.proxies| && c.proxies[n].Some? && c.proxies[n].value in live
  }

  /** The live wrapper of each node that has one. */
  function LiveMap<W(==)>(c: Cache<W>, live: set<W>): (m: map<nat, W>)
    ensures forall n: nat :: n in m <==> Alive(c, live, n)
    ensures forall n: nat :: n in m ==> Alive(c, live, n) && m[n] == c.proxies[n].value
  {
    map n | 0 <= n < |c.proxies| && Alive(c, live, n) :: c.proxies[n].value
  }

  // ------------------------------------------------------------------
  // Operations
  // ------------------------------------------------------------------

  function Kept<W(==)>(c: Cache<W>, live: set<W>, ns: seq<nat>): seq<nat> {
    if ns == [] then []
    else Kept(c, live, ns[..|ns| - 1]) + if Alive(c, live, ns[|ns| - 1]) then [ns[|ns| - 1]] else []
  }

  /** Cut off the trailing slots that are empty and untracked. */
  function TrimTo<W>(proxies: seq<Option<W>>, bits: seq<bool>): (n: nat)
    ensures n <= |proxies| <= n + |bits|
  {
    if proxies != [] && bits != [] && proxies[|proxies| - 1].None? && !bits[|bits| - 1] then
      TrimTo(proxies[..|proxies| - 1], bits[..|bits| - 1])
    else |proxies|
  }

  /** The slots once the tracked nodes `ns` have been looked at: dead wrappers go. */
  function SweptProxies<W(==)>(c: Cache<W>, live: set<W>, ns: seq<nat>): (r: seq<Option<W>>)
    ensures |r| == |c.proxies|
    ensures forall n :: 0 <= n < |r| ==> r[n] == if Alive(c, live, n) || n !in ns then c.proxies[n] else None
  {
    seq(|c.proxies|, n requires 0 <= n < |c.proxies| => if Alive(c, live, n) || n !in ns then c.proxies[n] else None)
  }

  function SweptBits<W(==)>(c: Cache<W>, live: set<W>, ns: seq<nat>): (r: seq<bool>)
    ensures |r| == |c.bits|
    ensures forall n :: 0 <= n < |r| ==> r[n] == (c.bits[n] && (Alive(c, live, n) || n !in ns))
  {
    seq(|c.bits|, n requires 0 <= n < |c.bits| => c.bits[n] && (Alive(c, live, n) || n !in ns))
  }

  lemma {:induction false} SweptOneMore<W>(c: Cache<W>, live: set<W>, ns: seq<nat>, n: nat)
    ensures SweptProxies(c, live, ns + [n]) ==
      if Alive(c, live, n) || n >= |c.proxies| then SweptProxies(c, live, ns) else SweptProxies(c, live, ns)[n := None]
    ensures SweptBits(c, live, ns + [n]) ==
      if Alive(c, live, n) || n >= |c.bits| then SweptBits(c, live, ns) else SweptBits(c, live, ns)[n := false]
    ensures Kept(c, live, ns + [n]) == Kept(c, live, ns) + if Alive(c, live, n) then [n] else []
  {
    var more := ns + [n];
    assert more[..|more| - 1] == ns && more[|more| - 1] == n;
    assert forall m :: m in more <==> m in ns || m == n;
  }

  function Swept<W(==)>(c: Cache<W>, live: set<W>): Cache<W>
  {
    var proxies, bits := SweptProxies(c, live, c.tracked), SweptBits(c, live, c.tracked);
    var n := TrimTo(proxies, bits);
    var kept := Kept(c, live, c.tracked);
    Cache(proxies[..n], kept, bits[..|bits| - (|proxies| - n)], |kept|, Max(PROXY_SWEEP_MIN, 2 * |kept|))
  }

  function Removed<W>(c: Cache<W>, n: nat): Cache<W> {
    if n < |c.proxies| && c.proxies[n].Some? then
      c.(proxies := c.proxies[n := None], entries := if c.entries > 0 then c.entries - 1 else 0)
    else c
  }

  function Padded<T>(s: seq<T>, n: nat, x: T): (r: seq<T>)
    ensures |r| == Max(|s|, n)
    ensures forall i :: 0 <= i < |r| ==> r[i] == if i < |s| then s[i] else x
  {
    if |s| < n then s + seq(n - |s|, _ => x) else s
  }

  function Inserted<W>(c: Cache<W>, n: nat, w: W): Cache<W>
  {
    var proxies, bits := Padded(c.proxies, n + 1, None), Padded(c.bits, n + 1, false);
    Cache(
      proxies[n := Some(w)],
      if bits[n] then c.tracked else c.tracked + [n],
      bits[n := true],
      c.entries + (if proxies[n].None? then 1 else 0),
      c.sweepAt)
  }

  /** Sweep if the threshold is reached. */
  function SweptIfFull<W(==)>(c: Cache<W>, live: set<W>): Cache<W>
  {
    if c.entries >= c.sweepAt then Swept(c, live) else c
  }

  /** The cache after looking up node `n`, where a miss creates `made`. */
  function LookedUp<W(==)>(c: Cache<W>, live: set<W>, n: nat, made: W): Cache<W>
  {
    if Alive(c, live, n) then c else SweptIfFull(Inserted(c, n, made), live + {made})
  }

  // ------------------------------------------------------------------
  // What the operations keep
  // ------------------------------------------------------------------

  lemma {:induction false} OccupiedUpdate<W>(ps: seq<Option<W>>, n: nat, x: Option<W>)
    requires n < |ps|
    ensures Occupied(ps[n := x]) == Occupied(ps) - (if ps[n].Some? then 1 else 0) + (if x.Some? then 1 else 0)
  {
    var m := |ps| - 1;
    if n < m {
      OccupiedUpdate(ps[..m], n, x);
      assert ps[n := x][..m] == ps[..m][n := x];
    } else {
      assert ps[n := x][..m] == ps[..m];
    }
  }

  lemma {:induction false} OccupiedPadded<W>(ps: seq<Option<W>>, n: nat)
    ensures Occupied(Padded(ps, n, None)) == Occupied(ps)
    decreases n
  {
    if n > |ps| {
      OccupiedPadded(ps, n - 1);
      assert Padded(ps, n, None)[..n - 1] == Padded(ps, n - 1, None);
    }
  }

  lemma {:induction false} KeptMembers<W>(c: Cache<W>, live: set<W>, ns: seq<nat>)
    requires NoDup(ns)
    ensures NoDup(Kept(c, live, ns))
    ensures forall n: nat :: n in Kept(c, live, ns) <==> n in ns && Alive(c, live, n)
    decreases |ns|
  {
    if ns != [] {
      var front, last := ns[..|ns| - 1], ns[|ns| - 1];
      KeptMembers(c, live, front);
      assert last !in front;
      assert forall n: nat :: n in ns <==> n in front || n == last;
      NoDupConcat(Kept(c, live, front), if Alive(c, live, last) then [last] else []);
    }
  }

  lemma {:induction false} TrimLoses<W>(ps: seq<Option<W>>, bits: seq<bool>)
    requires |ps| == |bits|
    ensures forall n :: TrimTo(ps, bits) <= n < |ps| ==> ps[n].None? && !bits[n]
    ensures var n := TrimTo(ps, bits); n > 0 ==> ps[n - 1].Some? || bits[n - 1]
    ensures Occupied(ps[..TrimTo(ps, bits)]) == Occupied(ps)
    decreases |ps|
  {
    var m := |ps| - 1;
    if ps != [] && ps[m].None? && !bits[m] {
      TrimLoses(ps[..m], bits[..m]);
      assert ps[..m][..TrimTo(ps, bits)] == ps[..TrimTo(ps, bits)];
    } else {
      assert ps[..|ps|] == ps;
    }
  }

  /** In a list with exactly the indexes `ns` occupied, there are as many. */
  lemma {:induction false} OccupiedCount<W>(ps: seq<Option<W>>, ns: seq<nat>)
    requires NoDup(ns) && (forall n: nat :: n in ns <==> n < |ps| && ps[n].Some?)
    ensures Occupied(ps) == |ns|
    decreases |ns|
  {
    if ns == [] {
      NoneOccupied(ps);
    } else {
      var front, last := ns[..|ns| - 1], ns[|ns| - 1];
      assert last in ns && last !in front;
      var qs := ps[last := None];
      OccupiedUpdate(ps, last, None);
      assert forall n: nat :: n in ns <==> n in front || n == last;
      OccupiedCount(qs, front);
    }
  }

  lemma {:induction false} NoneOccupied<W>(ps: seq<Option<W>>)
    requires forall n :: 0 <= n < |ps| ==> ps[n].None?
    ensures Occupied(ps) == 0
  {
    if ps != [] {
      NoneOccupied(ps[..|ps| - 1]);
    }
  }

  lemma {:induction false} SweptSlots<W>(c: Cache<W>, live: set<W>)
    requires Coherent(c)
    ensures var d := Swept(c, live);
      && |d.proxies| <= |c.proxies|
      && (forall n :: 0 <= n < |d.proxies| ==> d.proxies[n] == if Alive(c, live, n) then c.proxies[n] else None)
      && (forall n :: 0 <= n < |d.proxies| ==> d.bits[n] == Alive(c, live, n))
      && (forall n: nat :: Alive(c, live, n) ==> n < |d.proxies|)
      && (d.proxies != [] ==> d.proxies[|d.proxies| - 1].Some?)
  {
    TrimLoses(SweptProxies(c, live, c.tracked), SweptBits(c, live, c.tracked));
    forall n: nat | n < |c.proxies|
      ensures SweptProxies(c, live, c.tracked)[n] == if Alive(c, live, n) then c.proxies[n] else None
      ensures SweptBits(c, live, c.tracked)[n] == Alive(c, live, n)
    {
      if c.proxies[n].Some? { assert c.bits[n]; }
    }
  }

  lemma {:induction false} SweptMap<W>(c: Cache<W>, live: set<W>)
    requires Coherent(c)
    ensures LiveMap(Swept(c, live), live) == LiveMap(c, live)
    ensures forall n :: 0 <= n < |Swept(c, live).proxies| && Swept(c, live).proxies[n].Some? ==>
              n < |c.proxies| && Swept(c, live).proxies[n] == c.proxies[n]
  {
    SweptSlots(c, live);
  }

  lemma {:induction false} SweptValid<W>(c: Cache<W>, live: set<W>)
    requires Coherent(c)
    ensures Valid(Swept(c, live))
  {
    SweptSlots(c, live);
    SweptTracks(c, live);
    OccupiedCount(Swept(c, live).proxies, Swept(c, live).tracked);
  }

  /** A sweep loses no live wrapper, leaves nothing else, cuts the slots behind the
      last live one, and re-arms the threshold at twice what is left. */
  lemma {:induction false} SweepKeeps<W>(c: Cache<W>, live: set<W>)
    requires Coherent(c)
    ensures Valid(Swept(c, live)) && LiveMap(Swept(c, live), live) == LiveMap(c, live)
    ensures var d := Swept(c, live);
      && d.entries == |LiveMap(c, live)| == |d.tracked|
      && d.sweepAt == (if 2 * d.entries > 4096 then 2 * d.entries else 4096)
      && (d.proxies != [] ==> d.proxies[|d.proxies| - 1].Some?)
    ensures forall n :: 0 <= n < |Swept(c, live).proxies| && Swept(c, live).proxies[n].Some? ==>
              n < |c.proxies| && Swept(c, live).proxies[n] == c.proxies[n]
  {
    SweptMap(c, live);
    SweptValid(c, live);
    LastLives(c, live);
    SweptTracks(c, live);
    KeysCount(LiveMap(c, live).Keys, Swept(c, live).tracked);
  }

  lemma {:induction false} LastLives<W>(c: Cache<W>, live: set<W>)
    requires Coherent(c)
    ensures var d := Swept(c, live); d.proxies != [] ==> d.proxies[|d.proxies| - 1].Some?
  {
    SweptSlots(c, live);
  }

  /** After a sweep exactly the nodes with a live wrapper are tracked, each once. */
  lemma {:induction false} SweptTracks<W>(c: Cache<W>, live: set<W>)
    requires Coherent(c)
    ensures NoDup(Swept(c, live).tracked) && forall n: nat :: n in Swept(c, live).tracked <==> Alive(c, live, n)
  {
    KeptMembers(c, live, c.tracked);
    forall n: nat | Alive(c, live, n) ensures n in c.tracked { assert c.bits[n]; }
  }

  lemma {:induction false} KeysCount(keys: set<nat>, ns: seq<nat>)
    requires NoDup(ns) && forall n: nat :: n in ns <==> n in keys
    ensures |keys| == |ns|
    decreases |ns|
  {
    if ns == [] {
      assert keys == {};
    } else {
      var front, last := ns[..|ns| - 1], ns[|ns| - 1];
      assert forall n: nat :: n in ns <==> n in front || n == last;
      KeysCount(keys - {last}, front);
    }
  }

  lemma {:induction false} RemoveKeeps<W>(c: Cache<W>, live: set<W>, n: nat)
    requires Coherent(c)
    ensures Coherent(Removed(c, n)) && Removed(c, n).sweepAt == c.sweepAt && Removed(c, n).entries <= c.entries
    ensures LiveMap(Removed(c, n), live) == LiveMap(c, live) - {n}
  {
    if n < |c.proxies| && c.proxies[n].Some? {
      OccupiedUpdate(c.proxies, n, None);
    }
  }

  lemma {:induction false} InsertLive<W>(c: Cache<W>, live: set<W>, n: nat, w: W)
    requires Coherent(c) && w in live
    ensures LiveMap(Inserted(c, n, w), live) == LiveMap(c, live)[n := w]
  {
    var d := Inserted(c, n, w);
    forall m: nat ensures Alive(d, live, m) <==> m == n || Alive(c, live, m) {
    }
  }

  lemma {:induction false} InsertOccupies<W>(c: Cache<W>, n: nat, w: W)
    requires Coherent(c)
    ensures var d := Inserted(c, n, w); |d.proxies| == |d.bits| && d.entries == Occupied(d.proxies)
  {
    OccupiedPadded(c.proxies, n + 1);
    OccupiedUpdate(Padded(c.proxies, n + 1, None), n, Some(w));
  }

  lemma {:induction false} InsertKeeps<W>(c: Cache<W>, live: set<W>, n: nat, w: W)
    requires Coherent(c) && w in live
    ensures Coherent(Inserted(c, n, w))
    ensures LiveMap(Inserted(c, n, w), live) == LiveMap(c, live)[n := w]
    ensures Inserted(c, n, w).sweepAt == c.sweepAt && c.entries <= Inserted(c, n, w).entries <= c.entries + 1
  {
    InsertLive(c, live, n, w);
    InsertOccupies(c, n, w);
    InsertTracks(c, n, w);
  }

  lemma {:induction false} InsertTracks<W>(c: Cache<W>, n: nat, w: W)
    requires Coherent(c)
    ensures NoDup(Inserted(c, n, w).tracked)
    ensures forall m :: m in Inserted(c, n, w).tracked <==> m in c.tracked || m == n
  {
    var bits := Padded(c.bits, n + 1, false);
    if !bits[n] {
      assert n !in c.tracked;
      NoDupConcat(c.tracked, [n]);
    } else {
      assert n in c.tracked;
    }
  }

  /** A look-up returns the live wrapper if there is one; otherwise the new wrapper
      takes the slot and every other node keeps its own. The cache stays valid. */
  lemma {:induction false} LookupKeeps<W>(c: Cache<W>, live: set<W>, n: nat, made: W)
    requires Valid(c) && made !in live
    requires forall m :: 0 <= m < |c.proxies| ==> c.proxies[m] != Some(made)
    ensures Valid(LookedUp(c, live, n, made))
    ensures Alive(c, live, n) ==> LookedUp(c, live, n, made) == c
    ensures !Alive(c, live, n) ==>
      LiveMap(LookedUp(c, live, n, made), live + {made}) == LiveMap(c, live)[n := made]
  {
    if !Alive(c, live, n) {
      var live' := live + {made};
      var d := Inserted(c, n, made);
      InsertKeeps(c, live', n, made);
      assert LiveMap(c, live') == LiveMap(c, live);
      if d.entries >= d.sweepAt {
        SweepKeeps(d, live');
      }
    }
  }

  // ------------------------------------------------------------------
  // Runs
  // ------------------------------------------------------------------

  /** `Lookup` carries the wrapper that a miss would create; a wrapper can die at
      any time; `Remove` and `Sweep` are explicit cache surgery. */
  datatype Op<W> = Lookup(n: nat, made: W) | Remove(n: nat) | Sweep | Death(w: W)

  /** The cache, the wrappers alive, every wrapper created so far, the cache misses
      and the tracked slots visited by sweeps. */
  datatype State<W(==)> = State(cache: Cache<W>, live: set<W>, created: set<W>, misses: nat, visited: nat)

  function Start<W(==)>(): State<W> {
    State(Empty(), {}, {}, 0, 0)
  }

  /** A look-up creates a wrapper that did not exist before. */
  predicate Legal<W(==)>(s: State<W>, op: Op<W>) {
    op.Lookup? ==> op.made !in s.created
  }

  function Step<W(==)>(s: State<W>, op: Op<W>): State<W>
  {
    match op
    case Lookup(n, made) =>
      if Alive(s.cache, s.live, n) then s
      else
        var d := Inserted(s.cache, n, made);
        State(LookedUp(s.cache, s.live, n, made), s.live + {made}, s.created + {made}, s.misses + 1,
              s.visited + if d.entries >= d.sweepAt then |d.tracked| else 0)
    case Remove(n) => s.(cache := Removed(s.cache, n))
    case Sweep => s.(cache := Swept(s.cache, s.live), visited := s.visited + |s.cache.tracked|)
    case Death(w) => s.(live := s.live - {w})
  }

  /** What a look-up returns. */
  function Returned<W(==)>(s: State<W>, n: nat, made: W): W {
    if Alive(s.cache, s.live, n) then s.cache.proxies[n].value else made
  }

  ghost predicate Good<W>(s: State<W>) {
    && Valid(s.cache) && s.live <= s.created
    && forall n :: 0 <= n < |s.cache.proxies| && s.cache.proxies[n].Some? ==> s.cache.proxies[n].value in s.created
  }

  lemma {:induction false} SlotsOfLookup<W>(c: Cache<W>, live: set<W>, n: nat, made: W)
    requires Valid(c) && !Alive(c, live, n)
    ensures var d := LookedUp(c, live, n, made);
      forall m :: 0 <= m < |d.proxies| && d.proxies[m].Some? ==>
        d.proxies[m] == Some(made) || (m < |c.proxies| && d.proxies[m] == c.proxies[m])
  {
    var e := Inserted(c, n, made);
    InsertKeeps(c, live + {made}, n, made);
    if e.entries >= e.sweepAt {
      SweepKeeps(e, live + {made});
    }
  }

  /** Every operation keeps the cache valid. */
  lemma {:induction false} StepGood<W>(s: State<W>, op: Op<W>)
    requires Good(s) && Legal(s, op)
    ensures Good(Step(s, op))
  {
    match op
    case Lookup(n, made) =>
      LookupKeeps(s.cache, s.live, n, made);
      if !Alive(s.cache, s.live, n) {
        SlotsOfLookup(s.cache, s.live, n, made);
      }
    case Remove(n) => RemoveKeeps(s.cache, s.live, n);
    case Sweep => SweepKeeps(s.cache, s.live);
    case Death(w) =>
  }

  /** The states along a run, each step legal. */
  ghost predicate IsRun<W>(states: seq<State<W>>, ops: seq<Op<W>>) {
    && |states| == |ops| + 1
    && (forall i :: 0 <= i < |ops| ==>
          Legal(states[i], ops[i]) && states[i + 1] == Step(states[i], ops[i]))
  }

  /** Over every run from a new holder the cache is valid in every state: the entry
      count is the number of occupied slots and below the sweep threshold, the
      tracked list has no duplicates, matches the membership bits and covers every
      occupied slot, and both vectors have equal length. */
  lemma {:induction false} RunsKeepTheCache<W>(states: seq<State<W>>, ops: seq<Op<W>>, i: nat)
    requires IsRun(states, ops) && states[0] == Start() && i < |states|
    ensures Good(states[i])
  {
    if i > 0 {
      RunsKeepTheCache(states, ops, i - 1);
      StepGood(states[i - 1], ops[i - 1]);
    }
  }

  /** A live wrapper stays the wrapper of its node until it dies or is removed. */
  lemma {:induction false} StepStable<W>(s: State<W>, op: Op<W>, n: nat, w: W)
    requires Good(s) && Legal(s, op) && Alive(s.cache, s.live, n) && s.cache.proxies[n].value == w
    requires op != Death(w) && op != Remove(n)
    ensures var s' := Step(s, op); Alive(s'.cache, s'.live, n) && s'.cache.proxies[n].value == w
  {
    assert n in LiveMap(s.cache, s.live);
    match op
    case Lookup(m, made) => LookupKeeps(s.cache, s.live, m, made);
    case Remove(m) => RemoveKeeps(s.cache, s.live, m);
    case Sweep => SweepKeeps(s.cache, s.live);
    case Death(v) =>
    var s' := Step(s, op);
    assert n in LiveMap(s'.cache, s'.live);
  }

  /** Identity: once a look-up of node `n` has returned `w`, every later look-up of
      `n` returns `w`, as long as `w` does not die and `n` is not removed. */
  lemma {:induction false} IdentityIsStable<W>(states: seq<State<W>>, ops: seq<Op<W>>, i: nat, j: nat, n: nat, w: W)
    requires IsRun(states, ops) && states[0] == Start() && i < j <= |ops|
    requires ops[i].Lookup? && ops[i].n == n && Returned(states[i], n, ops[i].made) == w
    requires forall k :: i < k < j ==> ops[k] != Death(w) && ops[k] != Remove(n)
    ensures Alive(states[j].cache, states[j].live, n) && states[j].cache.proxies[n].value == w
    ensures j < |ops| && ops[j].Lookup? && ops[j].n == n ==> Returned(states[j], n, ops[j].made) == w
    decreases j
  {
    if j == i + 1 {
      RunsKeepTheCache(states, ops, i);
      LookupKeeps(states[i].cache, states[i].live, n, ops[i].made);
      assert n in LiveMap(states[j].cache, states[j].live);
    } else {
      IdentityIsStable(states, ops, i, j - 1, n, w);
      RunsKeepTheCache(states, ops, j - 1);
      StepStable(states[j - 1], ops[j - 1], n, w);
    }
  }

  // ------------------------------------------------------------------
  // Amortised cost
  // ------------------------------------------------------------------

  /** Between sweeps of a run without removals the tracked slots are the entries,
      and the misses pay for the slots that sweeps have visited. */
  ghost predicate Paid<W>(s: State<W>) {
    && Good(s) && |s.cache.tracked| == s.cache.entries && s.cache.entries < s.cache.sweepAt
    && s.visited <= 2 * s.misses
    && s.visited + 2 * s.cache.entries <= 2 * s.misses + s.cache.sweepAt
  }

  lemma {:induction false} StepPaid<W>(s: State<W>, op: Op<W>)
    requires Paid(s) && Legal(s, op) && (op.Lookup? || op.Death?)
    ensures Paid(Step(s, op))
  {
    StepGood(s, op);
    if op.Lookup? && !Alive(s.cache, s.live, op.n) {
      var d := Inserted(s.cache, op.n, op.made);
      InsertKeeps(s.cache, s.live + {op.made}, op.n, op.made);
      TrackedGrows(s.cache, op.n, op.made);
      if d.entries >= d.sweepAt {
        SweepKeeps(d, s.live + {op.made});
      }
    }
  }

  /** Without removals an untracked slot is an empty one. */
  lemma {:induction false} TrackedGrows<W>(c: Cache<W>, n: nat, w: W)
    requires Coherent(c) && |c.tracked| == c.entries
    ensures |Inserted(c, n, w).tracked| == Inserted(c, n, w).entries
  {
    OccupiedPadded(c.proxies, n + 1);
    if n < |c.proxies| && c.bits[n] && c.proxies[n].None? {
      var ps := c.proxies[n := Some(w)];
      OccupiedUpdate(c.proxies, n, Some(w));
      OccupiedAtMost(ps, c.tracked);
      assert false;
    }
  }

  lemma {:induction false} OccupiedAtMost<W>(ps: seq<Option<W>>, ns: seq<nat>)
    requires forall n: nat :: n < |ps| && ps[n].Some? ==> n in ns
    ensures Occupied(ps) <= |ns|
    decreases |ns|
  {
    if ns == [] {
      NoneOccupied(ps);
    } else {
      var front, last := ns[..|ns| - 1], ns[|ns| - 1];
      assert forall n: nat :: n in ns ==> n in front || n == last;
      if last < |ps| {
        OccupiedUpdate(ps, last, None);
        OccupiedAtMost(ps[last := None], front);
      } else {
        OccupiedAtMost(ps, front);
      }
    }
  }

  /** Over any run of look-ups and deaths from a new holder, sweeps visit at most
      two tracked slots per cache miss. */
  lemma {:induction false} SweepsAreAmortised<W>(states: seq<State<W>>, ops: seq<Op<W>>, i: nat)
    requires IsRun(states, ops) && states[0] == Start() && i < |states|
    requires forall k :: 0 <= k < |ops| ==> ops[k].Lookup? || ops[k].Death?
    ensures Paid(states[i])
    ensures states[i].visited <= 2 * states[i].misses && states[i].cache.entries < states[i].cache.sweepAt
  {
    if i > 0 {
      SweepsAreAmortised(states, ops, i - 1);
      StepPaid(states[i - 1], ops[i - 1]);
    }
  }
}
