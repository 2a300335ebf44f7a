/** The interpreter lock and the document mutexes: threads that import, re-point
    and run detached single-document work, in every interleaving. */
module Locking {
  import opened Prelude

  /** Documents are identified by the address of their shared cell. */
  type Addr = nat

  datatype Act = TakeGil | DropGil | Lock(doc: Addr) | Unlock(doc: Addr)

  datatype Op =
    | Import(dst: Addr, src: Addr)
    | Repoint(dst: Addr, src: Addr)
    | Attached(doc: Addr)
    | Detached(doc: Addr)

  /** Importing takes the lower address first. */
  function ImportLocks(dst: Addr, src: Addr): seq<Addr> {
    if src == dst then [] else if dst < src then [dst, src] else [src, dst]
  }

  /** So does the walk that pairs the nodes of a moved subtree; within one document
      it takes one lock. */
  function RepointLocks(dst: Addr, src: Addr): seq<Addr> {
    if src == dst then [src] else if dst < src then [dst, src] else [src, dst]
  }

  function Locks(ms: seq<Addr>): seq<Act> {
    if ms == [] then [] else [Lock(ms[0])] + Locks(ms[1..])
  }

  /** The guard of the destination is dropped before that of the source. */
  function Unlocks(dst: Addr, src: Addr): seq<Act> {
    if src == dst then [Unlock(src)] else [Unlock(dst), Unlock(src)]
  }

  function Program(op: Op): seq<Act> {
    match op
    case Import(d, s) => [TakeGil] + Locks(ImportLocks(d, s)) + (if d == s then [] else Unlocks(d, s)) + [DropGil]
    case Repoint(d, s) => [TakeGil] + Locks(RepointLocks(d, s)) + Unlocks(d, s) + [DropGil]
    case Attached(m) => [TakeGil, Lock(m), Unlock(m), DropGil]
    case Detached(m) => [TakeGil, DropGil, Lock(m), Unlock(m), TakeGil, DropGil]
  }

  function Programs(ops: seq<Op>): seq<Act> {
    if ops == [] then [] else Program(ops[0]) + Programs(ops[1..])
  }

  /** The documents that an operation reads or edits. Importing from the document
      itself is refused before it is touched. */
  function Needs(op: Op): set<Addr> {
    match op
    case Import(d, s) => if d == s then {} else {d, s}
    case Repoint(d, s) => {d, s}
    case Attached(m) => {m}
    case Detached(m) => {m}
  }

  function LockedBy(acts: seq<Act>): set<Addr> {
    if acts == [] then {}
    else
      match acts[|acts| - 1]
      case Lock(m) => LockedBy(acts[..|acts| - 1]) + {m}
      case Unlock(m) => LockedBy(acts[..|acts| - 1]) - {m}
      case _ => LockedBy(acts[..|acts| - 1])
  }

  function AttachedBy(acts: seq<Act>): bool {
    if acts == [] then false
    else
      match acts[|acts| - 1]
      case TakeGil => true
      case DropGil => false
      case _ => AttachedBy(acts[..|acts| - 1])
  }

  lemma {:induction false} HeldSnoc(acts: seq<Act>, x: Act)
    ensures LockedBy(acts + [x]) ==
      match x case Lock(m) => LockedBy(acts) + {m} case Unlock(m) => LockedBy(acts) - {m} case _ => LockedBy(acts)
    ensures AttachedBy(acts + [x]) == match x case TakeGil => true case DropGil => false case _ => AttachedBy(acts)
  {
    assert (acts + [x])[..|acts|] == acts;
  }

  /** Up to some point in its program an operation has locked exactly the documents
      it needs, all of them at once, with the interpreter lock unless it is detached. */
  lemma {:induction false} WorksUnderLocks(op: Op) returns (n: nat)
    ensures n <= |Program(op)| && LockedBy(Program(op)[..n]) == Needs(op) && AttachedBy(Program(op)[..n]) == !op.Detached?
  {
    match op
    case Import(d, s) => n := BothLocked(op, ImportLocks(d, s));
    case Repoint(d, s) => n := BothLocked(op, RepointLocks(d, s));
    case Attached(m) =>
      n := 2;
      HeldSnoc([], TakeGil);
      HeldSnoc([] + [TakeGil], Lock(m));
      assert Program(op)[..n] == ([] + [TakeGil]) + [Lock(m)];
    case Detached(m) =>
      n := 3;
      HeldSnoc([], TakeGil);
      HeldSnoc([] + [TakeGil], DropGil);
      HeldSnoc(([] + [TakeGil]) + [DropGil], Lock(m));
      assert Program(op)[..n] == (([] + [TakeGil]) + [DropGil]) + [Lock(m)];
  }

  lemma {:induction false} BothLocked(op: Op, ms: seq<Addr>) returns (n: nat)
    requires |ms| <= 2 && [TakeGil] + Locks(ms) <= Program(op)
    ensures n <= |Program(op)| && LockedBy(Program(op)[..n]) == (set m | m in ms) && AttachedBy(Program(op)[..n])
  {
    n := 1 + |Locks(ms)|;
    HeldSnoc([], TakeGil);
    if |ms| == 1 {
      LocksOfTwo(ms[0], ms[0]);
      assert ms == [ms[0]];
      HeldSnoc([] + [TakeGil], Lock(ms[0]));
      assert Program(op)[..n] == ([] + [TakeGil]) + [Lock(ms[0])];
    } else if |ms| == 2 {
      LocksOfTwo(ms[0], ms[1]);
      assert ms == [ms[0], ms[1]];
      HeldSnoc([] + [TakeGil], Lock(ms[0]));
      HeldSnoc(([] + [TakeGil]) + [Lock(ms[0])], Lock(ms[1]));
      assert Program(op)[..n] == (([] + [TakeGil]) + [Lock(ms[0])]) + [Lock(ms[1])];
    } else {
      assert Program(op)[..n] == [] + [TakeGil];
    }
  }

  // ------------------------------------------------------------------
  // The transition system
  // ------------------------------------------------------------------

  type Tid = nat

  /** What every thread still has to do, and who holds what. Without an
      interpreter lock (`free`) any number of threads may be attached. */
  datatype State = State(free: bool, rest: seq<seq<Act>>, gil: set<Tid>, owner: map<Addr, Tid>)

  ghost predicate Enabled(s: State, t: Tid) {
    && t < |s.rest| && s.rest[t] != []
    && match s.rest[t][0]
       case TakeGil => s.free || s.gil == {}
       case DropGil => t in s.gil
       case Lock(m) => m !in s.owner
       case Unlock(m) => m in s.owner && s.owner[m] == t
  }

  function Step(s: State, t: Tid): State
    requires t < |s.rest| && s.rest[t] != []
  {
    var rest := s.rest[t := s.rest[t][1..]];
    match s.rest[t][0]
    case TakeGil => s.(rest := rest, gil := s.gil + {t})
    case DropGil => s.(rest := rest, gil := s.gil - {t})
    case Lock(m) => s.(rest := rest, owner := s.owner[m := t])
    case Unlock(m) => s.(rest := rest, owner := s.owner - {m})
  }

  ghost predicate Init(s: State, work: seq<seq<Op>>) {
    && |s.rest| == |work| && (forall t :: 0 <= t < |work| ==> s.rest[t] == Programs(work[t]))
    && s.gil == {} && s.owner == map[]
  }

  /** `schedule` names the thread that moves, step by step. */
  ghost predicate Run(s: State, schedule: seq<Tid>, s': State)
    decreases |schedule|
  {
    if schedule == [] then s' == s
    else Enabled(s, schedule[0]) && Run(Step(s, schedule[0]), schedule[1..], s')
  }

  predicate Finished(s: State) {
    forall t :: 0 <= t < |s.rest| ==> s.rest[t] == []
  }

  // ------------------------------------------------------------------
  // The discipline
  // ------------------------------------------------------------------

  /** A thread holding `held` (and the interpreter lock, if `gil`) may go on like
      this: mutexes in rising order, the interpreter lock never awaited while a
      mutex is held, everything given back. */
  ghost predicate Disciplined(acts: seq<Act>, gil: bool, held: set<Addr>) {
    if acts == [] then !gil && held == {}
    else
      match acts[0]
      case TakeGil => !gil && held == {} && Disciplined(acts[1..], true, held)
      case DropGil => gil && Disciplined(acts[1..], false, held)
      case Lock(m) => (forall h :: h in held ==> h < m) && Disciplined(acts[1..], gil, held + {m})
      case Unlock(m) => m in held && Disciplined(acts[1..], gil, held - {m})
  }

  lemma {:induction false} OneDocument(gil: bool, m: Addr, after: seq<Act>)
    requires Disciplined(after, gil, {})
    ensures Disciplined([Lock(m), Unlock(m)] + after, gil, {})
  {
    var u := [Unlock(m)] + after;
    assert u[1..] == after && {m} - {m} == {} && {} + {m} == {m};
    assert ([Lock(m), Unlock(m)] + after)[1..] == u;
  }

  lemma {:induction false} TwoDocuments(a: Addr, b: Addr, first: Addr, second: Addr, gil: bool, after: seq<Act>)
    requires a < b && Disciplined(after, gil, {}) && ((first == a && second == b) || (first == b && second == a))
    ensures Disciplined([Lock(a), Lock(b), Unlock(first), Unlock(second)] + after, gil, {})
  {
    var u2 := [Unlock(second)] + after;
    var u1 := [Unlock(first), Unlock(second)] + after;
    var l2 := [Lock(b), Unlock(first), Unlock(second)] + after;
    assert u2[1..] == after && {second} - {second} == {};
    assert Disciplined(u2, gil, {second});
    assert u1[1..] == u2 && {a, b} - {first} == {second};
    assert Disciplined(u1, gil, {a, b});
    assert l2[1..] == u1 && {a} + {b} == {a, b};
    assert Disciplined(l2, gil, {a});
    assert ([Lock(a), Lock(b), Unlock(first), Unlock(second)] + after)[1..] == l2 && {} + {a} == {a};
  }

  lemma {:induction false} WithGil(body: seq<Act>, after: seq<Act>)
    requires Disciplined(after, false, {}) && Disciplined(body + ([DropGil] + after), true, {})
    ensures Disciplined([TakeGil] + body + [DropGil] + after, false, {})
  {
    assert ([TakeGil] + body + [DropGil] + after)[1..] == body + ([DropGil] + after);
  }

  lemma {:induction false} GilGivenBack(after: seq<Act>)
    requires Disciplined(after, false, {})
    ensures Disciplined([DropGil] + after, true, {})
  {
    assert ([DropGil] + after)[1..] == after;
  }

  lemma {:induction false} LocksOfTwo(a: Addr, b: Addr)
    ensures Locks([a, b]) == [Lock(a), Lock(b)] && Locks([a]) == [Lock(a)] && Locks([]) == []
  {
    assert [a, b][1..] == [b] && [b][1..] == [] && [a][1..] == [];
    assert Locks([b]) == [Lock(b)] + [] && Locks([a]) == [Lock(a)] + [];
    assert Locks([a, b]) == [Lock(a)] + [Lock(b)];
  }

  lemma {:induction false} ProgramIsDisciplined(op: Op, after: seq<Act>)
    requires Disciplined(after, false, {})
    ensures Disciplined(Program(op) + after, false, {})
  {
    match op
    case Import(d, s) => ImportIsDisciplined(d, s, after);
    case Repoint(d, s) => RepointIsDisciplined(d, s, after);
    case Attached(m) =>
      GilGivenBack(after);
      OneDocument(true, m, [DropGil] + after);
      WithGil([Lock(m), Unlock(m)], after);
      assert Program(op) + after == [TakeGil] + [Lock(m), Unlock(m)] + [DropGil] + after;
    case Detached(m) => DetachedIsDisciplined(m, after);
  }

  lemma {:induction false} GilOnly(after: seq<Act>)
    requires Disciplined(after, false, {})
    ensures Disciplined([TakeGil, DropGil] + after, false, {})
  {
    GilGivenBack(after);
    assert ([TakeGil, DropGil] + after)[1..] == [DropGil] + after;
  }

  lemma {:induction false} DetachedIsDisciplined(m: Addr, after: seq<Act>)
    requires Disciplined(after, false, {})
    ensures Disciplined(Program(Detached(m)) + after, false, {})
  {
    var back := [TakeGil, DropGil] + after;
    var mid := [Lock(m), Unlock(m)] + back;
    GilOnly(after);
    OneDocument(false, m, back);
    GilOnly(mid);
    assert Program(Detached(m)) + after == [TakeGil, DropGil] + mid;
  }

  lemma {:induction false} TwoInOrder(d: Addr, s: Addr, g: seq<Act>)
    requires d != s && Disciplined(g, true, {})
    ensures Disciplined(Locks(if d < s then [d, s] else [s, d]) + Unlocks(d, s) + g, true, {})
  {
    var a, b := if d < s then d else s, if d < s then s else d;
    LocksOfTwo(a, b);
    TwoDocuments(a, b, d, s, true, g);
    assert [Lock(a), Lock(b)] + Unlocks(d, s) + g == [Lock(a), Lock(b), Unlock(d), Unlock(s)] + g;
  }

  lemma {:induction false} ImportIsDisciplined(d: Addr, s: Addr, after: seq<Act>)
    requires Disciplined(after, false, {})
    ensures Disciplined(Program(Import(d, s)) + after, false, {})
  {
    var g := [DropGil] + after;
    GilGivenBack(after);
    LocksOfTwo(d, s);
    var body := Locks(ImportLocks(d, s)) + (if d == s then [] else Unlocks(d, s));
    if d == s {
      assert body + g == g;
    } else {
      TwoInOrder(d, s, g);
    }
    WithGil(body, after);
    assert Program(Import(d, s)) + after == [TakeGil] + body + [DropGil] + after;
  }

  lemma {:induction false} RepointIsDisciplined(d: Addr, s: Addr, after: seq<Act>)
    requires Disciplined(after, false, {})
    ensures Disciplined(Program(Repoint(d, s)) + after, false, {})
  {
    var g := [DropGil] + after;
    GilGivenBack(after);
    LocksOfTwo(s, d);
    var body := Locks(RepointLocks(d, s)) + Unlocks(d, s);
    if d == s {
      OneDocument(true, s, g);
      assert body + g == [Lock(s), Unlock(s)] + g;
    } else {
      TwoInOrder(d, s, g);
    }
    WithGil(body, after);
    assert Program(Repoint(d, s)) + after == [TakeGil] + body + [DropGil] + after;
  }

  lemma {:induction false} WorkIsDisciplined(ops: seq<Op>)
    ensures Disciplined(Programs(ops), false, {})
  {
    if ops != [] {
      WorkIsDisciplined(ops[1..]);
      ProgramIsDisciplined(ops[0], Programs(ops[1..]));
    }
  }

  // ------------------------------------------------------------------
  // Every reachable state
  // ------------------------------------------------------------------

  function Held(s: State, t: Tid): set<Addr> {
    set m | m in s.owner && s.owner[m] == t
  }

  ghost predicate Sound(s: State) {
    && (forall t :: 0 <= t < |s.rest| ==> Disciplined(s.rest[t], t in s.gil, Held(s, t)))
    && (forall m :: m in s.owner ==> s.owner[m] < |s.rest|)
    && (forall t :: t in s.gil ==> t < |s.rest|)
    && (!s.free ==> forall t, u :: t in s.gil && u in s.gil ==> t == u)
  }

  lemma {:induction false} InitIsSound(s: State, work: seq<seq<Op>>)
    requires Init(s, work)
    ensures Sound(s)
  {
    forall t | 0 <= t < |s.rest| ensures Disciplined(s.rest[t], t in s.gil, Held(s, t)) {
      WorkIsDisciplined(work[t]);
      assert Held(s, t) == {};
    }
  }

  lemma {:induction false} HeldAfter(s: State, t: Tid, u: Tid)
    requires Sound(s) && Enabled(s, t)
    ensures u != t ==> Held(Step(s, t), u) == Held(s, u)
    ensures Held(Step(s, t), t) ==
      match s.rest[t][0]
      case Lock(m) => Held(s, t) + {m}
      case Unlock(m) => Held(s, t) - {m}
      case _ => Held(s, t)
  {
  }

  lemma {:induction false} StepIsSound(s: State, t: Tid)
    requires Sound(s) && Enabled(s, t)
    ensures Sound(Step(s, t))
  {
    var s' := Step(s, t);
    forall u | 0 <= u < |s'.rest| ensures Disciplined(s'.rest[u], u in s'.gil, Held(s', u)) {
      HeldAfter(s, t, u);
      assert Disciplined(s.rest[u], u in s.gil, Held(s, u));
    }
  }

  lemma {:induction false} RunIsSound(s: State, schedule: seq<Tid>, s': State)
    requires Sound(s) && Run(s, schedule, s')
    ensures Sound(s')
    decreases |schedule|
  {
    if schedule != [] {
      StepIsSound(s, schedule[0]);
      RunIsSound(Step(s, schedule[0]), schedule[1..], s');
    }
  }

  lemma {:induction false} HighestMutex(owner: map<Addr, Tid>) returns (m: Addr)
    requires owner != map[]
    ensures m in owner && forall h :: h in owner ==> h <= m
    decreases |owner|
  {
    var k :| k in owner;
    m := k;
    var rest := owner - {k};
    assert |rest.Keys| < |owner.Keys| by { assert rest.Keys == owner.Keys - {k}; }
    assert forall h :: h in owner ==> h == k || h in rest;
    if rest != map[] {
      var n := HighestMutex(rest);
      if n > m { m := n; }
    }
  }

  /** While a mutex is held, the thread that holds the highest one can move. */
  lemma {:induction false} HolderMoves(s: State) returns (t: Tid)
    requires Sound(s) && s.owner != map[]
    ensures Enabled(s, t)
  {
    var m := HighestMutex(s.owner);
    t := s.owner[m];
    assert m in Held(s, t) && Disciplined(s.rest[t], t in s.gil, Held(s, t));
  }

  /** Otherwise the one that has the interpreter lock, or any other, can. */
  lemma {:induction false} AttachedMoves(s: State, t: Tid) returns (u: Tid)
    requires Sound(s) && s.owner == map[] && t < |s.rest| && s.rest[t] != []
    ensures Enabled(s, u)
  {
    assert Held(s, t) == {} && Disciplined(s.rest[t], t in s.gil, Held(s, t));
    u := t;
    if s.rest[t][0].TakeGil? && !s.free && s.gil != {} {
      u :| u in s.gil;
      assert Held(s, u) == {} && Disciplined(s.rest[u], u in s.gil, Held(s, u));
    }
  }

  /** No reachable state is deadlocked. */
  lemma {:induction false} NeverDeadlocked(s: State, work: seq<seq<Op>>, schedule: seq<Tid>, s': State) returns (t: Tid)
    requires Init(s, work) && Run(s, schedule, s') && !Finished(s')
    ensures Enabled(s', t)
  {
    InitIsSound(s, work);
    RunIsSound(s, schedule, s');
    t := SomeoneMoves(s');
  }

  lemma {:induction false} SomeoneMoves(s: State) returns (t: Tid)
    requires Sound(s) && !Finished(s)
    ensures Enabled(s, t)
  {
    if s.owner != map[] {
      t := HolderMoves(s);
    } else {
      t :| 0 <= t < |s.rest| && s.rest[t] != [];
      t := AttachedMoves(s, t);
    }
  }

  function Total(rest: seq<seq<Act>>): nat {
    if rest == [] then 0 else |rest[|rest| - 1]| + Total(rest[..|rest| - 1])
  }

  lemma {:induction false} TotalDrops(rest: seq<seq<Act>>, t: Tid)
    requires t < |rest| && rest[t] != []
    ensures Total(rest[t := rest[t][1..]]) == Total(rest) - 1
    decreases |rest|
  {
    var next := rest[t := rest[t][1..]];
    var n := |rest| - 1;
    if t < n {
      TotalDrops(rest[..n], t);
      assert next[..n] == rest[..n][t := rest[..n][t][1..]];
    } else {
      assert next[..n] == rest[..n];
    }
  }

  /** Every run is finite: a run of `n` steps has done `n` of the actions. */
  lemma {:induction false} RunsAreBounded(s: State, schedule: seq<Tid>, s': State)
    requires Run(s, schedule, s')
    ensures |schedule| + Total(s'.rest) == Total(s.rest)
    decreases |schedule|
  {
    if schedule != [] {
      TotalDrops(s.rest, schedule[0]);
      RunsAreBounded(Step(s, schedule[0]), schedule[1..], s');
    }
  }

  /** From every reachable state all threads can be brought to their end. */
  lemma {:induction false} CanFinish(s: State) returns (schedule: seq<Tid>, s': State)
    requires Sound(s)
    ensures Run(s, schedule, s') && Finished(s')
    decreases Total(s.rest)
  {
    if Finished(s) {
      schedule, s' := [], s;
    } else {
      var t := SomeoneMoves(s);
      StepIsSound(s, t);
      TotalDrops(s.rest, t);
      var more;
      more, s' := CanFinish(Step(s, t));
      schedule := [t] + more;
      assert schedule[1..] == more;
    }
  }

  // ------------------------------------------------------------------
  // Why the discipline is needed
  // ------------------------------------------------------------------

  ghost predicate Deadlocked(s: State) {
    !Finished(s) && forall t :: !Enabled(s, t)
  }

  /** Two imports in opposite directions that lock the destination first get stuck
      where no interpreter lock keeps them apart. */
  lemma {:induction false} UnorderedLocksDeadlock(a: Addr, b: Addr)
    requires a != b
    ensures var p, q := [TakeGil, Lock(a), Lock(b)], [TakeGil, Lock(b), Lock(a)];
      exists schedule, s' :: Run(State(true, [p, q], {}, map[]), schedule, s') && Deadlocked(s')
  {
    var p, q := [TakeGil, Lock(a), Lock(b)], [TakeGil, Lock(b), Lock(a)];
    var s0 := State(true, [p, q], {}, map[]);
    var s1 := Step(s0, 0);
    var s2 := Step(s1, 0);
    var s3 := Step(s2, 1);
    var s4 := Step(s3, 1);
    assert s4.rest == [[Lock(b)], [Lock(a)]] && s4.owner == map[a := 0, b := 1];
    assert s4.rest[0] != [];
    assert Run(s4, [], s4);
    assert [1, 1][1..] == [1] && [0, 1, 1][1..] == [1, 1] && [0, 0, 1, 1][1..] == [0, 1, 1] && [1][1..] == [];
    assert Run(s3, [1], s4);
    assert Run(s2, [1, 1], s4);
    assert Run(s1, [0, 1, 1], s4);
    assert Run(s0, [0, 0, 1, 1], s4);
  }

  /** So do a detached operation that re-attaches before it unlocks and an
      attached one on the same document. */
  lemma {:induction false} AwaitingTheGilDeadlocks(m: Addr)
    ensures var p, q := [Lock(m), TakeGil, Unlock(m), DropGil], [TakeGil, Lock(m), Unlock(m), DropGil];
      exists schedule, s' :: Run(State(false, [p, q], {}, map[]), schedule, s') && Deadlocked(s')
  {
    var p, q := [Lock(m), TakeGil, Unlock(m), DropGil], [TakeGil, Lock(m), Unlock(m), DropGil];
    var s0 := State(false, [p, q], {}, map[]);
    var s1 := Step(s0, 0);
    var s2 := Step(s1, 1);
    assert s2.rest[0] == p[1..] && s2.rest[1] == q[1..];
    assert s2.gil == {1} && s2.owner == map[m := 0];
    assert s2.rest[0] != [];
    assert [0, 1][1..] == [1] && [1][1..] == [];
    assert Run(s1, [1], s2);
    assert Run(s0, [0, 1], s2);
  }
}
