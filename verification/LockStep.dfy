/** The lock-step walk that pairs the nodes of a subtree with those of its clone. */
module LockStep {
  import opened Prelude
  import opened Arena

  /** The pairs in the order of the walk: last child first. */
  function Zip(s: Tree, d: Tree): seq<(Id, Id)>
    decreases s, |s.kids| + 1
  {
    [(s.id, d.id)] + ZipFrom(s, d, Min(|s.kids|, |d.kids|))
  }

  function ZipFrom(s: Tree, d: Tree, n: nat): seq<(Id, Id)>
    requires n <= |s.kids| && n <= |d.kids|
    decreases s, n
  {
    if n == 0 then [] else Zip(s.kids[n - 1], d.kids[n - 1]) + ZipFrom(s, d, n - 1)
  }

  function ZipAll(todo: seq<(Tree, Tree)>): seq<(Id, Id)> {
    if todo == [] then []
    else Zip(todo[|todo| - 1].0, todo[|todo| - 1].1) + ZipAll(todo[..|todo| - 1])
  }

  function KidPairs(s: Tree, d: Tree, n: nat): (r: seq<(Tree, Tree)>)
    requires n <= |s.kids| && n <= |d.kids|
    ensures |r| == n && forall i :: 0 <= i < n ==> r[i] == (s.kids[i], d.kids[i])
  {
    seq(n, i requires 0 <= i < n => (s.kids[i], d.kids[i]))
  }

  lemma {:induction false} ZipPushed(todo: seq<(Tree, Tree)>, s: Tree, d: Tree, n: nat)
    requires n <= |s.kids| && n <= |d.kids|
    ensures ZipAll(todo + KidPairs(s, d, n)) == ZipFrom(s, d, n) + ZipAll(todo)
    decreases n
  {
    var all := todo + KidPairs(s, d, n);
    if n == 0 {
      assert all == todo;
    } else {
      ZipPushed(todo, s, d, n - 1);
      assert all[..|all| - 1] == todo + KidPairs(s, d, n - 1);
      assert all[|all| - 1] == (s.kids[n - 1], d.kids[n - 1]);
      assert Zip(s.kids[n - 1], d.kids[n - 1]) + (ZipFrom(s, d, n - 1) + ZipAll(todo))
          == Zip(s.kids[n - 1], d.kids[n - 1]) + ZipFrom(s, d, n - 1) + ZipAll(todo);
    }
  }

  ghost predicate PairsOnStack(sa: Arena, da: Arena, stack: seq<(Id, Id)>, todo: seq<(Tree, Tree)>) {
    |stack| == |todo| && forall i :: 0 <= i < |todo| ==>
      Holds(sa, todo[i].0) && Holds(da, todo[i].1) && stack[i] == (todo[i].0.id, todo[i].1.id)
  }

  function IdPairs(todo: seq<(Tree, Tree)>): (r: seq<(Id, Id)>)
    ensures |r| == |todo| && forall i :: 0 <= i < |todo| ==> r[i] == (todo[i].0.id, todo[i].1.id)
  {
    seq(|todo|, i requires 0 <= i < |todo| => (todo[i].0.id, todo[i].1.id))
  }

  lemma {:induction false} PairedSnoc(s: Tree, d: Tree, i: nat)
    requires i < |s.kids| && i < |d.kids|
    ensures IdPairs(KidPairs(s, d, i + 1)) == IdPairs(KidPairs(s, d, i)) + [(s.kids[i].id, d.kids[i].id)]
  {
  }

  /** Pair up the children of two nodes, by position. */
  method PairChildren(sa: Arena, da: Arena, s: Id, d: Id, ghost st: Tree, ghost dt: Tree) returns (pairs: seq<(Id, Id)>)
    requires Wf(sa) && Wf(da) && Holds(sa, st) && Holds(da, dt) && st.id == s && dt.id == d
    ensures pairs == IdPairs(KidPairs(st, dt, Min(|st.kids|, |dt.kids|)))
  {
    pairs := [];
    var sc, dc := FirstChild(sa, s), FirstChild(da, d);
    ghost var i := 0;
    while sc.Some? && dc.Some?
      invariant 0 <= i <= |st.kids| && i <= |dt.kids|
      invariant sc == ChildAt(sa, s, i) && dc == ChildAt(da, d, i)
      invariant pairs == IdPairs(KidPairs(st, dt, i))
      decreases |st.kids| - i
    {
      PairedSnoc(st, dt, i);
      pairs := pairs + [(sc.value, dc.value)];
      SiblingStep(sa, s, i);
      SiblingStep(da, d, i);
      sc, dc := NextSibling(sa, sc.value), NextSibling(da, dc.value);
      i := i + 1;
    }
  }

  lemma {:induction false} StackPaired(sa: Arena, da: Arena, stack: seq<(Id, Id)>, todo: seq<(Tree, Tree)>, st: Tree, dt: Tree)
    requires PairsOnStack(sa, da, stack, todo) && Holds(sa, st) && Holds(da, dt)
    ensures var n := Min(|st.kids|, |dt.kids|);
            PairsOnStack(sa, da, stack + IdPairs(KidPairs(st, dt, n)), todo + KidPairs(st, dt, n))
  {
  }

  /** Popping a pair and pushing the pairs of its children. */
  lemma {:induction false} PopPair(pairs: seq<(Id, Id)>, x: Tree, y: Tree, rest: seq<(Tree, Tree)>, todo: seq<(Tree, Tree)>, next: seq<(Tree, Tree)>)
    requires todo != [] && todo[|todo| - 1] == (x, y) && todo[..|todo| - 1] == rest && next == rest + KidPairs(x, y, Min(|x.kids|, |y.kids|))
    ensures pairs + ZipAll(todo) == (pairs + [(x.id, y.id)]) + ZipAll(next)
    ensures |ZipAll(next)| < |ZipAll(todo)|
  {
    var n := Min(|x.kids|, |y.kids|);
    ZipPushed(rest, x, y, n);
    Regroup(pairs, (x.id, y.id), ZipFrom(x, y, n), ZipAll(rest));
  }

  lemma {:induction false} Regroup<T>(a: seq<T>, x: T, b: seq<T>, c: seq<T>)
    ensures a + ([x] + b + c) == (a + [x]) + (b + c)
    ensures |[x] + b + c| > |b + c|
  {
  }

  method CollectPairs(sa: Arena, da: Arena, snode: Id, dnode: Id, ghost st: Tree, ghost dt: Tree) returns (pairs: seq<(Id, Id)>)
    requires Wf(sa) && Wf(da) && Holds(sa, st) && Holds(da, dt) && st.id == snode && dt.id == dnode
    ensures pairs == Zip(st, dt)
  {
    pairs := [];
    var stack := [(snode, dnode)];
    ghost var todo := [(st, dt)];
    assert ZipAll(todo[..0]) == [] && ZipAll(todo) == Zip(st, dt);
    while stack != []
      invariant PairsOnStack(sa, da, stack, todo)
      invariant Zip(st, dt) == pairs + ZipAll(todo)
      decreases |ZipAll(todo)|
    {
      var top := |stack| - 1;
      ghost var x, y, rest := todo[top].0, todo[top].1, todo[..top];
      ghost var next := rest + KidPairs(x, y, Min(|x.kids|, |y.kids|));
      PopPair(pairs, x, y, rest, todo, next);
      StackPaired(sa, da, stack[..top], rest, x, y);
      var children := PairChildren(sa, da, stack[top].0, stack[top].1, x, y);
      pairs := pairs + [stack[top]];
      stack := stack[..top] + children;
      todo := next;
    }
  }

  // ------------------------------------------------------------------
  // Child paths
  // ------------------------------------------------------------------

  /** The node that a path of child positions leads to. */
  function At(t: Tree, path: seq<nat>): Option<Tree>
    decreases |path|
  {
    if path == [] then Some(t)
    else if path[0] < |t.kids| then At(t.kids[path[0]], path[1..])
    else None
  }

  lemma {:induction false} HeldAt(a: Arena, t: Tree, path: seq<nat>)
    requires Holds(a, t) && At(t, path).Some?
    ensures Holds(a, At(t, path).value)
    decreases |path|
  {
    if path != [] { HeldAt(a, t.kids[path[0]], path[1..]); }
  }

  /** The last step of a path. */
  lemma {:induction false} AtParent(t: Tree, path: seq<nat>)
    requires path != [] && At(t, path).Some?
    ensures var up, last := At(t, path[..|path| - 1]), path[|path| - 1];
      up.Some? && last < |up.value.kids| && At(t, path).value == up.value.kids[last]
    decreases |path|
  {
    if |path| > 1 {
      AtParent(t.kids[path[0]], path[1..]);
      assert path[1..][..|path| - 2] == path[..|path| - 1][1..];
    }
  }

  /** In trees whose roots have no parent, a node has one path. */
  lemma {:induction false} OnePath(a: Arena, s: Tree, t: Tree, p: seq<nat>, q: seq<nat>)
    requires Wf(a) && Holds(a, s) && Holds(a, t) && s.id !in a.parent && t.id !in a.parent
    requires At(s, p).Some? && At(t, q).Some? && At(s, p).value.id == At(t, q).value.id
    ensures s.id == t.id && p == q
    decreases |p|
  {
    if p != [] { ParentAt(a, s, p); }
    if q != [] { ParentAt(a, t, q); }
    if p != [] && q != [] {
      OnePath(a, s, t, p[..|p| - 1], q[..|q| - 1]);
      assert p[|p| - 1] == q[|q| - 1];
      assert p == p[..|p| - 1] + [p[|p| - 1]] && q == q[..|q| - 1] + [q[|q| - 1]];
    }
  }

  lemma {:induction false} ParentAt(a: Arena, t: Tree, p: seq<nat>)
    requires Wf(a) && Holds(a, t) && p != [] && At(t, p).Some?
    ensures At(t, p[..|p| - 1]).Some?
    ensures var up, last, n := At(t, p[..|p| - 1]).value.id, p[|p| - 1], At(t, p).value.id;
      Parent(a, n) == Some(up) && up in a.kids && last < |a.kids[up]| && a.kids[up][last] == n
    ensures IndexOf(Kids(a, At(t, p[..|p| - 1]).value.id), At(t, p).value.id) == p[|p| - 1]
  {
    AtParent(t, p);
    HeldAt(a, t, p[..|p| - 1]);
    IndexOfAt(a.kids[At(t, p[..|p| - 1]).value.id], p[|p| - 1]);
  }

  ghost predicate SameShape(s: Tree, d: Tree) {
    |s.kids| == |d.kids| && forall i :: 0 <= i < |s.kids| ==> SameShape(s.kids[i], d.kids[i])
  }

  ghost predicate SamePath(s: Tree, d: Tree, x: Id, y: Id, path: seq<nat>) {
    At(s, path).Some? && At(d, path).Some? && At(s, path).value.id == x && At(d, path).value.id == y
  }

  lemma {:induction false} ZipFromMember(s: Tree, d: Tree, n: nat, p: (Id, Id))
    requires n <= |s.kids| && n <= |d.kids|
    ensures p in ZipFrom(s, d, n) <==> exists i :: 0 <= i < n && p in Zip(s.kids[i], d.kids[i])
    decreases n
  {
    if n > 0 {
      ZipFromMember(s, d, n - 1, p);
    }
  }

  /** The walk pairs exactly the nodes that sit at one child path in both trees. */
  lemma {:induction false} PairsAreSamePaths(s: Tree, d: Tree, x: Id, y: Id)
    ensures (x, y) in Zip(s, d) <==> exists path :: SamePath(s, d, x, y, path)
    decreases s
  {
    var n := Min(|s.kids|, |d.kids|);
    ZipFromMember(s, d, n, (x, y));
    if (x, y) in ZipFrom(s, d, n) {
      var i :| 0 <= i < n && (x, y) in Zip(s.kids[i], d.kids[i]);
      PairsAreSamePaths(s.kids[i], d.kids[i], x, y);
      var path :| SamePath(s.kids[i], d.kids[i], x, y, path);
      assert ([i] + path)[1..] == path;
      assert SamePath(s, d, x, y, [i] + path);
    }
    if (x, y) == (s.id, d.id) { assert SamePath(s, d, x, y, []); }
    forall path | SamePath(s, d, x, y, path) && path != [] ensures (x, y) in ZipFrom(s, d, n) {
      assert SamePath(s.kids[path[0]], d.kids[path[0]], x, y, path[1..]);
      PairsAreSamePaths(s.kids[path[0]], d.kids[path[0]], x, y);
    }
  }

  /** On trees of one shape every source node is paired. */
  lemma {:induction false} EveryNodePaired(s: Tree, d: Tree)
    requires SameShape(s, d)
    ensures Sources(Zip(s, d)) == set u | u in Preorder(s) :: u.id
    ensures Targets(Zip(s, d)) == set u | u in Preorder(d) :: u.id
    ensures |Zip(s, d)| == |Preorder(s)| == |Preorder(d)|
    decreases s, |s.kids| + 1
  {
    EveryKidPaired(s, d, |s.kids|);
    assert s.kids[..|s.kids|] == s.kids && d.kids[..|d.kids|] == d.kids;
    var z := ZipFrom(s, d, |s.kids|);
    SourcesConcat([(s.id, d.id)], z);
    assert Sources([(s.id, d.id)]) == {s.id} && Targets([(s.id, d.id)]) == {d.id} by { assert [(s.id, d.id)][..0] == []; }
  }

  function Sources(pairs: seq<(Id, Id)>): set<Id> {
    if pairs == [] then {} else Sources(pairs[..|pairs| - 1]) + {pairs[|pairs| - 1].0}
  }

  function Targets(pairs: seq<(Id, Id)>): set<Id> {
    if pairs == [] then {} else Targets(pairs[..|pairs| - 1]) + {pairs[|pairs| - 1].1}
  }

  lemma {:induction false} SourcesConcat(ps: seq<(Id, Id)>, qs: seq<(Id, Id)>)
    ensures Sources(ps + qs) == Sources(ps) + Sources(qs)
    ensures Targets(ps + qs) == Targets(ps) + Targets(qs)
    decreases |qs|
  {
    if qs == [] {
      assert ps + qs == ps;
    } else {
      var all := ps + qs;
      assert all[..|all| - 1] == ps + qs[..|qs| - 1] && all[|all| - 1] == qs[|qs| - 1];
      SourcesConcat(ps, qs[..|qs| - 1]);
    }
  }

  lemma {:induction false} SourceIndex(pairs: seq<(Id, Id)>, x: Id) returns (i: nat)
    requires x in Sources(pairs)
    ensures i < |pairs| && pairs[i].0 == x
  {
    if pairs[|pairs| - 1].0 == x {
      i := |pairs| - 1;
    } else {
      i := SourceIndex(pairs[..|pairs| - 1], x);
    }
  }

  lemma {:induction false} TargetIndex(pairs: seq<(Id, Id)>, y: Id) returns (i: nat)
    requires y in Targets(pairs)
    ensures i < |pairs| && pairs[i].1 == y
  {
    if pairs[|pairs| - 1].1 == y {
      i := |pairs| - 1;
    } else {
      i := TargetIndex(pairs[..|pairs| - 1], y);
    }
  }

  lemma {:induction false} InSources(pairs: seq<(Id, Id)>, i: nat)
    requires i < |pairs|
    ensures pairs[i].0 in Sources(pairs) && pairs[i].1 in Targets(pairs)
    decreases |pairs|
  {
    if i < |pairs| - 1 { InSources(pairs[..|pairs| - 1], i); }
  }

  lemma {:induction false} EveryKidPaired(s: Tree, d: Tree, n: nat)
    requires n <= |s.kids| && n <= |d.kids| && forall i :: 0 <= i < |s.kids| && i < |d.kids| ==> SameShape(s.kids[i], d.kids[i])
    ensures Sources(ZipFrom(s, d, n)) == set u | u in PreorderAll(s.kids[..n]) :: u.id
    ensures Targets(ZipFrom(s, d, n)) == set u | u in PreorderAll(d.kids[..n]) :: u.id
    ensures |ZipFrom(s, d, n)| == |PreorderAll(s.kids[..n])| == |PreorderAll(d.kids[..n])|
    decreases s, n
  {
    if n > 0 {
      EveryNodePaired(s.kids[n - 1], d.kids[n - 1]);
      EveryKidPaired(s, d, n - 1);
      SourcesConcat(Zip(s.kids[n - 1], d.kids[n - 1]), ZipFrom(s, d, n - 1));
      OneMore(s.kids, n);
      OneMore(d.kids, n);
    }
  }

  lemma {:induction false} OneMore(ts: seq<Tree>, n: nat)
    requires 0 < n <= |ts|
    ensures PreorderAll(ts[..n]) == PreorderAll(ts[..n - 1]) + Preorder(ts[n - 1])
  {
    assert ts[..n] == ts[..n - 1] + [ts[n - 1]];
    PreorderConcat(ts[..n - 1], [ts[n - 1]]);
    assert PreorderAll([ts[n - 1]]) == Preorder(ts[n - 1]);
  }

  // ------------------------------------------------------------------
  // Moving values along the pairs
  // ------------------------------------------------------------------

  /** What `m` becomes when every source key is renamed to its target. */
  function MovedTo<W>(pairs: seq<(Id, Id)>, m: map<Id, W>): map<Id, W> {
    if pairs == [] then map[]
    else
      var (x, y) := pairs[|pairs| - 1];
      var rest := MovedTo(pairs[..|pairs| - 1], m);
      if x in m then rest[y := m[x]] else rest
  }

  ghost predicate Injective(pairs: seq<(Id, Id)>) {
    && (forall i, j :: 0 <= i < j < |pairs| ==> pairs[i].0 != pairs[j].0)
    && (forall i, j :: 0 <= i < j < |pairs| ==> pairs[i].1 != pairs[j].1)
  }

  lemma {:induction false} MovedKeys<W>(pairs: seq<(Id, Id)>, m: map<Id, W>)
    ensures MovedTo(pairs, m).Keys <= Targets(pairs)
    decreases |pairs|
  {
    if pairs != [] {
      var front, last := pairs[..|pairs| - 1], pairs[|pairs| - 1];
      MovedKeys(front, m);
    }
  }

  lemma {:induction false} MovedAt<W>(pairs: seq<(Id, Id)>, m: map<Id, W>, x: Id, y: Id)
    requires Injective(pairs) && (x, y) in pairs
    ensures x in m <==> y in MovedTo(pairs, m)
    ensures x in m ==> MovedTo(pairs, m)[y] == m[x]
    decreases |pairs|
  {
    var front, last := pairs[..|pairs| - 1], pairs[|pairs| - 1];
    MovedKeys(front, m);
    if last == (x, y) {
      if y in Targets(front) { var i := TargetIndex(front, y); }
    } else {
      assert (x, y) in front;
      MovedAt(front, m, x, y);
      var i :| 0 <= i < |front| && front[i] == (x, y);
      assert pairs[i].1 != last.1;
    }
  }

  /** Pairs beyond which no source is left move nothing more. */
  lemma {:induction false} MovedEarly<W>(pairs: seq<(Id, Id)>, m: map<Id, W>, k: nat)
    requires Injective(pairs) && k <= |pairs| && m.Keys <= Sources(pairs[..k])
    ensures MovedTo(pairs, m) == MovedTo(pairs[..k], m) && m.Keys <= Sources(pairs)
    decreases |pairs|
  {
    if k == |pairs| {
      assert pairs[..k] == pairs;
    } else {
      var front, last := pairs[..|pairs| - 1], pairs[|pairs| - 1];
      assert front[..k] == pairs[..k];
      MovedEarly(front, m, k);
      if last.0 in m { var i := SourceIndex(pairs[..k], last.0); }
    }
  }

  lemma {:induction false} DistinctByCount(pairs: seq<(Id, Id)>)
    ensures |Sources(pairs)| <= |pairs| && |Targets(pairs)| <= |pairs|
    ensures |Sources(pairs)| == |pairs| && |Targets(pairs)| == |pairs| ==> Injective(pairs)
    decreases |pairs|
  {
    if pairs != [] {
      var front, last := pairs[..|pairs| - 1], pairs[|pairs| - 1];
      DistinctByCount(front);
      if |Sources(pairs)| == |pairs| && |Targets(pairs)| == |pairs| {
        assert last.0 !in Sources(front) && last.1 !in Targets(front);
        forall i | 0 <= i < |front| ensures pairs[i].0 != last.0 && pairs[i].1 != last.1 {
          InSources(front, i);
        }
      }
    }
  }

  lemma {:induction false} CountIds(ts: seq<Tree>)
    requires NoDup(Ids(ts))
    ensures |set u | u in ts :: u.id| == |ts|
    decreases |ts|
  {
    var ids := set u | u in ts :: u.id;
    if ts == [] {
      assert ids == {};
    } else {
      var front, last := ts[..|ts| - 1], ts[|ts| - 1];
      assert Ids(front) == Ids(ts)[..|front|];
      CountIds(front);
      var rest := set u | u in front :: u.id;
      forall u | u in front ensures u.id != last.id {
        var i :| 0 <= i < |front| && front[i] == u;
        assert Ids(ts)[i] != Ids(ts)[|ts| - 1];
      }
      assert forall u :: u in ts <==> u in front || u == last;
      assert ids == rest + {last.id};
    }
  }

  /** The walk over a subtree and its same-shaped clone pairs each node once. */
  lemma {:induction false} ZipInjective(sa: Arena, da: Arena, s: Tree, d: Tree)
    requires Wf(sa) && Wf(da) && Holds(sa, s) && Holds(da, d) && SameShape(s, d)
    ensures Injective(Zip(s, d))
  {
    EveryNodePaired(s, d);
    DistinctNodes(sa, s);
    DistinctNodes(da, d);
    CountIds(Preorder(s));
    CountIds(Preorder(d));
    DistinctByCount(Zip(s, d));
  }

  // ------------------------------------------------------------------
  // Equal content
  // ------------------------------------------------------------------

  /** The same markup or text at the same child path, or nothing there in either tree. */
  ghost predicate AlikeAt(t: Tree, c: Tree, path: seq<nat>) {
    match At(t, path)
    case None => At(c, path).None?
    case Some(x) => At(c, path).Some? && At(c, path).value.kind == x.kind
  }

  /** Trees are equal up to node numbers exactly if they are alike at every path. */
  lemma {:induction false} EqualAtEveryPath(t: Tree, c: Tree)
    ensures Erase(t) == Erase(c) <==> forall path :: AlikeAt(t, c, path)
  {
    if Erase(t) == Erase(c) {
      forall path ensures AlikeAt(t, c, path) { EqualAlikeAt(t, c, path); }
    }
    if forall path :: AlikeAt(t, c, path) {
      AlikeEqual(t, c);
    }
  }

  lemma {:induction false} EqualAlikeAt(t: Tree, c: Tree, path: seq<nat>)
    requires Erase(t) == Erase(c)
    ensures AlikeAt(t, c, path)
    decreases |path|
  {
    assert |EraseAll(t.kids)| == |EraseAll(c.kids)|;
    if path != [] && path[0] < |t.kids| {
      assert EraseAll(t.kids)[path[0]] == EraseAll(c.kids)[path[0]];
      EqualAlikeAt(t.kids[path[0]], c.kids[path[0]], path[1..]);
    }
  }

  lemma {:induction false} KidThere(t: Tree, i: nat)
    ensures At(t, [i]).Some? <==> i < |t.kids|
  {
    var path: seq<nat> := [i];
    assert path[1..] == [];
  }

  lemma {:induction false} AlikeEqual(t: Tree, c: Tree)
    requires forall path :: AlikeAt(t, c, path)
    ensures Erase(t) == Erase(c)
    decreases t
  {
    assert AlikeAt(t, c, []);
    assert AlikeAt(t, c, [|c.kids|]);
    KidThere(t, |c.kids|);
    KidThere(c, |c.kids|);
    assert AlikeAt(t, c, [|t.kids|]);
    KidThere(t, |t.kids|);
    KidThere(c, |t.kids|);
    forall i | 0 <= i < |t.kids| ensures Erase(t.kids[i]) == Erase(c.kids[i]) {
      forall path ensures AlikeAt(t.kids[i], c.kids[i], path) {
        assert AlikeAt(t, c, [i] + path);
        assert ([i] + path)[1..] == path;
      }
      AlikeEqual(t.kids[i], c.kids[i]);
    }
    assert EraseAll(t.kids) == EraseAll(c.kids);
  }
}
