/** The order of a walk, told by child paths: pre-order is document order. */
module WalkOrder {
  import opened Prelude
  import opened Arena
  import opened LockStep
  import opened DescendantWalk

  /** Document order: an ancestor first, then the earlier child. */
  ghost predicate Precedes(p: seq<nat>, q: seq<nat>)
    decreases |p|
  {
    q != [] && (p == [] || p[0] < q[0] || (p[0] == q[0] && Precedes(p[1..], q[1..])))
  }

  /** What a caller of the iterator means by a filter. */
  ghost predicate Wanted(k: Kind, f: DescFilter) {
    && !k.Root? && !k.Text? && !k.CData?
    && (!f.All? ==> k.Element?)
    && (f.Named? ==>
      && k.name.local == f.local
      && (f.ns == None ==> k.name.ns == None)
      && (f.ns != None ==> k.name.ns != None && k.name.ns.value == f.ns.value))
  }

  ghost predicate Leads(t: Tree, path: seq<nat>, id: Id, f: DescFilter) {
    At(t, path).Some? && At(t, path).value.id == id && Wanted(At(t, path).value.kind, f)
  }

  lemma {:induction false} WantedMatches(k: Kind, f: DescFilter)
    ensures Matches(k, f) <==> Wanted(k, f)
  {
  }

  // ------------------------------------------------------------------
  // Positions and paths
  // ------------------------------------------------------------------

  /** Some path leads to every node of the pre-order. */
  lemma {:induction false} PathTo(t: Tree, i: nat) returns (p: seq<nat>)
    requires i < |Preorder(t)|
    ensures At(t, p) == Some(Preorder(t)[i]) && (p == [] <==> i == 0)
    decreases t, 0
  {
    if i == 0 {
      p := [];
    } else {
      var k, below := PathInto(t.kids, i - 1);
      p := [k] + below;
      assert p[1..] == below;
    }
  }

  lemma {:induction false} PathInto(ts: seq<Tree>, i: nat) returns (k: nat, p: seq<nat>)
    requires i < |PreorderAll(ts)|
    ensures k < |ts| && At(ts[k], p) == Some(PreorderAll(ts)[i])
    decreases ts, 1
  {
    var n := |Preorder(ts[0])|;
    if i < n {
      k := 0;
      p := PathTo(ts[0], i);
    } else {
      k, p := PathInto(ts[1..], i - n);
      k := k + 1;
    }
  }

  /** Of two nodes the one that comes first in pre-order has the path that precedes. */
  lemma {:induction false} PathsInOrder(t: Tree, i: nat, j: nat) returns (p: seq<nat>, q: seq<nat>)
    requires i < j < |Preorder(t)|
    ensures At(t, p) == Some(Preorder(t)[i]) && At(t, q) == Some(Preorder(t)[j]) && Precedes(p, q)
    decreases t, 0
  {
    if i == 0 {
      p := [];
      q := PathTo(t, j);
    } else {
      var k, below, l, under := PathsAcross(t.kids, i - 1, j - 1);
      p, q := [k] + below, [l] + under;
      assert p[1..] == below && q[1..] == under;
    }
  }

  lemma {:induction false} PathsAcross(ts: seq<Tree>, i: nat, j: nat) returns (k: nat, p: seq<nat>, l: nat, q: seq<nat>)
    requires i < j < |PreorderAll(ts)|
    ensures k < |ts| && l < |ts| && At(ts[k], p) == Some(PreorderAll(ts)[i]) && At(ts[l], q) == Some(PreorderAll(ts)[j])
    ensures k < l || (k == l && Precedes(p, q))
    decreases ts, 1
  {
    var n := |Preorder(ts[0])|;
    if j < n {
      k, l := 0, 0;
      p, q := PathsInOrder(ts[0], i, j);
    } else if i < n {
      k := 0;
      p := PathTo(ts[0], i);
      l, q := PathInto(ts[1..], j - n);
      l := l + 1;
    } else {
      k, p, l, q := PathsAcross(ts[1..], i - n, j - n);
      k, l := k + 1, l + 1;
    }
  }

  /** Every node that a path leads to is in the pre-order. */
  lemma {:induction false} PathIsWalked(t: Tree, p: seq<nat>)
    requires At(t, p).Some?
    ensures At(t, p).value in Preorder(t)
    decreases |p|
  {
    if p != [] {
      PathIsWalked(t.kids[p[0]], p[1..]);
      KidIsWalked(t.kids, p[0], At(t, p).value);
    }
  }

  lemma {:induction false} KidIsWalked(ts: seq<Tree>, k: nat, s: Tree)
    requires k < |ts| && s in Preorder(ts[k])
    ensures s in PreorderAll(ts)
    decreases k
  {
    if k > 0 { KidIsWalked(ts[1..], k - 1, s); }
  }

  // ------------------------------------------------------------------
  // The filtered walk
  // ------------------------------------------------------------------

  lemma {:induction false} MatchAt(ts: seq<Tree>, f: DescFilter, m: nat) returns (i: nat)
    requires m < |Matching(ts, f)|
    ensures i < |ts| && Matching(ts, f)[m] == ts[i].id && Matches(ts[i].kind, f)
  {
    if Matches(ts[0].kind, f) {
      if m == 0 {
        i := 0;
      } else {
        i := MatchAt(ts[1..], f, m - 1);
        i := i + 1;
      }
    } else {
      i := MatchAt(ts[1..], f, m);
      i := i + 1;
    }
  }

  lemma {:induction false} MatchesInOrder(ts: seq<Tree>, f: DescFilter, m: nat, n: nat) returns (i: nat, j: nat)
    requires m < n < |Matching(ts, f)|
    ensures i < j < |ts| && Matching(ts, f)[m] == ts[i].id && Matching(ts, f)[n] == ts[j].id
  {
    if Matches(ts[0].kind, f) {
      if m == 0 {
        i := 0;
        j := MatchAt(ts[1..], f, n - 1);
        j := j + 1;
      } else {
        i, j := MatchesInOrder(ts[1..], f, m - 1, n - 1);
        i, j := i + 1, j + 1;
      }
    } else {
      i, j := MatchesInOrder(ts[1..], f, m, n);
      i, j := i + 1, j + 1;
    }
  }

  lemma {:induction false} MatchedIn(ts: seq<Tree>, f: DescFilter, s: Tree)
    requires s in ts && Matches(s.kind, f)
    ensures s.id in Matching(ts, f)
  {
    if s != ts[0] { MatchedIn(ts[1..], f, s); }
  }

  /** A node is handed out exactly if it is wanted. */
  lemma {:induction false} HandedOutIffWanted(t: Tree, f: DescFilter, id: Id)
    ensures id in Matching(Preorder(t), f) <==> exists path :: Leads(t, path, id, f)
  {
    var out := Matching(Preorder(t), f);
    if id in out {
      var m :| 0 <= m < |out| && out[m] == id;
      var i := MatchAt(Preorder(t), f, m);
      var p := PathTo(t, i);
      WantedMatches(Preorder(t)[i].kind, f);
      assert Leads(t, p, id, f);
    }
    if path :| Leads(t, path, id, f) {
      PathIsWalked(t, path);
      WantedMatches(At(t, path).value.kind, f);
      MatchedIn(Preorder(t), f, At(t, path).value);
    }
  }

  lemma {:induction false} ProperlyBelow(a: Arena, t: Tree, q: seq<nat>)
    requires Wf(a) && Holds(a, t) && q != [] && At(t, q).Some?
    ensures At(t, q).value.id != t.id
  {
    PathIsWalked(t.kids[q[0]], q[1..]);
    KidIsWalked(t.kids, q[0], At(t, q).value);
    DistinctNodes(a, t);
    var below := PreorderAll(t.kids);
    var x :| 0 <= x < |below| && below[x] == At(t, q).value;
    assert Preorder(t)[1 + x] == below[x] && Ids(Preorder(t))[1 + x] == below[x].id && Ids(Preorder(t))[0] == t.id;
  }

  /** One path leads to a node. */
  lemma {:induction false} PathIsUnique(a: Arena, t: Tree, p: seq<nat>, q: seq<nat>)
    requires Wf(a) && Holds(a, t) && At(t, p).Some? && At(t, q).Some? && At(t, p).value.id == At(t, q).value.id
    ensures p == q
    decreases |p|
  {
    if p == [] || q == [] {
      if q != [] { ProperlyBelow(a, t, q); }
      if p != [] { ProperlyBelow(a, t, p); }
    } else {
      ParentAt(a, t, p);
      ParentAt(a, t, q);
      PathIsUnique(a, t, p[..|p| - 1], q[..|q| - 1]);
      assert p == p[..|p| - 1] + [p[|p| - 1]] && q == q[..|q| - 1] + [q[|q| - 1]];
    }
  }

  lemma {:induction false} HandedOutInOrder(a: Arena, t: Tree, f: DescFilter, m: nat, n: nat, p: seq<nat>, q: seq<nat>)
    requires Wf(a) && Holds(a, t) && m < n < |Matching(Preorder(t), f)|
    requires At(t, p).Some? && At(t, p).value.id == Matching(Preorder(t), f)[m]
    requires At(t, q).Some? && At(t, q).value.id == Matching(Preorder(t), f)[n]
    ensures Precedes(p, q)
  {
    var i, j := MatchesInOrder(Preorder(t), f, m, n);
    var p', q' := PathsInOrder(t, i, j);
    PathIsUnique(a, t, p, p');
    PathIsUnique(a, t, q, q');
  }

  /** `out` lists the nodes below `t` that the filter wants, in document order. */
  ghost predicate WalkOf(t: Tree, f: DescFilter, out: seq<Id>) {
    && (forall id :: id in out <==> exists path :: Leads(t, path, id, f))
    && (forall m, n, p, q :: 0 <= m < n < |out| && Leads(t, p, out[m], f) && Leads(t, q, out[n], f) ==> Precedes(p, q))
  }

  lemma {:induction false} WalkInDocumentOrder(a: Arena, t: Tree, f: DescFilter)
    requires Wf(a) && Holds(a, t)
    ensures WalkOf(t, f, Matching(Preorder(t), f))
  {
    var out := Matching(Preorder(t), f);
    forall id ensures id in out <==> exists path :: Leads(t, path, id, f) {
      HandedOutIffWanted(t, f, id);
    }
    forall m, n, p, q | 0 <= m < n < |out| && Leads(t, p, out[m], f) && Leads(t, q, out[n], f) ensures Precedes(p, q) {
      HandedOutInOrder(a, t, f, m, n, p, q);
    }
  }
}
