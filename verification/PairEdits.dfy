/** The edits of sibling lists, seen on lists of pairs. */
module PairEdits {
  import opened Prelude
  import opened Arena
  import opened Dom
  import opened Siblings
  import opened SiblingEdits

  predicate Content(a: Arena, n: Id) {
    n in a.kind && !a.kind[n].Textual()
  }

  /** The pair of the content child at position `i`. */
  lemma {:induction false} PairAt(kind: Kinds, ks: seq<Id>, i: nat) returns (k: nat)
    requires i < |ks| && !IsText(kind, ks[i])
    ensures k < |Pairs(kind, ks)| && Pairs(kind, ks)[k] == Pair(ks[i], Run(kind, ks[i + 1..]))
    ensures i == |Run(kind, ks)| + |Flat(Pairs(kind, ks)[..k])|
    decreases ks
  {
    var rest := Pairs(kind, ks[1..]);
    if IsText(kind, ks[0]) {
      k := PairAt(kind, ks[1..], i - 1);
      assert ks[1..][i..] == ks[i + 1..];
    } else if i == 0 {
      k := 0;
    } else {
      k := PairAt(kind, ks[1..], i - 1);
      assert ks[1..][i..] == ks[i + 1..];
      var ps := Pairs(kind, ks);
      assert ps == [ps[0]] + rest;
      assert ps[..k + 1] == [ps[0]] + rest[..k];
      assert Flat([ps[0]] + rest[..k]) == [ps[0].node] + ps[0].tail + Flat(rest[..k]) by { assert ([ps[0]] + rest[..k])[1..] == rest[..k]; }
      k := k + 1;
    }
  }

  /** Where the `k`-th pair sits, and that its tail is the run of text after it. */
  lemma {:induction false} TailAfter(kind: Kinds, ks: seq<Id>, k: nat)
    requires k < |Pairs(kind, ks)|
    ensures var ps := Pairs(kind, ks); var i := |Run(kind, ks)| + |Flat(ps[..k])|;
      i < |ks| && ks[i] == ps[k].node && !IsText(kind, ks[i]) && ps[k].tail == Run(kind, ks[i + 1..])
  {
    var ps := Pairs(kind, ks);
    Rebuilt(kind, ks);
    PairPlace(Run(kind, ks), ps, k);
    assert Proper(kind, ps[k + 1..]);
    StartsWithNode(kind, ps[k + 1..]);
    RunOf(kind, ps[k].tail, Flat(ps[k + 1..]));
  }

  lemma {:induction false} StartsWithNode(kind: Kinds, ps: seq<Pair>)
    requires Proper(kind, ps)
    ensures Flat(ps) == [] || !IsText(kind, Flat(ps)[0])
  {
  }

  /** Each pair holds a child and that child's tail. */
  lemma {:induction false} PairsAreTails(a: Arena, p: Id, k: nat)
    requires Wf(a) && k < |Children(a, p)|
    ensures var n := Children(a, p)[k].node;
      Content(a, n) && Parent(a, n) == Some(p) && Children(a, p)[k].tail == Tail(a, n)
  {
    TailAfter(a.kind, Kids(a, p), k);
    PairOf(a, p, |Lead(a, p)| + |Flat(Children(a, p)[..k])|, Children(a, p)[k]);
  }

  lemma {:induction false} PairOf(a: Arena, p: Id, i: nat, pr: Pair)
    requires Wf(a) && i < |Kids(a, p)| && Kids(a, p)[i] == pr.node && !IsText(a.kind, pr.node)
    requires pr.tail == Run(a.kind, Kids(a, p)[i + 1..])
    ensures Content(a, pr.node) && Parent(a, pr.node) == Some(p) && pr.tail == Tail(a, pr.node)
  {
    TailAtPosition(a, p, i);
  }

  lemma {:induction false} PositionOf(a: Arena, p: Id, k: nat, i: nat)
    requires Wf(a) && p in a.kids && k < |Children(a, p)| && i == |Lead(a, p)| + |Flat(Children(a, p)[..k])|
    ensures IndexOf(a.kids[p], Children(a, p)[k].node) == i
  {
    TailAfter(a.kind, a.kids[p], k);
    IndexOfAt(a.kids[p], i);
  }

  lemma {:induction false} TailAtPosition(a: Arena, p: Id, i: nat)
    requires Wf(a) && i < |Kids(a, p)|
    ensures Kids(a, p)[i] in a.kind && Parent(a, Kids(a, p)[i]) == Some(p)
    ensures Tail(a, Kids(a, p)[i]) == Run(a.kind, Kids(a, p)[i + 1..])
  {
    IndexOfAt(a.kids[p], i);
    AfterAt(a, p, i, a.kids[p][i]);
  }

  lemma {:induction false} AfterAt(a: Arena, p: Id, i: nat, n: Id)
    requires p in a.kids && Parent(a, n) == Some(p) && i == IndexOf(a.kids[p], n) && i < |a.kids[p]|
    ensures Following(a, n) == a.kids[p][i + 1..]
  {
  }

  /** Conversely every content child is in a pair with its tail. */
  lemma {:induction false} TailInPair(a: Arena, n: Id) returns (k: nat)
    requires Wf(a) && Content(a, n) && n in a.parent
    ensures k < |Children(a, a.parent[n])| && Children(a, a.parent[n])[k] == Pair(n, Tail(a, n))
    ensures IndexOf(a.kids[a.parent[n]], n) == |Lead(a, a.parent[n])| + |Flat(Children(a, a.parent[n])[..k])|
  {
    k := PairAt(a.kind, a.kids[a.parent[n]], PlaceIn(a, n));
  }

  function PlaceIn(a: Arena, n: Id): (i: nat)
    requires Wf(a) && n in a.parent
    ensures i == IndexOf(a.kids[a.parent[n]], n) && i < |a.kids[a.parent[n]]| && a.kids[a.parent[n]][i] == n
    ensures Following(a, n) == a.kids[a.parent[n]][i + 1..]
  {
    IndexOf(a.kids[a.parent[n]], n)
  }

  lemma {:induction false} DistinctChildren(a: Arena, p: Id)
    requires Wf(a)
    ensures NoDup(Nodes(Children(a, p)))
  {
    assert p in a.kids ==> NoDup(a.kids[p]);
    DistinctNodes(a.kind, Kids(a, p));
  }

  // ------------------------------------------------------------------
  // Taking pairs out
  // ------------------------------------------------------------------

  lemma {:induction false} CutFlat(l: seq<Id>, ps: seq<Pair>, k: nat, ks: seq<Id>, i: nat, m: nat)
    requires k < |ps| && ks == l + Flat(ps) && i == |l| + |Flat(ps[..k])| && m == 1 + |ps[k].tail|
    ensures i + m <= |ks| && ks[..i] + ks[i + m..] == l + Flat(ps[..k] + ps[k + 1..])
  {
    PairPlace(l, ps, k);
    FlatConcat(ps[..k], ps[k + 1..]);
    Concatenated(l, Flat(ps[..k]), Flat(ps[k + 1..]), ks[..i], ks[i + m..]);
  }

  lemma {:induction false} Concatenated<T>(l: seq<T>, x: seq<T>, y: seq<T>, front: seq<T>, rest: seq<T>)
    requires front == l + x && rest == y
    ensures front + rest == l + (x + y)
  {
  }

  lemma {:induction false} ProperWithout(kind: Kinds, ps: seq<Pair>, k: nat)
    requires Proper(kind, ps) && k < |ps|
    ensures Proper(kind, ps[..k] + ps[k + 1..])
  {
    var r := ps[..k] + ps[k + 1..];
    forall i | 0 <= i < |r| ensures !IsText(kind, r[i].node) && AllText(kind, r[i].tail) {
      assert r[i] == ps[if i < k then i else i + 1];
    }
  }

  lemma {:induction false} DistinctNodes(kind: Kinds, ks: seq<Id>)
    requires NoDup(ks)
    ensures NoDup(Nodes(Pairs(kind, ks)))
  {
    Rebuilt(kind, ks);
    assert Flat(Pairs(kind, ks)) == ks[|Run(kind, ks)|..];
    DistinctPairs(Pairs(kind, ks));
  }

  /** Cutting out the `k`-th pair, which takes the `m` places from `i` on. */
  lemma {:induction false} CutPair(kind: Kinds, ks: seq<Id>, k: nat, i: nat, m: nat)
    requires NoDup(ks) && k < |Pairs(kind, ks)|
    requires i == |Run(kind, ks)| + |Flat(Pairs(kind, ks)[..k])| && m == 1 + |Pairs(kind, ks)[k].tail| && i + m <= |ks|
    ensures Run(kind, ks[..i] + ks[i + m..]) == Run(kind, ks)
    ensures Pairs(kind, ks[..i] + ks[i + m..]) == Keep(Pairs(kind, ks), {Pairs(kind, ks)[k].node})
  {
    Rebuilt(kind, ks);
    DistinctNodes(kind, ks);
    CutFlat(Run(kind, ks), Pairs(kind, ks), k, ks, i, m);
    CutParts(kind, Run(kind, ks), Pairs(kind, ks), k, ks[..i] + ks[i + m..]);
  }

  lemma {:induction false} CutParts(kind: Kinds, l: seq<Id>, ps: seq<Pair>, k: nat, left: seq<Id>)
    requires AllText(kind, l) && Proper(kind, ps) && NoDup(Nodes(ps)) && k < |ps| && left == l + Flat(ps[..k] + ps[k + 1..])
    ensures Run(kind, left) == l && Pairs(kind, left) == Keep(ps, {ps[k].node})
  {
    ProperWithout(kind, ps, k);
    Taken(kind, l, ps[..k] + ps[k + 1..]);
    KeepOne(ps, k);
  }

  /** `a` is `a0`, perhaps with new nodes, without the pairs of `gone`. */
  ghost predicate Dropped(a0: Arena, a: Arena, gone: set<Id>) {
    && (forall x :: x in a0.kind ==> x in a.kind && a.kind[x] == a0.kind[x])
    && (forall q {:trigger Loses(a0, a, q, gone)} :: q in a0.kids ==> Loses(a0, a, q, gone))
    && (forall x :: x in a0.kind && x in a.parent ==> x in a0.parent)
  }

  /** The sibling list of `q` has lost the pairs of `gone`, and nothing else. */
  ghost predicate Loses(a0: Arena, a: Arena, q: Id, gone: set<Id>) {
    q in a.kids && Lead(a, q) == Lead(a0, q) && Children(a, q) == Keep(Children(a0, q), gone)
  }

  lemma {:induction false} ExtractedFrom(a: Arena, n: Id)
    requires Wf(a) && Content(a, n) && n in a.parent
    ensures Loses(a, Extracted(a, n), a.parent[n], {n})
  {
    var k := TailInPair(a, n);
    TailFits(a, n);
    PairExtracted(a, n, a.parent[n], k, IndexOf(a.kids[a.parent[n]], n), 1 + |Tail(a, n)|);
  }

  /** `n` is the node of the `k`-th pair of `q`, which takes the `m` places from `i` on. */
  lemma {:induction false} PairExtracted(a: Arena, n: Id, q: Id, k: nat, i: nat, m: nat)
    requires Wf(a) && Parent(a, n) == Some(q) && k < |Children(a, q)| && Children(a, q)[k] == Pair(n, Tail(a, n))
    requires i == IndexOf(a.kids[q], n) == |Lead(a, q)| + |Flat(Children(a, q)[..k])| && m == 1 + |Tail(a, n)| && i + m <= |a.kids[q]|
    ensures Loses(a, Extracted(a, n), q, {n})
  {
    CutPair(a.kind, a.kids[q], k, i, m);
    ExtractedKids(a, n, q, i, m);
  }

  lemma {:induction false} ExtractedKids(a: Arena, n: Id, q: Id, i: nat, m: nat)
    requires Wf(a) && Parent(a, n) == Some(q) && i == IndexOf(a.kids[q], n) && m == 1 + |Tail(a, n)| && i + m <= |a.kids[q]|
    ensures q in Extracted(a, n).kids && Extracted(a, n).kids[q] == a.kids[q][..i] + a.kids[q][i + m..]
    ensures Extracted(a, n).kind == a.kind
  {
    ExtractedIs(a, n, q, i, m);
    CutKids(a, q, i, m);
  }

  lemma {:induction false} ExtractedIs(a: Arena, n: Id, q: Id, i: nat, m: nat)
    requires Wf(a) && Parent(a, n) == Some(q) && i == IndexOf(a.kids[q], n) && m == 1 + |Tail(a, n)| && i + m <= |a.kids[q]|
    ensures Extracted(a, n) == Cut(a, q, i, m)
  {
  }

  lemma {:induction false} CutKids(a: Arena, q: Id, i: nat, m: nat)
    requires q in a.kids && i + m <= |a.kids[q]|
    ensures q in Cut(a, q, i, m).kids && Cut(a, q, i, m).kids[q] == a.kids[q][..i] + a.kids[q][i + m..]
    ensures Cut(a, q, i, m).kind == a.kind
  {
  }

  lemma {:induction false} ExtractedAt(a: Arena, n: Id, q: Id)
    requires Wf(a) && Content(a, n) && q in a.kids
    ensures Loses(a, Extracted(a, n), q, {n})
  {
    if Parent(a, n) == Some(q) {
      ExtractedFrom(a, n);
    } else {
      NotAmong(a, n, q);
      assert Kids(Extracted(a, n), q) == Kids(a, q);
    }
  }

  lemma {:induction false} NotAmong(a: Arena, n: Id, q: Id)
    requires Wf(a) && Parent(a, n) != Some(q)
    ensures Keep(Children(a, q), {n}) == Children(a, q)
  {
    var ps := Children(a, q);
    forall k | 0 <= k < |ps| ensures ps[k].node !in {n} { PairsAreTails(a, q, k); }
    KeepAll(ps, {n});
  }

  lemma {:induction false} ExtractedDrops(a: Arena, n: Id)
    requires Wf(a) && Content(a, n)
    ensures Dropped(a, Extracted(a, n), {n})
  {
    var b := Extracted(a, n);
    forall q | q in a.kids ensures Loses(a, b, q, {n}) { ExtractedAt(a, n, q); }
    forall x | x in b.parent ensures x in a.parent { ExtractedParents(a, n, x); }
  }

  lemma {:induction false} ExtractedParents(a: Arena, n: Id, x: Id)
    requires Wf(a)
    ensures Extracted(a, n).kind == a.kind
    ensures x in Extracted(a, n).parent <==> x in a.parent && x != n && x !in Tail(a, n)
  {
    if n in a.parent {
      TailFits(a, n);
      CutParents(a, n, a.parent[n], IndexOf(a.kids[a.parent[n]], n), Tail(a, n), x);
    } else {
      assert Following(a, n) == [];
    }
  }

  lemma {:induction false} CutParents(a: Arena, n: Id, p: Id, i: nat, tail: seq<Id>, x: Id)
    requires p in a.kids && i + 1 + |tail| <= |a.kids[p]| && a.kids[p][i] == n && tail == a.kids[p][i + 1..i + 1 + |tail|]
    ensures x in Cut(a, p, i, 1 + |tail|).parent <==> x in a.parent && x != n && x !in tail
  {
    assert a.kids[p][i..i + (1 + |tail|)] == [n] + tail;
    UnparentOther(a.parent, [n] + tail, x);
  }

  lemma {:induction false} DroppedTwice(a0: Arena, a: Arena, b: Arena, gone: set<Id>, more: set<Id>)
    requires Wf(a0) && Dropped(a0, a, gone) && Dropped(a, b, more)
    ensures Dropped(a0, b, gone + more)
  {
    forall q | q in a0.kids ensures Loses(a0, b, q, gone + more) {
      assert Loses(a0, a, q, gone) && Loses(a, b, q, more);
      KeepTwice(Children(a0, q), gone, more);
    }
  }

  lemma {:induction false} DroppedNone(a: Arena)
    ensures Dropped(a, a, {})
  {
    forall q | q in a.kids ensures Loses(a, a, q, {}) { KeepAll(Children(a, q), {}); }
  }

  /** A child that has not been taken out keeps its tail. */
  lemma {:induction false} DroppedTail(a0: Arena, a: Arena, gone: set<Id>, n: Id)
    requires Wf(a0) && Wf(a) && Dropped(a0, a, gone) && Content(a0, n) && n !in gone
    ensures Tail(a, n) == Tail(a0, n)
    ensures Parent(a, n) == Parent(a0, n)
  {
    if n in a0.parent {
      var p := a0.parent[n];
      assert Loses(a0, a, p, gone);
      var k := TailInPair(a0, n);
      KeepMember(Children(a0, p), gone, Pair(n, Tail(a0, n)));
      var j :| 0 <= j < |Children(a, p)| && Children(a, p)[j] == Pair(n, Tail(a0, n));
      PairsAreTails(a, p, j);
    } else {
      assert Following(a, n) == [] == Following(a0, n);
    }
  }

  // ------------------------------------------------------------------
  // Putting a pair in
  // ------------------------------------------------------------------

  /** Putting a pair in at position `i`, between `xs` and `ys`. */
  lemma {:induction false} SplicePair(kind: Kinds, ks: seq<Id>, xs: seq<Pair>, pr: Pair, ys: seq<Pair>, i: nat, now: seq<Id>)
    requires Pairs(kind, ks) == xs + ys && Proper(kind, [pr])
    requires i == |Run(kind, ks)| + |Flat(xs)| && i <= |ks| && now == ks[..i] + ([pr.node] + pr.tail) + ks[i..]
    ensures Run(kind, now) == Run(kind, ks) && Pairs(kind, now) == xs + [pr] + ys
  {
    var l := Run(kind, ks);
    Rebuilt(kind, ks);
    SpliceFlat(l, xs, pr, ys, ks, i);
    ProperParts(kind, xs, pr, ys);
    Taken(kind, l, xs + [pr] + ys);
  }

  lemma {:induction false} SpliceFlat(l: seq<Id>, xs: seq<Pair>, pr: Pair, ys: seq<Pair>, ks: seq<Id>, i: nat)
    requires ks == l + Flat(xs + ys) && i == |l| + |Flat(xs)| && i <= |ks|
    ensures ks[..i] + ([pr.node] + pr.tail) + ks[i..] == l + Flat(xs + [pr] + ys)
  {
    FlatConcat(xs, ys);
    FlatMiddle(xs, pr, ys);
    Regroup(l, Flat(xs), [pr.node] + pr.tail, Flat(ys));
  }

  lemma {:induction false} Regroup(l: seq<Id>, x: seq<Id>, s: seq<Id>, y: seq<Id>)
    ensures var ks := l + (x + y); var i := |l| + |x|; ks[..i] + s + ks[i..] == l + (x + (s + y))
  {
    var ks := l + (x + y);
    var i := |l| + |x|;
    assert ks[..i] == l + x && ks[i..] == y;
    assert (l + x) + s + y == l + (x + (s + y));
  }

  lemma {:induction false} ProperParts(kind: Kinds, xs: seq<Pair>, pr: Pair, ys: seq<Pair>)
    requires Proper(kind, xs + ys) && Proper(kind, [pr])
    ensures Proper(kind, xs + [pr] + ys)
  {
    var all, r := xs + ys, xs + [pr] + ys;
    assert [pr][0] == pr;
    forall i | 0 <= i < |r| ensures !IsText(kind, r[i].node) && AllText(kind, r[i].tail) {
      assert r[i] == if i < |xs| then all[i] else if i == |xs| then pr else all[i - 1];
    }
  }

  /** The position at which a pair is put in before the child `reference`, or last. */
  lemma {:induction false} PlaceOf(a: Arena, p: Id, xs: seq<Pair>, ys: seq<Pair>, reference: Option<Id>)
    requires Wf(a) && p in a.kids && Children(a, p) == xs + ys
    requires reference == if ys == [] then None else Some(ys[0].node)
    ensures Place(a, p, reference) == |Lead(a, p)| + |Flat(xs)|
    ensures reference.Some? ==> reference.value in a.kids[p]
  {
    var ks, l := a.kids[p], Lead(a, p);
    Rebuilt(a.kind, ks);
    FlatConcat(xs, ys);
    var i := |l| + |Flat(xs)|;
    assert ks == (l + Flat(xs)) + Flat(ys);
    if ys != [] {
      assert ks[i] == Flat(ys)[0] == ys[0].node;
      IndexOfAt(ks, i);
    }
  }

  /** The children of `p` gain the pair `pr` between `xs` and `ys`; no other list changes. */
  lemma {:induction false} SplicedView(a: Arena, p: Id, xs: seq<Pair>, pr: Pair, ys: seq<Pair>, reference: Option<Id>)
    requires Wf(a) && p in a.kids && Children(a, p) == xs + ys && Proper(a.kind, [pr])
    requires reference == if ys == [] then None else Some(ys[0].node)
    ensures var b := Splice(a, p, Place(a, p, reference), [pr.node] + pr.tail);
      && b.kind == a.kind && b.kids.Keys == a.kids.Keys
      && Lead(b, p) == Lead(a, p) && Children(b, p) == xs + [pr] + ys
      && forall q :: q in a.kids && q != p ==> b.kids[q] == a.kids[q]
  {
    var i, b := Place(a, p, reference), Splice(a, p, Place(a, p, reference), [pr.node] + pr.tail);
    PlaceOf(a, p, xs, ys, reference);
    SplicedKids(a, p, i, [pr.node] + pr.tail);
    SplicePair(a.kind, a.kids[p], xs, pr, ys, i, Kids(b, p));
  }

  lemma {:induction false} SplicedKids(a: Arena, p: Id, i: nat, seg: seq<Id>)
    requires p in a.kids && i <= |a.kids[p]|
    ensures var b := Splice(a, p, i, seg);
      && b.kind == a.kind && b.kids.Keys == a.kids.Keys
      && Kids(b, p) == a.kids[p][..i] + seg + a.kids[p][i..]
      && forall q :: q in a.kids && q != p ==> b.kids[q] == a.kids[q]
  {
  }
}
