/** Sibling lists as the etree layer reads them: leading text, then the content
    children, each with the run of text that follows it (its tail). */
module Siblings {
  import opened Prelude
  import opened Arena

  type Kinds = map<Id, Kind>

  predicate IsText(kind: Kinds, n: Id) {
    n in kind && kind[n].Textual()
  }

  /** A content child and its tail run. */
  datatype Pair = Pair(node: Id, tail: seq<Id>)

  /** The text nodes a sibling list starts with. */
  function Run(kind: Kinds, ks: seq<Id>): seq<Id> {
    if ks == [] || !IsText(kind, ks[0]) then [] else [ks[0]] + Run(kind, ks[1..])
  }

  function Pairs(kind: Kinds, ks: seq<Id>): seq<Pair> {
    if ks == [] then []
    else if IsText(kind, ks[0]) then Pairs(kind, ks[1..])
    else [Pair(ks[0], Run(kind, ks[1..]))] + Pairs(kind, ks[1..])
  }

  function Flat(ps: seq<Pair>): seq<Id> {
    if ps == [] then [] else [ps[0].node] + ps[0].tail + Flat(ps[1..])
  }

  function Nodes(ps: seq<Pair>): (r: seq<Id>)
    ensures |r| == |ps|
    ensures forall i :: 0 <= i < |ps| ==> r[i] == ps[i].node
  {
    seq(|ps|, i requires 0 <= i < |ps| => ps[i].node)
  }

  ghost predicate AllText(kind: Kinds, ks: seq<Id>) {
    forall i :: 0 <= i < |ks| ==> IsText(kind, ks[i])
  }

  ghost predicate Proper(kind: Kinds, ps: seq<Pair>) {
    forall i :: 0 <= i < |ps| ==> !IsText(kind, ps[i].node) && AllText(kind, ps[i].tail)
  }

  // ------------------------------------------------------------------
  // A sibling list is its leading text and its pairs, and nothing else
  // ------------------------------------------------------------------

  lemma {:induction false} RunIsText(kind: Kinds, ks: seq<Id>)
    ensures AllText(kind, Run(kind, ks))
  {
    if ks != [] && IsText(kind, ks[0]) {
      RunIsText(kind, ks[1..]);
      var r := Run(kind, ks[1..]);
      assert forall i :: 0 < i < |Run(kind, ks)| ==> Run(kind, ks)[i] == r[i - 1];
    }
  }

  lemma {:induction false} Rebuilt(kind: Kinds, ks: seq<Id>)
    ensures ks == Run(kind, ks) + Flat(Pairs(kind, ks))
    ensures AllText(kind, Run(kind, ks)) && Proper(kind, Pairs(kind, ks))
  {
    RunIsText(kind, ks);
    if ks != [] {
      Rebuilt(kind, ks[1..]);
      RunIsText(kind, ks[1..]);
      if !IsText(kind, ks[0]) {
        var ps, rest := Pairs(kind, ks), Pairs(kind, ks[1..]);
        assert ps[0] == Pair(ks[0], Run(kind, ks[1..])) && ps[1..] == rest;
        assert forall i :: 0 < i < |ps| ==> ps[i] == rest[i - 1];
      }
    }
  }

  /** The children of a list are its nodes other than text and CDATA. */
  lemma {:induction false} ChildrenByKind(kind: Kinds, ks: seq<Id>, n: Id)
    requires n in ks && n in kind
    ensures n in Nodes(Pairs(kind, ks)) <==> !kind[n].Text? && !kind[n].CData?
  {
    var ps := Pairs(kind, ks);
    if ks[0] == n && !IsText(kind, n) {
      assert Nodes(ps)[0] == n;
    } else {
      var rest := Pairs(kind, ks[1..]);
      NodesAfter(kind, ks, n);
      if n in ks[1..] {
        ChildrenByKind(kind, ks[1..], n);
      } else {
        NotAmong(kind, ks[1..], n);
      }
    }
  }

  lemma {:induction false} NodesAfter(kind: Kinds, ks: seq<Id>, n: Id)
    requires ks != [] && (ks[0] == n ==> IsText(kind, n))
    ensures n in Nodes(Pairs(kind, ks)) <==> n in Nodes(Pairs(kind, ks[1..]))
  {
    var ps, rest := Pairs(kind, ks), Pairs(kind, ks[1..]);
    if !IsText(kind, ks[0]) {
      assert Nodes(ps) == [ks[0]] + Nodes(rest);
    }
  }

  lemma {:induction false} NotAmong(kind: Kinds, ks: seq<Id>, n: Id)
    requires n !in ks
    ensures n !in Nodes(Pairs(kind, ks))
  {
    if ks != [] {
      NodesAfter(kind, ks, n);
      NotAmong(kind, ks[1..], n);
    }
  }

  lemma {:induction false} RunOf(kind: Kinds, l: seq<Id>, rest: seq<Id>)
    requires AllText(kind, l) && (rest == [] || !IsText(kind, rest[0]))
    ensures Run(kind, l + rest) == l && Pairs(kind, l + rest) == Pairs(kind, rest)
  {
    if l == [] {
      assert l + rest == rest;
    } else {
      assert (l + rest)[0] == l[0] && (l + rest)[1..] == l[1..] + rest;
      RunOf(kind, l[1..], rest);
    }
  }

  lemma {:induction false} Taken(kind: Kinds, l: seq<Id>, ps: seq<Pair>)
    requires AllText(kind, l) && Proper(kind, ps)
    ensures Run(kind, l + Flat(ps)) == l && Pairs(kind, l + Flat(ps)) == ps
    decreases |ps|
  {
    RunOf(kind, l, Flat(ps));
    if ps != [] {
      var head, rest := ps[0], Flat(ps[1..]);
      assert Flat(ps)[0] == head.node && Flat(ps)[1..] == head.tail + rest;
      Taken(kind, head.tail, ps[1..]);
    }
  }

  lemma {:induction false} FlatConcat(xs: seq<Pair>, ys: seq<Pair>)
    ensures Flat(xs + ys) == Flat(xs) + Flat(ys)
  {
    if xs == [] {
      assert xs + ys == ys;
    } else {
      assert (xs + ys)[0] == xs[0] && (xs + ys)[1..] == xs[1..] + ys;
      FlatConcat(xs[1..], ys);
    }
  }

  lemma {:induction false} FlatMiddle(xs: seq<Pair>, p: Pair, ys: seq<Pair>)
    ensures Flat(xs + [p] + ys) == Flat(xs) + ([p.node] + p.tail + Flat(ys))
  {
    FlatConcat(xs, [p] + ys);
    assert xs + [p] + ys == xs + ([p] + ys) && ([p] + ys)[1..] == ys;
  }

  /** Where the `k`-th pair starts in the sibling list. */
  lemma {:induction false} PairPlace(l: seq<Id>, ps: seq<Pair>, k: nat)
    requires k < |ps|
    ensures var i := |l| + |Flat(ps[..k])|; var ks := l + Flat(ps);
      && i + 1 + |ps[k].tail| <= |ks|
      && ks[..i] == l + Flat(ps[..k]) && ks[i] == ps[k].node
      && ks[i + 1..] == ps[k].tail + Flat(ps[k + 1..])
      && ks[i + 1..i + 1 + |ps[k].tail|] == ps[k].tail
      && ks[i + 1 + |ps[k].tail|..] == Flat(ps[k + 1..])
  {
    FlatMiddle(ps[..k], ps[k], ps[k + 1..]);
    assert ps == ps[..k] + [ps[k]] + ps[k + 1..];
    Segments(l, Flat(ps[..k]), ps[k].node, ps[k].tail, Flat(ps[k + 1..]));
  }

  lemma {:induction false} Segments(l: seq<Id>, x: seq<Id>, n: Id, t: seq<Id>, y: seq<Id>)
    ensures var ks := l + (x + ([n] + t + y)); var i := |l| + |x|;
      && i + 1 + |t| <= |ks|
      && ks[..i] == l + x && ks[i] == n && ks[i + 1..] == t + y
      && ks[i + 1..i + 1 + |t|] == t && ks[i + 1 + |t|..] == y
  {
    var ks, i := l + (x + ([n] + t + y)), |l| + |x|;
    assert ks[i..] == [n] + t + y;
  }

  lemma {:induction false} NodesInFlat(ps: seq<Pair>, k: nat)
    requires k < |ps|
    ensures ps[k].node in Flat(ps)
    ensures forall t :: t in ps[k].tail ==> t in Flat(ps)
  {
    PairPlace([], ps, k);
    var ks := [] + Flat(ps);
    assert ks == Flat(ps) && ks[|Flat(ps[..k])|] == ps[k].node;
    forall t | t in ps[k].tail ensures t in Flat(ps) {
      assert t in ks[|Flat(ps[..k])| + 1..];
    }
  }

  lemma {:induction false} DistinctPairs(ps: seq<Pair>)
    requires NoDup(Flat(ps))
    ensures NoDup(Nodes(ps))
  {
    if ps != [] {
      var rest := Flat(ps[1..]);
      assert rest == Flat(ps)[1 + |ps[0].tail|..];
      DistinctPairs(ps[1..]);
      forall j | 0 <= j < |ps[1..]| ensures ps[1..][j].node != ps[0].node {
        NodesInFlat(ps[1..], j);
        assert ps[0].node == Flat(ps)[0];
      }
      assert Nodes(ps) == [ps[0].node] + Nodes(ps[1..]);
      NoDupConcat([ps[0].node], Nodes(ps[1..]));
    }
  }

  /** Only the kinds of the listed nodes matter. */
  lemma {:induction false} KindsFrame(kind: Kinds, kind': Kinds, ks: seq<Id>)
    requires forall i :: 0 <= i < |ks| ==> IsText(kind, ks[i]) == IsText(kind', ks[i])
    ensures Run(kind, ks) == Run(kind', ks) && Pairs(kind, ks) == Pairs(kind', ks)
  {
    if ks != [] { KindsFrame(kind, kind', ks[1..]); }
  }

  // ------------------------------------------------------------------
  // Lists of pairs
  // ------------------------------------------------------------------

  /** The pairs whose node is not in `gone`. */
  function Keep(ps: seq<Pair>, gone: set<Id>): seq<Pair> {
    if ps == [] then []
    else (if ps[0].node in gone then [] else [ps[0]]) + Keep(ps[1..], gone)
  }

  lemma {:induction false} KeepConcat(xs: seq<Pair>, ys: seq<Pair>, gone: set<Id>)
    ensures Keep(xs + ys, gone) == Keep(xs, gone) + Keep(ys, gone)
  {
    if xs == [] {
      assert xs + ys == ys;
    } else {
      assert (xs + ys)[0] == xs[0] && (xs + ys)[1..] == xs[1..] + ys;
      KeepConcat(xs[1..], ys, gone);
    }
  }

  lemma {:induction false} KeepTwice(ps: seq<Pair>, a: set<Id>, b: set<Id>)
    ensures Keep(Keep(ps, a), b) == Keep(ps, a + b)
  {
    if ps != [] {
      KeepTwice(ps[1..], a, b);
      KeepConcat(if ps[0].node in a then [] else [ps[0]], Keep(ps[1..], a), b);
      assert [ps[0]][1..] == [];
    }
  }

  lemma {:induction false} KeepAll(ps: seq<Pair>, gone: set<Id>)
    requires forall i :: 0 <= i < |ps| ==> ps[i].node !in gone
    ensures Keep(ps, gone) == ps
  {
    if ps != [] { KeepAll(ps[1..], gone); }
  }

  lemma {:induction false} KeepNone(ps: seq<Pair>, gone: set<Id>)
    requires forall i :: 0 <= i < |ps| ==> ps[i].node in gone
    ensures Keep(ps, gone) == []
  {
    if ps != [] { KeepNone(ps[1..], gone); }
  }

  lemma {:induction false} KeepOne(ps: seq<Pair>, k: nat)
    requires NoDup(Nodes(ps)) && k < |ps|
    ensures Keep(ps, {ps[k].node}) == ps[..k] + ps[k + 1..]
  {
    NodeElsewhere(ps, k);
    KeepRest(ps[..k], ps[k], ps[k + 1..]);
    AroundOne(ps, k);
  }

  lemma {:induction false} AroundOne<T>(s: seq<T>, k: nat)
    requires k < |s|
    ensures s == s[..k] + ([s[k]] + s[k + 1..])
  {
  }

  lemma {:induction false} KeepRest(xs: seq<Pair>, p: Pair, ys: seq<Pair>)
    requires forall i :: 0 <= i < |xs| ==> xs[i].node != p.node
    requires forall i :: 0 <= i < |ys| ==> ys[i].node != p.node
    ensures Keep(xs + ([p] + ys), {p.node}) == xs + ys
  {
    KeepAll(xs, {p.node});
    KeepAll(ys, {p.node});
    KeepMiddle(xs, p, ys, {p.node});
    assert [] + ys == ys;
  }

  lemma {:induction false} NodeElsewhere(ps: seq<Pair>, k: nat)
    requires NoDup(Nodes(ps)) && k < |ps|
    ensures forall i :: 0 <= i < |ps[..k]| ==> ps[..k][i].node != ps[k].node
    ensures var rest := ps[k + 1..]; forall i :: 0 <= i < |rest| ==> rest[i].node != ps[k].node
  {
    forall i | 0 <= i < |ps| && i != k ensures ps[i].node != ps[k].node {
      assert Nodes(ps)[i] != Nodes(ps)[k];
    }
    var rest := ps[k + 1..];
    forall i | 0 <= i < |rest| ensures rest[i].node != ps[k].node {
      assert rest[i] == ps[k + 1 + i];
    }
  }

  lemma {:induction false} KeepMiddle(xs: seq<Pair>, p: Pair, ys: seq<Pair>, gone: set<Id>)
    ensures Keep(xs + ([p] + ys), gone) == Keep(xs, gone) + ((if p.node in gone then [] else [p]) + Keep(ys, gone))
  {
    KeepConcat(xs, [p] + ys, gone);
    assert ([p] + ys)[0] == p && ([p] + ys)[1..] == ys;
  }

  lemma {:induction false} KeepMember(ps: seq<Pair>, gone: set<Id>, p: Pair)
    ensures p in Keep(ps, gone) <==> p in ps && p.node !in gone
  {
    if ps != [] { KeepMember(ps[1..], gone, p); }
  }

  lemma {:induction false} KeepSame(ps: seq<Pair>, a: set<Id>, b: set<Id>)
    requires forall i :: 0 <= i < |ps| ==> (ps[i].node in a <==> ps[i].node in b)
    ensures Keep(ps, a) == Keep(ps, b)
  {
    if ps != [] { KeepSame(ps[1..], a, b); }
  }
}
