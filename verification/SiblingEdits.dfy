/** Taking a node and its tail out of a sibling list, and putting them back in:
    what the node-by-node edits do to the list of pairs. */
module SiblingEdits {
  import opened Prelude
  import opened Arena
  import opened Dom
  import opened Siblings

  function Lead(a: Arena, p: Id): seq<Id> {
    Run(a.kind, Kids(a, p))
  }

  function Children(a: Arena, p: Id): seq<Pair> {
    Pairs(a.kind, Kids(a, p))
  }

  /** The siblings after `n`. */
  function Following(a: Arena, n: Id): seq<Id> {
    if n !in a.parent then []
    else
      var ks := Kids(a, a.parent[n]);
      var i := IndexOf(ks, n);
      if i < |ks| then ks[i + 1..] else []
  }

  function Tail(a: Arena, n: Id): seq<Id> {
    Run(a.kind, Following(a, n))
  }

  function Unparent(parent: map<Id, Id>, ns: seq<Id>): map<Id, Id> {
    if ns == [] then parent else Unparent(parent, ns[..|ns| - 1]) - {ns[|ns| - 1]}
  }

  function Reparent(parent: map<Id, Id>, ns: seq<Id>, p: Id): map<Id, Id> {
    if ns == [] then parent else Reparent(parent, ns[..|ns| - 1], p)[ns[|ns| - 1] := p]
  }

  /** Without the `m` children of `p` from position `i` on. */
  function Cut(a: Arena, p: Id, i: nat, m: nat): Arena
    requires p in a.kids && i + m <= |a.kids[p]|
  {
    var ks := a.kids[p];
    Arena(a.kind, a.kids[p := ks[..i] + ks[i + m..]], Unparent(a.parent, ks[i..i + m]))
  }

  /** With `seg` put in at position `i` of the children of `p`. */
  function Splice(a: Arena, p: Id, i: nat, seg: seq<Id>): Arena
    requires p in a.kids && i <= |a.kids[p]|
  {
    var ks := a.kids[p];
    Arena(a.kind, a.kids[p := ks[..i] + seg + ks[i..]], Reparent(a.parent, seg, p))
  }

  function Extracted(a: Arena, n: Id): Arena
    requires Wf(a)
  {
    if n in a.parent then
      TailFits(a, n);
      Cut(a, a.parent[n], IndexOf(a.kids[a.parent[n]], n), 1 + |Tail(a, n)|)
    else a
  }

  lemma {:induction false} RunFits(kind: Kinds, ks: seq<Id>)
    ensures |Run(kind, ks)| <= |ks| && Run(kind, ks) == ks[..|Run(kind, ks)|]
    ensures |Run(kind, ks)| < |ks| ==> !IsText(kind, ks[|Run(kind, ks)|])
  {
    if ks != [] && IsText(kind, ks[0]) {
      RunFits(kind, ks[1..]);
      var m := |Run(kind, ks[1..])|;
      assert ks[..m + 1] == [ks[0]] + ks[1..][..m];
    }
  }

  lemma {:induction false} RunFrom(kind: Kinds, ks: seq<Id>, i: nat)
    requires i <= |ks|
    ensures var r := Run(kind, ks[i..]); i + |r| <= |ks| && r == ks[i..i + |r|]
  {
    RunFits(kind, ks[i..]);
  }

  lemma {:induction false} TailFits(a: Arena, n: Id)
    requires Wf(a) && n in a.parent
    ensures var ks := a.kids[a.parent[n]]; var i := IndexOf(ks, n);
      i < |ks| && i + 1 + |Tail(a, n)| <= |ks| && Tail(a, n) == ks[i + 1..i + 1 + |Tail(a, n)|]
  {
    var ks := a.kids[a.parent[n]];
    RunFrom(a.kind, ks, IndexOf(ks, n) + 1);
  }

  // ------------------------------------------------------------------
  // One node at a time
  // ------------------------------------------------------------------

  lemma {:induction false} SplitOff<T>(s: seq<T>, i: nat, k: nat)
    requires i <= k < |s|
    ensures s[k..] == [s[k]] + s[k + 1..] && s[i..k + 1] == s[i..k] + [s[k]]
  {
  }

  lemma {:induction false} OnceOnly<T>(s: seq<T>, i: nat, k: nat)
    requires NoDup(s) && i <= k < |s|
    ensures s[k] !in s[..i] && s[k] !in s[i..k]
  {
  }

  /** One more node cut out at position `i`. */
  lemma {:induction false} SkipMiddle<T>(s: seq<T>, i: nat, m: nat)
    requires NoDup(s) && i + m < |s|
    ensures Remove(s[..i] + s[i + m..], s[i + m]) == s[..i] + s[i + m + 1..]
    ensures s[i..i + m + 1] == s[i..i + m] + [s[i + m]] && s[i + m] !in s[i..i + m]
  {
    SplitOff(s, i, i + m);
    OnceOnly(s, i, i + m);
    RemoveAt(s[..i], s[i + m], s[i + m + 1..]);
  }

  lemma {:induction false} RemoveAt<T>(xs: seq<T>, x: T, ys: seq<T>)
    requires x !in xs
    ensures Remove(xs + ([x] + ys), x) == xs + ys
  {
    var r := xs + ([x] + ys);
    assert r[|xs|] == x && forall j :: 0 <= j < |xs| ==> r[j] == xs[j] != x;
    assert r[..|xs|] == xs && r[|xs| + 1..] == ys;
  }

  lemma {:induction false} UnparentSnoc(parent: map<Id, Id>, ns: seq<Id>, x: Id)
    ensures Unparent(parent, ns + [x]) == Unparent(parent, ns) - {x}
  {
    assert (ns + [x])[..|ns|] == ns;
  }

  lemma {:induction false} CutMore(a: Arena, p: Id, i: nat, m: nat)
    requires Wf(a) && p in a.kids && i + m < |a.kids[p]|
    ensures Detached(Cut(a, p, i, m), a.kids[p][i + m]) == Cut(a, p, i, m + 1)
  {
    var ks, x := a.kids[p], a.kids[p][i + m];
    SkipMiddle(ks, i, m);
    UnparentSnoc(a.parent, ks[i..i + m], x);
    UnparentOther(a.parent, ks[i..i + m], x);
    assert Cut(a, p, i, m).parent[x] == p;
  }

  lemma {:induction false} UnparentOther(parent: map<Id, Id>, ns: seq<Id>, x: Id)
    ensures x !in ns ==> (x in Unparent(parent, ns) <==> x in parent)
    ensures x !in ns && x in parent ==> Unparent(parent, ns)[x] == parent[x]
    ensures x in ns ==> x !in Unparent(parent, ns)
    decreases |ns|
  {
    if ns != [] { UnparentOther(parent, ns[..|ns| - 1], x); }
  }

  lemma {:induction false} UnparentFront(parent: map<Id, Id>, ns: seq<Id>, x: Id)
    ensures Unparent(parent, ns) - {x} == Unparent(parent, [x] + ns)
    decreases |ns|
  {
    var all := [x] + ns;
    if ns == [] {
      assert all[..0] == [];
    } else {
      assert all[..|all| - 1] == [x] + ns[..|ns| - 1];
      UnparentFront(parent, ns[..|ns| - 1], x);
    }
  }

  lemma {:induction false} ReparentOther(parent: map<Id, Id>, ns: seq<Id>, p: Id, x: Id)
    ensures x !in ns ==> (x in Reparent(parent, ns, p) <==> x in parent)
    ensures x !in ns && x in parent ==> Reparent(parent, ns, p)[x] == parent[x]
    ensures x in ns ==> x in Reparent(parent, ns, p) && Reparent(parent, ns, p)[x] == p
    decreases |ns|
  {
    if ns != [] { ReparentOther(parent, ns[..|ns| - 1], p, x); }
  }

  lemma {:induction false} ReparentConcat(parent: map<Id, Id>, ns: seq<Id>, ms: seq<Id>, p: Id)
    ensures Reparent(Reparent(parent, ns, p), ms, p) == Reparent(parent, ns + ms, p)
    decreases |ms|
  {
    if ms == [] {
      assert ns + ms == ns;
    } else {
      assert (ns + ms)[..|ns + ms| - 1] == ns + ms[..|ms| - 1];
      ReparentConcat(parent, ns, ms[..|ms| - 1], p);
    }
  }

  lemma {:induction false} CutFront(a: Arena, p: Id, i: nat, m: nat)
    requires Wf(a) && p in a.kids && i + 1 + m <= |a.kids[p]|
    ensures Detached(Cut(a, p, i + 1, m), a.kids[p][i]) == Cut(a, p, i, m + 1)
  {
    var ks := a.kids[p];
    var b := Cut(a, p, i + 1, m);
    RemoveBefore(ks, i, m);
    UnparentOther(a.parent, ks[i + 1..i + 1 + m], ks[i]);
    UnparentFront(a.parent, ks[i + 1..i + 1 + m], ks[i]);
    assert b.parent[ks[i]] == p;
  }

  lemma {:induction false} RemoveBefore<T>(ks: seq<T>, i: nat, m: nat)
    requires NoDup(ks) && i + 1 + m <= |ks|
    ensures ks[i] !in ks[i + 1..i + 1 + m] && ks[i..i + m + 1] == [ks[i]] + ks[i + 1..i + 1 + m]
    ensures Remove(ks[..i + 1] + ks[i + 1 + m..], ks[i]) == ks[..i] + ks[i + m + 1..]
  {
    var r, x := ks[..i + 1] + ks[i + 1 + m..], ks[i];
    assert r[i] == x;
    assert forall j :: 0 <= j < i ==> r[j] == ks[j] != x;
    assert IndexOf(r, x) == i;
    assert r[..i] == ks[..i] && r[i + 1..] == ks[i + 1 + m..];
  }

  lemma {:induction false} SpliceMore(a: Arena, p: Id, i: nat, seg: seq<Id>, x: Id)
    requires p in a.kids && i <= |a.kids[p]|
    ensures var b := Splice(a, p, i, seg);
      i + |seg| <= |b.kids[p]| && Placed(b, p, x, i + |seg|) == Splice(a, p, i, seg + [x])
  {
    var ks := a.kids[p];
    var r := ks[..i] + seg + ks[i..];
    assert r[..i + |seg|] + [x] + r[i + |seg|..] == ks[..i] + (seg + [x]) + ks[i..];
    assert (seg + [x])[..|seg|] == seg;
  }

  lemma {:induction false} SpliceNone(a: Arena, p: Id, i: nat)
    requires p in a.kids && i <= |a.kids[p]|
    ensures Splice(a, p, i, []) == a
  {
    assert a.kids[p][..i] + [] + a.kids[p][i..] == a.kids[p];
    assert a.kids[p := a.kids[p]] == a.kids;
  }

  lemma {:induction false} CutNone(a: Arena, p: Id, i: nat)
    requires p in a.kids && i <= |a.kids[p]|
    ensures Cut(a, p, i, 0) == a
  {
    assert a.kids[p][..i] + a.kids[p][i..] == a.kids[p];
    assert a.kids[p := a.kids[p]] == a.kids;
  }

  // ------------------------------------------------------------------
  // The edits of the etree layer
  // ------------------------------------------------------------------

  /** The run of text nodes from a sibling cursor on. */
  method TextRunFrom(a: Arena, node: Option<Id>, ghost p: Id, ghost i: nat) returns (run: seq<Id>)
    requires Wf(a) && node == ChildAt(a, p, i) && i <= |Kids(a, p)|
    ensures run == Run(a.kind, Kids(a, p)[i..])
  {
    run := [];
    var cur := node;
    ghost var ks, k := Kids(a, p), i;
    while cur.Some? && cur.value in a.kind && a.kind[cur.value].Textual()
      invariant i <= k <= |ks| && cur == ChildAt(a, p, k)
      invariant Run(a.kind, ks[i..]) == run + Run(a.kind, ks[k..])
      decreases |ks| - k
    {
      assert ks[k..][0] == ks[k] && ks[k..][1..] == ks[k + 1..];
      assert run + ([cur.value] + Run(a.kind, ks[k + 1..])) == (run + [cur.value]) + Run(a.kind, ks[k + 1..]);
      run := run + [cur.value];
      SiblingStep(a, p, k);
      cur := NextSibling(a, cur.value);
      k := k + 1;
    }
    assert Run(a.kind, ks[k..]) == [];
  }

  method FollowingTextRun(a: Arena, n: Id) returns (run: seq<Id>)
    requires Wf(a)
    ensures run == Tail(a, n)
  {
    if n in a.parent {
      ghost var ks := a.kids[a.parent[n]];
      SiblingStep(a, a.parent[n], IndexOf(ks, n));
      run := TextRunFrom(a, NextSibling(a, n), a.parent[n], IndexOf(ks, n) + 1);
    } else {
      run := TextRunFrom(a, NextSibling(a, n), n, |Kids(a, n)|);
    }
  }

  /** Detach `n` and its tail run from their parent. */
  method Extract(doc: Document, n: Id) returns (tail: seq<Id>)
    requires doc.Valid()
    modifies doc`arena
    ensures doc.Valid() && doc.arena == Extracted(old(doc.arena), n)
    ensures tail == Tail(old(doc.arena), n)
  {
    tail := FollowingTextRun(doc.arena, n);
    if Parent(doc.arena, n).Some? {
      ghost var i := TailPlan(doc.arena, n, doc.arena.parent[n], tail);
      DetachBoth(doc, n, tail, doc.arena.parent[n], i);
    }
  }

  /** The tail run starts at position `i`; without it and `n` the rest is left. */
  lemma {:induction false} TailPlan(a: Arena, n: Id, p: Id, tail: seq<Id>) returns (i: nat)
    requires Wf(a) && Parent(a, n) == Some(p) && tail == Tail(a, n)
    ensures p in a.kids && i + |tail| <= |a.kids[p]| && tail == a.kids[p][i..i + |tail|]
    ensures Detached(Cut(a, p, i, |tail|), n) == Extracted(a, n)
  {
    TailFits(a, n);
    i := IndexOf(a.kids[p], n) + 1;
    ExtractSteps(a, n, p, IndexOf(a.kids[p], n), |tail|);
  }

  method DetachBoth(doc: Document, n: Id, tail: seq<Id>, ghost p: Id, ghost i: nat)
    requires doc.Valid() && p in doc.arena.kids && i + |tail| <= |doc.arena.kids[p]| && tail == doc.arena.kids[p][i..i + |tail|]
    modifies doc`arena
    ensures doc.Valid() && doc.arena == Detached(Cut(old(doc.arena), p, i, |tail|), n)
  {
    DetachRun(doc, tail, p, i);
    doc.Detach(n);
  }

  lemma {:induction false} ExtractSteps(a: Arena, n: Id, p: Id, i: nat, m: nat)
    requires Wf(a) && Parent(a, n) == Some(p) && i == IndexOf(a.kids[p], n) && m == |Tail(a, n)| && i + 1 + m <= |a.kids[p]|
    ensures Detached(Cut(a, p, i + 1, m), n) == Extracted(a, n)
  {
    CutFront(a, p, i, m);
  }

  method DetachRun(doc: Document, run: seq<Id>, ghost p: Id, ghost i: nat)
    requires doc.Valid() && p in doc.arena.kids && i + |run| <= |doc.arena.kids[p]| && run == doc.arena.kids[p][i..i + |run|]
    modifies doc`arena
    ensures doc.Valid() && doc.arena == Cut(old(doc.arena), p, i, |run|)
  {
    ghost var a := doc.arena;
    CutNone(a, p, i);
    for j := 0 to |run|
      invariant doc.Valid() && doc.arena == Cut(a, p, i, j)
    {
      CutMore(a, p, i, j);
      doc.Detach(run[j]);
    }
  }

  /** Nodes that can be attached: known, detached, and none of them twice. */
  ghost predicate Loose(a: Arena, ns: seq<Id>) {
    NoDup(ns) && forall i :: 0 <= i < |ns| ==> ns[i] in a.kind && ns[i] !in a.parent
  }

  /** Put a detached tail run right after `node`, which sits at position `i`. */
  method AttachTail(doc: Document, p: Id, tail: seq<Id>, node: Id, ghost i: nat)
    requires doc.Valid() && p in doc.arena.kids && i < |doc.arena.kids[p]| && doc.arena.kids[p][i] == node
    requires Loose(doc.arena, tail)
    modifies doc`arena
    ensures doc.Valid() && doc.arena == Splice(old(doc.arena), p, i + 1, tail)
  {
    ghost var a := doc.arena;
    SpliceNone(a, p, i + 1);
    var reference := node;
    for j := 0 to |tail|
      invariant doc.Valid() && p in a.kids && i < |a.kids[p]| && doc.arena == Splice(a, p, i + 1, tail[..j])
      invariant reference == if j == 0 then node else tail[j - 1]
    {
      AttachNext(doc, p, tail, j, reference, i, a);
      reference := tail[j];
    }
    assert tail[..|tail|] == tail;
  }

  method AttachNext(doc: Document, p: Id, tail: seq<Id>, j: nat, reference: Id, ghost i: nat, ghost a: Arena)
    requires doc.Valid() && p in a.kids && i < |a.kids[p]| && j < |tail| && Loose(a, tail)
    requires doc.arena == Splice(a, p, i + 1, tail[..j]) && reference == if j == 0 then a.kids[p][i] else tail[j - 1]
    modifies doc`arena
    ensures doc.Valid() && doc.arena == Splice(a, p, i + 1, tail[..j + 1])
  {
    NextOfTail(tail, j);
    TailStep(a, p, i, tail[..j], tail[j], doc.arena);
    doc.InsertAfter(p, tail[j], reference);
  }

  lemma {:induction false} NextOfTail(tail: seq<Id>, j: nat)
    requires j < |tail| && NoDup(tail)
    ensures tail[..j + 1] == tail[..j] + [tail[j]] && |tail[..j]| == j && tail[j] !in tail[..j]
    ensures j > 0 ==> tail[j - 1] == tail[..j][j - 1]
  {
  }

  /** One more node `x` after the segment that is in place. */
  lemma {:induction false} TailStep(a: Arena, p: Id, i: nat, seg: seq<Id>, x: Id, b: Arena)
    requires p in a.kids && i < |a.kids[p]| && x in a.kind && x !in a.parent && x !in seg
    requires b == Splice(a, p, i + 1, seg) && Wf(b)
    ensures x in b.kind && x !in b.parent
    ensures TailPlace(b.kids[p], if seg == [] then a.kids[p][i] else seg[|seg| - 1], i + |seg|)
    ensures Placed(b, p, x, i + |seg| + 1) == Splice(a, p, i + 1, seg + [x])
  {
    ReparentOther(a.parent, seg, p, x);
    LastPlaced(a.kids[p], seg, i);
    IndexOfAt(b.kids[p], i + |seg|);
    SpliceMore(a, p, i + 1, seg, x);
  }

  ghost predicate TailPlace(ks: seq<Id>, reference: Id, k: nat) {
    k < |ks| && IndexOf(ks, reference) == k
  }

  lemma {:induction false} LastPlaced(ks: seq<Id>, seg: seq<Id>, i: nat)
    requires i < |ks|
    ensures var r := ks[..i + 1] + seg + ks[i + 1..];
      i + |seg| < |r| && r[i + |seg|] == if seg == [] then ks[i] else seg[|seg| - 1]
  {
  }

  /** Insert a detached node before `reference` (or last), with its tail run after it. */
  method Attach(doc: Document, p: Id, node: Id, tail: seq<Id>, reference: Option<Id>)
    requires doc.Valid() && p in doc.arena.kids && Loose(doc.arena, [node] + tail)
    requires reference.Some? ==> reference.value in doc.arena.kids[p]
    modifies doc`arena
    ensures doc.Valid() && doc.arena == Splice(old(doc.arena), p, Place(old(doc.arena), p, reference), [node] + tail)
  {
    ghost var a, i := doc.arena, Place(doc.arena, p, reference);
    LooseTail(a, p, i, node, tail);
    SpliceAgain(a, p, i, node, tail);
    AttachNode(doc, p, node, reference, i);
    AttachTail(doc, p, tail, node, i);
  }

  method AttachNode(doc: Document, p: Id, node: Id, reference: Option<Id>, ghost i: nat)
    requires doc.Valid() && p in doc.arena.kids && node in doc.arena.kind && node !in doc.arena.parent
    requires (reference.Some? ==> reference.value in doc.arena.kids[p]) && i == Place(doc.arena, p, reference)
    modifies doc`arena
    ensures doc.Valid() && doc.arena == Splice(old(doc.arena), p, i, [node])
  {
    SpliceNone(doc.arena, p, i);
    SpliceMore(doc.arena, p, i, [], node);
    assert [] + [node] == [node];
    if reference.None? {
      doc.AppendChild(p, node);
    } else {
      doc.InsertBefore(p, node, reference.value);
    }
  }

  function Place(a: Arena, p: Id, reference: Option<Id>): (i: nat)
    requires p in a.kids
    ensures i <= |a.kids[p]|
  {
    if reference.None? then |a.kids[p]| else IndexOf(a.kids[p], reference.value)
  }

  lemma {:induction false} LooseTail(a: Arena, p: Id, i: nat, node: Id, tail: seq<Id>)
    requires p in a.kids && i <= |a.kids[p]| && Loose(a, [node] + tail)
    ensures Loose(Splice(a, p, i, [node]), tail) && node in a.kind && node !in a.parent
  {
    assert ([node] + tail)[0] == node;
    forall j, k | 0 <= j < k < |tail| ensures tail[j] != tail[k] {
      assert ([node] + tail)[j + 1] != ([node] + tail)[k + 1];
    }
    var b := Splice(a, p, i, [node]);
    assert b.kind == a.kind;
    forall j | 0 <= j < |tail| ensures tail[j] in b.kind && tail[j] !in b.parent {
      assert ([node] + tail)[j + 1] == tail[j] && ([node] + tail)[0] == node;
      ReparentOther(a.parent, [node], p, tail[j]);
    }
  }

  lemma {:induction false} SpliceAgain(a: Arena, p: Id, i: nat, node: Id, tail: seq<Id>)
    requires p in a.kids && i <= |a.kids[p]|
    ensures var b := Splice(a, p, i, [node]);
      i < |b.kids[p]| && b.kids[p][i] == node && Splice(b, p, i + 1, tail) == Splice(a, p, i, [node] + tail)
  {
    var ks := a.kids[p];
    var r := ks[..i] + [node] + ks[i..];
    var whole := ks[..i] + ([node] + tail) + ks[i..];
    assert r[..i + 1] + tail + r[i + 1..] == whole;
    assert a.kids[p := r][p := whole] == a.kids[p := whole];
    assert [node][..0] == [];
    ReparentConcat(a.parent, [node], tail, p);
    var b := Splice(a, p, i, [node]);
    assert b.kids[p] == r;
    var c, d := Splice(b, p, i + 1, tail), Splice(a, p, i, [node] + tail);
    assert c.kids == d.kids;
    assert c.parent == d.parent;
  }
}
