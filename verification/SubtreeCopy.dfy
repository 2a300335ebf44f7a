/** Copying a subtree into a document, node by node. */
module SubtreeCopy {
  import opened Prelude
  import opened Arena
  import opened Dom

  /** Everything known in `a` is unchanged in `b`. */
  ghost predicate Extends(a: Arena, b: Arena) {
    && (forall x :: x in a.kind ==> x in b.kind && b.kind[x] == a.kind[x])
    && (forall x :: x in a.kids ==> x in b.kids && b.kids[x] == a.kids[x])
    && (forall x :: x in a.kind ==> (x in b.parent <==> x in a.parent))
    && (forall x :: x in a.kind && x in a.parent ==> b.parent[x] == a.parent[x])
  }

  /** The same content, whatever the node numbers. */
  ghost predicate Copy(s: Tree, c: Tree) {
    Erase(s) == Erase(c)
  }

  ghost predicate Between(lo: Id, t: Tree, hi: Id) {
    lo <= t.id < hi && forall i :: 0 <= i < |t.kids| ==> Between(lo, t.kids[i], hi)
  }

  ghost predicate Grown(a: Arena, b: Arena, n: Id) {
    n in b.kind && n !in b.parent && n !in a.kind && Extends(a, b)
  }

  lemma {:induction false} Wider(lo: Id, t: Tree, hi: Id, lo': Id, hi': Id)
    requires Between(lo, t, hi) && lo' <= lo && hi <= hi'
    ensures Between(lo', t, hi')
    decreases t
  {
    forall i | 0 <= i < |t.kids| ensures Between(lo', t.kids[i], hi') { Wider(lo, t.kids[i], hi, lo', hi'); }
  }

  /** A held tree stays held when the nodes in its range are left alone. */
  lemma {:induction false} RangeFrame(a: Arena, b: Arena, t: Tree, lo: Id, hi: Id)
    requires Holds(a, t) && Between(lo, t, hi)
    requires forall x :: lo <= x < hi ==> SameNode(a, b, x)
    ensures Holds(b, t)
    decreases t
  {
    assert SameNode(a, b, t.id);
    forall i | 0 <= i < |t.kids| ensures Holds(b, t.kids[i]) { RangeFrame(a, b, t.kids[i], lo, hi); }
  }

  ghost predicate CopiedKids(a: Arena, ss: seq<Tree>, cs: seq<Tree>, lo: Id, hi: Id) {
    && |cs| <= |ss|
    && forall i :: 0 <= i < |cs| ==> Holds(a, cs[i]) && Copy(ss[i], cs[i]) && Between(lo, cs[i], hi)
  }

  lemma {:induction false} CopiedFrame(a: Arena, b: Arena, ss: seq<Tree>, cs: seq<Tree>, lo: Id, hi: Id, hi': Id)
    requires CopiedKids(a, ss, cs, lo, hi) && hi <= hi'
    requires forall x :: lo <= x < hi ==> SameNode(a, b, x)
    ensures CopiedKids(b, ss, cs, lo, hi')
  {
    forall i | 0 <= i < |cs| ensures Holds(b, cs[i]) && Between(lo, cs[i], hi') {
      RangeFrame(a, b, cs[i], lo, hi);
      Wider(lo, cs[i], hi, lo, hi');
    }
  }

  lemma {:induction false} CopiedMore(a: Arena, b: Arena, ss: seq<Tree>, cs: seq<Tree>, c: Tree, lo: Id, mid: Id, hi: Id)
    requires CopiedKids(a, ss, cs, lo, mid) && lo <= mid <= hi && |cs| < |ss|
    requires forall x :: lo <= x < mid ==> SameNode(a, b, x)
    requires Holds(b, c) && Copy(ss[|cs|], c) && Between(mid, c, hi)
    ensures CopiedKids(b, ss, cs + [c], lo, hi)
  {
    CopiedFrame(a, b, ss, cs, lo, mid, hi);
    Wider(mid, c, hi, lo, hi);
  }

  lemma {:induction false} ExtendsTwice(a: Arena, b: Arena, c: Arena)
    requires Extends(a, b) && Extends(b, c) && Wf(a)
    ensures Extends(a, c)
  {
  }

  /** Appending to a new node changes nothing that was there before. */
  lemma {:induction false} AppendFrame(a: Arena, b: Arena, n: Id, m: Id)
    requires Grown(a, b, n) && n in b.kids && m !in a.kind && Wf(a)
    ensures Extends(a, Placed(b, n, m, |b.kids[n]|))
  {
  }

  /** The copy has new numbers throughout, no parent, and the content of `t`. */
  method CopySubtree(dst: Document, t: Tree) returns (n: Id, c: Tree)
    requires dst.Valid()
    modifies dst
    ensures dst.Valid() && Grown(old(dst.arena), dst.arena, n)
    ensures Holds(dst.arena, c) && c.id == n && Copy(t, c)
    ensures old(dst.next) <= dst.next && Between(old(dst.next), c, dst.next)
    ensures n == old(dst.next) && forall i :: 0 <= i < |c.kids| ==> Between(n + 1, c.kids[i], dst.next)
    decreases t, 1
  {
    ghost var a, lo := dst.arena, dst.next;
    n := dst.Create(t.kind);
    CreateGrows(a, n, t.kind);
    var kids := [];
    for i := 0 to |t.kids|
      invariant dst.Valid() && Grown(a, dst.arena, n) && lo < dst.next && n == lo
      invariant dst.arena.kind[n] == t.kind && n in dst.arena.kids && dst.arena.kids[n] == Ids(kids)
      invariant |kids| == i && CopiedKids(dst.arena, t.kids, kids, lo + 1, dst.next)
    {
      var c := CopyChild(dst, n, t, i, kids, a);
      kids := kids + [c];
    }
    c := Node(n, t.kind, kids);
    forall i | 0 <= i < |kids| ensures Between(lo, kids[i], dst.next) { Wider(lo + 1, kids[i], dst.next, lo, dst.next); }
  }

  lemma {:induction false} CreateGrows(a: Arena, n: Id, k: Kind)
    requires Wf(a) && n !in a.kind
    ensures Grown(a, Added(a, n, k), n)
  {
  }

  /** Copy the next child and append it to the copy of its parent. */
  method CopyChild(dst: Document, n: Id, t: Tree, i: nat, ghost kids: seq<Tree>, ghost a: Arena) returns (c: Tree)
    requires dst.Valid() && Wf(a) && Grown(a, dst.arena, n) && n < dst.next
    requires n in dst.arena.kids && dst.arena.kids[n] == Ids(kids) && dst.arena.kind[n] == t.kind
    requires |kids| == i < |t.kids| && CopiedKids(dst.arena, t.kids, kids, n + 1, dst.next)
    modifies dst
    ensures dst.Valid() && Grown(a, dst.arena, n) && old(dst.next) <= dst.next && dst.arena.kind[n] == t.kind
    ensures n in dst.arena.kids && dst.arena.kids[n] == Ids(kids + [c])
    ensures CopiedKids(dst.arena, t.kids, kids + [c], n + 1, dst.next)
    decreases t, 0
  {
    ghost var b0, mid := dst.arena, dst.next;
    var m;
    m, c := CopySubtree(dst, t.kids[i]);
    ChildAppended(a, b0, dst.arena, n, m, t, kids, c, mid, dst.next);
    dst.AppendChild(n, m);
  }

  /** From `a` through `b0` and the copied child in `b1` to `b1` with it appended. */
  lemma {:induction false} ChildAppended(a: Arena, b0: Arena, b1: Arena, n: Id, m: Id, t: Tree, kids: seq<Tree>, c: Tree, mid: Id, hi: Id)
    requires Wf(a) && Grown(a, b0, n) && Grown(b0, b1, m) && n < mid <= hi
    requires n in b0.kids && b0.kids[n] == Ids(kids) && b0.kind[n] == t.kind
    requires |kids| < |t.kids| && CopiedKids(b0, t.kids, kids, n + 1, mid)
    requires Holds(b1, c) && c.id == m && Copy(t.kids[|kids|], c) && Between(mid, c, hi)
    ensures n in b1.kids && var b := Placed(b1, n, m, |b1.kids[n]|);
      && Grown(a, b, n) && b.kind[n] == t.kind && b.kids[n] == Ids(kids + [c])
      && CopiedKids(b, t.kids, kids + [c], n + 1, hi)
  {
    ExtendsTwice(a, b0, b1);
    AppendFrame(a, b1, n, m);
    AppendKeepsCopy(b1, n, m, c, mid, hi);
    CopiedMore(b0, b1, t.kids, kids, c, n + 1, mid, hi);
    var b := Placed(b1, n, m, |b1.kids[n]|);
    CopiedAppended(b1, b, t.kids, kids + [c], n, hi);
    assert Ids(kids + [c]) == Ids(kids) + [m];
    AtEnd(Ids(kids), m);
  }

  lemma {:induction false} CopiedAppended(b1: Arena, b: Arena, ss: seq<Tree>, cs: seq<Tree>, n: Id, hi: Id)
    requires CopiedKids(b1, ss, cs, n + 1, hi) && forall x :: x != n ==> SameNode(b1, b, x)
    ensures CopiedKids(b, ss, cs, n + 1, hi)
  {
    CopiedFrame(b1, b, ss, cs, n + 1, hi, hi);
  }

  lemma {:induction false} AtEnd(s: seq<Id>, m: Id)
    ensures Insert(s, |s|, m) == s + [m]
  {
  }

  lemma {:induction false} AppendKeepsCopy(b: Arena, n: Id, m: Id, c: Tree, lo: Id, hi: Id)
    requires Holds(b, c) && Between(lo, c, hi) && n < lo && n in b.kids
    ensures Holds(Placed(b, n, m, |b.kids[n]|), c)
  {
    RangeFrame(b, Placed(b, n, m, |b.kids[n]|), c, lo, hi);
  }
}
