/** The arena DOM that the binding works on: numbered nodes with a kind, an
    ordered list of children and a parent, and the trees such an arena holds. */
module Arena {
  import opened Prelude

  type Id = nat

  datatype QName = QName(ns: Option<string>, local: string, prefix: Option<string>)
  datatype Attr = Attr(name: QName, value: string)

  /** A namespace declaration; the empty prefix declares the default namespace. */
  datatype Decl = Decl(prefix: string, uri: string)

  datatype Kind =
    | Root
    | Element(name: QName, attrs: seq<Attr>, decls: seq<Decl>)
    | Text(text: string)
    | CData(text: string)
    | Comment(text: string)
    | PI(target: string, data: Option<string>)
  {
    predicate Textual() { Text? || CData? }

    /** What the etree layer exposes as an indexable child. */
    predicate Content() { Element? || Comment? || PI? }
  }

  /** `parent` has no entry for a detached node. */
  datatype Arena = Arena(kind: map<Id, Kind>, kids: map<Id, seq<Id>>, parent: map<Id, Id>)

  /** A document with nothing below its root, node 0. */
  const EMPTY_ARENA := Arena(map[0 := Root], map[0 := []], map[])

  ghost predicate Wf(a: Arena) {
    && a.kids.Keys == a.kind.Keys
    && (forall p, i :: p in a.kids && 0 <= i < |a.kids[p]| ==>
          a.kids[p][i] in a.kind && a.kids[p][i] in a.parent && a.parent[a.kids[p][i]] == p)
    && (forall c :: c in a.parent ==> a.parent[c] in a.kids && c in a.kids[a.parent[c]])
    && (forall p :: p in a.kids ==> NoDup(a.kids[p]))
  }

  /** Only known nodes have a parent. */
  lemma {:induction false} Known(a: Arena, n: Id)
    requires Wf(a)
    ensures n in a.parent ==> n in a.kind
  {
    if n in a.parent {
      var ks := a.kids[a.parent[n]];
      var i :| 0 <= i < |ks| && ks[i] == n;
    }
  }

  function Kids(a: Arena, n: Id): seq<Id> {
    if n in a.kids then a.kids[n] else []
  }

  function Parent(a: Arena, n: Id): Option<Id> {
    if n in a.parent then Some(a.parent[n]) else None
  }

  function FirstChild(a: Arena, n: Id): Option<Id> {
    if Kids(a, n) == [] then None else Some(Kids(a, n)[0])
  }

  function LastChild(a: Arena, n: Id): Option<Id> {
    var ks := Kids(a, n);
    if ks == [] then None else Some(ks[|ks| - 1])
  }

  function NextSibling(a: Arena, n: Id): Option<Id> {
    if n !in a.parent then None
    else
      var ks := Kids(a, a.parent[n]);
      var i := IndexOf(ks, n);
      if i + 1 < |ks| then Some(ks[i + 1]) else None
  }

  /** The `i`-th child of `p`, as a sibling cursor sees it. */
  function ChildAt(a: Arena, p: Id, i: nat): Option<Id> {
    if i < |Kids(a, p)| then Some(Kids(a, p)[i]) else None
  }

  lemma {:induction false} SiblingStep(a: Arena, p: Id, i: nat)
    requires Wf(a) && i < |Kids(a, p)|
    ensures NextSibling(a, Kids(a, p)[i]) == ChildAt(a, p, i + 1)
    ensures Parent(a, Kids(a, p)[i]) == Some(p)
  {
    IndexOfAt(a.kids[p], i);
  }

  // ------------------------------------------------------------------
  // Trees held by an arena
  // ------------------------------------------------------------------

  datatype Tree = Node(id: Id, kind: Kind, kids: seq<Tree>)

  function Ids(ts: seq<Tree>): (r: seq<Id>)
    ensures |r| == |ts|
    ensures forall i :: 0 <= i < |ts| ==> r[i] == ts[i].id
  {
    seq(|ts|, i requires 0 <= i < |ts| => ts[i].id)
  }

  /** A tree without its node ids. */
  function Erase(t: Tree): Tree
    decreases t, 0
  {
    Node(0, t.kind, EraseAll(t.kids))
  }

  function EraseAll(ts: seq<Tree>): (r: seq<Tree>)
    ensures |r| == |ts|
    ensures forall i :: 0 <= i < |ts| ==> r[i] == Erase(ts[i])
    decreases ts, 1
  {
    if ts == [] then [] else [Erase(ts[0])] + EraseAll(ts[1..])
  }

  ghost predicate Holds(a: Arena, t: Tree) {
    && t.id in a.kind && a.kind[t.id] == t.kind
    && t.id in a.kids && a.kids[t.id] == Ids(t.kids)
    && forall i :: 0 <= i < |t.kids| ==> Holds(a, t.kids[i])
  }

  ghost predicate HoldsAll(a: Arena, ts: seq<Tree>) {
    forall i :: 0 <= i < |ts| ==> Holds(a, ts[i])
  }

  /** The nodes of a tree in document order, each with the subtree below it. */
  function Preorder(t: Tree): (r: seq<Tree>)
    ensures |r| > 0 && r[0] == t
    decreases t, 0
  {
    [t] + PreorderAll(t.kids)
  }

  function PreorderAll(ts: seq<Tree>): seq<Tree>
    decreases ts, 1
  {
    if ts == [] then [] else Preorder(ts[0]) + PreorderAll(ts[1..])
  }

  lemma {:induction false} PreorderConcat(xs: seq<Tree>, ys: seq<Tree>)
    ensures PreorderAll(xs + ys) == PreorderAll(xs) + PreorderAll(ys)
  {
    if xs == [] {
      assert xs + ys == ys;
    } else {
      assert (xs + ys)[0] == xs[0] && (xs + ys)[1..] == xs[1..] + ys;
      PreorderConcat(xs[1..], ys);
      assert Preorder(xs[0]) + (PreorderAll(xs[1..]) + PreorderAll(ys))
          == Preorder(xs[0]) + PreorderAll(xs[1..]) + PreorderAll(ys);
    }
  }

  lemma {:induction false} InForest(ts: seq<Tree>, s: Tree)
    ensures s in PreorderAll(ts) <==> exists i :: 0 <= i < |ts| && s in Preorder(ts[i])
  {
    if ts != [] {
      InForest(ts[1..], s);
      if s in PreorderAll(ts[1..]) {
        var i :| 0 <= i < |ts[1..]| && s in Preorder(ts[1..][i]);
        assert s in Preorder(ts[i + 1]);
      }
      forall i | 0 < i < |ts| && s in Preorder(ts[i]) ensures s in PreorderAll(ts[1..]) {
        assert ts[1..][i - 1] == ts[i];
      }
    }
  }

  lemma {:induction false} HoldsBelow(a: Arena, t: Tree, s: Tree)
    requires Holds(a, t) && s in Preorder(t)
    ensures Holds(a, s) && |Preorder(s)| <= |Preorder(t)|
    ensures s != t ==> |Preorder(s)| < |Preorder(t)|
    ensures s != t ==> exists p :: p in Preorder(t) && s in p.kids
    decreases t
  {
    if s != t {
      InForest(t.kids, s);
      var i :| 0 <= i < |t.kids| && s in Preorder(t.kids[i]);
      HoldsBelow(a, t.kids[i], s);
      ForestSize(t.kids, i);
      if s == t.kids[i] {
        assert t in Preorder(t) && s in t.kids;
      } else {
        var p :| p in Preorder(t.kids[i]) && s in p.kids;
        InForest(t.kids, p);
        assert p in Preorder(t);
      }
    }
  }

  lemma {:induction false} ForestSize(ts: seq<Tree>, i: nat)
    requires i < |ts|
    ensures |Preorder(ts[i])| <= |PreorderAll(ts)|
  {
    if i > 0 {
      ForestSize(ts[1..], i - 1);
    }
  }

  /** A node id determines the whole subtree below it. */
  lemma {:induction false} SameId(a: Arena, s: Tree, t: Tree)
    requires Holds(a, s) && Holds(a, t) && s.id == t.id
    ensures s == t
    decreases s
  {
    assert |s.kids| == |Ids(s.kids)| == |t.kids|;
    forall i | 0 <= i < |s.kids| ensures s.kids[i] == t.kids[i] {
      assert s.kids[i].id == Ids(s.kids)[i] == Ids(t.kids)[i] == t.kids[i].id;
      SameId(a, s.kids[i], t.kids[i]);
    }
  }

  lemma {:induction false} SiblingsDisjoint(a: Arena, t: Tree, i: nat, j: nat, s: Tree)
    requires Wf(a) && Holds(a, t)
    requires i < |t.kids| && j < |t.kids| && i != j
    ensures !(s in Preorder(t.kids[i]) && s in Preorder(t.kids[j]))
    decreases |Preorder(t)| - |Preorder(s)|
  {
    var x, y := t.kids[i], t.kids[j];
    if s in Preorder(x) && s in Preorder(y) {
      HoldsBelow(a, x, s);
      HoldsBelow(a, y, s);
      ForestSize(t.kids, i);
      ForestSize(t.kids, j);
      assert x.id == a.kids[t.id][i] && y.id == a.kids[t.id][j];
      if s == x || s == y {
        var z := if s == x then y else x;
        if s != z {
          var p :| p in Preorder(z) && s in p.kids;
          UniqueParent(a, z, p, s);
          HoldsBelow(a, z, p);
          SameId(a, p, t);
        }
      } else {
        var p :| p in Preorder(x) && s in p.kids;
        var q :| q in Preorder(y) && s in q.kids;
        UniqueParent(a, x, p, s);
        UniqueParent(a, y, q, s);
        HoldsBelow(a, x, p);
        HoldsBelow(a, y, q);
        SameId(a, p, q);
        var k :| 0 <= k < |p.kids| && p.kids[k] == s;
        ForestSize(p.kids, k);
        SiblingsDisjoint(a, t, i, j, p);
      }
    }
  }

  lemma {:induction false} UniqueParent(a: Arena, t: Tree, p: Tree, s: Tree)
    requires Wf(a) && Holds(a, t) && p in Preorder(t) && s in p.kids
    ensures Parent(a, s.id) == Some(p.id)
  {
    HoldsBelow(a, t, p);
    var k :| 0 <= k < |p.kids| && p.kids[k] == s;
    assert a.kids[p.id][k] == s.id;
  }

  /** No node id occurs twice in a tree held by a well-formed arena. */
  lemma {:induction false} DistinctNodes(a: Arena, t: Tree)
    requires Wf(a) && Holds(a, t)
    ensures NoDup(Ids(Preorder(t)))
    decreases t, |t.kids| + 1
  {
    DistinctForest(a, t, 0);
    forall s | s in PreorderAll(t.kids) ensures s.id != t.id {
      InForest(t.kids, s);
      var i :| 0 <= i < |t.kids| && s in Preorder(t.kids[i]);
      HoldsBelow(a, t.kids[i], s);
      ForestSize(t.kids, i);
      if s.id == t.id { SameId(a, s, t); }
    }
    assert t.kids[0..] == t.kids;
    var r := PreorderAll(t.kids);
    assert Ids(Preorder(t)) == [t.id] + Ids(r);
    forall k | 0 <= k < |r| ensures Ids(r)[k] != t.id { assert r[k] in r; }
  }

  lemma {:induction false} DistinctForest(a: Arena, t: Tree, i: nat)
    requires Wf(a) && Holds(a, t) && i <= |t.kids|
    ensures NoDup(Ids(PreorderAll(t.kids[i..])))
    decreases t, |t.kids| - i
  {
    if i < |t.kids| {
      var p, q := Preorder(t.kids[i]), PreorderAll(t.kids[i + 1..]);
      assert t.kids[i..][1..] == t.kids[i + 1..];
      DistinctNodes(a, t.kids[i]);
      DistinctForest(a, t, i + 1);
      forall x | x in Ids(p) ensures x !in Ids(q) {
        var k :| 0 <= k < |p| && p[k].id == x;
        assert p[k] in p;
        LaterDisjoint(a, t, i, p[k]);
      }
      NoDupConcat(Ids(p), Ids(q));
      assert Ids(p + q) == Ids(p) + Ids(q);
    }
  }

  lemma {:induction false} LaterDisjoint(a: Arena, t: Tree, i: nat, s: Tree)
    requires Wf(a) && Holds(a, t) && i < |t.kids| && s in Preorder(t.kids[i])
    ensures s.id !in Ids(PreorderAll(t.kids[i + 1..]))
  {
    var q := PreorderAll(t.kids[i + 1..]);
    if s.id in Ids(q) {
      var l :| 0 <= l < |q| && q[l].id == s.id;
      NotLater(a, t, i, s, q[l]);
    }
  }

  lemma {:induction false} NotLater(a: Arena, t: Tree, i: nat, s: Tree, u: Tree)
    requires Wf(a) && Holds(a, t) && i < |t.kids| && s in Preorder(t.kids[i])
    requires u in PreorderAll(t.kids[i + 1..])
    ensures u.id != s.id
  {
    var rest := t.kids[i + 1..];
    InForest(rest, u);
    var j :| 0 <= j < |rest| && u in Preorder(rest[j]);
    assert rest[j] == t.kids[i + 1 + j];
    HoldsBelow(a, t.kids[i], s);
    HoldsBelow(a, rest[j], u);
    if u.id == s.id {
      SameId(a, s, u);
      SiblingsDisjoint(a, t, i, i + 1 + j, s);
    }
  }

  lemma {:induction false} Below(a: Arena, t: Tree, i: nat)
    requires Holds(a, t) && i < |t.kids|
    ensures Holds(a, t.kids[i]) && t.kids[i] in Preorder(t) && t.kids[i].id != t.id
    ensures a.kids[t.id][i] == t.kids[i].id
  {
    InForest(t.kids, t.kids[i]);
    ForestSize(t.kids, i);
    if t.kids[i].id == t.id { SameId(a, t, t.kids[i]); }
  }

  lemma {:induction false} Deeper(a: Arena, t: Tree, p: Tree, c: Tree)
    requires Holds(a, t) && p in Preorder(t) && c in p.kids
    ensures c in Preorder(t) && c.id != t.id
    decreases t
  {
    if p == t {
      var i :| 0 <= i < |t.kids| && t.kids[i] == c;
      Below(a, t, i);
    } else {
      InForest(t.kids, p);
      var i :| 0 <= i < |t.kids| && p in Preorder(t.kids[i]);
      Deeper(a, t.kids[i], p, c);
      InForest(t.kids, c);
      HoldsBelow(a, t.kids[i], c);
      ForestSize(t.kids, i);
      if c.id == t.id { SameId(a, c, t); }
    }
  }

  // ------------------------------------------------------------------
  // Frames
  // ------------------------------------------------------------------

  ghost predicate InTree(x: Id, t: Tree) {
    exists s :: s in Preorder(t) && s.id == x
  }

  ghost predicate SameNode(a: Arena, b: Arena, x: Id) {
    && (x in a.kind ==> x in b.kind && b.kind[x] == a.kind[x])
    && (x in a.kids ==> x in b.kids && b.kids[x] == a.kids[x])
  }

  /** A tree stays held when none of its nodes change. */
  lemma {:induction false} HoldsFrame(a: Arena, b: Arena, t: Tree)
    requires Holds(a, t)
    requires forall x :: InTree(x, t) ==> SameNode(a, b, x)
    ensures Holds(b, t)
    decreases t
  {
    assert t in Preorder(t) && InTree(t.id, t);
    forall i | 0 <= i < |t.kids| ensures Holds(b, t.kids[i]) {
      forall x | InTree(x, t.kids[i]) ensures InTree(x, t) {
        var s :| s in Preorder(t.kids[i]) && s.id == x;
        InForest(t.kids, s);
      }
      HoldsFrame(a, b, t.kids[i]);
    }
  }
}
