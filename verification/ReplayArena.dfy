/** The document arena while a replay builds it: every abstract building step is
    one edit of the arena. */
module ReplayArena {
  import opened Prelude
  import opened Arena
  import opened Dom
  import opened ParseOptions
  import opened Replay

  ghost predicate Completed(b: Building, c: Tree) {
    c in b.tops || exists i :: 0 <= i < |b.open| && c in b.open[i].kids
  }

  /** No node of `c` is the document root or an open element. */
  ghost predicate Apart(b: Building, c: Tree) {
    !InTree(0, c) && forall i :: 0 <= i < |b.open| ==> !InTree(b.open[i].id, c)
  }

  /** The child that is still open below level `i`, if any. */
  function OpenBelow(b: Building, i: nat): seq<Id> {
    if i < |b.open| then [b.open[i].id] else []
  }

  ghost predicate SpineAt(a: Arena, b: Building, i: nat)
    requires i < |b.open|
  {
    var t := b.open[i];
    t.id in a.kind && t.id in a.kids && a.kind[t.id] == t.kind && a.kids[t.id] == Ids(t.kids) + OpenBelow(b, i + 1)
  }

  /** The open elements hang below each other, and were allocated in that order. */
  ghost predicate Spine(a: Arena, b: Building) {
    && 0 in a.kids && a.kids[0] == Ids(b.tops) + OpenBelow(b, 0)
    && (forall i :: 0 <= i < |b.open| ==> SpineAt(a, b, i))
    && (forall i :: 0 <= i < |b.open| ==> 0 < b.open[i].id < b.next && b.open[i].kind.Element?)
    && (forall i, j :: 0 <= i < j < |b.open| ==> b.open[i].id < b.open[j].id)
  }

  ghost predicate Settled(a: Arena, b: Building) {
    forall c :: Completed(b, c) ==> Holds(a, c) && Apart(b, c)
  }

  ghost predicate Represents(a: Arena, b: Building) {
    Wf(a) && (forall x :: x in a.kind ==> x < b.next) && Spine(a, b) && Settled(a, b)
  }

  function Host(b: Building): Id {
    if b.open == [] then 0 else b.open[|b.open| - 1].id
  }

  /** The children list that the next node is appended to. */
  function HostKids(b: Building): seq<Tree> {
    if b.open == [] then b.tops else b.open[|b.open| - 1].kids
  }

  function Appended(a: Arena, p: Id, n: Id, k: Kind): Arena
    requires p in a.kids
  {
    Placed(Added(a, n, k), p, n, |Added(a, n, k).kids[p]|)
  }

  lemma {:induction false} HostRepresented(a: Arena, b: Building)
    requires Represents(a, b)
    ensures Host(b) in a.kids && Host(b) in a.kind && a.kids[Host(b)] == Ids(HostKids(b))
    ensures Host(b) != b.next
    ensures forall c :: Completed(b, c) ==> !InTree(Host(b), c) && !InTree(b.next, c)
  {
    if b.open != [] { assert SpineAt(a, b, |b.open| - 1); }
    forall c | Completed(b, c) ensures !InTree(b.next, c) {
      if InTree(b.next, c) {
        var s :| s in Preorder(c) && s.id == b.next;
        HoldsBelow(a, c, s);
      }
    }
  }

  /** Appending a node leaves every completed subtree in place. */
  lemma {:induction false} AppendKeeps(a: Arena, b: Building, k: Kind, c: Tree)
    requires Represents(a, b) && Completed(b, c)
    ensures Host(b) in a.kids && Holds(Appended(a, Host(b), b.next, k), c)
  {
    HostRepresented(a, b);
    HoldsFrame(a, Appended(a, Host(b), b.next, k), c);
  }

  lemma {:induction false} AppendWf(a: Arena, b: Building, k: Kind)
    requires Represents(a, b)
    ensures Host(b) in a.kids && Wf(Appended(a, Host(b), b.next, k))
  {
    HostRepresented(a, b);
    AddedWf(a, b.next, k);
    PlacedWf(Added(a, b.next, k), Host(b), b.next, |a.kids[Host(b)]|);
  }

  lemma {:induction false} NewLeaf(a: Arena, b: Building, k: Kind)
    requires Represents(a, b)
    ensures var l := Leaf(b, k); Host(b) in a.kids && Holds(Appended(a, Host(b), b.next, k), l) && Apart(b, l)
  {
    HostRepresented(a, b);
    var l := Leaf(b, k);
    assert Preorder(l) == [l];
  }

  lemma {:induction false} AppendLeafSpine(a: Arena, b: Building, k: Kind)
    requires Represents(a, b)
    ensures Host(b) in a.kids && Spine(Appended(a, Host(b), b.next, k), AddLeaf(b, k))
  {
    HostRepresented(a, b);
    var a', b' := Appended(a, Host(b), b.next, k), AddLeaf(b, k);
    assert a'.kids[Host(b)] == a.kids[Host(b)] + [b.next];
    assert Ids(HostKids(b) + [Leaf(b, k)]) == Ids(HostKids(b)) + [b.next];
    forall i | 0 <= i < |b'.open| ensures SpineAt(a', b', i) {
      assert SpineAt(a, b, i);
      assert b'.open[i].id == b.open[i].id && OpenBelow(b', i + 1) == OpenBelow(b, i + 1);
    }
  }

  lemma {:induction false} AppendLeaf(a: Arena, b: Building, k: Kind)
    requires Represents(a, b)
    ensures Host(b) in a.kids && Represents(Appended(a, Host(b), b.next, k), AddLeaf(b, k))
  {
    AppendWf(a, b, k);
    var a', b' := Appended(a, Host(b), b.next, k), AddLeaf(b, k);
    NewLeaf(a, b, k);
    AppendLeafSpine(a, b, k);
    forall c | Completed(b', c) ensures Holds(a', c) && Apart(b', c) {
      SameOpenIds(b, b', c);
      SameOpenIds(b, b', Leaf(b, k));
      if c != Leaf(b, k) {
        CompletedBefore(b, k, c);
        AppendKeeps(a, b, k, c);
      }
    }
  }

  lemma {:induction false} SameOpenIds(b: Building, b': Building, c: Tree)
    requires |b.open| == |b'.open| && forall i :: 0 <= i < |b.open| ==> b.open[i].id == b'.open[i].id
    ensures Apart(b, c) <==> Apart(b', c)
  {
    forall i | 0 <= i < |b.open| ensures InTree(b.open[i].id, c) <==> InTree(b'.open[i].id, c) {
    }
  }

  lemma {:induction false} CompletedBefore(b: Building, k: Kind, c: Tree)
    requires Completed(AddLeaf(b, k), c) && c != Leaf(b, k)
    ensures Completed(b, c)
  {
    var b' := AddLeaf(b, k);
    if c !in b'.tops {
      var i :| 0 <= i < |b'.open| && c in b'.open[i].kids;
      assert c in b.open[i].kids;
    }
  }

  lemma {:induction false} AppendOpenSpine(a: Arena, b: Building, k: Kind)
    requires Represents(a, b) && k.Element?
    ensures Host(b) in a.kids && Spine(Appended(a, Host(b), b.next, k), Open(b, k))
  {
    HostRepresented(a, b);
    var a', b' := Appended(a, Host(b), b.next, k), Open(b, k);
    assert a'.kids[Host(b)] == a.kids[Host(b)] + [b.next];
    forall i | 0 <= i < |b'.open| ensures SpineAt(a', b', i) {
      if i < |b.open| { assert SpineAt(a, b, i) && b'.open[i] == b.open[i]; }
    }
  }

  lemma {:induction false} OpenCompletes(b: Building, k: Kind, c: Tree)
    requires Completed(Open(b, k), c)
    ensures Completed(b, c)
  {
    var b' := Open(b, k);
    if c !in b.tops {
      var i :| 0 <= i < |b'.open| && c in b'.open[i].kids;
      assert c in b.open[i].kids;
    }
  }

  lemma {:induction false} AppendOpen(a: Arena, b: Building, k: Kind)
    requires Represents(a, b) && k.Element?
    ensures Host(b) in a.kids && Represents(Appended(a, Host(b), b.next, k), Open(b, k))
  {
    HostRepresented(a, b);
    var a', b' := Appended(a, Host(b), b.next, k), Open(b, k);
    AppendWf(a, b, k);
    AppendOpenSpine(a, b, k);
    forall c | Completed(b', c) ensures Holds(a', c) && Apart(b', c) {
      OpenCompletes(b, k, c);
      AppendKeeps(a, b, k, c);
      forall i | 0 <= i < |b'.open| ensures !InTree(b'.open[i].id, c) {
        if i < |b.open| { assert b'.open[i] == b.open[i]; }
      }
    }
  }

  lemma {:induction false} InClosed(b: Building, x: Id)
    requires b.open != [] && x != b.open[|b.open| - 1].id
    requires forall c :: Completed(b, c) ==> !InTree(x, c)
    ensures !InTree(x, b.open[|b.open| - 1])
  {
    var y := b.open[|b.open| - 1];
    forall s | s in Preorder(y) ensures s.id != x {
      if s != y {
        InForest(y.kids, s);
        var j :| 0 <= j < |y.kids| && s in Preorder(y.kids[j]);
        assert y.kids[j] in y.kids && Completed(b, y.kids[j]);
        assert !InTree(x, y.kids[j]);
      }
    }
  }

  lemma {:induction false} ClosedSettles(a: Arena, b: Building)
    requires Represents(a, b) && b.open != []
    ensures Holds(a, b.open[|b.open| - 1]) && Apart(Close(b), b.open[|b.open| - 1])
  {
    var m, b' := |b.open| - 1, Close(b);
    var y := b.open[m];
    assert SpineAt(a, b, m);
    assert forall i :: 0 <= i < |y.kids| ==> y.kids[i] in y.kids && Completed(b, y.kids[i]);
    InClosed(b, 0);
    forall i | 0 <= i < |b'.open| ensures !InTree(b'.open[i].id, y) {
      assert b'.open[i].id == b.open[i].id;
      InClosed(b, b.open[i].id);
    }
  }

  lemma {:induction false} CloseSpine(a: Arena, b: Building)
    requires Represents(a, b) && b.open != []
    ensures Spine(a, Close(b))
  {
    var m, b' := |b.open| - 1, Close(b);
    var y := b.open[m];
    if m == 0 {
      assert Ids(b.tops + [y]) == Ids(b.tops) + [y.id];
    } else {
      assert Ids(b.open[m - 1].kids + [y]) == Ids(b.open[m - 1].kids) + [y.id];
    }
    forall i | 0 <= i < |b'.open| ensures SpineAt(a, b', i) {
      assert SpineAt(a, b, i);
      assert b'.open[i].id == b.open[i].id;
    }
  }

  lemma {:induction false} CloseCompletes(b: Building, c: Tree)
    requires b.open != [] && Completed(Close(b), c) && c != b.open[|b.open| - 1]
    ensures Completed(b, c)
  {
    var b' := Close(b);
    if c !in b.tops {
      var i :| 0 <= i < |b'.open| && c in b'.open[i].kids;
      assert c in b.open[i].kids;
    }
  }

  lemma {:induction false} CloseRepresents(a: Arena, b: Building)
    requires Represents(a, b) && b.open != []
    ensures Represents(a, Close(b))
  {
    var b' := Close(b);
    CloseSpine(a, b);
    ClosedSettles(a, b);
    forall c | Completed(b', c) ensures Holds(a, c) && Apart(b', c) {
      if c != b.open[|b.open| - 1] {
        CloseCompletes(b, c);
        forall i | 0 <= i < |b'.open| ensures !InTree(b'.open[i].id, c) {
          assert b'.open[i].id == b.open[i].id;
        }
      }
    }
  }

  /** The last child of the innermost open element occurs in no other completed
      subtree, so its text can be extended in place. */
  lemma {:induction false} LastChildAlone(a: Arena, b: Building, c: Tree)
    requires Represents(a, b) && b.open != [] && HostKids(b) != []
    requires var x := HostKids(b)[|HostKids(b)| - 1]; Completed(b, c) && InTree(x.id, c)
    ensures c == HostKids(b)[|HostKids(b)| - 1]
  {
    var ks := HostKids(b);
    var n := |ks| - 1;
    HostRepresented(a, b);
    assert a.kids[Host(b)][n] == ks[n].id;
    assert Parent(a, ks[n].id) == Some(Host(b));
    var s :| s in Preorder(c) && s.id == ks[n].id;
    HoldsBelow(a, c, s);
    assert ks[n] in ks && Completed(b, ks[n]);
    SameId(a, s, ks[n]);
    if s != c {
      var p :| p in Preorder(c) && s in p.kids;
      UniqueParent(a, c, p, s);
      assert InTree(Host(b), c);
    }
  }

  lemma {:induction false} ExtendSpine(a: Arena, b: Building, s: string)
    requires Represents(a, b) && b.open != [] && HostKids(b) != []
    requires HostKids(b)[|HostKids(b)| - 1].kind.Text?
    ensures var x := HostKids(b)[|HostKids(b)| - 1];
            x.id in a.kind && Spine(Rekinded(a, x.id, Text(x.kind.text + s)), AddText(b, s))
  {
    var m, ks := |b.open| - 1, HostKids(b);
    var x := ks[|ks| - 1];
    assert x in ks && Completed(b, x);
    assert InTree(x.id, x) by { assert x in Preorder(x); }
    var b' := AddText(b, s);
    assert Ids(b'.open[m].kids) == Ids(ks);
    var a' := Rekinded(a, x.id, Text(x.kind.text + s));
    forall i | 0 <= i < |b'.open| ensures SpineAt(a', b', i) {
      assert SpineAt(a, b, i);
      assert b'.open[i].id == b.open[i].id && OpenBelow(b', i + 1) == OpenBelow(b, i + 1);
      assert b.open[i].id != x.id;
    }
  }

  /** What is completed after extending the last text: the text, and whatever
      else was completed before. */
  lemma {:induction false} ExtendCompletes(a: Arena, b: Building, s: string, c: Tree)
    requires Represents(a, b) && b.open != [] && HostKids(b) != []
    requires HostKids(b)[|HostKids(b)| - 1].kind.Text?
    requires Completed(AddText(b, s), c)
    ensures var x := HostKids(b)[|HostKids(b)| - 1];
            c == x.(kind := Text(x.kind.text + s)) || (Completed(b, c) && !InTree(x.id, c))
  {
    var m, ks, b' := |b.open| - 1, HostKids(b), AddText(b, s);
    var n := |ks| - 1;
    var x := ks[n];
    var x' := x.(kind := Text(x.kind.text + s));
    HostRepresented(a, b);
    assert SpineAt(a, b, m);
    assert Parent(a, a.kids[Host(b)][n]) == Some(Host(b)) && a.kids[Host(b)][n] == x.id;
    if c != x' {
      var holder, list := Held(a, b, s, c);
      if InTree(x.id, c) {
        LastChildAlone(a, b, c);
      }
    }
  }

  /** Where a subtree that is not the extended text is kept. */
  lemma {:induction false} Held(a: Arena, b: Building, s: string, c: Tree) returns (holder: Id, at: nat)
    requires Represents(a, b) && b.open != [] && HostKids(b) != []
    requires HostKids(b)[|HostKids(b)| - 1].kind.Text?
    requires Completed(AddText(b, s), c)
    requires var x := HostKids(b)[|HostKids(b)| - 1]; c != x.(kind := Text(x.kind.text + s))
    ensures Completed(b, c) && c != HostKids(b)[|HostKids(b)| - 1]
    ensures holder in a.kids && at < |a.kids[holder]| && a.kids[holder][at] == c.id
  {
    var m, ks, b' := |b.open| - 1, HostKids(b), AddText(b, s);
    var n := |ks| - 1;
    HostRepresented(a, b);
    assert a.kids[Host(b)][n] == ks[n].id && Parent(a, ks[n].id) == Some(Host(b));
    if c in b'.tops {
      at := IndexOf(b.tops, c);
      holder := 0;
    } else {
      var i :| 0 <= i < |b'.open| && c in b'.open[i].kids;
      assert SpineAt(a, b, i);
      at := IndexOf(b'.open[i].kids, c);
      holder := b.open[i].id;
      assert at != n || i != m;
      assert b.open[i].kids[at] == c && c in b.open[i].kids;
      if i == m { assert NoDup(a.kids[holder]) && a.kids[holder][at] != a.kids[holder][n]; }
    }
    assert Parent(a, a.kids[holder][at]) == Some(holder);
  }

  lemma {:induction false} RekindedLeaf(a: Arena, x: Tree, k: Kind)
    requires Holds(a, x)
    ensures Holds(Rekinded(a, x.id, k), x.(kind := k))
  {
    var a' := Rekinded(a, x.id, k);
    forall i | 0 <= i < |x.kids| ensures Holds(a', x.kids[i]) {
      forall s | s in Preorder(x.kids[i]) ensures s.id != x.id {
        HoldsBelow(a, x.kids[i], s);
        ForestSize(x.kids, i);
        if s.id == x.id { SameId(a, s, x); }
      }
      HoldsFrame(a, a', x.kids[i]);
    }
  }

  lemma {:induction false} SameInside(x: Tree, k: Kind, y: Id)
    ensures InTree(y, x.(kind := k)) ==> InTree(y, x)
  {
    var x' := x.(kind := k);
    if InTree(y, x') {
      var s :| s in Preorder(x') && s.id == y;
      if s == x' { assert x in Preorder(x); } else { assert s in Preorder(x); }
    }
  }

  lemma {:induction false} ExtendText(a: Arena, b: Building, s: string)
    requires Represents(a, b) && b.open != [] && HostKids(b) != []
    requires HostKids(b)[|HostKids(b)| - 1].kind.Text?
    ensures var x := HostKids(b)[|HostKids(b)| - 1];
            x.id in a.kind && Represents(Rekinded(a, x.id, Text(x.kind.text + s)), AddText(b, s))
  {
    var ks := HostKids(b);
    var x := ks[|ks| - 1];
    assert x in ks && Completed(b, x);
    var k := Text(x.kind.text + s);
    var a', b' := Rekinded(a, x.id, k), AddText(b, s);
    ExtendSpine(a, b, s);
    forall c | Completed(b', c) ensures Holds(a', c) && Apart(b', c) {
      ExtendCompletes(a, b, s, c);
      SameOpenIds(b, b', c);
      if c == x.(kind := k) {
        RekindedLeaf(a, x, k);
        forall y { SameInside(x, k, y); }
        assert Apart(b, x);
      } else {
        HoldsFrame(a, a', c);
      }
    }
  }
}
