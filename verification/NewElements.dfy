/** New elements for a child list, and what a document has taken in of them. */
module NewElements {
  import opened Prelude
  import opened Arena
  import opened Siblings
  import opened SiblingEdits
  import opened PairEdits
  import opened SubtreeCopy
  import LockStep

  /** A new element: a node of this document; a node of another one, given by the
      subtree and the tail run that import reads; or a node that used to lie at the
      child path `path` below the foreign element `at` of the same list. When that
      one comes in, the wrapper of the inner one is re-pointed, so that it is then
      a node of this document: the copy's node at the same path. */
  datatype NewEl = Own(node: Id) | Foreign(home: nat, tree: Tree, tail: seq<Kind>) | Inner(at: nat, path: seq<nat>)

  ghost predicate Usable(a: Arena, els: seq<NewEl>, j: nat)
    requires j < |els|
  {
    match els[j]
    case Own(n) => Content(a, n)
    case Foreign(_, t, ts) => !t.kind.Textual() && forall i :: 0 <= i < |ts| ==> ts[i].Textual()
    case Inner(at, path) =>
      && at < j && els[at].Foreign? && path != []
      && LockStep.At(els[at].tree, path).Some? && !LockStep.At(els[at].tree, path).value.kind.Textual()
  }

  /** No element twice; a foreign one inside an earlier one is listed as inner. */
  ghost predicate Distinct(els: seq<NewEl>) {
    && (forall i, j :: 0 <= i < j < |els| && !els[i].Foreign? ==> els[i] != els[j])
    && (forall i, j :: 0 <= i < j < |els| && els[i].Foreign? && els[j].Foreign? && els[i].home == els[j].home ==>
          Outside(els[i].tree, els[j].tree.id))
  }

  ghost predicate Outside(t: Tree, n: Id) {
    forall u :: u in Preorder(t) ==> u.id != n
  }

  ghost predicate Acceptable(a: Arena, els: seq<NewEl>) {
    Distinct(els) && forall j :: 0 <= j < |els| ==> Usable(a, els, j)
  }

  /** One element on its own is acceptable if it can be used at all. */
  lemma {:induction false} OneAcceptable(a: Arena, el: NewEl)
    requires Usable(a, [el], 0)
    ensures Acceptable(a, [el])
  {
  }

  function OwnIds(els: seq<NewEl>): (r: set<Id>)
    ensures forall n :: n in r <==> Own(n) in els
  {
    if els == [] then {}
    else
      var last := els[|els| - 1];
      assert forall e :: e in els <==> e in els[..|els| - 1] || e == last;
      OwnIds(els[..|els| - 1]) + if last.Own? then {last.node} else {}
  }

  ghost predicate FreshTree(a: Arena, c: Tree) {
    c.id !in a.kind && forall i :: 0 <= i < |c.kids| ==> FreshTree(a, c.kids[i])
  }

  ghost predicate NewRun(a0: Arena, a: Arena, ts: seq<Kind>, ns: seq<Id>) {
    |ns| == |ts| && forall i :: 0 <= i < |ns| ==> ns[i] !in a0.kind && ns[i] in a.kind && a.kind[ns[i]] == ts[i]
  }

  /** A detached copy `c` of `t` and a copy of the text run `ts`, made of nodes
      that `a0` did not have. */
  ghost predicate Cloned(a0: Arena, a: Arena, t: Tree, ts: seq<Kind>, c: Tree, pr: Pair) {
    && Holds(a, c) && c.id == pr.node && c.id !in a.parent && Copy(t, c) && FreshTree(a0, c)
    && NewRun(a0, a, ts, pr.tail)
  }

  /** The node of this document that an element is, once `copies` have come in. */
  function NodeOf(el: NewEl, copies: seq<Option<Tree>>): Option<Id> {
    match el
    case Own(n) => Some(n)
    case Foreign(_, _, _) => None
    case Inner(at, path) =>
      if at < |copies| && copies[at].Some? && LockStep.At(copies[at].value, path).Some?
      then Some(LockStep.At(copies[at].value, path).value.id)
      else None
  }

  /** What has been taken in: of the elements `els`, the first `|prs|` have become
      the pairs `prs`. `a1` is the document `a0` with the copies that were made,
      before anything was moved. */
  datatype Intake = Intake(a0: Arena, els: seq<NewEl>, a1: Arena, copies: seq<Option<Tree>>, prs: seq<Pair>) {
    ghost predicate Sound() {
      && Wf(a0) && Wf(a1) && Extends(a0, a1) && Acceptable(a0, els)
      && |copies| == |prs| <= |els| && NoDup(Nodes(prs))
      && forall j :: 0 <= j < |prs| ==> Took(j)
    }

    /** An element of this document comes with its tail, a foreign one as a copy. */
    ghost predicate Took(j: nat)
      requires j < |prs| && |copies| == |prs| <= |els|
    {
      match els[j]
      case Foreign(_, t, ts) => copies[j].Some? && Cloned(a0, a1, t, ts, copies[j].value, prs[j])
      case _ => copies[j].None? && NodeOf(els[j], copies) == Some(prs[j].node) && prs[j].tail == Tail(a1, prs[j].node)
    }

    ghost predicate Complete() {
      Sound() && |prs| == |els|
    }

    ghost predicate Of(a: Arena, els: seq<NewEl>) {
      Complete() && a0 == a && this.els == els
    }

    /** The nodes that are taken from their place, in this document or in a copy. */
    function Moved(): set<Id> {
      set j | 0 <= j < |prs| && j < |els| && !els[j].Foreign? :: prs[j].node
    }

    function With(a: Arena, copy: Option<Tree>, pr: Pair): Intake {
      Intake(a0, els, a, copies + [copy], prs + [pr])
    }
  }

  /** What was taken in is detached, and `gone` has left the lists. */
  ghost predicate Ready(k: Intake, a: Arena, gone: set<Id>) {
    && k.Sound() && a.kind == k.a1.kind && Dropped(k.a1, a, gone)
    && Proper(a.kind, k.prs) && Loose(a, Flat(k.prs))
  }

  // ------------------------------------------------------------------
  // Growing documents
  // ------------------------------------------------------------------

  lemma {:induction false} HeldStays(a: Arena, b: Arena, c: Tree)
    requires Holds(a, c) && Extends(a, b)
    ensures Holds(b, c)
    decreases c
  {
    forall i | 0 <= i < |c.kids| ensures Holds(b, c.kids[i]) { HeldStays(a, b, c.kids[i]); }
  }

  lemma {:induction false} ListStays(a: Arena, b: Arena, q: Id)
    requires Wf(a) && Extends(a, b) && q in a.kids
    ensures Lead(b, q) == Lead(a, q) && Children(b, q) == Children(a, q)
  {
    KindsFrame(a.kind, b.kind, a.kids[q]);
  }

  lemma {:induction false} TailStays(a: Arena, b: Arena, n: Id)
    requires Wf(a) && Extends(a, b) && n in a.kind
    ensures Tail(b, n) == Tail(a, n)
  {
    if n in a.parent {
      var ks := a.kids[a.parent[n]];
      assert Kids(b, a.parent[n]) == ks && Following(b, n) == Following(a, n);
      assert forall i :: 0 <= i < |Following(a, n)| ==> Following(a, n)[i] == ks[IndexOf(ks, n) + 1 + i];
      KindsFrame(a.kind, b.kind, Following(a, n));
    }
  }

  lemma {:induction false} ClonedStays(a0: Arena, a: Arena, b: Arena, t: Tree, ts: seq<Kind>, c: Tree, pr: Pair)
    requires Cloned(a0, a, t, ts, c, pr) && Extends(a, b)
    ensures Cloned(a0, b, t, ts, c, pr)
  {
    HeldStays(a, b, c);
  }

  lemma {:induction false} FreshEarlier(a0: Arena, a: Arena, c: Tree)
    requires FreshTree(a, c) && forall x :: x in a0.kind ==> x in a.kind
    ensures FreshTree(a0, c)
    decreases c
  {
    forall i | 0 <= i < |c.kids| ensures FreshTree(a0, c.kids[i]) { FreshEarlier(a0, a, c.kids[i]); }
  }

  // ------------------------------------------------------------------
  // Nodes of copies
  // ------------------------------------------------------------------

  lemma {:induction false} CopyAt(t: Tree, c: Tree, path: seq<nat>)
    requires Copy(t, c) && LockStep.At(t, path).Some?
    ensures LockStep.At(c, path).Some? && LockStep.At(c, path).value.kind == LockStep.At(t, path).value.kind
    decreases |path|
  {
    if path != [] { CopyAt(t.kids[path[0]], c.kids[path[0]], path[1..]); }
  }

  lemma {:induction false} FreshAt(a: Arena, c: Tree, path: seq<nat>)
    requires FreshTree(a, c) && LockStep.At(c, path).Some?
    ensures LockStep.At(c, path).value.id !in a.kind
    decreases |path|
  {
    if path != [] { FreshAt(a, c.kids[path[0]], path[1..]); }
  }

  /** An inner element has become a node of a copy: new, but not a copy's root. */
  lemma {:induction false} InnerNode(k: Intake, at: nat, path: seq<nat>, j: nat)
    requires k.Sound() && j < |k.els| && k.els[j] == Inner(at, path) && at < |k.prs|
    ensures k.els[at].Foreign? && k.copies[at].Some? && LockStep.At(k.copies[at].value, path).Some?
    ensures var n := NodeOf(k.els[j], k.copies);
      n.Some? && Content(k.a1, n.value) && n.value !in k.a0.kind && n == Some(LockStep.At(k.copies[at].value, path).value.id)
  {
    assert Usable(k.a0, k.els, j) && k.Took(at);
    var c := k.copies[at].value;
    CopyAt(k.els[at].tree, c, path);
    FreshAt(k.a0, c, path);
    LockStep.HeldAt(k.a1, c, path);
  }

  /** Nodes of two copies are the same only if copy and path are. */
  lemma {:induction false} CopyNodes(k: Intake, at: nat, path: seq<nat>, at': nat, path': seq<nat>)
    requires k.Sound() && at < |k.prs| && at' < |k.prs| && k.els[at].Foreign? && k.els[at'].Foreign?
    requires k.copies[at].Some? && LockStep.At(k.copies[at].value, path).Some?
    requires k.copies[at'].Some? && LockStep.At(k.copies[at'].value, path').Some?
    requires LockStep.At(k.copies[at].value, path).value.id == LockStep.At(k.copies[at'].value, path').value.id
    ensures at == at' && path == path'
  {
    assert k.Took(at) && k.Took(at');
    LockStep.OnePath(k.a1, k.copies[at].value, k.copies[at'].value, path, path');
    assert Nodes(k.prs)[at] == Nodes(k.prs)[at'];
  }

  /** An element of this document that is still to come is none of those taken in. */
  lemma {:induction false} OwnIsOther(k: Intake, i: nat, n: Id)
    requires k.Sound() && i < |k.prs| < |k.els| && k.els[|k.prs|] == Own(n)
    ensures n in k.a0.kind && n != k.prs[i].node
  {
    assert Usable(k.a0, k.els, |k.prs|) && k.Took(i);
    match k.els[i]
    case Own(m) =>
    case Foreign(_, _, _) =>
    case Inner(at, path) =>
      assert Usable(k.a0, k.els, i);
      InnerNode(k, at, path, i);
  }

  lemma {:induction false} InnerIsOther(k: Intake, i: nat, at: nat, path: seq<nat>)
    requires k.Sound() && i < |k.prs| < |k.els| && k.els[|k.prs|] == Inner(at, path) && at < |k.prs|
    ensures NodeOf(k.els[|k.prs|], k.copies) != Some(k.prs[i].node)
  {
    assert Usable(k.a0, k.els, |k.prs|) && Usable(k.a0, k.els, i) && k.Took(i);
    InnerNode(k, at, path, |k.prs|);
    if NodeOf(k.els[|k.prs|], k.copies) == Some(k.prs[i].node) {
      match k.els[i]
      case Own(m) =>
      case Foreign(_, _, _) => CopyNodes(k, at, path, i, []);
      case Inner(at', path') =>
        InnerNode(k, at', path', i);
        CopyNodes(k, at, path, at', path');
    }
  }

  /** The next element, if it is a node of this document by now: a content node
      that has not been taken in yet. */
  lemma {:induction false} NextNode(k: Intake)
    requires k.Sound() && |k.prs| < |k.els| && !k.els[|k.prs|].Foreign?
    ensures var n := NodeOf(k.els[|k.prs|], k.copies);
      n.Some? && Content(k.a1, n.value) && n.value !in Nodes(k.prs) && n.value !in k.Moved()
  {
    var el := k.els[|k.prs|];
    assert Usable(k.a0, k.els, |k.prs|);
    if el.Inner? { InnerNode(k, el.at, el.path, |k.prs|); }
    var n := NodeOf(el, k.copies).value;
    forall i | 0 <= i < |k.prs| ensures k.prs[i].node != n {
      if el.Own? { OwnIsOther(k, i, n); } else { InnerIsOther(k, i, el.at, el.path); }
    }
  }

  // ------------------------------------------------------------------
  // Taking in one more
  // ------------------------------------------------------------------

  lemma {:induction false} TookStays(k: Intake, b: Arena, copy: Option<Tree>, pr: Pair, j: nat)
    requires k.Sound() && Wf(b) && Extends(k.a1, b) && j < |k.prs| < |k.els|
    ensures k.With(b, copy, pr).Took(j)
  {
    var el := k.els[j];
    assert k.Took(j);
    if el.Foreign? {
      ClonedStays(k.a0, k.a1, b, el.tree, el.tail, k.copies[j].value, k.prs[j]);
    } else {
      TookIsKnown(k, j);
      TailStays(k.a1, b, k.prs[j].node);
    }
  }

  lemma {:induction false} TookIsKnown(k: Intake, j: nat)
    requires k.Sound() && j < |k.prs| && !k.els[j].Foreign?
    ensures k.prs[j].node in k.a1.kind && NodeOf(k.els[j], k.copies) == Some(k.prs[j].node)
    ensures k.els[j].Inner? ==> k.els[j].at < j
  {
    assert Usable(k.a0, k.els, j) && k.Took(j);
    if k.els[j].Inner? { InnerNode(k, k.els[j].at, k.els[j].path, j); }
  }

  lemma {:induction false} OneMore(k: Intake, b: Arena, copy: Option<Tree>, pr: Pair)
    requires k.Sound() && Wf(b) && Extends(k.a1, b) && |k.prs| < |k.els|
    requires pr.node !in Nodes(k.prs) && k.With(b, copy, pr).Took(|k.prs|)
    ensures k.With(b, copy, pr).Sound()
    ensures k.With(b, copy, pr).Moved() == k.Moved() + if k.els[|k.prs|].Foreign? then {} else {pr.node}
  {
    var k' := k.With(b, copy, pr);
    ExtendsTwice(k.a0, k.a1, b);
    forall j | 0 <= j < |k'.prs| ensures k'.Took(j) {
      if j < |k.prs| { TookStays(k, b, copy, pr, j); }
    }
    NoDupConcat(Nodes(k.prs), [pr.node]);
    assert Nodes(k'.prs) == Nodes(k.prs) + [pr.node];
    MovedMore(k, b, copy, pr);
  }

  lemma {:induction false} MovedMore(k: Intake, b: Arena, copy: Option<Tree>, pr: Pair)
    requires |k.prs| < |k.els|
    ensures k.With(b, copy, pr).Moved() == k.Moved() + if k.els[|k.prs|].Foreign? then {} else {pr.node}
  {
    var k' := k.With(b, copy, pr);
    forall n ensures n in k'.Moved() <==> n in k.Moved() || (!k.els[|k.prs|].Foreign? && n == pr.node) {
      if n in k.Moved() {
        var j :| 0 <= j < |k.prs| && !k.els[j].Foreign? && k.prs[j].node == n;
        assert k'.prs[j].node == n;
      }
      if n == pr.node { assert k'.prs[|k.prs|].node == n; }
    }
  }

  /** Of the nodes that were here before, exactly the listed ones are taken in. */
  lemma {:induction false} OldNodes(k: Intake, n: Id)
    requires k.Sound() && |k.prs| == |k.els| && n in k.a0.kind
    ensures n in Nodes(k.prs) <==> n in OwnIds(k.els)
    ensures n in k.Moved() <==> n in OwnIds(k.els)
  {
    forall j | 0 <= j < |k.prs| ensures k.prs[j].node == n <==> k.els[j] == Own(n) {
      assert k.Took(j) && Usable(k.a0, k.els, j);
      if k.els[j].Inner? { InnerNode(k, k.els[j].at, k.els[j].path, j); }
    }
    if n in OwnIds(k.els) {
      var j :| 0 <= j < |k.els| && k.els[j] == Own(n);
      assert Nodes(k.prs)[j] == n;
    }
  }
}
