/** What becomes of the copies of foreign elements once all new elements are placed. */
module PlacedCopies {
  import opened Prelude
  import opened Arena
  import opened Dom
  import opened Siblings
  import opened SiblingEdits
  import opened PairEdits
  import opened SubtreeCopy
  import opened NewElements
  import opened Adoption
  import opened Placement
  import opened Slices
  import LockStep

  /** `t` without the nodes of `gone` and the tails that follow them. */
  function Pruned(t: Tree, gone: set<Id>): Tree
    decreases t, 0
  {
    Node(t.id, t.kind, PrunedAll(t.kids, gone, false))
  }

  /** `after`: the text that comes first belongs to a node that has gone. */
  function PrunedAll(ts: seq<Tree>, gone: set<Id>, after: bool): seq<Tree>
    decreases ts, 1
  {
    if ts == [] then []
    else if ts[0].kind.Textual() then (if after then [] else [Pruned(ts[0], gone)]) + PrunedAll(ts[1..], gone, after)
    else (if ts[0].id in gone then [] else [Pruned(ts[0], gone)]) + PrunedAll(ts[1..], gone, ts[0].id in gone)
  }

  ghost predicate Kinded(kind: Kinds, ts: seq<Tree>) {
    forall i :: 0 <= i < |ts| ==> ts[i].id in kind && kind[ts[i].id] == ts[i].kind
  }

  /** What pruning leaves of a sibling list. */
  function ListLeft(kind: Kinds, ks: seq<Id>, gone: set<Id>, after: bool): seq<Id> {
    (if after then [] else Run(kind, ks)) + Flat(Keep(Pairs(kind, ks), gone))
  }

  lemma {:induction false} LeftText(kind: Kinds, n: Id, ks: seq<Id>, gone: set<Id>, after: bool)
    requires IsText(kind, n)
    ensures ListLeft(kind, [n] + ks, gone, after) == (if after then [] else [n]) + ListLeft(kind, ks, gone, after)
  {
    assert ([n] + ks)[1..] == ks;
  }

  lemma {:induction false} LeftContent(kind: Kinds, n: Id, ks: seq<Id>, gone: set<Id>, after: bool)
    requires !IsText(kind, n)
    ensures ListLeft(kind, [n] + ks, gone, after) == (if n in gone then [] else [n]) + ListLeft(kind, ks, gone, n in gone)
  {
    var pr, rest := Pair(n, Run(kind, ks)), Pairs(kind, ks);
    assert ([n] + ks)[1..] == ks && Pairs(kind, [n] + ks) == [pr] + rest && ([pr] + rest)[1..] == rest;
    KeepFirst(pr, rest, gone);
  }

  lemma {:induction false} KeepFirst(pr: Pair, rest: seq<Pair>, gone: set<Id>)
    ensures Flat(Keep([pr] + rest, gone)) == (if pr.node in gone then [] else [pr.node] + pr.tail) + Flat(Keep(rest, gone))
  {
    assert ([pr] + rest)[1..] == rest;
    if pr.node in gone {
      assert [] + Keep(rest, gone) == Keep(rest, gone);
    } else {
      assert ([pr] + Keep(rest, gone))[1..] == Keep(rest, gone);
    }
  }

  /** Pruning a forest drops pairs from its sibling list. */
  lemma {:induction false} PrunedIds(kind: Kinds, ts: seq<Tree>, gone: set<Id>, after: bool)
    requires Kinded(kind, ts)
    ensures Ids(PrunedAll(ts, gone, after)) == ListLeft(kind, Ids(ts), gone, after)
  {
    if ts != [] {
      var head, rest := ts[0], ts[1..];
      assert Ids(ts) == [head.id] + Ids(rest);
      if head.kind.Textual() {
        PrunedIds(kind, rest, gone, after);
        LeftText(kind, head.id, Ids(rest), gone, after);
        IdsCons(if after then [] else [Pruned(head, gone)], PrunedAll(rest, gone, after));
      } else {
        PrunedIds(kind, rest, gone, head.id in gone);
        LeftContent(kind, head.id, Ids(rest), gone, after);
        IdsCons(if head.id in gone then [] else [Pruned(head, gone)], PrunedAll(rest, gone, head.id in gone));
      }
    }
  }

  lemma {:induction false} IdsCons(xs: seq<Tree>, ys: seq<Tree>)
    ensures Ids(xs + ys) == Ids(xs) + Ids(ys)
  {
  }

  /** Where every list has lost the nodes of `gone`, the arena holds the pruned tree. */
  lemma {:induction false} PrunedHeld(a1: Arena, a: Arena, a0: Arena, p: Id, gone: set<Id>, c: Tree)
    requires Wf(a0) && p in a0.kids && a.kind == a1.kind && OthersLose(a1, a, p, gone) && Holds(a1, c) && FreshTree(a0, c)
    ensures Holds(a, Pruned(c, gone))
    decreases c, 0
  {
    ListPruned(a1, a, p, gone, c);
    PrunedForest(a1, a, a0, p, gone, c.kids, false);
  }

  lemma {:induction false} ListPruned(a1: Arena, a: Arena, p: Id, gone: set<Id>, c: Tree)
    requires a.kind == a1.kind && OthersLose(a1, a, p, gone) && Holds(a1, c) && c.id != p
    ensures c.id in a.kids && a.kids[c.id] == Ids(PrunedAll(c.kids, gone, false))
  {
    assert Loses(a1, a, c.id, gone);
    Rebuilt(a.kind, a.kids[c.id]);
    KindsOfKids(a1, c);
    PrunedIds(a1.kind, c.kids, gone, false);
  }

  lemma {:induction false} KindsOfKids(a: Arena, c: Tree)
    requires Holds(a, c)
    ensures Kinded(a.kind, c.kids)
  {
  }

  lemma {:induction false} PrunedForest(a1: Arena, a: Arena, a0: Arena, p: Id, gone: set<Id>, ts: seq<Tree>, after: bool)
    requires Wf(a0) && p in a0.kids && a.kind == a1.kind && OthersLose(a1, a, p, gone)
    requires forall i :: 0 <= i < |ts| ==> Holds(a1, ts[i]) && FreshTree(a0, ts[i])
    ensures HoldsAll(a, PrunedAll(ts, gone, after))
    decreases ts, 1
  {
    if ts != [] {
      PrunedHeld(a1, a, a0, p, gone, ts[0]);
      PrunedForest(a1, a, a0, p, gone, ts[1..], if ts[0].kind.Textual() then after else ts[0].id in gone);
    }
  }

  lemma {:induction false} NothingPruned(c: Tree, gone: set<Id>)
    requires forall path :: LockStep.At(c, path).Some? ==> LockStep.At(c, path).value.id !in gone
    ensures Pruned(c, gone) == c
    decreases c, |c.kids| + 1
  {
    NonePruned(c, gone, 0);
    assert c.kids[0..] == c.kids;
  }

  lemma {:induction false} NonePruned(c: Tree, gone: set<Id>, i: nat)
    requires i <= |c.kids| && forall path :: LockStep.At(c, path).Some? ==> LockStep.At(c, path).value.id !in gone
    ensures PrunedAll(c.kids[i..], gone, false) == c.kids[i..]
    decreases c, |c.kids| - i
  {
    if i < |c.kids| {
      var kid := c.kids[i];
      forall path | LockStep.At(kid, path).Some? ensures LockStep.At(kid, path).value.id !in gone {
        assert ([i] + path)[1..] == path;
        assert LockStep.At(c, [i] + path) == LockStep.At(kid, path);
      }
      NothingPruned(kid, gone);
      assert LockStep.At(kid, []) == Some(kid);
      NonePruned(c, gone, i + 1);
      assert c.kids[i..][0] == kid && c.kids[i..][1..] == c.kids[i + 1..];
    }
  }

  /** Only what the list names as inner elements leaves a copy. */
  lemma {:induction false} Stays(k: Intake, j: nat, path: seq<nat>)
    requires k.Sound() && j < |k.prs| == |k.els| && k.els[j].Foreign? && k.copies[j].Some?
    requires forall i :: 0 <= i < |k.els| && k.els[i].Inner? ==> k.els[i].at != j
    requires LockStep.At(k.copies[j].value, path).Some?
    ensures LockStep.At(k.copies[j].value, path).value.id !in k.Moved()
  {
    var n := LockStep.At(k.copies[j].value, path).value.id;
    assert k.Took(j);
    FreshAt(k.a0, k.copies[j].value, path);
    forall i | 0 <= i < |k.prs| && !k.els[i].Foreign? ensures k.prs[i].node != n {
      assert k.Took(i) && Usable(k.a0, k.els, i);
      if k.els[i].Inner? && k.prs[i].node == n {
        InnerNode(k, k.els[i].at, k.els[i].path, i);
        CopyNodes(k, k.els[i].at, k.els[i].path, j, path);
      }
    }
  }

  /** After an assignment the document holds, for every foreign element, an equal
      copy without the inner elements that moved out of it; the whole copy if the
      list names none. */
  lemma {:induction false} CopiesInPlace(k: Intake, a: Arena, p: Id, now: seq<Pair>, j: nat)
    requires k.Complete() && Assigned(k, a, p, now) && p in k.a0.kids && j < |k.els| && k.els[j].Foreign?
    ensures k.copies[j].Some? && k.copies[j].value.id == k.prs[j].node
    ensures Copy(k.els[j].tree, k.copies[j].value) && Holds(a, Pruned(k.copies[j].value, k.Moved()))
    ensures (forall i :: 0 <= i < |k.els| && k.els[i].Inner? ==> k.els[i].at != j) ==> Holds(a, k.copies[j].value)
  {
    assert k.Took(j);
    var c := k.copies[j].value;
    PrunedHeld(k.a1, a, k.a0, p, k.Moved(), c);
    if forall i :: 0 <= i < |k.els| && k.els[i].Inner? ==> k.els[i].at != j {
      forall path | LockStep.At(c, path).Some? ensures LockStep.At(c, path).value.id !in k.Moved() { Stays(k, j, path); }
      NothingPruned(c, k.Moved());
    }
  }
}
