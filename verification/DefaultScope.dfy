/** Which default namespace is in effect where, by the path to a node, and what
    the walks of `BareNames` answer in those terms. */
module DefaultScope {
  import opened Prelude
  import opened Arena
  import opened LockStep
  import opened Declarations
  import opened BareNames

  /** The default that a list of declarations puts in effect is that of its last
      `xmlns`: none if it has none, reset by an empty URI. */
  lemma {:induction false} DefaultIsLastDeclared(ds: seq<Decl>)
    ensures DeclaredDefault(ds).None? <==> FindLast(ds, "").None?
    ensures DeclaredDefault(ds) == Some(None) <==> FindLast(ds, "") == Some("")
    ensures forall u :: DeclaredDefault(ds) == Some(Some(u)) <==> FindLast(ds, "") == Some(u) && u != ""
  {
    if ds != [] {
      DefaultIsLastDeclared(ds[..|ds| - 1]);
    }
  }

  /** `xmlns=""` stops an outer default, `xmlns="u"` replaces it. */
  lemma {:induction false} OwnDefaultDecides(t: Tree, x: Option<string>, u: string)
    requires t.kind.Element? && FindLast(t.kind.decls, "") == Some(u)
    ensures u == "" ==> Bare(t, x) == Bare(t, None) && Changes(t, x) == Changes(t, None)
    ensures u != "" ==> Bare(t, x) == Bare(t, Some(u)) && Changes(t, x) == Changes(t, Some(u))
  {
    DefaultIsLastDeclared(t.kind.decls);
  }

  // ------------------------------------------------------------------
  // By the path
  // ------------------------------------------------------------------

  function OwnDecls(k: Kind): seq<Decl> {
    if k.Element? then k.decls else []
  }

  /** The declarations on the way to a node, the node itself first. */
  function Along(t: Tree, path: seq<nat>): seq<seq<Decl>>
    decreases |path|
  {
    if path == [] || path[0] >= |t.kids| then [OwnDecls(t.kind)]
    else Along(t.kids[path[0]], path[1..]) + [OwnDecls(t.kind)]
  }

  /** The default namespace in effect at a node: that of the nearest `xmlns` on
      the way to it, none if that one is empty. */
  function DefaultAt(t: Tree, path: seq<nat>, inherited: Option<string>): Option<string> {
    match Latest(Along(t, path), "")
    case Some(u) => if u == "" then None else Some(u)
    case None => inherited
  }

  /** All nodes from `t` to the end of the path are elements. */
  ghost predicate ThroughElements(t: Tree, path: seq<nat>)
    decreases |path|
  {
    t.kind.Element? && (path != [] ==> path[0] < |t.kids| && ThroughElements(t.kids[path[0]], path[1..]))
  }

  /** At the end of the path stands element `id`, which has neither a prefix nor a
      namespace, while the default namespace there is `u`. */
  ghost predicate Reinterpreted(t: Tree, path: seq<nat>, inherited: Option<string>, id: Id, u: string) {
    && ThroughElements(t, path) && DefaultAt(t, path, inherited) == Some(u)
    && At(t, path).Some? && At(t, path).value.id == id
    && At(t, path).value.kind.Element?
    && At(t, path).value.kind.name.prefix.None? && At(t, path).value.kind.name.ns.None?
  }

  lemma {:induction false} LatestSnoc(levels: seq<seq<Decl>>, ds: seq<Decl>, p: string)
    ensures Latest(levels + [ds], p) == OrElse(Latest(levels, p), FindLast(ds, p))
  {
    if levels != [] {
      assert (levels + [ds])[0] == levels[0] && (levels + [ds])[1..] == levels[1..] + [ds];
      LatestSnoc(levels[1..], ds, p);
    } else {
      assert levels + [ds] == [ds];
      assert [ds][1..] == [];
    }
  }

  /** One step down the path: the kid inherits what is in effect inside `t`. */
  lemma {:induction false} DefaultBelow(t: Tree, path: seq<nat>, inherited: Option<string>)
    requires t.kind.Element? && path != [] && path[0] < |t.kids|
    ensures DefaultAt(t, path, inherited) == DefaultAt(t.kids[path[0]], path[1..], Inside(t.kind, inherited))
  {
    LatestSnoc(Along(t.kids[path[0]], path[1..]), t.kind.decls, "");
    DefaultIsLastDeclared(t.kind.decls);
  }

  lemma {:induction false} DefaultHere(t: Tree, inherited: Option<string>)
    requires t.kind.Element?
    ensures DefaultAt(t, [], inherited) == Inside(t.kind, inherited)
  {
    assert Along(t, []) == [t.kind.decls];
    assert Along(t, [])[1..] == [];
    assert Latest(Along(t, [])[1..], "") == None;
    DefaultIsLastDeclared(t.kind.decls);
  }

  lemma {:induction false} ReinterpretedBelow(t: Tree, path: seq<nat>, inherited: Option<string>, id: Id, u: string)
    requires t.kind.Element? && path != [] && path[0] < |t.kids|
    ensures Reinterpreted(t, path, inherited, id, u)
      <==> Reinterpreted(t.kids[path[0]], path[1..], Inside(t.kind, inherited), id, u)
  {
    DefaultBelow(t, path, inherited);
  }

  /** A listed name is found along some path. */
  lemma {:induction false} ListedHasPath(t: Tree, inherited: Option<string>, id: Id, u: string) returns (path: seq<nat>)
    requires (id, u) in Changes(t, inherited)
    ensures Reinterpreted(t, path, inherited, id, u)
    decreases t, 0
  {
    var d := Inside(t.kind, inherited);
    if (id, u) in OwnChange(t, d) {
      path := [];
      DefaultHere(t, inherited);
    } else {
      var i, below := ListedBelow(t.kids, d, id, u);
      path := [i] + below;
      assert path[1..] == below;
      ReinterpretedBelow(t, path, inherited, id, u);
    }
  }

  lemma {:induction false} ListedBelow(ts: seq<Tree>, d: Option<string>, id: Id, u: string) returns (i: nat, path: seq<nat>)
    requires (id, u) in ChangesFromLast(ts, d)
    ensures i < |ts| && Reinterpreted(ts[i], path, d, id, u)
    decreases ts, 1
  {
    i := |ts| - 1;
    if (id, u) in Changes(ts[i], d) {
      path := ListedHasPath(ts[i], d, id, u);
    } else {
      i, path := ListedBelow(ts[..i], d, id, u);
    }
  }

  /** What stands at a path is listed. */
  lemma {:induction false} PathIsListed(t: Tree, path: seq<nat>, inherited: Option<string>, id: Id, u: string)
    requires Reinterpreted(t, path, inherited, id, u)
    ensures (id, u) in Changes(t, inherited)
    decreases |path|
  {
    var d := Inside(t.kind, inherited);
    if path == [] {
      DefaultHere(t, inherited);
      assert OwnChange(t, d) == [(id, u)];
    } else {
      ReinterpretedBelow(t, path, inherited, id, u);
      PathIsListed(t.kids[path[0]], path[1..], d, id, u);
      KidIsListed(t.kids, path[0], d, (id, u));
    }
  }

  lemma {:induction false} KidIsListed(ts: seq<Tree>, i: nat, d: Option<string>, e: (Id, string))
    requires i < |ts| && e in Changes(ts[i], d)
    ensures e in ChangesFromLast(ts, d)
  {
    if i < |ts| - 1 {
      KidIsListed(ts[..|ts| - 1], i, d, e);
    }
  }

  /** Validation lists an element with a URI exactly if the element has a bare name
      and that URI is the default in effect there; the check answers whether there
      is one. */
  lemma {:induction false} WalksReadPaths(t: Tree, inherited: Option<string>)
    ensures forall id: Id, u: string :: (id, u) in Changes(t, inherited) <==> exists path :: Reinterpreted(t, path, inherited, id, u)
    ensures Bare(t, inherited) <==> exists path: seq<nat>, id: Id, u: string :: Reinterpreted(t, path, inherited, id, u)
  {
    forall id: Id, u: string ensures (id, u) in Changes(t, inherited) <==> exists path :: Reinterpreted(t, path, inherited, id, u) {
      if (id, u) in Changes(t, inherited) {
        var path := ListedHasPath(t, inherited, id, u);
      }
      if path :| Reinterpreted(t, path, inherited, id, u) {
        PathIsListed(t, path, inherited, id, u);
      }
    }
    ChangesIffBare(t, inherited);
    if Changes(t, inherited) != [] {
      var e := Changes(t, inherited)[0];
      var path := ListedHasPath(t, inherited, e.0, e.1);
    } else if path: seq<nat>, id: Id, u: string :| Reinterpreted(t, path, inherited, id, u) {
      PathIsListed(t, path, inherited, id, u);
    }
  }

  // ------------------------------------------------------------------
  // Each once
  // ------------------------------------------------------------------

  function Listed(es: seq<(Id, string)>): (r: seq<Id>)
    ensures |r| == |es| && forall i :: 0 <= i < |es| ==> r[i] == es[i].0
  {
    seq(|es|, i requires 0 <= i < |es| => es[i].0)
  }

  lemma {:induction false} ListedAmongNodes(t: Tree, inherited: Option<string>)
    ensures multiset(Listed(Changes(t, inherited))) <= multiset(Ids(Preorder(t)))
    decreases t, 0
  {
    var d := Inside(t.kind, inherited);
    var kids := Changes(t, inherited);
    if t.kind.Element? {
      ListedAmongForest(t.kids, d);
      ListedConcat(OwnChange(t, d), ChangesFromLast(t.kids, d));
      IdsConcat([t], PreorderAll(t.kids));
      assert Ids([t]) == [t.id];
    }
  }

  lemma {:induction false} ListedAmongForest(ts: seq<Tree>, d: Option<string>)
    ensures multiset(Listed(ChangesFromLast(ts, d))) <= multiset(Ids(PreorderAll(ts)))
    decreases ts, 1
  {
    if ts != [] {
      var front, last := ts[..|ts| - 1], ts[|ts| - 1];
      ListedAmongNodes(last, d);
      ListedAmongForest(front, d);
      ListedConcat(Changes(last, d), ChangesFromLast(front, d));
      assert front + [last] == ts && PreorderAll([last]) == Preorder(last);
      PreorderConcat(front, [last]);
      IdsConcat(PreorderAll(front), Preorder(last));
    }
  }

  lemma {:induction false} ListedConcat(xs: seq<(Id, string)>, ys: seq<(Id, string)>)
    ensures Listed(xs + ys) == Listed(xs) + Listed(ys)
  {
  }

  lemma {:induction false} IdsConcat(xs: seq<Tree>, ys: seq<Tree>)
    ensures Ids(xs + ys) == Ids(xs) + Ids(ys)
  {
  }

  /** In a document no element is listed twice. */
  lemma {:induction false} ListedOnce(a: Arena, t: Tree, inherited: Option<string>)
    requires Wf(a) && Holds(a, t)
    ensures NoDup(Listed(Changes(t, inherited)))
  {
    ListedAmongNodes(t, inherited);
    DistinctNodes(a, t);
    OnceAtMost(Listed(Changes(t, inherited)), Ids(Preorder(t)));
  }
}
