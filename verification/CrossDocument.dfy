/** Importing an element from another document: an equal copy of the element and
    of its tail, with the namespaces that were in scope. */
module CrossDocument {
  import opened Prelude
  import opened Arena
  import opened Dom
  import opened Siblings
  import opened SiblingEdits
  import opened PairEdits
  import opened SubtreeCopy
  import opened NewElements
  import opened Adoption
  import opened Declarations
  import opened NamespaceScope

  datatype Imported = Imported(node: Id) | SameDocument | NotImportable

  function PushDecls(k: Kind, ds: seq<Decl>): Kind {
    if k.Element? then Element(k.name, k.attrs, k.decls + ds) else k
  }

  /** `t` with `ds` declared on its root as well. */
  function Redeclared(t: Tree, ds: seq<Decl>): Tree {
    Node(t.id, PushDecls(t.kind, ds), t.kids)
  }

  /** The root of the copy keeps its name and its attributes and declares `ds` after
      its own declarations; below it everything is as it was. */
  ghost predicate KeepsContent(t: Tree, c: Tree, ds: seq<Decl>) {
    && EraseAll(c.kids) == EraseAll(t.kids)
    && c.kind == if t.kind.Element? then Element(t.kind.name, t.kind.attrs, t.kind.decls + ds) else t.kind
  }

  lemma {:induction false} RedeclaringKeeps(t: Tree, c: Tree, ds: seq<Decl>)
    requires Copy(Redeclared(t, ds), c)
    ensures KeepsContent(t, c, ds)
  {
    var r := Redeclared(t, ds);
    assert Erase(r).kind == Erase(c).kind && Erase(r).kids == Erase(c).kids;
  }

  method ReadTree(a: Arena, s: Id, ghost t: Tree) returns (r: Tree)
    requires Holds(a, t) && t.id == s
    ensures r == t
    decreases t
  {
    var kids: seq<Tree> := [];
    for i := 0 to |a.kids[s]|
      invariant |kids| == i && forall j :: 0 <= j < i ==> kids[j] == t.kids[j]
    {
      var kid := ReadTree(a, a.kids[s][i], t.kids[i]);
      kids := kids + [kid];
    }
    r := Node(s, a.kind[s], kids);
  }

  lemma {:induction false} RedeclaredRoot(b: Arena, n: Id, c: Tree, t: Tree, ds: seq<Decl>, hi: Id)
    requires n in b.kind && Holds(b, c) && c.id == n && Copy(t, c)
    requires forall i :: 0 <= i < |c.kids| ==> Between(n + 1, c.kids[i], hi)
    ensures var d := Rekinded(b, n, PushDecls(c.kind, ds)); var c' := Redeclared(c, ds);
      Holds(d, c') && c'.id == n && Copy(Redeclared(t, ds), c')
  {
    var d := Rekinded(b, n, PushDecls(c.kind, ds));
    forall i | 0 <= i < |c.kids| ensures Holds(d, c.kids[i]) {
      RangeFrame(b, d, c.kids[i], n + 1, hi);
    }
  }

  lemma {:induction false} RekindGrown(a: Arena, b: Arena, n: Id, k: Kind)
    requires Grown(a, b, n)
    ensures Grown(a, Rekinded(b, n, k), n)
  {
  }

  /** What an element inherits and does not declare; nothing for other nodes. */
  ghost predicate InheritedBy(a: Arena, s: Id, chain: seq<Id>, ds: seq<Decl>) {
    && s in a.kind
    && if a.kind[s].Element? then ElementChain(a, s, chain) && Completes(ds, DeclsOf(a, s), Levels(a, chain[1..])) else ds == []
  }

  /** A copy of the subtree at `s` in `dst`; with `inherit` its root also declares
      the namespaces that were in scope at `s`. */
  method ImportSubtree(dst: Document, src: Document, s: Id, inherit: bool, ghost t: Tree, ghost chain: seq<Id>)
    returns (r: Imported, ghost c: Tree, ghost ds: seq<Decl>)
    requires dst.Valid() && src.Valid() && Holds(src.arena, t) && t.id == s
    requires inherit && t.kind.Element? ==> ElementChain(src.arena, s, chain)
    modifies dst
    ensures dst.Valid()
    ensures r.SameDocument? <==> src == dst
    ensures r.NotImportable? <==> src != dst && t.kind.Root?
    ensures !r.Imported? ==> dst.arena == old(dst.arena)
    ensures r.Imported? ==>
      && (if inherit then InheritedBy(old(src.arena), s, chain, ds) else ds == [])
      && Grown(old(dst.arena), dst.arena, r.node)
      && Holds(dst.arena, c) && c.id == r.node && Copy(Redeclared(t, ds), c) && FreshTree(old(dst.arena), c)
      && KeepsContent(t, c, ds)
  {
    c, ds := t, [];
    if src == dst {
      return SameDocument, c, ds;
    }
    if src.arena.kind[s].Root? {
      return NotImportable, c, ds;
    }
    var tree := ReadTree(src.arena, s, t);
    var inherited := [];
    if inherit && tree.kind.Element? {
      inherited := InheritedDeclarationsNearestFirst(src.arena, s, chain);
    }
    var n;
    n, c := CopyRedeclared(dst, tree, inherited);
    ds := inherited;
    RedeclaringKeeps(t, c, ds);
    r := Imported(n);
  }

  method CopyRedeclared(dst: Document, t: Tree, inherited: seq<Decl>) returns (n: Id, ghost c: Tree)
    requires dst.Valid()
    modifies dst
    ensures dst.Valid() && Grown(old(dst.arena), dst.arena, n)
    ensures Holds(dst.arena, c) && c.id == n && Copy(Redeclared(t, inherited), c) && FreshTree(old(dst.arena), c)
  {
    ghost var a := dst.arena;
    ghost var lo := dst.next;
    n, c := CopySubtree(dst, t);
    BeyondIsFresh(a, c, lo, dst.next);
    RedeclaredRoot(dst.arena, n, c, t, inherited, dst.next);
    RekindGrown(a, dst.arena, n, PushDecls(c.kind, inherited));
    dst.SetKind(n, PushDecls(dst.arena.kind[n], inherited));
    c := Redeclared(c, inherited);
  }

  function KindsAt(a: Arena, ns: seq<Id>): (r: seq<Kind>)
    requires forall i :: 0 <= i < |ns| ==> ns[i] in a.kind
    ensures |r| == |ns| && forall i :: 0 <= i < |ns| ==> r[i] == a.kind[ns[i]]
  {
    seq(|ns|, i requires 0 <= i < |ns| => a.kind[ns[i]])
  }

  lemma {:induction false} TailIsKnown(a: Arena, s: Id)
    requires Wf(a) && Content(a, s)
    ensures forall i :: 0 <= i < |Tail(a, s)| ==> Tail(a, s)[i] in a.kind && a.kind[Tail(a, s)[i]].Textual()
  {
    RunIsText(a.kind, Following(a, s));
    assert forall i :: 0 <= i < |Tail(a, s)| ==> IsText(a.kind, Tail(a, s)[i]);
  }

  /** New, detached, and equal to the tree `t` followed by the text nodes `ts`;
      what the document held before is untouched. */
  ghost predicate Arrived(a: Arena, b: Arena, t: Tree, ts: seq<Kind>, c: Tree, pr: Pair) {
    && Extends(a, b) && Cloned(a, b, t, ts, c, pr)
    && Loose(b, [pr.node] + pr.tail) && Proper(b.kind, [pr])
  }

  method Arrive(dst: Document, t: Tree, inherited: seq<Decl>, ts: seq<Kind>) returns (pr: Pair, ghost c: Tree)
    requires dst.Valid() && !t.kind.Textual() && forall i :: 0 <= i < |ts| ==> ts[i].Textual()
    modifies dst
    ensures dst.Valid() && Arrived(old(dst.arena), dst.arena, Redeclared(t, inherited), ts, c, pr)
  {
    ghost var a := dst.arena;
    var n;
    n, c := CopyRedeclared(dst, t, inherited);
    ghost var b := dst.arena;
    var ns := CreateRun(dst, ts);
    CloneFacts(a, b, dst.arena, Redeclared(t, inherited), ts, n, c, ns);
    pr := Pair(n, ns);
  }

  /** The copy of `s` and of its tail run, and what that copy declares. */
  ghost predicate Imports(a: Arena, b: Arena, d: Arena, t: Tree, chain: seq<Id>, c: Tree, ds: seq<Decl>, pr: Pair) {
    && InheritedBy(a, t.id, chain, ds)
    && (forall i :: 0 <= i < |Tail(a, t.id)| ==> Tail(a, t.id)[i] in a.kind)
    && Arrived(b, d, Redeclared(t, ds), KindsAt(a, Tail(a, t.id)), c, pr)
  }

  method ImportWithTail(src: Document, dst: Document, s: Id, ghost t: Tree, ghost chain: seq<Id>)
    returns (pr: Pair, ghost c: Tree, ghost ds: seq<Decl>)
    requires src != dst && src.Valid() && dst.Valid()
    requires Holds(src.arena, t) && t.id == s && t.kind.Content() && (t.kind.Element? ==> ElementChain(src.arena, s, chain))
    modifies dst
    ensures dst.Valid() && Imports(src.arena, old(dst.arena), dst.arena, t, chain, c, ds, pr)
  {
    var stail := FollowingTextRun(src.arena, s);
    TailIsKnown(src.arena, s);
    var tree := ReadTree(src.arena, s, t);
    var inherited := [];
    if tree.kind.Element? {
      inherited := InheritedDeclarationsNearestFirst(src.arena, s, chain);
    }
    ds := inherited;
    pr, c := Arrive(dst, tree, inherited, KindsAt(src.arena, stail));
  }

  // ------------------------------------------------------------------
  // Names keep their namespaces
  // ------------------------------------------------------------------

  /** Below the moved element every prefix that was bound stays bound to the same
      URI, whatever the element's new ancestors declare. `below` lists the
      declarations from some node of the subtree up to, not including, the
      element itself. */
  lemma {:induction false} ScopeSurvives(below: seq<seq<Decl>>, own: seq<Decl>, ds: seq<Decl>, above: seq<seq<Decl>>, newAbove: seq<seq<Decl>>, p: string)
    requires Completes(ds, own, above)
    requires Resolve(below + ([own] + above), p).Some?
    ensures Resolve(below + ([own + ds] + newAbove), p) == Resolve(below + ([own] + above), p)
  {
    ResolveConcat(below, [own] + above, p);
    ResolveConcat(below, [own + ds] + newAbove, p);
    Declarations.Standalone(own, ds, above, p);
    assert ([own + ds] + newAbove)[1..] == newAbove;
  }

  /** Declarations along a path of child positions, from the node up to but not
      including the root. */
  function DeclsBelow(t: Tree, path: seq<nat>): seq<seq<Decl>>
    decreases |path|
  {
    if path == [] || path[0] >= |t.kids| then []
    else
      var kid := t.kids[path[0]];
      DeclsBelow(kid, path[1..]) + [if kid.kind.Element? then kid.kind.decls else []]
  }

  lemma {:induction false} CopyDeclaresAlike(t: Tree, c: Tree, path: seq<nat>)
    requires Copy(t, c)
    ensures DeclsBelow(t, path) == DeclsBelow(c, path)
    decreases |path|
  {
    if path != [] && path[0] < |t.kids| {
      CopyDeclaresAlike(t.kids[path[0]], c.kids[path[0]], path[1..]);
    }
  }

  /** At the moved element, and at every node below it, in any document `b` where
      the clone `c` hangs under the ancestors `chain'`: a prefix in scope at the
      source resolves to the same URI. */
  lemma {:induction false} MovedNamesResolveAlike(a: Arena, chain: seq<Id>, t: Tree, ds: seq<Decl>, b: Arena, c: Tree, newChain: seq<Id>, path: seq<nat>, p: string)
    requires t.kind.Element? && Holds(a, t) && ElementChain(a, t.id, chain) && InheritedBy(a, t.id, chain, ds)
    requires Copy(Redeclared(t, ds), c) && Holds(b, c) && ElementChain(b, c.id, newChain)
    requires Resolve(DeclsBelow(t, path) + Levels(a, chain), p).Some?
    ensures Resolve(DeclsBelow(c, path) + Levels(b, newChain), p) == Resolve(DeclsBelow(t, path) + Levels(a, chain), p)
  {
    CopyDeclaresAlike(Redeclared(t, ds), c, path);
    assert DeclsBelow(Redeclared(t, ds), path) == DeclsBelow(t, path);
    var own := t.kind.decls;
    assert Levels(a, chain) == [own] + Levels(a, chain[1..]);
    assert Levels(b, newChain) == [own + ds] + Levels(b, newChain[1..]);
    ScopeSurvives(DeclsBelow(t, path), own, ds, Levels(a, chain[1..]), Levels(b, newChain[1..]), p);
  }
}
