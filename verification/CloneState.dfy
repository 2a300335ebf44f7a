/** How two documents and their wrappers stand while an element moves over. */
module CloneState {
  import opened Prelude
  import opened Arena
  import opened Dom
  import opened ProxyHolder
  import LockStep
  import Repoint

  /** Two holders of different documents, each in order. */
  ghost predicate Apart(src: DocHolderBase, dst: DocHolderBase)
    reads src, src.wrappers, src.doc, dst, dst.wrappers, dst.doc
  {
    && src != dst && src.doc != dst.doc && src.doc.Valid() && dst.doc.Valid()
    && src.Valid() && dst.Valid() && src.Known() && dst.Known()
  }

  /** Both documents and both caches before a move. */
  datatype Snapshot = Snapshot(sa: Arena, da: Arena, s: map<nat, Wrapper>, d: map<nat, Wrapper>, w: set<Wrapper>) {
    ghost predicate Now(src: DocHolderBase, dst: DocHolderBase)
      reads src, src.wrappers, src.doc, dst, dst.wrappers, dst.doc
    {
      && Apart(src, dst) && sa == src.doc.arena && da == dst.doc.arena
      && s == src.LiveProxies() && d == dst.LiveProxies() && w == src.wrappers
    }

    /** The copy is made; no wrapper has moved. */
    ghost predicate Copied(src: DocHolderBase, dst: DocHolderBase, t: Tree, c: Tree)
      reads src, src.wrappers, src.doc, dst, dst.wrappers, dst.doc
    {
      && Snapshot(sa, dst.doc.arena, s, d, w).Now(src, dst)
      && Holds(sa, t) && Holds(dst.doc.arena, c) && LockStep.SameShape(t, c)
      && forall y :: y in LockStep.Targets(LockStep.Zip(t, c)) ==> y !in d
    }

    /** The wrappers have followed. */
    ghost predicate Repointed(src: DocHolderBase, dst: DocHolderBase, t: Tree, c: Tree)
      reads src, src.wrappers, dst, dst.wrappers
    {
      src.Moved(dst, LockStep.Zip(t, c), s, d, w) && Followed(t, c, s, dst.LiveProxies())
    }
  }

  /** The live wrapper of the node at a path is now that of the copy's node there. */
  ghost predicate Followed(t: Tree, c: Tree, was: map<nat, Wrapper>, now: map<nat, Wrapper>) {
    forall path :: LockStep.At(t, path).Some? && LockStep.At(t, path).value.id in was ==>
      && LockStep.At(c, path).Some? && LockStep.At(c, path).value.id in now
      && now[LockStep.At(c, path).value.id] == was[LockStep.At(t, path).value.id]
  }

  lemma {:induction false} PathsFollowed(sa: Arena, da: Arena, t: Tree, c: Tree, was: map<nat, Wrapper>, d0: map<nat, Wrapper>)
    requires Wf(sa) && Wf(da) && Holds(sa, t) && Holds(da, c) && LockStep.SameShape(t, c)
    ensures Followed(t, c, was, d0 + LockStep.MovedTo(LockStep.Zip(t, c), was))
  {
    forall path | LockStep.At(t, path).Some? && LockStep.At(t, path).value.id in was
      ensures LockStep.At(c, path).Some?
      ensures var x, y := LockStep.At(t, path).value.id, LockStep.At(c, path).value.id;
        y in LockStep.MovedTo(LockStep.Zip(t, c), was) && LockStep.MovedTo(LockStep.Zip(t, c), was)[y] == was[x]
    {
      ShapeAt(t, c, path);
      var x, y := LockStep.At(t, path).value.id, LockStep.At(c, path).value.id;
      assert LockStep.SamePath(t, c, x, y, path);
      Repoint.MovedAlongPaths(sa, da, t, c, was, x, y, path);
    }
  }

  lemma {:induction false} ShapeAt(t: Tree, c: Tree, path: seq<nat>)
    requires LockStep.SameShape(t, c) && LockStep.At(t, path).Some?
    ensures LockStep.At(c, path).Some?
    decreases |path|
  {
    if path != [] { ShapeAt(t.kids[path[0]], c.kids[path[0]], path[1..]); }
  }
}
