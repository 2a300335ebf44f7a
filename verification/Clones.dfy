/** Moving an element between documents: copy, re-pointing and detaching. */
module Clones {
  import opened Prelude
  import opened Arena
  import opened Dom
  import opened Siblings
  import opened SiblingEdits
  import opened PairEdits
  import opened SubtreeCopy
  import opened NewElements
  import opened NamespaceScope
  import opened ProxyHolder
  import LockStep
  import Repoint
  import CrossDocument
  import opened CloneState

  method CopyFirst(src: DocHolderBase, dst: DocHolderBase, s: Id, ghost t: Tree, ghost chain: seq<Id>, ghost was: Snapshot)
    returns (pr: Pair, ghost c: Tree, ghost ds: seq<Decl>)
    requires was.Now(src, dst) && Holds(was.sa, t) && t.id == s && t.kind.Content()
    requires t.kind.Element? ==> ElementChain(was.sa, s, chain)
    modifies dst.doc
    ensures was.Copied(src, dst, t, c) && c.id == pr.node
    ensures CrossDocument.Imports(was.sa, was.da, dst.doc.arena, t, chain, c, ds, pr)
    ensures CrossDocument.KeepsContent(t, c, ds)
  {
    pr, c, ds := ImportApart(src, dst, s, t, chain, was);
    CrossDocument.RedeclaringKeeps(t, c, ds);
    Repoint.CloneCanBeRepointed(was.da, t, ds, c, was.d);
  }

  method ImportApart(src: DocHolderBase, dst: DocHolderBase, s: Id, ghost t: Tree, ghost chain: seq<Id>, ghost was: Snapshot)
    returns (pr: Pair, ghost c: Tree, ghost ds: seq<Decl>)
    requires was.Now(src, dst) && Holds(was.sa, t) && t.id == s && t.kind.Content()
    requires t.kind.Element? ==> ElementChain(was.sa, s, chain)
    modifies dst.doc
    ensures Snapshot(was.sa, dst.doc.arena, was.s, was.d, was.w).Now(src, dst)
    ensures CrossDocument.Imports(was.sa, was.da, dst.doc.arena, t, chain, c, ds, pr)
  {
    pr, c, ds := CrossDocument.ImportWithTail(src.doc, dst.doc, s, t, chain);
  }

  method RepointNext(src: DocHolderBase, dst: DocHolderBase, s: Id, n: Id, ghost t: Tree, ghost c: Tree, ghost was: Snapshot)
    requires was.Copied(src, dst, t, c) && t.id == s && c.id == n
    modifies src, dst, was.w`holder, was.w`doc, was.w`nodeId
    ensures Apart(src, dst) && was.Repointed(src, dst, t, c)
  {
    Repoint.RepointSubtree(src, dst, s, n, t, c);
    PathsFollowed(src.doc.arena, dst.doc.arena, t, c, was.s, was.d);
  }

  /** The wrappers go over to the copy, then the original leaves its document. */
  method FollowAndDetach(src: DocHolderBase, dst: DocHolderBase, s: Id, n: Id, ghost t: Tree, ghost c: Tree, ghost was: Snapshot)
    requires was.Copied(src, dst, t, c) && src.doc.arena == was.sa && t.id == s && c.id == n && Content(was.sa, s)
    modifies src, dst, src.doc`arena, was.w`holder, was.w`doc, was.w`nodeId
    ensures Apart(src, dst) && was.Repointed(src, dst, t, c)
    ensures Wf(was.sa) && src.doc.arena == Extracted(was.sa, s) && Dropped(was.sa, src.doc.arena, {s})
  {
    ExtractedDrops(was.sa, s);
    RepointNext(src, dst, s, n, t, c, was);
    DetachLast(src, dst, s, t, c, was);
  }

  method DetachLast(src: DocHolderBase, dst: DocHolderBase, s: Id, ghost t: Tree, ghost c: Tree, ghost was: Snapshot)
    requires Apart(src, dst) && was.Repointed(src, dst, t, c) && src.doc.arena == was.sa && Content(was.sa, s)
    modifies src.doc`arena
    ensures Apart(src, dst) && was.Repointed(src, dst, t, c)
    ensures Wf(was.sa) && src.doc.arena == Extracted(was.sa, s)
  {
    DetachApart(src, dst, s);
  }

  method DetachApart(src: DocHolderBase, dst: DocHolderBase, s: Id)
    requires Apart(src, dst) && Content(src.doc.arena, s)
    modifies src.doc`arena
    ensures Apart(src, dst) && Wf(old(src.doc.arena)) && src.doc.arena == Extracted(old(src.doc.arena), s)
  {
    TakeOut(src.doc, s);
  }

  method TakeOut(doc: Document, s: Id)
    requires doc.Valid() && Content(doc.arena, s)
    modifies doc`arena
    ensures doc.Valid() && Wf(old(doc.arena)) && doc.arena == Extracted(old(doc.arena), s)
    ensures doc.arena.kind == old(doc.arena).kind
  {
    ExtractedParents(doc.arena, s, s);
    var gone := Extract(doc, s);
  }

  /** An element of another document becomes a detached node of this one, with its
      tail. The copy is equal to it and declares what was in scope; every live
      wrapper of its nodes becomes the wrapper of the copy's node at the same child
      path, in both caches; its own document loses exactly the element and its
      tail, and nothing else changes on either side. */
  method CloneIntoSelf(src: DocHolderBase, dst: DocHolderBase, s: Id, ghost t: Tree, ghost chain: seq<Id>)
    returns (pr: Pair, ghost c: Tree, ghost ds: seq<Decl>, ghost was: Snapshot)
    requires Apart(src, dst) && Holds(src.doc.arena, t) && t.id == s && t.kind.Content()
    requires t.kind.Element? ==> ElementChain(src.doc.arena, s, chain)
    modifies src, dst, src.doc`arena, dst.doc, src.wrappers`holder, src.wrappers`doc, src.wrappers`nodeId
    ensures was == old(Snapshot(src.doc.arena, dst.doc.arena, src.LiveProxies(), dst.LiveProxies(), src.wrappers))
    ensures Apart(src, dst) && Wf(was.sa)
    ensures CrossDocument.Imports(was.sa, was.da, dst.doc.arena, t, chain, c, ds, pr)
    ensures CrossDocument.KeepsContent(t, c, ds)
    ensures src.doc.arena == Extracted(was.sa, s) && Dropped(was.sa, src.doc.arena, {s})
    ensures was.Repointed(src, dst, t, c)
  {
    was := Snapshot(src.doc.arena, dst.doc.arena, src.LiveProxies(), dst.LiveProxies(), src.wrappers);
    pr, c, ds := CopyFirst(src, dst, s, t, chain, was);
    FollowAndDetach(src, dst, s, pr.node, t, c, was);
  }
}
