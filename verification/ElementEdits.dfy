/** Single-element edits of the children: insert, append, remove. */
module ElementEdits {
  import opened Prelude
  import opened Arena
  import opened Dom
  import opened Siblings
  import opened SiblingEdits
  import opened PairEdits
  import opened SubtreeCopy
  import opened NewElements
  import opened Adoption
  import opened Placement
  import opened Slices
  import opened PythonSlices

  /** The insertion point of `list.insert`. */
  function Clamped(index: int, n: nat): nat {
    var i := if index < 0 then index + n else index;
    if i < 0 then 0 else if i < n then i else n
  }

  /** A negative index counts from the end; one beyond either end means that end. */
  lemma {:induction false} InsertionPoint(index: int, n: nat, i: nat)
    ensures i == Clamped(index, n) <==> StartsAt(i, Some(index), n)
  {
    var c := Clamped(index, n);
    assert StartsAt(c, Some(index), n);
    if StartsAt(i, Some(index), n) {
      OneCut(c, i, n, Some(index));
    }
  }

  lemma {:induction false} BlockPlaced(block: Block, a: Arena, cut: set<Id>)
    requires Extends(block.k.a0, block.k.a1) && Wf(block.k.a1)
    requires block.At(a, |block.k.prs|) && block.gone == block.k.Moved() + cut
    requires forall n :: n in cut ==> n in block.k.a0.kind && Parent(block.k.a0, n) == Some(block.p)
    ensures Assigned(block.k, a, block.p, block.xs + block.k.prs + block.ys)
  {
    var prs := block.k.prs;
    assert prs[..|prs|] == prs;
    CutIsHere(block.k, block.p, cut);
    AllPlaced(block.k, a, block.p, cut, block.xs + prs + block.ys);
  }

  method AdoptFor(doc: Document, p: Id, els: seq<NewEl>) returns (prs: seq<Pair>, ghost k: Intake)
    requires doc.Valid() && p in doc.arena.kids && Acceptable(doc.arena, els)
    modifies doc
    ensures doc.Valid() && k.Of(old(doc.arena), els) && k.prs == prs
    ensures Placing(k, doc.arena, p, k.Moved(), 0, Keep(old(Children(doc.arena, p)), OwnIds(els)))
  {
    prs, k := AdoptAll(doc, els);
    assert k.Moved() + {} == k.Moved() && OwnIds(els) + {} == OwnIds(els);
    ReadyToPlace(k, doc.arena, p, {});
  }

  lemma {:induction false} BlockOpens(block: Block, a: Arena, now: seq<Pair>)
    requires Placing(block.k, a, block.p, block.gone, 0, now) && now == block.xs + block.ys
    ensures block.At(a, 0)
  {
    assert block.xs + block.k.prs[..0] == block.xs;
  }

  /** Place all adopted pairs between `xs` and `ys`, the children that are left. */
  method PlaceBetween(doc: Document, p: Id, prs: seq<Pair>, reference: Option<Id>, ghost block: Block)
    requires doc.Valid() && block.At(doc.arena, 0) && p == block.p && prs == block.k.prs && Anchors(block.ys, reference)
    requires block.k.Sound() && block.gone == block.k.Moved()
    modifies doc
    ensures doc.Valid() && Assigned(block.k, doc.arena, p, block.xs + prs + block.ys)
  {
    PlaceBlock(doc, p, prs, reference, block);
    assert block.gone == block.k.Moved() + {};
    BlockPlaced(block, doc.arena, {});
  }

  /** `el.insert(index, element)`: the index counts the children left once the
      element has been taken out. */
  method Insert(doc: Document, p: Id, index: int, el: NewEl) returns (ghost k: Intake)
    requires doc.Valid() && p in doc.arena.kids && Usable(doc.arena, [el], 0)
    modifies doc
    ensures doc.Valid() && k.Of(old(doc.arena), [el])
    ensures var left := Keep(old(Children(doc.arena, p)), OwnIds([el])); var i := Clamped(index, |left|);
            StartsAt(i, Some(index), |left|) && Assigned(k, doc.arena, p, left[..i] + k.prs + left[i..])
  {
    OneAcceptable(doc.arena, el);
    ghost var left := Keep(Children(doc.arena, p), OwnIds([el]));
    InsertionPoint(index, |left|, Clamped(index, |left|));
    var adopted;
    adopted, k := AdoptFor(doc, p, [el]);
    InsertAdopted(doc, p, index, adopted, k, left);
  }

  lemma {:induction false} Halves(ps: seq<Pair>, i: nat)
    requires i <= |ps|
    ensures ps == ps[..i] + ps[i..] && Anchors(ps[i..], if i < |ps| then Some(Nodes(ps)[i]) else None)
  {
  }

  method InsertAdopted(doc: Document, p: Id, index: int, adopted: seq<Pair>, ghost k: Intake, ghost left: seq<Pair>)
    requires doc.Valid() && k.Sound() && Placing(k, doc.arena, p, k.Moved(), 0, left) && adopted == k.prs
    modifies doc
    ensures doc.Valid() && var i := Clamped(index, |left|); Assigned(k, doc.arena, p, left[..i] + adopted + left[i..])
  {
    var kids := ContentChildren(doc.arena, p);
    var i := Clamped(index, |kids|);
    ghost var block := Block(k, p, k.Moved(), left[..i], left[i..]);
    Halves(left, i);
    BlockOpens(block, doc.arena, left);
    PlaceBetween(doc, p, adopted, if i < |kids| then Some(kids[i]) else None, block);
  }

  /** `el.append(element)`. */
  method Append(doc: Document, p: Id, el: NewEl) returns (ghost k: Intake)
    requires doc.Valid() && p in doc.arena.kids && Usable(doc.arena, [el], 0)
    modifies doc
    ensures doc.Valid() && k.Of(old(doc.arena), [el])
    ensures Assigned(k, doc.arena, p, Keep(old(Children(doc.arena, p)), OwnIds([el])) + k.prs)
  {
    var els := [el];
    ghost var left := Keep(Children(doc.arena, p), OwnIds(els));
    OneAcceptable(doc.arena, el);
    var adopted;
    adopted, k := AdoptFor(doc, p, els);
    ghost var block := Block(k, p, k.Moved(), left, []);
    assert left + [] == left && left + adopted + [] == left + adopted;
    BlockOpens(block, doc.arena, left);
    PlaceBetween(doc, p, adopted, None, block);
  }

  /** `el.remove(element)`; a value error unless it is a child. */
  method RemoveElement(doc: Document, p: Id, n: Id) returns (done: bool)
    requires doc.Valid() && Content(doc.arena, n)
    modifies doc
    ensures doc.Valid() && (done <==> Parent(old(doc.arena), n) == Some(p))
    ensures !done ==> doc.arena == old(doc.arena)
    ensures done ==> Dropped(old(doc.arena), doc.arena, {n}) && Parent(doc.arena, n).None?
  {
    if Parent(doc.arena, n) != Some(p) {
      return false;
    }
    ExtractedDrops(doc.arena, n);
    ExtractedParents(doc.arena, n, n);
    var tail := Extract(doc, n);
    done := true;
  }
}
