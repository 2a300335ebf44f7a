/** What replacing one child has to work with. */
module SwapPlan {
  import opened Prelude
  import opened Arena
  import opened Dom
  import opened Siblings
  import opened SiblingEdits
  import opened PairEdits
  import opened SubtreeCopy
  import opened NewElements
  import opened Adoption
  import opened Placement
  import opened Slices

  /** Where the new pair goes: between the children that are kept on either side
      of the one at position `at`, which leaves with those that move. */
  function Gap(k: Intake, p: Id, at: nat, cs: seq<Pair>): Block
    requires at < |cs|
  {
    Block(k, p, k.Moved() + {cs[at].node}, Keep(cs[..at], OwnIds(k.els)), Keep(cs[at + 1..], OwnIds(k.els)))
  }

  /** `cs` are the children before anything was taken in, `o` the one to replace. */
  ghost predicate Replaces(k: Intake, p: Id, at: nat, cs: seq<Pair>, o: Id) {
    |k.prs| == |k.els| && p in k.a0.kids && cs == Children(k.a0, p) && at < |cs| && cs[at].node == o && o !in OwnIds(k.els)
  }

  /** Where the new pair goes once the old one is out. */
  ghost predicate Fits(block: Block, c: Arena, i: nat, at: nat) {
    var prs := block.k.prs;
    && i < |prs| && block.p in c.kids && at <= |c.kids[block.p]| && Loose(c, [prs[i].node] + prs[i].tail)
    && block.At(Splice(c, block.p, at, [prs[i].node] + prs[i].tail), i + 1)
  }
}
