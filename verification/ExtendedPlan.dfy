/** What an extended slice assignment has to work with. */
module ExtendedPlan {
  import opened Prelude
  import opened Arena
  import opened Siblings
  import opened SiblingEdits
  import opened PairEdits
  import opened SubtreeCopy
  import opened NewElements
  import opened Adoption
  import opened Placement
  import opened Slices
  import opened ExtendedTerms

  /** What an extended assignment has to work with. */
  datatype Plan = Plan(a0: Arena, p: Id, pos: seq<nat>, els: seq<NewEl>) {
    function Cs(): seq<Pair> { Children(a0, p) }

    function With(prs: seq<Pair>): Extended { Extended(Cs(), pos, OwnIds(els), prs) }

    ghost predicate Sound() {
      && Wf(a0) && p in a0.kids && |pos| == |els| && NoDup(pos) && (forall x :: 0 <= x < |pos| ==> pos[x] < |Cs()|)
      && Acceptable(a0, els)
    }

    function Targets(): (r: seq<Id>)
      requires forall x :: 0 <= x < |pos| ==> pos[x] < |Cs()|
      ensures |r| == |pos| && forall x :: 0 <= x < |pos| ==> r[x] == Cs()[pos[x]].node
    {
      seq(|pos|, x requires 0 <= x < |pos| => Cs()[pos[x]].node)
    }

    /** The targets that are not used again. */
    function Cut(prs: seq<Pair>): set<Id>
      requires forall x :: 0 <= x < |pos| ==> pos[x] < |Cs()|
    {
      Unused(Targets(), prs)
    }

    /** The new elements of `k` fit the positions. */
    ghost predicate Takes(k: Intake) {
      Sound() && k.Of(a0, els) && With(k.prs).Sound()
    }
  }

  /** The targets are gone and the first `i` new elements are in place. */
  ghost predicate Filling(k: Intake, a: Arena, p: Id, gone: set<Id>, e: Extended, i: nat) {
    e.Fits() && i <= |e.pos| && Placing(k, a, p, gone, i, e.Placed(i))
  }
}
