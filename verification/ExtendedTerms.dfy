/** Extended slice assignment on lists of pairs: what the anchors make of it, and
    what a Python list makes of it. */
module ExtendedTerms {
  import opened Prelude
  import opened Arena
  import opened Siblings

  /** `cs[pos[0]], cs[pos[1]], … = added[0], added[1], …`, where the members of
      `cs` in `reused` are among the new elements and move. */
  datatype Extended = Extended(cs: seq<Pair>, pos: seq<nat>, reused: set<Id>, added: seq<Pair>) {

    ghost predicate Sound() {
      && Fits() && NoDup(pos)
      && NoDup(added)
      && forall i, x :: 0 <= i < |cs| && 0 <= x < |added| && Kept(i) ==> cs[i] != added[x]
    }

    /** As many positions as new elements, all of them among the children. */
    ghost predicate Fits() {
      |pos| == |added| && forall x :: 0 <= x < |pos| ==> pos[x] < |cs|
    }

    /** A child that is neither replaced nor moved. */
    predicate Kept(i: nat) {
      i < |cs| && i !in pos && cs[i].node !in reused
    }

    /** The first such child from `i` on; `|cs|` if there is none. */
    function NextKept(i: nat): (c: nat)
      requires i <= |cs|
      ensures i <= c <= |cs| && (c < |cs| ==> Kept(c))
      ensures forall k :: i <= k < c ==> !Kept(k)
      decreases |cs| - i
    {
      if i == |cs| || Kept(i) then i else NextKept(i + 1)
    }

    /** The child in front of which the `x`-th new element is put. */
    function Anchor(x: nat): nat
      requires x < |pos| && pos[x] < |cs|
    {
      NextKept(pos[x] + 1)
    }

    function AnchorId(x: nat): Option<Id>
      requires x < |pos| && pos[x] < |cs|
    {
      if Anchor(x) == |cs| then None else Some(cs[Anchor(x)].node)
    }

    /** The anchors that were captured for the positions. */
    ghost predicate Captured(anchors: seq<Option<Id>>)
      requires forall x :: 0 <= x < |pos| ==> pos[x] < |cs|
    {
      |anchors| == |pos| && forall x {:trigger anchors[x]} :: 0 <= x < |anchors| ==> anchors[x] == AnchorId(x)
    }

    /** Of the first `j` new elements those that go before child `c` and into a
        position below `i`. */
    function Group(c: nat, i: nat, j: nat): seq<Pair>
      requires Fits() && j <= |pos|
    {
      if j == 0 then []
      else Group(c, i, j - 1) + if Anchor(j - 1) == c && pos[j - 1] < i then [added[j - 1]] else []
    }

    /** The kept children below `c`, each after the new elements put before it. */
    function Upto(c: nat, j: nat): seq<Pair>
      requires Fits() && c <= |cs| && j <= |pos|
    {
      if c == 0 then []
      else Upto(c - 1, j) + Piece(c - 1, j)
    }

    function Piece(c: nat, j: nat): seq<Pair>
      requires Fits() && c < |cs| && j <= |pos|
    {
      if Kept(c) then Group(c, |cs|, j) + [cs[c]] else []
    }

    function From(c: nat, j: nat): seq<Pair>
      requires Fits() && c <= |cs| && j <= |pos|
      decreases |cs| - c
    {
      if c == |cs| then Group(c, |cs|, j)
      else Piece(c, j) + From(c + 1, j)
    }

    /** What follows the new elements put before child `c`. */
    function Beyond(c: nat, j: nat): seq<Pair>
      requires Fits() && c <= |cs| && j <= |pos|
    {
      if c == |cs| then [] else [cs[c]] + From(c + 1, j)
    }

    /** What the code makes of the children, once `j` new elements are placed. */
    function Placed(j: nat): seq<Pair>
      requires Fits() && j <= |pos|
    {
      From(0, j)
    }

    /** List assignment: each position gets its new element, the children that
        move leave their old place, nothing else changes. */
    function ListUpto(i: nat): seq<Pair>
      requires Fits() && i <= |cs|
    {
      if i == 0 then []
      else ListUpto(i - 1) + Slot(i - 1)
    }

    function Slot(i: nat): seq<Pair>
      requires Fits() && i < |cs|
    {
      if i in pos then [added[IndexOf(pos, i)]]
      else if cs[i].node in reused then []
      else [cs[i]]
    }

    function ListSlice(): seq<Pair>
      requires Fits()
    {
      ListUpto(|cs|)
    }

    /** New elements that share an anchor come in the order of their positions. */
    ghost predicate InOrder()
      requires Fits()
    {
      forall x, y {:trigger Ordered(x, y)} :: 0 <= x < y < |pos| ==> Ordered(x, y)
    }

    ghost predicate Ordered(x: nat, y: nat)
      requires Fits() && x < |pos| && y < |pos|
    {
      Anchor(x) == Anchor(y) ==> pos[x] < pos[y]
    }

    /** Below `i` the list result and the anchored one agree, up to the new
        elements that wait for the next kept child. */
    ghost predicate Layout(i: nat)
      requires Fits() && i <= |cs|
    {
      ListUpto(i) == Upto(i, |pos|) + Group(NextKept(i), i, |pos|)
    }
  }
}
