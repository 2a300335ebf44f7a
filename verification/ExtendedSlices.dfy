/** Extended slices: where the anchors put the new elements, and when that is
    where list assignment puts them. */
module ExtendedSlices {
  import opened Prelude
  import opened Arena
  import opened Siblings
  import opened ExtendedTerms
  import opened PythonSlices

  // ----------------------------------------------------------------
  // Placing one more
  // ----------------------------------------------------------------

  lemma {:induction false} SplitAt(e: Extended, c: nat, j: nat)
    requires e.Sound() && c <= |e.cs| && j <= |e.pos|
    ensures e.Placed(j) == e.Upto(c, j) + e.From(c, j)
    decreases c
  {
    if c > 0 {
      SplitAt(e, c - 1, j);
      assert e.Upto(c - 1, j) + (e.Piece(c - 1, j) + e.From(c, j)) == (e.Upto(c - 1, j) + e.Piece(c - 1, j)) + e.From(c, j);
    }
  }

  lemma {:induction false} OthersUpto(e: Extended, c: nat, j: nat)
    requires e.Sound() && j < |e.pos| && c <= e.Anchor(j)
    ensures e.Upto(c, j + 1) == e.Upto(c, j)
  {
    if c > 0 { OthersUpto(e, c - 1, j); }
  }

  lemma {:induction false} OthersFrom(e: Extended, c: nat, j: nat)
    requires e.Sound() && j < |e.pos| && e.Anchor(j) < c <= |e.cs|
    ensures e.From(c, j + 1) == e.From(c, j)
    decreases |e.cs| - c
  {
    if c < |e.cs| { OthersFrom(e, c + 1, j); }
  }

  lemma {:induction false} Around(e: Extended, c: nat, j: nat)
    requires e.Sound() && j <= |e.pos| && (c == |e.cs| || e.Kept(c))
    ensures e.Placed(j) == (e.Upto(c, j) + e.Group(c, |e.cs|, j)) + e.Beyond(c, j)
  {
    SplitAt(e, c, j);
    if c < |e.cs| {
      Regroup(e.Upto(c, j), e.Group(c, |e.cs|, j), [e.cs[c]], e.From(c + 1, j));
    }
  }

  /** The next new element goes right before its anchor. */
  lemma {:induction false} PlaceOne(e: Extended, j: nat)
    requires e.Sound() && j < |e.pos|
    ensures var c := e.Anchor(j); var xs := e.Upto(c, j) + e.Group(c, |e.cs|, j);
      e.Placed(j) == xs + e.Beyond(c, j) && e.Placed(j + 1) == xs + [e.added[j]] + e.Beyond(c, j)
  {
    Around(e, e.Anchor(j), j);
    Around(e, e.Anchor(j), j + 1);
    GroupEnds(e, j);
    OthersUpto(e, e.Anchor(j), j);
    OthersBeyond(e, j);
    Snoc(e.Upto(e.Anchor(j), j), e.Group(e.Anchor(j), |e.cs|, j), e.added[j]);
  }

  lemma {:induction false} GroupEnds(e: Extended, j: nat)
    requires e.Sound() && j < |e.pos|
    ensures e.Group(e.Anchor(j), |e.cs|, j + 1) == e.Group(e.Anchor(j), |e.cs|, j) + [e.added[j]]
  {
  }

  lemma {:induction false} OthersBeyond(e: Extended, j: nat)
    requires e.Sound() && j < |e.pos|
    ensures e.Beyond(e.Anchor(j), j + 1) == e.Beyond(e.Anchor(j), j)
  {
    if e.Anchor(j) < |e.cs| { OthersFrom(e, e.Anchor(j) + 1, j); }
  }

  lemma {:induction false} BeyondStarts(e: Extended, c: nat, j: nat)
    requires e.Sound() && c <= |e.cs| && j <= |e.pos|
    ensures if c == |e.cs| then e.Beyond(c, j) == [] else e.Beyond(c, j) != [] && e.Beyond(c, j)[0] == e.cs[c]
  {
  }

  /** Before anything is placed there are just the kept children. */
  lemma {:induction false} NonePlaced(e: Extended, c: nat, gone: set<Id>)
    requires e.Sound() && c <= |e.cs| && forall i :: 0 <= i < |e.cs| ==> (e.Kept(i) <==> e.cs[i].node !in gone)
    ensures e.From(c, 0) == Keep(e.cs[c..], gone)
    decreases |e.cs| - c
  {
    if c < |e.cs| {
      NonePlaced(e, c + 1, gone);
      assert e.cs[c..][0] == e.cs[c] && e.cs[c..][1..] == e.cs[c + 1..];
    }
  }

  // ----------------------------------------------------------------
  // Against list assignment
  // ----------------------------------------------------------------

  lemma {:induction false} SameGroup(e: Extended, c: nat, i: nat, k: nat, j: nat)
    requires e.Sound() && j <= |e.pos|
    requires forall x :: 0 <= x < j && e.Anchor(x) == c ==> (e.pos[x] < i <==> e.pos[x] < k)
    ensures e.Group(c, i, j) == e.Group(c, k, j)
    decreases j
  {
    if j > 0 { SameGroup(e, c, i, k, j - 1); }
  }

  lemma {:induction false} NoGroup(e: Extended, c: nat, i: nat, j: nat)
    requires e.Sound() && j <= |e.pos|
    requires forall x :: 0 <= x < j && e.Anchor(x) == c ==> e.pos[x] >= i
    ensures e.Group(c, i, j) == []
    decreases j
  {
    if j > 0 { NoGroup(e, c, i, j - 1); }
  }

  /** Among those before `c` and up to position `pos[x]`, the `x`-th is last. */
  lemma {:induction false} GroupEndsWith(e: Extended, c: nat, x: nat, j: nat)
    requires e.Sound() && e.InOrder() && x < j <= |e.pos| && e.Anchor(x) == c
    ensures e.Group(c, e.pos[x] + 1, j) == e.Group(c, e.pos[x], j) + [e.added[x]]
    decreases j
  {
    if j == x + 1 {
      SameGroup(e, c, e.pos[x], e.pos[x] + 1, x);
    } else {
      GroupEndsWith(e, c, x, j - 1);
      assert e.Ordered(x, j - 1);
      NotThere(e, c, e.pos[x], j);
      NotThere(e, c, e.pos[x] + 1, j);
    }
  }

  lemma {:induction false} NotThere(e: Extended, c: nat, i: nat, j: nat)
    requires e.Fits() && 0 < j <= |e.pos| && !(e.Anchor(j - 1) == c && e.pos[j - 1] < i)
    ensures e.Group(c, i, j) == e.Group(c, i, j - 1)
  {
  }

  lemma {:induction false} LayoutStart(e: Extended)
    requires e.Sound()
    ensures e.Layout(0)
  {
    NoGroup(e, e.NextKept(0), 0, |e.pos|);
  }

  lemma {:induction false} ListIsLayout(e: Extended, i: nat)
    requires e.Sound() && e.InOrder() && i <= |e.cs|
    ensures e.Layout(i)
    decreases i
  {
    if i == 0 {
      LayoutStart(e);
    } else {
      ListIsLayout(e, i - 1);
      LayoutStep(e, i - 1, i);
    }
  }

  lemma {:induction false} LayoutStep(e: Extended, i: nat, next: nat)
    requires e.Sound() && e.InOrder() && i < |e.cs| && e.Layout(i) && next == i + 1
    ensures e.Layout(next)
  {
    var u, g := e.Upto(i, |e.pos|), e.Group(e.NextKept(i), i, |e.pos|);
    var u', g' := e.Upto(next, |e.pos|), e.Group(e.NextKept(next), next, |e.pos|);
    if i in e.pos {
      ReplacedSlot(e, i);
    } else if e.Kept(i) {
      KeptSlot(e, i);
    } else {
      MovedSlot(e, i);
    }
    Assembled(e.ListUpto(i), e.Slot(i), u, g, u', g');
  }

  lemma {:induction false} Assembled(l: seq<Pair>, slot: seq<Pair>, u: seq<Pair>, g: seq<Pair>, u': seq<Pair>, g': seq<Pair>)
    requires l == u + g && ((u' == u && g' == g + slot) || (u' == u + (g + slot) && g' == []))
    ensures l + slot == u' + g'
  {
  }

  lemma {:induction false} ReplacedSlot(e: Extended, i: nat)
    requires e.Sound() && e.InOrder() && i < |e.cs| && i in e.pos
    ensures e.Upto(i + 1, |e.pos|) == e.Upto(i, |e.pos|)
    ensures e.Group(e.NextKept(i + 1), i + 1, |e.pos|) == e.Group(e.NextKept(i), i, |e.pos|) + e.Slot(i)
  {
    var x := IndexOf(e.pos, i);
    GroupEndsWith(e, e.NextKept(i + 1), x, |e.pos|);
  }

  lemma {:induction false} KeptSlot(e: Extended, i: nat)
    requires e.Sound() && e.Kept(i)
    ensures e.Upto(i + 1, |e.pos|) == e.Upto(i, |e.pos|) + (e.Group(e.NextKept(i), i, |e.pos|) + e.Slot(i))
    ensures e.Group(e.NextKept(i + 1), i + 1, |e.pos|) == []
  {
    SameGroup(e, i, i, |e.cs|, |e.pos|);
    NoGroup(e, e.NextKept(i + 1), i + 1, |e.pos|);
  }

  lemma {:induction false} MovedSlot(e: Extended, i: nat)
    requires e.Sound() && i < |e.cs| && i !in e.pos && !e.Kept(i)
    ensures e.Upto(i + 1, |e.pos|) == e.Upto(i, |e.pos|) && e.Slot(i) == []
    ensures e.Group(e.NextKept(i + 1), i + 1, |e.pos|) == e.Group(e.NextKept(i), i, |e.pos|) + e.Slot(i)
  {
    SameGroup(e, e.NextKept(i + 1), i, i + 1, |e.pos|);
  }

  lemma {:induction false} OrderedAgree(e: Extended)
    requires e.Sound() && e.InOrder()
    ensures e.Placed(|e.pos|) == e.ListSlice()
  {
    ListIsLayout(e, |e.cs|);
    SplitAt(e, |e.cs|, |e.pos|);
  }

  lemma {:induction false} GroupGrows(e: Extended, c: nat, j: nat, m: nat)
    requires e.Sound() && j <= m <= |e.pos|
    ensures var g, h := e.Group(c, |e.cs|, j), e.Group(c, |e.cs|, m); |g| <= |h| && h[..|g|] == g
    decreases m
  {
    if j < m { GroupGrows(e, c, j, m - 1); }
  }

  lemma {:induction false} ListGrows(e: Extended, i: nat, k: nat)
    requires e.Sound() && i <= k <= |e.cs|
    ensures |e.ListUpto(i)| <= |e.ListUpto(k)| && e.ListUpto(k)[..|e.ListUpto(i)|] == e.ListUpto(i)
    decreases k
  {
    if i < k {
      ListGrows(e, i, k - 1);
      PrefixGrows(e.ListUpto(i), e.ListUpto(k - 1), e.Slot(k - 1));
    }
  }

  lemma {:induction false} PrefixGrows(x: seq<Pair>, y: seq<Pair>, z: seq<Pair>)
    requires |x| <= |y| && y[..|x|] == x
    ensures |x| <= |y + z| && (y + z)[..|x|] == x
  {
  }

  /** Each pair of the list result stands in the slot of one position. */
  lemma {:induction false} SlotOf(e: Extended, i: nat, k: nat) returns (j: nat)
    requires e.Fits() && i <= |e.cs| && k < |e.ListUpto(i)|
    ensures j < i && k == |e.ListUpto(j)| && e.Slot(j) == [e.ListUpto(i)[k]]
    decreases i
  {
    if k < |e.ListUpto(i - 1)| {
      j := SlotOf(e, i - 1, k);
    } else {
      j := i - 1;
      LastOf(e.ListUpto(j), e.Slot(j), k);
    }
  }

  /** The `x`-th new element occurs once in the list result, at its position. */
  lemma {:induction false} OnlyThere(e: Extended, i: nat, x: nat, k: nat)
    requires e.Sound() && i <= |e.cs| && x < |e.pos| && k < |e.ListUpto(i)| && e.ListUpto(i)[k] == e.added[x]
    ensures k == |e.ListUpto(e.pos[x])|
  {
    var j := SlotOf(e, i, k);
    SlotHolds(e, j, x);
  }

  lemma {:induction false} LastOf(l: seq<Pair>, slot: seq<Pair>, k: nat)
    requires |slot| <= 1 && |l| <= k < |l + slot|
    ensures k == |l| && slot == [(l + slot)[k]]
  {
  }

  lemma {:induction false} SlotHolds(e: Extended, i: nat, x: nat)
    requires e.Sound() && i < |e.cs| && x < |e.pos| && e.Slot(i) == [e.added[x]]
    ensures i == e.pos[x]
  {
    if i !in e.pos { KeptIsOther(e, i, x); }
  }

  lemma {:induction false} KeptIsOther(e: Extended, i: nat, x: nat)
    requires e.Sound() && i < |e.cs| && x < |e.pos| && i !in e.pos
    ensures e.Slot(i) != [e.added[x]]
  {
    if e.Kept(i) { assert e.cs[i] != e.added[x]; }
  }

  lemma {:induction false} InGroup(e: Extended, x: nat, m: nat)
    requires e.Sound() && x < m <= |e.pos|
    ensures var c := e.Anchor(x); var k := |e.Group(c, |e.cs|, x)|;
      k < |e.Group(c, |e.cs|, x + 1)| <= |e.Group(c, |e.cs|, m)| && e.Group(c, |e.cs|, m)[k] == e.added[x]
  {
    GroupEnds(e, x);
    GroupGrows(e, e.Anchor(x), x + 1, m);
    var g, k := e.Group(e.Anchor(x), |e.cs|, x + 1), |e.Group(e.Anchor(x), |e.cs|, x)|;
    assert g[k] == e.added[x];
    assert e.Group(e.Anchor(x), |e.cs|, m)[..|g|][k] == e.added[x];
  }

  /** Where the `x`-th new element ends up. */
  lemma {:induction false} StandsAt(e: Extended, x: nat, c: nat, k: nat)
    requires e.Sound() && x < |e.pos| && c == e.Anchor(x) && k == |e.Upto(c, |e.pos|)| + |e.Group(c, |e.cs|, x)|
    ensures k < |e.Placed(|e.pos|)| && e.Placed(|e.pos|)[k] == e.added[x]
  {
    Around(e, c, |e.pos|);
    InGroup(e, x, |e.pos|);
    InMiddle(e.Upto(c, |e.pos|), e.Group(c, |e.cs|, |e.pos|), e.Beyond(c, |e.pos|), |e.Group(c, |e.cs|, x)|);
  }

  /** Two new elements that share an anchor stand in the order of placement. */
  lemma {:induction false} PlacedInTurn(e: Extended, x: nat, y: nat) returns (k: nat, l: nat)
    requires e.Sound() && x < y < |e.pos| && e.Anchor(x) == e.Anchor(y)
    ensures k < l < |e.Placed(|e.pos|)| && e.Placed(|e.pos|)[k] == e.added[x] && e.Placed(|e.pos|)[l] == e.added[y]
  {
    var c := e.Anchor(x);
    InGroup(e, x, y);
    k, l := |e.Upto(c, |e.pos|)| + |e.Group(c, |e.cs|, x)|, |e.Upto(c, |e.pos|)| + |e.Group(c, |e.cs|, y)|;
    StandsAt(e, x, c, k);
    StandsAt(e, y, c, l);
  }

  lemma {:induction false} DisorderedDiffer(e: Extended, x: nat, y: nat)
    requires e.Sound() && x < y < |e.pos| && e.Anchor(x) == e.Anchor(y) && e.pos[y] < e.pos[x]
    ensures e.Placed(|e.pos|) != e.ListSlice()
  {
    var k, l := PlacedInTurn(e, x, y);
    if e.Placed(|e.pos|) == e.ListSlice() {
      OnlyThere(e, |e.cs|, x, k);
      OnlyThere(e, |e.cs|, y, l);
      ListGrows(e, e.pos[y], e.pos[x]);
    }
  }

  /** The anchors do what list assignment does exactly when they keep the
      order of positions. */
  lemma {:induction false} AnchorsDoListAssignment(e: Extended)
    requires e.Sound()
    ensures e.Placed(|e.pos|) == e.ListSlice() <==> e.InOrder()
  {
    if e.InOrder() {
      OrderedAgree(e);
    } else {
      var x, y :| 0 <= x < y < |e.pos| && !e.Ordered(x, y);
      DisorderedDiffer(e, x, y);
    }
  }

  lemma {:induction false} Regroup(u: seq<Pair>, g: seq<Pair>, p: seq<Pair>, f: seq<Pair>)
    ensures u + (g + p + f) == (u + g) + (p + f)
  {
  }

  lemma {:induction false} InMiddle(u: seq<Pair>, g: seq<Pair>, b: seq<Pair>, k: nat)
    requires k < |g|
    ensures |u| + k < |(u + g) + b| && ((u + g) + b)[|u| + k] == g[k]
  {
  }

  lemma {:induction false} Snoc(u: seq<Pair>, g: seq<Pair>, p: Pair)
    ensures u + (g + [p]) == (u + g) + [p]
  {
  }

  /** Rising positions are always in order; falling ones only if no two new
      elements share an anchor. */
  lemma {:induction false} StepDecides(e: Extended, step: int)
    requires e.Sound()
    requires Monotone(e.pos, step)
    ensures step > 0 ==> e.Placed(|e.pos|) == e.ListSlice()
    ensures step <= 0 ==>
      (e.Placed(|e.pos|) == e.ListSlice() <==> forall x, y :: 0 <= x < y < |e.pos| ==> e.Anchor(x) != e.Anchor(y))
  {
    AnchorsDoListAssignment(e);
    if step <= 0 {
      FallingOrder(e);
    } else {
      assert forall x, y {:trigger e.Ordered(x, y)} :: 0 <= x < y < |e.pos| ==> e.Ordered(x, y);
    }
  }

  lemma {:induction false} FallingOrder(e: Extended)
    requires e.Fits() && forall x, y :: 0 <= x < y < |e.pos| ==> e.pos[x] > e.pos[y]
    ensures e.InOrder() <==> forall x, y :: 0 <= x < y < |e.pos| ==> e.Anchor(x) != e.Anchor(y)
  {
    if e.InOrder() {
      forall x, y | 0 <= x < y < |e.pos| ensures e.Anchor(x) != e.Anchor(y) { assert e.Ordered(x, y); }
    } else {
      var x, y :| 0 <= x < y < |e.pos| && !e.Ordered(x, y);
      assert e.Anchor(x) == e.Anchor(y);
    }
  }
}
