/** Python slices: the positions that `start:stop:step` selects on a sequence of
    length `n`. */
module PythonSlices {
  import opened Prelude

  /** The bounds that a slice denotes on a sequence of length `n`. */
  function Clamp(bound: Option<int>, fallback: int, lower: int, upper: int, n: nat): int {
    match bound
    case None => fallback
    case Some(b) =>
      var k := if b < 0 then b + n else b;
      if k < lower then lower else if k > upper then upper else k
  }

  function Indices(start: Option<int>, stop: Option<int>, step: int, n: nat): (r: (int, int))
    requires step != 0
    ensures step > 0 ==> 0 <= r.0 <= n && 0 <= r.1 <= n
    ensures step < 0 ==> -1 <= r.0 < n && -1 <= r.1 < n
  {
    var lower, upper := if step > 0 then 0 else -1, if step > 0 then n else n - 1;
    (Clamp(start, if step > 0 then lower else upper, lower, upper, n),
     Clamp(stop, if step > 0 then upper else lower, lower, upper, n))
  }

  /** `range(start, stop, step)`. */
  function Range(start: int, stop: int, step: int): seq<int>
    requires step != 0
    decreases if step > 0 then stop - start else start - stop
  {
    if (step > 0 && start < stop) || (step < 0 && start > stop) then [start] + Range(start + step, stop, step) else []
  }

  lemma {:induction false} RangeAt(start: int, stop: int, step: int, i: nat)
    requires step != 0 && i < |Range(start, stop, step)|
    ensures Range(start, stop, step)[i] == start + i * step
    ensures if step > 0 then start <= Range(start, stop, step)[i] < stop else stop < Range(start, stop, step)[i] <= start
    decreases i
  {
    if i > 0 {
      RangeAt(start + step, stop, step, i - 1);
    }
  }

  ghost predicate Monotone(r: seq<int>, step: int) {
    forall i, j :: 0 <= i < j < |r| ==> if step > 0 then r[i] < r[j] else r[i] > r[j]
  }

  /** The positions of a slice lie within the sequence, and rise or fall with the step. */
  lemma {:induction false} Positions(start: int, stop: int, step: int, n: nat)
    requires step > 0 ==> 0 <= start <= n && 0 <= stop <= n
    requires step < 0 ==> -1 <= start < n && -1 <= stop < n
    requires step != 0
    ensures forall i :: 0 <= i < |Range(start, stop, step)| ==> 0 <= Range(start, stop, step)[i] < n
    ensures Monotone(Range(start, stop, step), step)
  {
    var r := Range(start, stop, step);
    forall i | 0 <= i < |r| ensures 0 <= r[i] < n && r[i] == start + i * step { RangeAt(start, stop, step, i); }
    forall i, j | 0 <= i < j < |r| ensures if step > 0 then r[i] < r[j] else r[i] > r[j] {
      assert (j - i) * step == j * step - i * step;
      if step > 0 { assert (j - i) * step > 0; } else { assert (j - i) * step < 0; }
    }
  }

  // ------------------------------------------------------------------
  // What a slice selects
  // ------------------------------------------------------------------

  /** The position that a bound names: a negative one counts from the end. */
  ghost predicate NotBelow(i: int, b: int, n: nat) {
    (b >= 0 ==> b <= i) && (b < 0 ==> n + b <= i)
  }

  ghost predicate NotAbove(i: int, b: int, n: nat) {
    (b >= 0 ==> i <= b) && (b < 0 ==> i <= n + b)
  }

  /** Position `i` lies at or after the start and before the stop, in the
      direction of the step. */
  ghost predicate InSlice(i: int, start: Option<int>, stop: Option<int>, step: int, n: nat) {
    && 0 <= i < n
    && (step > 0 ==> (start.None? || NotBelow(i, start.value, n)) && (stop.None? || !NotBelow(i, stop.value, n)))
    && (step < 0 ==> (start.None? || NotAbove(i, start.value, n)) && (stop.None? || !NotAbove(i, stop.value, n)))
  }

  /** Position `i` is `first` or lies beyond it, a whole number of steps away. */
  ghost predicate OnStep(first: int, i: int, step: int)
    requires step != 0
  {
    (step > 0 ==> first <= i) && (step < 0 ==> i <= first) && (i - first) % step == 0
  }

  lemma {:induction false} StepMod(x: int, step: int)
    requires step != 0
    ensures (x - step) % step == x % step
  {
    var q, r := x / step, x % step;
    assert x - step == (q - 1) * step + r;
    UniqueMod(x - step, step, q - 1, r);
  }

  lemma {:induction false} UniqueMod(x: int, step: int, q: int, r: int)
    requires step != 0 && x == q * step + r
    requires 0 <= r && (r < step || r < -step)
    ensures x % step == r
  {
    var p, s := x / step, x % step;
    assert (p - q) * step == r - s;
    var d, w := if p > q then p - q else q - p, if step > 0 then step else -step;
    assert d * w == r - s || d * w == s - r;
    if d > 0 {
      AtLeastOne(d, w);
    }
  }

  lemma {:induction false} AtLeastOne(d: nat, w: nat)
    requires d > 0
    ensures d * w >= w
  {
    assert (d - 1) * w >= 0;
  }

  /** A range holds every whole step from its start to before its stop, and no more. */
  lemma {:induction false} RangeHolds(start: int, stop: int, step: int, i: int)
    requires step != 0
    ensures i in Range(start, stop, step) <==> OnStep(start, i, step) && (if step > 0 then i < stop else stop < i)
    decreases if step > 0 then stop - start else start - stop
  {
    if (step > 0 && start < stop) || (step < 0 && start > stop) {
      RangeHolds(start + step, stop, step, i);
      StepMod(i - start, step);
      assert i - (start + step) == i - start - step;
      if i == start {
        assert 0 % step == 0;
      } else if step > 0 && start < i < start + step {
        UniqueMod(i - start, step, 0, i - start);
      } else if step < 0 && start + step < i < start {
        UniqueMod(i - start, step, 1, i - start - step);
      }
    }
  }

  /** The position nearest to the start. */
  lemma {:induction false} FirstIsNearest(start: Option<int>, stop: Option<int>, step: int, n: nat, i: int)
    requires step != 0
    ensures var b := Indices(start, stop, step, n);
      InSlice(i, start, stop, step, n) <==> if step > 0 then b.0 <= i < b.1 else b.1 < i <= b.0
  {
  }

  /** A slice takes position `i` exactly if `i` lies within its bounds and a whole
      number of steps from the first position taken, which is the position within
      the bounds nearest to the start. */
  lemma {:induction false} SliceTakes(start: Option<int>, stop: Option<int>, step: int, n: nat)
    requires step != 0
    ensures var (b, e) := Indices(start, stop, step, n); var r := Range(b, e, step);
      && (forall i :: InSlice(i, start, stop, step, n) ==> r != [] && if step > 0 then r[0] <= i else i <= r[0])
      && (forall i :: i in r <==> r != [] && InSlice(i, start, stop, step, n) && (i - r[0]) % step == 0)
  {
    var (b, e) := Indices(start, stop, step, n);
    var r := Range(b, e, step);
    forall i
      ensures InSlice(i, start, stop, step, n) <==> if step > 0 then b <= i < e else e < i <= b
      ensures i in r <==> OnStep(b, i, step) && (if step > 0 then i < e else e < i)
    {
      RangeHolds(b, e, step, i);
      FirstIsNearest(start, stop, step, n, i);
    }
  }

  /** Of `n` positions, those from `x` on lie at or after the start. */
  ghost predicate StartsAt(x: nat, start: Option<int>, n: nat) {
    x <= n && forall i {:trigger NotBelow(i, x, n)} :: 0 <= i < n ==> (NotBelow(i, x, n) <==> start.None? || NotBelow(i, start.value, n))
  }

  /** Of `n` positions, those below `y` lie before the stop. */
  ghost predicate StopsAt(y: nat, stop: Option<int>, n: nat) {
    y <= n && forall i {:trigger NotBelow(i, y, n)} :: 0 <= i < n ==> (NotBelow(i, y, n) <==> stop.Some? && NotBelow(i, stop.value, n))
  }

  /** With step 1 the two bounds are where the selected positions start and stop. */
  lemma {:induction false} PlainBounds(start: Option<int>, stop: Option<int>, n: nat, x: nat, y: nat)
    ensures Indices(start, stop, 1, n) == (x, y) <==> StartsAt(x, start, n) && StopsAt(y, stop, n)
  {
    var (b, e) := Indices(start, stop, 1, n);
    assert StartsAt(b, start, n) && StopsAt(e, stop, n);
    if StartsAt(x, start, n) && StopsAt(y, stop, n) {
      OneCut(b, x, n, start);
      if e < n { assert NotBelow(e, e, n) && NotBelow(e, y, n); }
      if y < n { assert NotBelow(y, y, n) && NotBelow(y, e, n); }
    }
  }

  lemma {:induction false} OneCut(b: nat, x: nat, n: nat, start: Option<int>)
    requires StartsAt(b, start, n) && StartsAt(x, start, n)
    ensures b == x
  {
    if b < n { assert NotBelow(b, b, n) && NotBelow(b, x, n); }
    if x < n { assert NotBelow(x, x, n) && NotBelow(x, b, n); }
  }
}
