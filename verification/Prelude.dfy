/** Sequence, option and result vocabulary shared by every module. */
module Prelude {

  datatype Option<+T> = None | Some(value: T)

  datatype Result<+T, +E> = Ok(value: T) | Err(error: E)

  function Min(m: nat, n: nat): nat { if m < n then m else n }

  function Max(m: nat, n: nat): nat { if m < n then n else m }

  ghost predicate NoDup<T>(s: seq<T>) {
    forall i, j :: 0 <= i < j < |s| ==> s[i] != s[j]
  }

  function IndexOf<T(==)>(s: seq<T>, x: T): (i: nat)
    ensures i <= |s|
    ensures i < |s| ==> s[i] == x
    ensures forall j :: 0 <= j < i ==> s[j] != x
    ensures i == |s| <==> x !in s
  {
    if s == [] then 0
    else if s[0] == x then 0
    else
      var k := IndexOf(s[1..], x);
      assert forall j :: 0 < j < |s| ==> s[j] == s[1..][j - 1];
      k + 1
  }

  lemma {:induction false} IndexOfAt<T>(s: seq<T>, i: nat)
    requires NoDup(s) && i < |s|
    ensures IndexOf(s, s[i]) == i
  {
  }

  function Reverse<T>(s: seq<T>): (r: seq<T>)
    ensures |r| == |s|
    ensures forall i :: 0 <= i < |s| ==> r[i] == s[|s| - 1 - i]
  {
    seq(|s|, i requires 0 <= i < |s| => s[|s| - 1 - i])
  }

  lemma {:induction false} ReverseConcat<T>(s: seq<T>, t: seq<T>)
    ensures Reverse(s + t) == Reverse(t) + Reverse(s)
  {
  }

  lemma {:induction false} NoDupConcat<T>(s: seq<T>, t: seq<T>)
    requires NoDup(s) && NoDup(t)
    requires forall x :: x in s ==> x !in t
    ensures NoDup(s + t)
  {
    forall i, j | 0 <= i < j < |s + t| ensures (s + t)[i] != (s + t)[j] {
      if i < |s| <= j {
        assert s[i] in s && t[j - |s|] in t;
      }
    }
  }

  /** What draws on distinct elements, each once, is distinct. */
  lemma {:induction false} OnceAtMost<T>(xs: seq<T>, ys: seq<T>)
    requires multiset(xs) <= multiset(ys) && NoDup(ys)
    ensures NoDup(xs)
  {
    forall i, j | 0 <= i < j < |xs| ensures xs[i] != xs[j] {
      if xs[i] == xs[j] {
        Twice(xs, i, j);
        AtMostOnce(ys, xs[i]);
      }
    }
  }

  lemma {:induction false} Twice<T>(xs: seq<T>, i: nat, j: nat)
    requires i < j < |xs| && xs[i] == xs[j]
    ensures multiset(xs)[xs[i]] >= 2
  {
    assert xs == xs[..j] + xs[j..];
    assert xs[..j][i] == xs[i] && xs[j..][0] == xs[j];
  }

  lemma {:induction false} AtMostOnce<T>(ys: seq<T>, x: T)
    requires NoDup(ys)
    ensures multiset(ys)[x] <= 1
  {
    if ys != [] {
      var front, last := ys[..|ys| - 1], ys[|ys| - 1];
      AtMostOnce(front, x);
      assert ys == front + [last];
    }
  }
}
