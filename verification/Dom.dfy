/** The mutable document: what the native DOM's edits do to the arena. */
module Dom {
  import opened Prelude
  import opened Arena

  function Remove<T(==)>(s: seq<T>, x: T): seq<T> {
    var i := IndexOf(s, x);
    if i < |s| then s[..i] + s[i + 1..] else s
  }

  lemma {:induction false} RemoveMembers<T>(s: seq<T>, x: T)
    requires NoDup(s)
    ensures NoDup(Remove(s, x)) && x !in Remove(s, x)
    ensures forall y :: y in s && y != x ==> y in Remove(s, x)
    ensures forall i :: 0 <= i < |Remove(s, x)| ==> Remove(s, x)[i] in s
  {
    var i := IndexOf(s, x);
    if i < |s| {
      DropAt(s, i);
      forall y | y in s && y != x ensures y in Remove(s, x) {
        var j :| 0 <= j < |s| && s[j] == y;
        assert s[j] in s[..i] + s[i + 1..];
      }
    }
  }

  /** Without the member at position `i` all others are left, in order. */
  lemma {:induction false} DropAt<T>(s: seq<T>, i: nat)
    requires NoDup(s) && i < |s|
    ensures var r := s[..i] + s[i + 1..];
      && NoDup(r) && s[i] !in r
      && (forall j :: 0 <= j < |s| && j != i ==> s[j] in r)
      && (forall j :: 0 <= j < |r| ==> r[j] in s)
  {
    var r := s[..i] + s[i + 1..];
    forall j | 0 <= j < |s| && j != i ensures s[j] in r {
      if j < i { assert r[j] == s[j]; } else { assert r[j - 1] == s[j]; }
    }
    assert forall j :: 0 <= j < |r| ==> r[j] == s[if j < i then j else j + 1];
  }

  function Detached(a: Arena, n: Id): Arena {
    if n in a.parent && a.parent[n] in a.kids then
      Arena(a.kind, a.kids[a.parent[n] := Remove(a.kids[a.parent[n]], n)], a.parent - {n})
    else a
  }

  lemma {:induction false} DetachedWf(a: Arena, n: Id)
    requires Wf(a)
    ensures Wf(Detached(a, n)) && n !in Detached(a, n).parent
  {
    if n in a.parent {
      RemoveMembers(a.kids[a.parent[n]], n);
    }
  }

  /** `n` becomes the `i`-th child of `p`. */
  function Placed(a: Arena, p: Id, n: Id, i: nat): Arena
    requires p in a.kids && i <= |a.kids[p]|
  {
    Arena(a.kind, a.kids[p := Insert(a.kids[p], i, n)], a.parent[n := p])
  }

  function Insert<T>(s: seq<T>, i: nat, x: T): seq<T>
    requires i <= |s|
  {
    s[..i] + [x] + s[i..]
  }

  lemma {:induction false} InsertMembers<T>(s: seq<T>, i: nat, x: T)
    requires NoDup(s) && x !in s && i <= |s|
    ensures NoDup(Insert(s, i, x)) && x in Insert(s, i, x)
    ensures forall y :: y in s ==> y in Insert(s, i, x)
    ensures forall j :: 0 <= j < |Insert(s, i, x)| ==> Insert(s, i, x)[j] == x || Insert(s, i, x)[j] in s
  {
    NoDupConcat([x], s[i..]);
    NoDupConcat(s[..i], [x] + s[i..]);
    assert s[..i] + ([x] + s[i..]) == Insert(s, i, x);
    assert s == s[..i] + s[i..];
  }

  lemma {:induction false} PlacedWf(a: Arena, p: Id, n: Id, i: nat)
    requires Wf(a) && p in a.kids && i <= |a.kids[p]| && n in a.kind && n !in a.parent
    ensures Wf(Placed(a, p, n, i))
  {
    assert n !in a.kids[p];
    InsertMembers(a.kids[p], i, n);
  }

  function Added(a: Arena, n: Id, k: Kind): Arena {
    Arena(a.kind[n := k], a.kids[n := []], a.parent)
  }

  function Rekinded(a: Arena, n: Id, k: Kind): Arena {
    Arena(a.kind[n := k], a.kids, a.parent)
  }

  lemma {:induction false} AddedWf(a: Arena, n: Id, k: Kind)
    requires Wf(a) && n !in a.kind
    ensures Wf(Added(a, n, k))
  {
    var b := Added(a, n, k);
    forall c | c in b.parent ensures b.parent[c] in b.kids && c in b.kids[b.parent[c]] {
      assert a.parent[c] in a.kids;
    }
  }

  class Document {
    var arena: Arena
    /** The next arena index to hand out. */
    var next: Id

    ghost predicate Valid()
      reads this
    {
      Wf(arena) && forall n :: n in arena.kind ==> n < next
    }

    constructor ()
      ensures Valid() && arena == EMPTY_ARENA && next == 1
    {
      arena := EMPTY_ARENA;
      next := 1;
    }

    method Create(k: Kind) returns (n: Id)
      requires Valid()
      modifies this
      ensures Valid()
      ensures n !in old(arena.kind) && arena == Added(old(arena), n, k)
      ensures n == old(next) && next == n + 1
    {
      n := next;
      AddedWf(arena, n, k);
      arena := Added(arena, n, k);
      next := next + 1;
    }

    method SetKind(n: Id, k: Kind)
      requires Valid() && n in arena.kind
      modifies `arena
      ensures Valid() && arena == Rekinded(old(arena), n, k)
    {
      arena := Rekinded(arena, n, k);
    }

    method Detach(n: Id)
      requires Valid()
      modifies `arena
      ensures Valid() && arena == Detached(old(arena), n)
    {
      DetachedWf(arena, n);
      arena := Detached(arena, n);
    }

    /** The child is one of the parent's: this is how the etree layer calls it. */
    method RemoveChild(p: Id, c: Id)
      requires Valid() && Parent(arena, c) == Some(p)
      modifies `arena
      ensures Valid() && arena == Detached(old(arena), c)
    {
      Detach(c);
    }

    method AppendChild(p: Id, n: Id)
      requires Valid() && p in arena.kids && n in arena.kind && n !in arena.parent
      modifies `arena
      ensures Valid() && arena == Placed(old(arena), p, n, |old(arena).kids[p]|)
    {
      PlacedWf(arena, p, n, |arena.kids[p]|);
      arena := Placed(arena, p, n, |arena.kids[p]|);
    }

    method InsertBefore(p: Id, n: Id, reference: Id)
      requires Valid() && p in arena.kids && n in arena.kind && n !in arena.parent
      requires reference in arena.kids[p]
      modifies `arena
      ensures Valid() && arena == Placed(old(arena), p, n, IndexOf(old(arena).kids[p], reference))
    {
      var i := IndexOf(arena.kids[p], reference);
      PlacedWf(arena, p, n, i);
      arena := Placed(arena, p, n, i);
    }

    method InsertAfter(p: Id, n: Id, reference: Id)
      requires Valid() && p in arena.kids && n in arena.kind && n !in arena.parent
      requires reference in arena.kids[p]
      modifies `arena
      ensures Valid() && IndexOf(old(arena).kids[p], reference) < |old(arena).kids[p]|
      ensures arena == Placed(old(arena), p, n, IndexOf(old(arena).kids[p], reference) + 1)
    {
      var i := IndexOf(arena.kids[p], reference) + 1;
      PlacedWf(arena, p, n, i);
      arena := Placed(arena, p, n, i);
    }
  }
}
