/** The lazy descendant iterators: an explicit stack of node ids that produces
    the tag-filtered pre-order of a subtree, one match or one batch at a time. */
module DescendantWalk {
  import opened Prelude
  import opened Arena

  datatype DescFilter = All | Elements | Named(ns: Option<string>, local: string)

  predicate Matches(k: Kind, f: DescFilter) {
    match f
    case All => k.Content()
    case Elements => k.Element?
    case Named(ns, local) => k.Element? && k.name.ns == ns && k.name.local == local
  }

  /** Ids of the matching nodes among `ts`, in the given order. */
  function Matching(ts: seq<Tree>, f: DescFilter): seq<Id> {
    if ts == [] then []
    else (if Matches(ts[0].kind, f) then [ts[0].id] else []) + Matching(ts[1..], f)
  }

  /** What a walk that still has the subtrees `todo` ahead of it will yield. */
  function Ahead(todo: seq<Tree>, f: DescFilter): seq<Id> {
    Matching(PreorderAll(todo), f)
  }

  /** The stack holds the roots of the pending subtrees, next one on top. */
  ghost predicate Pending(a: Arena, stack: seq<Id>, todo: seq<Tree>) {
    HoldsAll(a, todo) && stack == Reverse(Ids(todo))
  }

  lemma {:induction false} PopStep(a: Arena, stack: seq<Id>, todo: seq<Tree>)
    requires Pending(a, stack, todo) && todo != []
    ensures stack[|stack| - 1] == todo[0].id
    ensures Pending(a, stack[..|stack| - 1] + Reverse(Ids(todo[0].kids)), todo[0].kids + todo[1..])
    ensures PreorderAll(todo) == [todo[0]] + PreorderAll(todo[0].kids + todo[1..])
  {
    PopStack(stack, todo[0], todo[1..], todo);
    PopOrder(todo[0], todo[1..], todo);
    HoldsConcat(a, todo[0].kids, todo[1..]);
  }

  lemma {:induction false} PopStack(stack: seq<Id>, t: Tree, rest: seq<Tree>, todo: seq<Tree>)
    requires todo == [t] + rest && stack == Reverse(Ids(todo))
    ensures stack[|stack| - 1] == t.id
    ensures stack[..|stack| - 1] + Reverse(Ids(t.kids)) == Reverse(Ids(t.kids + rest))
  {
    assert Ids(todo) == [t.id] + Ids(rest);
    ReverseConcat([t.id], Ids(rest));
    ReverseConcat(Ids(t.kids), Ids(rest));
    assert Ids(t.kids + rest) == Ids(t.kids) + Ids(rest);
    assert stack[..|stack| - 1] == Reverse(Ids(rest));
  }

  lemma {:induction false} PopOrder(t: Tree, rest: seq<Tree>, todo: seq<Tree>)
    requires todo == [t] + rest
    ensures PreorderAll(todo) == [t] + PreorderAll(t.kids + rest)
  {
    PreorderConcat(t.kids, rest);
    assert todo[1..] == rest;
    assert [t] + PreorderAll(t.kids) + PreorderAll(rest) == [t] + (PreorderAll(t.kids) + PreorderAll(rest));
  }

  lemma {:induction false} HoldsConcat(a: Arena, xs: seq<Tree>, ys: seq<Tree>)
    requires HoldsAll(a, xs) && HoldsAll(a, ys)
    ensures HoldsAll(a, xs + ys)
  {
  }

  /** Push the children of `id` so that the first one is popped first. */
  method StackKids(a: Arena, id: Id, below: seq<Id>, ghost t: Tree) returns (stack: seq<Id>)
    requires Wf(a) && Holds(a, t) && t.id == id
    ensures stack == below + Reverse(Ids(t.kids))
  {
    stack := below;
    var start := |stack|;
    var child := FirstChild(a, id);
    ghost var i := 0;
    while child.Some?
      invariant 0 <= i <= |t.kids| && child == ChildAt(a, id, i)
      invariant stack == below + Ids(t.kids)[..i]
      decreases |t.kids| - i
    {
      stack := stack + [child.value];
      SiblingStep(a, id, i);
      child := NextSibling(a, child.value);
      i := i + 1;
    }
    assert stack[start..] == Ids(t.kids) && stack[..start] == below;
    stack := stack[..start] + Reverse(stack[start..]);
  }

  /** Resume the walk up to its next match; `None` once the stack is exhausted. */
  method AdvanceDescWalk(a: Arena, stack0: seq<Id>, f: DescFilter, ghost todo0: seq<Tree>)
    returns (found: Option<Id>, stack: seq<Id>, ghost todo: seq<Tree>)
    requires Wf(a) && Pending(a, stack0, todo0)
    ensures Pending(a, stack, todo)
    ensures found == if Ahead(todo0, f) == [] then None else Some(Ahead(todo0, f)[0])
    ensures found.None? ==> todo == []
    ensures found.Some? ==> Ahead(todo0, f) == [found.value] + Ahead(todo, f)
  {
    found, stack, todo := None, stack0, todo0;
    while stack != []
      invariant Pending(a, stack, todo)
      invariant Ahead(todo0, f) == Ahead(todo, f)
      decreases |PreorderAll(todo)|
    {
      PopStep(a, stack, todo);
      ghost var before, t := todo, todo[0];
      var id := stack[|stack| - 1];
      stack := StackKids(a, id, stack[..|stack| - 1], t);
      todo := t.kids + todo[1..];
      assert PreorderAll(before) == [t] + PreorderAll(todo);
      if Matches(a.kind[id], f) {
        found := Some(id);
        return;
      }
    }
  }

  lemma {:induction false} MatchingDistinct(ts: seq<Tree>, f: DescFilter)
    requires NoDup(Ids(ts))
    ensures NoDup(Matching(ts, f))
    ensures forall x :: x in Matching(ts, f) ==> x in Ids(ts)
  {
    if ts != [] {
      assert Ids(ts) == [ts[0].id] + Ids(ts[1..]);
      forall i, j | 0 <= i < j < |ts[1..]| ensures Ids(ts[1..])[i] != Ids(ts[1..])[j] {
        assert Ids(ts)[i + 1] != Ids(ts)[j + 1];
      }
      MatchingDistinct(ts[1..], f);
      forall k | 0 <= k < |ts[1..]| ensures Ids(ts[1..])[k] != ts[0].id {
        assert Ids(ts)[k + 1] != Ids(ts)[0];
      }
      assert ts[0].id !in Ids(ts[1..]);
      NoDupConcat(if Matches(ts[0].kind, f) then [ts[0].id] else [], Matching(ts[1..], f));
    }
  }

  /** The subtree walk yields no node twice. */
  lemma {:induction false} WalkWithoutRepeats(a: Arena, t: Tree, f: DescFilter)
    requires Wf(a) && Holds(a, t)
    ensures NoDup(Ahead([t], f))
  {
    assert PreorderAll([t]) == Preorder(t);
    DistinctNodes(a, t);
    MatchingDistinct(Preorder(t), f);
  }

  /** One match per call. */
  class DescendantIterator {
    var stack: seq<Id>
    const filter: DescFilter
    ghost var todo: seq<Tree>

    constructor (start: Id, filter: DescFilter, ghost t: Tree)
      requires t.id == start
      ensures this.filter == filter && todo == [t] && stack == [start]
    {
      this.filter := filter;
      stack := [start];
      todo := [t];
    }

    ghost predicate Valid(a: Arena)
      reads this
    {
      Pending(a, stack, todo)
    }

    ghost function Remaining(): seq<Id>
      reads this
    {
      Ahead(todo, filter)
    }

    method Next(a: Arena) returns (found: Option<Id>)
      requires Wf(a) && Valid(a)
      modifies this
      ensures Valid(a)
      ensures found.None? ==> old(Remaining()) == [] && Remaining() == []
      ensures found.Some? ==> old(Remaining()) == [found.value] + Remaining()
    {
      found, stack, todo := AdvanceDescWalk(a, stack, filter, todo);
    }
  }

  const BATCH_SIZE := 128

  /** Up to `BATCH_SIZE` matches are found per document lock and handed out
      from a buffer. */
  class ProxyDescendantIterator {
    var stack: seq<Id>
    const filter: DescFilter
    var buffer: seq<Id>
    var bufferIndex: nat
    ghost var todo: seq<Tree>

    constructor (start: Id, filter: DescFilter, ghost t: Tree)
      requires t.id == start
      ensures this.filter == filter && todo == [t] && stack == [start]
      ensures buffer == [] && bufferIndex == 0
    {
      this.filter := filter;
      stack := [start];
      buffer := [];
      bufferIndex := 0;
      todo := [t];
    }

    ghost predicate Valid(a: Arena)
      reads this
    {
      Pending(a, stack, todo) && bufferIndex <= |buffer|
    }

    ghost function Remaining(): seq<Id>
      requires bufferIndex <= |buffer|
      reads this
    {
      buffer[bufferIndex..] + Ahead(todo, filter)
    }

    method Next(a: Arena) returns (found: Option<Id>)
      requires Wf(a) && Valid(a)
      modifies this
      ensures Valid(a)
      ensures found.None? ==> old(Remaining()) == [] && Remaining() == []
      ensures found.Some? ==> old(Remaining()) == [found.value] + Remaining()
    {
      if bufferIndex < |buffer| {
        found := Some(buffer[bufferIndex]);
        bufferIndex := bufferIndex + 1;
      } else {
        buffer, bufferIndex := [], 0;
        var more := true;
        while more && |buffer| < BATCH_SIZE
          invariant Valid(a) && bufferIndex == 0
          invariant Remaining() == old(Remaining())
          invariant !more ==> Ahead(todo, filter) == []
          decreases more, BATCH_SIZE - |buffer|
        {
          var id: Option<Id>;
          id, stack, todo := AdvanceDescWalk(a, stack, filter, todo);
          if id.None? {
            more := false;
          } else {
            buffer := buffer + [id.value];
          }
        }
        if buffer == [] {
          found := None;
        } else {
          bufferIndex := 1;
          found := Some(buffer[0]);
        }
      }
    }
  }

  lemma {:induction false} WholeTree(t: Tree, f: DescFilter)
    ensures Matching(PreorderAll([t]), f) == Matching(Preorder(t), f)
  {
    assert PreorderAll([t]) == Preorder(t);
  }

  /** `out` is drained, `x` is next, `rest` is still to come. */
  ghost predicate Drained(all: seq<Id>, out: seq<Id>, x: Option<Id>, rest: seq<Id>) {
    match x
    case None => all == out
    case Some(v) => all == out + ([v] + rest)
  }

  lemma {:induction false} DrainStep(all: seq<Id>, out: seq<Id>, v: Id, rest: seq<Id>)
    requires Drained(all, out, Some(v), rest)
    ensures all == (out + [v]) + rest && (rest == [] ==> all == out + [v])
  {
  }

  /** Calling the one-at-a-time iterator until it is exhausted yields exactly the
      tag-filtered pre-order of the subtree. */
  method DrainSingle(a: Arena, start: Id, f: DescFilter, ghost t: Tree) returns (out: seq<Id>)
    requires Wf(a) && Holds(a, t) && t.id == start
    ensures out == Matching(Preorder(t), f)
    ensures NoDup(out)
  {
    var it := new DescendantIterator(start, f, t);
    ghost var all := Matching(Preorder(t), f);
    WalkWithoutRepeats(a, t, f);
    WholeTree(t, f);
    out := [];
    var x := it.Next(a);
    while x.Some?
      invariant it.Valid(a) && fresh(it)
      invariant Drained(all, out, x, it.Remaining())
      decreases x.Some?, |it.Remaining()|
    {
      DrainStep(all, out, x.value, it.Remaining());
      out := out + [x.value];
      x := it.Next(a);
    }
  }

  /** The batched iterator yields the same sequence on an unchanged tree. */
  method DrainBatched(a: Arena, start: Id, f: DescFilter, ghost t: Tree) returns (out: seq<Id>)
    requires Wf(a) && Holds(a, t) && t.id == start
    ensures out == Matching(Preorder(t), f)
    ensures NoDup(out)
  {
    var it := new ProxyDescendantIterator(start, f, t);
    ghost var all := Matching(Preorder(t), f);
    WalkWithoutRepeats(a, t, f);
    WholeTree(t, f);
    out := [];
    var x := it.Next(a);
    while x.Some?
      invariant it.Valid(a) && fresh(it)
      invariant Drained(all, out, x, it.Remaining())
      decreases x.Some?, |it.Remaining()|
    {
      DrainStep(all, out, x.value, it.Remaining());
      out := out + [x.value];
      x := it.Next(a);
    }
  }
}
