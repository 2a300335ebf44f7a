/** The post-parse pass in place: an explicit-stack walk that removes comments and
    processing instructions and turns CDATA into text, then a second one that
    coalesces runs of text nodes. */
module PostParse {
  import opened Prelude
  import opened Arena
  import opened Dom
  import opened ParseOptions
  import opened Replay

  /** One parent's child list after its turn, its children's own turns pending. */
  function ListAfter(ph: Phase, ts: seq<Tree>): seq<Tree> {
    if ts == [] then [] else Join(ph, ListAfter(ph, ts[..|ts| - 1]), ts[|ts| - 1])
  }

  lemma {:induction false} FlatSnoc(ph: Phase, ts: seq<Tree>, i: nat)
    requires i < |ts|
    ensures ListAfter(ph, ts[..i + 1]) == Join(ph, ListAfter(ph, ts[..i]), ts[i])
    ensures Ids(Elements(ts[..i + 1])) == Ids(Elements(ts[..i])) + if ts[i].kind.Element? then [ts[i].id] else []
  {
    assert ts[..i + 1][..i] == ts[..i];
    if ts[i].kind.Element? {
      IdsSnoc(Elements(ts[..i]), ts[i]);
    }
  }

  lemma {:induction false} IdsSnoc(ts: seq<Tree>, x: Tree)
    ensures Ids(ts + [x]) == Ids(ts) + [x.id]
  {
  }

  ghost predicate AfterEach(ph: Phase, gs: seq<Tree>, fs: seq<Tree>) {
    |gs| == |fs| && forall i :: 0 <= i < |fs| ==> gs[i] == After(ph, fs[i])
  }

  lemma {:induction false} JoinThenAfter(ph: Phase, fs: seq<Tree>, gs: seq<Tree>, y: Tree)
    requires AfterEach(ph, gs, fs)
    ensures AfterEach(ph, Join(ph, gs, After(ph, y)), Join(ph, fs, y))
  {
  }

  lemma {:induction false} FlatThenAfter(ph: Phase, ts: seq<Tree>)
    ensures AfterEach(ph, AfterKids(ph, ts), ListAfter(ph, ts))
    decreases |ts|
  {
    if ts != [] {
      FlatThenAfter(ph, ts[..|ts| - 1]);
      JoinThenAfter(ph, ListAfter(ph, ts[..|ts| - 1]), AfterKids(ph, ts[..|ts| - 1]), ts[|ts| - 1]);
    }
  }

  /** A rewritten child keeps its id and children, and elements are untouched. */
  ghost predicate From(y: Tree, c: Tree) {
    c.id == y.id && c.kids == y.kids && (c.kind.Element? <==> y.kind.Element?) && (y.kind.Element? ==> y == c)
  }

  ghost predicate FromSome(y: Tree, ts: seq<Tree>) {
    exists c :: c in ts && From(y, c)
  }

  lemma {:induction false} FlatMembers(ph: Phase, ts: seq<Tree>)
    ensures forall y :: y in ListAfter(ph, ts) ==> FromSome(y, ts)
    decreases |ts|
  {
    if ts != [] {
      var front, last := ts[..|ts| - 1], ts[|ts| - 1];
      FlatMembers(ph, front);
      var acc := ListAfter(ph, front);
      forall y | y in ListAfter(ph, ts) ensures FromSome(y, ts) {
        JoinMember(ph, acc, last, y);
        if h :| h in acc && From(y, h) {
          var c :| c in front && From(h, c);
          assert c in ts && From(y, c);
        } else {
          assert last in ts && From(y, last);
        }
      }
    }
  }

  lemma {:induction false} JoinMember(ph: Phase, acc: seq<Tree>, last: Tree, y: Tree)
    requires y in Join(ph, acc, last)
    ensures From(y, last) || exists h :: h in acc && From(y, h)
  {
    if y in acc {
      assert From(y, y);
    } else if ph.Coalesce? && last.kind.Text? && acc != [] && acc[|acc| - 1].kind.Text? {
      var h := acc[|acc| - 1];
      assert h in acc && From(y, h);
    }
  }

  /** The children of `p` when those up to the `i`-th have had their turn. */
  function Current(ph: Phase, ts: seq<Tree>, i: nat): seq<Tree>
    requires i <= |ts|
  {
    ListAfter(ph, ts[..i]) + ts[i..]
  }

  /** `b` is `a` except that node `p` now lists the nodes `cur` among its former
      children, and that its former children may have changed kind. */
  ghost predicate Relisted(a: Arena, b: Arena, p: Id, cur: seq<Tree>) {
    && Wf(b) && b.kind.Keys == a.kind.Keys && p in a.kids && b.kids == a.kids[p := Ids(cur)]
    && (forall x :: x in a.kind && Parent(a, x) != Some(p) ==> b.kind[x] == a.kind[x])
    && (forall k :: 0 <= k < |cur| ==> ListedAs(a, b, p, cur[k]))
  }

  ghost predicate ListedAs(a: Arena, b: Arena, p: Id, t: Tree) {
    Parent(a, t.id) == Some(p) && t.id in b.kind && b.kind[t.id] == t.kind
  }

  lemma {:induction false} RelistedDistinct(a: Arena, b: Arena, p: Id, cur: seq<Tree>)
    requires Relisted(a, b, p, cur)
    ensures forall j, k :: 0 <= j < k < |cur| ==> cur[j].id != cur[k].id
  {
    forall j, k | 0 <= j < k < |cur| ensures cur[j].id != cur[k].id {
      assert b.kids[p][j] == cur[j].id && b.kids[p][k] == cur[k].id;
    }
  }

  lemma {:induction false} RelistedCursor(a: Arena, b: Arena, p: Id, cur: seq<Tree>, n: nat)
    requires Relisted(a, b, p, cur) && n < |cur|
    ensures NextSibling(b, cur[n].id) == (if n + 1 < |cur| then Some(cur[n + 1].id) else None)
    ensures Parent(b, cur[n].id) == Some(p)
  {
    assert b.kids[p][n] == cur[n].id;
    SiblingStep(b, p, n);
  }

  lemma {:induction false} RekindedWf(b: Arena, x: Id, k: Kind)
    requires Wf(b) && x in b.kind
    ensures Wf(Rekinded(b, x, k))
  {
  }

  lemma {:induction false} Rekind(a: Arena, b: Arena, p: Id, cur: seq<Tree>, n: nat, k: Kind)
    requires Relisted(a, b, p, cur) && n < |cur|
    ensures Relisted(a, Rekinded(b, cur[n].id, k), p, cur[n := cur[n].(kind := k)])
  {
    RekindedWf(b, cur[n].id, k);
    RelistedDistinct(a, b, p, cur);
    assert Ids(cur[n := cur[n].(kind := k)]) == Ids(cur);
  }

  lemma {:induction false} RemoveMiddle<T>(xs: seq<T>, x: T, ys: seq<T>)
    requires NoDup(xs + [x] + ys)
    ensures Remove(xs + [x] + ys, x) == xs + ys
  {
    var s := xs + [x] + ys;
    assert s[|xs|] == x;
    IndexOfAt(s, |xs|);
    assert s[..|xs|] == xs && s[|xs| + 1..] == ys;
  }

  lemma {:induction false} DetachMiddle(b: Arena, p: Id, xs: seq<Id>, x: Id, ys: seq<Id>)
    requires Wf(b) && p in b.kids && b.kids[p] == xs + [x] + ys
    ensures var c := Detached(b, x); Wf(c) && c.kind == b.kind && c.kids == b.kids[p := xs + ys]
  {
    assert b.kids[p][|xs|] == x;
    assert Parent(b, b.kids[p][|xs|]) == Some(p);
    DetachedWf(b, x);
    RemoveMiddle(xs, x, ys);
  }

  lemma {:induction false} DropArena(b: Arena, p: Id, cur: seq<Tree>, n: nat, cleared: Kind)
    requires Wf(b) && p in b.kids && b.kids[p] == Ids(cur) && n < |cur|
    ensures cur[n].id in b.kind
    ensures var c := Rekinded(Detached(b, cur[n].id), cur[n].id, cleared);
            Wf(c) && c.kind == b.kind[cur[n].id := cleared] && c.kids == b.kids[p := Ids(cur[..n] + cur[n + 1..])]
  {
    var xs, x, ys := Ids(cur[..n]), cur[n].id, Ids(cur[n + 1..]);
    assert b.kids[p][n] == x;
    assert Ids(cur) == xs + [x] + ys && Ids(cur[..n] + cur[n + 1..]) == xs + ys;
    DetachMiddle(b, p, xs, x, ys);
    RekindedWf(Detached(b, x), x, cleared);
  }

  lemma {:induction false} Unlisted(a: Arena, b: Arena, c: Arena, p: Id, cur: seq<Tree>, rest: seq<Tree>, n: nat, cleared: Kind)
    requires Relisted(a, b, p, cur) && n < |cur| && rest == cur[..n] + cur[n + 1..]
    requires Wf(c) && c.kind == b.kind[cur[n].id := cleared] && c.kids == b.kids[p := Ids(rest)]
    ensures Relisted(a, c, p, rest)
  {
    RelistedDistinct(a, b, p, cur);
    assert ListedAs(a, b, p, cur[n]);
    RestListed(a, b, c, p, cur, rest, n, cleared);
    OthersKept(a, b, c, p, cur[n].id, cleared);
    ListedTwice(a.kids, p, Ids(cur), Ids(rest));
  }

  lemma {:induction false} OthersKept(a: Arena, b: Arena, c: Arena, p: Id, n: Id, k: Kind)
    requires b.kind.Keys == a.kind.Keys && Parent(a, n) == Some(p) && n in b.kind && c.kind == b.kind[n := k]
    requires forall x :: x in a.kind && Parent(a, x) != Some(p) ==> b.kind[x] == a.kind[x]
    ensures c.kind.Keys == a.kind.Keys && forall x :: x in a.kind && Parent(a, x) != Some(p) ==> c.kind[x] == a.kind[x]
  {
  }

  lemma {:induction false} ListedTwice(kids: map<Id, seq<Id>>, p: Id, x: seq<Id>, y: seq<Id>)
    ensures kids[p := x][p := y] == kids[p := y]
  {
  }

  lemma {:induction false} RestListed(a: Arena, b: Arena, c: Arena, p: Id, cur: seq<Tree>, rest: seq<Tree>, n: nat, cleared: Kind)
    requires n < |cur| && rest == cur[..n] + cur[n + 1..] && NoDup(Ids(cur)) && c.kind == b.kind[cur[n].id := cleared]
    requires forall k :: 0 <= k < |cur| ==> ListedAs(a, b, p, cur[k])
    ensures forall k :: 0 <= k < |rest| ==> ListedAs(a, c, p, rest[k])
  {
    forall k | 0 <= k < |rest| ensures ListedAs(a, c, p, rest[k]) {
      StillListed(a, b, c, p, cur, n, cleared, if k < n then k else k + 1);
    }
  }

  lemma {:induction false} StillListed(a: Arena, b: Arena, c: Arena, p: Id, cur: seq<Tree>, n: nat, cleared: Kind, j: nat)
    requires n < |cur| && j < |cur| && j != n && ListedAs(a, b, p, cur[j]) && NoDup(Ids(cur)) && c.kind == b.kind[cur[n].id := cleared]
    ensures ListedAs(a, c, p, cur[j])
  {
    assert Ids(cur)[j] != Ids(cur)[n];
  }

  /** Removing a listed node, and clearing its payload. */
  lemma {:induction false} Drop(a: Arena, b: Arena, p: Id, cur: seq<Tree>, n: nat, cleared: Kind)
    requires Relisted(a, b, p, cur) && n < |cur|
    ensures Relisted(a, Rekinded(Detached(b, cur[n].id), cur[n].id, cleared), p, cur[..n] + cur[n + 1..])
  {
    DropArena(b, p, cur, n, cleared);
    Unlisted(a, b, Rekinded(Detached(b, cur[n].id), cur[n].id, cleared), p, cur, cur[..n] + cur[n + 1..], n, cleared);
  }

  lemma {:induction false} CurrentKept(ph: Phase, ts: seq<Tree>, i: nat, k: Kind)
    requires i < |ts| && Join(ph, ListAfter(ph, ts[..i]), ts[i]) == ListAfter(ph, ts[..i]) + [ts[i].(kind := k)]
    ensures var n := |ListAfter(ph, ts[..i])|;
            Current(ph, ts, i)[n] == ts[i] && Current(ph, ts, i + 1) == Current(ph, ts, i)[n := ts[i].(kind := k)]
  {
    FlatSnoc(ph, ts, i);
  }

  lemma {:induction false} CurrentDropped(ph: Phase, ts: seq<Tree>, i: nat)
    requires i < |ts| && Join(ph, ListAfter(ph, ts[..i]), ts[i]) == ListAfter(ph, ts[..i])
    ensures var n, cur := |ListAfter(ph, ts[..i])|, Current(ph, ts, i);
            cur[n] == ts[i] && Current(ph, ts, i + 1) == cur[..n] + cur[n + 1..]
  {
    FlatSnoc(ph, ts, i);
  }

  lemma {:induction false} MergeLists(done: seq<Tree>, x: Tree, tail: seq<Tree>, head: Tree)
    requires done != []
    ensures var n, cur := |done|, done + ([x] + tail);
      && cur[n] == x && cur[n - 1] == done[n - 1]
      && cur[n - 1 := head][..n] + cur[n - 1 := head][n + 1..] == done[..n - 1] + [head] + tail
  {
  }

  lemma {:induction false} CurrentMerged(ts: seq<Tree>, i: nat)
    requires i < |ts| && ts[i].kind.Text?
    requires var done := ListAfter(Coalesce, ts[..i]); done != [] && done[|done| - 1].kind.Text?
    ensures var n, cur := |ListAfter(Coalesce, ts[..i])|, Current(Coalesce, ts, i);
            var head := cur[n - 1].(kind := Text(cur[n - 1].kind.text + ts[i].kind.text));
            && cur[n] == ts[i]
            && Current(Coalesce, ts, i + 1) == cur[n - 1 := head][..n] + cur[n - 1 := head][n + 1..]
  {
    var done := ListAfter(Coalesce, ts[..i]);
    var h := done[|done| - 1];
    var head := h.(kind := Text(h.kind.text + ts[i].kind.text));
    MergedFlat(ts, i, head);
    assert ts[i..] == [ts[i]] + ts[i + 1..];
    MergeLists(done, ts[i], ts[i + 1..], head);
  }

  lemma {:induction false} MergedFlat(ts: seq<Tree>, i: nat, head: Tree)
    requires i < |ts| && ts[i].kind.Text?
    requires ListAfter(Coalesce, ts[..i]) != []
    requires var h := ListAfter(Coalesce, ts[..i])[|ListAfter(Coalesce, ts[..i])| - 1];
             h.kind.Text? && head == h.(kind := Text(h.kind.text + ts[i].kind.text))
    ensures var done := ListAfter(Coalesce, ts[..i]); ListAfter(Coalesce, ts[..i + 1]) == done[..|done| - 1] + [head]
  {
    FlatSnoc(Coalesce, ts, i);
  }

  // ------------------------------------------------------------------
  // One parent's turn
  // ------------------------------------------------------------------

  /** The payload a removed leaf is left with. */
  function Released(k: Kind): Kind {
    match k
    case Text(_) => Text("")
    case CData(_) => CData("")
    case Comment(_) => Comment("")
    case PI(target, _) => PI(target, None)
    case Element(name, _, _) => Element(name, [], [])
    case Root => Root
  }

  /** Remove a leaf child and release its payload. */
  method RemoveLeaf(doc: Document, parent: Id, c: Id)
    requires doc.Valid() && Parent(doc.arena, c) == Some(parent) && c in doc.arena.kind
    modifies doc`arena
    ensures doc.Valid()
    ensures doc.arena == Rekinded(Detached(old(doc.arena), c), c, Released(old(doc.arena).kind[c]))
  {
    var k := doc.arena.kind[c];
    doc.RemoveChild(parent, c);
    doc.SetKind(c, Released(k));
  }

  /** The walk stands at the `i`-th child of `p`, whose turn is next. */
  ghost predicate Reached(a: Arena, b: Arena, ph: Phase, p: Tree, i: nat) {
    i <= |p.kids| && Relisted(a, b, p.id, Current(ph, p.kids, i))
  }

  lemma {:induction false} NoneReached(a: Arena, ph: Phase, p: Tree)
    requires Relisted(a, a, p.id, p.kids)
    ensures Reached(a, a, ph, p, 0) && Elements(p.kids[..0]) == [] && ListAfter(ph, p.kids[..0]) == []
    ensures FirstChild(a, p.id) == if p.kids == [] then None else Some(p.kids[0].id)
  {
    assert Current(ph, p.kids, 0) == p.kids;
    assert a.kids[p.id] == Ids(p.kids);
  }

  lemma {:induction false} AllReached(a: Arena, b: Arena, ph: Phase, p: Tree, i: nat)
    requires Reached(a, b, ph, p, i) && i == |p.kids|
    ensures Relisted(a, b, p.id, ListAfter(ph, p.kids)) && Elements(p.kids[..i]) == Elements(p.kids)
  {
    assert p.kids[..i] == p.kids && Current(ph, p.kids, i) == ListAfter(ph, p.kids);
  }

  lemma {:induction false} ReachedCursor(a: Arena, b: Arena, ph: Phase, p: Tree, i: nat)
    requires Reached(a, b, ph, p, i) && i < |p.kids|
    ensures p.kids[i].id in b.kind && b.kind[p.kids[i].id] == p.kids[i].kind
    ensures NextSibling(b, p.kids[i].id) == (if i + 1 < |p.kids| then Some(p.kids[i + 1].id) else None)
    ensures Parent(b, p.kids[i].id) == Some(p.id)
  {
    var n := |ListAfter(ph, p.kids[..i])|;
    assert Current(ph, p.kids, i)[n] == p.kids[i];
    RelistedCursor(a, b, p.id, Current(ph, p.kids, i), n);
  }

  lemma {:induction false} DropStep(a: Arena, b: Arena, o: Options, p: Tree, i: nat)
    requires i < |p.kids| && Reached(a, b, Strip(o), p, i) && Removed(p.kids[i].kind, o)
    ensures Reached(a, Rekinded(Detached(b, p.kids[i].id), p.kids[i].id, Released(p.kids[i].kind)), Strip(o), p, i + 1)
  {
    var ts, ph := p.kids, Strip(o);
    CurrentDropped(ph, ts, i);
    Drop(a, b, p.id, Current(ph, ts, i), |ListAfter(ph, ts[..i])|, Released(ts[i].kind));
  }

  lemma {:induction false} ConvertStep(a: Arena, b: Arena, o: Options, p: Tree, i: nat)
    requires i < |p.kids| && Reached(a, b, Strip(o), p, i) && !Removed(p.kids[i].kind, o)
    ensures Reached(a, Rekinded(b, p.kids[i].id, Converted(p.kids[i].kind, o)), Strip(o), p, i + 1)
  {
    var ts, ph := p.kids, Strip(o);
    var k := Converted(ts[i].kind, o);
    CurrentKept(ph, ts, i, k);
    Rekind(a, b, p.id, Current(ph, ts, i), |ListAfter(ph, ts[..i])|, k);
  }

  method StripChild(doc: Document, parent: Id, cid: Id, o: Options, ghost a: Arena, ghost p: Tree, ghost i: nat)
    requires doc.Valid() && p.id == parent && i < |p.kids| && p.kids[i].id == cid
    requires Reached(a, doc.arena, Strip(o), p, i)
    modifies doc`arena
    ensures doc.Valid() && Reached(a, doc.arena, Strip(o), p, i + 1)
  {
    ReachedCursor(a, doc.arena, Strip(o), p, i);
    if Removed(doc.arena.kind[cid], o) {
      DropStep(a, doc.arena, o, p, i);
      RemoveLeaf(doc, parent, cid);
    } else {
      ConvertStep(a, doc.arena, o, p, i);
      ConvertChild(doc, cid, o);
    }
  }

  method ConvertChild(doc: Document, cid: Id, o: Options)
    requires doc.Valid() && cid in doc.arena.kind
    modifies doc`arena
    ensures doc.Valid() && doc.arena == Rekinded(old(doc.arena), cid, Converted(old(doc.arena).kind[cid], o))
  {
    var k := doc.arena.kind[cid];
    if k.CData? && o.stripCdata {
      doc.SetKind(cid, Text(k.text));
    } else {
      assert Rekinded(doc.arena, cid, k) == doc.arena;
    }
  }

  method StripChildren(doc: Document, parent: Id, o: Options, ghost p: Tree) returns (elements: seq<Id>)
    requires doc.Valid() && p.id == parent && Relisted(doc.arena, doc.arena, parent, p.kids)
    modifies doc`arena
    ensures doc.Valid()
    ensures Relisted(old(doc.arena), doc.arena, parent, ListAfter(Strip(o), p.kids))
    ensures elements == Ids(Elements(p.kids))
  {
    ghost var a, ts := doc.arena, p.kids;
    elements := [];
    var child := FirstChild(doc.arena, parent);
    ghost var i := 0;
    NoneReached(a, Strip(o), p);
    while child.Some?
      invariant doc.Valid() && 0 <= i <= |ts|
      invariant child == (if i < |ts| then Some(ts[i].id) else None)
      invariant Reached(a, doc.arena, Strip(o), p, i)
      invariant elements == Ids(Elements(ts[..i]))
      decreases |ts| - i
    {
      var cid := child.value;
      ReachedCursor(a, doc.arena, Strip(o), p, i);
      FlatSnoc(Strip(o), ts, i);
      var next := NextSibling(doc.arena, cid);
      if doc.arena.kind[cid].Element? {
        elements := elements + [cid];
      }
      StripChild(doc, parent, cid, o, a, p, i);
      child := next;
      i := i + 1;
    }
    AllReached(a, doc.arena, Strip(o), p, i);
  }

  /** The head of the text run that the next child would join. */
  function RunHead(done: seq<Tree>): Option<Id> {
    if done != [] && done[|done| - 1].kind.Text? then Some(done[|done| - 1].id) else None
  }

  /** A text child joins the run before it: the head takes its text, it goes. */
  lemma {:induction false} MergeStep(a: Arena, b: Arena, p: Tree, i: nat)
    requires i < |p.kids| && Reached(a, b, Coalesce, p, i)
    requires p.kids[i].kind.Text? && RunHead(ListAfter(Coalesce, p.kids[..i])).Some?
    ensures var h := RunHead(ListAfter(Coalesce, p.kids[..i])).value;
      && h in b.kind && b.kind[h].Text?
      && var m := Rekinded(b, h, Text(b.kind[h].text + p.kids[i].kind.text));
      && Wf(m) && Parent(m, p.kids[i].id) == Some(p.id) && p.kids[i].id in m.kind && m.kind[p.kids[i].id] == p.kids[i].kind
      && Reached(a, Rekinded(Detached(m, p.kids[i].id), p.kids[i].id, Released(p.kids[i].kind)), Coalesce, p, i + 1)
  {
    var ts, done := p.kids, ListAfter(Coalesce, p.kids[..i]);
    var cur, n := Current(Coalesce, ts, i), |done|;
    assert cur[n - 1] == done[n - 1] && cur[n] == ts[i];
    assert ListedAs(a, b, p.id, cur[n - 1]);
    CurrentMerged(ts, i);
    var k := Text(cur[n - 1].kind.text + ts[i].kind.text);
    var merged := cur[n - 1 := cur[n - 1].(kind := k)];
    Rekind(a, b, p.id, cur, n - 1, k);
    RelistedCursor(a, Rekinded(b, cur[n - 1].id, k), p.id, merged, n);
    Drop(a, Rekinded(b, cur[n - 1].id, k), p.id, merged, n, Released(ts[i].kind));
  }

  lemma {:induction false} RunHeadStep(ts: seq<Tree>, i: nat)
    requires i < |ts|
    ensures RunHead(ListAfter(Coalesce, ts[..i + 1])) ==
      if !ts[i].kind.Text? then None
      else if RunHead(ListAfter(Coalesce, ts[..i])).Some? then RunHead(ListAfter(Coalesce, ts[..i]))
      else Some(ts[i].id)
  {
    FlatSnoc(Coalesce, ts, i);
  }

  method CoalesceChild(doc: Document, parent: Id, cid: Id, runHead: Option<Id>, ghost a: Arena, ghost p: Tree, ghost i: nat)
    returns (head: Option<Id>)
    requires doc.Valid() && p.id == parent && i < |p.kids| && p.kids[i].id == cid
    requires Reached(a, doc.arena, Coalesce, p, i) && runHead == RunHead(ListAfter(Coalesce, p.kids[..i]))
    modifies doc`arena
    ensures doc.Valid() && Reached(a, doc.arena, Coalesce, p, i + 1)
    ensures head == RunHead(ListAfter(Coalesce, p.kids[..i + 1]))
  {
    ReachedCursor(a, doc.arena, Coalesce, p, i);
    RunHeadStep(p.kids, i);
    var k := doc.arena.kind[cid];
    if k.Text? && runHead.Some? {
      head := runHead;
      MergeStep(a, doc.arena, p, i);
      doc.SetKind(head.value, Text(doc.arena.kind[head.value].text + k.text));
      RemoveLeaf(doc, parent, cid);
    } else {
      head := if k.Text? then Some(cid) else None;
      KeepStep(a, doc.arena, p, i);
    }
  }

  lemma {:induction false} KeepStep(a: Arena, b: Arena, p: Tree, i: nat)
    requires i < |p.kids| && Reached(a, b, Coalesce, p, i)
    requires !(p.kids[i].kind.Text? && RunHead(ListAfter(Coalesce, p.kids[..i])).Some?)
    ensures Reached(a, b, Coalesce, p, i + 1)
  {
    CurrentKept(Coalesce, p.kids, i, p.kids[i].kind);
    var n := |ListAfter(Coalesce, p.kids[..i])|;
    assert Current(Coalesce, p.kids, i)[n := p.kids[i].(kind := p.kids[i].kind)] == Current(Coalesce, p.kids, i);
  }

  method CoalesceChildren(doc: Document, parent: Id, ghost p: Tree) returns (elements: seq<Id>)
    requires doc.Valid() && p.id == parent && Relisted(doc.arena, doc.arena, parent, p.kids)
    modifies doc`arena
    ensures doc.Valid()
    ensures Relisted(old(doc.arena), doc.arena, parent, ListAfter(Coalesce, p.kids))
    ensures elements == Ids(Elements(p.kids))
  {
    ghost var a, ts := doc.arena, p.kids;
    elements := [];
    var runHead: Option<Id> := None;
    var child := FirstChild(doc.arena, parent);
    ghost var i := 0;
    NoneReached(a, Coalesce, p);
    while child.Some?
      invariant doc.Valid() && 0 <= i <= |ts|
      invariant child == (if i < |ts| then Some(ts[i].id) else None)
      invariant Reached(a, doc.arena, Coalesce, p, i)
      invariant elements == Ids(Elements(ts[..i]))
      invariant runHead == RunHead(ListAfter(Coalesce, ts[..i]))
      decreases |ts| - i
    {
      var cid := child.value;
      ReachedCursor(a, doc.arena, Coalesce, p, i);
      FlatSnoc(Coalesce, ts, i);
      var next := NextSibling(doc.arena, cid);
      if doc.arena.kind[cid].Element? {
        elements := elements + [cid];
      }
      runHead := CoalesceChild(doc, parent, cid, runHead, a, p, i);
      child := next;
      i := i + 1;
    }
    AllReached(a, doc.arena, Coalesce, p, i);
  }

  // ------------------------------------------------------------------
  // The walk over all parents
  // ------------------------------------------------------------------

  /** Only elements have children. */
  ghost predicate LeavesBare(t: Tree) {
    forall s :: s in Preorder(t) && !s.kind.Element? ==> s.kids == []
  }

  /** What node `s` lists now, given whether it has had its turn. */
  function Listed(ph: Phase, s: Tree, turned: bool): seq<Tree> {
    if turned then ListAfter(ph, s.kids) else s.kids
  }

  ghost predicate NodeState(a: Arena, ph: Phase, s: Tree, turned: bool) {
    var ts := Listed(ph, s, turned);
    && s.id in a.kids && a.kids[s.id] == Ids(ts)
    && forall k :: 0 <= k < |ts| ==> ts[k].id in a.kind && a.kind[ts[k].id] == ts[k].kind
  }

  /** The nodes in `turned` have had their turn, the other ones of `t` not. */
  ghost predicate Progress(a0: Arena, a: Arena, ph: Phase, t: Tree, turned: set<Id>) {
    && Wf(a) && a.kind.Keys == a0.kind.Keys
    && t.id in a.kind && a.kind[t.id] == t.kind
    && (forall s :: s in Preorder(t) ==> NodeState(a, ph, s, s.id in turned))
    && forall x :: !InTree(x, t) ==> SameNode(a0, a, x)
  }

  lemma {:induction false} ProgressStart(a: Arena, ph: Phase, t: Tree)
    requires Wf(a) && Holds(a, t)
    ensures Progress(a, a, ph, t, {})
  {
    forall s | s in Preorder(t) ensures NodeState(a, ph, s, false) {
      HoldsBelow(a, t, s);
    }
  }

  lemma {:induction false} ListedParent(a: Arena, ph: Phase, s: Tree, turned: bool, k: nat)
    requires Wf(a) && NodeState(a, ph, s, turned) && k < |Listed(ph, s, turned)|
    ensures Parent(a, Listed(ph, s, turned)[k].id) == Some(s.id)
  {
    assert a.kids[s.id][k] == Listed(ph, s, turned)[k].id;
  }

  lemma {:induction false} ReadyForTurn(a: Arena, ph: Phase, p: Tree)
    requires Wf(a) && NodeState(a, ph, p, false)
    ensures Relisted(a, a, p.id, p.kids)
  {
    forall k | 0 <= k < |p.kids| ensures ListedAs(a, a, p.id, p.kids[k]) {
      ListedParent(a, ph, p, false, k);
    }
    assert a.kids == a.kids[p.id := Ids(p.kids)];
  }

  /** The turn of one node leaves the state of every other one alone. */
  lemma {:induction false} OtherNode(a: Arena, b: Arena, ph: Phase, p: Tree, s: Tree, turned: bool)
    requires Wf(a) && Relisted(a, b, p.id, ListAfter(ph, p.kids)) && s.id != p.id && NodeState(a, ph, s, turned)
    ensures NodeState(b, ph, s, turned)
  {
    var ts := Listed(ph, s, turned);
    forall k | 0 <= k < |ts| ensures ts[k].id in b.kind && b.kind[ts[k].id] == ts[k].kind {
      ListedParent(a, ph, s, turned, k);
    }
  }

  lemma {:induction false} OwnNode(a: Arena, b: Arena, ph: Phase, p: Tree)
    requires Relisted(a, b, p.id, ListAfter(ph, p.kids))
    ensures NodeState(b, ph, p, true)
  {
    var ts := ListAfter(ph, p.kids);
    forall k | 0 <= k < |ts| ensures ts[k].id in b.kind && b.kind[ts[k].id] == ts[k].kind {
      assert ListedAs(a, b, p.id, ts[k]);
    }
  }

  /** Nothing outside the subtree, and not its root's kind, changes either. */
  lemma {:induction false} OutsideKept(a0: Arena, a: Arena, b: Arena, ph: Phase, t: Tree, p: Tree, x: Id)
    requires Wf(a0) && Holds(a0, t) && p in Preorder(t)
    requires Wf(a) && NodeState(a, ph, p, false) && Relisted(a, b, p.id, ListAfter(ph, p.kids))
    requires !InTree(x, t) || x == t.id
    ensures x in a.kind ==> x in b.kind && b.kind[x] == a.kind[x]
    ensures !InTree(x, t) ==> SameNode(a, b, x)
  {
    if Parent(a, x) == Some(p.id) {
      var k :| 0 <= k < |a.kids[p.id]| && a.kids[p.id][k] == x;
      assert p.kids[k].id == x && p.kids[k] in p.kids;
      Deeper(a0, t, p, p.kids[k]);
    }
    if x == p.id { assert InTree(x, t); }
  }

  lemma {:induction false} ProgressStep(a0: Arena, a: Arena, b: Arena, ph: Phase, t: Tree, turned: set<Id>, p: Tree)
    requires Wf(a0) && Holds(a0, t) && p in Preorder(t) && p.id !in turned
    requires Progress(a0, a, ph, t, turned) && Relisted(a, b, p.id, ListAfter(ph, p.kids))
    ensures Progress(a0, b, ph, t, turned + {p.id})
  {
    forall s | s in Preorder(t) ensures NodeState(b, ph, s, s.id in turned + {p.id}) {
      if s.id == p.id {
        HoldsBelow(a0, t, s);
        HoldsBelow(a0, t, p);
        SameId(a0, s, p);
        OwnNode(a, b, ph, p);
      } else {
        OtherNode(a, b, ph, p, s, s.id in turned);
      }
    }
    OutsideKept(a0, a, b, ph, t, p, t.id);
    forall x | !InTree(x, t) ensures SameNode(a0, b, x) {
      OutsideKept(a0, a, b, ph, t, p, x);
    }
  }

  /** A child is reached once its parent has had its turn, and not before. */
  ghost predicate InTurn(turned: set<Id>, todo: seq<Tree>, s: Tree, c: Tree) {
    && (s.id in turned && c.kind.Element? ==> c.id in turned || c in todo)
    && (c in todo || c.id in turned ==> s.id in turned)
  }

  /** Every element below a turned or pending node is turned or pending. */
  ghost predicate Covers(t: Tree, turned: set<Id>, todo: seq<Tree>) {
    && (t.id in turned || t in todo)
    && (forall i :: 0 <= i < |todo| ==> Waits(t, turned, todo[i]))
    && NoDup(Ids(todo))
    && forall s, c :: s in Preorder(t) && c in s.kids ==> InTurn(turned, todo, s, c)
  }

  /** Once nothing is pending, the arena holds the rewritten subtree. */
  lemma {:induction false} Rewrote(a0: Arena, a: Arena, ph: Phase, t: Tree, turned: set<Id>, s: Tree)
    requires Wf(a0) && Holds(a0, t) && LeavesBare(t) && Progress(a0, a, ph, t, turned)
    requires forall x, c :: x in Preorder(t) && c in x.kids && x.id in turned && c.kind.Element? ==> c.id in turned
    requires forall x :: x in Preorder(t) && x.id in turned ==> x.kind.Element?
    requires s in Preorder(t) && s.kind.Element? && s.id in turned && s.id in a.kind && a.kind[s.id] == s.kind
    ensures Holds(a, After(ph, s))
    decreases s
  {
    var fs, gs := ListAfter(ph, s.kids), AfterKids(ph, s.kids);
    FlatThenAfter(ph, s.kids);
    FlatMembers(ph, s.kids);
    assert NodeState(a, ph, s, true);
    assert Ids(gs) == Ids(fs);
    forall i | 0 <= i < |gs| ensures Holds(a, gs[i]) {
      var y := fs[i];
      assert y in fs;
      var c :| c in s.kids && From(y, c);
      BelowIn(a0, t, s, c);
      if y.kind.Element? {
        Rewrote(a0, a, ph, t, turned, c);
      } else {
        assert NodeState(a, ph, c, c.id in turned) && c.kids == [];
      }
    }
  }

  lemma {:induction false} BelowIn(a: Arena, t: Tree, s: Tree, c: Tree)
    requires Holds(a, t) && s in Preorder(t) && c in s.kids
    ensures c in Preorder(t)
  {
    Deeper(a, t, s, c);
  }

  lemma {:induction false} PushedDistinct(a: Arena, t: Tree, p: Tree, front: seq<Tree>)
    requires Wf(a) && Holds(a, t) && p in Preorder(t) && NoDup(Ids(front))
    requires forall i :: 0 <= i < |front| ==> front[i] in Preorder(t) && front[i] !in p.kids
    ensures NoDup(Ids(front + Elements(p.kids)))
  {
    var es := Elements(p.kids);
    ElementsMembers(p.kids);
    KidsApart(a, t, p);
    ElementsDistinct(p.kids);
    forall x | x in Ids(front) ensures x !in Ids(es) {
      var i :| 0 <= i < |front| && front[i].id == x;
      if x in Ids(es) {
        var j :| 0 <= j < |es| && es[j].id == x;
        assert es[j] in es;
        BelowIn(a, t, p, es[j]);
        HoldsBelow(a, t, front[i]);
        HoldsBelow(a, t, es[j]);
        SameId(a, front[i], es[j]);
      }
    }
    NoDupConcat(Ids(front), Ids(es));
    assert Ids(front + es) == Ids(front) + Ids(es);
  }

  /** The children of a pending node are neither turned nor pending. */
  lemma {:induction false} NotYet(a: Arena, t: Tree, p: Tree, turned: set<Id>, todo: seq<Tree>, c: Tree)
    requires Wf(a) && Holds(a, t) && p in todo && Covers(t, turned, todo) && c in p.kids
    ensures c in Preorder(t) && c.id !in turned + {p.id} && c !in todo
  {
    BelowIn(a, t, p, c);
    HoldsBelow(a, t, p);
    assert p in Preorder(p);
    Deeper(a, p, p, c);
  }

  lemma {:induction false} PushElements(a: Arena, t: Tree, p: Tree, turned: set<Id>, todo: seq<Tree>)
    requires Wf(a) && Holds(a, t) && todo != [] && p == todo[|todo| - 1] && Covers(t, turned, todo)
    ensures Covers(t, turned + {p.id}, todo[..|todo| - 1] + Elements(p.kids))
  {
    var front := todo[..|todo| - 1];
    ElementsMembers(p.kids);
    forall c | c in p.kids ensures c in Preorder(t) && c.id !in turned + {p.id} && c !in todo {
      NotYet(a, t, p, turned, todo, c);
    }
    FrontStays(t, p, turned, todo, front);
    PushedDistinct(a, t, p, front);
    PushedWait(t, turned + {p.id}, front, Elements(p.kids));
    PendingParents(a, t, p, turned, todo);
    CoversRoot(t, p, turned, todo);
  }

  ghost predicate Waits(t: Tree, turned: set<Id>, c: Tree) {
    c in Preorder(t) && c.kind.Element? && c.id !in turned
  }

  lemma {:induction false} FrontStays(t: Tree, p: Tree, turned: set<Id>, todo: seq<Tree>, front: seq<Tree>)
    requires todo != [] && p == todo[|todo| - 1] && front == todo[..|todo| - 1] && NoDup(Ids(todo))
    requires forall i :: 0 <= i < |todo| ==> Waits(t, turned, todo[i])
    requires forall c :: c in p.kids ==> c !in todo
    ensures NoDup(Ids(front)) && forall i :: 0 <= i < |front| ==> Waits(t, turned + {p.id}, front[i]) && front[i] !in p.kids
  {
    assert Ids(front) == Ids(todo)[..|front|];
    forall i | 0 <= i < |front| ensures Waits(t, turned + {p.id}, front[i]) && front[i] !in p.kids {
      assert front[i] == todo[i] && todo[i] in todo && Waits(t, turned, todo[i]);
      assert Ids(todo)[i] != Ids(todo)[|todo| - 1];
    }
  }

  lemma {:induction false} PushedWait(t: Tree, turned: set<Id>, front: seq<Tree>, es: seq<Tree>)
    requires forall i :: 0 <= i < |front| ==> Waits(t, turned, front[i])
    requires forall c :: c in es ==> Waits(t, turned, c)
    ensures forall i :: 0 <= i < |front + es| ==> Waits(t, turned, (front + es)[i])
  {
    forall i | 0 <= i < |front + es| ensures Waits(t, turned, (front + es)[i]) {
      if i >= |front| { assert (front + es)[i] == es[i - |front|] && es[i - |front|] in es; }
    }
  }

  lemma {:induction false} CoversRoot(t: Tree, p: Tree, turned: set<Id>, todo: seq<Tree>)
    requires todo != [] && p == todo[|todo| - 1] && (t.id in turned || t in todo)
    ensures t.id in turned + {p.id} || t in todo[..|todo| - 1] + Elements(p.kids)
  {
    if t in todo {
      var i :| 0 <= i < |todo| && todo[i] == t;
      if i < |todo| - 1 { assert todo[..|todo| - 1][i] == t; }
    }
  }

  lemma {:induction false} ElementsMembers(ts: seq<Tree>)
    ensures forall c :: c in Elements(ts) <==> c in ts && c.kind.Element?
    decreases |ts|
  {
    if ts != [] {
      ElementsMembers(ts[..|ts| - 1]);
      assert forall c :: c in ts <==> c in ts[..|ts| - 1] || c == ts[|ts| - 1];
    }
  }

  lemma {:induction false} KidsApart(a: Arena, t: Tree, p: Tree)
    requires Wf(a) && Holds(a, t) && p in Preorder(t)
    ensures Holds(a, p) && NoDup(Ids(p.kids))
  {
    HoldsBelow(a, t, p);
  }

  lemma {:induction false} ElementsDistinct(ts: seq<Tree>)
    requires NoDup(Ids(ts))
    ensures NoDup(Ids(Elements(ts)))
    decreases |ts|
  {
    if ts != [] {
      var front, last := ts[..|ts| - 1], ts[|ts| - 1];
      assert Ids(front) == Ids(ts)[..|front|];
      ElementsDistinct(front);
      ElementsMembers(front);
      if last.kind.Element? {
        forall k | 0 <= k < |Elements(front)| ensures Elements(front)[k].id != last.id {
          var c := Elements(front)[k];
          assert c in Elements(front);
          var j :| 0 <= j < |front| && front[j] == c;
          assert Ids(ts)[j] != Ids(ts)[|ts| - 1];
        }
        IdsSnoc(Elements(front), last);
      }
    }
  }

  lemma {:induction false} PendingParents(a: Arena, t: Tree, p: Tree, turned: set<Id>, todo: seq<Tree>)
    requires Wf(a) && Holds(a, t) && todo != [] && p == todo[|todo| - 1] && Covers(t, turned, todo)
    ensures forall s, c :: s in Preorder(t) && c in s.kids ==>
      InTurn(turned + {p.id}, todo[..|todo| - 1] + Elements(p.kids), s, c)
  {
    ElementsMembers(p.kids);
    HoldsBelow(a, t, p);
    forall s, c | s in Preorder(t) && c in s.kids ensures InTurn(turned + {p.id}, todo[..|todo| - 1] + Elements(p.kids), s, c) {
      HoldsBelow(a, t, s);
      if s.id == p.id { SameId(a, s, p); }
      if c.id == p.id { SameChild(a, s, c, p); }
      if c in p.kids {
        UniqueParent(a, t, s, c);
        UniqueParent(a, t, p, c);
      }
      NextInTurn(turned, todo, p, Elements(p.kids), s, c);
    }
  }

  lemma {:induction false} NextInTurn(turned: set<Id>, todo: seq<Tree>, p: Tree, es: seq<Tree>, s: Tree, c: Tree)
    requires todo != [] && p == todo[|todo| - 1] && InTurn(turned, todo, s, c)
    requires c in s.kids && (s.id == p.id ==> s == p) && (c.id == p.id ==> c == p) && (c in p.kids ==> s.id == p.id)
    requires forall e :: e in es <==> e in p.kids && e.kind.Element?
    ensures InTurn(turned + {p.id}, todo[..|todo| - 1] + es, s, c)
  {
    assert c in todo ==> c in todo[..|todo| - 1] || c == p;
    assert c in todo[..|todo| - 1] ==> c in todo;
  }

  lemma {:induction false} SameChild(a: Arena, s: Tree, c: Tree, p: Tree)
    requires Holds(a, s) && c in s.kids && Holds(a, p) && c.id == p.id
    ensures c == p
  {
    var k :| 0 <= k < |s.kids| && s.kids[k] == c;
    SameId(a, c, p);
  }

  /** One node's turn: its child list is rewritten, its element children returned. */
  method TakeTurn(doc: Document, parent: Id, ph: Phase, ghost a0: Arena, ghost t: Tree, ghost turned: set<Id>, ghost p: Tree)
    returns (elements: seq<Id>)
    requires doc.Valid() && Wf(a0) && Holds(a0, t) && Progress(a0, doc.arena, ph, t, turned)
    requires p in Preorder(t) && p.id == parent && p.id !in turned
    modifies doc`arena
    ensures doc.Valid() && Progress(a0, doc.arena, ph, t, turned + {p.id})
    ensures elements == Ids(Elements(p.kids))
  {
    ReadyForTurn(doc.arena, ph, p);
    ghost var before := doc.arena;
    match ph {
      case Strip(o) => elements := StripChildren(doc, parent, o, p);
      case Coalesce => elements := CoalesceChildren(doc, parent, p);
    }
    ProgressStep(a0, before, doc.arena, ph, t, turned, p);
  }

  /** The walk under way: the nodes of `turned` have had their turn, `todo` waits. */
  ghost predicate Walking(a0: Arena, a: Arena, ph: Phase, t: Tree, turned: set<Id>, todo: seq<Tree>) {
    && Progress(a0, a, ph, t, turned) && Covers(t, turned, todo) && turned <= a0.kind.Keys
    && forall x :: x in Preorder(t) && x.id in turned ==> x.kind.Element?
  }

  lemma {:induction false} NextWaits(a0: Arena, t: Tree, turned: set<Id>, todo: seq<Tree>, p: Tree)
    requires Wf(a0) && Holds(a0, t) && todo != [] && p == todo[|todo| - 1] && Covers(t, turned, todo)
    requires forall x :: x in Preorder(t) && x.id in turned ==> x.kind.Element?
    ensures p in Preorder(t) && p.id in a0.kind && p.id !in turned
    ensures a0.kind.Keys - (turned + {p.id}) < a0.kind.Keys - turned
    ensures Covers(t, turned + {p.id}, todo[..|todo| - 1] + Elements(p.kids))
    ensures forall x :: x in Preorder(t) && x.id in turned + {p.id} ==> x.kind.Element?
  {
    assert Waits(t, turned, todo[|todo| - 1]);
    HoldsBelow(a0, t, p);
    PushElements(a0, t, p, turned, todo);
    TurnedElements(a0, t, p, turned);
    FewerLeft(a0.kind.Keys, turned, p.id);
  }

  lemma {:induction false} FewerLeft(all: set<Id>, turned: set<Id>, x: Id)
    requires x in all && x !in turned
    ensures all - (turned + {x}) < all - turned
  {
    assert x in all - turned && x !in all - (turned + {x});
  }

  method NextTurn(doc: Document, stack: seq<Id>, ph: Phase, ghost a0: Arena, ghost t: Tree, ghost turned: set<Id>, ghost todo: seq<Tree>)
    returns (next: seq<Id>, ghost done: set<Id>, ghost left: seq<Tree>)
    requires doc.Valid() && Wf(a0) && Holds(a0, t) && Walking(a0, doc.arena, ph, t, turned, todo)
    requires stack == Ids(todo) && stack != []
    modifies doc`arena
    ensures doc.Valid() && Walking(a0, doc.arena, ph, t, done, left) && next == Ids(left)
    ensures a0.kind.Keys - done < a0.kind.Keys - turned
  {
    var parent := stack[|stack| - 1];
    ghost var p := todo[|todo| - 1];
    NextWaits(a0, t, turned, todo, p);
    StackElements(todo, p);
    var elements := TakeTurn(doc, parent, ph, a0, t, turned, p);
    next := stack[..|stack| - 1] + elements;
    done, left := turned + {p.id}, todo[..|todo| - 1] + Elements(p.kids);
  }

  /** One walk over a subtree, parent by parent, from an explicit stack. */
  method RewriteSubtree(doc: Document, root: Id, ph: Phase, ghost t: Tree)
    requires doc.Valid() && Holds(doc.arena, t) && t.id == root && t.kind.Element? && LeavesBare(t)
    modifies doc`arena
    ensures doc.Valid() && Holds(doc.arena, After(ph, t))
    ensures forall x :: !InTree(x, t) ==> SameNode(old(doc.arena), doc.arena, x)
  {
    ghost var a0 := doc.arena;
    var stack := [root];
    ghost var turned: set<Id>, todo := {}, [t];
    ProgressStart(a0, ph, t);
    CoversStart(a0, t);
    while stack != []
      invariant doc.Valid() && Walking(a0, doc.arena, ph, t, turned, todo) && stack == Ids(todo)
      decreases a0.kind.Keys - turned
    {
      stack, turned, todo := NextTurn(doc, stack, ph, a0, t, turned, todo);
    }
    Rewrote(a0, doc.arena, ph, t, turned, t);
  }

  lemma {:induction false} CoversStart(a: Arena, t: Tree)
    requires Holds(a, t) && t.kind.Element?
    ensures Covers(t, {}, [t]) && Ids([t]) == [t.id]
  {
    forall s, c | s in Preorder(t) && c in s.kids ensures c != t {
      Deeper(a, t, s, c);
    }
  }

  lemma {:induction false} StackElements(todo: seq<Tree>, p: Tree)
    requires todo != []
    ensures Ids(todo)[..|todo| - 1] + Ids(Elements(p.kids)) == Ids(todo[..|todo| - 1] + Elements(p.kids))
  {
  }

  lemma {:induction false} TurnedElements(a: Arena, t: Tree, p: Tree, turned: set<Id>)
    requires Holds(a, t) && p in Preorder(t) && p.kind.Element?
    requires forall x :: x in Preorder(t) && x.id in turned ==> x.kind.Element?
    ensures forall x :: x in Preorder(t) && x.id in turned + {p.id} ==> x.kind.Element?
  {
    HoldsBelow(a, t, p);
    forall x | x in Preorder(t) && x.id == p.id ensures x.kind.Element? {
      HoldsBelow(a, t, x);
      SameId(a, x, p);
    }
  }

  lemma {:induction false} StripKeepsBare(o: Options, t: Tree)
    requires LeavesBare(t)
    ensures LeavesBare(After(Strip(o), t))
    decreases t
  {
    var u := After(Strip(o), t);
    assert t in Preorder(t);
    if t.kind.Element? {
      FlatThenAfter(Strip(o), t.kids);
      FlatMembers(Strip(o), t.kids);
      forall s | s in Preorder(u) && !s.kind.Element? ensures s.kids == [] {
        InForest(u.kids, s);
        var i :| 0 <= i < |u.kids| && s in Preorder(u.kids[i]);
        var y := ListAfter(Strip(o), t.kids)[i];
        assert y in ListAfter(Strip(o), t.kids);
        var c :| c in t.kids && From(y, c);
        BareBelow(t, c);
        if y.kind.Element? {
          StripKeepsBare(o, c);
        } else {
          assert c in Preorder(c) && Preorder(y) == [y];
        }
      }
    } else {
      assert Preorder(u) == [u];
    }
  }

  lemma {:induction false} BareBelow(t: Tree, c: Tree)
    requires LeavesBare(t) && c in t.kids
    ensures LeavesBare(c)
  {
    forall s | s in Preorder(c) ensures s in Preorder(t) {
      InForest(t.kids, s);
      var i :| 0 <= i < |t.kids| && t.kids[i] == c;
    }
  }

  /** The pass on the document element: nothing when no option is on, otherwise
      removal and conversion, then coalescing. */
  method PostprocessParseOptions(doc: Document, root: Option<Id>, o: Options, ghost t: Tree)
    requires doc.Valid()
    requires root.Some? ==> Holds(doc.arena, t) && t.id == root.value && t.kind.Element? && LeavesBare(t)
    modifies doc`arena
    ensures doc.Valid()
    ensures root.Some? ==> Holds(doc.arena, Postprocessed(o, t))
    ensures root.None? ==> doc.arena == old(doc.arena)
  {
    if root.None? {
      return;
    }
    if o.removeComments || o.removePis || o.stripCdata {
      RewriteSubtree(doc, root.value, Strip(o), t);
      StripKeepsBare(o, t);
      RewriteSubtree(doc, root.value, Coalesce, After(Strip(o), t));
    }
  }
}
