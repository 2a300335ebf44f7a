/** The etree layer's `.text` and `.tail`: runs of text and CDATA nodes read and
    written as one string. */
module TextTail {
  import opened Prelude
  import opened Arena
  import opened Dom
  import opened Siblings
  import opened SiblingEdits
  import opened PairEdits

  function TextOf(kind: Kinds, n: Id): string {
    if IsText(kind, n) then kind[n].text else ""
  }

  function Joined(kind: Kinds, run: seq<Id>): string {
    if run == [] then "" else TextOf(kind, run[0]) + Joined(kind, run[1..])
  }

  /** A run as the public string; no run is no string. */
  function RunText(kind: Kinds, run: seq<Id>): Option<string> {
    if run == [] then None else Some(Joined(kind, run))
  }

  function LeadText(a: Arena, n: Id): Option<string> { RunText(a.kind, Lead(a, n)) }

  function TailText(a: Arena, n: Id): Option<string> { RunText(a.kind, Tail(a, n)) }

  function WithText(k: Kind, v: string): Kind {
    match k
    case Text(_) => Text(v)
    case CData(_) => CData(v)
    case Comment(_) => Comment(v)
    case _ => k
  }

  // ------------------------------------------------------------------
  // Reading
  // ------------------------------------------------------------------

  lemma {:induction false} JoinedSnoc(kind: Kinds, run: seq<Id>, n: Id)
    ensures Joined(kind, run + [n]) == Joined(kind, run) + TextOf(kind, n)
  {
    if run == [] {
      assert [] + [n] == [n] && [n][1..] == [];
    } else {
      assert (run + [n])[0] == run[0] && (run + [n])[1..] == run[1..] + [n];
      JoinedSnoc(kind, run[1..], n);
    }
  }

  ghost predicate RunSoFar(kind: Kinds, ks: seq<Id>, i: nat, k: nat, run: seq<Id>) {
    i <= k <= |ks| && Run(kind, ks[i..]) == run + Run(kind, ks[k..])
  }

  lemma {:induction false} RunStep(kind: Kinds, ks: seq<Id>, i: nat, k: nat, run: seq<Id>)
    requires RunSoFar(kind, ks, i, k, run) && k < |ks| && IsText(kind, ks[k])
    ensures RunSoFar(kind, ks, i, k + 1, run + [ks[k]])
  {
    assert ks[k..][0] == ks[k] && ks[k..][1..] == ks[k + 1..];
  }

  lemma {:induction false} RunEnd(kind: Kinds, ks: seq<Id>, i: nat, k: nat, run: seq<Id>)
    requires RunSoFar(kind, ks, i, k, run) && (k < |ks| ==> !IsText(kind, ks[k]))
    ensures Run(kind, ks[i..]) == run
  {
    assert Run(kind, ks[k..]) == [];
  }

  /** The concatenated text from a sibling cursor on. */
  method TextRun(a: Arena, node: Option<Id>, ghost p: Id, ghost i: nat) returns (out: Option<string>)
    requires Wf(a) && node == ChildAt(a, p, i) && i <= |Kids(a, p)|
    ensures out == RunText(a.kind, Run(a.kind, Kids(a, p)[i..]))
  {
    out := None;
    var cur := node;
    ghost var k, run := i, [];
    while cur.Some? && IsText(a.kind, cur.value)
      invariant k <= |Kids(a, p)| && cur == ChildAt(a, p, k)
      invariant RunSoFar(a.kind, Kids(a, p), i, k, run) && out == RunText(a.kind, run)
      decreases |Kids(a, p)| - k
    {
      RunStep(a.kind, Kids(a, p), i, k, run);
      out := AppendText(a.kind, run, out, cur.value);
      run := run + [cur.value];
      SiblingStep(a, p, k);
      cur := NextSibling(a, cur.value);
      k := k + 1;
    }
    RunEnd(a.kind, Kids(a, p), i, k, run);
  }

  method AppendText(kind: Kinds, ghost run: seq<Id>, before: Option<string>, n: Id) returns (out: Option<string>)
    requires IsText(kind, n) && before == RunText(kind, run)
    ensures out == RunText(kind, run + [n])
  {
    JoinedSnoc(kind, run, n);
    out := Some((if before.Some? then before.value else "") + kind[n].text);
  }

  method GetText(a: Arena, n: Id) returns (text: Option<string>)
    requires Wf(a) && n in a.kind
    ensures text == match a.kind[n] case Comment(t) => Some(t) case PI(_, d) => d case _ => LeadText(a, n)
  {
    match a.kind[n] {
      case Comment(t) => text := Some(t);
      case PI(_, d) => text := d;
      case _ =>
        assert Kids(a, n)[0..] == Kids(a, n);
        text := TextRun(a, FirstChild(a, n), n, 0);
    }
  }

  method GetTail(a: Arena, n: Id) returns (text: Option<string>)
    requires Wf(a)
    ensures text == TailText(a, n)
  {
    if n in a.parent {
      ghost var ks := a.kids[a.parent[n]];
      SiblingStep(a, a.parent[n], IndexOf(ks, n));
      text := TextRun(a, NextSibling(a, n), a.parent[n], IndexOf(ks, n) + 1);
    } else {
      text := TextRun(a, NextSibling(a, n), n, |Kids(a, n)|);
    }
  }

  // ------------------------------------------------------------------
  // Writing one run
  // ------------------------------------------------------------------

  /** From `a` to `b` the run at position `i` of `p`'s children became `added`,
      and nothing else changed. */
  ghost predicate RunSet(a: Arena, b: Arena, p: Id, i: nat, run: seq<Id>, added: seq<Id>, value: Option<string>) {
    && p in a.kids && i + |run| <= |a.kids[p]| && p in b.kids
    && b.kids[p] == a.kids[p][..i] + added + a.kids[p][i + |run|..]
    && (forall q :: q in a.kids && q != p ==> q in b.kids && b.kids[q] == a.kids[q])
    && (forall x :: x in a.kind && x !in added ==> x in b.kind && b.kind[x] == a.kind[x])
    && match value
       case None => added == []
       case Some(v) =>
         && |added| == 1 && added[0] in b.kind
         && if run != [] then added[0] == run[0] && run[0] in a.kind && b.kind[run[0]] == WithText(a.kind[run[0]], v)
            else added[0] !in a.kind && b.kind[added[0]] == Text(v)
  }

  method RemoveTextRun(doc: Document, p: Id, run: seq<Id>, ghost i: nat)
    requires doc.Valid() && p in doc.arena.kids && i + |run| <= |doc.arena.kids[p]| && run == doc.arena.kids[p][i..i + |run|]
    modifies doc`arena
    ensures doc.Valid() && doc.arena == Cut(old(doc.arena), p, i, |run|)
  {
    ghost var a := doc.arena;
    CutNone(a, p, i);
    for j := 0 to |run|
      invariant doc.Valid() && doc.arena == Cut(a, p, i, j)
    {
      CutMore(a, p, i, j);
      StillThere(a, p, i, j);
      doc.RemoveChild(p, run[j]);
    }
  }

  lemma {:induction false} StillThere(a: Arena, p: Id, i: nat, m: nat)
    requires Wf(a) && p in a.kids && i + m < |a.kids[p]|
    ensures Parent(Cut(a, p, i, m), a.kids[p][i + m]) == Some(p)
  {
    var ks := a.kids[p];
    assert ks[i + m] !in ks[i..i + m];
    UnparentOther(a.parent, ks[i..i + m], ks[i + m]);
  }

  lemma {:induction false} ClearedRun(a: Arena, p: Id, i: nat, run: seq<Id>)
    requires p in a.kids && i + |run| <= |a.kids[p]|
    ensures RunSet(a, Cut(a, p, i, |run|), p, i, run, [], None)
  {
    assert a.kids[p][..i] + [] + a.kids[p][i + |run|..] == a.kids[p][..i] + a.kids[p][i + |run|..];
  }

  lemma {:induction false} ReusedRun(a: Arena, p: Id, i: nat, first: Id, others: seq<Id>, v: string)
    requires p in a.kids && i + 1 + |others| <= |a.kids[p]| && first == a.kids[p][i] && first in a.kind
    requires others == a.kids[p][i + 1..i + 1 + |others|]
    ensures RunSet(a, Cut(Rekinded(a, first, WithText(a.kind[first], v)), p, i + 1, |others|), p, i, [first] + others, [first], Some(v))
  {
    var ks := a.kids[p];
    assert ks[..i] + [first] == ks[..i + 1];
  }

  lemma {:induction false} FreshRun(a: Arena, p: Id, i: nat, t: Id, v: string)
    requires Wf(a) && p in a.kids && i <= |a.kids[p]| && t !in a.kind
    ensures p in Added(a, t, Text(v)).kids && i <= |Added(a, t, Text(v)).kids[p]|
    ensures RunSet(a, Placed(Added(a, t, Text(v)), p, t, i), p, i, [], [t], Some(v))
  {
    var ks, b := a.kids[p], Placed(Added(a, t, Text(v)), p, t, i);
    var run: seq<Id> := [];
    assert b.kids[p] == ks[..i] + [t] + ks[i + |run|..];
    assert forall x :: x in a.kind && x !in [t] ==> b.kind[x] == a.kind[x];
    assert RunSet(a, b, p, i, run, [t], Some(v));
  }

  /** The branches that find a run: drop it, or reuse its first node. */
  method SetPresentRun(doc: Document, p: Id, run: seq<Id>, value: Option<string>, ghost i: nat) returns (ghost added: seq<Id>)
    requires doc.Valid() && p in doc.arena.kids && i + |run| <= |doc.arena.kids[p]| && run == doc.arena.kids[p][i..i + |run|]
    requires value.None? || run != []
    modifies doc
    ensures doc.Valid() && RunSet(old(doc.arena), doc.arena, p, i, run, added, value)
  {
    if value.None? {
      ClearedRun(doc.arena, p, i, run);
      RemoveTextRun(doc, p, run, i);
      added := [];
    } else {
      RunInParts(doc.arena.kids[p], run, i);
      Reuse(doc, p, run[0], run[1..], value.value, i);
      added := [run[0]];
      assert run == [run[0]] + run[1..];
    }
  }

  /** The first node takes the whole text, the others of its run go. */
  method Reuse(doc: Document, p: Id, first: Id, others: seq<Id>, v: string, ghost i: nat)
    requires doc.Valid() && p in doc.arena.kids && i + 1 + |others| <= |doc.arena.kids[p]|
    requires first == doc.arena.kids[p][i] && others == doc.arena.kids[p][i + 1..i + 1 + |others|]
    modifies doc
    ensures doc.Valid() && RunSet(old(doc.arena), doc.arena, p, i, [first] + others, [first], Some(v))
  {
    ReusedRun(doc.arena, p, i, first, others, v);
    doc.SetKind(first, WithText(doc.arena.kind[first], v));
    RemoveTextRun(doc, p, others, i + 1);
  }

  lemma {:induction false} RunInParts(ks: seq<Id>, run: seq<Id>, i: nat)
    requires i + |run| <= |ks| && run == ks[i..i + |run|] && run != []
    ensures run[0] == ks[i] && run[1..] == ks[i + 1..i + 1 + |run[1..]|]
  {
  }

  /** Setting `.text` of a node. */
  method SetText(doc: Document, n: Id, value: Option<string>) returns (ghost added: seq<Id>)
    requires doc.Valid() && n in doc.arena.kind
    modifies doc
    ensures doc.Valid()
    ensures match old(doc.arena).kind[n]
            case Comment(_) => doc.arena == Rekinded(old(doc.arena), n, Comment(if value.Some? then value.value else ""))
            case PI(target, _) => doc.arena == Rekinded(old(doc.arena), n, PI(target, value))
            case _ => RunSet(old(doc.arena), doc.arena, n, 0, old(Lead(doc.arena, n)), added, value)
  {
    added := [];
    ghost var a := doc.arena;
    match doc.arena.kind[n] {
      case Comment(_) =>
        doc.SetKind(n, Comment(if value.Some? then value.value else ""));
      case PI(target, _) =>
        doc.SetKind(n, PI(target, value));
      case _ =>
        var fc := FirstChild(doc.arena, n);
        var run := TextRunFrom(doc.arena, fc, n, 0);
        assert Kids(a, n)[0..] == Kids(a, n);
        RunFits(a.kind, Kids(a, n));
        if value.None? || run != [] {
          added := SetPresentRun(doc, n, run, value, 0);
        } else {
          added := AddFirst(doc, n, fc, value.value);
        }
    }
  }

  /** No leading text yet: a new text node becomes the first child. */
  method AddFirst(doc: Document, n: Id, fc: Option<Id>, v: string) returns (ghost added: seq<Id>)
    requires doc.Valid() && n in doc.arena.kind && fc == FirstChild(doc.arena, n)
    modifies doc
    ensures doc.Valid() && RunSet(old(doc.arena), doc.arena, n, 0, [], added, Some(v))
  {
    ghost var a := doc.arena;
    var t := doc.Create(Text(v));
    Known(a, t);
    FreshRun(a, n, 0, t, v);
    if fc.None? {
      doc.AppendChild(n, t);
    } else {
      IndexOfAt(a.kids[n], 0);
      doc.InsertBefore(n, t, fc.value);
    }
    added := [t];
  }

  /** From `a` to `b` the tail of `n` was set; without a parent nothing happened. */
  ghost predicate TailSet(a: Arena, b: Arena, n: Id, added: seq<Id>, value: Option<string>) {
    match Parent(a, n)
    case None => b == a
    case Some(p) => p in a.kids && RunSet(a, b, p, IndexOf(a.kids[p], n) + 1, Tail(a, n), added, value)
  }

  lemma {:induction false} TailRegion(a: Arena, p: Id, n: Id, run: seq<Id>)
    requires Wf(a) && Parent(a, n) == Some(p) && run == Tail(a, n)
    ensures p in a.kids && var i := IndexOf(a.kids[p], n) + 1; i + |run| <= |a.kids[p]| && run == a.kids[p][i..i + |run|]
  {
    TailFits(a, n);
  }

  /** Setting `.tail` of a node; without a parent there is no place for it. */
  method SetTail(doc: Document, n: Id, value: Option<string>) returns (ghost added: seq<Id>)
    requires doc.Valid() && Content(doc.arena, n)
    modifies doc
    ensures doc.Valid() && TailSet(old(doc.arena), doc.arena, n, added, value)
  {
    added := [];
    var parent := Parent(doc.arena, n);
    var run := FollowingTextRun(doc.arena, n);
    if parent.Some? {
      added := SetTailRun(doc, parent.value, n, run, value);
    }
  }

  method SetTailRun(doc: Document, p: Id, n: Id, run: seq<Id>, value: Option<string>) returns (ghost added: seq<Id>)
    requires doc.Valid() && Parent(doc.arena, n) == Some(p) && run == Tail(doc.arena, n)
    modifies doc
    ensures doc.Valid() && p in old(doc.arena).kids
    ensures RunSet(old(doc.arena), doc.arena, p, IndexOf(old(doc.arena).kids[p], n) + 1, run, added, value)
  {
    TailRegion(doc.arena, p, n, run);
    if value.None? || run != [] {
      added := SetPresentRun(doc, p, run, value, IndexOf(doc.arena.kids[p], n) + 1);
    } else {
      added := AddAfter(doc, p, n, value.value);
    }
  }

  method AddAfter(doc: Document, p: Id, n: Id, v: string) returns (ghost added: seq<Id>)
    requires doc.Valid() && Parent(doc.arena, n) == Some(p)
    modifies doc
    ensures doc.Valid() && RunSet(old(doc.arena), doc.arena, p, IndexOf(old(doc.arena).kids[p], n) + 1, [], added, Some(v))
  {
    ghost var a := doc.arena;
    var t := doc.Create(Text(v));
    Known(a, t);
    FreshRun(a, p, IndexOf(a.kids[p], n) + 1, t, v);
    doc.InsertAfter(p, t, n);
    added := [t];
  }

  // ------------------------------------------------------------------
  // Get after put
  // ------------------------------------------------------------------

  /** The new run is text, and the other nodes are what they were. */
  lemma {:induction false} NewRunIsText(a: Arena, b: Arena, p: Id, i: nat, run: seq<Id>, added: seq<Id>, value: Option<string>)
    requires RunSet(a, b, p, i, run, added, value) && AllText(a.kind, run)
    ensures AllText(b.kind, added) && RunText(b.kind, added) == value
  {
    if value.Some? {
      assert run != [] ==> IsText(a.kind, run[0]);
      assert added == [added[0]] && added[1..] == [];
      assert TextOf(b.kind, added[0]) == value.value;
      assert Joined(b.kind, added) == value.value + "" == value.value;
    }
  }

  lemma {:induction false} SameTexts(a: Arena, b: Arena, p: Id, i: nat, run: seq<Id>, added: seq<Id>, value: Option<string>, x: Id)
    requires RunSet(a, b, p, i, run, added, value) && AllText(a.kind, run) && x in a.kind
    ensures IsText(b.kind, x) == IsText(a.kind, x)
    ensures x !in run ==> TextOf(b.kind, x) == TextOf(a.kind, x)
  {
    if value.Some? && x == added[0] {
      assert run[0] in run && IsText(a.kind, run[0]);
    } else {
      assert x !in added;
    }
  }

  lemma {:induction false} SameRunText(kind: Kinds, kind': Kinds, run: seq<Id>)
    requires forall i :: 0 <= i < |run| ==> TextOf(kind, run[i]) == TextOf(kind', run[i])
    ensures Joined(kind, run) == Joined(kind', run) && RunText(kind, run) == RunText(kind', run)
  {
    if run != [] { SameRunText(kind, kind', run[1..]); }
  }

  /** Text stays text and CDATA stays CDATA; what comes in is text. */
  ghost predicate SortsKept(a: Arena, b: Arena, added: seq<Id>) {
    && (forall x :: x in a.kind ==> x in b.kind && (b.kind[x].Text? <==> a.kind[x].Text?) && (b.kind[x].CData? <==> a.kind[x].CData?))
    && (forall x :: x in a.kind && x !in added ==> b.kind[x] == a.kind[x])
    && (forall x :: x in added && x !in a.kind ==> x in b.kind && b.kind[x].Text?)
  }

  lemma {:induction false} RunKeepsSorts(a: Arena, b: Arena, p: Id, i: nat, run: seq<Id>, added: seq<Id>, value: Option<string>)
    requires RunSet(a, b, p, i, run, added, value) && AllText(a.kind, run)
    ensures SortsKept(a, b, added) && (forall x :: x in added && x in a.kind ==> run != [] && x == run[0])
  {
    if value.Some? && run != [] {
      assert IsText(a.kind, run[0]);
    }
  }

  /** A sibling list that is not edited reads as before. */
  lemma {:induction false} OtherList(a: Arena, b: Arena, p: Id, i: nat, run: seq<Id>, added: seq<Id>, value: Option<string>, q: Id)
    requires Wf(a) && RunSet(a, b, p, i, run, added, value) && AllText(a.kind, run) && q in a.kids && q != p
    ensures q in b.kids && Lead(b, q) == Lead(a, q) && Children(b, q) == Children(a, q)
  {
    var ks := a.kids[q];
    forall j | 0 <= j < |ks| ensures IsText(a.kind, ks[j]) == IsText(b.kind, ks[j]) {
      SameTexts(a, b, p, i, run, added, value, ks[j]);
    }
    KindsFrame(a.kind, b.kind, ks);
  }

  lemma {:induction false} OtherLists(a: Arena, b: Arena, p: Id, i: nat, run: seq<Id>, added: seq<Id>, value: Option<string>)
    requires Wf(a) && RunSet(a, b, p, i, run, added, value) && AllText(a.kind, run)
    ensures forall q :: q in a.kids && q != p ==> Lead(b, q) == Lead(a, q) && Children(b, q) == Children(a, q)
  {
    forall q | q in a.kids && q != p ensures Lead(b, q) == Lead(a, q) && Children(b, q) == Children(a, q) {
      OtherList(a, b, p, i, run, added, value, q);
    }
  }

  lemma {:induction false} FlatOf(a: Arena, b: Arena, p: Id, i: nat, run: seq<Id>, added: seq<Id>, value: Option<string>)
    requires Wf(a) && RunSet(a, b, p, i, run, added, value) && AllText(a.kind, run)
    ensures Proper(b.kind, Children(a, p)) && AllText(b.kind, Lead(a, p))
  {
    var ks := a.kids[p];
    forall j | 0 <= j < |ks| ensures IsText(a.kind, ks[j]) == IsText(b.kind, ks[j]) {
      SameTexts(a, b, p, i, run, added, value, ks[j]);
    }
    KindsFrame(a.kind, b.kind, ks);
    Rebuilt(b.kind, ks);
  }

  /** After `.text = value`: it reads back, and the children and their tails, and
      every other sibling list, are the same nodes in the same order. */
  lemma {:induction false} TextPut(a: Arena, b: Arena, n: Id, added: seq<Id>, value: Option<string>)
    requires Wf(a) && RunSet(a, b, n, 0, Lead(a, n), added, value)
    ensures Lead(b, n) == added && LeadText(b, n) == value && Children(b, n) == Children(a, n)
    ensures SortsKept(a, b, added) && forall x :: x in added && x in a.kind ==> x in Lead(a, n)
    ensures forall q :: q in a.kids && q != n ==> Lead(b, q) == Lead(a, q) && Children(b, q) == Children(a, q)
  {
    var run := Lead(a, n);
    Rebuilt(a.kind, a.kids[n]);
    NewRunIsText(a, b, n, 0, run, added, value);
    RunKeepsSorts(a, b, n, 0, run, added, value);
    FlatOf(a, b, n, 0, run, added, value);
    NewFront(a.kids[n], run, Flat(Children(a, n)), added, b.kids[n]);
    Taken(b.kind, added, Children(a, n));
    OtherLists(a, b, n, 0, run, added, value);
  }

  lemma {:induction false} NewFront(ks: seq<Id>, run: seq<Id>, rest: seq<Id>, added: seq<Id>, now: seq<Id>)
    requires ks == run + rest && now == ks[..0] + added + ks[0 + |run|..]
    ensures now == added + rest
  {
  }

  lemma {:induction false} TailChanged(l: seq<Id>, ps: seq<Pair>, k: nat, added: seq<Id>, ks: seq<Id>, i: nat, now: seq<Id>)
    requires k < |ps| && ks == l + Flat(ps) && i == |l| + |Flat(ps[..k])| + 1 && i + |ps[k].tail| <= |ks|
    requires now == ks[..i] + added + ks[i + |ps[k].tail|..]
    ensures now == l + Flat(ps[k := Pair(ps[k].node, added)])
  {
    PairPlace(l, ps, k);
    TailInList(ks, i, l, Flat(ps[..k]), ps[k].node, |ps[k].tail|, added, Flat(ps[k + 1..]), now);
    ChangedPair(ps, k, Pair(ps[k].node, added));
  }

  lemma {:induction false} TailInList(ks: seq<Id>, i: nat, l: seq<Id>, x: seq<Id>, n: Id, m: nat, added: seq<Id>, y: seq<Id>, now: seq<Id>)
    requires i == |l| + |x| + 1 && i + m <= |ks| && ks[..i - 1] == l + x && ks[i - 1] == n && ks[i + m..] == y
    requires now == ks[..i] + added + ks[i + m..]
    ensures now == l + (x + ([n] + added + y))
  {
    TailSegments(ks, i, l + x, n, added, y, now);
  }

  lemma {:induction false} ChangedPair(ps: seq<Pair>, k: nat, pr: Pair)
    requires k < |ps|
    ensures Flat(ps[k := pr]) == Flat(ps[..k]) + ([pr.node] + pr.tail + Flat(ps[k + 1..]))
  {
    assert ps[k := pr] == ps[..k] + [pr] + ps[k + 1..];
    FlatMiddle(ps[..k], pr, ps[k + 1..]);
  }

  lemma {:induction false} TailSegments(ks: seq<Id>, i: nat, x: seq<Id>, n: Id, added: seq<Id>, y: seq<Id>, now: seq<Id>)
    requires 0 < i <= |ks| && ks[..i - 1] == x && ks[i - 1] == n && now == ks[..i] + added + y
    ensures now == x + ([n] + added + y)
  {
    assert ks[..i] == x + [n];
  }

  lemma {:induction false} ProperChanged(kind: Kinds, ps: seq<Pair>, k: nat, added: seq<Id>)
    requires Proper(kind, ps) && AllText(kind, added) && k < |ps|
    ensures Proper(kind, ps[k := Pair(ps[k].node, added)])
  {
  }

  /** The edited list of `p` itself. */
  lemma {:induction false} TailPutHere(a: Arena, b: Arena, p: Id, k: nat, i: nat, run: seq<Id>, added: seq<Id>, value: Option<string>)
    requires Wf(a) && p in a.kids && k < |Children(a, p)| && run == Children(a, p)[k].tail
    requires i == |Lead(a, p)| + |Flat(Children(a, p)[..k])| + 1 && RunSet(a, b, p, i, run, added, value)
    ensures Lead(b, p) == Lead(a, p) && Children(b, p) == Children(a, p)[k := Pair(Children(a, p)[k].node, added)]
    ensures AllText(a.kind, run) && RunText(b.kind, added) == value
  {
    Rebuilt(a.kind, a.kids[p]);
    NewRunIsText(a, b, p, i, run, added, value);
    FlatOf(a, b, p, i, run, added, value);
    PairsChanged(b.kind, Lead(a, p), Children(a, p), k, added, a.kids[p], i, b.kids[p]);
  }

  lemma {:induction false} PairsChanged(kind: Kinds, l: seq<Id>, ps: seq<Pair>, k: nat, added: seq<Id>, ks: seq<Id>, i: nat, now: seq<Id>)
    requires AllText(kind, l) && Proper(kind, ps) && AllText(kind, added)
    requires k < |ps| && ks == l + Flat(ps) && i == |l| + |Flat(ps[..k])| + 1 && i + |ps[k].tail| <= |ks|
    requires now == ks[..i] + added + ks[i + |ps[k].tail|..]
    ensures Run(kind, now) == l && Pairs(kind, now) == ps[k := Pair(ps[k].node, added)]
  {
    TailChanged(l, ps, k, added, ks, i, now);
    ProperChanged(kind, ps, k, added);
    Taken(kind, l, ps[k := Pair(ps[k].node, added)]);
  }

  /** After `.tail = value` on the `k`-th child of `p`: it reads back, and only
      that child's tail has changed. */
  lemma {:induction false} TailPut(a: Arena, b: Arena, p: Id, k: nat, added: seq<Id>, value: Option<string>)
    requires Wf(a) && p in a.kids && k < |Children(a, p)|
    requires TailSet(a, b, Children(a, p)[k].node, added, value)
    ensures Lead(b, p) == Lead(a, p) && RunText(b.kind, added) == value
    ensures SortsKept(a, b, added) && forall x :: x in added && x in a.kind ==> x in Children(a, p)[k].tail
    ensures Children(b, p) == Children(a, p)[k := Pair(Children(a, p)[k].node, added)]
    ensures forall q :: q in a.kids && q != p ==> Lead(b, q) == Lead(a, q) && Children(b, q) == Children(a, q)
  {
    var i := TailRunOf(a, b, p, k, added, value);
    TailPutHere(a, b, p, k, i, Children(a, p)[k].tail, added, value);
    RunKeepsSorts(a, b, p, i, Children(a, p)[k].tail, added, value);
    OtherLists(a, b, p, i, Children(a, p)[k].tail, added, value);
  }

  /** A run that shares no node with the edited one keeps its string. */
  lemma {:induction false} OtherRun(a: Arena, b: Arena, p: Id, i: nat, run: seq<Id>, added: seq<Id>, value: Option<string>, other: seq<Id>)
    requires RunSet(a, b, p, i, run, added, value) && AllText(a.kind, run)
    requires forall j :: 0 <= j < |other| ==> other[j] in a.kind && other[j] !in run
    ensures RunText(b.kind, other) == RunText(a.kind, other)
  {
    forall j | 0 <= j < |other| ensures TextOf(b.kind, other[j]) == TextOf(a.kind, other[j]) {
      SameTexts(a, b, p, i, run, added, value, other[j]);
    }
    SameRunText(a.kind, b.kind, other);
  }

  // ------------------------------------------------------------------
  // All other strings stay
  // ------------------------------------------------------------------

  lemma {:induction false} InLead(a: Arena, p: Id, x: Id)
    requires Wf(a) && p in a.kids && x in Lead(a, p)
    ensures Parent(a, x) == Some(p) && x in a.kids[p]
  {
    RunFits(a.kind, a.kids[p]);
    var i :| 0 <= i < |Lead(a, p)| && Lead(a, p)[i] == x;
    assert a.kids[p][i] == x;
  }

  lemma {:induction false} InTail(a: Arena, p: Id, k: nat, x: Id)
    requires Wf(a) && p in a.kids && k < |Children(a, p)| && x in Children(a, p)[k].tail
    ensures Parent(a, x) == Some(p) && x in a.kids[p] && x in Flat(Children(a, p))
  {
    NodesInFlat(Children(a, p), k);
    Rebuilt(a.kind, a.kids[p]);
    var ks, f := a.kids[p], Flat(Children(a, p));
    var i :| 0 <= i < |f| && f[i] == x;
    assert ks[|Lead(a, p)| + i] == x;
  }

  lemma {:induction false} LeadAndTailApart(a: Arena, p: Id, q: Id, k: nat, x: Id)
    requires Wf(a) && p in a.kids && q in a.kids && k < |Children(a, q)| && x in Lead(a, p)
    ensures x !in Children(a, q)[k].tail
  {
    InLead(a, p, x);
    if x in Children(a, q)[k].tail {
      InTail(a, q, k, x);
      Rebuilt(a.kind, a.kids[p]);
      Apart(Lead(a, p), Flat(Children(a, p)), x);
    }
  }

  lemma {:induction false} Apart(s: seq<Id>, t: seq<Id>, x: Id)
    requires NoDup(s + t) && x in s
    ensures x !in t
  {
    var i :| 0 <= i < |s| && s[i] == x;
    forall j | 0 <= j < |t| ensures t[j] != x {
      assert (s + t)[i] != (s + t)[|s| + j];
    }
  }

  lemma {:induction false} TailsApart(ps: seq<Pair>, j: nat, k: nat, x: Id)
    requires NoDup(Flat(ps)) && j < k < |ps| && x in ps[j].tail
    ensures x !in ps[k].tail
  {
    var rest := ps[j + 1..];
    FlatMiddle(ps[..j], ps[j], rest);
    assert ps == ps[..j] + [ps[j]] + rest && rest[k - j - 1] == ps[k];
    assert Flat(ps) == (Flat(ps[..j]) + [ps[j].node] + ps[j].tail) + Flat(rest);
    NodesInFlat(rest, k - j - 1);
    Apart(Flat(ps[..j]) + [ps[j].node] + ps[j].tail, Flat(rest), x);
  }

  lemma {:induction false} TailAndTailApart(a: Arena, p: Id, j: nat, q: Id, k: nat, x: Id)
    requires Wf(a) && p in a.kids && q in a.kids && j < |Children(a, p)| && k < |Children(a, q)| && (p != q || j != k)
    requires x in Children(a, p)[j].tail
    ensures x !in Children(a, q)[k].tail
  {
    InTail(a, p, j, x);
    if x in Children(a, q)[k].tail {
      InTail(a, q, k, x);
      DistinctFlat(a, p);
      TailsApart(Children(a, p), if j < k then j else k, if j < k then k else j, x);
    }
  }

  lemma {:induction false} DistinctFlat(a: Arena, p: Id)
    requires Wf(a) && p in a.kids
    ensures NoDup(Flat(Children(a, p)))
  {
    Rebuilt(a.kind, a.kids[p]);
    assert Flat(Children(a, p)) == a.kids[p][|Lead(a, p)|..];
  }

  /** Setting `.text` changes no tail and no other element's text. */
  lemma {:induction false} TextLeavesStrings(a: Arena, b: Arena, n: Id, added: seq<Id>, value: Option<string>, q: Id)
    requires Wf(a) && RunSet(a, b, n, 0, Lead(a, n), added, value) && q in a.kids
    ensures forall k :: 0 <= k < |Children(a, q)| ==> RunText(b.kind, Children(a, q)[k].tail) == RunText(a.kind, Children(a, q)[k].tail)
    ensures q != n ==> RunText(b.kind, Lead(a, q)) == RunText(a.kind, Lead(a, q))
  {
    var run := Lead(a, n);
    RunIsText(a.kind, a.kids[n]);
    forall k | 0 <= k < |Children(a, q)|
      ensures RunText(b.kind, Children(a, q)[k].tail) == RunText(a.kind, Children(a, q)[k].tail)
    {
      var other := Children(a, q)[k].tail;
      forall j | 0 <= j < |other| ensures other[j] in a.kind && other[j] !in run {
        InTail(a, q, k, other[j]);
        Known(a, other[j]);
        if other[j] in run { LeadAndTailApart(a, n, q, k, other[j]); }
      }
      OtherRun(a, b, n, 0, run, added, value, other);
    }
    if q != n {
      forall x | x in run ensures x !in Lead(a, q) {
        InLead(a, n, x);
        if x in Lead(a, q) { InLead(a, q, x); }
      }
      LeadLeavesLead(a, b, n, q, 0, run, added, value);
    }
  }

  lemma {:induction false} LeadLeavesLead(a: Arena, b: Arena, p: Id, q: Id, i: nat, run: seq<Id>, added: seq<Id>, value: Option<string>)
    requires Wf(a) && RunSet(a, b, p, i, run, added, value) && q in a.kids && AllText(a.kind, run)
    requires forall x :: x in run ==> x !in Lead(a, q)
    ensures RunText(b.kind, Lead(a, q)) == RunText(a.kind, Lead(a, q))
  {
    var other := Lead(a, q);
    forall j | 0 <= j < |other| ensures other[j] in a.kind && other[j] !in run {
      InLead(a, q, other[j]);
      Known(a, other[j]);
    }
    OtherRun(a, b, p, i, run, added, value, other);
  }

  /** Setting the tail of the `k`-th child of `p` changes no text and no other tail. */
  lemma {:induction false} TailLeavesStrings(a: Arena, b: Arena, p: Id, k: nat, added: seq<Id>, value: Option<string>, q: Id, j: nat)
    requires Wf(a) && p in a.kids && k < |Children(a, p)| && TailSet(a, b, Children(a, p)[k].node, added, value) && q in a.kids
    ensures RunText(b.kind, Lead(a, q)) == RunText(a.kind, Lead(a, q))
    ensures j < |Children(a, q)| && (p != q || j != k) ==>
      RunText(b.kind, Children(a, q)[j].tail) == RunText(a.kind, Children(a, q)[j].tail)
  {
    var i := TailRunOf(a, b, p, k, added, value);
    TailLeavesLead(a, b, p, k, i, added, value, q);
    if j < |Children(a, q)| && (p != q || j != k) {
      TailLeavesTail(a, b, p, k, i, added, value, q, j);
    }
  }

  lemma {:induction false} TailRunOf(a: Arena, b: Arena, p: Id, k: nat, added: seq<Id>, value: Option<string>) returns (i: nat)
    requires Wf(a) && p in a.kids && k < |Children(a, p)| && TailSet(a, b, Children(a, p)[k].node, added, value)
    ensures RunSet(a, b, p, i, Children(a, p)[k].tail, added, value) && AllText(a.kind, Children(a, p)[k].tail)
    ensures i == |Lead(a, p)| + |Flat(Children(a, p)[..k])| + 1
  {
    PairsAreTails(a, p, k);
    RunIsText(a.kind, Following(a, Children(a, p)[k].node));
    PositionOf(a, p, k, |Lead(a, p)| + |Flat(Children(a, p)[..k])|);
    i := IndexOf(a.kids[p], Children(a, p)[k].node) + 1;
  }

  lemma {:induction false} TailLeavesLead(a: Arena, b: Arena, p: Id, k: nat, i: nat, added: seq<Id>, value: Option<string>, q: Id)
    requires Wf(a) && p in a.kids && k < |Children(a, p)| && q in a.kids
    requires RunSet(a, b, p, i, Children(a, p)[k].tail, added, value) && AllText(a.kind, Children(a, p)[k].tail)
    ensures RunText(b.kind, Lead(a, q)) == RunText(a.kind, Lead(a, q))
  {
    forall x | x in Children(a, p)[k].tail ensures x !in Lead(a, q) {
      if x in Lead(a, q) { LeadAndTailApart(a, q, p, k, x); }
    }
    LeadLeavesLead(a, b, p, q, i, Children(a, p)[k].tail, added, value);
  }

  lemma {:induction false} TailLeavesTail(a: Arena, b: Arena, p: Id, k: nat, i: nat, added: seq<Id>, value: Option<string>, q: Id, j: nat)
    requires Wf(a) && p in a.kids && k < |Children(a, p)| && q in a.kids && j < |Children(a, q)| && (p != q || j != k)
    requires RunSet(a, b, p, i, Children(a, p)[k].tail, added, value) && AllText(a.kind, Children(a, p)[k].tail)
    ensures RunText(b.kind, Children(a, q)[j].tail) == RunText(a.kind, Children(a, q)[j].tail)
  {
    var run, other := Children(a, p)[k].tail, Children(a, q)[j].tail;
    forall x | 0 <= x < |other| ensures other[x] in a.kind && other[x] !in run {
      InTail(a, q, j, other[x]);
      Known(a, other[x]);
      if other[x] in run { TailAndTailApart(a, p, k, q, j, other[x]); }
    }
    OtherRun(a, b, p, i, run, added, value, other);
  }
}
