/** In-scope namespace declarations: the four routines that compute an
    element's prefix bindings, against one resolution rule. */
module NamespaceScope {
  import opened Prelude
  import opened Arena
  import opened Declarations

  function DeclsOf(a: Arena, n: Id): seq<Decl> {
    if n in a.kind && a.kind[n].Element? then a.kind[n].decls else []
  }

  /** `chain` is `n` and its element ancestors, nearest first; above them there
      is at most the document root. */
  ghost predicate ElementChain(a: Arena, n: Id, chain: seq<Id>) {
    && chain != [] && chain[0] == n
    && (forall i :: 0 <= i < |chain| ==> chain[i] in a.kind && a.kind[chain[i]].Element?)
    && (forall i :: 0 < i < |chain| ==> Parent(a, chain[i - 1]) == Some(chain[i]))
    && match Parent(a, chain[|chain| - 1])
       case None => true
       case Some(r) => r in a.kind && a.kind[r].Root? && Parent(a, r).None?
  }

  /** A cursor that has gone `i` levels up the chain. */
  ghost predicate AtLevel(a: Arena, chain: seq<Id>, i: nat, cur: Option<Id>) {
    && chain != [] && i <= |chain|
    && cur == if i < |chain| then Some(chain[i]) else Parent(a, chain[|chain| - 1])
  }

  lemma {:induction false} OneUp(a: Arena, n: Id, chain: seq<Id>, i: nat, cur: Option<Id>)
    requires ElementChain(a, n, chain) && AtLevel(a, chain, i, cur)
    ensures i < |chain| <==> cur.Some? && cur.value in a.kind && a.kind[cur.value].Element?
    ensures cur.Some? ==> cur.value in a.kind
    ensures i < |chain| ==> a.kind[cur.value].decls == Levels(a, chain)[i] && AtLevel(a, chain, i + 1, Parent(a, cur.value))
  {
  }

  function Levels(a: Arena, chain: seq<Id>): (r: seq<seq<Decl>>)
    ensures |r| == |chain| && forall i :: 0 <= i < |chain| ==> r[i] == DeclsOf(a, chain[i])
  {
    seq(|chain|, i requires 0 <= i < |chain| => DeclsOf(a, chain[i]))
  }

  // ------------------------------------------------------------------
  // First sight wins, nearest ancestor first
  // ------------------------------------------------------------------

  /** Append the declarations of one element whose prefix has not been seen. */
  method CollectUnseen(decls: seq<Decl>, seen0: set<string>, out0: seq<Decl>, ghost own: seq<Decl>, ghost all: seq<Decl>)
    returns (seen: set<string>, out: seq<Decl>)
    requires Gathered(seen0, out0, own, all)
    ensures Gathered(seen, out, own, all + decls)
  {
    seen, out := seen0, out0;
    assert all + decls[..0] == all;
    for i := 0 to |decls|
      invariant Gathered(seen, out, own, all + decls[..i])
    {
      var d := decls[i];
      GatheredSnoc(seen, out, own, all + decls[..i], d);
      assert all + decls[..i] + [d] == all + decls[..i + 1];
      if d.prefix !in seen {
        seen := seen + {d.prefix};
        out := out + [d];
      }
    }
    assert decls[..|decls|] == decls;
  }

  /** What `id` inherits and does not declare itself, nearest ancestor first. */
  method InheritedDeclarationsNearestFirst(a: Arena, id: Id, ghost chain: seq<Id>) returns (out: seq<Decl>)
    requires ElementChain(a, id, chain)
    ensures Completes(out, DeclsOf(a, id), Levels(a, chain[1..]))
  {
    ghost var own, levels := DeclsOf(a, id), Levels(a, chain[1..]);
    var seen := set d <- a.kind[id].decls :: d.prefix;
    NothingGathered(seen, own);
    out := [];
    var current := Parent(a, id);
    ghost var i := 0;
    while current.Some?
      invariant 0 <= i <= |levels|
      invariant i < |levels| ==> current == Some(chain[i + 1])
      invariant i == |levels| ==> current == Parent(a, chain[i])
      invariant Gathered(seen, out, own, Inmost(levels[..i]))
      decreases |levels| - i
    {
      if !a.kind[current.value].Element? {
        break;
      }
      seen, out := CollectUnseen(a.kind[current.value].decls, seen, out, own, Inmost(levels[..i]));
      InmostSnoc(levels[..i], levels[i]);
      assert levels[..i] + [levels[i]] == levels[..i + 1];
      current := Parent(a, current.value);
      i := i + 1;
    }
    assert levels[..i] == levels;
    CollectedCompletes(out, own, levels);
  }

  /** The declarations that validation puts on an isolated subtree's root. */
  method ValidationDeclarations(a: Arena, id: Id, ghost chain: seq<Id>) returns (declarations: seq<Decl>)
    requires ElementChain(a, id, chain)
    ensures Completes(declarations, [], Levels(a, chain))
  {
    ghost var levels := Levels(a, chain);
    declarations := [];
    var seen: set<string> := {};
    NothingGathered(seen, []);
    var current := Some(id);
    ghost var i, all := 0, [];
    while current.Some?
      invariant 0 <= i <= |levels| + 1
      invariant i < |levels| ==> current == Some(chain[i])
      invariant i == |levels| ==> current == Parent(a, chain[i - 1])
      invariant i == |levels| + 1 ==> current == None
      invariant Gathered(seen, declarations, [], all) && all == Inmost(levels[..Min(i, |levels|)])
      decreases |levels| + 1 - i
    {
      var ancestor := current.value;
      if ancestor in a.kind && a.kind[ancestor].Element? {
        seen, declarations := CollectUnseen(a.kind[ancestor].decls, seen, declarations, [], all);
        InmostSnoc(levels[..i], levels[i]);
        assert levels[..i] + [levels[i]] == levels[..i + 1];
        all := all + levels[i];
      }
      current := Parent(a, ancestor);
      i := i + 1;
    }
    assert levels[..|levels|] == levels;
    CollectedCompletes(declarations, [], levels);
  }

  // ------------------------------------------------------------------
  // Outermost first
  // ------------------------------------------------------------------

  method AncestorChain(a: Arena, id: Id, ghost chain: seq<Id>) returns (up: seq<Id>)
    requires ElementChain(a, id, chain)
    ensures up == chain[1..]
  {
    up := [];
    var cur := Parent(a, id);
    ghost var i := 0;
    while cur.Some?
      invariant 0 <= i < |chain| && up == chain[1..i + 1]
      invariant i + 1 < |chain| ==> cur == Some(chain[i + 1])
      invariant i + 1 == |chain| ==> cur == Parent(a, chain[i])
      decreases |chain| - i
    {
      if !a.kind[cur.value].Element? {
        break;
      }
      up := up + [cur.value];
      cur := Parent(a, cur.value);
      i := i + 1;
    }
  }

  /** Bind one declaration, in place if its prefix is already listed. */
  method Overwrite(scope: seq<Decl>, d: Decl, ghost all: seq<Decl>) returns (r: seq<Decl>)
    requires Dictlike(scope, all)
    ensures Dictlike(r, all + [d])
  {
    DictlikeSnoc(scope, all, d);
    var i := 0;
    while i < |scope| && scope[i].prefix != d.prefix
      invariant 0 <= i <= |scope|
      invariant FirstAt(scope, d.prefix) == i + FirstAt(scope[i..], d.prefix)
    {
      assert scope[i..][1..] == scope[i + 1..];
      i := i + 1;
    }
    r := if i < |scope| then scope[i := d] else scope + [d];
  }

  method OverwriteAll(scope: seq<Decl>, decls: seq<Decl>, ghost all: seq<Decl>) returns (r: seq<Decl>)
    requires Dictlike(scope, all)
    ensures Dictlike(r, all + decls)
  {
    r := scope;
    assert all + decls[..0] == all;
    for i := 0 to |decls|
      invariant Dictlike(r, all + decls[..i])
    {
      r := Overwrite(r, decls[i], all + decls[..i]);
      assert all + decls[..i] + [decls[i]] == all + decls[..i + 1];
    }
    assert decls[..|decls|] == decls;
  }

  /** Drop what `own` declares itself. */
  method Retain(scope: seq<Decl>, own: seq<Decl>, ghost all: seq<Decl>) returns (r: seq<Decl>)
    requires InOrder(scope, all)
    ensures InOrder(r, all)
    ensures forall p :: Find(r, p) == if Find(own, p).Some? then None else Find(scope, p)
  {
    r := [];
    for i := 0 to |scope|
      invariant InOrder(r, all)
      invariant forall k, j :: 0 <= k < |r| && i <= j < |scope| ==> FirstAt(all, r[k].prefix) < FirstAt(all, scope[j].prefix)
      invariant forall p :: Find(r, p) == if Find(own, p).Some? then None else Find(scope[..i], p)
    {
      var d := scope[i];
      assert scope[..i + 1] == scope[..i] + [d];
      forall p
        ensures Find(scope[..i + 1], p) == OrElse(Find(scope[..i], p), if p == d.prefix then Some(d.uri) else None)
        ensures Find(r + [d], p) == OrElse(Find(r, p), if p == d.prefix then Some(d.uri) else None)
      {
        FindSnoc(scope[..i], d, p);
        FindSnoc(r, d, p);
      }
      if Find(own, d.prefix).None? {
        r := r + [d];
      }
    }
    assert scope[..|scope|] == scope;
  }

  /** What `id` inherits and does not declare itself, outermost ancestor first,
      an inner binding overwriting an outer one in place. */
  method InheritedNamespaceDeclarations(a: Arena, id: Id, ghost chain: seq<Id>) returns (scope: seq<Decl>)
    requires ElementChain(a, id, chain)
    ensures Overwrites(scope, DeclsOf(a, id), Levels(a, chain[1..]))
  {
    var up := AncestorChain(a, id, chain);
    ghost var levels := Levels(a, chain[1..]);
    scope := [];
    var i := |up|;
    while i > 0
      invariant 0 <= i <= |up|
      invariant Dictlike(scope, Outmost(levels[i..]))
    {
      i := i - 1;
      assert levels[i..][0] == levels[i] && levels[i..][1..] == levels[i + 1..];
      scope := OverwriteAll(scope, a.kind[up[i]].decls, Outmost(levels[i + 1..]));
    }
    assert levels[0..] == levels;
    forall p ensures FindLast(Outmost(levels), p) == Latest(levels, p) { FlatLookups(levels, p); }
    scope := Retain(scope, a.kind[id].decls, Outmost(levels));
  }

  // ------------------------------------------------------------------
  // The etree layer's nsmap
  // ------------------------------------------------------------------

  /** A dict with a prefix as key, `None` standing for the default namespace. */
  ghost predicate ReadsAs(d: map<Option<string>, string>, levels: seq<seq<Decl>>) {
    && (None in d <==> Latest(levels, "").Some?) && (None in d ==> Latest(levels, "") == Some(d[None]))
    && (forall p {:trigger Latest(levels, p)} :: p != "" ==> (Some(p) in d <==> Latest(levels, p).Some?))
    && (forall p {:trigger Latest(levels, p)} :: p != "" && Some(p) in d ==> Latest(levels, p) == Some(d[Some(p)]))
  }

  method Nsmap(a: Arena, id: Id, ghost chain: seq<Id>) returns (pairs: seq<(Option<string>, string)>)
    requires ElementChain(a, id, chain)
    ensures pairs == Emitted(Outmost(Levels(a, chain)))
    ensures forall p :: DictGet(Dict(pairs), p) == Latest(Levels(a, chain), p)
    ensures ReadsAs(Dict(pairs), Levels(a, chain))
  {
    var up := AncestorChain(a, id, chain);
    up := [id] + up;
    assert up == chain;
    ghost var levels := Levels(a, chain);
    pairs := [];
    var i := |up|;
    while i > 0
      invariant 0 <= i <= |up|
      invariant pairs == Emitted(Outmost(levels[i..]))
    {
      i := i - 1;
      assert levels[i..][0] == levels[i] && levels[i..][1..] == levels[i + 1..];
      EmittedConcat(Outmost(levels[i + 1..]), levels[i]);
      pairs := pairs + Emitted(a.kind[up[i]].decls);
    }
    assert levels[0..] == levels;
    forall p ensures DictGet(Dict(pairs), p) == Latest(levels, p) {
      DictOfEmitted(Outmost(levels), p);
      FlatLookups(levels, p);
    }
    GetReads(Dict(pairs), levels);
  }

  lemma {:induction false} GetReads(d: map<Option<string>, string>, levels: seq<seq<Decl>>)
    requires forall p :: DictGet(d, p) == Latest(levels, p)
    ensures ReadsAs(d, levels)
  {
    assert DictGet(d, "") == Latest(levels, "");
    forall p | p != ""
      ensures Some(p) in d <==> Latest(levels, p).Some?
      ensures Some(p) in d ==> Latest(levels, p) == Some(d[Some(p)])
    {
      assert DictGet(d, p) == Latest(levels, p);
    }
  }

  // ------------------------------------------------------------------
  // Agreement
  // ------------------------------------------------------------------

  /** The four routines in one place. Dict and overwriting list give the last URI
      of the nearest level that declares a prefix, the two first-sight lists the
      first one; so all four give one map exactly if no such level gives a prefix
      two URIs. */
  method FourRoutinesAgree(a: Arena, id: Id, ghost chain: seq<Id>)
    returns (nsmap: seq<(Option<string>, string)>, nearest: seq<Decl>, validation: seq<Decl>, outermost: seq<Decl>)
    requires ElementChain(a, id, chain)
    ensures var own, levels := DeclsOf(a, id), Levels(a, chain);
      && (forall p :: DictGet(Dict(nsmap), p) == FindLast(own + outermost, p) == Latest(levels, p))
      && (forall p :: Find(own + nearest, p) == Find(validation, p) == Resolve(levels, p))
      && ((forall p :: DictGet(Dict(nsmap), p) == FindLast(own + outermost, p) == Find(own + nearest, p) == Find(validation, p))
          <==> OneUri(levels))
    ensures nsmap == Emitted(Outmost(Levels(a, chain))) && InOrder(outermost, Outmost(Levels(a, chain)))
    ensures InOrder(nearest, Inmost(Levels(a, chain[1..]))) && InOrder(validation, Inmost(Levels(a, chain)))
    ensures DistinctPrefixes(DeclsOf(a, id)) ==>
      DistinctPrefixes(DeclsOf(a, id) + nearest) && DistinctPrefixes(DeclsOf(a, id) + outermost)
  {
    nsmap := Nsmap(a, id, chain);
    nearest := InheritedDeclarationsNearestFirst(a, id, chain);
    validation := ValidationDeclarations(a, id, chain);
    outermost := InheritedNamespaceDeclarations(a, id, chain);
    ghost var own, above, levels := DeclsOf(a, id), Levels(a, chain[1..]), Levels(a, chain);
    assert [own] + above == levels;
    forall p
      ensures Find(own + nearest, p) == Resolve(levels, p)
      ensures FindLast(own + outermost, p) == Latest(levels, p)
    {
      Standalone(own, nearest, above, p);
      StandaloneLast(own, outermost, above, p);
    }
    OneUriDecides(levels);
    Standalone(own, nearest, above, "");
    StandaloneLast(own, outermost, above, "");
  }

  /** An element that gives a prefix two URIs makes the routines disagree on it,
      wherever it stands. */
  lemma {:induction false} RepeatedPrefixDisagrees(a: Arena, id: Id, chain: seq<Id>, p: string)
    requires ElementChain(a, id, chain) && Find(DeclsOf(a, id), p) != FindLast(DeclsOf(a, id), p)
    ensures !OneUri(Levels(a, chain)) && Resolve(Levels(a, chain), p) != Latest(Levels(a, chain), p)
  {
    var levels := Levels(a, chain);
    assert Undeclared(levels[..0], p);
    FindFirstLast(levels[0], p);
    assert !OneUriFor(levels, p);
  }

  /** Such an arena: one element with two declarations of one prefix. */
  lemma {:induction false} RepeatedPrefix(p: string, u: string, v: string)
    requires u != v
    ensures var a := Arena(map[0 := Element(QName(None, "a", None), [], [Decl(p, u), Decl(p, v)])], map[0 := []], map[]);
      Wf(a) && ElementChain(a, 0, [0]) && !OneUri(Levels(a, [0]))
  {
    var a := Arena(map[0 := Element(QName(None, "a", None), [], [Decl(p, u), Decl(p, v)])], map[0 := []], map[]);
    RepeatedPrefixDisagrees(a, 0, [0], p);
  }
}
