/** Lists of namespace declarations: the first and the last declaration of a
    prefix, levels of declarations, and lists that sum a chain of levels up. */
module Declarations {
  import opened Prelude
  import opened Arena

  function Find(ds: seq<Decl>, p: string): Option<string> {
    if ds == [] then None
    else if ds[0].prefix == p then Some(ds[0].uri)
    else Find(ds[1..], p)
  }

  /** The URI that the last declaration of `p` gives it. */
  function FindLast(ds: seq<Decl>, p: string): Option<string> {
    if ds == [] then None
    else if ds[|ds| - 1].prefix == p then Some(ds[|ds| - 1].uri)
    else FindLast(ds[..|ds| - 1], p)
  }

  function OrElse<T>(x: Option<T>, y: Option<T>): Option<T> {
    if x.Some? then x else y
  }

  /** The binding of `p` where `levels` lists the declarations of an element and
      of its ancestors, nearest first: the nearest declaration wins. */
  function Resolve(levels: seq<seq<Decl>>, p: string): Option<string> {
    if levels == [] then None else OrElse(Find(levels[0], p), Resolve(levels[1..], p))
  }

  /** The same with the last declaration of a level counting instead of the first. */
  function Latest(levels: seq<seq<Decl>>, p: string): Option<string> {
    if levels == [] then None else OrElse(FindLast(levels[0], p), Latest(levels[1..], p))
  }

  /** All declarations, nearest element first. */
  function Inmost(levels: seq<seq<Decl>>): seq<Decl> {
    if levels == [] then [] else levels[0] + Inmost(levels[1..])
  }

  /** All declarations, outermost element first. */
  function Outmost(levels: seq<seq<Decl>>): seq<Decl> {
    if levels == [] then [] else Outmost(levels[1..]) + levels[0]
  }

  /** Where `p` is first declared; the length if it is not. */
  function FirstAt(ds: seq<Decl>, p: string): (i: nat)
    ensures i <= |ds| && (i < |ds| <==> Find(ds, p).Some?)
    ensures i < |ds| ==> ds[i].prefix == p && Find(ds, p) == Some(ds[i].uri)
  {
    if ds == [] || ds[0].prefix == p then 0 else 1 + FirstAt(ds[1..], p)
  }

  /** `out` lists its prefixes in the order in which `all` first declares them. */
  ghost predicate InOrder(out: seq<Decl>, all: seq<Decl>) {
    forall i, j :: 0 <= i < j < |out| ==> FirstAt(all, out[i].prefix) < FirstAt(all, out[j].prefix)
  }

  ghost predicate DistinctPrefixes(ds: seq<Decl>) {
    forall i, j :: 0 <= i < j < |ds| ==> ds[i].prefix != ds[j].prefix
  }

  ghost predicate NoneTwice(levels: seq<seq<Decl>>) {
    forall i :: 0 <= i < |levels| ==> DistinctPrefixes(levels[i])
  }

  /** For every prefix the nearest level that declares it gives it the same URI
      first and last. */
  ghost predicate OneUri(levels: seq<seq<Decl>>) {
    forall p :: OneUriFor(levels, p)
  }

  ghost predicate OneUriFor(levels: seq<seq<Decl>>, p: string) {
    forall i :: 0 <= i < |levels| && Find(levels[i], p).Some? && Undeclared(levels[..i], p) ==>
      Find(levels[i], p) == FindLast(levels[i], p)
  }

  ghost predicate Undeclared(levels: seq<seq<Decl>>, p: string) {
    forall k :: 0 <= k < |levels| ==> Find(levels[k], p).None?
  }

  // ------------------------------------------------------------------
  // Lookup lemmas
  // ------------------------------------------------------------------

  lemma {:induction false} FindConcat(xs: seq<Decl>, ys: seq<Decl>, p: string)
    ensures Find(xs + ys, p) == OrElse(Find(xs, p), Find(ys, p))
  {
    if xs == [] {
      assert xs + ys == ys;
    } else {
      assert (xs + ys)[0] == xs[0] && (xs + ys)[1..] == xs[1..] + ys;
      FindConcat(xs[1..], ys, p);
    }
  }

  lemma {:induction false} FirstAtConcat(xs: seq<Decl>, ys: seq<Decl>, p: string)
    ensures FirstAt(xs + ys, p) == if FirstAt(xs, p) < |xs| then FirstAt(xs, p) else |xs| + FirstAt(ys, p)
  {
    if xs == [] {
      assert xs + ys == ys;
    } else {
      assert (xs + ys)[0] == xs[0] && (xs + ys)[1..] == xs[1..] + ys;
      FirstAtConcat(xs[1..], ys, p);
    }
  }

  lemma {:induction false} FindLastConcat(xs: seq<Decl>, ys: seq<Decl>, p: string)
    ensures FindLast(xs + ys, p) == OrElse(FindLast(ys, p), FindLast(xs, p))
    decreases |ys|
  {
    if ys == [] {
      assert xs + ys == xs;
    } else {
      var n := |ys| - 1;
      assert (xs + ys)[|xs + ys| - 1] == ys[n] && (xs + ys)[..|xs + ys| - 1] == xs + ys[..n];
      FindLastConcat(xs, ys[..n], p);
    }
  }

  /** The first look-up reads the first declaration of the prefix. */
  lemma {:induction false} FoundFirst(ds: seq<Decl>, p: string, i: nat)
    requires i < |ds| && ds[i].prefix == p && forall j :: 0 <= j < i ==> ds[j].prefix != p
    ensures Find(ds, p) == Some(ds[i].uri)
    decreases i
  {
    if i > 0 {
      assert ds[0].prefix != p;
      FoundFirst(ds[1..], p, i - 1);
    }
  }

  /** The last look-up reads the last one. */
  lemma {:induction false} FoundLast(ds: seq<Decl>, p: string, i: nat)
    requires i < |ds| && ds[i].prefix == p && forall j :: i < j < |ds| ==> ds[j].prefix != p
    ensures FindLast(ds, p) == Some(ds[i].uri)
    decreases |ds|
  {
    if i < |ds| - 1 {
      assert ds[|ds| - 1].prefix != p;
      FoundLast(ds[..|ds| - 1], p, i);
    }
  }

  lemma {:induction false} FoundNowhere(ds: seq<Decl>, p: string)
    requires forall j :: 0 <= j < |ds| ==> ds[j].prefix != p
    ensures FindLast(ds, p) == None
    decreases |ds|
  {
    if ds != [] {
      assert ds[|ds| - 1].prefix != p;
      FoundNowhere(ds[..|ds| - 1], p);
    }
  }

  lemma {:induction false} UndeclaredRest(ds: seq<Decl>, levels: seq<seq<Decl>>, p: string)
    requires Undeclared([ds] + levels, p)
    ensures Undeclared(levels, p)
  {
    forall k | 0 <= k < |levels| ensures Find(levels[k], p).None? {
      assert ([ds] + levels)[k + 1] == levels[k];
    }
  }

  /** Among levels the nearest one that declares the prefix decides. */
  lemma {:induction false} FoundNearest(levels: seq<seq<Decl>>, p: string, i: nat)
    requires i < |levels| && Find(levels[i], p).Some? && Undeclared(levels[..i], p)
    ensures Resolve(levels, p) == Find(levels[i], p) && Latest(levels, p) == FindLast(levels[i], p)
    decreases i
  {
    FindFirstLast(levels[0], p);
    if i > 0 {
      assert levels[..i][0] == levels[0];
      assert levels[..i] == [levels[0]] + levels[1..][..i - 1];
      UndeclaredRest(levels[0], levels[1..][..i - 1], p);
      FoundNearest(levels[1..], p, i - 1);
    }
  }

  /** Both look-ups find the same prefixes, and the same URIs among distinct ones. */
  lemma {:induction false} FindFirstLast(ds: seq<Decl>, p: string)
    ensures Find(ds, p).Some? <==> FindLast(ds, p).Some?
    ensures DistinctPrefixes(ds) ==> Find(ds, p) == FindLast(ds, p)
    decreases |ds|
  {
    if ds != [] {
      var front, last := ds[..|ds| - 1], ds[|ds| - 1];
      FindFirstLast(front, p);
      assert ds == front + [last] && [last][1..] == [];
      FindConcat(front, [last], p);
      if DistinctPrefixes(ds) && Find(front, p).Some? {
        assert front[FirstAt(front, p)] == ds[FirstAt(front, p)];
      }
    }
  }

  lemma {:induction false} ResolveConcat(xs: seq<seq<Decl>>, ys: seq<seq<Decl>>, p: string)
    ensures Resolve(xs + ys, p) == OrElse(Resolve(xs, p), Resolve(ys, p))
  {
    if xs == [] {
      assert xs + ys == ys;
    } else {
      assert (xs + ys)[0] == xs[0] && (xs + ys)[1..] == xs[1..] + ys;
      ResolveConcat(xs[1..], ys, p);
    }
  }

  lemma {:induction false} ResolveSnoc(xs: seq<seq<Decl>>, ds: seq<Decl>, p: string)
    ensures Resolve(xs + [ds], p) == OrElse(Resolve(xs, p), Find(ds, p))
  {
    ResolveConcat(xs, [ds], p);
    assert [ds][1..] == [];
  }

  /** Reading all declarations as one list: nearest first the first one counts,
      outermost first the last one. */
  lemma {:induction false} FlatLookups(levels: seq<seq<Decl>>, p: string)
    ensures Find(Inmost(levels), p) == Resolve(levels, p)
    ensures FindLast(Outmost(levels), p) == Latest(levels, p)
  {
    if levels != [] {
      FlatLookups(levels[1..], p);
      FindConcat(levels[0], Inmost(levels[1..]), p);
      FindLastConcat(Outmost(levels[1..]), levels[0], p);
    }
  }

  lemma {:induction false} InmostSnoc(levels: seq<seq<Decl>>, ds: seq<Decl>)
    ensures Inmost(levels + [ds]) == Inmost(levels) + ds
  {
    if levels == [] {
      assert [ds][1..] == [] && levels + [ds] == [ds];
    } else {
      assert (levels + [ds])[0] == levels[0] && (levels + [ds])[1..] == levels[1..] + [ds];
      InmostSnoc(levels[1..], ds);
      assert levels[0] + (Inmost(levels[1..]) + ds) == levels[0] + Inmost(levels[1..]) + ds;
    }
  }

  /** One more declaration at the end. */
  lemma {:induction false} FindSnoc(ds: seq<Decl>, d: Decl, p: string)
    ensures Find(ds + [d], p) == OrElse(Find(ds, p), if d.prefix == p then Some(d.uri) else None)
    ensures FirstAt(ds + [d], p) == if FirstAt(ds, p) < |ds| || d.prefix == p then FirstAt(ds, p) else |ds| + 1
  {
    assert [d][1..] == [];
    FindConcat(ds, [d], p);
    FirstAtConcat(ds, [d], p);
  }

  /** Bindings and order leave no choice: there is one such list. */
  lemma {:induction false} OrderDetermines(xs: seq<Decl>, ys: seq<Decl>, all: seq<Decl>)
    requires InOrder(xs, all) && InOrder(ys, all) && forall p :: Find(xs, p) == Find(ys, p)
    ensures xs == ys
  {
    if xs == [] || ys == [] {
      assert xs != [] ==> Find(ys, xs[0].prefix).Some?;
      assert ys != [] ==> Find(xs, ys[0].prefix).Some?;
    } else {
      assert Find(xs, xs[0].prefix) == Some(xs[0].uri) && Find(ys, ys[0].prefix) == Some(ys[0].uri);
      var i, j := FirstAt(xs, ys[0].prefix), FirstAt(ys, xs[0].prefix);
      assert i == 0 || j == 0;
      forall p ensures Find(xs[1..], p) == Find(ys[1..], p) {
        RestFinds(xs, all, p);
        RestFinds(ys, all, p);
      }
      OrderDetermines(xs[1..], ys[1..], all);
    }
  }

  lemma {:induction false} RestFinds(xs: seq<Decl>, all: seq<Decl>, p: string)
    requires InOrder(xs, all) && xs != []
    ensures Find(xs[1..], p) == if p == xs[0].prefix then None else Find(xs, p)
  {
    var k := FirstAt(xs[1..], p);
    assert k + 1 < |xs| ==> xs[1..][k] == xs[k + 1];
  }

  // ------------------------------------------------------------------
  // First sight wins
  // ------------------------------------------------------------------

  /** `out` binds exactly the prefixes that `levels` resolve and `own` does not,
      nearest element first. */
  ghost predicate Completes(out: seq<Decl>, own: seq<Decl>, levels: seq<seq<Decl>>) {
    && InOrder(out, Inmost(levels))
    && forall p :: Find(out, p) == if Find(own, p).Some? then None else Resolve(levels, p)
  }

  /** The same for a flat list of declarations. */
  ghost predicate Collected(out: seq<Decl>, own: seq<Decl>, all: seq<Decl>) {
    InOrder(out, all) && forall p :: Find(out, p) == if Find(own, p).Some? then None else Find(all, p)
  }

  lemma {:induction false} CollectedCompletes(out: seq<Decl>, own: seq<Decl>, levels: seq<seq<Decl>>)
    requires Collected(out, own, Inmost(levels))
    ensures Completes(out, own, levels)
  {
    forall p ensures Find(Inmost(levels), p) == Resolve(levels, p) { FlatLookups(levels, p); }
  }

  ghost predicate Seen(seen: set<string>, own: seq<Decl>, all: seq<Decl>) {
    forall p :: p in seen <==> Find(own, p).Some? || Find(all, p).Some?
  }

  /** A collection under way: what it has put out and which prefixes it has seen. */
  ghost predicate Gathered(seen: set<string>, out: seq<Decl>, own: seq<Decl>, all: seq<Decl>) {
    Collected(out, own, all) && Seen(seen, own, all)
  }

  lemma {:induction false} NothingGathered(seen: set<string>, own: seq<Decl>)
    requires seen == set d <- own :: d.prefix
    ensures Gathered(seen, [], own, [])
  {
    forall p ensures p in seen <==> Find(own, p).Some? { SeenPrefixes(own, p); }
  }

  lemma {:induction false} GatheredSnoc(seen: set<string>, out: seq<Decl>, own: seq<Decl>, all: seq<Decl>, d: Decl)
    requires Gathered(seen, out, own, all)
    ensures if d.prefix in seen then Gathered(seen, out, own, all + [d])
            else Gathered(seen + {d.prefix}, out + [d], own, all + [d])
  {
    CollectedSnoc(seen, out, own, all, d);
    SeenSnoc(seen, own, all, d);
    assert d.prefix in seen ==> seen + {d.prefix} == seen;
  }

  lemma {:induction false} SeenSnoc(seen: set<string>, own: seq<Decl>, all: seq<Decl>, d: Decl)
    requires Seen(seen, own, all)
    ensures Seen(seen + {d.prefix}, own, all + [d])
  {
    forall p ensures Find(all + [d], p) == OrElse(Find(all, p), if d.prefix == p then Some(d.uri) else None) {
      FindSnoc(all, d, p);
    }
  }

  lemma {:induction false} CollectedSnoc(seen: set<string>, out: seq<Decl>, own: seq<Decl>, all: seq<Decl>, d: Decl)
    requires Collected(out, own, all) && Seen(seen, own, all)
    ensures Collected(if d.prefix in seen then out else out + [d], own, all + [d])
  {
    forall p
      ensures Find(all + [d], p) == OrElse(Find(all, p), if d.prefix == p then Some(d.uri) else None)
      ensures Find(out + [d], p) == OrElse(Find(out, p), if d.prefix == p then Some(d.uri) else None)
    {
      FindSnoc(all, d, p);
      FindSnoc(out, d, p);
    }
    forall k | 0 <= k < |out| ensures Find(all, out[k].prefix).Some? { Listed(out, k); }
    OrderAfter(out, out, all, d);
    if d.prefix !in seen { OrderAfter(out, out + [d], all, d); }
  }

  /** Replacing URIs and listing a prefix that is new keeps the order. */
  lemma {:induction false} OrderAfter(xs: seq<Decl>, ys: seq<Decl>, all: seq<Decl>, d: Decl)
    requires InOrder(xs, all) && forall k :: 0 <= k < |xs| ==> Find(all, xs[k].prefix).Some?
    requires |ys| == |xs| || (|ys| == |xs| + 1 && ys[|xs|] == d && Find(all, d.prefix).None?)
    requires forall k :: 0 <= k < |xs| ==> ys[k].prefix == xs[k].prefix
    ensures InOrder(ys, all + [d])
  {
    forall k | 0 <= k < |ys| ensures FirstAt(all + [d], ys[k].prefix) == FirstAt(all, ys[k].prefix) {
      FindSnoc(all, d, ys[k].prefix);
    }
  }

  lemma {:induction false} Listed(ds: seq<Decl>, k: nat)
    requires k < |ds|
    ensures Find(ds, ds[k].prefix).Some?
  {
    if k > 0 {
      assert ds[1..][k - 1] == ds[k];
      Listed(ds[1..], k - 1);
    }
  }

  lemma {:induction false} SeenPrefixes(ds: seq<Decl>, p: string)
    ensures p in (set d <- ds :: d.prefix) <==> Find(ds, p).Some?
  {
    if ds != [] {
      SeenPrefixes(ds[1..], p);
      assert forall d :: d in ds <==> d == ds[0] || d in ds[1..];
    }
  }

  // ------------------------------------------------------------------
  // The last one overwrites in place
  // ------------------------------------------------------------------

  /** `scope` reads `all` as a dict does: the last URI of each prefix, at the
      place of its first. */
  ghost predicate Dictlike(scope: seq<Decl>, all: seq<Decl>) {
    InOrder(scope, all) && forall p :: Find(scope, p) == FindLast(all, p)
  }

  lemma {:induction false} DictlikeSnoc(scope: seq<Decl>, all: seq<Decl>, d: Decl)
    requires Dictlike(scope, all)
    ensures var i := FirstAt(scope, d.prefix);
      Dictlike(if i < |scope| then scope[i := d] else scope + [d], all + [d])
  {
    var i := FirstAt(scope, d.prefix);
    var r := if i < |scope| then scope[i := d] else scope + [d];
    forall p ensures Find(r, p) == FindLast(all + [d], p) {
      if i < |scope| { FindUpdate(scope, i, d, p); } else { FindSnoc(scope, d, p); }
    }
    forall k | 0 <= k < |scope| ensures Find(all, scope[k].prefix).Some? {
      Listed(scope, k);
      FindFirstLast(all, scope[k].prefix);
    }
    FindFirstLast(all, d.prefix);
    OrderAfter(scope, r, all, d);
  }

  lemma {:induction false} FindUpdate(ds: seq<Decl>, i: nat, d: Decl, p: string)
    requires i < |ds| && i == FirstAt(ds, d.prefix)
    ensures Find(ds[i := d], p) == if p == d.prefix then Some(d.uri) else Find(ds, p)
  {
    if i > 0 {
      assert ds[i := d][0] == ds[0] && ds[i := d][1..] == ds[1..][i - 1 := d];
      FindUpdate(ds[1..], i - 1, d, p);
    } else {
      assert ds[i := d][1..] == ds[1..];
    }
  }

  /** `out` binds exactly the prefixes that `levels` declare and `own` does not,
      outermost element first, an inner declaration overwriting in place. */
  ghost predicate Overwrites(out: seq<Decl>, own: seq<Decl>, levels: seq<seq<Decl>>) {
    && InOrder(out, Outmost(levels))
    && forall p :: Find(out, p) == if Find(own, p).Some? then None else Latest(levels, p)
  }

  // ------------------------------------------------------------------
  // Pairs and dicts
  // ------------------------------------------------------------------

  /** `None` stands for the default namespace. */
  function Key(p: string): Option<string> {
    if p == "" then None else Some(p)
  }

  function Emitted(ds: seq<Decl>): (r: seq<(Option<string>, string)>)
    ensures |r| == |ds| && forall i :: 0 <= i < |ds| ==> r[i] == (Key(ds[i].prefix), ds[i].uri)
  {
    seq(|ds|, i requires 0 <= i < |ds| => (Key(ds[i].prefix), ds[i].uri))
  }

  lemma {:induction false} EmittedConcat(xs: seq<Decl>, ys: seq<Decl>)
    ensures Emitted(xs + ys) == Emitted(xs) + Emitted(ys)
  {
  }

  /** Reading the pair list as a dict: a later pair replaces an earlier one. */
  function Dict(pairs: seq<(Option<string>, string)>): map<Option<string>, string> {
    if pairs == [] then map[]
    else Dict(pairs[..|pairs| - 1])[pairs[|pairs| - 1].0 := pairs[|pairs| - 1].1]
  }

  function DictGet(m: map<Option<string>, string>, p: string): Option<string> {
    if Key(p) in m then Some(m[Key(p)]) else None
  }

  lemma {:induction false} DictOfEmitted(ds: seq<Decl>, p: string)
    ensures DictGet(Dict(Emitted(ds)), p) == FindLast(ds, p)
    decreases |ds|
  {
    if ds != [] {
      DictOfEmitted(ds[..|ds| - 1], p);
      assert Emitted(ds)[..|ds| - 1] == Emitted(ds[..|ds| - 1]);
    }
  }

  // ------------------------------------------------------------------
  // Beside an element's own declarations
  // ------------------------------------------------------------------

  /** Adding a completing list to an element's own declarations makes the element
      resolve every prefix without its ancestors. */
  lemma {:induction false} Standalone(own: seq<Decl>, out: seq<Decl>, levels: seq<seq<Decl>>, p: string)
    requires Completes(out, own, levels)
    ensures Find(own + out, p) == Resolve([own] + levels, p)
    ensures DistinctPrefixes(own) ==> DistinctPrefixes(own + out)
  {
    FindConcat(own, out, p);
    assert ([own] + levels)[1..] == levels;
    if DistinctPrefixes(own) { DisjointPrefixes(own, out); }
  }

  lemma {:induction false} DisjointPrefixes(own: seq<Decl>, out: seq<Decl>)
    requires DistinctPrefixes(own) && DistinctPrefixes(out) && forall p :: Find(own, p).Some? ==> Find(out, p).None?
    ensures DistinctPrefixes(own + out)
  {
    forall i, j | 0 <= i < |own| && 0 <= j < |out| ensures own[i].prefix != out[j].prefix {
      Listed(own, i);
      Listed(out, j);
    }
  }

  /** The same for an overwriting list, with the last declaration counting. */
  lemma {:induction false} StandaloneLast(own: seq<Decl>, out: seq<Decl>, levels: seq<seq<Decl>>, p: string)
    requires Overwrites(out, own, levels)
    ensures FindLast(own + out, p) == Latest([own] + levels, p)
    ensures DistinctPrefixes(own) ==> DistinctPrefixes(own + out)
    ensures InOrder(out, Outmost([own] + levels))
  {
    OrderInside(out, levels, own);
    FindLastConcat(own, out, p);
    assert ([own] + levels)[1..] == levels;
    FindFirstLast(own, p);
    FindFirstLast(out, p);
    if DistinctPrefixes(own) { DisjointPrefixes(own, out); }
  }

  lemma {:induction false} OrderInside(out: seq<Decl>, levels: seq<seq<Decl>>, own: seq<Decl>)
    requires Overwrites(out, own, levels)
    ensures InOrder(out, Outmost([own] + levels))
  {
    var all := Outmost(levels);
    assert ([own] + levels)[1..] == levels;
    forall k | 0 <= k < |out| ensures FirstAt(all + own, out[k].prefix) == FirstAt(all, out[k].prefix) {
      var p := out[k].prefix;
      Listed(out, k);
      FlatLookups(levels, p);
      FindFirstLast(all, p);
      FirstAtConcat(all, own, p);
    }
  }

  /** Where the nearest declaring level gives one URI, first and last are the same. */
  lemma {:induction false} NearestDecides(levels: seq<seq<Decl>>, p: string)
    ensures Resolve(levels, p) == Latest(levels, p) <==> OneUriFor(levels, p)
  {
    if levels != [] {
      var rest := levels[1..];
      FindFirstLast(levels[0], p);
      if Find(levels[0], p).Some? {
        assert Undeclared(levels[..0], p);
        forall i | 0 < i < |levels| ensures !Undeclared(levels[..i], p) { assert levels[..i][0] == levels[0]; }
      } else {
        NearestDecides(rest, p);
        forall i | 0 < i < |levels| ensures Undeclared(levels[..i], p) <==> Undeclared(rest[..i - 1], p) {
          assert levels[..i] == [levels[0]] + rest[..i - 1];
        }
      }
    }
  }

  /** First and last declarations say the same exactly if no nearest level
      contradicts itself. */
  lemma {:induction false} OneUriDecides(levels: seq<seq<Decl>>)
    ensures (forall p :: Resolve(levels, p) == Latest(levels, p)) <==> OneUri(levels)
  {
    if forall p :: Resolve(levels, p) == Latest(levels, p) {
      forall p ensures OneUriFor(levels, p) { NearestDecides(levels, p); }
      assert OneUri(levels);
    } else {
      var p :| Resolve(levels, p) != Latest(levels, p);
      NearestDecides(levels, p);
      assert !OneUriFor(levels, p);
    }
  }

  lemma {:induction false} DistinctGiveOneUri(levels: seq<seq<Decl>>)
    requires NoneTwice(levels)
    ensures OneUri(levels)
  {
    forall i, p | 0 <= i < |levels| ensures Find(levels[i], p) == FindLast(levels[i], p) { FindFirstLast(levels[i], p); }
  }
}
