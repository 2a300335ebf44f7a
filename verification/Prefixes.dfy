/** Generated namespace prefixes, and making an attached element's namespace
    serializable by reusing, declaring or generating a prefix. */
module Prefixes {
  import opened Prelude
  import opened Arena
  import opened Declarations
  import opened NamespaceScope
  import opened Dom

  function Digit(d: nat): char
    requires d < 10
  {
    (d + 48) as char
  }

  function Decimal(n: nat): string {
    if n < 10 then [Digit(n)] else Decimal(n / 10) + [Digit(n % 10)]
  }

  function Generated(k: nat): string {
    "ns" + Decimal(k)
  }

  /** The number that a decimal numeral denotes. */
  function ValueOf(s: string): int {
    if s == "" then 0 else 10 * ValueOf(s[..|s| - 1]) + (s[|s| - 1] as int - '0' as int)
  }

  lemma {:induction false} DecimalReadsBack(n: nat)
    ensures ValueOf(Decimal(n)) == n
  {
    if n < 10 {
      assert [Digit(n)][..0] == "";
    } else {
      var front := Decimal(n / 10);
      DecimalReadsBack(n / 10);
      assert Decimal(n)[..|front|] == front;
    }
  }

  lemma {:induction false} DecimalInjective(m: nat, n: nat)
    requires Decimal(m) == Decimal(n)
    ensures m == n
  {
    DecimalReadsBack(m);
    DecimalReadsBack(n);
  }

  lemma {:induction false} GeneratedInjective(m: nat, n: nat)
    requires Generated(m) == Generated(n)
    ensures m == n
  {
    assert Generated(m)[2..] == Decimal(m) && Generated(n)[2..] == Decimal(n);
    DecimalInjective(m, n);
  }

  // ------------------------------------------------------------------
  // Which declaration is reused
  // ------------------------------------------------------------------

  /** A declaration that an element with or without a prefix can reuse for `ns`. */
  predicate Reusable(d: Decl, ns: string, prefixed: bool) {
    d.uri == ns && (d.prefix != "" || !prefixed)
  }

  function FirstReusable(ds: seq<Decl>, ns: string, prefixed: bool): Option<string> {
    if ds == [] then None
    else if Reusable(ds[0], ns, prefixed) then Some(ds[0].prefix)
    else FirstReusable(ds[1..], ns, prefixed)
  }

  /** How many levels up the first reusable declaration sits, and its prefix. */
  function Reuse(levels: seq<seq<Decl>>, ns: string, prefixed: bool): Option<(nat, string)> {
    if levels == [] then None
    else if FirstReusable(levels[0], ns, prefixed).Some? then Some((0, FirstReusable(levels[0], ns, prefixed).value))
    else match Reuse(levels[1..], ns, prefixed)
         case None => None
         case Some((i, p)) => Some((i + 1, p))
  }

  function ReusablePrefix(levels: seq<seq<Decl>>, ns: string, prefixed: bool): Option<string> {
    if levels == [] then None
    else OrElse(FirstReusable(levels[0], ns, prefixed), ReusablePrefix(levels[1..], ns, prefixed))
  }

  lemma {:induction false} ReuseByPrefix(levels: seq<seq<Decl>>, ns: string, prefixed: bool)
    ensures var r := Reuse(levels, ns, prefixed);
            ReusablePrefix(levels, ns, prefixed) == if r.Some? then Some(r.value.1) else None
  {
    if levels != [] {
      ReuseByPrefix(levels[1..], ns, prefixed);
    }
  }

  lemma {:induction false} ReusableFrom(levels: seq<seq<Decl>>, i: nat, ns: string, prefixed: bool)
    requires i < |levels|
    ensures ReusablePrefix(levels[i..], ns, prefixed) ==
      OrElse(FirstReusable(levels[i], ns, prefixed), ReusablePrefix(levels[i + 1..], ns, prefixed))
  {
    assert levels[i..][0] == levels[i] && levels[i..][1..] == levels[i + 1..];
  }

  lemma {:induction false} ReusedHere(ds: seq<Decl>, ns: string, prefixed: bool)
    requires FirstReusable(ds, ns, prefixed).Some?
    ensures var p := FirstReusable(ds, ns, prefixed).value;
      (p != "" || !prefixed) && Find(ds, p).Some? && (DistinctPrefixes(ds) ==> Find(ds, p) == Some(ns))
  {
    if !Reusable(ds[0], ns, prefixed) {
      ReusedHere(ds[1..], ns, prefixed);
      var p := FirstReusable(ds, ns, prefixed).value;
      var j := FirstAt(ds[1..], p);
      assert ds[1..][j] == ds[j + 1];
    }
  }

  lemma {:induction false} NotReusable(ds: seq<Decl>, ns: string, prefixed: bool, p: string)
    requires FirstReusable(ds, ns, prefixed).None? && (p != "" || !prefixed)
    ensures Find(ds, p) != Some(ns)
  {
    if ds != [] && ds[0].prefix != p {
      NotReusable(ds[1..], ns, prefixed, p);
    }
  }

  /** Nothing in `ds` can serve an element in namespace `ns`: the default namespace
      serves only one that has no prefix. */
  ghost predicate Useless(ds: seq<Decl>, ns: string, prefixed: bool) {
    forall k :: 0 <= k < |ds| && ds[k].uri == ns ==> prefixed && ds[k].prefix == ""
  }

  lemma {:induction false} UselessRest(d: Decl, rest: seq<Decl>, ns: string, prefixed: bool)
    requires Useless([d] + rest, ns, prefixed)
    ensures Useless(rest, ns, prefixed)
  {
    forall j | 0 <= j < |rest| && rest[j].uri == ns ensures prefixed && rest[j].prefix == "" {
      assert ([d] + rest)[j + 1] == rest[j];
    }
  }

  lemma {:induction false} FirstReusableAt(ds: seq<Decl>, ns: string, prefixed: bool, k: nat)
    requires k < |ds| && ds[k].uri == ns && !(prefixed && ds[k].prefix == "") && Useless(ds[..k], ns, prefixed)
    ensures FirstReusable(ds, ns, prefixed) == Some(ds[k].prefix)
    decreases k
  {
    if k > 0 {
      assert ds[..k][0] == ds[0];
      assert ds[..k] == [ds[0]] + ds[1..][..k - 1];
      UselessRest(ds[0], ds[1..][..k - 1], ns, prefixed);
      FirstReusableAt(ds[1..], ns, prefixed, k - 1);
    }
  }

  lemma {:induction false} NoneReusable(ds: seq<Decl>, ns: string, prefixed: bool)
    requires Useless(ds, ns, prefixed)
    ensures FirstReusable(ds, ns, prefixed) == None
  {
    if ds != [] {
      assert ds == [ds[0]] + ds[1..];
      UselessRest(ds[0], ds[1..], ns, prefixed);
      NoneReusable(ds[1..], ns, prefixed);
    }
  }

  /** The nearest element that declares the namespace usably is taken, and its first
      such declaration. */
  lemma {:induction false} NearestIsReused(levels: seq<seq<Decl>>, ns: string, prefixed: bool, i: nat, k: nat)
    requires i < |levels| && (forall j :: 0 <= j < i ==> Useless(levels[j], ns, prefixed))
    requires k < |levels[i]| && levels[i][k].uri == ns && !(prefixed && levels[i][k].prefix == "")
    requires Useless(levels[i][..k], ns, prefixed)
    ensures Reuse(levels, ns, prefixed) == Some((i, levels[i][k].prefix))
    decreases i
  {
    if i == 0 {
      FirstReusableAt(levels[0], ns, prefixed, k);
    } else {
      NoneReusable(levels[0], ns, prefixed);
      NearestIsReused(levels[1..], ns, prefixed, i - 1, k);
    }
  }

  /** Where no element declares the namespace usably, none is reused. */
  lemma {:induction false} NothingToReuse(levels: seq<seq<Decl>>, ns: string, prefixed: bool)
    requires forall j :: 0 <= j < |levels| ==> Useless(levels[j], ns, prefixed)
    ensures Reuse(levels, ns, prefixed) == None
  {
    if levels != [] {
      NoneReusable(levels[0], ns, prefixed);
      NothingToReuse(levels[1..], ns, prefixed);
    }
  }

  ghost predicate Shadowed(levels: seq<seq<Decl>>, i: nat, p: string) {
    exists j :: 0 <= j < i && j < |levels| && Find(levels[j], p).Some?
  }

  /** A reused prefix names the namespace exactly when no element nearer than the
      declaring one declares that prefix again, nor that element itself before. */
  lemma {:induction false} ReusedPrefixResolves(levels: seq<seq<Decl>>, ns: string, prefixed: bool)
    requires Reuse(levels, ns, prefixed).Some?
    ensures var (i, p) := Reuse(levels, ns, prefixed).value;
            i < |levels| && (p != "" || !prefixed)
            && (Resolve(levels, p) == Some(ns) <==> !Shadowed(levels, i, p) && Find(levels[i], p) == Some(ns))
            && (DistinctPrefixes(levels[i]) ==> Find(levels[i], p) == Some(ns))
  {
    var (i, p) := Reuse(levels, ns, prefixed).value;
    if FirstReusable(levels[0], ns, prefixed).Some? {
      ReusedHere(levels[0], ns, prefixed);
    } else {
      var rest := levels[1..];
      ReusedPrefixResolves(rest, ns, prefixed);
      NotReusable(levels[0], ns, prefixed, p);
      if Find(levels[0], p).Some? {
        assert Shadowed(levels, i, p);
      } else {
        if Shadowed(rest, i - 1, p) {
          var j :| 0 <= j < i - 1 && j < |rest| && Find(rest[j], p).Some?;
          assert Find(levels[j + 1], p).Some?;
        }
        if Shadowed(levels, i, p) {
          var j :| 0 <= j < i && j < |levels| && Find(levels[j], p).Some?;
          assert rest[j - 1] == levels[j];
        }
      }
    }
  }

  /** A shadowed prefix is reused all the same, and then names something else. */
  lemma {:induction false} ShadowedReuse()
    ensures var levels := [[Decl("p", "urn:inner")], [Decl("p", "urn:ns")]];
            Reuse(levels, "urn:ns", false) == Some((1, "p")) && Resolve(levels, "p") == Some("urn:inner")
  {
    var levels := [[Decl("p", "urn:inner")], [Decl("p", "urn:ns")]];
    assert levels[0][1..] == [] && levels[1..][0] == [Decl("p", "urn:ns")];
    assert FirstReusable(levels[0], "urn:ns", false) == None;
  }

  // ------------------------------------------------------------------
  // The document holder
  // ------------------------------------------------------------------

  /** Setting a namespace declaration: replace the URI in place or append. */
  function WithDeclaration(ds: seq<Decl>, p: string, uri: string): seq<Decl> {
    if ds == [] then [Decl(p, uri)]
    else if ds[0].prefix == p then [Decl(p, uri)] + ds[1..]
    else [ds[0]] + WithDeclaration(ds[1..], p, uri)
  }

  lemma {:induction false} WithDeclarationAt(ds: seq<Decl>, p: string, uri: string, i: nat)
    requires i <= |ds| && (forall j :: 0 <= j < i ==> ds[j].prefix != p) && (i < |ds| ==> ds[i].prefix == p)
    ensures WithDeclaration(ds, p, uri) == if i < |ds| then ds[i := Decl(p, uri)] else ds + [Decl(p, uri)]
  {
    if i > 0 {
      WithDeclarationAt(ds[1..], p, uri, i - 1);
    }
  }

  lemma {:induction false} FindWithDeclaration(ds: seq<Decl>, p: string, uri: string, q: string)
    ensures Find(WithDeclaration(ds, p, uri), q) == if q == p then Some(uri) else Find(ds, q)
  {
    if ds != [] && ds[0].prefix != p {
      FindWithDeclaration(ds[1..], p, uri, q);
    }
  }

  lemma {:induction false} DeclaringKeepsDistinct(ds: seq<Decl>, p: string, uri: string)
    requires DistinctPrefixes(ds)
    ensures DistinctPrefixes(WithDeclaration(ds, p, uri))
  {
    var i := FirstAt(ds, p);
    forall j | 0 <= j < i ensures ds[j].prefix != p { NotBefore(ds, p, j); }
    if i == |ds| {
      forall j | 0 <= j < |ds| ensures ds[j].prefix != p { NotBefore(ds, p, j); }
    }
    WithDeclarationAt(ds, p, uri, i);
  }

  lemma {:induction false} NotBefore(ds: seq<Decl>, p: string, j: nat)
    requires j < FirstAt(ds, p)
    ensures ds[j].prefix != p
  {
    if j > 0 { NotBefore(ds[1..], p, j - 1); }
  }

  /** What becomes of the element: its new prefix and its own declarations. */
  datatype Finalization =
    | Unqualified
    | Reused(prefix: string)
    | Declared(prefix: string)
    | Fresh(prefix: string)

  /** Where a declared prefix comes from: the element's own one, otherwise the one
      that the registry has for the namespace; without either one is generated. */
  ghost predicate PrefixChosen(q: QName, registry: map<string, string>, outcome: Finalization) {
    var own := q.prefix.Some? && q.prefix.value != "";
    && (outcome.Declared? && own ==> outcome.prefix == q.prefix.value)
    && (outcome.Declared? && !own ==> q.ns.Some? && q.ns.value in registry && outcome.prefix == registry[q.ns.value])
    && (outcome.Fresh? ==> !own && q.ns.Some? && q.ns.value !in registry)
  }

  lemma {:induction false} ChainShift(a: Arena, n: Id, chain: seq<Id>, i: nat, k: nat)
    requires ElementChain(a, n, chain) && i + k < |chain| && chain[i] == chain[0]
    ensures chain[i + k] == chain[k]
  {
    if k > 0 {
      ChainShift(a, n, chain, i, k - 1);
      assert Parent(a, chain[i + k - 1]) == Some(chain[i + k]) && Parent(a, chain[k - 1]) == Some(chain[k]);
    }
  }

  /** An element is none of its own ancestors. */
  lemma {:induction false} ChainStart(a: Arena, n: Id, chain: seq<Id>, i: nat)
    requires ElementChain(a, n, chain) && 0 < i < |chain|
    ensures chain[i] != n
  {
    if chain[i] == n {
      var last := |chain| - 1;
      assert Parent(a, chain[last - i]) == Some(chain[last - i + 1]);
      ChainShift(a, n, chain, i, last - i);
    }
  }

  /** Changing an element's own name and declarations leaves its ancestors' alone. */
  lemma {:induction false} LevelsAfter(a: Arena, n: Id, chain: seq<Id>, k: Kind)
    requires ElementChain(a, n, chain) && k.Element?
    ensures var b := Rekinded(a, n, k);
            ElementChain(b, n, chain) && Levels(b, chain) == [k.decls] + Levels(a, chain)[1..]
  {
    forall i | 0 < i < |chain| ensures chain[i] != n { ChainStart(a, n, chain, i); }
    var b := Rekinded(a, n, k);
    assert forall i :: 0 < i < |chain| ==> DeclsOf(b, chain[i]) == DeclsOf(a, chain[i]);
    var last := chain[|chain| - 1];
    assert Parent(b, last) == Parent(a, last);
  }

  lemma {:induction false} ResolveAfter(levels: seq<seq<Decl>>, p: string, uri: string, q: string)
    requires levels != []
    ensures Resolve([WithDeclaration(levels[0], p, uri)] + levels[1..], q)
         == if q == p then Some(uri) else Resolve(levels, q)
  {
    var after := [WithDeclaration(levels[0], p, uri)] + levels[1..];
    assert after[1..] == levels[1..];
    FindWithDeclaration(levels[0], p, uri, q);
  }

  /** `inScope` are the prefixes that `levels` bind, the default one apart. */
  ghost predicate Binds(levels: seq<seq<Decl>>, inScope: set<string>) {
    forall p :: p in inScope <==> p != "" && Resolve(levels, p).Some?
  }

  lemma {:induction false} BindsMore(levels: seq<seq<Decl>>, i: nat, inScope: set<string>, more: set<string>)
    requires i < |levels| && Binds(levels[..i], inScope) && more == set d <- levels[i] :: d.prefix
    ensures Binds(levels[..i + 1], inScope + (more - {""}))
  {
    assert levels[..i + 1] == levels[..i] + [levels[i]];
    forall p ensures p in inScope + (more - {""}) <==> p != "" && Resolve(levels[..i + 1], p).Some? {
      ResolveSnoc(levels[..i], levels[i], p);
      SeenPrefixes(levels[i], p);
      assert p in inScope <==> p != "" && Resolve(levels[..i], p).Some?;
    }
  }

  /** The prefix under which a name is looked up. */
  function LookupPrefix(q: QName): string {
    if q.prefix.Some? then q.prefix.value else ""
  }

  class DocHolder {
    const doc: Document
    var nsCounter: nat
    /** Every prefix generated so far. */
    ghost var issued: set<string>

    constructor (doc: Document)
      ensures this.doc == doc && nsCounter == 0 && issued == {}
      ensures Valid()
    {
      this.doc := doc;
      nsCounter := 0;
      issued := {};
    }

    ghost predicate Valid()
      reads this
    {
      forall p :: p in issued ==> exists k :: 0 <= k < nsCounter && p == Generated(k)
    }

    method DeclaredPrefixes(node: Id, ghost chain: seq<Id>) returns (inScope: set<string>)
      requires ElementChain(doc.arena, node, chain)
      ensures forall p :: p in inScope <==> p != "" && Resolve(Levels(doc.arena, chain), p).Some?
    {
      ghost var levels := Levels(doc.arena, chain);
      inScope := {};
      var n := Some(node);
      ghost var i := 0;
      OneUp(doc.arena, node, chain, 0, n);
      while n.Some? && doc.arena.kind[n.value].Element?
        invariant AtLevel(doc.arena, chain, i, n) && (n.Some? ==> n.value in doc.arena.kind)
        invariant i < |chain| <==> n.Some? && doc.arena.kind[n.value].Element?
        invariant Binds(levels[..i], inScope)
        decreases |chain| - i
      {
        OneUp(doc.arena, node, chain, i, n);
        var more := set d <- doc.arena.kind[n.value].decls :: d.prefix;
        BindsMore(levels, i, inScope, more);
        inScope := inScope + (more - {""});
        n := Parent(doc.arena, n.value);
        i := i + 1;
        OneUp(doc.arena, node, chain, i, n);
      }
      assert levels[..|levels|] == levels;
    }

    /** The first generated prefix from the counter on that is not in scope. */
    method NewPrefix(node: Id, ghost chain: seq<Id>) returns (pfx: string)
      requires Valid() && ElementChain(doc.arena, node, chain)
      modifies this
      ensures Valid()
      ensures pfx !in old(issued) && issued == old(issued) + {pfx}
      ensures pfx != "" && Resolve(Levels(doc.arena, chain), pfx) == None
      ensures nsCounter > old(nsCounter) && pfx == Generated(nsCounter - 1)
      ensures forall k :: old(nsCounter) <= k < nsCounter - 1 ==> Resolve(Levels(doc.arena, chain), Generated(k)).Some?
    {
      var inScope := DeclaredPrefixes(node, chain);
      ghost var open := inScope;
      while true
        invariant nsCounter >= old(nsCounter) && issued == old(issued)
        invariant forall k :: old(nsCounter) <= k < nsCounter ==> Generated(k) in inScope
        invariant open <= inScope
        invariant forall p :: p in inScope && p !in open ==> exists k :: old(nsCounter) <= k < nsCounter && p == Generated(k)
        decreases open
      {
        pfx := Generated(nsCounter);
        ghost var c := nsCounter;
        nsCounter := nsCounter + 1;
        if pfx !in inScope {
          if pfx in issued {
            var k :| 0 <= k < old(nsCounter) && pfx == Generated(k);
            GeneratedInjective(k, c);
          }
          issued := issued + {pfx};
          assert forall p :: p in old(issued) ==> exists k :: 0 <= k < old(nsCounter) && p == Generated(k);
          assert forall p :: p in issued ==> exists k :: 0 <= k < nsCounter && p == Generated(k);
          return;
        }
        if pfx !in open {
          var k :| old(nsCounter) <= k < c && pfx == Generated(k);
          GeneratedInjective(k, c);
        }
        open := open - {pfx};
      }
    }

    method SetNamespaceDeclaration(ds: seq<Decl>, p: string, uri: string) returns (r: seq<Decl>)
      ensures r == WithDeclaration(ds, p, uri)
    {
      var i := 0;
      while i < |ds| && ds[i].prefix != p
        invariant 0 <= i <= |ds|
        invariant forall j :: 0 <= j < i ==> ds[j].prefix != p
      {
        i := i + 1;
      }
      WithDeclarationAt(ds, p, uri, i);
      r := if i < |ds| then ds[i := Decl(p, uri)] else ds + [Decl(p, uri)];
    }

    method FindReusableIn(decls: seq<Decl>, ns: string, prefixed: bool) returns (hit: Option<string>)
      ensures hit == FirstReusable(decls, ns, prefixed)
    {
      for k := 0 to |decls|
        invariant FirstReusable(decls, ns, prefixed) == FirstReusable(decls[k..], ns, prefixed)
      {
        if Reusable(decls[k], ns, prefixed) {
          return Some(decls[k].prefix);
        }
        assert decls[k..][1..] == decls[k + 1..];
      }
      hit := None;
    }

    /** The first reusable declaration on the element or above it. */
    method FindReusable(node: Id, ns: string, prefixed: bool, ghost chain: seq<Id>) returns (hit: Option<string>)
      requires ElementChain(doc.arena, node, chain)
      ensures hit == ReusablePrefix(Levels(doc.arena, chain), ns, prefixed)
    {
      ghost var levels := Levels(doc.arena, chain);
      var n := Some(node);
      ghost var i := 0;
      assert levels[0..] == levels;
      OneUp(doc.arena, node, chain, 0, n);
      while n.Some? && doc.arena.kind[n.value].Element?
        invariant AtLevel(doc.arena, chain, i, n) && (n.Some? ==> n.value in doc.arena.kind)
        invariant i < |chain| <==> n.Some? && doc.arena.kind[n.value].Element?
        invariant ReusablePrefix(levels, ns, prefixed) == ReusablePrefix(levels[i..], ns, prefixed)
        decreases |chain| - i
      {
        OneUp(doc.arena, node, chain, i, n);
        ReusableFrom(levels, i, ns, prefixed);
        hit := FindReusableIn(doc.arena.kind[n.value].decls, ns, prefixed);
        if hit.Some? {
          return;
        }
        n := Parent(doc.arena, n.value);
        i := i + 1;
        OneUp(doc.arena, node, chain, i, n);
      }
      hit := None;
    }

    /** Make an attached element's namespace serializable. */
    method FinalizeElementNs(node: Id, registry: map<string, string>, ghost chain: seq<Id>) returns (outcome: Finalization)
      requires Valid() && doc.Valid()
      requires ElementChain(doc.arena, node, chain)
      modifies this, doc`arena
      ensures Valid() && doc.Valid() && ElementChain(doc.arena, node, chain)
      ensures Finalized(old(doc.arena), doc.arena, node, chain, outcome)
      ensures PrefixChosen(old(doc.arena).kind[node].name, registry, outcome)
      ensures outcome.Fresh? ==> nsCounter > 0 && outcome.prefix == Generated(nsCounter - 1) && outcome.prefix !in old(issued)
      ensures !outcome.Fresh? ==> nsCounter == old(nsCounter) && issued == old(issued)
    {
      var q := doc.arena.kind[node].name;
      if q.ns.None? || q.ns.value == "" {
        return Unqualified;
      }
      var ns := q.ns.value;
      var hit := FindReusable(node, ns, q.prefix.Some?, chain);
      ReuseByPrefix(Levels(doc.arena, chain), ns, q.prefix.Some?);
      if hit.Some? {
        outcome := TakeReusable(node, q, ns, hit.value, chain);
      } else {
        outcome := DeclareNs(node, q, ns, registry, chain);
      }
    }

    /** The name gets the prefix that was found; the default namespace needs none. */
    method TakeReusable(node: Id, q: QName, ns: string, hit: string, ghost chain: seq<Id>) returns (outcome: Finalization)
      requires Valid() && doc.Valid() && ElementChain(doc.arena, node, chain)
      requires q == doc.arena.kind[node].name && q.ns == Some(ns) && ns != ""
      requires var r := Reuse(Levels(doc.arena, chain), ns, q.prefix.Some?); r.Some? && r.value.1 == hit
      modifies doc`arena
      ensures Valid() && doc.Valid() && ElementChain(doc.arena, node, chain)
      ensures Finalized(old(doc.arena), doc.arena, node, chain, outcome) && outcome.Reused?
    {
      ghost var levels := Levels(doc.arena, chain);
      ReusedPrefixResolves(levels, ns, q.prefix.Some?);
      if hit != "" {
        var k := doc.arena.kind[node];
        var k' := k.(name := q.(prefix := Some(hit)));
        LevelsAfter(doc.arena, node, chain, k');
        assert [k'.decls] + levels[1..] == levels;
        doc.SetKind(node, k');
      }
      outcome := Reused(hit);
    }

    /** No prefix to reuse: declare one for the namespace on the element itself. */
    method DeclareNs(node: Id, q: QName, ns: string, registry: map<string, string>, ghost chain: seq<Id>) returns (outcome: Finalization)
      requires Valid() && doc.Valid() && ElementChain(doc.arena, node, chain)
      requires q == doc.arena.kind[node].name && q.ns == Some(ns) && ns != "" && Reuse(Levels(doc.arena, chain), ns, q.prefix.Some?).None?
      modifies this, doc`arena
      ensures Valid() && doc.Valid() && ElementChain(doc.arena, node, chain)
      ensures Finalized(old(doc.arena), doc.arena, node, chain, outcome)
      ensures !outcome.Reused? && !outcome.Unqualified? && PrefixChosen(q, registry, outcome)
      ensures outcome.Fresh? ==> nsCounter > 0 && outcome.prefix == Generated(nsCounter - 1) && outcome.prefix !in old(issued)
      ensures !outcome.Fresh? ==> nsCounter == old(nsCounter) && issued == old(issued)
    {
      var k := doc.arena.kind[node];
      ghost var levels := Levels(doc.arena, chain);
      var prefix;
      if q.prefix.Some? && q.prefix.value != "" {
        prefix := q.prefix.value;
        outcome := Declared(prefix);
      } else if ns in registry {
        prefix := registry[ns];
        outcome := Declared(prefix);
      } else {
        prefix := NewPrefix(node, chain);
        outcome := Fresh(prefix);
      }
      var decls := SetNamespaceDeclaration(k.decls, prefix, ns);
      var k' := k.(name := q.(prefix := Some(prefix)), decls := decls);
      LevelsAfter(doc.arena, node, chain, k');
      forall r { ResolveAfter(levels, prefix, ns, r); }
      doc.SetKind(node, k');
    }
  }

  /** What finalizing an element's namespace does. A declared or generated prefix
      names the namespace and leaves every other prefix alone; a generated one was
      bound nowhere, so every prefix in scope before resolves as before. */
  ghost predicate Finalized(a: Arena, b: Arena, node: Id, chain: seq<Id>, outcome: Finalization)
    requires ElementChain(a, node, chain) && ElementChain(b, node, chain)
  {
    var q, q' := a.kind[node].name, b.kind[node].name;
    var before, after := Levels(a, chain), Levels(b, chain);
    && b == Rekinded(a, node, b.kind[node])
    && q' == q.(prefix := q'.prefix) && b.kind[node].attrs == a.kind[node].attrs
    && (outcome.Unqualified? <==> q.ns.None? || q.ns.value == "")
    && (outcome.Unqualified? ==> b == a)
    && (!outcome.Unqualified? ==>
          && LookupPrefix(q') == outcome.prefix
          && (outcome.Reused? <==> Reuse(before, q.ns.value, q.prefix.Some?).Some?))
    && (outcome.Reused? ==>
          && after == before
          && var (i, p) := Reuse(before, q.ns.value, q.prefix.Some?).value;
             && p == outcome.prefix && i < |before|
             && (Resolve(after, p) == q.ns <==> !Shadowed(before, i, p) && Find(before[i], p) == q.ns)
             && (DistinctPrefixes(before[i]) ==> Find(before[i], p) == q.ns))
    && (outcome.Declared? || outcome.Fresh? ==>
          && Resolve(after, outcome.prefix) == q.ns
          && forall r :: r != outcome.prefix ==> Resolve(after, r) == Resolve(before, r))
    && (outcome.Fresh? ==>
          && Resolve(before, outcome.prefix) == None
          && forall r :: Resolve(before, r).Some? ==> Resolve(after, r) == Resolve(before, r))
  }
}
