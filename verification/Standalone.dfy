/** Serializing an element on its own: the spliced start tag declares, by
    itself, every prefix that is in scope at the element. */
module Standalone {
  import opened Prelude
  import opened Arena
  import opened Declarations
  import opened NamespaceScope
  import opened StartTag

  /** The prefix that an attribute name declares, if it is a declaration. */
  function DeclaredPrefix(name: string): Option<string> {
    if name == "xmlns" then Some("")
    else if |name| > 6 && name[..6] == "xmlns:" then Some(name[6..])
    else None
  }

  /** The namespace declarations among parsed attributes, in order. */
  function NsDecls(xs: seq<(string, Option<string>)>): seq<Decl> {
    if xs == [] then [] else NsDecl(xs[0]) + NsDecls(xs[1..])
  }

  function NsDecl(x: (string, Option<string>)): seq<Decl> {
    var p := DeclaredPrefix(x.0);
    if p.Some? && x.1.Some? then [Decl(p.value, x.1.value)] else []
  }

  ghost predicate DistinctNames(xs: seq<(string, Option<string>)>) {
    forall i, j :: 0 <= i < j < |xs| ==> xs[i].0 != xs[j].0
  }

  lemma {:induction false} NameOfPrefix(p: string)
    ensures DeclaredPrefix(AttrName(p)) == Some(p)
  {
    if p != "" {
      assert AttrName(p)[..6] == "xmlns:" && AttrName(p)[6..] == p;
    }
  }

  lemma {:induction false} NsDeclsOfDeclared(ds: seq<Decl>)
    ensures NsDecls(Declared(ds)) == ds
  {
    if ds != [] {
      NameOfPrefix(ds[0].prefix);
      assert Declared(ds)[1..] == Declared(ds[1..]);
      NsDeclsOfDeclared(ds[1..]);
    }
  }

  lemma {:induction false} NsDeclsConcat(xs: seq<(string, Option<string>)>, ys: seq<(string, Option<string>)>)
    ensures NsDecls(xs + ys) == NsDecls(xs) + NsDecls(ys)
  {
    if xs == [] {
      assert xs + ys == ys;
    } else {
      assert (xs + ys)[0] == xs[0] && (xs + ys)[1..] == xs[1..] + ys;
      NsDeclsConcat(xs[1..], ys);
      assert NsDecl(xs[0]) + (NsDecls(xs[1..]) + NsDecls(ys)) == NsDecls(xs) + NsDecls(ys);
    }
  }

  lemma {:induction false} NsDeclNamed(xs: seq<(string, Option<string>)>, k: nat) returns (i: nat)
    requires k < |NsDecls(xs)|
    ensures i < |xs| && DeclaredPrefix(xs[i].0) == Some(NsDecls(xs)[k].prefix)
  {
    if k < |NsDecl(xs[0])| {
      i := 0;
    } else {
      i := NsDeclNamed(xs[1..], k - |NsDecl(xs[0])|);
      i := i + 1;
    }
  }

  lemma {:induction false} SamePrefixSameName(x: string, y: string)
    requires DeclaredPrefix(x).Some? && DeclaredPrefix(x) == DeclaredPrefix(y)
    ensures x == y
  {
    if x != "xmlns" {
      assert x == x[..6] + x[6..] && y == y[..6] + y[6..];
    }
  }

  /** Distinct attribute names declare distinct prefixes. */
  lemma {:induction false} DistinctDecls(xs: seq<(string, Option<string>)>)
    requires DistinctNames(xs)
    ensures DistinctPrefixes(NsDecls(xs))
  {
    if xs != [] {
      var ds := NsDecls(xs[1..]);
      DistinctDecls(xs[1..]);
      forall k | 0 <= k < |ds| && NsDecl(xs[0]) != [] ensures ds[k].prefix != NsDecl(xs[0])[0].prefix {
        var i := NsDeclNamed(xs[1..], k);
        if ds[k].prefix == NsDecl(xs[0])[0].prefix { SamePrefixSameName(xs[0].0, xs[1..][i].0); }
      }
    }
  }

  /** Every normalized declaration attribute shows up among the declarations. */
  lemma {:induction false} NsDeclsBind(xs: seq<(string, Option<string>)>, i: nat, p: string)
    requires i < |xs| && xs[i].0 == AttrName(p) && xs[i].1.Some?
    ensures Find(NsDecls(xs), p).Some?
  {
    NameOfPrefix(p);
    if i > 0 {
      NsDeclsBind(xs[1..], i - 1, p);
    }
    FindConcat(NsDecl(xs[0]), NsDecls(xs[1..]), p);
  }

  lemma {:induction false} LatestWitness(levels: seq<seq<Decl>>, p: string)
    requires Latest(levels, p).Some?
    ensures exists i, j :: 0 <= i < |levels| && 0 <= j < |levels[i]| && levels[i][j].prefix == p
  {
    FindFirstLast(levels[0], p);
    if FindLast(levels[0], p).Some? {
      assert levels[0][FirstAt(levels[0], p)].prefix == p;
    } else {
      LatestWitness(levels[1..], p);
      var i, j :| 0 <= i < |levels[1..]| && 0 <= j < |levels[1..][i]| && levels[1..][i][j].prefix == p;
      assert levels[i + 1][j].prefix == p;
    }
  }

  lemma {:induction false} MissingNamed(own: seq<Decl>, missing: seq<Decl>, levels: seq<seq<Decl>>)
    requires Overwrites(missing, own, levels)
    requires forall i :: 0 <= i < |levels| ==> PrefixesNamed(levels[i])
    ensures PrefixesNamed(missing)
  {
    forall k | 0 <= k < |missing| ensures All(missing[k].prefix, Naming) {
      Listed(missing, k);
      LatestWitness(levels, missing[k].prefix);
    }
  }

  /** The new attributes clash neither with each other nor with the old ones. */
  lemma {:induction false} StillDistinct(xs: seq<(string, Option<string>)>, own: seq<Decl>, missing: seq<Decl>, levels: seq<seq<Decl>>)
    requires DistinctNames(xs) && (forall i :: 0 <= i < |xs| ==> xs[i].1.Some?)
    requires NsDecls(xs) == own && Overwrites(missing, own, levels)
    ensures DistinctNames(xs + Declared(missing))
  {
    var ys := Declared(missing);
    forall i, j | 0 <= i < j < |ys| ensures ys[i].0 != ys[j].0 {
      NameOfPrefix(missing[i].prefix);
      NameOfPrefix(missing[j].prefix);
    }
    forall i, j | 0 <= i < |xs| && 0 <= j < |ys| ensures xs[i].0 != ys[j].0 {
      Listed(missing, j);
      if xs[i].0 == ys[j].0 {
        NsDeclsBind(xs, i, missing[j].prefix);
      }
    }
  }

  /** What the serializer promises about an element: the text starts with a
      well-formed start tag whose declarations are the element's own. */
  ghost predicate SerializedElement(a: Arena, id: Id, text: string) {
    && ParseTag(text).Some?
    && var xs := Attributes(ParseTag(text).value.0.attrs);
    && DistinctNames(xs) && (forall i :: 0 <= i < |xs| ==> xs[i].1.Some?)
    && NsDecls(xs) == DeclsOf(a, id)
  }

  /** Read back on its own, the spliced text gives the element the bindings that
      it has in its document. */
  method SerializeStandalone(a: Arena, id: Id, serialized: string, ghost chain: seq<Id>)
    returns (text: string, ghost missing: seq<Decl>)
    requires id in a.kind
    requires a.kind[id].Element? ==>
      && ElementChain(a, id, chain) && SerializedElement(a, id, serialized)
      && forall i :: 0 <= i < |chain| ==> PrefixesNamed(DeclsOf(a, chain[i]))
    ensures !a.kind[id].Element? ==> text == serialized
    ensures a.kind[id].Element? ==> Spliced(serialized, text, missing)
    ensures a.kind[id].Element? ==>
      var xs := Attributes(ParseTag(text).value.0.attrs);
      DistinctNames(xs) && forall p :: Find(NsDecls(xs), p) == Latest(Levels(a, chain), p)
  {
    text, missing := serialized, [];
    if a.kind[id].Element? {
      var inherited := InheritedNamespaceDeclarations(a, id, chain);
      missing := inherited;
      InheritedNamed(a, id, chain, missing);
      text := SpliceDeclarations(serialized, inherited);
      Reread(a, id, chain, Attributes(ParseTag(serialized).value.0.attrs), missing);
    }
  }

  lemma {:induction false} InheritedNamed(a: Arena, id: Id, chain: seq<Id>, missing: seq<Decl>)
    requires ElementChain(a, id, chain) && Overwrites(missing, DeclsOf(a, id), Levels(a, chain[1..]))
    requires forall i :: 0 <= i < |chain| ==> PrefixesNamed(DeclsOf(a, chain[i]))
    ensures PrefixesNamed(missing)
  {
    var levels := Levels(a, chain[1..]);
    forall i | 0 <= i < |levels| ensures PrefixesNamed(levels[i]) {
      assert levels[i] == DeclsOf(a, chain[i + 1]);
    }
    MissingNamed(DeclsOf(a, id), missing, levels);
  }

  /** The old attributes and the new declarations together. */
  lemma {:induction false} Reread(a: Arena, id: Id, chain: seq<Id>, xs: seq<(string, Option<string>)>, missing: seq<Decl>)
    requires ElementChain(a, id, chain) && Overwrites(missing, DeclsOf(a, id), Levels(a, chain[1..]))
    requires DistinctNames(xs) && (forall i :: 0 <= i < |xs| ==> xs[i].1.Some?) && NsDecls(xs) == DeclsOf(a, id)
    ensures DistinctNames(xs + Declared(missing))
    ensures forall p :: Find(NsDecls(xs + Declared(missing)), p) == Latest(Levels(a, chain), p)
  {
    var own, levels := DeclsOf(a, id), Levels(a, chain[1..]);
    assert [own] + levels == Levels(a, chain);
    NsDeclsConcat(xs, Declared(missing));
    NsDeclsOfDeclared(missing);
    StillDistinct(xs, own, missing, levels);
    DistinctDecls(xs);
    forall p ensures Find(own + missing, p) == Latest(Levels(a, chain), p) {
      StandaloneLast(own, missing, levels, p);
      FindFirstLast(own + missing, p);
    }
  }
}
