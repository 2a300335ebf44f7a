/** The sequence that an iteration hands out, kind by kind: which nodes, in which
    order, and each once. */
module Iteration {
  import opened Prelude
  import opened Arena
  import opened ParseOptions
  import opened Replay
  import opened IterParse
  import opened YieldOrder

  datatype Sort = Starts | Ends | Comments | PIs

  predicate Is(s: Sort, y: Yield) {
    match s
    case Starts => y.StartYield?
    case Ends => y.EndYield?
    case Comments => y.CommentYield?
    case PIs => y.PIYield?
  }

  predicate Asked(f: Filter, s: Sort) {
    match s
    case Starts => f.start
    case Ends => f.end
    case Comments => f.comment
    case PIs => f.pi
  }

  predicate Fits(s: Sort, tag: Option<string>, t: Tree) {
    match s
    case Comments => t.kind.Comment?
    case PIs => t.kind.PI?
    case _ => t.kind.Element? && QNameMatchesTag(t.kind.name, tag)
  }

  /** The nodes that yields of one sort hand out. */
  function IdsOf(s: Sort, ys: seq<Yield>): seq<Id> {
    if ys == [] then []
    else
      var y := ys[|ys| - 1];
      IdsOf(s, ys[..|ys| - 1]) + (if Is(s, y) then [y.id] else [])
  }

  /** The nodes among `ts` that an iteration may hand out as one sort. */
  function Picked(s: Sort, tag: Option<string>, ts: seq<Tree>): seq<Id> {
    if ts == [] then []
    else Picked(s, tag, ts[..|ts| - 1]) + (if Fits(s, tag, ts[|ts| - 1]) then [ts[|ts| - 1].id] else [])
  }

  /** Every node after all that is below it. */
  function Postorder(t: Tree): seq<Tree>
    decreases t, 0
  {
    PostorderAll(t.kids) + [t]
  }

  function PostorderAll(ts: seq<Tree>): seq<Tree>
    decreases ts, 1
  {
    if ts == [] then [] else PostorderAll(ts[..|ts| - 1]) + Postorder(ts[|ts| - 1])
  }

  function InOrder(s: Sort, ts: seq<Tree>): seq<Tree> {
    if s.Ends? then PostorderAll(ts) else PreorderAll(ts)
  }

  // ------------------------------------------------------------------
  // Reports, one sort at a time
  // ------------------------------------------------------------------

  lemma {:induction false} IdsConcat(s: Sort, xs: seq<Yield>, ys: seq<Yield>)
    ensures IdsOf(s, xs + ys) == IdsOf(s, xs) + IdsOf(s, ys)
    decreases |ys|
  {
    if ys == [] {
      assert xs + ys == xs;
    } else {
      var n := |ys| - 1;
      assert (xs + ys)[..|xs + ys| - 1] == xs + ys[..n] && (xs + ys)[|xs + ys| - 1] == ys[n];
      IdsConcat(s, xs, ys[..n]);
    }
  }

  lemma {:induction false} PickedConcat(s: Sort, tag: Option<string>, xs: seq<Tree>, ys: seq<Tree>)
    ensures Picked(s, tag, xs + ys) == Picked(s, tag, xs) + Picked(s, tag, ys)
    decreases |ys|
  {
    if ys == [] {
      assert xs + ys == xs;
    } else {
      var n := |ys| - 1;
      assert (xs + ys)[..|xs + ys| - 1] == xs + ys[..n] && (xs + ys)[|xs + ys| - 1] == ys[n];
      PickedConcat(s, tag, xs, ys[..n]);
    }
  }

  function OwnIds(f: Filter, s: Sort, t: Tree): seq<Id> {
    if Asked(f, s) && Fits(s, f.tag, t) then [t.id] else []
  }

  lemma {:induction false} OwnReports(f: Filter, s: Sort, t: Tree)
    ensures IdsOf(s, StartOf(f, t)) == if s.Starts? then OwnIds(f, s, t) else []
    ensures IdsOf(s, EndOf(f, t)) == if s.Ends? then OwnIds(f, s, t) else []
    ensures IdsOf(s, MiscOf(f, t)) == if s.Comments? || s.PIs? then OwnIds(f, s, t) else []
  {
  }

  lemma {:induction false} OnlyOne(f: Filter, s: Sort, t: Tree)
    ensures (if Asked(f, s) then Picked(s, f.tag, [t]) else []) == OwnIds(f, s, t)
  {
    assert [t][..0] == [];
  }

  lemma {:induction false} FourParts(f: Filter, s: Sort, t: Tree)
    ensures IdsOf(s, Reports(f, t)) ==
      IdsOf(s, StartOf(f, t)) + IdsOf(s, MiscOf(f, t)) + IdsOf(s, ReportsAll(f, t.kids)) + IdsOf(s, EndOf(f, t))
  {
    IdsConcat(s, StartOf(f, t), MiscOf(f, t));
    IdsConcat(s, StartOf(f, t) + MiscOf(f, t), ReportsAll(f, t.kids));
    IdsConcat(s, StartOf(f, t) + MiscOf(f, t) + ReportsAll(f, t.kids), EndOf(f, t));
  }

  lemma {:induction false} OwnFirstOrLast(f: Filter, s: Sort, t: Tree, below: seq<Id>)
    requires below == IdsOf(s, ReportsAll(f, t.kids))
    ensures IdsOf(s, Reports(f, t)) == if s.Ends? then below + OwnIds(f, s, t) else OwnIds(f, s, t) + below
  {
    FourParts(f, s, t);
    OwnReports(f, s, t);
    Padded(OwnIds(f, s, t), below);
  }

  lemma {:induction false} Padded<T>(own: seq<T>, below: seq<T>)
    ensures [] + [] + below + own == below + own
    ensures own + [] + below + [] == own + below
    ensures [] + own + below + [] == own + below
  {
  }

  lemma {:induction false} PickedFirstOrLast(s: Sort, tag: Option<string>, t: Tree)
    ensures Picked(s, tag, Postorder(t)) == Picked(s, tag, PostorderAll(t.kids)) + Picked(s, tag, [t])
    ensures Picked(s, tag, Preorder(t)) == Picked(s, tag, [t]) + Picked(s, tag, PreorderAll(t.kids))
  {
    PickedConcat(s, tag, PostorderAll(t.kids), [t]);
    PickedConcat(s, tag, [t], PreorderAll(t.kids));
  }

  /** One sort of report of a tree: ends in post-order, the others in document order. */
  lemma {:induction false} TreeIds(f: Filter, s: Sort, t: Tree)
    ensures IdsOf(s, Reports(f, t)) == if Asked(f, s) then Picked(s, f.tag, if s.Ends? then Postorder(t) else Preorder(t)) else []
    decreases t, 0
  {
    ForestIds(f, s, t.kids);
    OwnFirstOrLast(f, s, t, IdsOf(s, ReportsAll(f, t.kids)));
    OnlyOne(f, s, t);
    PickedFirstOrLast(s, f.tag, t);
  }

  lemma {:induction false} ForestIds(f: Filter, s: Sort, ts: seq<Tree>)
    ensures IdsOf(s, ReportsAll(f, ts)) == if Asked(f, s) then Picked(s, f.tag, InOrder(s, ts)) else []
    decreases ts, 1
  {
    if ts != [] {
      var front, last := ts[..|ts| - 1], ts[|ts| - 1];
      ForestIds(f, s, front);
      TreeIds(f, s, last);
      IdsConcat(s, ReportsAll(f, front), Reports(f, last));
      if s.Ends? {
        PickedConcat(s, f.tag, PostorderAll(front), Postorder(last));
      } else {
        PreorderSnoc(ts);
        PickedConcat(s, f.tag, PreorderAll(front), Preorder(last));
      }
    }
  }

  lemma {:induction false} PreorderSnoc(ts: seq<Tree>)
    requires ts != []
    ensures PreorderAll(ts) == PreorderAll(ts[..|ts| - 1]) + Preorder(ts[|ts| - 1])
  {
    var front, last := ts[..|ts| - 1], ts[|ts| - 1];
    assert front + [last] == ts;
    PreorderConcat(front, [last]);
    assert PreorderAll([last]) == Preorder(last) + [];
  }

  lemma {:induction false} OneId(s: Sort, y: Yield)
    ensures IdsOf(s, [y]) == if Is(s, y) then [y.id] else []
  {
    assert [y][..0] == [];
  }

  lemma {:induction false} NodesHaveIds(s: Sort, ys: seq<Yield>)
    ensures IdsOf(s, OfNodes(ys)) == IdsOf(s, ys)
  {
    if ys != [] {
      var y := ys[|ys| - 1];
      NodesHaveIds(s, ys[..|ys| - 1]);
      if !y.NamespaceYield? && !y.EndNamespaceYield? {
        IdsConcat(s, OfNodes(ys[..|ys| - 1]), [y]);
        OneId(s, y);
      } else {
        assert OfNodes(ys[..|ys| - 1]) + [] == OfNodes(ys[..|ys| - 1]);
      }
    }
  }

  // ------------------------------------------------------------------
  // Each once
  // ------------------------------------------------------------------

  ghost predicate Rising(ids: seq<Id>, next: Id) {
    && (forall i, j :: 0 <= i < j < |ids| ==> ids[i] < ids[j])
    && (forall i :: 0 <= i < |ids| ==> ids[i] < next)
  }

  lemma {:induction false} OneMoreRises(ids: seq<Id>, id: Id, next: Id)
    requires Rising(ids, id) && id < next
    ensures Rising(ids + [id], next)
  {
  }

  /** What is created is handed out in the order of creation. */
  lemma {:induction false} CreatedInOrder(o: Options, f: Filter, es: seq<Event>, s: Sort)
    requires !s.Ends? && Run(o, es).Some?
    ensures Rising(IdsOf(s, Yields(o, f, es)), Run(o, es).value.next)
    decreases |es|
  {
    if es != [] {
      var front, e := es[..|es| - 1], es[|es| - 1];
      var b := Run(o, front).value;
      CreatedInOrder(o, f, front, s);
      IdsConcat(s, Yields(o, f, front), Emits(o, f, b, e));
      CreatedNext(o, f, b, e, s);
      if IdsOf(s, Emits(o, f, b, e)) != [] {
        OneMoreRises(IdsOf(s, Yields(o, f, front)), b.next, Run(o, es).value.next);
      }
    }
  }

  lemma {:induction false} CreatedNext(o: Options, f: Filter, b: Building, e: Event, s: Sort)
    requires !s.Ends? && Step(o, b, e).Some?
    ensures b.next <= Step(o, b, e).value.next
    ensures var ids := IdsOf(s, Emits(o, f, b, e)); ids == [] || (ids == [b.next] && b.next < Step(o, b, e).value.next)
  {
    var ys := Emits(o, f, b, e);
    if ys != [] {
      assert ys == [ys[0]] && ys[..0] == [];
    }
  }

  lemma {:induction false} SwapParts<T>(below: seq<T>, own: seq<T>, listed: seq<T>)
    requires multiset(below) == multiset(listed)
    ensures multiset(below + own) == multiset(own + listed)
  {
  }

  lemma {:induction false} SameOne(tag: Option<string>, t: Tree)
    ensures Picked(Ends, tag, [t]) == Picked(Starts, tag, [t])
  {
    assert [t][..0] == [];
  }

  lemma {:induction false} SamePicks(tag: Option<string>, t: Tree)
    ensures multiset(Picked(Ends, tag, Postorder(t))) == multiset(Picked(Starts, tag, Preorder(t)))
    decreases t, 0
  {
    SamePicksAll(tag, t.kids);
    PickedFirstOrLast(Ends, tag, t);
    PickedFirstOrLast(Starts, tag, t);
    SameOne(tag, t);
    SwapParts(Picked(Ends, tag, PostorderAll(t.kids)), Picked(Ends, tag, [t]), Picked(Starts, tag, PreorderAll(t.kids)));
  }

  lemma {:induction false} SamePicksAll(tag: Option<string>, ts: seq<Tree>)
    ensures multiset(Picked(Ends, tag, PostorderAll(ts))) == multiset(Picked(Starts, tag, PreorderAll(ts)))
    decreases ts, 1
  {
    if ts != [] {
      var front, last := ts[..|ts| - 1], ts[|ts| - 1];
      SamePicksAll(tag, front);
      SamePicks(tag, last);
      PreorderSnoc(ts);
      PickedConcat(Ends, tag, PostorderAll(front), Postorder(last));
      PickedConcat(Starts, tag, PreorderAll(front), Preorder(last));
    }
  }

  // ------------------------------------------------------------------
  // Namespace events
  // ------------------------------------------------------------------

  /** The bindings that yields and events bring in. */
  function Bindings(ys: seq<Yield>): seq<(Option<string>, string)> {
    if ys == [] then []
    else
      var y := ys[|ys| - 1];
      Bindings(ys[..|ys| - 1]) + (if y.NamespaceYield? then [(y.prefix, y.uri)] else [])
  }

  function Bound(es: seq<Event>): seq<(Option<string>, string)> {
    if es == [] then []
    else
      var e := es[|es| - 1];
      Bound(es[..|es| - 1]) + (if e.StartNamespace? then [(e.prefix, e.uri)] else [])
  }

  function Unbindings(ys: seq<Yield>): nat {
    if ys == [] then 0 else Unbindings(ys[..|ys| - 1]) + if ys[|ys| - 1].EndNamespaceYield? then 1 else 0
  }

  function Unbound(es: seq<Event>): nat {
    if es == [] then 0 else Unbound(es[..|es| - 1]) + if es[|es| - 1].EndNamespace? then 1 else 0
  }

  lemma {:induction false} NamespaceConcat(ys: seq<Yield>, zs: seq<Yield>)
    requires |zs| <= 1
    ensures Bindings(ys + zs) == Bindings(ys) + Bindings(zs) && Unbindings(ys + zs) == Unbindings(ys) + Unbindings(zs)
  {
    if zs == [] {
      assert ys + zs == ys;
    } else {
      assert (ys + zs)[..|ys|] == ys && (ys + zs)[|ys|] == zs[0] && zs[..0] == [];
    }
  }

  lemma {:induction false} NamespaceEvent(o: Options, f: Filter, b: Building, e: Event)
    ensures |Emits(o, f, b, e)| <= 1
    ensures Bindings(Emits(o, f, b, e)) == if f.startNs && e.StartNamespace? then [(e.prefix, e.uri)] else []
    ensures Unbindings(Emits(o, f, b, e)) == if f.endNs && e.EndNamespace? then 1 else 0
  {
    var ys := Emits(o, f, b, e);
    if ys != [] { assert ys[..|ys| - 1] == []; }
  }

  lemma {:induction false} NamespaceStep(o: Options, f: Filter, es: seq<Event>, e: Event)
    requires Run(o, es).Some?
    ensures Bindings(Yields(o, f, es + [e])) ==
      Bindings(Yields(o, f, es)) + if f.startNs && e.StartNamespace? then [(e.prefix, e.uri)] else []
    ensures Unbindings(Yields(o, f, es + [e])) == Unbindings(Yields(o, f, es)) + if f.endNs && e.EndNamespace? then 1 else 0
  {
    YieldsSnoc(o, f, es, e);
    NamespaceEvent(o, f, Run(o, es).value, e);
    NamespaceConcat(Yields(o, f, es), Emits(o, f, Run(o, es).value, e));
  }

  lemma {:induction false} BindingsAsTheyCome(o: Options, f: Filter, es: seq<Event>)
    requires Run(o, es).Some?
    ensures Bindings(Yields(o, f, es)) == if f.startNs then Bound(es) else []
    decreases |es|
  {
    if es != [] {
      var front, e := es[..|es| - 1], es[|es| - 1];
      BindingsAsTheyCome(o, f, front);
      assert es == front + [e];
      NamespaceStep(o, f, front, e);
    }
  }

  lemma {:induction false} UnbindingsAsTheyCome(o: Options, f: Filter, es: seq<Event>)
    requires Run(o, es).Some?
    ensures Unbindings(Yields(o, f, es)) == if f.endNs then Unbound(es) else 0
    decreases |es|
  {
    if es != [] {
      var front, e := es[..|es| - 1], es[|es| - 1];
      UnbindingsAsTheyCome(o, f, front);
      assert es == front + [e];
      NamespaceStep(o, f, front, e);
    }
  }

  /** Namespace events are handed out as they come, all of them or none. */
  lemma {:induction false} NamespacesAsTheyCome(o: Options, f: Filter, es: seq<Event>)
    requires Run(o, es).Some?
    ensures Bindings(Yields(o, f, es)) == if f.startNs then Bound(es) else []
    ensures Unbindings(Yields(o, f, es)) == if f.endNs then Unbound(es) else 0
  {
    BindingsAsTheyCome(o, f, es);
    UnbindingsAsTheyCome(o, f, es);
  }

  // ------------------------------------------------------------------
  // The whole iteration
  // ------------------------------------------------------------------

  /** The order is that of the events: each adds at most one yield after the others. */
  lemma {:induction false} InEventOrder(o: Options, f: Filter, es: seq<Event>, rest: seq<Event>)
    ensures Yields(o, f, es) <= Yields(o, f, es + rest)
    ensures |Yields(o, f, es + rest)| <= |Yields(o, f, es)| + |rest|
    decreases |rest|
  {
    if rest == [] {
      assert es + rest == es;
    } else {
      var all := es + rest;
      assert all[..|all| - 1] == es + rest[..|rest| - 1];
      InEventOrder(o, f, es, rest[..|rest| - 1]);
    }
  }

  /** The nodes of the built forest that one sort of yield hands out. */
  function Expected(f: Filter, s: Sort, ts: seq<Tree>): seq<Id> {
    if Asked(f, s) then Picked(s, f.tag, InOrder(s, ts)) else []
  }

  lemma {:induction false} WalkReported(o: Options, f: Filter, es: seq<Event>)
    requires Run(o, es).Some? && Run(o, es).value.open == [] && NamesAgree(f, es)
    ensures OfNodes(Yields(o, f, es)) == ReportsAll(f, Run(o, es).value.tops)
  {
    YieldsReport(o, f, es);
    assert OpenReports(f, []) == [];
  }

  lemma {:induction false} SortReported(o: Options, f: Filter, es: seq<Event>, s: Sort)
    requires Run(o, es).Some? && Run(o, es).value.open == [] && NamesAgree(f, es)
    ensures IdsOf(s, Yields(o, f, es)) == Expected(f, s, Run(o, es).value.tops)
  {
    WalkReported(o, f, es);
    NodesHaveIds(s, Yields(o, f, es));
    ForestIds(f, s, Run(o, es).value.tops);
  }

  /** An iteration over a balanced stream hands out what one walk over the built
      document reports: elements before and after what is below them, comments and
      processing instructions in place. */
  lemma {:induction false} IterationWalksTree(o: Options, f: Filter, es: seq<Event>)
    requires Balanced(es) && NamesAgree(f, es)
    ensures Run(o, es).Some?
    ensures OfNodes(Yields(o, f, es)) == ReportsAll(f, Run(o, es).value.tops)
    ensures forall s {:trigger Expected(f, s, Run(o, es).value.tops)} ::
      IdsOf(s, Yields(o, f, es)) == Expected(f, s, Run(o, es).value.tops)
  {
    ReplayEqualsRewriting(o, es);
    WalkReported(o, f, es);
    forall s {:trigger Expected(f, s, Run(o, es).value.tops)}
      ensures IdsOf(s, Yields(o, f, es)) == Expected(f, s, Run(o, es).value.tops)
    {
      SortReported(o, f, es, s);
    }
  }

  /** No node of the built document is handed out twice as the same sort. */
  lemma {:induction false} HandedOutOnce(o: Options, f: Filter, es: seq<Event>, s: Sort)
    requires Balanced(es) && NamesAgree(f, es)
    ensures NoDup(IdsOf(s, Yields(o, f, es)))
  {
    ReplayEqualsRewriting(o, es);
    if s.Ends? {
      var g := f.(start := true, end := false);
      var ts := Run(o, es).value.tops;
      SortReported(o, f, es, Ends);
      SortReported(o, g, es, Starts);
      CreatedInOrder(o, g, es, Starts);
      SamePicksAll(f.tag, ts);
      OnceAtMost(IdsOf(s, Yields(o, f, es)), IdsOf(Starts, Yields(o, g, es)));
    } else {
      CreatedInOrder(o, f, es, s);
    }
  }

  // ------------------------------------------------------------------
  // The tag filter
  // ------------------------------------------------------------------

  predicate NoNamespace(name: QName) {
    name.ns.None? || name.ns.value == ""
  }

  /** No filter, or `*`, lets every element pass. */
  lemma {:induction false} AnyTag(name: QName)
    ensures QNameMatchesTag(name, None) && QNameMatchesTag(name, Some("*"))
  {
  }

  lemma {:induction false} OneSplit(u: string, l: string, v: string, m: string)
    requires '}' !in l && '}' !in m
    requires "{" + u + "}" + l == "{" + v + "}" + m
    ensures u == v && l == m
  {
    var s, r := "{" + u + "}" + l, "{" + v + "}" + m;
    LastBrace(u, l, s);
    LastBrace(v, m, r);
    assert |u| == |v|;
    assert s[2 + |u|..] == l && r[2 + |v|..] == m;
    assert s[1..1 + |u|] == u && r[1..1 + |v|] == v;
  }

  lemma {:induction false} LastBrace(u: string, l: string, s: string)
    requires '}' !in l && s == "{" + u + "}" + l
    ensures s[1 + |u|] == '}' && forall i :: 1 + |u| < i < |s| ==> s[i] != '}'
  {
    forall i | 1 + |u| < i < |s| ensures s[i] != '}' { assert s[i] == l[i - |u| - 2]; }
  }

  /** `{u}l` selects the local name `l` in namespace `u`; `{}l` that in no namespace.
      A local name has no brace. */
  lemma {:induction false} NamespacedTag(name: QName, u: string, l: string)
    requires '}' !in l && '}' !in name.local
    ensures QNameMatchesTag(name, Some("{" + u + "}" + l)) <==>
      name.local == l && if u == "" then NoNamespace(name) else name.ns == Some(u)
  {
    var t := "{" + u + "}" + l;
    assert t[0] == '{' && t[1 + |u|] == '}';
    if !NoNamespace(name) {
      if t == "{" + name.ns.value + "}" + name.local {
        OneSplit(u, l, name.ns.value, name.local);
      }
    } else {
      assert t != name.local;
      assert "{}" + name.local == "{" + "" + "}" + name.local;
      if t == "{}" + name.local {
        OneSplit(u, l, "", name.local);
      }
    }
  }

  /** A tag without a namespace selects that local name in no namespace. */
  lemma {:induction false} PlainTag(name: QName, l: string)
    requires '}' !in l && l != "*"
    ensures QNameMatchesTag(name, Some(l)) <==> name.local == l && NoNamespace(name)
  {
    if !NoNamespace(name) {
      var t := "{" + name.ns.value + "}" + name.local;
      assert t[1 + |name.ns.value|] == '}';
    } else {
      assert ("{}" + name.local)[1] == '}';
    }
  }
}
