/** What iterparse hands out, read off the tree that it builds: starts in document
    order, ends in post-order, comments and processing instructions in document
    order, namespace events as they come. */
module YieldOrder {
  import opened Prelude
  import opened Arena
  import opened ParseOptions
  import opened Replay
  import opened IterParse

  // ------------------------------------------------------------------
  // Reports of a tree
  // ------------------------------------------------------------------

  function StartOf(f: Filter, t: Tree): seq<Yield> {
    if f.start && t.kind.Element? && QNameMatchesTag(t.kind.name, f.tag) then [StartYield(t.id)] else []
  }

  function EndOf(f: Filter, t: Tree): seq<Yield> {
    if f.end && t.kind.Element? && QNameMatchesTag(t.kind.name, f.tag) then [EndYield(t.id)] else []
  }

  function MiscOf(f: Filter, t: Tree): seq<Yield> {
    if f.comment && t.kind.Comment? then [CommentYield(t.id)]
    else if f.pi && t.kind.PI? then [PIYield(t.id)]
    else []
  }

  /** A finished tree, walked once: an element is reported before and after what is below it. */
  function Reports(f: Filter, t: Tree): seq<Yield>
    decreases t, 0
  {
    StartOf(f, t) + MiscOf(f, t) + ReportsAll(f, t.kids) + EndOf(f, t)
  }

  function ReportsAll(f: Filter, ts: seq<Tree>): seq<Yield>
    decreases ts, 1
  {
    if ts == [] then [] else ReportsAll(f, ts[..|ts| - 1]) + Reports(f, ts[|ts| - 1])
  }

  /** Elements that are still open have not been reported as ended. */
  function OpenReports(f: Filter, ts: seq<Tree>): seq<Yield> {
    if ts == [] then []
    else OpenReports(f, ts[..|ts| - 1]) + (StartOf(f, ts[|ts| - 1]) + ReportsAll(f, ts[|ts| - 1].kids))
  }

  function Reported(f: Filter, b: Building): seq<Yield> {
    ReportsAll(f, b.tops) + OpenReports(f, b.open)
  }

  /** The yields that hand out a node. */
  function OfNodes(ys: seq<Yield>): seq<Yield> {
    if ys == [] then []
    else OfNodes(ys[..|ys| - 1]) + (if ys[|ys| - 1].NamespaceYield? || ys[|ys| - 1].EndNamespaceYield? then [] else [ys[|ys| - 1]])
  }

  // ------------------------------------------------------------------
  // Names of open elements
  // ------------------------------------------------------------------

  /** The names of the elements that are open after the events, outermost first. */
  function OpenNames(es: seq<Event>): seq<QName> {
    if es == [] then []
    else
      var names := OpenNames(es[..|es| - 1]);
      match es[|es| - 1]
      case StartElement(name, _, _) => names + [name]
      case EndElement(_) => if names == [] then [] else names[..|names| - 1]
      case _ => names
  }

  /** Every end tag names the element that it closes. */
  ghost predicate WellTagged(es: seq<Event>) {
    forall i :: 0 <= i < |es| && es[i].EndElement? && OpenNames(es[..i]) != [] ==>
      OpenNames(es[..i])[|OpenNames(es[..i])| - 1] == es[i].name
  }

  /** The tag filter is asked about ended elements by the name in the end tag. */
  ghost predicate NamesAgree(f: Filter, es: seq<Event>) {
    f.tag == None || f.tag == Some("*") || !f.end || WellTagged(es)
  }

  /** The open elements carry the names of their start tags. */
  ghost predicate Named(open: seq<Tree>, names: seq<QName>) {
    |open| == |names| && forall i :: 0 <= i < |open| ==> open[i].kind.Element? && open[i].kind.name == names[i]
  }

  lemma {:induction false} OpenNamed(o: Options, es: seq<Event>)
    requires Run(o, es).Some?
    ensures Named(Run(o, es).value.open, OpenNames(es))
    decreases |es|
  {
    if es != [] {
      var front, e := es[..|es| - 1], es[|es| - 1];
      OpenNamed(o, front);
      StepNamed(o, Run(o, front).value, e, OpenNames(front));
    }
  }

  lemma {:induction false} StepNamed(o: Options, b: Building, e: Event, names: seq<QName>)
    requires Named(b.open, names) && Step(o, b, e).Some?
    ensures Named(Step(o, b, e).value.open,
      match e
      case StartElement(name, _, _) => names + [name]
      case EndElement(_) => if names == [] then [] else names[..|names| - 1]
      case _ => names)
  {
  }

  // ------------------------------------------------------------------
  // One event
  // ------------------------------------------------------------------

  lemma {:induction false} ReportsSnoc(f: Filter, ts: seq<Tree>, x: Tree)
    ensures ReportsAll(f, ts + [x]) == ReportsAll(f, ts) + Reports(f, x)
  {
    assert (ts + [x])[..|ts|] == ts;
  }

  lemma {:induction false} OpenSnoc(f: Filter, ts: seq<Tree>, x: Tree)
    ensures OpenReports(f, ts + [x]) == OpenReports(f, ts) + (StartOf(f, x) + ReportsAll(f, x.kids))
  {
    assert (ts + [x])[..|ts|] == ts;
  }

  lemma {:induction false} Regroup<T>(x: seq<T>, y: seq<T>, z: seq<T>, w: seq<T>)
    ensures x + (y + (z + w)) == (x + (y + z)) + w
    ensures x + (y + w) == (x + y) + w
  {
  }

  lemma {:induction false} GrownReported(f: Filter, up: seq<Tree>, t: Tree, x: Tree)
    ensures OpenReports(f, up + [Replay.Grown(t, x)]) == OpenReports(f, up + [t]) + Reports(f, x)
  {
    OpenSnoc(f, up, Replay.Grown(t, x));
    OpenSnoc(f, up, t);
    ReportsSnoc(f, t.kids, x);
    Regroup(OpenReports(f, up), StartOf(f, t), ReportsAll(f, t.kids), Reports(f, x));
  }

  lemma {:induction false} LastInstead<T>(ts: seq<T>, x: T)
    requires ts != []
    ensures ts[|ts| - 1 := x] == ts[..|ts| - 1] + [x] && ts == ts[..|ts| - 1] + [ts[|ts| - 1]]
  {
  }

  /** A finished child is reported after all that was reported before. */
  lemma {:induction false} ChildReported(f: Filter, b: Building, x: Tree)
    ensures Reported(f, AddChild(b, x)) == Reported(f, b) + Reports(f, x)
  {
    if b.open == [] {
      ReportsSnoc(f, b.tops, x);
    } else {
      var up, t := b.open[..|b.open| - 1], b.open[|b.open| - 1];
      LastInstead(b.open, Replay.Grown(t, x));
      GrownReported(f, up, t, x);
      Regroup(ReportsAll(f, b.tops), OpenReports(f, b.open), [], Reports(f, x));
    }
  }

  lemma {:induction false} OpenReported(f: Filter, b: Building, k: Kind)
    ensures Reported(f, Open(b, k)) == Reported(f, b) + StartOf(f, Node(b.next, k, []))
  {
    var x := Node(b.next, k, []);
    OpenSnoc(f, b.open, x);
    assert ReportsAll(f, x.kids) == [];
    Regroup(ReportsAll(f, b.tops), OpenReports(f, b.open), [], StartOf(f, x));
  }

  lemma {:induction false} CloseReported(f: Filter, b: Building)
    requires b.open != [] && b.open[|b.open| - 1].kind.Element?
    ensures Reported(f, Close(b)) == Reported(f, b) + EndOf(f, b.open[|b.open| - 1])
  {
    var up, t := b.open[..|b.open| - 1], b.open[|b.open| - 1];
    ChildReported(f, b.(open := up), t);
    assert MiscOf(f, t) == [];
    Apart(ReportsAll(f, b.tops), OpenReports(f, up), StartOf(f, t), ReportsAll(f, t.kids), EndOf(f, t));
  }

  lemma {:induction false} Apart<T>(x: seq<T>, y: seq<T>, s: seq<T>, k: seq<T>, e: seq<T>)
    ensures (x + y) + (s + [] + k + e) == (x + (y + (s + k))) + e
  {
  }

  lemma {:induction false} TextReported(f: Filter, b: Building, s: string)
    ensures Reported(f, AddText(b, s)) == Reported(f, b)
  {
    if b.open != [] {
      var t, n := b.open[|b.open| - 1], |b.open[|b.open| - 1].kids|;
      if n > 0 && t.kids[n - 1].kind.Text? {
        MergeReported(f, b, t, t.kids[n - 1].(kind := Text(t.kids[n - 1].kind.text + s)));
      } else {
        LeafReported(f, b, Text(s));
      }
    }
  }

  lemma {:induction false} MergedKids(f: Filter, ts: seq<Tree>, x: Tree)
    requires ts != [] && ts[|ts| - 1].kind.Text? && x.kind.Text? && x.kids == ts[|ts| - 1].kids
    ensures ReportsAll(f, ts[|ts| - 1 := x]) == ReportsAll(f, ts)
  {
    LastInstead(ts, x);
    ReportsSnoc(f, ts[..|ts| - 1], x);
  }

  lemma {:induction false} MergeReported(f: Filter, b: Building, t: Tree, x: Tree)
    requires b.open != [] && t == b.open[|b.open| - 1] && t.kids != []
    requires var y := t.kids[|t.kids| - 1]; y.kind.Text? && x.kind.Text? && x.kids == y.kids
    ensures Reported(f, b.(open := b.open[|b.open| - 1 := t.(kids := t.kids[|t.kids| - 1 := x])])) == Reported(f, b)
  {
    var u, up := t.(kids := t.kids[|t.kids| - 1 := x]), b.open[..|b.open| - 1];
    MergedKids(f, t.kids, x);
    LastInstead(b.open, u);
    OpenSnoc(f, up, u);
  }

  lemma {:induction false} LeafReported(f: Filter, b: Building, k: Kind)
    requires !k.Element?
    ensures Reported(f, AddLeaf(b, k)) == Reported(f, b) + MiscOf(f, Leaf(b, k))
  {
    ChildReported(f, b, Leaf(b, k));
    assert ReportsAll(f, Leaf(b, k).kids) == [];
  }

  lemma {:induction false} OneOfNodes(ys: seq<Yield>)
    requires |ys| <= 1
    ensures OfNodes(ys) == if ys == [] || ys[0].NamespaceYield? || ys[0].EndNamespaceYield? then [] else ys
  {
    if ys != [] {
      assert ys[..0] == [];
    }
  }

  lemma {:induction false} EndReported(o: Options, f: Filter, b: Building, e: Event, names: seq<QName>)
    requires e.EndElement? && b.open != [] && Named(b.open, names)
    requires f.tag == None || f.tag == Some("*") || !f.end || names[|names| - 1] == e.name
    ensures Reported(f, Close(b)) == Reported(f, b) + Emits(o, f, b, e)
  {
    CloseReported(f, b);
  }

  /** Replaying an event reports what it yields. */
  lemma {:induction false} EventReported(o: Options, f: Filter, b: Building, e: Event, names: seq<QName>)
    requires Named(b.open, names) && Step(o, b, e).Some?
    requires f.tag == None || f.tag == Some("*") || !f.end || (e.EndElement? && names != [] ==> names[|names| - 1] == e.name)
    ensures Reported(f, Step(o, b, e).value) == Reported(f, b) + OfNodes(Emits(o, f, b, e))
  {
    OneOfNodes(Emits(o, f, b, e));
    match e
    case StartNamespace(_, _) =>
    case EndNamespace =>
    case StartElement(name, attrs, decls) => OpenReported(f, b, Element(name, attrs, decls));
    case EndElement(_) => EndReported(o, f, b, e, names);
    case TextEvent(s) => TextReported(f, b, s);
    case CDataEvent(s) =>
      if o.stripCdata { TextReported(f, b, s); } else if b.open != [] { LeafReported(f, b, CData(s)); }
    case CommentEvent(s) => if !o.removeComments { LeafReported(f, b, Comment(s)); }
    case PIEvent(target, data) => if !o.removePis { LeafReported(f, b, PI(target, data)); }
  }

  // ------------------------------------------------------------------
  // A whole stream
  // ------------------------------------------------------------------

  lemma {:induction false} OfNodesConcat(xs: seq<Yield>, ys: seq<Yield>)
    ensures OfNodes(xs + ys) == OfNodes(xs) + OfNodes(ys)
    decreases |ys|
  {
    if ys == [] {
      assert xs + ys == xs;
    } else {
      var n := |ys| - 1;
      assert (xs + ys)[..|xs + ys| - 1] == xs + ys[..n] && (xs + ys)[|xs + ys| - 1] == ys[n];
      OfNodesConcat(xs, ys[..n]);
    }
  }

  lemma {:induction false} WellTaggedFront(f: Filter, es: seq<Event>)
    requires es != [] && NamesAgree(f, es)
    ensures NamesAgree(f, es[..|es| - 1])
    ensures f.tag == None || f.tag == Some("*") || !f.end ||
      (es[|es| - 1].EndElement? && OpenNames(es[..|es| - 1]) != [] ==>
        OpenNames(es[..|es| - 1])[|OpenNames(es[..|es| - 1])| - 1] == es[|es| - 1].name)
  {
    var front := es[..|es| - 1];
    forall i | 0 <= i < |front| ensures front[..i] == es[..i] && front[i] == es[i] {
    }
  }

  /** After any number of events: what has been reported is exactly the part of the
      document that has been built, in document order. */
  lemma {:induction false} YieldsReport(o: Options, f: Filter, es: seq<Event>)
    requires Run(o, es).Some? && NamesAgree(f, es)
    ensures OfNodes(Yields(o, f, es)) == Reported(f, Run(o, es).value)
    decreases |es|
  {
    if es != [] {
      var front, e := es[..|es| - 1], es[|es| - 1];
      var b := Run(o, front).value;
      WellTaggedFront(f, es);
      YieldsReport(o, f, front);
      OpenNamed(o, front);
      EventReported(o, f, b, e, OpenNames(front));
      OfNodesConcat(Yields(o, f, front), Emits(o, f, b, e));
    }
  }
}
