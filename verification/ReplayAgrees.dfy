/** iterparse and the ordinary parser give the same root element: options applied
    while building and options applied afterwards agree. */
module ReplayAgrees {
  import opened Prelude
  import opened Arena
  import opened Dom
  import opened ParseOptions
  import opened Replay
  import opened ReplayArena
  import opened IterParse
  import opened YieldOrder
  import opened Iteration
  import opened PostParse

  /** Hand out everything that is left of a balanced stream. */
  method Drain(state: IterParseState, ghost events: seq<Event>) returns (handed: seq<Yield>)
    requires Balanced(events) && state.Valid() && state.inputEvents == events
    requires state.consumed == [] && state.pending == [] && state.emitted == [] && !state.done
    modifies state, state.doc
    ensures state.Valid() && handed == Yields(state.options, state.filter, events)
    ensures Run(state.options, events) == Some(state.built)
  {
    handed := [];
    var more := true;
    while more
      invariant state.Valid()
      invariant state.consumed + state.inputEvents == events && handed == state.emitted
      invariant !more ==> state.inputEvents == [] && state.pending == []
      decreases more, |Yields(state.options, state.filter, events)| - |handed|
    {
      var r := state.NextDetached();
      RunPrefix(state.options, state.consumed, state.inputEvents);
      BalancedRuns(state.options, events);
      if r.Err? {
        assert false;
        return;
      }
      if r.value.Some? {
        handed := handed + [r.value.value];
        InEventOrder(state.options, state.filter, state.consumed, state.inputEvents);
      } else {
        more := false;
      }
    }
    assert state.consumed == events && handed + [] == handed;
  }

  /** Drive the replay of a balanced stream to its end. */
  method ReplayAll(events: seq<Event>, options: Options, filter: Filter)
    returns (doc: Document, rootId: Option<Id>, handed: seq<Yield>, ghost root: Option<Tree>)
    requires Balanced(events)
    ensures fresh(doc) && doc.Valid()
    ensures handed == Yields(options, filter, events)
    ensures Run(options, events).Some? && HandsOut(options, filter, events, handed)
    ensures root == RootElement(Run(options, events).value)
    ensures root.None? <==> rootId.None?
    ensures root.Some? ==> Holds(doc.arena, root.value) && rootId == Some(root.value.id)
  {
    doc := new Document();
    var state := new IterParseState(doc, events, options, filter);
    handed := Drain(state, events);
    rootId := state.rootId;
    root := RootElement(state.built);
    BalancedRuns(options, events);
    RootHeld(doc.arena, state.built);
    IterationHandsOut(options, filter, events);
  }

  lemma {:induction false} BalancedRuns(o: Options, es: seq<Event>)
    requires Balanced(es)
    ensures Run(o, es).Some? && Run(o, es).value.open == []
  {
    ReplayEqualsRewriting(o, es);
  }

  lemma {:induction false} RunPrefix(o: Options, es: seq<Event>, rest: seq<Event>)
    ensures Run(o, es + rest).Some? ==> Run(o, es).Some?
    decreases |rest|
  {
    if rest == [] {
      assert es + rest == es;
    } else {
      var all := es + rest;
      assert all[..|all| - 1] == es + rest[..|rest| - 1];
      RunPrefix(o, es, rest[..|rest| - 1]);
    }
  }

  /** What an iteration hands out, read off the stream and off the built document. */
  ghost predicate HandsOut(o: Options, f: Filter, es: seq<Event>, handed: seq<Yield>)
    requires Run(o, es).Some?
  {
    && Bindings(handed) == (if f.startNs then Bound(es) else [])
    && Unbindings(handed) == (if f.endNs then Unbound(es) else 0)
    && (NamesAgree(f, es) ==>
      && OfNodes(handed) == ReportsAll(f, Run(o, es).value.tops)
      && forall s :: NoDup(IdsOf(s, handed)) && IdsOf(s, handed) == Expected(f, s, Run(o, es).value.tops))
  }

  lemma {:induction false} IterationHandsOut(o: Options, f: Filter, es: seq<Event>)
    requires Balanced(es)
    ensures Run(o, es).Some? && HandsOut(o, f, es, Yields(o, f, es))
  {
    BalancedRuns(o, es);
    NamespacesAsTheyCome(o, f, es);
    if NamesAgree(f, es) {
      IterationWalksTree(o, f, es);
      forall s
        ensures NoDup(IdsOf(s, Yields(o, f, es))) && IdsOf(s, Yields(o, f, es)) == Expected(f, s, Run(o, es).value.tops)
      {
        HandedOutOnce(o, f, es, s);
        assert IdsOf(s, Yields(o, f, es)) == Expected(f, s, Run(o, es).value.tops);
      }
    }
  }

  lemma {:induction false} ElementsIn(ts: seq<Tree>)
    ensures forall x :: x in Elements(ts) ==> x in ts
    decreases |ts|
  {
    if ts != [] {
      ElementsIn(ts[..|ts| - 1]);
    }
  }

  lemma {:induction false} RootHeld(a: Arena, b: Building)
    requires Represents(a, b) && b.open == []
    ensures RootElement(b).Some? ==> Holds(a, RootElement(b).value) && RootId(b) == Some(RootElement(b).value.id)
    ensures RootElement(b).None? ==> RootId(b) == None
  {
    if RootElement(b).Some? {
      ElementsIn(b.tops);
      assert Completed(b, RootElement(b).value);
    }
  }

  /** `parsed` is the ordinary parser's document for the same events: one node per
      event below its root element. After the post-parse pass its root equals the
      replayed root, up to ids, exactly when some option is on or no two of its text
      nodes touch. */
  method BothParsersAgree(events: seq<Event>, options: Options, filter: Filter, parsed: Document, parsedRoot: Id, ghost t: Tree)
    returns (doc: Document, rootId: Option<Id>, ghost r: Tree)
    requires Balanced(events) && RootElement(PlainRun(events).value).Some?
    requires parsed.Valid() && Holds(parsed.arena, t) && t.id == parsedRoot && t.kind.Element? && LeavesBare(t)
    requires Erase(t) == Erase(RootElement(PlainRun(events).value).value)
    modifies parsed`arena
    ensures doc.Valid() && Holds(doc.arena, r) && rootId == Some(r.id)
    ensures parsed.Valid() && Holds(parsed.arena, Postprocessed(options, t))
    ensures options.Any() ==> Erase(r) == Erase(Postprocessed(options, t))
    ensures Erase(r) == Erase(Postprocessed(options, t)) <==> options.Any() || TextApart(t)
  {
    ReplayEqualsRewriting(options, events);
    ghost var root;
    var handed;
    doc, rootId, handed, root := ReplayAll(events, options, filter);
    r := root.value;
    PostprocessParseOptions(parsed, Some(parsedRoot), options, t);
    SameRewriting(options, t, RootElement(PlainRun(events).value).value);
    TextApartErased(t);
    TextApartErased(RootElement(PlainRun(events).value).value);
  }

  /** The rewriting of a tree depends on the tree only up to ids. */
  lemma {:induction false} SameRewriting(o: Options, t: Tree, u: Tree)
    requires Erase(t) == Erase(u)
    ensures Erase(Rewritten(o, t)) == Erase(Rewritten(o, u))
    ensures Erase(Postprocessed(o, t)) == Erase(Postprocessed(o, u))
  {
    EraseAfter(Coalesce, After(Strip(o), t));
    EraseAfter(Strip(o), t);
    EraseAfter(Coalesce, After(Strip(o), u));
    EraseAfter(Strip(o), u);
  }
}
