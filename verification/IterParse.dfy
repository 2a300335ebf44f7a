/** iterparse: replaying collected events into the document, a batch of yields at
    a time, with the parser options applied while building. */
module IterParse {
  import opened Prelude
  import opened Arena
  import opened Dom
  import opened ParseOptions
  import opened Replay
  import opened ReplayArena

  const ITERPARSE_YIELD_BATCH := 64

  /** Which events the caller asked for, and its tag filter. */
  datatype Filter = Filter(start: bool, end: bool, comment: bool, pi: bool, startNs: bool, endNs: bool,
                           tag: Option<string>)

  datatype Yield =
    | StartYield(id: Id)
    | EndYield(id: Id)
    | CommentYield(id: Id)
    | PIYield(id: Id)
    | NamespaceYield(prefix: Option<string>, uri: string)
    | EndNamespaceYield

  datatype Underflow = StackUnderflow

  predicate QNameMatchesTag(name: QName, tag: Option<string>) {
    match tag
    case None => true
    case Some(t) =>
      t == "*" ||
      if name.ns.Some? && name.ns.value != "" then t == "{" + name.ns.value + "}" + name.local
      else t == name.local || t == "{}" + name.local
  }

  /** What one event yields when it is replayed on `b`. */
  function Emits(o: Options, f: Filter, b: Building, e: Event): seq<Yield> {
    match e
    case StartNamespace(prefix, uri) => if f.startNs then [NamespaceYield(prefix, uri)] else []
    case EndNamespace => if f.endNs then [EndNamespaceYield] else []
    case StartElement(name, _, _) =>
      if f.start && QNameMatchesTag(name, f.tag) then [StartYield(b.next)] else []
    case EndElement(name) =>
      if b.open != [] && f.end && QNameMatchesTag(name, f.tag) then [EndYield(b.open[|b.open| - 1].id)] else []
    case TextEvent(_) => []
    case CDataEvent(_) => []
    case CommentEvent(_) => if !o.removeComments && f.comment then [CommentYield(b.next)] else []
    case PIEvent(_, _) => if !o.removePis && f.pi then [PIYield(b.next)] else []
  }

  function Yields(o: Options, f: Filter, es: seq<Event>): seq<Yield> {
    if es == [] then []
    else
      var front := es[..|es| - 1];
      Yields(o, f, front) + if Run(o, front).Some? then Emits(o, f, Run(o, front).value, es[|es| - 1]) else []
  }

  /** The id reported as the root: the first element started. */
  function RootId(b: Building): Option<Id> {
    if Elements(b.tops) != [] then Some(Elements(b.tops)[0].id)
    else if b.open != [] then Some(b.open[0].id)
    else None
  }

  /** The whole stream, and the yields handed out when a batch begins. */
  datatype Sofar = Sofar(all: seq<Event>, emitted: seq<Yield>) {
    ghost predicate Kept(s: IterParseState)
      reads s
    {
      s.consumed + s.inputEvents == all && s.emitted == emitted
    }
  }

  lemma {:induction false} StepOfText(o: Options, b: Building, text: string, cdata: bool)
    ensures Step(o, b, if cdata then CDataEvent(text) else TextEvent(text)) ==
      Some(if b.open == [] then b else if !cdata || o.stripCdata then AddText(b, text) else AddLeaf(b, CData(text)))
  {
  }

  class IterParseState {
    const doc: Document
    const options: Options
    const filter: Filter
    var inputEvents: seq<Event>
    var stack: seq<Id>
    var rootId: Option<Id>
    var pending: seq<Yield>
    var done: bool

    /** The events replayed so far, the abstract build, the yields handed out. */
    ghost var consumed: seq<Event>
    ghost var built: Building
    ghost var emitted: seq<Yield>

    constructor (doc: Document, events: seq<Event>, options: Options, filter: Filter)
      requires doc.Valid() && doc.next == 1 && doc.arena == EMPTY_ARENA
      ensures Valid()
      ensures this.doc == doc && this.options == options && this.filter == filter
      ensures inputEvents == events && consumed == [] && pending == [] && emitted == [] && !done
    {
      this.doc, this.options, this.filter := doc, options, filter;
      inputEvents, stack, rootId, pending, done := events, [], None, [], false;
      consumed, built, emitted := [], EMPTY, [];
    }

    /** The document holds what has been built, and the fields describe it. */
    ghost predicate Built()
      reads this, doc
    {
      && doc.Valid() && doc.next == built.next && Represents(doc.arena, built)
      && stack == Ids(built.open) && rootId == RootId(built)
    }

    ghost predicate Valid()
      reads this, doc
    {
      && Built()
      && Run(options, consumed) == Some(built)
      && emitted + pending == Yields(options, filter, consumed)
      && (done ==> inputEvents == [])
    }

    method AppendNode(parent: Id, k: Kind)
      requires Built() && parent == Host(built) && !k.Element?
      modifies this`built, doc
      ensures Built() && built == AddLeaf(old(built), k)
    {
      AppendLeaf(doc.arena, built, k);
      built := AddLeaf(built, k);
      LeafRootId(old(built), k);
      var id := doc.Create(k);
      doc.AppendChild(parent, id);
    }

    /** Extend the text node that is the last child of the innermost element. */
    method ExtendLastText(text: string) returns (merged: bool)
      requires Built() && stack != []
      modifies this`built, doc
      ensures Built()
      ensures merged ==> built == AddText(old(built), text)
      ensures !merged ==> built == old(built) && AddText(built, text) == AddLeaf(built, Text(text))
    {
      merged := false;
      var parent := stack[|stack| - 1];
      LastHeld(doc.arena, built);
      var last := LastChild(doc.arena, parent);
      if last.Some? && doc.arena.kind[last.value].Text? {
        MergeInto(last.value, text);
        merged := true;
      }
    }

    method MergeInto(last: Id, text: string)
      requires Built() && built.open != [] && HostKids(built) != []
      requires last == HostKids(built)[|HostKids(built)| - 1].id && HostKids(built)[|HostKids(built)| - 1].kind.Text?
      requires last in doc.arena.kind && doc.arena.kind[last] == HostKids(built)[|HostKids(built)| - 1].kind
      modifies this`built, doc
      ensures Built() && built == AddText(old(built), text)
    {
      var k := doc.arena.kind[last];
      ExtendText(doc.arena, built, text);
      built := AddText(built, text);
      doc.SetKind(last, Text(k.text + text));
    }

    /** Text joins the text before it; only a CDATA section that is kept does not. */
    method AppendText(text: string, cdata: bool)
      requires Built()
      modifies this`built, doc
      ensures Built()
      ensures Step(options, old(built), if cdata then CDataEvent(text) else TextEvent(text)) == Some(built)
    {
      StepOfText(options, built, text, cdata);
      if stack == [] {
        return;
      }
      var parent := stack[|stack| - 1];
      if !cdata || options.stripCdata {
        var merged := ExtendLastText(text);
        if merged {
          return;
        }
        AppendNode(parent, Text(text));
      } else {
        AppendNode(parent, CData(text));
      }
    }

    method AppendComment(text: string) returns (id: Id)
      requires Built()
      modifies this`built, doc
      ensures Built() && id == old(built).next && built == AddLeaf(old(built), Comment(text))
    {
      id := doc.next;
      AppendNode(if stack == [] then 0 else stack[|stack| - 1], Comment(text));
    }

    method AppendPI(target: string, data: Option<string>) returns (id: Id)
      requires Built()
      modifies this`built, doc
      ensures Built() && id == old(built).next && built == AddLeaf(old(built), PI(target, data))
    {
      id := doc.next;
      AppendNode(if stack == [] then 0 else stack[|stack| - 1], PI(target, data));
    }

    method StartElementEvent(name: QName, attrs: seq<Attr>, decls: seq<Decl>) returns (id: Id)
      requires Built()
      modifies this`built, this`stack, this`rootId, doc
      ensures Built() && id == old(built).next && built == Open(old(built), Element(name, attrs, decls))
    {
      OpenStep(doc.arena, built, Element(name, attrs, decls), stack);
      id := AttachNew(if stack == [] then 0 else stack[|stack| - 1], Element(name, attrs, decls));
      built := Open(built, Element(name, attrs, decls));
      if rootId.None? {
        rootId := Some(id);
      }
      stack := stack + [id];
    }

    method AttachNew(parent: Id, k: Kind) returns (id: Id)
      requires doc.Valid() && parent in doc.arena.kids
      modifies doc
      ensures doc.Valid() && id == old(doc.next) && doc.next == id + 1 && parent in old(doc.arena).kids
      ensures doc.arena == Appended(old(doc.arena), parent, id, k)
    {
      ghost var a := doc.arena;
      id := doc.Create(k);
      Known(a, id);
      doc.AppendChild(parent, id);
    }

    method EndElementEvent() returns (id: Result<Id, Underflow>)
      requires Built()
      modifies this`built, this`stack
      ensures Built()
      ensures old(built).open == [] ==> id == Err(StackUnderflow) && built == old(built)
      ensures old(built).open != [] ==>
        id == Ok(old(built).open[|old(built).open| - 1].id) && built == Close(old(built))
    {
      if stack == [] {
        return Err(StackUnderflow);
      }
      id := Ok(stack[|stack| - 1]);
      CloseRepresents(doc.arena, built);
      CloseRootId(doc.arena, built);
      built := Close(built);
      stack := stack[..|stack| - 1];
      assert stack == Ids(built.open);
    }

    /** From the build `b` and the queue `p` the event has been replayed. */
    ghost predicate Replayed(b: Building, p: seq<Yield>, event: Event)
      reads this, doc
    {
      Built() && Step(options, b, event) == Some(built) && pending == p + Emits(options, filter, b, event)
    }

    method OnStartElement(name: QName, attrs: seq<Attr>, decls: seq<Decl>, ghost b: Building, ghost p: seq<Yield>)
      requires Built() && built == b && pending == p
      modifies this`built, this`stack, this`rootId, this`pending, doc
      ensures Replayed(b, p, StartElement(name, attrs, decls))
    {
      var shouldYield := filter.start && QNameMatchesTag(name, filter.tag);
      var id := StartElementEvent(name, attrs, decls);
      if shouldYield {
        pending := pending + [StartYield(id)];
      }
    }

    method OnEndElement(name: QName, ghost b: Building, ghost p: seq<Yield>) returns (r: Result<(), Underflow>)
      requires Built() && built == b && pending == p
      modifies this`built, this`stack, this`pending
      ensures r.Err? ==> Built() && Step(options, b, EndElement(name)).None?
      ensures r.Ok? ==> Replayed(b, p, EndElement(name))
    {
      var id := EndElementEvent();
      if id.Err? {
        return Err(StackUnderflow);
      }
      if filter.end && QNameMatchesTag(name, filter.tag) {
        pending := pending + [EndYield(id.value)];
      }
      r := Ok(());
    }

    method OnComment(content: string, ghost b: Building, ghost p: seq<Yield>)
      requires Built() && built == b && pending == p
      modifies this`built, this`pending, doc
      ensures Replayed(b, p, CommentEvent(content))
    {
      if !options.removeComments {
        var id := AppendComment(content);
        if filter.comment {
          pending := pending + [CommentYield(id)];
        }
      }
    }

    method OnPI(target: string, data: Option<string>, ghost b: Building, ghost p: seq<Yield>)
      requires Built() && built == b && pending == p
      modifies this`built, this`pending, doc
      ensures Replayed(b, p, PIEvent(target, data))
    {
      if !options.removePis {
        var id := AppendPI(target, data);
        if filter.pi {
          pending := pending + [PIYield(id)];
        }
      }
    }

    /** Replay one event; the yield it produces, if any, goes on the queue. */
    method ReplayEvent(event: Event, ghost b: Building, ghost p: seq<Yield>) returns (r: Result<(), Underflow>)
      requires Built() && built == b && pending == p
      modifies this`built, this`stack, this`rootId, this`pending, doc
      ensures r.Err? ==> Built() && Step(options, b, event).None?
      ensures r.Ok? ==> Replayed(b, p, event)
    {
      r := Ok(());
      match event {
        case StartNamespace(prefix, uri) =>
          if filter.startNs {
            pending := pending + [NamespaceYield(prefix, uri)];
          }
        case EndNamespace =>
          if filter.endNs {
            pending := pending + [EndNamespaceYield];
          }
        case StartElement(name, attrs, decls) => OnStartElement(name, attrs, decls, b, p);
        case EndElement(name) => r := OnEndElement(name, b, p);
        case TextEvent(content) => AppendText(content, false);
        case CDataEvent(content) => AppendText(content, true);
        case CommentEvent(content) => OnComment(content, b, p);
        case PIEvent(target, data) => OnPI(target, data, b, p);
      }
    }

    /** Replay the next event. */
    method ReplayNext(ghost so: Sofar) returns (r: Result<(), Underflow>)
      requires Valid() && inputEvents != [] && so.Kept(this)
      modifies this, doc
      ensures so.Kept(this) && |inputEvents| < |old(inputEvents)| && done == old(done)
      ensures r.Err? ==> Run(options, consumed) == None
      ensures r.Ok? ==> Valid()
    {
      var event := inputEvents[0];
      ghost var c, b, p := consumed, built, pending;
      HandOver(consumed, inputEvents);
      inputEvents, consumed := inputEvents[1..], consumed + [event];
      r := ReplayEvent(event, b, p);
      if r.Ok? {
        NextYields(options, filter, c, event, b, built, emitted, p, pending);
      } else {
        NextFails(options, c, event, b);
      }
    }

    /** Replay a batch of events, up to the number of queued yields. */
    method FillPending() returns (r: Result<(), Underflow>)
      requires Valid() && pending == []
      modifies this, doc
      ensures consumed + inputEvents == old(consumed + inputEvents) && emitted == old(emitted)
      ensures r.Err? ==> Run(options, consumed) == None
      ensures r.Ok? ==> Valid() && (pending == [] ==> inputEvents == [])
    {
      r := Ok(());
      ghost var so := Sofar(consumed + inputEvents, emitted);
      while !done && |pending| < ITERPARSE_YIELD_BATCH
        invariant Valid() && r.Ok? && so.Kept(this)
        decreases !done, |inputEvents|
      {
        if inputEvents == [] {
          done := true;
        } else {
          r := ReplayNext(so);
          if r.Err? {
            return;
          }
        }
      }
    }

    method TakePending() returns (y: Yield)
      requires Valid() && pending != []
      modifies this`pending, this`emitted
      ensures Valid() && emitted == old(emitted) + [y]
    {
      y := pending[0];
      HandOver(emitted, pending);
      pending, emitted := pending[1..], emitted + [y];
    }

    /** Hand out the next yield, replaying a further batch of events when the
        queue is empty; `None` once everything has been replayed and handed out. */
    method NextDetached() returns (r: Result<Option<Yield>, Underflow>)
      requires Valid()
      modifies this, doc
      ensures consumed + inputEvents == old(consumed + inputEvents)
      ensures r.Err? ==> Run(options, consumed) == None
      ensures r.Ok? ==> Valid()
      ensures r == Ok(None) ==> inputEvents == [] && pending == [] && emitted == old(emitted)
      ensures r.Ok? && r.value.Some? ==> emitted == old(emitted) + [r.value.value]
    {
      if pending == [] {
        if done {
          return Ok(None);
        }
        var filled := FillPending();
        if filled.Err? {
          return Err(StackUnderflow);
        }
        if pending == [] {
          return Ok(None);
        }
      }
      var y := TakePending();
      r := Ok(Some(y));
    }
  }

  lemma {:induction false} HandOver<T>(handed: seq<T>, p: seq<T>)
    requires p != []
    ensures (handed + [p[0]]) + p[1..] == handed + p
  {
  }

  lemma {:induction false} NextYields(o: Options, f: Filter, c: seq<Event>, e: Event, b: Building, b': Building,
                                      handed: seq<Yield>, p: seq<Yield>, p': seq<Yield>)
    requires Run(o, c) == Some(b) && handed + p == Yields(o, f, c)
    requires Step(o, b, e) == Some(b') && p' == p + Emits(o, f, b, e)
    ensures Run(o, c + [e]) == Some(b') && handed + p' == Yields(o, f, c + [e])
  {
    YieldsSnoc(o, f, c, e);
    assert handed + (p + Emits(o, f, b, e)) == (handed + p) + Emits(o, f, b, e);
  }

  lemma {:induction false} NextFails(o: Options, c: seq<Event>, e: Event, b: Building)
    requires Run(o, c) == Some(b) && Step(o, b, e) == None
    ensures Run(o, c + [e]) == None
  {
    assert (c + [e])[..|c|] == c;
  }

  /** Opening an element, as the document, the stack and the root id see it. */
  lemma {:induction false} OpenStep(a: Arena, b: Building, k: Kind, stack: seq<Id>)
    requires Represents(a, b) && k.Element? && stack == Ids(b.open)
    ensures Host(b) == if stack == [] then 0 else stack[|stack| - 1]
    ensures Host(b) in a.kids && Represents(Appended(a, Host(b), b.next, k), Open(b, k))
    ensures stack + [b.next] == Ids(Open(b, k).open) && Open(b, k).next == b.next + 1
    ensures RootId(Open(b, k)) == if RootId(b).None? then Some(b.next) else RootId(b)
  {
    AppendOpen(a, b, k);
    OpenRootId(b, k);
  }

  lemma {:induction false} LastHeld(a: Arena, b: Building)
    requires Represents(a, b) && b.open != []
    ensures LastChild(a, Host(b)) == if HostKids(b) == [] then None else Some(HostKids(b)[|HostKids(b)| - 1].id)
    ensures HostKids(b) != [] ==>
      var x := HostKids(b)[|HostKids(b)| - 1]; x.id in a.kind && a.kind[x.id] == x.kind
  {
    HostRepresented(a, b);
    if HostKids(b) != [] {
      var x := HostKids(b)[|HostKids(b)| - 1];
      assert x in HostKids(b) && Completed(b, x);
    }
  }

  lemma {:induction false} LeafRootId(b: Building, k: Kind)
    requires !k.Element?
    ensures RootId(AddLeaf(b, k)) == RootId(b) && Ids(AddLeaf(b, k).open) == Ids(b.open)
  {
    ElementsSnoc(b.tops, Leaf(b, k));
  }

  lemma {:induction false} OpenRootId(b: Building, k: Kind)
    ensures RootId(Open(b, k)) == if RootId(b).Some? then RootId(b) else Some(b.next)
    ensures Ids(Open(b, k).open) == Ids(b.open) + [b.next]
  {
  }

  lemma {:induction false} CloseRootId(a: Arena, b: Building)
    requires Represents(a, b) && b.open != [] && b.open[0].kind.Element?
    ensures RootId(Close(b)) == RootId(b)
  {
    ElementsSnoc(b.tops, b.open[0]);
  }

  lemma {:induction false} YieldsSnoc(o: Options, f: Filter, es: seq<Event>, e: Event)
    requires Run(o, es).Some?
    ensures Yields(o, f, es + [e]) == Yields(o, f, es) + Emits(o, f, Run(o, es).value, e)
    ensures Run(o, es + [e]) == Step(o, Run(o, es).value, e)
  {
    assert (es + [e])[..|es|] == es;
  }
}
