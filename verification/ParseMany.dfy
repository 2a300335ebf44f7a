/** The batch parser: workers that draw indices from one shared counter, in every
    interleaving, against parsing the inputs one after the other. */
module ParseMany {
  import opened Prelude

  type Doc(==, !new)
  type XmlError(==, !new)

  datatype Input = Text(text: string) | Raw(raw: seq<bv8>)

  /** A call that returns or panics. */
  datatype Outcome<T> = Returned(value: T) | Panicked(message: string)

  datatype Decoded = Decoded(text: string) | Undecodable(message: string)
  datatype Parsed = Parsed(doc: Doc) | Malformed(error: XmlError)

  datatype Code = Code(decode: seq<bv8> -> Outcome<Decoded>, parse: string -> Outcome<Parsed>)

  /** What a worker puts into a slot. */
  datatype Slot = Good(doc: Doc) | BadBytes(message: string) | BadXml(error: XmlError) | Panic(message: string)

  /** What the caller gets in place of an input. */
  datatype Item = Document(doc: Doc) | WellFormednessError(message: string) | ParseError(error: XmlError) | RuntimeError(message: string)

  /** Decode and parse one input; a panic becomes this input's error. */
  function ParseOne(code: Code, input: Input): Slot {
    var text: Outcome<Decoded> := match input
      case Text(s) => Returned(Decoded(s))
      case Raw(b) => code.decode(b);
    match text
    case Panicked(m) => Panic(m)
    case Returned(Undecodable(m)) => BadBytes(m)
    case Returned(Decoded(s)) =>
      match code.parse(s)
      case Panicked(m) => Panic(m)
      case Returned(Malformed(e)) => BadXml(e)
      case Returned(Parsed(d)) => Good(d)
  }

  function Wrap(slot: Option<Slot>): Item {
    match slot
    case None => RuntimeError("worker thread produced no result")
    case Some(Good(d)) => Document(d)
    case Some(BadBytes(m)) => WellFormednessError(m)
    case Some(BadXml(e)) => ParseError(e)
    case Some(Panic(m)) => RuntimeError(m)
  }

  /** What the caller gets for a text. */
  ghost predicate AnswersText(code: Code, s: string, r: Item) {
    && (forall d :: code.parse(s) == Returned(Parsed(d)) ==> r == Document(d))
    && (forall e :: code.parse(s) == Returned(Malformed(e)) ==> r == ParseError(e))
    && (forall m :: code.parse(s) == Panicked(m) ==> r == RuntimeError(m))
  }

  /** What the caller gets for an input: bytes that decode are treated as the text
      they decode to, and no failure or panic leaves its own input. */
  ghost predicate Answers(code: Code, input: Input, r: Item) {
    && (forall s :: input == Text(s) ==> AnswersText(code, s, r))
    && (forall b, s :: input == Raw(b) && code.decode(b) == Returned(Decoded(s)) ==> AnswersText(code, s, r))
    && (forall b, m :: input == Raw(b) && code.decode(b) == Returned(Undecodable(m)) ==> r == WellFormednessError(m))
    && (forall b, m :: input == Raw(b) && code.decode(b) == Panicked(m) ==> r == RuntimeError(m))
  }

  lemma {:induction false} OneByOneAnswers(code: Code, items: seq<Input>, i: nat)
    requires i < |items|
    ensures Answers(code, items[i], OneByOne(code, items)[i])
  {
  }

  /** Parsing the inputs in order, one after the other. */
  function OneByOne(code: Code, items: seq<Input>): (r: seq<Item>)
    ensures |r| == |items|
  {
    seq(|items|, i requires 0 <= i < |items| => Wrap(Some(ParseOne(code, items[i]))))
  }

  /** The number of workers: the caller's bound if positive, otherwise the
      machine's parallelism, and never more than there are inputs. */
  function Threads(maxThreads: Option<nat>, available: Option<nat>, n: nat): (t: nat)
    requires available.Some? ==> available.value > 0
    ensures t <= n && (n > 0 ==> t > 0)
    ensures maxThreads.Some? && maxThreads.value > 0 ==> t <= maxThreads.value
    ensures t < n ==>
      if maxThreads.Some? && maxThreads.value > 0 then t == maxThreads.value
      else if available.Some? then t == available.value
      else t == 1
  {
    var wanted := if maxThreads.Some? && maxThreads.value > 0 then maxThreads.value
                  else if available.Some? then available.value
                  else 1;
    if wanted < n then wanted else n
  }

  // ------------------------------------------------------------------
  // The workers
  // ------------------------------------------------------------------

  datatype Worker = Drawing | Parsing(i: nat) | Storing(i: nat, slot: Slot) | Stopped

  /** `stored` counts how often each slot has been written. */
  datatype State = State(next: nat, workers: seq<Worker>, slots: seq<Option<Slot>>, stored: seq<nat>)

  function Start(threads: nat, n: nat): State {
    State(0, seq(threads, _ => Drawing), seq(n, _ => None), seq(n, _ => 0))
  }

  predicate Joined(s: State) {
    forall w :: 0 <= w < |s.workers| ==> s.workers[w].Stopped?
  }

  predicate CanMove(s: State, w: nat) {
    w < |s.workers| && !s.workers[w].Stopped?
  }

  /** One move of worker `w`. Working on an index that no input has would end it. */
  function Move(code: Code, items: seq<Input>, s: State, w: nat): State
    requires CanMove(s, w)
  {
    match s.workers[w]
    case Drawing =>
      s.(next := s.next + 1, workers := s.workers[w := if s.next >= |items| then Stopped else Parsing(s.next)])
    case Parsing(i) =>
      s.(workers := s.workers[w := if i < |items| then Storing(i, ParseOne(code, items[i])) else Stopped])
    case Storing(i, slot) =>
      if i >= |s.slots| || i >= |s.stored| then s.(workers := s.workers[w := Stopped])
      else s.(workers := s.workers[w := Drawing], slots := s.slots[i := Some(slot)], stored := s.stored[i := s.stored[i] + 1])
  }

  predicate Holds(w: Worker, i: nat) {
    (w.Parsing? || w.Storing?) && w.i == i
  }

  /** Each index is drawn by nobody yet, or is with exactly one worker and not
      stored, or has been stored once with its own result. */
  ghost predicate Sound(code: Code, items: seq<Input>, s: State) {
    && |s.slots| == |s.stored| == |items|
    && (forall w :: 0 <= w < |s.workers| && (s.workers[w].Parsing? || s.workers[w].Storing?) ==> s.workers[w].i < |items|)
    && (forall w :: 0 <= w < |s.workers| && s.workers[w].Stopped? ==> s.next >= |items|)
    && (forall w :: 0 <= w < |s.workers| && s.workers[w].Storing? ==> s.workers[w].slot == ParseOne(code, items[s.workers[w].i]))
    && (forall i :: 0 <= i < |items| ==> IndexSound(code, items, s, i))
  }

  ghost predicate IndexSound(code: Code, items: seq<Input>, s: State, i: nat)
    requires i < |items| && |s.slots| == |s.stored| == |items|
  {
    && (i >= s.next ==> s.slots[i].None? && s.stored[i] == 0 && forall w :: 0 <= w < |s.workers| ==> !Holds(s.workers[w], i))
    && (forall w, v :: 0 <= w < |s.workers| && 0 <= v < |s.workers| && Holds(s.workers[w], i) && Holds(s.workers[v], i) ==> w == v)
    && (forall w :: 0 <= w < |s.workers| && Holds(s.workers[w], i) ==> s.slots[i].None?)
    && (s.slots[i].None? ==> s.stored[i] == 0)
    && (s.slots[i].Some? ==> s.stored[i] == 1 && s.slots[i].value == ParseOne(code, items[i]))
    && (i < s.next && s.slots[i].None? ==> exists w :: 0 <= w < |s.workers| && Holds(s.workers[w], i))
  }

  lemma {:induction false} StartIsSound(code: Code, items: seq<Input>, threads: nat)
    ensures Sound(code, items, Start(threads, |items|))
  {
  }

  lemma {:induction false} DrawKeepsIndex(code: Code, items: seq<Input>, s: State, w: nat, i: nat)
    requires Sound(code, items, s) && CanMove(s, w) && s.workers[w].Drawing? && i < |items|
    ensures IndexSound(code, items, Move(code, items, s, w), i)
  {
    var s' := Move(code, items, s, w);
    assert IndexSound(code, items, s, i);
    if i < s'.next && s'.slots[i].None? {
      if i == s.next {
        assert Holds(s'.workers[w], i);
      } else {
        var v :| 0 <= v < |s.workers| && Holds(s.workers[v], i);
        assert Holds(s'.workers[v], i);
      }
    }
  }

  lemma {:induction false} ParseKeepsIndex(code: Code, items: seq<Input>, s: State, w: nat, i: nat)
    requires Sound(code, items, s) && CanMove(s, w) && s.workers[w].Parsing? && i < |items|
    ensures IndexSound(code, items, Move(code, items, s, w), i)
  {
    var s' := Move(code, items, s, w);
    assert IndexSound(code, items, s, i);
    assert forall v :: 0 <= v < |s.workers| ==> (Holds(s'.workers[v], i) <==> Holds(s.workers[v], i));
  }

  lemma {:induction false} StoreKeepsIndex(code: Code, items: seq<Input>, s: State, w: nat, i: nat)
    requires Sound(code, items, s) && CanMove(s, w) && s.workers[w].Storing? && i < |items|
    ensures IndexSound(code, items, Move(code, items, s, w), i)
  {
    var s' := Move(code, items, s, w);
    assert IndexSound(code, items, s, i);
    assert Holds(s.workers[w], s.workers[w].i);
    if i != s.workers[w].i && i < s.next && s.slots[i].None? {
      var v :| 0 <= v < |s.workers| && Holds(s.workers[v], i);
      assert Holds(s'.workers[v], i);
    }
  }

  lemma {:induction false} MoveIsSound(code: Code, items: seq<Input>, s: State, w: nat)
    requires Sound(code, items, s) && CanMove(s, w)
    ensures Sound(code, items, Move(code, items, s, w))
  {
    var s' := Move(code, items, s, w);
    forall i | 0 <= i < |items| ensures IndexSound(code, items, s', i) {
      match s.workers[w]
      case Drawing => DrawKeepsIndex(code, items, s, w, i);
      case Parsing(_) => ParseKeepsIndex(code, items, s, w, i);
      case Storing(_, _) => StoreKeepsIndex(code, items, s, w, i);
    }
  }

  /** `schedule` names the worker that moves, step by step. */
  ghost predicate Run(code: Code, items: seq<Input>, s: State, schedule: seq<nat>, s': State)
    decreases |schedule|
  {
    if schedule == [] then s' == s
    else
      && CanMove(s, schedule[0])
      && Run(code, items, Move(code, items, s, schedule[0]), schedule[1..], s')
  }

  lemma {:induction false} RunIsSound(code: Code, items: seq<Input>, s: State, schedule: seq<nat>, s': State)
    requires Sound(code, items, s) && Run(code, items, s, schedule, s')
    ensures Sound(code, items, s') && |s'.workers| == |s.workers|
    decreases |schedule|
  {
    if schedule != [] {
      MoveIsSound(code, items, s, schedule[0]);
      RunIsSound(code, items, Move(code, items, s, schedule[0]), schedule[1..], s');
    }
  }

  // ------------------------------------------------------------------
  // At the join
  // ------------------------------------------------------------------

  /** In every interleaving that gets all workers to stop, each input has been
      processed exactly once, every slot is filled, and what the caller gets is
      what parsing one by one gives. */
  lemma {:induction false} BatchIsOneByOne(code: Code, items: seq<Input>, threads: nat, schedule: seq<nat>, s: State)
    requires threads > 0 && Run(code, items, Start(threads, |items|), schedule, s) && Joined(s)
    ensures |s.slots| == |s.stored| == |items| && forall i :: 0 <= i < |items| ==> s.stored[i] == 1 && s.slots[i] == Some(ParseOne(code, items[i]))
    ensures Wrapped(s.slots) == OneByOne(code, items)
  {
    StartIsSound(code, items, threads);
    RunIsSound(code, items, Start(threads, |items|), schedule, s);
    assert s.workers[0].Stopped? && s.next >= |items|;
    forall i | 0 <= i < |items| ensures s.stored[i] == 1 && s.slots[i] == Some(ParseOne(code, items[i])) {
      assert IndexSound(code, items, s, i);
      assert forall w :: 0 <= w < |s.workers| ==> !Holds(s.workers[w], i);
    }
  }

  function Wrapped(slots: seq<Option<Slot>>): (r: seq<Item>)
    ensures |r| == |slots| && forall i :: 0 <= i < |slots| ==> r[i] == Wrap(slots[i])
  {
    seq(|slots|, i requires 0 <= i < |slots| => Wrap(slots[i]))
  }

  function Weight(w: Worker): nat {
    match w case Drawing => 1 case Parsing(_) => 3 case Storing(_, _) => 2 case Stopped => 0
  }

  function Weights(ws: seq<Worker>): nat {
    if ws == [] then 0 else Weight(ws[|ws| - 1]) + Weights(ws[..|ws| - 1])
  }

  function Remaining(s: State, n: nat): nat {
    Weights(s.workers) + if s.next < n then 3 * (n - s.next) else 0
  }

  lemma {:induction false} WeightChange(ws: seq<Worker>, w: nat, x: Worker)
    requires w < |ws|
    ensures Weights(ws[w := x]) == Weights(ws) - Weight(ws[w]) + Weight(x)
    decreases |ws|
  {
    var n := |ws| - 1;
    if w < n {
      WeightChange(ws[..n], w, x);
      assert ws[w := x][..n] == ws[..n][w := x];
    } else {
      assert ws[w := x][..n] == ws[..n];
    }
  }

  lemma {:induction false} WeightOfDrawing(ws: seq<Worker>)
    requires forall w :: 0 <= w < |ws| ==> ws[w].Drawing?
    ensures Weights(ws) == |ws|
    decreases |ws|
  {
    if ws != [] { WeightOfDrawing(ws[..|ws| - 1]); }
  }

  lemma {:induction false} EveryMoveCounts(code: Code, items: seq<Input>, s: State, w: nat)
    requires Sound(code, items, s) && CanMove(s, w)
    ensures Remaining(Move(code, items, s, w), |items|) < Remaining(s, |items|)
  {
    WeightChange(s.workers, w, Move(code, items, s, w).workers[w]);
  }

  /** No interleaving goes on for ever, and as long as some worker has not stopped
      one can move: every run reaches the join. */
  lemma {:induction false} EveryRunIsBounded(code: Code, items: seq<Input>, threads: nat, schedule: seq<nat>, s: State)
    requires Run(code, items, Start(threads, |items|), schedule, s)
    ensures |schedule| <= threads + 3 * |items|
    ensures !Joined(s) ==> exists w :: CanMove(s, w)
  {
    StartIsSound(code, items, threads);
    RunUsesUp(code, items, Start(threads, |items|), schedule, s);
    WeightOfDrawing(Start(threads, |items|).workers);
    if !Joined(s) {
      var w :| 0 <= w < |s.workers| && !s.workers[w].Stopped?;
      assert CanMove(s, w);
    }
  }

  lemma {:induction false} RunUsesUp(code: Code, items: seq<Input>, s: State, schedule: seq<nat>, s': State)
    requires Sound(code, items, s) && Run(code, items, s, schedule, s')
    ensures |schedule| + Remaining(s', |items|) <= Remaining(s, |items|)
    decreases |schedule|
  {
    if schedule != [] {
      EveryMoveCounts(code, items, s, schedule[0]);
      MoveIsSound(code, items, s, schedule[0]);
      RunUsesUp(code, items, Move(code, items, s, schedule[0]), schedule[1..], s');
    }
  }

  // ------------------------------------------------------------------
  // The whole call
  // ------------------------------------------------------------------

  /** What the workers leave in the slots, as the caller's thread finds it at the join. */
  ghost predicate AtJoin(code: Code, items: seq<Input>, threads: nat, slots: seq<Option<Slot>>) {
    exists schedule, s :: Run(code, items, Start(threads, |items|), schedule, s) && Joined(s) && s.slots == slots
  }

  /** Turn the slots into the returned list. */
  method WrapUp(code: Code, items: seq<Input>, maxThreads: Option<nat>, available: Option<nat>, slots: seq<Option<Slot>>)
    returns (results: seq<Item>)
    requires available.Some? ==> available.value > 0
    requires items != [] ==> AtJoin(code, items, Threads(maxThreads, available, |items|), slots)
    ensures results == OneByOne(code, items)
    ensures |results| == |items| && forall i :: 0 <= i < |items| ==> Answers(code, items[i], results[i])
  {
    forall i | 0 <= i < |items| ensures Answers(code, items[i], OneByOne(code, items)[i]) {
      OneByOneAnswers(code, items, i);
    }
    results := [];
    if items == [] {
      return;
    }
    ghost var schedule, s :| Run(code, items, Start(Threads(maxThreads, available, |items|), |items|), schedule, s) && Joined(s) && s.slots == slots;
    BatchIsOneByOne(code, items, Threads(maxThreads, available, |items|), schedule, s);
    for i := 0 to |slots|
      invariant results == Wrapped(slots)[..i]
    {
      results := results + [Wrap(slots[i])];
    }
  }
}
