/** Comment, processing-instruction and CDATA options as tree rewriting: what the
    post-parse pass makes of a tree. */
module ParseOptions {
  import opened Prelude
  import opened Arena

  datatype Options = Options(removeComments: bool, removePis: bool, stripCdata: bool) {
    predicate Any() { removeComments || removePis || stripCdata }
  }

  /** The two walks of the pass: removal with CDATA conversion, then coalescing. */
  datatype Phase = Strip(o: Options) | Coalesce

  predicate Removed(k: Kind, o: Options) {
    (k.Comment? && o.removeComments) || (k.PI? && o.removePis)
  }

  function Converted(k: Kind, o: Options): Kind {
    if k.CData? && o.stripCdata then Text(k.text) else k
  }

  /** Extend a rewritten child list by one more child. */
  function Join(ph: Phase, acc: seq<Tree>, y: Tree): seq<Tree> {
    match ph
    case Strip(o) => if Removed(y.kind, o) then acc else acc + [y.(kind := Converted(y.kind, o))]
    case Coalesce =>
      if y.kind.Text? && acc != [] && acc[|acc| - 1].kind.Text? then
        acc[..|acc| - 1] + [acc[|acc| - 1].(kind := Text(acc[|acc| - 1].kind.text + y.kind.text))]
      else acc + [y]
  }

  /** A subtree after one walk. Only elements have children to rewrite. */
  function After(ph: Phase, t: Tree): (r: Tree)
    ensures r.id == t.id && r.kind == t.kind
    decreases t, 0
  {
    if t.kind.Element? then Node(t.id, t.kind, AfterKids(ph, t.kids)) else t
  }

  function AfterKids(ph: Phase, ts: seq<Tree>): seq<Tree>
    decreases ts, 1
  {
    if ts == [] then [] else Join(ph, AfterKids(ph, ts[..|ts| - 1]), After(ph, ts[|ts| - 1]))
  }

  /** The pass on a child list, and on the document element. It does nothing when
      no option is on. */
  function PostKids(o: Options, ts: seq<Tree>): seq<Tree> {
    AfterKids(Coalesce, AfterKids(Strip(o), ts))
  }

  function Rewritten(o: Options, t: Tree): Tree {
    After(Coalesce, After(Strip(o), t))
  }

  function Postprocessed(o: Options, t: Tree): Tree {
    if o.Any() then Rewritten(o, t) else t
  }

  lemma {:induction false} EraseConcat(xs: seq<Tree>, ys: seq<Tree>)
    ensures EraseAll(xs + ys) == EraseAll(xs) + EraseAll(ys)
  {
  }

  /** Rewriting does not look at ids. */
  lemma {:induction false} EraseAfter(ph: Phase, t: Tree)
    ensures Erase(After(ph, t)) == After(ph, Erase(t))
    decreases t, 0
  {
    if t.kind.Element? {
      EraseAfterKids(ph, t.kids);
    }
  }

  lemma {:induction false} EraseAfterKids(ph: Phase, ts: seq<Tree>)
    ensures EraseAll(AfterKids(ph, ts)) == AfterKids(ph, EraseAll(ts))
    decreases ts, 1
  {
    if ts != [] {
      var front, last := ts[..|ts| - 1], ts[|ts| - 1];
      EraseAfterKids(ph, front);
      EraseAfter(ph, last);
      assert EraseAll(ts)[..|ts| - 1] == EraseAll(front);
      EraseJoin(ph, AfterKids(ph, front), After(ph, last));
    }
  }

  lemma {:induction false} EraseJoin(ph: Phase, acc: seq<Tree>, y: Tree)
    ensures EraseAll(Join(ph, acc, y)) == Join(ph, EraseAll(acc), Erase(y))
  {
    if ph.Coalesce? && y.kind.Text? && acc != [] && acc[|acc| - 1].kind.Text? {
      var n := |acc| - 1;
      var head := acc[n].(kind := Text(acc[n].kind.text + y.kind.text));
      assert EraseAll(acc)[..n] == EraseAll(acc[..n]);
      EraseConcat(acc[..n], [head]);
      assert EraseAll([head]) == [Erase(head)];
    } else {
      var y' := if ph.Strip? then y.(kind := Converted(y.kind, ph.o)) else y;
      EraseConcat(acc, [y']);
      assert EraseAll([y']) == [Erase(y')];
    }
  }

  /** Post-processing an extended child list: what one more child contributes. */
  lemma {:induction false} PostOneMore(o: Options, ts: seq<Tree>, x: Tree)
    ensures PostKids(o, ts + [x]) ==
      if Removed(x.kind, o) then PostKids(o, ts)
      else Join(Coalesce, PostKids(o, ts),
                if x.kind.Element? then Rewritten(o, x) else x.(kind := Converted(x.kind, o)))
  {
    var all := ts + [x];
    assert all[..|all| - 1] == ts && all[|all| - 1] == x;
    var s := AfterKids(Strip(o), ts);
    var y := After(Strip(o), x);
    if !Removed(x.kind, o) {
      var y' := y.(kind := Converted(y.kind, o));
      var next := s + [y'];
      assert AfterKids(Strip(o), all) == next;
      assert next[..|next| - 1] == s && next[|next| - 1] == y';
      assert PostKids(o, all) == Join(Coalesce, PostKids(o, ts), After(Coalesce, y'));
    }
  }

  // ------------------------------------------------------------------
  // When there is nothing to coalesce
  // ------------------------------------------------------------------

  ghost predicate ApartHere(ts: seq<Tree>) {
    forall i :: 0 < i < |ts| ==> !(ts[i - 1].kind.Text? && ts[i].kind.Text?)
  }

  /** No element has two text nodes side by side. */
  ghost predicate TextApart(t: Tree) {
    t.kind.Element? ==> ApartHere(t.kids) && forall i :: 0 <= i < |t.kids| ==> TextApart(t.kids[i])
  }

  lemma {:induction false} ApartFront(ts: seq<Tree>)
    requires ts != []
    ensures var n := |ts| - 1;
      ApartHere(ts) <==> ApartHere(ts[..n]) && !(n > 0 && ts[n - 1].kind.Text? && ts[n].kind.Text?)
  {
  }

  /** Coalescing shortens a child list exactly if two of its text nodes touch. */
  lemma {:induction false} CoalesceLength(ts: seq<Tree>)
    ensures var r := AfterKids(Coalesce, ts);
      && |r| <= |ts| && (|r| == |ts| <==> ApartHere(ts))
      && (ApartHere(ts) ==> forall i :: 0 <= i < |ts| ==> r[i] == After(Coalesce, ts[i]))
    decreases |ts|
  {
    if ts != [] {
      CoalesceLength(ts[..|ts| - 1]);
      ApartFront(ts);
    }
  }

  lemma {:induction false} CoalesceLeaves(t: Tree)
    ensures After(Coalesce, t) == t <==> TextApart(t)
    decreases t
  {
    if t.kind.Element? {
      CoalesceLength(t.kids);
      forall i | 0 <= i < |t.kids| ensures After(Coalesce, t.kids[i]) == t.kids[i] <==> TextApart(t.kids[i]) {
        CoalesceLeaves(t.kids[i]);
      }
    }
  }

  lemma {:induction false} StripNothing(o: Options, t: Tree)
    requires !o.Any()
    ensures After(Strip(o), t) == t
    decreases t, 0
  {
    if t.kind.Element? { StripNothingAll(o, t.kids); }
  }

  lemma {:induction false} StripNothingAll(o: Options, ts: seq<Tree>)
    requires !o.Any()
    ensures AfterKids(Strip(o), ts) == ts
    decreases ts, 1
  {
    if ts != [] {
      StripNothingAll(o, ts[..|ts| - 1]);
      StripNothing(o, ts[|ts| - 1]);
    }
  }

  lemma {:induction false} TextApartErased(t: Tree)
    ensures TextApart(Erase(t)) <==> TextApart(t)
    decreases t
  {
    if t.kind.Element? {
      forall i | 0 <= i < |t.kids| ensures TextApart(Erase(t.kids[i])) <==> TextApart(t.kids[i]) { TextApartErased(t.kids[i]); }
      var es := EraseAll(t.kids);
      assert forall i :: 0 <= i < |es| ==> es[i].kind == t.kids[i].kind;
      assert ApartHere(es) <==> ApartHere(t.kids);
    }
  }

  /** With no option on, rewriting changes a tree exactly if some of its text nodes touch. */
  lemma {:induction false} RewritingChangesNothing(o: Options, t: Tree)
    requires !o.Any()
    ensures Erase(Rewritten(o, t)) == Erase(t) <==> TextApart(t)
  {
    StripNothing(o, t);
    EraseAfter(Coalesce, t);
    CoalesceLeaves(Erase(t));
    TextApartErased(t);
  }
}
