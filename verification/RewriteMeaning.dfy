/** What the parser options mean for the content of a tree, written out in document
    order: comments and instructions are left out, CDATA sections become characters,
    and nothing else changes. */
module RewriteMeaning {
  import opened Prelude
  import opened Arena
  import opened ParseOptions

  datatype Token = OpenTag(kind: Kind) | CloseTag | Char(c: char) | Section(text: string) | Leaf(kind: Kind)

  function Chars(s: string): (r: seq<Token>)
    ensures |r| == |s| && forall i :: 0 <= i < |s| ==> r[i] == Char(s[i])
  {
    seq(|s|, i requires 0 <= i < |s| => Char(s[i]))
  }

  /** What a caller who asked for `o` expects to see of a node that is not an element. */
  function Seen(o: Options, k: Kind): seq<Token> {
    match k
    case Text(s) => Chars(s)
    case CData(s) => if o.stripCdata then Chars(s) else [Section(s)]
    case Comment(_) => if o.removeComments then [] else [Leaf(k)]
    case PI(_, _) => if o.removePis then [] else [Leaf(k)]
    case _ => [Leaf(k)]
  }

  function Shown(o: Options, t: Tree): seq<Token>
    decreases t, 0
  {
    if t.kind.Element? then [OpenTag(t.kind)] + ShownAll(o, t.kids) + [CloseTag] else Seen(o, t.kind)
  }

  function ShownAll(o: Options, ts: seq<Tree>): seq<Token>
    decreases ts, 1
  {
    if ts == [] then [] else ShownAll(o, ts[..|ts| - 1]) + Shown(o, ts[|ts| - 1])
  }

  /** Everything that a tree holds. */
  function Contents(t: Tree): seq<Token> {
    Shown(Options(false, false, false), t)
  }

  lemma {:induction false} ShownSnoc(o: Options, ts: seq<Tree>, t: Tree)
    ensures ShownAll(o, ts + [t]) == ShownAll(o, ts) + Shown(o, t)
  {
    assert (ts + [t])[..|ts|] == ts;
  }

  lemma {:induction false} CharsConcat(s: string, t: string)
    ensures Chars(s + t) == Chars(s) + Chars(t)
  {
  }

  // ------------------------------------------------------------------
  // Removal and conversion
  // ------------------------------------------------------------------

  const NONE := Options(false, false, false)

  lemma {:induction false} StrippedLeaf(o: Options, k: Kind)
    requires !k.Element?
    ensures Seen(o, k) == if Removed(k, o) then [] else Seen(NONE, Converted(k, o))
  {
  }

  lemma {:induction false} StripShows(o: Options, t: Tree)
    requires !Removed(t.kind, o)
    ensures Shown(NONE, After(Strip(o), t).(kind := Converted(t.kind, o))) == Shown(o, t)
    decreases t, 0
  {
    if t.kind.Element? {
      StripShowsAll(o, t.kids);
    } else {
      StrippedLeaf(o, t.kind);
    }
  }

  lemma {:induction false} StripShowsAll(o: Options, ts: seq<Tree>)
    ensures ShownAll(NONE, AfterKids(Strip(o), ts)) == ShownAll(o, ts)
    decreases ts, 1
  {
    if ts != [] {
      var front, last := AfterKids(Strip(o), ts[..|ts| - 1]), ts[|ts| - 1];
      StripShowsAll(o, ts[..|ts| - 1]);
      if Removed(last.kind, o) {
        StrippedLeaf(o, last.kind);
        assert ShownAll(o, ts[..|ts| - 1]) + [] == ShownAll(o, ts[..|ts| - 1]);
      } else {
        StripShows(o, last);
        ShownSnoc(NONE, front, After(Strip(o), last).(kind := Converted(last.kind, o)));
      }
    }
  }

  // ------------------------------------------------------------------
  // Coalescing
  // ------------------------------------------------------------------

  lemma {:induction false} CoalesceShows(t: Tree)
    ensures Contents(After(Coalesce, t)) == Contents(t)
    decreases t, 0
  {
    if t.kind.Element? {
      CoalesceShowsAll(t.kids);
    }
  }

  lemma {:induction false} JoinShows(acc: seq<Tree>, y: Tree)
    ensures ShownAll(NONE, Join(Coalesce, acc, y)) == ShownAll(NONE, acc) + Shown(NONE, y)
  {
    if y.kind.Text? && acc != [] && acc[|acc| - 1].kind.Text? {
      var n := |acc| - 1;
      var s, u := acc[n].kind.text, y.kind.text;
      ShownSnoc(NONE, acc[..n], acc[n].(kind := Text(s + u)));
      CharsConcat(s, u);
      assert ShownAll(NONE, acc[..n]) + (Chars(s) + Chars(u)) == (ShownAll(NONE, acc[..n]) + Chars(s)) + Chars(u);
    } else {
      ShownSnoc(NONE, acc, y);
    }
  }

  lemma {:induction false} CoalesceShowsAll(ts: seq<Tree>)
    ensures ShownAll(NONE, AfterKids(Coalesce, ts)) == ShownAll(NONE, ts)
    decreases ts, 1
  {
    if ts != [] {
      CoalesceShowsAll(ts[..|ts| - 1]);
      CoalesceShows(ts[|ts| - 1]);
      JoinShows(AfterKids(Coalesce, ts[..|ts| - 1]), After(Coalesce, ts[|ts| - 1]));
    }
  }

  /** Rewriting shows what was asked for, and leaves no two text nodes side by side. */
  lemma {:induction false} RewritingShows(o: Options, t: Tree)
    requires t.kind.Element?
    ensures Contents(Rewritten(o, t)) == Shown(o, t) && TextApart(Rewritten(o, t))
  {
    StripShows(o, t);
    CoalesceShows(After(Strip(o), t));
    CoalesceSeparates(After(Strip(o), t));
  }

  lemma {:induction false} CoalesceSeparates(t: Tree)
    ensures TextApart(After(Coalesce, t))
    decreases t, 0
  {
    if t.kind.Element? {
      CoalesceSeparatesAll(t.kids);
    }
  }

  lemma {:induction false} CoalesceSeparatesAll(ts: seq<Tree>)
    ensures var r := AfterKids(Coalesce, ts); ApartHere(r) && forall i :: 0 <= i < |r| ==> TextApart(r[i])
    decreases ts, 1
  {
    if ts != [] {
      CoalesceSeparatesAll(ts[..|ts| - 1]);
      CoalesceSeparates(ts[|ts| - 1]);
      ApartFront(AfterKids(Coalesce, ts));
    }
  }
}
