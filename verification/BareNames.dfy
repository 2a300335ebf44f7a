/** Bare element names under a default namespace: the pointer walk that decides
    whether serialization needs a qualified copy, and the stack walk that
    validation uses to list the names to qualify. */
module BareNames {
  import opened Prelude
  import opened Arena

  /** The default namespace a list of declarations puts in effect, the last one
      winning: `None` when it declares none, `Some(None)` for `xmlns=""`. */
  function DeclaredDefault(decls: seq<Decl>): Option<Option<string>> {
    if decls == [] then None
    else
      var d := decls[|decls| - 1];
      if d.prefix == "" then Some(if d.uri == "" then None else Some(d.uri))
      else DeclaredDefault(decls[..|decls| - 1])
  }

  function DeclaresDefault(k: Kind): Option<Option<string>> {
    if k.Element? then DeclaredDefault(k.decls) else None
  }

  /** The default in effect inside a node, given the one in effect above it. */
  function Inside(k: Kind, above: Option<string>): Option<string> {
    var d := DeclaresDefault(k);
    if d.Some? then d.value else above
  }

  predicate BareName(k: Kind) {
    k.Element? && k.name.prefix.None? && k.name.ns.None?
  }

  /** Some element of `t` has a bare name while a default is in effect. Only
      elements have children to descend into. */
  ghost predicate Bare(t: Tree, above: Option<string>)
    decreases t, 0
  {
    var d := Inside(t.kind, above);
    t.kind.Element? && ((d.Some? && BareName(t.kind)) || BareAny(t.kids, d))
  }

  ghost predicate BareAny(ts: seq<Tree>, d: Option<string>)
    decreases ts, 1
  {
    ts != [] && (Bare(ts[0], d) || BareAny(ts[1..], d))
  }

  method ScanDefault(decls: seq<Decl>) returns (declared: Option<Option<string>>)
    ensures declared == DeclaredDefault(decls)
  {
    declared := None;
    for i := 0 to |decls|
      invariant declared == DeclaredDefault(decls[..i])
    {
      assert decls[..i + 1][..i] == decls[..i];
      if decls[i].prefix == "" {
        declared := Some(if decls[i].uri == "" then None else Some(decls[i].uri));
      }
    }
    assert decls[..|decls|] == decls;
  }

  // ------------------------------------------------------------------
  // The pointer walk
  // ------------------------------------------------------------------

  /** An ancestor on the way down to the cursor: the node, which of its children
      the walk is in, and the default in effect above it. */
  datatype Frame = Frame(node: Tree, at: nat, above: Option<string>)

  function Later(f: Frame): seq<Tree> {
    if f.at < |f.node.kids| then f.node.kids[f.at + 1..] else []
  }

  function AbovePath(path: seq<Frame>, inherited: Option<string>): Option<string> {
    if path == [] then inherited
    else Inside(path[|path| - 1].node.kind, path[|path| - 1].above)
  }

  ghost predicate PathTo(t: Tree, inherited: Option<string>, path: seq<Frame>, c: Tree) {
    if path == [] then c == t
    else
      var f, up := path[|path| - 1], path[..|path| - 1];
      && f.node.kind.Element? && f.at < |f.node.kids| && f.node.kids[f.at] == c
      && f.above == AbovePath(up, inherited)
      && PathTo(t, inherited, up, f.node)
  }

  /** The saved defaults: one entry per declaring ancestor, outermost first. */
  function ScopeOf(path: seq<Frame>): seq<(Id, Option<string>)> {
    if path == [] then []
    else ScopeOf(path[..|path| - 1]) + Saved(path[|path| - 1].node, path[|path| - 1].above)
  }

  function Saved(t: Tree, above: Option<string>): seq<(Id, Option<string>)> {
    if DeclaresDefault(t.kind).Some? then [(t.id, above)] else []
  }

  /** The answer still to be found to the right of the path. */
  ghost predicate BareLater(path: seq<Frame>) {
    path != [] &&
    var f := path[|path| - 1];
    (BareAny(Later(f), Inside(f.node.kind, f.above)) || BareLater(path[..|path| - 1]))
  }

  ghost function Todo(path: seq<Frame>): nat {
    if path == [] then 0
    else |PreorderAll(Later(path[|path| - 1]))| + Todo(path[..|path| - 1])
  }

  /** Everything on a path to `c` is a proper ancestor of `c`. */
  lemma {:induction false} PathAbove(a: Arena, t: Tree, inherited: Option<string>, path: seq<Frame>, c: Tree)
    requires Holds(a, t) && PathTo(t, inherited, path, c)
    ensures Holds(a, c)
    ensures forall i :: 0 <= i < |path| ==> path[i].node.id != c.id
    ensures forall e :: e in ScopeOf(path) ==> e.0 != c.id
    ensures path != [] ==> c.id != t.id
    decreases path
  {
    ProperAncestors(a, t, inherited, path, c);
    ScopeAncestors(path, c.id);
  }

  lemma {:induction false} ProperAncestors(a: Arena, t: Tree, inherited: Option<string>, path: seq<Frame>, c: Tree)
    requires Holds(a, t) && PathTo(t, inherited, path, c)
    ensures Holds(a, c) && c in Preorder(t)
    ensures forall i :: 0 <= i < |path| ==> c in Preorder(path[i].node) && c.id != path[i].node.id
    ensures path != [] ==> c.id != t.id
    decreases path
  {
    if path != [] {
      var f, up := path[|path| - 1], path[..|path| - 1];
      ProperAncestors(a, t, inherited, up, f.node);
      Below(a, f.node, f.at);
      Deeper(a, t, f.node, c);
      forall i | 0 <= i < |up| ensures c in Preorder(up[i].node) && c.id != up[i].node.id {
        NodeHeld(a, t, inherited, up, f.node, i);
        Deeper(a, up[i].node, f.node, c);
      }
    }
  }

  lemma {:induction false} NodeHeld(a: Arena, t: Tree, inherited: Option<string>, path: seq<Frame>, c: Tree, i: nat)
    requires Holds(a, t) && PathTo(t, inherited, path, c) && i < |path|
    ensures Holds(a, path[i].node) && path[i].node in Preorder(t)
    decreases path
  {
    var f, up := path[|path| - 1], path[..|path| - 1];
    if i == |path| - 1 {
      ProperAncestors(a, t, inherited, up, f.node);
    } else {
      NodeHeld(a, t, inherited, up, f.node, i);
    }
  }

  lemma {:induction false} ScopeAncestors(path: seq<Frame>, x: Id)
    requires forall i :: 0 <= i < |path| ==> path[i].node.id != x
    ensures forall e :: e in ScopeOf(path) ==> e.0 != x
  {
    if path != [] {
      ScopeAncestors(path[..|path| - 1], x);
    }
  }

  /** The walk is about to visit `c`. */
  ghost predicate Arriving(t: Tree, inherited: Option<string>, path: seq<Frame>, c: Tree,
                           d: Option<string>, scope: seq<(Id, Option<string>)>) {
    && PathTo(t, inherited, path, c)
    && d == AbovePath(path, inherited)
    && scope == ScopeOf(path)
    && Bare(t, inherited) == (Bare(c, d) || BareLater(path))
  }

  /** The walk has found nothing in `c` and is about to move on from it. */
  ghost predicate Leaving(t: Tree, inherited: Option<string>, path: seq<Frame>, c: Tree,
                          d: Option<string>, scope: seq<(Id, Option<string>)>) {
    && PathTo(t, inherited, path, c)
    && d == Inside(c.kind, AbovePath(path, inherited))
    && scope == ScopeOf(path) + Saved(c, AbovePath(path, inherited))
    && Bare(t, inherited) == BareLater(path)
  }

  lemma {:induction false} Descend(t: Tree, inherited: Option<string>, path: seq<Frame>, c: Tree,
                d: Option<string>, scope: seq<(Id, Option<string>)>) returns (longer: seq<Frame>)
    requires Arriving(t, inherited, path, c, d, scope)
    requires c.kind.Element? && c.kids != [] && !(Inside(c.kind, d).Some? && BareName(c.kind))
    ensures Arriving(t, inherited, longer, c.kids[0], Inside(c.kind, d), scope + Saved(c, d))
    ensures |Preorder(c.kids[0])| + Todo(longer) < |Preorder(c)| + Todo(path)
  {
    var f := Frame(c, 0, d);
    longer := path + [f];
    assert longer[..|longer| - 1] == path && longer[|longer| - 1] == f;
    assert PreorderAll(c.kids) == Preorder(c.kids[0]) + PreorderAll(c.kids[1..]);
    assert BareAny(c.kids, Inside(c.kind, d)) ==
           (Bare(c.kids[0], Inside(c.kind, d)) || BareAny(c.kids[1..], Inside(c.kind, d)));
  }

  lemma {:induction false} LastReplaced(up: seq<Frame>, g: Frame, moved: seq<Frame>)
    requires moved == up + [g]
    ensures moved != [] && moved[..|moved| - 1] == up && moved[|moved| - 1] == g
  {
  }

  lemma {:induction false} Across(t: Tree, inherited: Option<string>, path: seq<Frame>, c: Tree,
               d: Option<string>, scope: seq<(Id, Option<string>)>) returns (moved: seq<Frame>)
    requires Leaving(t, inherited, path, c, d, scope)
    requires path != [] && Later(path[|path| - 1]) != []
    ensures var f := path[|path| - 1];
            && Arriving(t, inherited, moved, f.node.kids[f.at + 1], AbovePath(path, inherited), ScopeOf(path))
            && |Preorder(f.node.kids[f.at + 1])| + Todo(moved) == Todo(path)
  {
    var f, up := path[|path| - 1], path[..|path| - 1];
    var g := Frame(f.node, f.at + 1, f.above);
    moved := up + [g];
    LastReplaced(up, g, moved);
    LaterSplit(f, g);
    AcrossCounts(path, moved, f, g);
  }

  lemma {:induction false} LaterSplit(f: Frame, g: Frame)
    requires Later(f) != [] && g == Frame(f.node, f.at + 1, f.above)
    ensures f.at + 1 < |f.node.kids| && Later(f)[0] == f.node.kids[f.at + 1] && Later(f)[1..] == Later(g)
  {
  }

  lemma {:induction false} AcrossCounts(path: seq<Frame>, moved: seq<Frame>, f: Frame, g: Frame)
    requires path != [] && moved != [] && path[|path| - 1] == f && moved[|moved| - 1] == g && moved[..|moved| - 1] == path[..|path| - 1]
    requires Later(f) != [] && Later(f)[1..] == Later(g)
    ensures |Preorder(Later(f)[0])| + Todo(moved) == Todo(path)
  {
  }

  lemma {:induction false} Climb(t: Tree, inherited: Option<string>, path: seq<Frame>, c: Tree,
              d: Option<string>, scope: seq<(Id, Option<string>)>)
    requires Leaving(t, inherited, path, c, d, scope)
    requires path != [] && Later(path[|path| - 1]) == []
    ensures var up := path[..|path| - 1];
            && Leaving(t, inherited, up, path[|path| - 1].node, AbovePath(path, inherited), ScopeOf(path))
            && Todo(up) == Todo(path)
  {
  }

  lemma {:induction false} Settle(t: Tree, inherited: Option<string>, path: seq<Frame>, c: Tree,
               d: Option<string>, scope: seq<(Id, Option<string>)>)
    requires Arriving(t, inherited, path, c, d, scope)
    requires !(Inside(c.kind, d).Some? && BareName(c.kind))
    requires c.kind.Element? ==> c.kids == []
    ensures Leaving(t, inherited, path, c, Inside(c.kind, d), scope + Saved(c, d))
  {
    assert !BareAny([], Inside(c.kind, d));
    assert !Bare(c, d);
  }

  /** Enter the scope of `cur`; `hit` when it has a bare name under a default. */
  method EnterNode(k: Kind, cur: Id, default0: Option<string>, scope0: seq<(Id, Option<string>)>, ghost c: Tree)
    returns (defaultNs: Option<string>, scope: seq<(Id, Option<string>)>, hit: bool)
    requires c.id == cur && c.kind == k
    ensures defaultNs == Inside(k, default0)
    ensures scope == scope0 + Saved(c, default0)
    ensures hit == (defaultNs.Some? && BareName(k))
  {
    defaultNs, scope, hit := default0, scope0, false;
    if k.Element? {
      var declared := ScanDefault(k.decls);
      if declared.Some? {
        scope := scope + [(cur, defaultNs)];
        defaultNs := declared.value;
      }
      hit := defaultNs.Some? && k.name.prefix.None? && k.name.ns.None?;
    }
  }

  method HasBareNameUnderDefaultNamespace(a: Arena, root: Id, inherited: Option<string>, ghost t: Tree)
    returns (found: bool)
    requires Wf(a) && Holds(a, t) && t.id == root
    ensures found == Bare(t, inherited)
  {
    var scope: seq<(Id, Option<string>)> := [];
    var defaultNs := inherited;
    var cur := root;
    ghost var c, path := t, [];
    while true
      invariant Arriving(t, inherited, path, c, defaultNs, scope) && c.id == cur
      decreases |Preorder(c)| + Todo(path)
    {
      ghost var d0, scope0 := defaultNs, scope;
      PathAbove(a, t, inherited, path, c);
      var hit;
      defaultNs, scope, hit := EnterNode(a.kind[cur], cur, defaultNs, scope, c);
      if hit {
        return true;
      }
      var first := if a.kind[cur].Element? then FirstChild(a, cur) else None;
      if first.Some? {
        path := Descend(t, inherited, path, c, d0, scope0);
        cur, c := first.value, c.kids[0];
      } else {
        Settle(t, inherited, path, c, d0, scope0);
        var done;
        cur, defaultNs, scope, c, path, done := LeaveNode(a, root, cur, defaultNs, scope, t, inherited, c, path);
        if done {
          return false;
        }
      }
    }
  }

  /** Leave `cur0`, then move to its next sibling or climb; `done` at the root. */
  method LeaveNode(a: Arena, root: Id, cur0: Id, default0: Option<string>, scope0: seq<(Id, Option<string>)>,
                   ghost t: Tree, ghost inherited: Option<string>, ghost c0: Tree, ghost path0: seq<Frame>)
    returns (cur: Id, defaultNs: Option<string>, scope: seq<(Id, Option<string>)>,
             ghost c: Tree, ghost path: seq<Frame>, done: bool)
    requires Wf(a) && Holds(a, t) && t.id == root
    requires Leaving(t, inherited, path0, c0, default0, scope0) && c0.id == cur0
    ensures done ==> !Bare(t, inherited)
    ensures !done ==> Arriving(t, inherited, path, c, defaultNs, scope) && c.id == cur
    ensures !done ==> |Preorder(c)| + Todo(path) == Todo(path0)
  {
    cur, defaultNs, scope, c, path, done := cur0, default0, scope0, c0, path0, false;
    while true
      invariant Leaving(t, inherited, path, c, defaultNs, scope) && c.id == cur
      invariant Todo(path) == Todo(path0)
      decreases |path|
    {
      Neighbours(a, t, inherited, path, c);
      if cur == root {
        done := true;
        return;
      }
      ghost var d0, s0 := defaultNs, scope;
      defaultNs, scope := PopScope(cur, defaultNs, scope, inherited, path, c);
      var sibling := NextSibling(a, cur);
      if sibling.Some? {
        path, c := StepAcross(t, inherited, path, c, d0, s0);
        cur := sibling.value;
        return;
      }
      path, c := StepUp(t, inherited, path, c, d0, s0);
      match Parent(a, cur)
      case None =>
        done := true;
        return;
      case Some(p) =>
        cur := p;
    }
  }

  /** What the cursor sees around a node that the walk is leaving. */
  lemma {:induction false} Neighbours(a: Arena, t: Tree, inherited: Option<string>, path: seq<Frame>, c: Tree)
    requires Wf(a) && Holds(a, t) && PathTo(t, inherited, path, c)
    ensures Holds(a, c) && (c.id == t.id <==> path == [])
    ensures forall e :: e in ScopeOf(path) ==> e.0 != c.id
    ensures path != [] ==>
      var f := path[|path| - 1];
      && Parent(a, c.id) == Some(f.node.id)
      && NextSibling(a, c.id) == (if f.at + 1 < |f.node.kids| then Some(f.node.kids[f.at + 1].id) else None)
      && (Later(f) == [] <==> f.at + 1 == |f.node.kids|)
  {
    PathAbove(a, t, inherited, path, c);
    if path != [] {
      var f := path[|path| - 1];
      PathAbove(a, t, inherited, path[..|path| - 1], f.node);
      ChildNeighbours(a, f.node, f.at);
    }
  }

  lemma {:induction false} ChildNeighbours(a: Arena, t: Tree, i: nat)
    requires Wf(a) && Holds(a, t) && i < |t.kids|
    ensures Parent(a, t.kids[i].id) == Some(t.id)
    ensures NextSibling(a, t.kids[i].id) == if i + 1 < |t.kids| then Some(t.kids[i + 1].id) else None
  {
    SiblingStep(a, t.id, i);
  }

  /** Leave the scope that the node itself opened, if it did. */
  method PopScope(cur: Id, default0: Option<string>, scope0: seq<(Id, Option<string>)>, ghost inherited: Option<string>, ghost path: seq<Frame>, ghost c: Tree)
    returns (defaultNs: Option<string>, scope: seq<(Id, Option<string>)>)
    requires c.id == cur && default0 == Inside(c.kind, AbovePath(path, inherited))
    requires scope0 == ScopeOf(path) + Saved(c, AbovePath(path, inherited)) && forall e :: e in ScopeOf(path) ==> e.0 != cur
    ensures defaultNs == AbovePath(path, inherited) && scope == ScopeOf(path)
  {
    defaultNs, scope := default0, scope0;
    ghost var s := ScopeOf(path);
    assert s != [] ==> s[|s| - 1] in s && s[|s| - 1].0 != cur;
    if scope != [] && scope[|scope| - 1].0 == cur {
      defaultNs := scope[|scope| - 1].1;
      scope := scope[..|scope| - 1];
    }
  }

  lemma {:induction false} StepAcross(t: Tree, inherited: Option<string>, path: seq<Frame>, c: Tree,
               d: Option<string>, scope: seq<(Id, Option<string>)>) returns (moved: seq<Frame>, next: Tree)
    requires Leaving(t, inherited, path, c, d, scope)
    requires path != [] && Later(path[|path| - 1]) != []
    ensures var f := path[|path| - 1]; next == f.node.kids[f.at + 1]
    ensures Arriving(t, inherited, moved, next, AbovePath(path, inherited), ScopeOf(path))
    ensures |Preorder(next)| + Todo(moved) == Todo(path)
  {
    moved := Across(t, inherited, path, c, d, scope);
    next := path[|path| - 1].node.kids[path[|path| - 1].at + 1];
  }

  lemma {:induction false} StepUp(t: Tree, inherited: Option<string>, path: seq<Frame>, c: Tree,
               d: Option<string>, scope: seq<(Id, Option<string>)>) returns (up: seq<Frame>, parent: Tree)
    requires Leaving(t, inherited, path, c, d, scope)
    requires path != [] && Later(path[|path| - 1]) == []
    ensures parent == path[|path| - 1].node && |up| < |path| && Todo(up) == Todo(path)
    ensures Leaving(t, inherited, up, parent, AbovePath(path, inherited), ScopeOf(path))
  {
    Climb(t, inherited, path, c, d, scope);
    up, parent := path[..|path| - 1], path[|path| - 1].node;
  }

  // ------------------------------------------------------------------
  // What the walk's answer means
  // ------------------------------------------------------------------

  /** `Bare`, with an empty URI counted as no default namespace at all. */
  ghost predicate BareUnderNonEmpty(t: Tree, above: Option<string>)
    decreases t, 0
  {
    var d := Inside(t.kind, above);
    t.kind.Element? && ((d.Some? && d.value != "" && BareName(t.kind)) || BareUnderNonEmptyAny(t.kids, d))
  }

  ghost predicate BareUnderNonEmptyAny(ts: seq<Tree>, d: Option<string>)
    decreases ts, 1
  {
    ts != [] && (BareUnderNonEmpty(ts[0], d) || BareUnderNonEmptyAny(ts[1..], d))
  }

  /** A bare name that still sees the default inherited from above `t`. */
  ghost predicate BareInherits(t: Tree)
    decreases t, 0
  {
    t.kind.Element? && DeclaresDefault(t.kind).None? && (BareName(t.kind) || BareInheritsAny(t.kids))
  }

  ghost predicate BareInheritsAny(ts: seq<Tree>)
    decreases ts, 1
  {
    ts != [] && (BareInherits(ts[0]) || BareInheritsAny(ts[1..]))
  }

  lemma {:induction false} DefaultIsNonEmpty(decls: seq<Decl>)
    ensures DeclaredDefault(decls) != Some(Some(""))
  {
    if decls != [] {
      DefaultIsNonEmpty(decls[..|decls| - 1]);
    }
  }

  /** An empty inherited URI adds the bare names that still see it, nothing else. */
  lemma {:induction false} InheritedDefault(t: Tree, above: Option<string>)
    ensures Bare(t, above) <==> BareUnderNonEmpty(t, above) || (above == Some("") && BareInherits(t))
    decreases t, 0
  {
    if t.kind.Element? {
      DefaultIsNonEmpty(t.kind.decls);
      InheritedDefaultAny(t.kids, Inside(t.kind, above));
    }
  }

  lemma {:induction false} InheritedDefaultAny(ts: seq<Tree>, d: Option<string>)
    ensures BareAny(ts, d) <==> BareUnderNonEmptyAny(ts, d) || (d == Some("") && BareInheritsAny(ts))
    decreases ts, 1
  {
    if ts != [] {
      InheritedDefault(ts[0], d);
      InheritedDefaultAny(ts[1..], d);
    }
  }

  /** An empty inherited default makes the walk report a name that no non-empty
      default reaches. */
  lemma {:induction false} EmptyInheritedDefaultMisreports()
    ensures var t := Node(0, Element(QName(None, "a", None), [], []), []);
            Bare(t, Some("")) && !BareUnderNonEmpty(t, Some(""))
  {
    var t := Node(0, Element(QName(None, "a", None), [], []), []);
    assert !BareUnderNonEmptyAny(t.kids, Some(""));
    assert BareName(t.kind);
  }

  /** The walk's answer is the promised one for every tree exactly when the
      inherited URI is not empty; `InheritedDefault` says for which trees else. */
  lemma {:induction false} WalkMeansNonEmptyDefault(inherited: Option<string>)
    ensures (forall t :: Bare(t, inherited) == BareUnderNonEmpty(t, inherited)) <==> inherited != Some("")
  {
    if inherited == Some("") {
      EmptyInheritedDefaultMisreports();
    } else {
      forall t ensures Bare(t, inherited) == BareUnderNonEmpty(t, inherited) { InheritedDefault(t, inherited); }
    }
  }

  // ------------------------------------------------------------------
  // The stack walk of validation
  // ------------------------------------------------------------------

  /** The names that change, each with its default, last child first. */
  function Changes(t: Tree, above: Option<string>): seq<(Id, string)>
    decreases t, 0
  {
    if !t.kind.Element? then []
    else
      var d := Inside(t.kind, above);
      OwnChange(t, d) + ChangesFromLast(t.kids, d)
  }

  function OwnChange(t: Tree, d: Option<string>): seq<(Id, string)> {
    if d.Some? && BareName(t.kind) then [(t.id, d.value)] else []
  }

  function ChangesFromLast(ts: seq<Tree>, d: Option<string>): seq<(Id, string)>
    decreases ts, 1
  {
    if ts == [] then [] else Changes(ts[|ts| - 1], d) + ChangesFromLast(ts[..|ts| - 1], d)
  }

  /** A validation walk that still has `todo` on its stack. */
  function ChangesOf(todo: seq<(Tree, Option<string>)>): seq<(Id, string)> {
    if todo == [] then []
    else Changes(todo[|todo| - 1].0, todo[|todo| - 1].1) + ChangesOf(todo[..|todo| - 1])
  }

  function WithDefault(ts: seq<Tree>, d: Option<string>): (r: seq<(Tree, Option<string>)>)
    ensures |r| == |ts| && forall i :: 0 <= i < |ts| ==> r[i] == (ts[i], d)
  {
    seq(|ts|, i requires 0 <= i < |ts| => (ts[i], d))
  }

  lemma {:induction false} PushChildren(todo: seq<(Tree, Option<string>)>, ts: seq<Tree>, d: Option<string>)
    ensures ChangesOf(todo + WithDefault(ts, d)) == ChangesFromLast(ts, d) + ChangesOf(todo)
    decreases |ts|
  {
    if ts == [] {
      assert todo + WithDefault(ts, d) == todo;
    } else {
      var front, last := ts[..|ts| - 1], ts[|ts| - 1];
      PairedLast(todo, ts, d);
      PushChildren(todo, front, d);
      Assoc(Changes(last, d), ChangesFromLast(front, d), ChangesOf(todo));
    }
  }

  lemma {:induction false} PairedLast(todo: seq<(Tree, Option<string>)>, ts: seq<Tree>, d: Option<string>)
    requires ts != []
    ensures var all, n := todo + WithDefault(ts, d), |ts| - 1;
      all != [] && all[..|all| - 1] == todo + WithDefault(ts[..n], d) && all[|all| - 1] == (ts[n], d)
  {
  }

  lemma {:induction false} Assoc<T>(x: seq<T>, y: seq<T>, z: seq<T>)
    ensures x + (y + z) == x + y + z
  {
  }

  function Tagged(ids: seq<Id>, d: Option<string>): (r: seq<(Id, Option<string>)>)
    ensures |r| == |ids| && forall i :: 0 <= i < |ids| ==> r[i] == (ids[i], d)
  {
    seq(|ids|, i requires 0 <= i < |ids| => (ids[i], d))
  }

  ghost function Work(todo: seq<(Tree, Option<string>)>): nat {
    if todo == [] then 0
    else |Preorder(todo[|todo| - 1].0)| + Work(todo[..|todo| - 1])
  }

  lemma {:induction false} WorkOfChildren(todo: seq<(Tree, Option<string>)>, ts: seq<Tree>, d: Option<string>)
    ensures Work(todo + WithDefault(ts, d)) == |PreorderAll(ts)| + Work(todo)
    decreases |ts|
  {
    var all := todo + WithDefault(ts, d);
    if ts == [] {
      assert all == todo;
    } else {
      var front, last := ts[..|ts| - 1], ts[|ts| - 1];
      WorkOfChildren(todo, front, d);
      assert all[..|all| - 1] == todo + WithDefault(front, d);
      assert front + [last] == ts;
      PreorderConcat(front, [last]);
      assert PreorderAll([last]) == Preorder(last);
    }
  }

  ghost predicate OnStack(a: Arena, stack: seq<(Id, Option<string>)>, todo: seq<(Tree, Option<string>)>) {
    && |stack| == |todo|
    && forall i :: 0 <= i < |todo| ==> Holds(a, todo[i].0) && stack[i] == (todo[i].0.id, todo[i].1)
  }

  lemma {:induction false} StackChildren(a: Arena, stack: seq<(Id, Option<string>)>, todo: seq<(Tree, Option<string>)>,
                      c: Tree, d: Option<string>)
    requires OnStack(a, stack, todo) && Holds(a, c)
    ensures OnStack(a, stack + Tagged(Ids(c.kids), d), todo + WithDefault(c.kids, d))
    ensures Work(todo + WithDefault(c.kids, d)) < |Preorder(c)| + Work(todo)
  {
    WorkOfChildren(todo, c.kids, d);
  }

  lemma {:induction false} VisitElement(done: seq<(Id, string)>, c: Tree, above: Option<string>, todo: seq<(Tree, Option<string>)>)
    requires c.kind.Element?
    ensures done + (Changes(c, above) + ChangesOf(todo))
         == (done + OwnChange(c, Inside(c.kind, above))) + ChangesOf(todo + WithDefault(c.kids, Inside(c.kind, above)))
  {
    PushChildren(todo, c.kids, Inside(c.kind, above));
  }

  method Qualify(k: Kind, id: Id, above: Option<string>, ghost c: Tree)
    returns (defaultNs: Option<string>, own: seq<(Id, string)>)
    requires k.Element? && c.id == id && c.kind == k
    ensures defaultNs == Inside(k, above) && own == OwnChange(c, defaultNs)
  {
    defaultNs, own := above, [];
    var declared := ScanDefault(k.decls);
    if declared.Some? {
      defaultNs := declared.value;
    }
    if k.name.prefix.None? && k.name.ns.None? {
      if defaultNs.Some? {
        own := [(id, defaultNs.value)];
      }
    }
  }

  lemma {:induction false} PopStack(a: Arena, stack: seq<(Id, Option<string>)>, todo: seq<(Tree, Option<string>)>, c: Tree, rest: seq<(Tree, Option<string>)>)
    requires OnStack(a, stack, todo) && stack != [] && c == todo[|stack| - 1].0 && rest == todo[..|stack| - 1]
    ensures Holds(a, c) && stack[|stack| - 1] == (c.id, todo[|stack| - 1].1) && OnStack(a, stack[..|stack| - 1], rest)
    ensures !c.kind.Element? ==> ChangesOf(todo) == ChangesOf(rest)
    ensures Work(todo) == |Preorder(c)| + Work(rest)
  {
  }

  method ValidationDefaultNames(a: Arena, root: Id, ghost t: Tree) returns (changes: seq<(Id, string)>)
    requires Wf(a) && Holds(a, t) && t.id == root
    ensures changes == Changes(t, None)
  {
    changes := [];
    var stack: seq<(Id, Option<string>)> := [(root, None)];
    ghost var todo: seq<(Tree, Option<string>)> := [(t, None)];
    assert ChangesOf(todo[..0]) == [] && ChangesOf(todo) == Changes(t, None);
    while stack != []
      invariant OnStack(a, stack, todo)
      invariant Changes(t, None) == changes + ChangesOf(todo)
      decreases Work(todo)
    {
      var top := |stack| - 1;
      var id, above := stack[top].0, stack[top].1;
      ghost var c, rest := todo[top].0, todo[..top];
      PopStack(a, stack, todo, c, rest);
      stack := stack[..top];
      if a.kind[id].Element? {
        var defaultNs, own := Qualify(a.kind[id], id, above, c);
        StackChildren(a, stack, rest, c, defaultNs);
        VisitElement(changes, c, above, rest);
        changes := changes + own;
        stack := stack + Tagged(Kids(a, id), defaultNs);
        todo := rest + WithDefault(c.kids, defaultNs);
      } else {
        todo := rest;
      }
    }
  }

  lemma {:induction false} ChangesIffBare(t: Tree, above: Option<string>)
    ensures Changes(t, above) != [] <==> Bare(t, above)
    decreases t, 0
  {
    if t.kind.Element? {
      ChangesIffBareAny(t.kids, Inside(t.kind, above));
    }
  }

  lemma {:induction false} ChangesIffBareAny(ts: seq<Tree>, d: Option<string>)
    ensures ChangesFromLast(ts, d) != [] <==> BareAny(ts, d)
    decreases ts, 1
  {
    if ts != [] {
      var front, last := ts[..|ts| - 1], ts[|ts| - 1];
      ChangesIffBare(last, d);
      ChangesIffBareAny(front, d);
      BareAnySplit(front, last, d);
      assert front + [last] == ts;
    }
  }

  lemma {:induction false} BareAnySplit(front: seq<Tree>, last: Tree, d: Option<string>)
    ensures BareAny(front + [last], d) <==> BareAny(front, d) || Bare(last, d)
  {
    if front == [] {
      assert front + [last] == [last] && [last][1..] == [];
    } else {
      assert (front + [last])[0] == front[0] && (front + [last])[1..] == front[1..] + [last];
      BareAnySplit(front[1..], last, d);
    }
  }

  /** The serialization check and the validation list agree when nothing is
      inherited: the check succeeds exactly when the list is non-empty. */
  method CheckAgreesWithValidation(a: Arena, root: Id, ghost t: Tree) returns (found: bool, changes: seq<(Id, string)>)
    requires Wf(a) && Holds(a, t) && t.id == root
    ensures found <==> changes != []
    ensures found <==> BareUnderNonEmpty(t, None)
  {
    found := HasBareNameUnderDefaultNamespace(a, root, None, t);
    changes := ValidationDefaultNames(a, root, t);
    ChangesIffBare(t, None);
    InheritedDefault(t, None);
  }
}
