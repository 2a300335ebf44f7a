/** The edits that expansion makes, on the document: removing a child, setting a
    text or a tail and inserting an element are the list updates of `XInclude`. */
module XIncludeEdits {
  import opened Prelude
  import opened Arena
  import opened Dom
  import opened Siblings
  import opened SiblingEdits
  import opened PairEdits
  import opened SubtreeCopy
  import opened NewElements
  import opened Adoption
  import opened Placement
  import opened Slices
  import opened TextTail
  import XInclude

  function OrEmpty(s: Option<string>): string {
    if s.Some? then s.value else ""
  }

  /** A pair of the sibling list and the item it is read as. */
  ghost predicate ShowsItem(kind: Kinds, nodes: map<Id, XInclude.Node>, pr: Pair, item: XInclude.Item) {
    pr.node in nodes && item.node == nodes[pr.node] && item.tail == OrEmpty(RunText(kind, pr.tail))
  }

  ghost predicate ShowsItems(kind: Kinds, nodes: map<Id, XInclude.Node>, ps: seq<Pair>, items: seq<XInclude.Item>) {
    |items| == |ps| && forall i :: 0 <= i < |ps| ==> ShowsItem(kind, nodes, ps[i], items[i])
  }

  /** The leading text and the children of `p` with their tails read as `text` and
      `items`, where the subtrees of the children read as `nodes` tells. */
  ghost predicate Shows(a: Arena, p: Id, nodes: map<Id, XInclude.Node>, text: string, items: seq<XInclude.Item>) {
    text == OrEmpty(LeadText(a, p)) && ShowsItems(a.kind, nodes, Children(a, p), items)
  }

  // ------------------------------------------------------------------
  // Texts that stay
  // ------------------------------------------------------------------

  lemma {:induction false} SameText(kind: Kinds, kind': Kinds, run: seq<Id>)
    requires forall i :: 0 <= i < |run| ==> run[i] in kind && run[i] in kind' && kind'[run[i]] == kind[run[i]]
    ensures RunText(kind', run) == RunText(kind, run)
  {
    SameJoined(kind, kind', run);
  }

  lemma {:induction false} SameJoined(kind: Kinds, kind': Kinds, run: seq<Id>)
    requires forall i :: 0 <= i < |run| ==> run[i] in kind && run[i] in kind' && kind'[run[i]] == kind[run[i]]
    ensures Joined(kind', run) == Joined(kind, run)
  {
    if run != [] { SameJoined(kind, kind', run[1..]); }
  }

  /** A document whose known nodes keep their kinds shows its lists as before. */
  lemma {:induction false} KindsKept(a: Arena, kind: Kinds, p: Id, nodes: map<Id, XInclude.Node>, items: seq<XInclude.Item>)
    requires Wf(a) && ShowsItems(a.kind, nodes, Children(a, p), items)
    requires forall x :: x in a.kind ==> x in kind && kind[x] == a.kind[x]
    ensures RunText(kind, Lead(a, p)) == LeadText(a, p) && ShowsItems(kind, nodes, Children(a, p), items)
  {
    RunIsText(a.kind, Kids(a, p));
    assert forall j :: 0 <= j < |Lead(a, p)| ==> IsText(a.kind, Lead(a, p)[j]);
    SameText(a.kind, kind, Lead(a, p));
    Rebuilt(a.kind, Kids(a, p));
    forall i | 0 <= i < |items| ensures ShowsItem(kind, nodes, Children(a, p)[i], items[i]) {
      assert forall j :: 0 <= j < |Children(a, p)[i].tail| ==> IsText(a.kind, Children(a, p)[i].tail[j]);
      SameText(a.kind, kind, Children(a, p)[i].tail);
    }
  }

  // ------------------------------------------------------------------
  // The four edits
  // ------------------------------------------------------------------

  /** `parent.remove(child)`: one item goes. */
  lemma {:induction false} RemovedShown(a: Arena, b: Arena, p: Id, nodes: map<Id, XInclude.Node>, text: string, items: seq<XInclude.Item>, idx: nat)
    requires Wf(a) && p in a.kids && Shows(a, p, nodes, text, items) && idx < |items|
    requires Dropped(a, b, {Children(a, p)[idx].node})
    ensures Shows(b, p, nodes, text, items[..idx] + items[idx + 1..])
  {
    var cs := Children(a, p);
    assert Loses(a, b, p, {cs[idx].node});
    DistinctChildren(a, p);
    KeepOne(cs, idx);
    KindsKept(a, b.kind, p, nodes, items);
    ItemsWithout(b.kind, nodes, cs, items, idx);
  }

  lemma {:induction false} ItemsWithout(kind: Kinds, nodes: map<Id, XInclude.Node>, ps: seq<Pair>, items: seq<XInclude.Item>, k: nat)
    requires ShowsItems(kind, nodes, ps, items) && k < |ps|
    ensures ShowsItems(kind, nodes, ps[..k] + ps[k + 1..], items[..k] + items[k + 1..])
  {
  }

  /** `el.text = value`. */
  lemma {:induction false} TextShown(a: Arena, b: Arena, p: Id, added: seq<Id>, value: Option<string>,
                                     nodes: map<Id, XInclude.Node>, text: string, items: seq<XInclude.Item>)
    requires Wf(a) && p in a.kids && Shows(a, p, nodes, text, items) && RunSet(a, b, p, 0, Lead(a, p), added, value)
    ensures Shows(b, p, nodes, OrEmpty(value), items)
  {
    TextPut(a, b, p, added, value);
    TextLeavesStrings(a, b, p, added, value, p);
  }

  /** `child.tail = value`. */
  lemma {:induction false} TailShown(a: Arena, b: Arena, p: Id, idx: nat, added: seq<Id>, value: Option<string>,
                                     nodes: map<Id, XInclude.Node>, text: string, items: seq<XInclude.Item>)
    requires Wf(a) && p in a.kids && Shows(a, p, nodes, text, items) && idx < |items|
    requires TailSet(a, b, Children(a, p)[idx].node, added, value)
    ensures Shows(b, p, nodes, text, items[idx := XInclude.Item(items[idx].node, OrEmpty(value))])
  {
    TailPut(a, b, p, idx, added, value);
    TailLeavesStrings(a, b, p, idx, added, value, p, idx);
    forall j | 0 <= j < |items| && j != idx ensures ShowsItem(b.kind, nodes, Children(a, p)[j], items[j]) {
      TailLeavesStrings(a, b, p, idx, added, value, p, j);
    }
    var pr := Children(a, p)[idx];
    ItemChanged(b.kind, nodes, Children(a, p), items, idx, Pair(pr.node, added), XInclude.Item(items[idx].node, OrEmpty(value)));
  }

  lemma {:induction false} ItemChanged(kind: Kinds, nodes: map<Id, XInclude.Node>, ps: seq<Pair>, items: seq<XInclude.Item>, k: nat, pr: Pair, item: XInclude.Item)
    requires |items| == |ps| && k < |ps| && ShowsItem(kind, nodes, pr, item)
    requires forall j :: 0 <= j < |ps| && j != k ==> ShowsItem(kind, nodes, ps[j], items[j])
    ensures ShowsItems(kind, nodes, ps[k := pr], items[k := item])
  {
  }

  /** `parent.insert(i, child)` of an element `x` that is not a child already. */
  lemma {:induction false} InsertedShown(k: Intake, a: Arena, b: Arena, p: Id, el: NewEl, i: nat, x: XInclude.Node,
                                         nodes: map<Id, XInclude.Node>, text: string, items: seq<XInclude.Item>)
    requires k.Of(a, [el]) && p in a.kids && Shows(a, p, nodes, text, items) && i <= |items| && k.prs[0].node !in nodes
    requires Assigned(k, b, p, Children(a, p)[..i] + k.prs + Children(a, p)[i..])
    ensures var item := XInclude.Item(x, OrEmpty(RunText(b.kind, k.prs[0].tail)));
      Shows(b, p, nodes[k.prs[0].node := x], text, items[..i] + [item] + items[i..])
  {
    var cs, more, item := Children(a, p), nodes[k.prs[0].node := x], XInclude.Item(x, OrEmpty(RunText(b.kind, k.prs[0].tail)));
    KindsKept(a, b.kind, p, nodes, items);
    assert k.prs == [k.prs[0]];
    forall j | 0 <= j < |items| ensures ShowsItem(b.kind, more, cs[j], items[j]) {
      assert ShowsItem(b.kind, nodes, cs[j], items[j]);
    }
    ItemsAround(b.kind, more, cs, items, i, k.prs[0], item);
  }

  lemma {:induction false} ItemsAround(kind: Kinds, nodes: map<Id, XInclude.Node>, ps: seq<Pair>, items: seq<XInclude.Item>, i: nat, pr: Pair, item: XInclude.Item)
    requires ShowsItems(kind, nodes, ps, items) && i <= |ps| && ShowsItem(kind, nodes, pr, item)
    ensures ShowsItems(kind, nodes, ps[..i] + [pr] + ps[i..], items[..i] + [item] + items[i..])
  {
  }
}
