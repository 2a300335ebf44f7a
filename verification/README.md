# A verified model of pyuppsala's tree binding

pyuppsala puts an lxml-style element API on top of an arena DOM. This project
models the algorithms that the binding adds to that DOM and proves what they are
for. The DOM itself is an arena of numbered nodes, each with a kind, an ordered
list of children and a parent (`Arena`, `Dom`); everything else is built on it.

| part | modules | main results |
|---|---|---|
| walks | `DescendantWalk`, `WalkOrder`, `BareNames`, `DefaultScope` | the explicit-stack walk and its batched iterator hand out the wanted nodes in document order without repeats; the scope-unwinding pointer walk and the validation walk answer what the nearest `xmlns` on the path to each element says |
| namespaces | `Declarations`, `NamespaceScope`, `StartTag`, `Standalone`, `Prefixes` | four scope computations, with contents and order, and exactly when they agree; a splice into the start tag reparses to the intended declarations; generated prefixes are new; reused ones resolve exactly if they are not shadowed |
| incremental parsing | `ParseOptions`, `RewriteMeaning`, `Replay`, `EventRoundTrip`, `ReplayArena`, `IterParse`, `YieldOrder`, `Iteration`, `PostParse`, `ReplayAgrees` | options applied while building and options applied afterwards give the same tree, which shows what the options ask for; an iteration hands out what one walk over the built tree reports |
| wrapper identity | `ProxyCache`, `ProxyHolder`, `LockStep`, `Repoint` | one wrapper per node over every run, an amortised sweep bound, and wrappers that follow a moved subtree to the node at the same child path |
| sibling lists | `Siblings`, `SiblingEdits`, `PairEdits`, `SubtreeCopy`, `NewElements`, `Adoption`, `Placement`, `PythonSlices`, `Slices`, `ExtendedTerms`, `ExtendedSlices`, `ExtendedPlan`, `SliceAssignment`, `PlacedCopies`, `ElementEdits`, `SwapPlan`, `Replacing`, `TextTail` | slice assignment is list assignment on (child, tail) pairs exactly under a stated condition; text and tail obey get-after-put |
| moves between documents | `CrossDocument`, `CloneState`, `Clones` | copy, wrappers and detaching in one statement: markup, attributes and text are kept, every wrapper follows, and every name keeps its namespace |
| XInclude | `XInclude`, `XIncludeMarkup`, `XIncludeEdits` | the in-place loop computes a recursive meaning that always terminates; written out, its result is the original with every include replaced in place, and no other tree is written out so |
| concurrency | `Locking`, `ParseMany` | no reachable deadlock, with every document locked while it is worked on; the batch parser equals parsing one by one |

Conventions. A `method` follows the code step by step and is proved against a
function or predicate; lemmas then say what that function or predicate means.
Ghost parameters named `t`, `st`, `dt` are the trees that an arena holds (`Holds`
ties them to it, and being finite they rule out cycles), `chain` is an element
followed by its element ancestors, `a0` is the arena before an operation, and `k` is
what an operation has taken in (`NewElements.Intake`: the copies that were made, as
they stood before anything was moved, and the pairs that came of the new elements).

Where a promise does not hold of the code for all inputs, the code is modelled as it
is, one lemma shows inputs on which it fails, and another says exactly when it
holds:

* The serialization check treats an inherited default namespace given as the empty
  string as a default namespace, while the declarations inside the tree are read the
  other way: `BareNames.EmptyInheritedDefaultMisreports`, `BareNames.WalkMeansNonEmptyDefault`;
  for a single tree `BareNames.InheritedDefault` says what the empty string adds.
* Reusing a prefix of an ancestor can pick one that a nearer ancestor binds
  otherwise: `Prefixes.ShadowedReuse`, `Prefixes.ReusedPrefixResolves`.
* With no parse option on, replay merges adjacent text and the post-parse pass does
  not: `Replay.OptionsOffDiffer`, `Replay.ReplayEqualsRewriting`.
* A simple slice whose start lies behind its stop inserts at the stop, where a list
  inserts at the start: `SliceAssignment.ReversedBoundsDiffer`, `Slices.SimpleSliceIsListSlice`.
* An extended slice with a negative step places elements that share an anchor in the
  order of iteration: `SliceAssignment.ReversingStepDiffers`,
  `ExtendedSlices.AnchorsDoListAssignment`.
* When an element declares a prefix twice, the nsmap dict and the outermost-first list
  keep the last URI, the nearest-first and the validation list the first:
  `NamespaceScope.RepeatedPrefixDisagrees`. The four agree exactly if no element that
  is the nearest to declare a prefix gives it different URIs first and last:
  `NamespaceScope.FourRoutinesAgree`. The edits that declare namespaces keep the
  prefixes of an element distinct: `Prefixes.DeclaringKeepsDistinct`, `Declarations.Standalone`.
* Leaving early when a tree has no include spares deep trees an error that the walk
  would raise: `XInclude.WithoutIncludes`. An include that is the root of an included
  document stays: `XInclude.IncludedRootStays`, `XInclude.RemainingIncludes`.

## Model

| member | source | states |
|---|---|---|
| `Dom.Document.Detach` | src/lib.rs:4696-4704 | the node leaves its parent's child list and nothing else changes; the arena stays well formed |
| `Dom.Document.RemoveChild` | src/lib.rs:4663-4672 | a child of the given parent is detached |
| `Dom.Document.AppendChild` | src/lib.rs:4490-4499 | a detached node becomes the last child |
| `Dom.Document.InsertBefore` | src/lib.rs:4631-4641 | a detached node is put right before a child |
| `Dom.Document.InsertAfter` | src/lib.rs:4647-4657 | a detached node is put right after a child |
| `DescendantWalk.AdvanceDescWalk` | src/lib.rs:3352-3374 | one call takes the next match off the pre-order that the stack still stands for, and gives none only when no match is left |
| `DescendantWalk.DescendantIterator.Next` | src/lib.rs:3377-3394 | each step hands out the head of the remaining sequence |
| `DescendantWalk.ProxyDescendantIterator.Next` | src/lib.rs:3425-3476 | buffering up to 128 ids at a time does not change what is handed out next |
| `DescendantWalk.DrainSingle` | src/lib.rs:3341-3394 | iterating to the end from one node gives exactly the filtered recursive pre-order of its subtree, with no node twice |
| `DescendantWalk.DrainBatched` | src/lib.rs:3410-3476 | so does the batched iterator on an unchanged tree |
| `DescendantWalk.WalkWithoutRepeats` | src/lib.rs:3352-3374 | the filtered pre-order names no node twice |
| `WalkOrder.WalkInDocumentOrder` | src/lib.rs:3226-3374 | a node is handed out exactly if a child path leads to it and the filter wants its kind, namespace and local name, and of two nodes the one whose path comes first in document order comes first |
| `BareNames.HasBareNameUnderDefaultNamespace` | src/lib.rs:1522-1597 | the first-child/next-sibling/parent walk with its unwinding scope stack ends on every tree and answers what a recursion over the tree answers |
| `BareNames.LeaveNode` | src/lib.rs:1575-1595 | unwinding restores the default namespace of the level that the cursor arrives at, and what is left to visit is unchanged |
| `BareNames.WalkMeansNonEmptyDefault` | src/lib.rs:1522-1597 | the answer means, for every tree, a bare name under a non-empty default namespace exactly when the inherited default is not the empty string; what the default is at an element is said by `DefaultScope.WalksReadPaths` |
| `BareNames.InheritedDefault` | src/lib.rs:1522-1597 | for each tree: the answer is that, or else an empty inherited default that some bare name still sees |
| `BareNames.EmptyInheritedDefaultMisreports` | src/lib.rs:1522-1532 | a tree for which an empty inherited default is taken for a namespace |
| `BareNames.ValidationDefaultNames` | src/lib.rs:390-418 | the stack walk collects, in its order, every element whose bare name a non-empty default namespace qualifies, with that namespace |
| `BareNames.ChangesIffBare` | src/lib.rs:390-418 | the list is non-empty exactly when the recursive check finds such an element |
| `BareNames.CheckAgreesWithValidation` | src/lib.rs:1522-1597 | with nothing inherited the serialization check succeeds exactly when the validation list is non-empty |
| `DefaultScope.DefaultIsLastDeclared` | src/lib.rs:1547-1558 | an element puts in effect the default of its last `xmlns`: none without one, a reset for an empty URI |
| `DefaultScope.OwnDefaultDecides` | src/lib.rs:1547-1567 | below an element with `xmlns=""` check and list are those of no default at all, below one with `xmlns="u"` those of `u`, whatever is inherited |
| `DefaultScope.WalksReadPaths` | src/lib.rs:390-418 | the list has an element with a URI, and the check succeeds, exactly if a path of elements leads to a name without prefix and namespace and the nearest `xmlns` on that path, or else what is inherited, is that URI and is not reset |
| `DefaultScope.ListedOnce` | src/lib.rs:390-418 | no element of a document is listed twice |
| `NamespaceScope.InheritedDeclarationsNearestFirst` | src/lib.rs:3080-3106 | the inherited list binds each prefix that the element does not declare as the first declaration of its nearest declaring ancestor does, each once, in the order in which they are met going up |
| `NamespaceScope.ValidationDeclarations` | src/lib.rs:5087-5106 | the same with the element's own declarations: every prefix in scope, once, as resolution binds it, in the order going up |
| `NamespaceScope.InheritedNamespaceDeclarations` | src/lib.rs:6567-6606 | the outermost-first list binds each prefix that the element does not declare as the last declaration of its nearest declaring ancestor does, each once, at the place where the outermost ancestor first declares it |
| `NamespaceScope.Nsmap` | src/lib.rs:1175-1207 | the pairs are all declarations, outermost element first, and read as a dict, with `None` for the default namespace, they map a prefix to the last URI of the nearest element that declares it |
| `NamespaceScope.FourRoutinesAgree` | src/lib.rs:1175-1207 | for every arena and element: dict and outermost-first list are one map, nearest-first and validation list another, the outermost-first list has the order of the dict, and all four are one map exactly if for every prefix the nearest element that declares it gives it the same URI first and last |
| `Declarations.Standalone` | src/lib.rs:3080-3106 | declaring the inherited list beside the own one makes an element resolve every prefix without its ancestors, and keeps its prefixes distinct |
| `Declarations.OrderDetermines` | src/lib.rs:3075-3079 | bindings and order together leave one list only |
| `Declarations.FoundNearest` | src/lib.rs:1175-1207 | resolution reads the nearest level that declares the prefix, its first or its last declaration (`Declarations.FoundFirst`, `Declarations.FoundLast`) |
| `Declarations.DistinctGiveOneUri` | src/lib.rs:1175-1207 | elements that declare no prefix twice meet the condition for agreement |
| `NamespaceScope.RepeatedPrefixDisagrees` | src/lib.rs:1175-1207 | in any arena, an element whose first and last declaration of a prefix differ breaks the condition, and the two maps differ on that prefix |
| `NamespaceScope.RepeatedPrefix` | src/lib.rs:1175-1207 | an arena with such an element |
| `StartTag.PushEscapedAttrValue` | src/lib.rs:6645-6657 | appends the escaped value to what was there |
| `StartTag.EscapeRoundTrip` | src/lib.rs:6645-6657 | an escaped value normalizes (section 3.3.3 of XML 1.0) back to itself, whatever characters it has |
| `StartTag.EscapeUnquoted` | src/lib.rs:6645-6657 | an escaped value has no quotation mark and no less-than sign that could end it |
| `StartTag.TagRoundTrip` | src/lib.rs:6617-6641 | a rendered start tag parses to itself, with the text after it untouched |
| `StartTag.TagParsed` | src/lib.rs:6617-6641 | every text that parses as a start tag is the rendering of what it parses to |
| `StartTag.OpenTagEnd` | src/lib.rs:6617-6641 | the quote-aware scan stops at the first close that is outside quotes |
| `StartTag.ScanFindsClose` | src/lib.rs:6617-6641 | on every well-formed start tag that place is right before its closing `>` or `/>` |
| `StartTag.WriteDeclarations` | src/lib.rs:6546-6556 | the declarations are written as attributes in order |
| `StartTag.SpliceDeclarations` | src/lib.rs:6535-6561 | the spliced text parses to the same name, the original attributes in order and then exactly the missing declarations with their URIs, and all later text is unchanged |
| `Standalone.SerializeStandalone` | src/lib.rs:6535-6606 | read back on its own, the text gives the element every binding that its nsmap has in the document, and no attribute name occurs twice |
| `Prefixes.DecimalReadsBack` | python/pyuppsala/etree.py:454-456 | the printed counter denotes the counter |
| `Prefixes.DecimalInjective` | python/pyuppsala/etree.py:454-456 | different counters print differently |
| `Prefixes.GeneratedInjective` | python/pyuppsala/etree.py:454-456 | different counters give different prefixes |
| `Prefixes.DocHolder.NewPrefix` | python/pyuppsala/etree.py:438-458 | the loop ends for every set of prefixes in scope, with a prefix that neither the node nor an ancestor declares and that this holder has not given out before |
| `Prefixes.DocHolder.FinalizeElementNs` | python/pyuppsala/etree.py:633-660 | a declared prefix is the element's own one or else the registry's, and one is generated only where there is neither; it resolves to the element's namespace and leaves every other prefix alone, and with a generated one every prefix in scope resolves as before; a reused one resolves to it exactly if it is not shadowed |
| `Prefixes.ReusedPrefixResolves` | python/pyuppsala/etree.py:641-653 | a reused prefix resolves to the namespace exactly if no nearer level binds it and its own level does not bind it otherwise before, which distinct prefixes rule out |
| `Prefixes.NearestIsReused` | python/pyuppsala/etree.py:641-653 | the nearest element that declares the namespace usably is taken and its first such declaration; the default namespace serves only a name without a prefix |
| `Prefixes.NothingToReuse` | python/pyuppsala/etree.py:641-653 | where no element declares it usably, none is reused |
| `Prefixes.ShadowedReuse` | python/pyuppsala/etree.py:641-653 | scopes in which the reused prefix is shadowed and resolves to another namespace |
| `Prefixes.DeclaringKeepsDistinct` | src/lib.rs:4594-4624 | setting a declaration never makes a prefix occur twice |
| `ParseOptions.EraseAfter` | src/lib.rs:3243-3331 | removal, conversion and coalescing do not depend on node numbers |
| `ParseOptions.RewritingChangesNothing` | src/lib.rs:3300-3331 | with no option on, rewriting changes a tree exactly if two of its text nodes touch |
| `RewriteMeaning.RewritingShows` | src/lib.rs:3243-3331 | written out in document order, the rewritten tree is the original without comments and instructions where those are removed and with CDATA sections as characters where those are converted, and no two of its text nodes touch |
| `PostParse.StripChildren` | src/lib.rs:3251-3293 | one turn of the first walk leaves exactly the kept and converted children, in place, and stacks its elements |
| `PostParse.CoalesceChildren` | src/lib.rs:3300-3331 | one turn of the second walk merges each run of text nodes into its first node |
| `PostParse.RewriteSubtree` | src/lib.rs:3252-3298 | the stack walk, in whatever order it visits, turns the whole subtree into its recursive rewriting |
| `PostParse.PostprocessParseOptions` | src/lib.rs:3243-3298 | afterwards the document holds the rewritten tree, or the old one when no option is on |
| `ReplayArena.AppendLeaf` | src/lib.rs:3881-3901 | appending a node under the innermost open element keeps the arena a picture of the build, for every completed and every open subtree |
| `ReplayArena.AppendOpen` | src/lib.rs:3903-3921 | so does opening an element |
| `ReplayArena.ExtendText` | src/lib.rs:3864-3870 | so does extending the last text node |
| `IterParse.IterParseState.ExtendLastText` | src/lib.rs:3857-3880 | merges into the last child exactly if that is a text node |
| `IterParse.IterParseState.ReplayEvent` | src/lib.rs:3940-4009 | one event changes document, stack and queue as the abstract build prescribes, and fails exactly on an unmatched end |
| `IterParse.IterParseState.NextDetached` | src/lib.rs:3923-4014 | batched replay hands out, in order, exactly the yields of the events replayed so far; what they are is said by `YieldOrder.YieldsReport` and `Iteration.NamespacesAsTheyCome` |
| `YieldOrder.YieldsReport` | src/lib.rs:3940-4009 | after any number of events the nodes handed out are what one walk over the part built so far reports: wanted elements when they start and, once closed, when they end, kept comments and instructions in place |
| `Iteration.IterationWalksTree` | src/lib.rs:3940-4009 | over a balanced stream the starts are the wanted elements of the built tree in document order, the ends the same in post-order, comments and instructions in document order, and a sort that was not asked for gives none |
| `Iteration.HandedOutOnce` | src/lib.rs:3940-4009 | no node is handed out twice as the same sort |
| `Iteration.NamespacesAsTheyCome` | src/lib.rs:3941-3950 | the namespace yields are the bindings, and as many ends, as the events have, in their order, or none |
| `Iteration.InEventOrder` | src/lib.rs:3928-4014 | each event adds at most one yield, after those of the events before it |
| `Iteration.NamespacedTag` | src/lib.rs:3831-3853 | `{u}l` selects exactly the local name `l` in namespace `u`, `{}l` that in no namespace |
| `Iteration.PlainTag` | src/lib.rs:3831-3853 | a tag without braces selects exactly that local name in no namespace |
| `Iteration.AnyTag` | src/lib.rs:3831-3838 | no filter and `*` let every element pass |
| `Replay.ReplayEqualsRewriting` | src/lib.rs:3856-4014 | for every balanced stream and option choice the replayed root is the plainly built root after removal, conversion and coalescing; it equals the post-parse result exactly if an option is on or no two text nodes touch |
| `Replay.OptionsOffDiffer` | src/lib.rs:3856-4014 | any two adjacent text events with all options off: replay merges them, the plain build does not |
| `EventRoundTrip.PlainBuildIsInverse` | src/lib.rs:3856-4014 | building from the events of a tree gives that tree again, with names, attributes, declarations and text |
| `ReplayAgrees.ReplayAll` | src/lib.rs:3923-4014 | driven to the end, the replay has handed out what one walk over the built document reports, sort by sort, each node once, with the namespace events of the stream, and its document holds the replayed root |
| `ReplayAgrees.BothParsersAgree` | src/lib.rs:3243-4014 | the two documents hold equal root subtrees, up to node numbers, exactly under that condition |
| `ProxyCache.SweepKeeps` | src/lib.rs:2601-2640 | a sweep keeps every coupling of the four fields and every live wrapper, drops every dead one, and re-arms at the larger of 4096 and twice the live |
| `ProxyCache.RemoveKeeps` | src/lib.rs:2642-2649 | emptying a slot keeps the coupling and loses that one wrapper only |
| `ProxyCache.InsertKeeps` | src/lib.rs:2651-2664 | filling a slot tracks it once and counts it once |
| `ProxyCache.LookupKeeps` | src/lib.rs:2739-2782 | after every lookup the entry count is strictly below the threshold |
| `ProxyCache.RunsKeepTheCache` | src/lib.rs:2600-2664 | over every run of lookups, removals, sweeps and deaths from a new cache: entries equal occupied slots, tracked ids are distinct and match the membership bits, occupied slots are tracked, both vectors have one length |
| `ProxyCache.IdentityIsStable` | src/lib.rs:2739-2782 | once a wrapper was returned for a node, every later lookup of that node returns it while it lives and is not removed |
| `ProxyCache.SweepsAreAmortised` | src/lib.rs:2773-2780 | over every run of lookups and deaths from a new cache the slots visited by sweeps number at most twice the misses |
| `ProxyHolder.DocHolderBase.SweepDead` | src/lib.rs:2601-2640 | the in-place sweep computes the abstract one: live wrappers stay where they are, the count is their number |
| `ProxyHolder.DocHolderBase.InsertProxySlot` | src/lib.rs:2651-2664 | padding, counting and tracking as the abstract insertion prescribes |
| `ProxyHolder.DocHolderBase.RemoveProxySlot` | src/lib.rs:2642-2649 | returns what the slot held and empties it |
| `ProxyHolder.DocHolderBase.ProxyForId` | src/lib.rs:2739-2782 | the live wrapper of the node if there is one, else a new one; every other node keeps its wrapper |
| `LockStep.CollectPairs` | src/lib.rs:2877-2890 | the stack walk over two arenas collects the recursive pairing of the two trees |
| `LockStep.PairsAreSamePaths` | src/lib.rs:2877-2890 | two nodes are paired exactly if one path of child positions leads to both |
| `LockStep.EveryNodePaired` | src/lib.rs:2877-2890 | on trees of one shape every node of either tree is paired |
| `LockStep.ZipInjective` | src/lib.rs:2877-2890 | and no node is paired twice |
| `ProxyHolder.DocHolderBase.MoveProxy` | src/lib.rs:2895-2915 | a live wrapper changes cache, holder, document and id together; a dead one is dropped |
| `ProxyHolder.DocHolderBase.MovedEarlyExit` | src/lib.rs:2916-2920 | when the source cache is empty no later pair has a wrapper to move |
| `Repoint.RepointSubtree` | src/lib.rs:2830-2923 | every live wrapper of the source subtree becomes the wrapper of its target, all others stay, both caches stay sound, the number of live wrappers is conserved, and still only known nodes have live wrappers |
| `Repoint.MovedAlongPaths` | src/lib.rs:2830-2923 | the wrapper of the node at a child path becomes the wrapper of the clone's node at the same path |
| `Repoint.CloneCanBeRepointed` | python/pyuppsala/etree.py:1123-1125 | an imported clone meets what re-pointing asks for |
| `LockStep.EqualAtEveryPath` | src/lib.rs:4516-4556 | a copy is equal to its original exactly if both have the same markup or text at every child path |
| `Siblings.Rebuilt` | python/pyuppsala/etree.py:461-515 | every sibling list is its leading text followed by its pairs |
| `Siblings.Taken` | python/pyuppsala/etree.py:461-515 | and is taken apart into exactly those |
| `Siblings.ChildrenByKind` | python/pyuppsala/etree.py:461-515 | the children among the siblings are those that are neither text nor CDATA |
| `SiblingEdits.FollowingTextRun` | python/pyuppsala/etree.py:484-486 | the cursor loop returns the whole run of text and CDATA after a node |
| `SiblingEdits.Extract` | python/pyuppsala/etree.py:568-582 | the node and its tail run leave their parent, and the run is returned |
| `SiblingEdits.Attach` | python/pyuppsala/etree.py:585-591 | node and tail run are put in as one segment, before the reference or last |
| `SiblingEdits.AttachTail` | python/pyuppsala/etree.py:495-500 | the run goes right after its node, in order |
| `PairEdits.ExtractedDrops` | python/pyuppsala/etree.py:568-582 | extraction removes exactly that pair; leading text, all other pairs and all other sibling lists stay |
| `PairEdits.DroppedTail` | python/pyuppsala/etree.py:568-582 | a child that was not taken out keeps its tail and its parent |
| `PairEdits.SplicedView` | python/pyuppsala/etree.py:585-591 | attaching adds exactly one pair at the anchor's place |
| `SubtreeCopy.CopySubtree` | src/lib.rs:4516-4556 | the copy equals the original, is detached, and is made of new nodes; the rest of the document is untouched |
| `NewElements.NextNode` | python/pyuppsala/etree.py:1092-1105 | an element that lay inside an earlier foreign one is by then a node of the copy, none of those taken in before |
| `NewElements.OldNodes` | python/pyuppsala/etree.py:1016-1017 | of the nodes that the document had before, exactly the listed ones are taken in |
| `Adoption.Adopt` | python/pyuppsala/etree.py:1092-1105 | the next new element is detached and ready with its tail: an own one, a copy of a foreign one, or the copy's node for one whose wrapper was re-pointed by an earlier copy; earlier ones stay ready |
| `Adoption.AdoptAll` | python/pyuppsala/etree.py:1016-1016 | after adopting all new elements every sibling list, in the document and in the copies, has lost exactly the moved pairs, and all that was adopted can be attached |
| `Placement.DropUnused` | python/pyuppsala/etree.py:1019-1021 | exactly the selected children that are not used again leave |
| `Placement.PlaceStep` | python/pyuppsala/etree.py:1033-1034 | placing one pair puts it between what stands before the anchor and the anchor |
| `Slices.SetSimpleSlice` | python/pyuppsala/etree.py:1012-1034 | leading text stays; the children become those before the smaller bound, the new elements with their tails, those from the stop on, without the moved ones in either part; other sibling lists, here and in the copies, lose just the moved pairs |
| `Slices.SimpleSliceIsListSlice` | python/pyuppsala/etree.py:1025-1032 | that is list slice assignment exactly if start is at most stop, or nothing is assigned, or every child between the bounds moves |
| `ExtendedSlices.PlaceOne` | python/pyuppsala/etree.py:985-1009 | the next new element lands right before its captured anchor |
| `ExtendedSlices.AnchorsDoListAssignment` | python/pyuppsala/etree.py:968-1010 | the outcome is list assignment exactly if new elements that share an anchor come in the order of their positions |
| `ExtendedSlices.StepDecides` | python/pyuppsala/etree.py:972-1010 | so it always is for a positive step, and for a negative one exactly if no two slots share an anchor |
| `PythonSlices.Positions` | python/pyuppsala/etree.py:965-972 | the positions of a slice lie within the children and rise or fall with the step |
| `PythonSlices.SliceTakes` | python/pyuppsala/etree.py:965-972 | a slice takes a position exactly if it is at or after the start and before the stop, in the direction of the step and with negative bounds counted from the end, and a whole number of steps from the first position taken, which is the one nearest to the start |
| `PythonSlices.PlainBounds` | python/pyuppsala/etree.py:965-965 | with step 1 the two bounds are exactly where the selected positions start and stop |
| `SliceAssignment.SelectionTakes` | python/pyuppsala/etree.py:972-978 | the slots of an extended slice are exactly those positions |
| `SliceAssignment.FindSlotAnchor` | python/pyuppsala/etree.py:987-993 | the anchor is the first following child that is neither a target nor moves |
| `SliceAssignment.SetExtendedSlice` | python/pyuppsala/etree.py:994-1010 | the document ends up with the layout that the anchors prescribe; other sibling lists lose just the moved pairs |
| `SliceAssignment.SetSlice` | python/pyuppsala/etree.py:962-1034 | a value error, with nothing changed, exactly on a zero step or a length mismatch; otherwise the children that bounds and anchors prescribe, and that they are what a Python list would give exactly under a condition on the arguments |
| `SliceAssignment.PlainSlice` | python/pyuppsala/etree.py:1012-1034 | with bounds in order, what lies before the start stays in front of the new elements and what lies at or after the stop stays behind them |
| `SliceAssignment.FromTheEnd` | python/pyuppsala/etree.py:1012-1034 | `el[-k:] = els` keeps all but the last `k` children and puts the new ones last |
| `PlacedCopies.CopiesInPlace` | python/pyuppsala/etree.py:1092-1129 | after any of these assignments the document holds an equal copy of every foreign element, without the inner elements that the list moved out of it |
| `SliceAssignment.ReversedBoundsDiffer` | python/pyuppsala/etree.py:1025-1032 | a slice with start behind stop that differs from a list |
| `SliceAssignment.ReversingStepDiffers` | python/pyuppsala/etree.py:1008-1009 | a reversing slice that differs from a list |
| `ElementEdits.Insert` | python/pyuppsala/etree.py:1141-1153 | the element goes before exactly the children, counted after it has left its old place, that lie at or after the index, a negative one counting from the end |
| `ElementEdits.InsertionPoint` | python/pyuppsala/etree.py:1146-1152 | the clamped index is the one place with that property |
| `ElementEdits.Append` | python/pyuppsala/etree.py:1131-1134 | the element and its tail become the last pair |
| `ElementEdits.RemoveElement` | python/pyuppsala/etree.py:1155-1159 | refused unless a child; otherwise exactly its pair is gone |
| `Replacing.Replace` | python/pyuppsala/etree.py:1161-1168 | refused unless a child; otherwise the same as assigning the new element to the slice of the old one, although the steps differ |
| `Replacing.SwapPair` | python/pyuppsala/etree.py:954-960 | inserting before the old child, extracting it and then attaching the tail amounts to one exchange |
| `TextTail.GetText` | src/lib.rs:2088-2097 | a comment's or instruction's body, else the joined leading run, none if there is no run |
| `TextTail.GetTail` | src/lib.rs:1033-1051 | the joined run after the node |
| `TextTail.SetText` | python/pyuppsala/etree.py:736-765 | the leading run becomes one node that keeps its kind, or none, or a new first child; nothing else changes |
| `TextTail.SetTail` | python/pyuppsala/etree.py:768-787 | the same for the run after a node, and nothing at all without a parent |
| `TextTail.TextPut` | python/pyuppsala/etree.py:736-765 | the text reads back as set; children, tails and every other sibling list are the same nodes in the same order; text stays text, CDATA stays CDATA, what comes in is text |
| `TextTail.TailPut` | python/pyuppsala/etree.py:768-787 | the tail reads back as set and is the only part that has changed, with the same care for text and CDATA |
| `TextTail.TextLeavesStrings` | python/pyuppsala/etree.py:736-765 | no tail and no other element's text reads differently |
| `TextTail.TailLeavesStrings` | python/pyuppsala/etree.py:768-787 | no text and no other tail reads differently |
| `CrossDocument.ImportSubtree` | src/lib.rs:4516-4581 | refused for the same document and for a document root; otherwise a detached copy whose root has the name, the attributes and the own declarations of the original followed by what the source inherited, and below the root everything is equal |
| `Clones.CloneIntoSelf` | python/pyuppsala/etree.py:1107-1129 | the destination gains a copy of the element, with name, attributes and content, and its tail, that declares what was in scope, and keeps all it had; every live wrapper of the element's nodes becomes, in both caches, that of the copy's node at the same child path; the source loses exactly the element and its tail run; both holders stay sound |
| `CrossDocument.MovedNamesResolveAlike` | python/pyuppsala/etree.py:1119-1123 | at the moved element and everywhere below it, under any new ancestors, a prefix that was in scope resolves to the same URI |
| `XInclude.Process` | python/pyuppsala/etree.py:2892-2923 | for every environment the in-place loop over a snapshot ends and returns the recursive meaning, or its first error |
| `XIncludeEdits.RemovedShown` | python/pyuppsala/etree.py:2944-2945 | removing a child from the document's sibling list is removing its item |
| `XIncludeEdits.TextShown` | python/pyuppsala/etree.py:2885-2886 | setting the text of the document's element is setting the text of the items |
| `XIncludeEdits.TailShown` | python/pyuppsala/etree.py:2887-2889 | setting a child's tail in the document changes the tail of its item only |
| `XIncludeEdits.InsertedShown` | python/pyuppsala/etree.py:2959-2960 | inserting an element into the document is inserting its item, with the tail that came along |
| `XInclude.ExpandInclude` | python/pyuppsala/etree.py:2926-2991 | the include gives way, in place, to resource text, resource root or fallback content, followed by its own tail; or the error of the failing step |
| `XInclude.InsertText` | python/pyuppsala/etree.py:2881-2889 | text is merged into the character stream right before the given child |
| `XInclude.SpliceFallback` | python/pyuppsala/etree.py:2949-2965 | the fallback's text and children go in where the include was, and the include's tail continues the last of them |
| `XInclude.TextIsSubstituted` | python/pyuppsala/etree.py:2892-2991 | on success the text of the tree is the original's with each include replaced in place by its resource or fallback text, its own tail kept |
| `XIncludeMarkup.MarkupIsSubstituted` | python/pyuppsala/etree.py:2892-2991 | on success the result, written out as tags, characters, comments and instructions, is the original with each include replaced in place: parse="xml" by the resource's root element and all below it, parse="text" by its characters, a failed load by the content of the fallback, the include's tail kept |
| `XIncludeMarkup.ResultIsDetermined` | python/pyuppsala/etree.py:2892-2991 | the result of processing is the one tree that is written out so |
| `XIncludeMarkup.StreamDetermines` | python/pyuppsala/etree.py:2892-2991 | equal streams, whatever follows, come from equal trees |
| `XIncludeMarkup.FirstFallback` | python/pyuppsala/etree.py:2947-2953 | the fallback used is the first one among the children of the include |
| `XIncludeMarkup.IncludeFailures` | python/pyuppsala/etree.py:2926-2981 | the errors of an include itself: nothing loaded and no fallback, text that does not decode, another parse kind than text and xml, a resource that does not parse |
| `XInclude.RemainingIncludes` | python/pyuppsala/etree.py:2892-2991 | an include remains below the start exactly if a document that was used has one as its root |
| `XInclude.NoIncludeRemains` | python/pyuppsala/etree.py:2892-2991 | so none remains if no document has an include as its root |
| `XInclude.IncludedRootStays` | python/pyuppsala/etree.py:2983-2991 | an include that is the root of an included document stays |
| `XInclude.WithoutIncludes` | python/pyuppsala/etree.py:2902-2911 | a tree without includes is unchanged by the walk, or refused if too deep, so leaving early matters for deep trees only |
| `XInclude.SelfInclusionIsRefused` | python/pyuppsala/etree.py:2900-2901 | a document that includes itself runs into the depth limit |
| `Locking.ProgramIsDisciplined` | src/lib.rs:4530-4551 | imports, re-pointing and single-document work take mutexes in address order, never await the interpreter lock while holding one, and give everything back |
| `Locking.RepointIsDisciplined` | src/lib.rs:2850-2871 | the pairing walk keeps that discipline, with one lock when both nodes are in one document |
| `Locking.DetachedIsDisciplined` | src/lib.rs:4709-4718 | so does detached work, which unlocks before it re-attaches |
| `Locking.WorksUnderLocks` | src/lib.rs:4530-4551 | every operation gets to hold exactly the documents it works on, all at once, attached unless it is detached work |
| `Locking.StepIsSound` | src/lib.rs:4530-4551 | every step of every thread keeps the discipline, ownership and the single holder of the interpreter lock |
| `Locking.NeverDeadlocked` | src/lib.rs:4526-4551 | in every reachable state of any number of threads, with or without an interpreter lock, some unfinished thread can move |
| `Locking.RunsAreBounded` | src/lib.rs:4526-4551 | every run is finite |
| `Locking.CanFinish` | src/lib.rs:4526-4551 | from every reachable state all threads can finish |
| `Locking.UnorderedLocksDeadlock` | src/lib.rs:4526-4529 | locking the destination first regardless of addresses does deadlock |
| `Locking.AwaitingTheGilDeadlocks` | src/lib.rs:5042-5045 | so does re-attaching while a document is locked |
| `ParseMany.Threads` | src/lib.rs:5747-5754 | a positive bound, else the parallelism of the machine, else one, and all inputs if those are fewer; at least one worker when there is an input |
| `ParseMany.MoveIsSound` | src/lib.rs:5778-5817 | in every interleaving each index is undrawn, with exactly one worker, or stored once with its own outcome |
| `ParseMany.BatchIsOneByOne` | src/lib.rs:5762-5852 | whenever all workers have stopped each input was processed exactly once, every slot is filled, and the list equals parsing one by one in input order |
| `ParseMany.EveryRunIsBounded` | src/lib.rs:5778-5817 | no interleaving goes on for ever, and until the join some worker can move |
| `ParseMany.WrapUp` | src/lib.rs:5820-5852 | the returned list is that of parsing one by one: per input the document, its parse error, its decoding error as a well-formedness error, or the panic of its own decoding or parsing as a runtime error |

## Left out

- The parser, serializer, XPath, XSD, XSLT and regex engines and the arena DOM are a separate library: the DOM's edits and `import_subtree` appear with the sequence-level effect that the binding relies on; the serializer appears through `Standalone.SerializedElement`, what its output must look like.
- `Dom.Document.RemoveChild`: asks for a child of the given parent, as every caller in the etree layer has made sure; what the separate library does with another node is not part of this model.
- `Dom.Document.AppendChild`: asks for a node without a parent, as every caller has made sure; what the library does with an attached one is not part of this model.
- `Dom.Document.InsertBefore`: the same, and a reference that is a child of the parent.
- `Dom.Document.InsertAfter`: the same, and a reference that is a child of the parent.
- `SliceAssignment.SetSlice`: no element may occur twice among the new ones; the code would then insert a node that already has a parent, which only the library defines. Elements of other documents come as the trees and tail runs that import reads, with the inherited declarations; one that lies inside an earlier foreign one is listed as `Inner`. What the source documents lose is in `Clones`. An element that contains the target leaves the lists as stated but the tree with a cycle.
- `Iteration.IterationWalksTree`: where a tag filter applies to ends, asks that end tags name the elements they close, as the pull parser has checked; the code asks the filter about the name in the end tag.
- `Replacing.Replace`: replacing a child by itself (`el[i] = el[i]`, `el.replace(x, x)`), where the reference has lost its parent by the time it is used.
- `XInclude.Process`: a failed expansion yields the error without the partly changed tree. Resolution, reading, decoding and parsing are functions (network, files and path checks are not modelled), absent text and empty text are one value, and the position of an include among its parent's children is computed from the snapshot instead of searched by identity.
- PyO3, reference counting and garbage collection: a wrapper is alive or dead, death is a step of its own, and one lookup is one step.
- `usize` overflow of counters and capacities.
- Text is a sequence of characters; UTF-8 byte offsets, the legality of XML characters, reserved prefixes and end-of-line normalization are not checked. Names are runs of characters that can neither end nor separate attributes.
- Mutation of the tree by the consumer between two iterparse yields, and the reclaiming of detached payloads beyond a removed leaf's own text.
- Element wrappers of tags, qualified names and attribute views, tag interning, line and column getters: they would add easy members only.
- A non-element among the new elements, which stops a slice half way with a type error.
- `addnext` and `addprevious` on an element with a tail: `addnext` deliberately inserts between an element and its tail.
- `Clones.CloneIntoSelf`: two holders have two documents.
- The slot mutexes of the batch parser are held for one assignment each and are part of that step.
