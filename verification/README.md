# Verified model of the RelEx feature graph and the script library

This project models, in Dafny, the parts of the repository that hold its most intricate logic, and proves what
they are there for.

**The RelEx feature structures** (`relex/src`). A sentence is a graph of feature nodes. A node holds a text or a
table of keys that lead to other nodes, and a set of back-pointers to the nodes that lead to it. The graph is
shared and cyclic, and it is rewritten in place.

- `FeatureGraph` says what a heap of nodes means: a labelled graph, its paths, and merging as a quotient of it.
- `FeatureNodes` is the mutable node. Every operation is tied to the graph it leaves, in a heap whose
  back-pointers are exact (`NodeHeap.Valid`).
- `Unifiability` says when two nodes can be made one at all, and so when a refused merge is right.
- `FeaturePaths` and `Unification` are about making paths and about when the assignment `<a> = <b>` really makes
  both paths lead to one node.
- `FeatureActions` and `AppendActions` are the rewrite rules `=` and `+=`, and the templates that test for what
  they establish.
- `MemberKeys` and `SemanticGroups` are conjunction groups, kept under the keys `member0`, `member1`, and so on.
- `NameFilter` is the order in which features are listed. `Traversals`, `NodeIndices` and `PrologPrinter` are the
  depth-first walks over graphs with cycles: the collector, the crawler, the indices and the Prolog output, whose
  terms are in `PrologTerms`.
- `LinkLists` and `WordChains` are the links between words and the collapsing of a chain of words into one.

**The script library** (`web.ui/TU.Web/Scripts`).

- `Callbacks` is the state machine of a callback list that may be changed and fired by its own callbacks;
  `CallbackLists` is the object that performs it, loops included, and `CallbackOptions` says what the options of a
  list change. `Deferreds` ties three lists together, `DeferredProgress` says what its notifies come to, and
  `WhenAll` waits for several deferreds.
- `SelectorMemo` proves the search among ancestors and siblings that remembers its answers on the elements equal
  to the plain search beside it.
- `DocumentOrder` is the comparator for browsers without one of their own, and the removal of duplicates.
- `Luhn` is the check of credit card numbers (Annex B of ISO/IEC 7812-1).

`Prelude` and `Numerals` hold small shared vocabulary.

How the parts are stated:

- A mutable object is a class, and its methods are proved against functions and predicates on values. `w` is the
  heap of nodes that are alive. Ghost parameters such as `s`, `rank` or `links` give the list, the order of
  nesting or the links that the keys of a node spell out; they do not take part in the computation.
- Re-entrant protocols are runs of steps. A callback that is called, what it does meanwhile, and its return are
  steps of their own, so a statement about all runs covers every way of nesting them.
- Where the source iterates over a hash table, the model picks keys in an arbitrary order.
- An exception is the outcome `Threw`, and the contract says exactly when it is thrown and what has changed by then.

Where the code and its documentation differ, the model follows the code:

- `FeatureNode.get` is documented to return null on a node with a text; it throws
  (relex/src/feature-works/FeatureNode.java:354-368), and so does `makePath` when it comes to one.
- `makePath` is documented to throw if the path does not unify; an existing path is silently left as it is, and the
  throw "Path already exists" cannot be reached (relex/src/feature-works/FeatureNode.java:565-590).
- The merge is documented to throw if two nodes are not unifiable; it also refuses some that are
  (`Unifiability.RefusedYetUnifiable`). The refusal is right exactly if the two clash (`Unifiability.RefusalIsRight`).
- `collectNames` compares a node with the empty string, which never holds, so an empty original string is used
  (relex/src/algs-works/WordSequenceCombineAlg.java:79-83).
- Appending a missing right side to a text appends the word "null" (relex/src/feature-works/FeatureAction.java:90-97).
- In Prolog output a value that holds a text is written without its index, so a second occurrence of it refers to an
  index that is never opened (relex/src/feature-works/PrologList.java:58-64, 85-89). `PrologTerms.DanglesExactly` says
  when an output has such a reference, and `PrologTerms.SharedTextPrinted` shows one.

## Model

| member | source | states |
|---|---|---|
| FeatureGraph.MergeKeepsMeaning | relex/src/feature-works/FeatureNode.java:239-319 | After a successful merge, with the discarded node sent to the surviving one and every other node to itself, each path that led from r to t leads from the image of r to the image of t, texts are kept, and both merged nodes have one image; cycles and self-edges included |
| FeatureGraph.MergeIsMorphism | relex/src/feature-works/FeatureNode.java:239-319 | A successful merge is a map of labelled graphs: every edge and every text has its image, and no edge dangles |
| FeatureGraph.MergeIsMostGeneral | relex/src/feature-works/FeatureNode.java:233-303 | A merge identifies no more than it must: every other structure-keeping map that sends the two nodes to one place factors through it |
| FeatureGraph.TextConflictIsReal | relex/src/feature-works/FeatureNode.java:253-264 | When a merge is refused because a text is involved, no structure-keeping map whatever identifies the two nodes |
| FeatureGraph.MergeableExactly | relex/src/feature-works/FeatureNode.java:239-276 | A node is merged into another exactly if they are one, or one of them has no text and no path on, or both have the same text, or neither has a text and every path on from the other leads from it to the same place |
| FeatureGraph.PathsMeet | relex/src/feature-works/FeatureNode.java:249-303 | After a merge whatever led to either node leads to the first one, or to the second if only that had a text or a path on |
| Unifiability.ClashForbids | relex/src/feature-works/FeatureNode.java:233-238 | No structure-keeping map identifies two nodes that clash, that is, whose identification would by symmetry, transitivity and equal keys identify a text with a different text or with features |
| Unifiability.ClassesUnify | relex/src/feature-works/FeatureNode.java:233-238 | Two nodes that do not clash become one in the graph of the classes of nodes that have to become one with them, and every edge and every text is kept |
| Unifiability.UnifiableExactly | relex/src/feature-works/FeatureNode.java:233-238 | Some map that keeps every edge and text identifies two nodes if and only if they do not clash |
| Unifiability.RefusalIsRight | relex/src/feature-works/FeatureNode.java:253-273 | Accepted nodes never clash, and nodes refused because of a text always do; a merge throws exactly on nodes that cannot be unified, as documented, if and only if it accepts them or they clash |
| Unifiability.RefusedYetUnifiable | relex/src/feature-works/FeatureNode.java:265-273 | A concrete graph with two nodes that are refused, do not clash, and are identified by a structure-keeping map |
| FeatureGraph.RedirectTouchesParents | relex/src/feature-works/FeatureNode.java:305-319 | Rewriting only the parents of a node redirects every edge that ends in it, and leaves it without parents |
| FeatureGraph.ParentsAfterPut | relex/src/feature-works/FeatureNode.java:339-351 | When a key is led to a node, exactly the old and the new end of the edge gain or lose a back-pointer, the old one only if no other key leads there |
| FeatureGraph.ParentsAfterDrop | relex/src/feature-works/FeatureNode.java:339-351 | When a key is removed, its target loses the back-pointer exactly if no other key of the node leads there |
| FeatureNodes.FeatureNode.constructor | relex/src/feature-works/FeatureNode.java:76-81 | A new node has no features, no text and no parents |
| FeatureNodes.FeatureNode.ForceValue | relex/src/feature-works/FeatureNode.java:138-147 | Stores the text and changes nothing else; refused exactly when the node has features; back-pointers stay exact in the whole heap |
| FeatureNodes.FeatureNode.Set | relex/src/feature-works/FeatureNode.java:333-352 | Leads one key of one node to the target, or removes it for a null target, and keeps every back-pointer in the heap exact; refused exactly on a node that holds a text |
| FeatureNodes.SetKeepsBackPointers | relex/src/feature-works/FeatureNode.java:339-351 | The updates of the parent sets of the old and the new target are all that is needed for exact back-pointers in the whole heap |
| FeatureNodes.FeatureNode.Substitute | relex/src/feature-works/FeatureNode.java:221-231 | Every key that led to the one node leads to the other, all other keys as before, whatever order the keys come up in |
| FeatureNodes.FeatureNode.ReplaceSelfWith | relex/src/feature-works/FeatureNode.java:305-319 | Redirects every edge of the heap that ends here, loses all parents, and never comes to its own failure, even for a node that is its own parent |
| FeatureNodes.FeatureNode.MergeWith | relex/src/feature-works/FeatureNode.java:239-303 | Refused exactly when the two nodes cannot be merged, and then nothing is changed; otherwise the heap is the merged graph with exact back-pointers |
| FeatureNodes.FeatureNode.PathTarget | relex/src/feature-works/FeatureNode.java:536-546 | The node a path leads to; null exactly when a key is missing on the way or a text is in the way |
| FeatureNodes.FeatureNode.StepOrMake | relex/src/feature-works/FeatureNode.java:574-588 | One key of a path: an existing edge is followed, a missing one is made to the given or to a new node; the throw for an existing path is never reached |
| FeatureNodes.FeatureNode.MakePath | relex/src/feature-works/FeatureNode.java:570-590 | Grows exactly the missing end of a path to the target; an existing path is left as it is; refused exactly when a text is in the way, and then nothing is changed |
| FeaturePaths.GrownNodeByNode | relex/src/feature-works/FeatureNode.java:574-588 | The growth of a path node by node: new nodes have one key each, the last one none, and of the old nodes only the one where the path stopped has changed |
| FeaturePaths.GrownExtends | relex/src/feature-works/FeatureNode.java:574-588 | Growing a path keeps every edge there was |
| Unification.PathMadeLeads | relex/src/feature-works/FeatureNode.java:570-590 | A path that was made leads to the target, one that existed still leads where it led, and so does every other |
| FeatureActions.DoActionEquals | relex/src/feature-works/FeatureAction.java:52-82 | The cases of the assignment with the exact condition under which each is refused and the whole graph afterwards; a variable without a value is refused after a missing left path has been made |
| FeatureActions.DoActionClear | relex/src/feature-works/FeatureAction.java:116-125 | After clearing, the path leads nowhere; a path that led nowhere is left alone; the empty path is refused |
| FeatureActions.ClearedIsGone | relex/src/feature-works/FeatureAction.java:116-125 | Removing the last edge of a path ends the path, whatever other paths share its edges |
| FeatureActions.RuleEstablishes | relex/src/feature-works/FeatureAction.java:127-156 | When an assignment rule is refused, and what it establishes otherwise: both paths unified unless they are left apart, the text at the path, the variable's node at the path, or nothing at the path |
| AppendActions.DoAction | relex/src/feature-works/FeatureAction.java:127-156 | A rule by its sign and target: clearing whatever the sign; assignment, also by += to a missing or empty node; appending; any other sign is refused; each with the exact refusal and the whole graph afterwards |
| FeatureActions.AssignedKeepsTexts | relex/src/feature-works/FeatureAction.java:52-82 | No assignment, refused or not, leaves a node without both features and text, which matching and printing rely on |
| FeatureActions.LedThere | relex/src/feature-works/FeatureAction.java:75-80 | A path assigned a node leads to it, or to the survivor of the merge with what it led to |
| Unification.EqualsUnifies | relex/src/feature-works/FeatureAction.java:52-82 | After a path-pair assignment that is not refused, both paths lead to one node if and only if the pair is not one of the two kinds that are left apart: an empty path whose node the merge discards, or two missing paths of which the second runs into the new end of the first and stops short |
| Unification.EqualsUnifiesExisting | relex/src/feature-works/FeatureAction.java:80 | If both paths led somewhere, the merge unifies them exactly unless one is empty and its node is the discarded one |
| Unification.EqualsUnifiesNew | relex/src/feature-works/FeatureAction.java:55-66 | If neither path led anywhere, the two are unified exactly unless the second ends on the new chain of the first before its last node |
| Unification.RightEnters | relex/src/feature-works/FeatureNode.java:574-588 | Where a path that did not exist leads once another one has been grown: to the place it has come to on the new chain, if it runs into it, and it does so at one place only |
| Unification.RootedPath | relex/src/feature-works/FeatureNode.java:239-319 | Where a path leads after a merge when it starts at a node that may itself have been discarded |
| Unification.EqualsAgain | relex/src/feature-works/FeatureAction.java:52-82 | Once its paths are unified, the same assignment is not refused and changes nothing |
| Unification.EmptyPathLeftApart | relex/src/feature-works/FeatureAction.java:80 | A concrete graph in which the assignment leaves the empty path apart |
| Unification.PrefixLeftApart | relex/src/feature-works/FeatureAction.java:55-66 | A concrete graph in which assigning a missing prefix of the left path is done without a refusal and leaves the two paths at two nodes |
| FeatureActions.FeatureTemplate.MatchLine | relex/src/feature-works/FeatureTemplate.java:97-129 | A line matches exactly when its pattern holds of the graph, the missing path and the empty node included; a variable line binds the node |
| FeatureActions.FeatureTemplate.Match | relex/src/feature-works/FeatureTemplate.java:78-95 | A template matches exactly when every line has the outcome its sign asks for; a failed match leaves no variable bound |
| FeatureActions.ActionThenTemplate | relex/src/feature-works/FeatureTemplate.java:108-115 | After a path-pair assignment a template with the same line matches exactly when the pair was not left apart |
| FeatureActions.RuleThenTemplate | relex/src/feature-works/FeatureTemplate.java:52-129 | After a variable, nothing, or a text that as a pattern matches itself has been assigned to a path, a template line of the same shape holds, and a variable line binds the node that the path was led to |
| FeatureActions.NothingExactly | relex/src/feature-works/FeatureTemplate.java:97-123 | A line for nothing holds exactly if no path goes on from where its path leads, and no text but the empty one is there |
| FeatureActions.BoundIsLast | relex/src/feature-works/FeatureTemplate.java:52-95 | A variable is bound to what the last of its lines has found, and is not bound exactly if none of them has found a node |
| AppendActions.AppendToSelf | relex/src/feature-works/SemanticView.java:457-468 | Appending a node to itself does nothing; to a group it adds the leaves of the other node after the members; any other node moves, as first member, into a new group that takes its place under the feature, and the leaves follow; the other node may hold this one or the parent |
| AppendActions.TwoMakeAGroup | relex/src/feature-works/SemanticView.java:457-468 | Of two nodes with features that are no groups appending makes, in the place of the first, a node with the first under member0, the second under member1, and no other key |
| AppendActions.NestedLeaves | relex/src/feature-works/SemanticView.java:462-466 | The new group changes nothing of what is below the other node, even one that holds the parent |
| AppendActions.NewGroupFromSelf | relex/src/feature-works/SemanticView.java:330-336 | A new group has the node as its only member |
| AppendActions.AppendedIsFlat | relex/src/feature-works/SemanticView.java:342-355 | After appending, the group is numbered without gaps and no member of it is a group |
| AppendActions.AppendToFilled | relex/src/feature-works/FeatureAction.java:90-113 | Appending to a node that is not empty: texts are joined with an underscore, a missing right text as the word null; nodes with features become one group; every other combination is refused and changes nothing |
| AppendActions.TextsAreJoined | relex/src/feature-works/FeatureAction.java:90-97 | If the path led to the text a, and the rule appends the text b, or a path or variable whose node holds b, the path leads to a_b afterwards |
| AppendActions.NullIsJoined | relex/src/feature-works/FeatureAction.java:90-97 | If it appends a path that leads nowhere, or a variable without a value, the path leads to a_null afterwards |
| AppendActions.DoActionAppend | relex/src/feature-works/FeatureAction.java:84-114 | Appending to a missing or empty node does what assignment does, in each of its cases; to any other node one of the cases above |
| MemberKeys.MemberKeyInjective | relex/src/feature-works/SemanticView.java:352-353 | Different numbers give different member keys |
| MemberKeys.MemberKeysSpelt | relex/src/feature-works/SemanticView.java:299-312 | How member keys are spelt: the word member and the number; every longer word that begins so is taken for one |
| MemberKeys.NumberedFacts | relex/src/feature-works/RelationForeach.java:198-208 | In a numbered group of n members exactly member0 to member(n-1) exist, and there are n member keys |
| MemberKeys.NumberedAppend | relex/src/feature-works/SemanticView.java:352-353 | A new member under the next number keeps the numbering without gaps and repetitions, and leaves other keys alone |
| MemberKeys.ShiftingEnds | relex/src/feature-works/SemanticView.java:364-381 | Once the later members have moved down, the numbering has no gap and the order is kept |
| SemanticGroups.GroupMembers | relex/src/feature-works/SemanticView.java:299-313 | Exactly the nodes under member keys, one entry a key, in any order of the keys; empty exactly if the node is no group |
| SemanticGroups.NumMembers | relex/src/feature-works/SemanticView.java:352 | The number of member keys, none for a node with a text |
| SemanticGroups.WalkMembers | relex/src/feature-works/RelationForeach.java:198-208 | The walk member0, member1, ... until one is missing visits every member exactly once, in order, and nothing else |
| SemanticGroups.AddGroupMember | relex/src/feature-works/SemanticView.java:342-355 | Adds exactly the leaves of the node, however deep its groups are nested and even if it holds the receiver, after the members that were there; nothing but the group changes and the numbering stays without gaps and repetitions |
| SemanticGroups.LeavesGrow | relex/src/feature-works/SemanticView.java:342-355 | What has been added so far changes what is still to be added by nothing else, though the receiver may be below it |
| SemanticGroups.AddEach | relex/src/feature-works/SemanticView.java:345-349 | Adding a group adds the leaves of all its members, one after the other |
| SemanticGroups.AddPlainMember | relex/src/feature-works/SemanticView.java:350-354 | A node that is no group comes last, unless it was a member already, and then nothing changes; the list stays free of groups exactly if the node is not added to itself |
| SemanticGroups.LeavesOfFlat | relex/src/feature-works/SemanticView.java:342-344 | The leaves of a flat group are its members |
| SemanticGroups.MoveDown | relex/src/feature-works/SemanticView.java:372-380 | One step of a removal: the next member comes one number down, or the last number goes |
| SemanticGroups.RemoveGroupMember | relex/src/feature-works/SemanticView.java:364-381 | Removes the member and keeps the order of the others; the numbers are contiguous again; a node that is no member leaves all as it is |
| SemanticGroups.DropAtElements | relex/src/feature-works/SemanticView.java:364-381 | What is left after a removal are all members but the removed one, each once |
| SemanticGroups.SemanticParents | relex/src/feature-works/SemanticView.java:409-421 | The nodes that hold this one as a group member, all of them and no others, found through the back-pointers |
| SemanticGroups.RepairParent | relex/src/feature-works/SemanticView.java:427-430 | In one group the leaves of a nested group take its place: old members without it in their order, then its leaves |
| SemanticGroups.RepairGroup | relex/src/feature-works/SemanticView.java:406-431 | Every group that held this group ends with its old members without the group and with the group's leaves, each once and numbered without gaps; nothing else changes; a node that is no group is left alone |
| SemanticGroups.RepairedNobodyHolds | relex/src/feature-works/SemanticView.java:406-431 | After the repair the group is a member of no group |
| NameFilter.TransferName | relex/src/feature-works/FeatureNameFilter.java:45-50 | Moves a name to the output if it is there |
| NameFilter.TransferMultiNames | relex/src/feature-works/FeatureNameFilter.java:30-43 | Moves exactly the names with the prefix, in alphabetical order, which puts the prefix itself first |
| NameFilter.Sorted | relex/src/feature-works/FeatureNameFilter.java:52-58 | The names of the set in alphabetical order, each once |
| NameFilter.SortedIsUnique | relex/src/feature-works/FeatureNameFilter.java:52-58 | There is only one alphabetical list of a set |
| NameFilter.LessExactly | relex/src/feature-works/FeatureNameFilter.java:52-58 | The order is the alphabetical one: the first difference decides, and a name comes before its extensions |
| NameFilter.TransferAll | relex/src/feature-works/FeatureNameFilter.java:79-82 | The blocks of one prefix after the other, each name in the block of the first prefix that claims it |
| NameFilter.FeatureNameFilter.TransferToEmpty | relex/src/feature-works/FeatureNameFilter.java:67-77 | The blocks of exactly the entries before the empty one |
| NameFilter.FeatureNameFilter.Transfer | relex/src/feature-works/FeatureNameFilter.java:66-90 | The blocks of the entries before the empty one, then what no entry claims in alphabetical order, then the blocks of the entries after it |
| NameFilter.OrderSplits | relex/src/feature-works/FeatureNameFilter.java:66-90 | The order is what comes before its first empty entry, that entry, and what comes after it |
| NameFilter.FeatureNameFilter.Features | relex/src/feature-works/FeatureNode.java:622-633 | Lists exactly the keys without an ignored prefix, each once, in the order of the filter |
| NameFilter.ListingIsComplete | relex/src/feature-works/FeatureNameFilter.java:66-90 | A listing in blocks holds every name exactly once |
| Traversals.IteratorFromLeft | relex/src/algs-works/SentenceAlgorithm.java:95-107 | Adds, each once, nodes that can be reached, the node itself among them, and leaves no edge out of them unfollowed; ends on every finite graph with cycles |
| Traversals.AllFromLeft | relex/src/algs-works/SentenceAlgorithm.java:89-93 | Exactly the nodes that can be reached from the left node, each once |
| Traversals.ClosedIsReach | relex/src/algs-works/SentenceAlgorithm.java:95-107 | A visited set that is closed under the followed edges and holds nothing unreachable is the reachable part |
| Traversals.GraphCrawl | relex/src/feature-works/RelationForeach.java:64-128 | What one call of the crawl visits and calls back on: always named nodes that came in, none twice; all of them if it is exhausted; up to the callback that halted it; or before a name that is no text |
| Traversals.CrawlKeys | relex/src/feature-works/RelationForeach.java:79-127 | The loop over the keys of a node: all followed, boring ones skipped, stopped by the first halt or failure, with the calls as for the crawl |
| Traversals.CrawlKey | relex/src/feature-works/RelationForeach.java:93-125 | One key: a name calls back on the node, a node with features is entered; the calls are on the node or on what came in, none twice |
| Traversals.Foreach | relex/src/feature-works/RelationForeach.java:135-140 | Calls back on named nodes that can be reached by keys of interest, none twice, and on all of them if it is not halted; a halted crawl ends with the first callback that asks for it; it fails only on a reachable node whose name is no text |
| Traversals.BoringExactly | relex/src/feature-works/RelationForeach.java:93-108 | The keys that are not followed: eight by their whole text, five by their beginning, three by their end |
| Traversals.CrawledIsReach | relex/src/feature-works/RelationForeach.java:64-128 | Though nodes that hold a text are not entered, the crawled set has every named node that can be reached |
| NodeIndices.MakeIndices | relex/src/feature-works/FeatureNode.java:470-488 | Coming to a node once more gives it the next free index unless it has one; coming to it first visits all below |
| NodeIndices.MakeIndicesBelow | relex/src/feature-works/FeatureNode.java:480-486 | All kept features of a node are followed, each once |
| NodeIndices.Indices | relex/src/feature-works/FeatureNode.java:470-488 | Exactly the nodes that can be come to in at least two ways, counting the root and every kept edge from a reachable node, get an index; the indices are 0 to k-1, all different |
| NodeIndices.WalkedAll | relex/src/feature-works/FeatureNode.java:470-488 | A finished walk has visited exactly what can be reached, by every way there is |
| PrologPrinter.PrintNode | relex/src/feature-works/PrologList.java:50-106 | Writes a term that shows the node, writes out it and everything new below it exactly once, and keeps every index given before |
| PrologPrinter.PrintBlock | relex/src/feature-works/PrologList.java:65-105 | A node with features is opened once, under its own index, with one field for each kept key, and closed |
| PrologPrinter.PrintFields | relex/src/feature-works/PrologList.java:75-98 | The fields of a node in the order of the filter, a comma after each |
| PrologPrinter.PrintField | relex/src/feature-works/PrologList.java:77-97 | A value is referred to by its index exactly if it was visited before; any other gets the next index and is written out |
| PrologPrinter.ToPrologList | relex/src/feature-works/PrologList.java:37-48 | The output spells a term that writes out every node that can be reached exactly once, texts included; the nodes are numbered 0 to n-1; every node with features is opened exactly once and before every reference to it, and no node with a text ever is; some reference is to an index that is never opened if and only if some text can be come to in two ways or more |
| PrologTerms.TermCounts | relex/src/feature-works/PrologList.java:75-98 | A node is written out or referred to once for every kept edge to it from a node written out, and the node shown once more |
| PrologTerms.ReadsBack | relex/src/feature-works/PrologList.java:56-115 | A reader gets back from the tokens of a term that term and what follows it, so no two terms are written alike |
| PrologTerms.ReferencesCount | relex/src/feature-works/PrologList.java:84-97 | In the whole output a node is referred to once for every way to come to it but one |
| PrologTerms.DanglesExactly | relex/src/feature-works/PrologList.java:58-64 | An output that writes every reachable node out once refers to an index that is never opened if and only if some reachable text can be come to in two ways or more |
| PrologTerms.SharedTextDangles | relex/src/feature-works/PrologList.java:58-64 | A concrete graph, two keys that lead to one text, every output of which has such a reference |
| PrologTerms.SharedTextPrinted | relex/src/feature-works/PrologList.java:58-64 | The tokens of that output |
| LinkLists.NumLinks | relex/src/feature-works/LinkableView.java:134-146 | The number of links a word lists, zero if it has no count |
| LinkLists.GetLink | relex/src/feature-works/LinkableView.java:182-190 | The i-th link; refused exactly for an index that is not counted |
| LinkLists.LinkKeysSpelt | relex/src/feature-works/LinkableView.java:28-34 | How the keys of links and of their counts are spelt |
| LinkLists.SetNumLinks | relex/src/feature-works/LinkableView.java:112-128 | Writes the count into the node that holds it, or into a new one |
| LinkLists.AddLink | relex/src/feature-works/LinkableView.java:196-208 | The word lists the new link after its others, under the next number, and counts it |
| LinkLists.OthersKeepLinks | relex/src/feature-works/LinkableView.java:112-128 | The other lists of links stay intact if and only if their count is not kept in the very node that was counted up |
| LinkLists.SetLinkFeatures | relex/src/feature-works/LinkView.java:69-78 | The link has both ends and all labels, and each of the two words lists it last on its side |
| WordChains.NextNode | relex/src/algs-works/WordSequenceCombineAlg.java:45-58 | The far end of the first link on that side that chains words, or null if there is none |
| WordChains.NextInverse | relex/src/algs-works/WordSequenceCombineAlg.java:45-58 | In a sentence whose words have at most one chaining link a side, going left and going right are inverse |
| WordChains.ChainAscends | relex/src/algs-works/WordSequenceCombineAlg.java:45-71 | The words of a chain stand in the order of the sentence, so that no walk along it comes back |
| WordChains.GetLeftMost | relex/src/algs-works/WordSequenceCombineAlg.java:65-71 | Ends at a word with nothing chained to its left, from which the walk to the right leads back to the start without a missing step |
| WordChains.ReadName | relex/src/algs-works/WordSequenceCombineAlg.java:76-83 | The original string if the word has one, even an empty one, and else its string |
| WordChains.NameIs | relex/src/algs-works/WordSequenceCombineAlg.java:76-83 | The name of a word is the text of its original string if it has one, else that of its string |
| WordChains.NamesJoin | relex/src/algs-works/WordSequenceCombineAlg.java:97-101 | The names of a longer chain are those of its parts joined by an underscore |
| WordChains.EraseWord | relex/src/algs-works/WordSequenceCombineAlg.java:85-95 | The word loses its reference and gets a new, empty string; all else stays |
| WordChains.CollectNames | relex/src/algs-works/WordSequenceCombineAlg.java:73-102 | The names of the chain in the order of the sentence, joined by underscores; if asked to, exactly the words before the last are emptied |
| WordChains.Entitle | relex/src/algs-works/WordSequenceCombineAlg.java:115-122 | One new node with the joined name under the last word and under its reference |
| WordChains.Place | relex/src/algs-works/WordSequenceCombineAlg.java:129-131 | The last word gets the chain's start and end and the start character of the first word, or none if that has none |
| WordChains.Collapse | relex/src/algs-works/WordSequenceCombineAlg.java:112-131 | A whole chain is collapsed into its last word |
| WordChains.SetIsCollapsed | relex/src/algs-works/WordSequenceCombineAlg.java:112-131 | The emptied words and the keys set on the last one make up the collapsed chain; every other node and every original string is as it was |
| WordChains.ApplyTo | relex/src/algs-works/WordSequenceCombineAlg.java:104-131 | Refused exactly if the variable is not the link's right word; nothing is done unless that word ends its chain; else exactly the maximal chain that ends there is collapsed |
| CallbackLists.CallbackList.constructor | web.ui/TU.Web/Scripts/jquery-1.8.3.js:941-964 | A new list, with a stack unless it fires once; nothing has happened yet, and all of it was proper |
| CallbackLists.CallbackList.Fire | web.ui/TU.Web/Scripts/jquery-1.8.3.js:966-977 | Begins a firing at the first callback that takes part |
| CallbackLists.CallbackList.Continue | web.ui/TU.Web/Scripts/jquery-1.8.3.js:973-978 | The head of the loop: the next callback, or the end of the firing |
| CallbackLists.CallbackList.FinishFiring | web.ui/TU.Web/Scripts/jquery-1.8.3.js:979-990 | The end of a firing: the next stacked one, the list cleared, or the list disabled |
| CallbackLists.CallbackList.ReturnFromCallback | web.ui/TU.Web/Scripts/jquery-1.8.3.js:973-978 | Goes on after a callback, or stops if it returned false and the list minds that; all that happened to the object stays proper |
| CallbackLists.CallbackList.SelfDisable | web.ui/TU.Web/Scripts/jquery-1.8.3.js:1056-1059 | Nothing is left of the list |
| CallbackLists.CallbackList.Empty | web.ui/TU.Web/Scripts/jquery-1.8.3.js:1051-1054 | Nothing is listed, and nothing else changes; the object stays valid if and only if the list can be emptied |
| CallbackLists.CallbackList.SelfLock | web.ui/TU.Web/Scripts/jquery-1.8.3.js:1065-1071 | No further firing is stacked; a list without memory is disabled; all that happened stays proper |
| CallbackLists.CallbackList.FireWithArgs | web.ui/TU.Web/Scripts/jquery-1.8.3.js:1077-1088 | Fires, stacks, or ignores the call; whatever firings that leads to call each callback in order, none twice and none left out |
| CallbackLists.CallbackList.AddAll | web.ui/TU.Web/Scripts/jquery-1.8.3.js:995-1024 | The loop appends the functions in order, without repetition if the list is unique, to the running batch or to a new firing with the memory, and all that happened stays proper |
| CallbackLists.CallbackList.RemoveFn | web.ui/TU.Web/Scripts/jquery-1.8.3.js:1029-1041 | The splicing loop takes out every entry of the function, and moves the end of the batch and the firing index by as many as go before them |
| CallbackLists.CallbackList.RemoveAll | web.ui/TU.Web/Scripts/jquery-1.8.3.js:1026-1045 | The same for each function given, and all that happened stays proper |
| CallbackLists.SpliceCount | web.ui/TU.Web/Scripts/jquery-1.8.3.js:1030-1040 | Splicing out one entry moves an index by one exactly if the entry is at it or before |
| CallbackOptions.StopsExactly | web.ui/TU.Web/Scripts/jquery-1.8.3.js:973-978 | A firing is cut short by a step exactly if a callback of it returns false and the list has the stopOnFalse option |
| CallbackOptions.ReturnIgnored | web.ui/TU.Web/Scripts/jquery-1.8.3.js:974 | Without the option, a callback that returns false changes nothing that one that returns otherwise does not |
| CallbackOptions.StoppedIsOver | web.ui/TU.Web/Scripts/jquery-1.8.3.js:973-990 | With the option, nothing more of the firing is called: the memory is gone, and the next stacked firing begins, if there is one |
| CallbackOptions.NeverStopped | web.ui/TU.Web/Scripts/jquery-1.8.3.js:973-978 | No firing of any run of a list without the option is cut short |
| CallbackOptions.StackedInOrder | web.ui/TU.Web/Scripts/jquery-1.8.3.js:966-990 | Over every run a list that may fire again begins all firings that were asked for, in the order asked and with the arguments of each, and those that have not begun are stacked in this order |
| CallbackOptions.FiresOnce | web.ui/TU.Web/Scripts/jquery-1.8.3.js:1077-1088 | Over every run a list that fires once begins the first firing asked for and no other |
| CallbackOptions.LockedFiresNothing | web.ui/TU.Web/Scripts/jquery-1.8.3.js:1056-1071 | After locking or disabling, at any time of a run, no firing that is asked for begins |
| CallbackOptions.DisabledIsSilent | web.ui/TU.Web/Scripts/jquery-1.8.3.js:1056-1059 | A disabled list begins nothing and calls nothing |
| CallbackOptions.RepeatsExactly | web.ui/TU.Web/Scripts/jquery-1.8.3.js:1013-1022 | Over every run, adding to a list at rest begins a firing exactly if the list has the memory option and has been fired |
| CallbackOptions.GoneExactly | web.ui/TU.Web/Scripts/jquery-1.8.3.js:979-990 | Over every run, a list at rest has been disabled exactly if it fires once, remembers nothing and has been fired |
| CallbackOptions.MemoryIsRepeated | web.ui/TU.Web/Scripts/jquery-1.8.3.js:1013-1022 | That firing is begun with what was fired last and takes in the new callbacks only; adding during a firing begins none |
| CallbackOptions.AddedAtTheEnd | web.ui/TU.Web/Scripts/jquery-1.8.3.js:997-1010 | Functions are added at the end in their order; to a unique list exactly those that are not listed yet, none twice |
| CallbackOptions.UniqueForGood | web.ui/TU.Web/Scripts/jquery-1.8.3.js:997-1010 | Over every run a unique list lists no function twice |
| Callbacks.EveryRunIsProper | web.ui/TU.Web/Scripts/jquery-1.8.3.js:966-1054 | In every run of firings, additions, removals, locks and disables, nested in callbacks in any way, and of emptying the list when it does not fire or has nothing in the batch, each firing calls callbacks in the order of their registration, none twice, none that is not to take part, and ends only when all that are still listed have been called |
| Callbacks.RemovedNeverRuns | web.ui/TU.Web/Scripts/jquery-1.8.3.js:1026-1045 | An entry that is listed at any time of a run and then removed is never called afterwards, however the run goes on |
| Callbacks.UnlistedNeverRuns | web.ui/TU.Web/Scripts/jquery-1.8.3.js:966-1045 | What is not listed is not called, and its entry does not come back |
| Callbacks.EmptyExactly | web.ui/TU.Web/Scripts/jquery-1.8.3.js:1051-1054 | At any time of a run, every continuation after emptying the list is proper if and only if the list does not fire at that time or its batch is empty; a list that was disabled meanwhile is no exception |
| Callbacks.EmptyDuringFiring | web.ui/TU.Web/Scripts/jquery-1.8.3.js:1051-1054 | If the callback that empties the list returns at once, the loop looks for a callback that is not there if and only if callbacks were still to come, also on a list that had been disabled |
| Callbacks.AddedIsLeftOut | web.ui/TU.Web/Scripts/jquery-1.8.3.js:1051-1054 | If none was still to come, a callback added after emptying takes part in the firing and is never called |
| Callbacks.EmptyBreaksARun | web.ui/TU.Web/Scripts/jquery-1.8.3.js:1051-1054 | A concrete run that comes to such a state: two callbacks, emptied during the first |
| Callbacks.StepGood | web.ui/TU.Web/Scripts/jquery-1.8.3.js:966-1088 | Every operation keeps the end of the batch at the length of the list and the firing index between the callbacks called and those to come |
| Callbacks.WithoutSplits | web.ui/TU.Web/Scripts/jquery-1.8.3.js:1030-1040 | Removing entries during a firing leaves before the moved index exactly what was before it, and after it only what was after it |
| Deferreds.EveryRunInv | web.ui/TU.Web/Scripts/jquery-1.8.3.js:1104-1189 | In every run, callbacks nested in any way, a deferred is unsettled, settling at one of its own three callbacks, or settled with the other list off and progress locked, and the running callbacks fit the firing lists |
| Deferreds.SettledForGood | web.ui/TU.Web/Scripts/jquery-1.8.3.js:1104-1189 | Over every run: before the first resolve or reject no done or fail callback is called; after it those of its kind are called in the order of registration, each once, with its arguments, those of the other kind never; and when nothing runs any more, all that were registered at any time have been called |
| Deferreds.StatusIsFinal | web.ui/TU.Web/Scripts/jquery-1.8.3.js:1110-1114 | The state leaves pending at most once |
| Deferreds.LaterFiringsDoNothing | web.ui/TU.Web/Scripts/jquery-1.8.3.js:1164-1172 | After the first resolve or reject, no resolve, reject or notify has any effect |
| Deferreds.AllAreCalled | web.ui/TU.Web/Scripts/jquery-1.8.3.js:1104-1189 | Every run comes to an end if no more is registered or fired, and then all callbacks registered have been called, in order, each once |
| Deferreds.FirstIsFirst | web.ui/TU.Web/Scripts/jquery-1.8.3.js:1104-1189 | What a deferred is settled with is the first firing of its done or fail list in the run |
| Deferreds.NewInv | web.ui/TU.Web/Scripts/jquery-1.8.3.js:1164-1172 | A new deferred has its own callbacks first in the done and the fail list |
| Deferreds.SettleFirst | web.ui/TU.Web/Scripts/jquery-1.8.3.js:1164-1176 | The first firing begins with the callback that sets the state, before any callback of the user |
| Deferreds.Notify | web.ui/TU.Web/Scripts/jquery-1.8.3.js:1104-1189 | Notifying keeps the invariant, and does nothing once the deferred has been settled |
| DeferredProgress.ProgressRounds | web.ui/TU.Web/Scripts/jquery-1.8.3.js:966-1024 | Over every run, however nested: the calls of progress callbacks are one round after another, a round for each notify before the settling in the order they were issued, with its data, of the callbacks in the order of registration, each once; a round that is over has called all that were registered at its notify; and unless a progress callback is running, the last round has called all that are registered now, and no notify waits |
| DeferredProgress.CarriedForGood | web.ui/TU.Web/Scripts/jquery-1.8.3.js:1056-1071 | After the settling no round begins: the notifies that waited then are given up |
| DeferredProgress.NotifyCallsAtOnce | web.ui/TU.Web/Scripts/jquery-1.8.3.js:1077-1088 | A notify made while no progress callback runs calls the first progress callback at once, with its data |
| DeferredProgress.AllProgressIsCalled | web.ui/TU.Web/Scripts/jquery-1.8.3.js:966-1024 | If no more is registered or fired, every run comes to an end, and then every notify, those given up by the settling excepted, has had its round with its data and in its turn, of at least all callbacks registered when it was issued, and the last round has been of all that are registered at all |
| DeferredProgress.LogGrows | web.ui/TU.Web/Scripts/jquery-1.8.3.js:966-978 | Calls that a callback of any kind has received are never taken back or put in another order |
| WhenAll.HappensInv | web.ui/TU.Web/Scripts/jquery-1.8.3.js:1192-1241 | Every step of the loop and every callback keeps the counter, the slots and the verdict in agreement |
| WhenAll.EveryRunKeepsCount | web.ui/TU.Web/Scripts/jquery-1.8.3.js:1192-1241 | Over every run counter, slots and what the master has been told agree with how the promises were settled |
| WhenAll.CounterCounts | web.ui/TU.Web/Scripts/jquery-1.8.3.js:1197-1215 | Over every run the counter is the number of arguments not yet come to or not yet resolved, and zero exactly when all are complete |
| WhenAll.MasterFollows | web.ui/TU.Web/Scripts/jquery-1.8.3.js:1204-1241 | What the master is first told is the verdict: the first argument that failed with what it was rejected with, or, exactly when all are complete, all values and contexts each in its argument's place |
| WhenAll.OutcomeIsFirst | web.ui/TU.Web/Scripts/jquery-1.8.3.js:1192-1241 | How a promise is held to be settled is the first settling of it in the run |
| WhenAll.MasterValues | web.ui/TU.Web/Scripts/jquery-1.8.3.js:1204-1214 | A master that is resolved has one value for each argument in its place: a plain argument itself, and for a promise the one value it was resolved with, the array of several, or nothing; and the contexts in the same order if there are two arguments or more |
| WhenAll.MasterRejected | web.ui/TU.Web/Scripts/jquery-1.8.3.js:1228-1232 | A master that is rejected is rejected with what one of the promises was rejected with |
| WhenAll.ProgressSlots | web.ui/TU.Web/Scripts/jquery-1.8.3.js:1204-1211 | The progress slots of an argument hold the last news of it, or nothing |
| WhenAll.ProgressPassedOn | web.ui/TU.Web/Scripts/jquery-1.8.3.js:1204-1211 | The news of an argument is passed on to the master at once, with the last news of all others, each in its place |
| WhenAll.MasterIsSettled | web.ui/TU.Web/Scripts/jquery-1.8.3.js:1192-1241 | When nothing runs any more in the master, it is resolved if and only if all arguments are, rejected if and only if one has failed, and all callbacks that were registered with it have been called with the verdict |
| WhenAll.NothingIsLeftOpen | web.ui/TU.Web/Scripts/jquery-1.8.3.js:1218-1238 | When every promise has called back after the loop, the master is resolved or rejected |
| WhenAll.DoneCalledInv | web.ui/TU.Web/Scripts/jquery-1.8.3.js:1204-1214 | The done callback of an argument fills its slots and counts it off, and resolves the master if it was the last, also while the loop goes on |
| DocumentOrder.SiblingCheck | web.ui/TU.Web/Scripts/jquery-1.8.3.js:4560-4576 | Tells whether the one node is the other, stands before it among its siblings, or neither |
| DocumentOrder.Parents | web.ui/TU.Web/Scripts/jquery-1.8.3.js:4622-4632 | The ancestors of a node from the root down |
| DocumentOrder.Walk | web.ui/TU.Web/Scripts/jquery-1.8.3.js:4634-4648 | Two lines of ancestors compare as the positions of the nodes do |
| DocumentOrder.CompareApart | web.ui/TU.Web/Scripts/jquery-1.8.3.js:4603-4648 | Two different nodes of one tree compare as their positions do; a root of another tree comes first, else the second argument does |
| DocumentOrder.ComparedBackwards | web.ui/TU.Web/Scripts/jquery-1.8.3.js:4603-4648 | Compared the other way round, nodes of one tree give the opposite sign; nodes of two trees do so if and only if exactly one of them is a root |
| DocumentOrder.Results.SortOrder | web.ui/TU.Web/Scripts/jquery-1.8.3.js:4590-4648 | For nodes of one tree the comparator is negative, zero or positive exactly as the first stands before, is, or stands after the second in document order, and it notes that it has met two that are the same |
| DocumentOrder.Results.UniqueSort | web.ui/TU.Web/Scripts/jquery-1.8.3.js:4651-4677 | After sorting and removing duplicates the results are the nodes found, each once, in document order, whether or not the sort passes equal entries to the comparator |
| DocumentOrder.SignIsOrder | web.ui/TU.Web/Scripts/jquery-1.8.3.js:4634-4648 | Comparing by the first place where the paths part is comparing by the order of the listing that puts every node before what is below it |
| DocumentOrder.StrictTotalOrder | web.ui/TU.Web/Scripts/jquery-1.8.3.js:4590-4648 | Document order is a strict total order on the nodes of any finite tree |
| DocumentOrder.PreorderNoRepeats | web.ui/TU.Web/Scripts/jquery-1.8.3.js:4590-4648 | Document order lists no node twice |
| DocumentOrder.Results.FindDuplicates | web.ui/TU.Web/Scripts/jquery-1.8.3.js:4664-4668 | Exactly the places whose entry repeats the one before |
| DocumentOrder.Results.RemoveDuplicates | web.ui/TU.Web/Scripts/jquery-1.8.3.js:4663-4674 | The splicing loop removes exactly the entries that repeat the one before, if duplicates are to be expected |
| DocumentOrder.SortedResults | web.ui/TU.Web/Scripts/jquery-1.8.3.js:4656-4677 | Of sorted results, what is left are the nodes found, each once, in document order |
| DocumentOrder.AscendingIsFiltered | web.ui/TU.Web/Scripts/jquery-1.8.3.js:4656-4677 | There is only one list of given nodes in strict document order |
| SelectorMemo.ElementMatcherPlain | web.ui/TU.Web/Scripts/jquery-1.8.3.js:4798-4809 | The plain matcher tells whether all filters and the combinator hold |
| SelectorMemo.CombinatorPlain | web.ui/TU.Web/Scripts/jquery-1.8.3.js:4787-4793 | The plain search: whether some acceptable element in the direction matches, or the nearest one does |
| SelectorMemo.ElementMatcher | web.ui/TU.Web/Scripts/jquery-1.8.3.js:4798-4809 | With marks on the elements the matcher answers as the plain one does, and leaves only marks that may be believed |
| SelectorMemo.CombinatorSearch | web.ui/TU.Web/Scripts/jquery-1.8.3.js:4746-4796 | The search with memory answers as the plain one, for any combinators within combinators |
| SelectorMemo.NearestSearch | web.ui/TU.Web/Scripts/jquery-1.8.3.js:4753-4759 | The search for the nearest element marks nothing of its own and answers as the plain one |
| SelectorMemo.FarSearch | web.ui/TU.Web/Scripts/jquery-1.8.3.js:4762-4785 | The search that stops at marks of this candidate, passes those of earlier ones, and overwrites those of other combinators answers as the plain loop |
| SelectorMemo.MarkAndTest | web.ui/TU.Web/Scripts/jquery-1.8.3.js:4777-4782 | The mark is set before the test and says afterwards how it came out, whatever the inner searches mark meanwhile |
| SelectorMemo.MatcherFromTokens | web.ui/TU.Web/Scripts/jquery-1.8.3.js:4926-4976 | The compiled matcher selects what the tokens ask for, read from the right, and names every combinator differently |
| SelectorMemo.FindsOnChain | web.ui/TU.Web/Scripts/jquery-1.8.3.js:4746-4793 | The search of a combinator is told by the pointers: along the chain of parents or of preceding siblings, whether some node that it may look at matches, or the nearest such node does |
| SelectorMemo.RelationMeans | web.ui/TU.Web/Scripts/jquery-1.8.3.js:4150-4155 | The signs of a selector: a filter after one of them selects an element exactly if it holds of it and the nearest ancestor, some ancestor, the element just before, or some element before satisfies what stands on the left |
| SelectorMemo.ContextMeans | web.ui/TU.Web/Scripts/jquery-1.8.3.js:4929-4946 | What a selector starts from: anything, or what the leading sign, or else a space, leads to from the context, which may be a node that is no element among ancestors only |
| SelectorMemo.SelectedExactly | web.ui/TU.Web/Scripts/jquery-1.8.3.js:4999-5012 | A candidate is among the selected exactly if one of the matchers holds of it |
| SelectorMemo.MatchCandidate | web.ui/TU.Web/Scripts/jquery-1.8.3.js:5001-5007 | A candidate is taken exactly if one matcher of the group holds of it |
| SelectorMemo.SuperMatcher | web.ui/TU.Web/Scripts/jquery-1.8.3.js:4999-5012 | One run over any sequence of candidates, with one slot an element shared by all combinators, selects exactly those that the plain matchers select, in their order, and leaves no mark of a later run |
| SelectorMemo.RunAll | web.ui/TU.Web/Scripts/jquery-1.8.3.js:4990-5012 | Any sequence of runs on the same elements, each under the next run number and among the marks the earlier ones left, selects as the plain matchers do |
| SelectorMemo.MarksAsTexts | web.ui/TU.Web/Scripts/jquery-1.8.3.js:4766-4772 | Comparing marks as texts, the whole or by the beginning up to the second space, is comparing their numbers |
| Luhn.CreditCard | web.ui/TU.Web/Scripts/jquery.validate.js:1124-1146 | Accepts exactly the texts of digits, spaces and dashes whose digits have a sum divisible by ten when every second one from the right is doubled and reduced to its digit sum |
| Luhn.SumIsFromRight | web.ui/TU.Web/Scripts/jquery.validate.js:1134-1146 | The sum from the right by its own definition: a digit as it is, then the next one doubled, the two digits of the double added up |
| Luhn.DigitValue | web.ui/TU.Web/Scripts/jquery.validate.js:1137 | The value of a digit is its place among the ten digits, and no other character is one |
| Luhn.OneDigitChanged | web.ui/TU.Web/Scripts/jquery.validate.js:1134-1146 | No accepted number is accepted with one digit changed |
| Luhn.NeighboursSwapped | web.ui/TU.Web/Scripts/jquery.validate.js:1134-1146 | An accepted number with two neighbouring digits swapped, whatever separates them, is accepted if and only if they are equal or are 0 and 9 |
| Luhn.CheckDigit | web.ui/TU.Web/Scripts/jquery.validate.js:1134-1146 | Every number has exactly one last digit that makes it acceptable |
| Luhn.SeparatorsIgnored | web.ui/TU.Web/Scripts/jquery.validate.js:1132 | Spaces and dashes make no difference, wherever they stand |

## Left out

- `toString` of a node: the layout, the print limit, and the escaping of Prolog atoms; printed output is tokens and terms.
- Null keys, null texts given to `setValue`, serialization, and the atom table that other versions of the node use.
- Lower-casing and the comparison of a pattern with a text are parameters; regular expressions, label patterns and the reading of rule files are not modelled.
- `Integer.parseInt` on a count that is not a plain numeral: the count of a list of links is taken to be one.
- SemanticGroups.AddGroupMember: requires that below the node added groups are not nested in a cycle, because the source does not return from such groups; that the receiver holds no text; and that a receiver without members is not itself among the nodes to be added: if its turn comes first it becomes a member of itself, and the source does not return if it comes to it again, while after another node it is a group and nothing more happens.
- SemanticGroups.RepairGroup: requires that below the group repaired groups are not nested in a cycle, for the same reason.
- AppendActions.AppendToSelf: requires that below the other node groups are not nested in a cycle, and that a node that is no group is not its own parent under a member key, because it would become a member of its own member.
- SemanticGroups.RemoveGroupMember: requires that the members are numbered without gaps, which every group operation keeps.
- WordChains.ApplyTo: requires the links of a sentence to run from left to right with at most one chaining link a side, and every word to have a string; without that the source meets null.
- LinkLists.SetLinkFeatures: requires that the two words do not keep their counts in one shared node; `LinkLists.OthersKeepLinks` says what happens otherwise.
- Traversals.Foreach: the relation callbacks on top of the crawl are not modelled but for the walk over members, and callbacks do not change the graph.
- The remaining views, chunk confidences, two-word algorithms, getters and setters: easy members.
- WordNet, the link parser, the morphology and the loading of algorithm files: input and output.
- Callbacks: exceptions thrown by callbacks, and arguments given as nested arrays, which come as one list of functions. A run empties the list only when it can be emptied; `Callbacks.EmptyExactly` says that any other time breaks some continuation.
- Deferreds: the object is modelled as a step function on its variables, not as a class; aliasing between deferreds is not captured.
- `then`, `always`, `pipe` and `promise`: they add callbacks that belong to another deferred.
- WhenAll: the awaited deferreds are given by how they are settled and when they call back, each at most once as `Deferreds.SettledForGood` has it; a call with one promise returns that promise and is not modelled.
- WhenAll.ProgressPassedOn: the contexts passed on are a copy; the source hands over its own array, in which later news shows.
- SelectorMemo: element filters do not change elements and start no nested run; set and positional matchers, `:has`, `:not`, tokenizing and the fractional run numbers of nested runs are not modelled.
- DocumentOrder.Results.SortOrder: the branches for browsers that can compare positions or source indexes.
- DocumentOrder.Results.UniqueSort: the engine's sort itself; what it leaves, and the pairs it had compared, are parameters.
- Luhn.CreditCard: the test whether the field is optional.
- The rest of the script library, the C# projects and the LaTeX scripts: user interface, wiring, or no logic to prove.
