// Conjunction groups: adding and removing members, flattening nested groups, walking the members.
module SemanticGroups {
  import opened Prelude
  import opened FeatureGraph
  import opened FeaturePaths
  import opened FeatureNodes
  import opened MemberKeys

  // ---------------------------------------------------------------- groups as a relation

  ghost predicate IsMember<N>(g: Graph<N>, n: N, x: N) {
    n in g && g[n].Features? && exists k :: k in GroupKeys(g[n].kv) && g[n].kv[k] == x
  }

  ghost predicate IsGroup<N>(g: Graph<N>, n: N) {
    n in g && g[n].Features? && GroupKeys(g[n].kv) != {}
  }

  // Below the ranked nodes groups are not nested in a cycle: what a ranked node holds is ranked, and below it if
  // it is a group.
  ghost predicate Ranked<N>(g: Graph<N>, rank: map<N, nat>) {
    && rank.Keys <= g.Keys
    && forall n, k :: n in rank && g[n].Features? && k in GroupKeys(g[n].kv) ==>
         g[n].kv[k] in rank && (IsGroup(g, g[n].kv[k]) ==> rank[g[n].kv[k]] < rank[n])
  }

  ghost predicate MemberSteps(path: Path) {
    forall k :: k in path ==> IsMemberKey(k)
  }

  // The nodes that are no groups and are reached from n by member keys alone.
  ghost predicate LeafOf<N>(g: Graph<N>, n: N, x: N) {
    !IsGroup(g, x) && exists path :: MemberSteps(path) && Target(g, n, path) == Some(x)
  }

  ghost function Leaves<N>(g: Graph<N>, n: N): set<N> {
    set x | x in g && LeafOf(g, n, x)
  }

  ghost function LeavesOfAll<N>(g: Graph<N>, ns: seq<N>): set<N> {
    set x, i | 0 <= i < |ns| && x in Leaves(g, ns[i]) :: x
  }

  lemma {:induction false} MemberPathRank<N>(g: Graph<N>, rank: map<N, nat>, n: N, path: Path)
    requires Ranked(g, rank) && n in rank && MemberSteps(path) && Target(g, n, path).Some?
    ensures Target(g, n, path).value in rank
    ensures path != [] && IsGroup(g, Target(g, n, path).value) ==> rank[Target(g, n, path).value] < rank[n]
    decreases |path|
  {
    if path != [] {
      assert path[0] in path && path[0] in GroupKeys(g[n].kv);
      var m := g[n].kv[path[0]];
      MemberPathRank(g, rank, m, path[1..]);
      if path[1..] != [] {
        assert path[1..][0] in path && path[1..][0] in GroupKeys(g[m].kv);
      }
    }
  }

  // Only groups of higher rank have changed.
  ghost predicate ChangedAbove<N>(g: Graph<N>, g': Graph<N>, rank: map<N, nat>, bound: nat)
    requires rank.Keys <= g.Keys
  {
    forall m :: m in rank && (IsGroup(g, m) ==> rank[m] <= bound) ==> m in g' && g'[m] == g[m]
  }

  lemma {:induction false} MemberPathStable<N>(g: Graph<N>, g': Graph<N>, rank: map<N, nat>, bound: nat, n: N,
                                               path: Path)
    requires Ranked(g, rank) && n in rank && MemberSteps(path)
    requires ChangedAbove(g, g', rank, bound) && (IsGroup(g, n) ==> rank[n] <= bound)
    ensures Target(g', n, path) == Target(g, n, path)
    ensures Target(g, n, path).Some? ==>
              var x := Target(g, n, path).value; x in rank && (IsGroup(g, x) ==> rank[x] <= bound)
    decreases |path|
  {
    if path != [] {
      assert path[0] in path;
      if Step(g, n, path[0]).Some? {
        assert path[0] in GroupKeys(g[n].kv);
        MemberPathStable(g, g', rank, bound, g[n].kv[path[0]], path[1..]);
      }
    }
  }

  // What lies below a node does not change while only higher groups change.
  lemma LeavesStable<N>(g: Graph<N>, g': Graph<N>, rank: map<N, nat>, n: N)
    requires Ranked(g, rank) && n in rank && g'.Keys == g.Keys && ChangedAbove(g, g', rank, rank[n])
    ensures Leaves(g', n) == Leaves(g, n)
  {
    forall x | x in g
      ensures LeafOf(g', n, x) <==> LeafOf(g, n, x)
    {
      forall path | MemberSteps(path)
        ensures Target(g', n, path) == Target(g, n, path)
        ensures Target(g, n, path) == Some(x) ==> g'[x] == g[x]
      {
        MemberPathStable(g, g', rank, rank[n], n, path);
      }
    }
  }

  lemma LeavesOfPlain<N>(g: Graph<N>, n: N)
    requires n in g && !IsGroup(g, n)
    ensures Leaves(g, n) == {n}
  {
    assert MemberSteps([]) && Target(g, n, []) == Some(n);
    forall x | LeafOf(g, n, x)
      ensures x == n
    {
      forall path | MemberSteps(path) && path != []
        ensures Target(g, n, path) == None
      {
        assert path[0] in path;
        assert g[n].Features? ==> path[0] !in GroupKeys(g[n].kv);
      }
      var path :| MemberSteps(path) && Target(g, n, path) == Some(x);
      assert Target(g, n, []) == Some(n);
    }
  }

  // The leaves of a group are those of its members.
  lemma LeavesOfGroup<N>(g: Graph<N>, rank: map<N, nat>, n: N, ms: seq<N>)
    requires Ranked(g, rank) && n in rank && IsGroup(g, n) && forall m :: m in g ==> (m in ms <==> IsMember(g, n, m))
    requires forall m :: m in ms ==> m in g
    ensures Leaves(g, n) == LeavesOfAll(g, ms)
  {
    forall x | x in Leaves(g, n)
      ensures x in LeavesOfAll(g, ms)
    {
      var path :| MemberSteps(path) && Target(g, n, path) == Some(x);
      assert path != [];
      assert path[0] in path && path[0] in GroupKeys(g[n].kv);
      var m := g[n].kv[path[0]];
      assert MemberSteps(path[1..]) && Target(g, m, path[1..]) == Some(x);
      assert IsMember(g, n, m);
      var i :| 0 <= i < |ms| && ms[i] == m;
      assert x in Leaves(g, ms[i]);
    }
    forall x | x in LeavesOfAll(g, ms)
      ensures x in Leaves(g, n)
    {
      var i :| 0 <= i < |ms| && x in Leaves(g, ms[i]);
      var path :| MemberSteps(path) && Target(g, ms[i], path) == Some(x);
      assert ms[i] in ms;
      var k :| k in GroupKeys(g[n].kv) && g[n].kv[k] == ms[i];
      assert ([k] + path)[1..] == path;
      assert MemberSteps([k] + path) && Target(g, n, [k] + path) == Some(x);
    }
  }

  // A flat group's leaves are its members.
  lemma LeavesOfFlat<N>(g: Graph<N>, rank: map<N, nat>, n: N, ms: seq<N>)
    requires Ranked(g, rank) && n in rank && IsGroup(g, n) && (forall m :: m in g ==> (m in ms <==> IsMember(g, n, m)))
    requires forall m :: m in ms ==> m in g && !IsGroup(g, m)
    ensures Leaves(g, n) == Elements(ms)
  {
    LeavesOfGroup(g, rank, n, ms);
    forall i | 0 <= i < |ms|
      ensures Leaves(g, ms[i]) == {ms[i]}
    {
      assert ms[i] in ms;
      LeavesOfPlain(g, ms[i]);
    }
    assert forall x :: x in ms ==> x in Leaves(g, x);
    assert LeavesOfAll(g, ms) <= Elements(ms);
    forall x | x in ms
      ensures x in LeavesOfAll(g, ms)
    {
      var i :| 0 <= i < |ms| && ms[i] == x;
      assert x in Leaves(g, ms[i]);
    }
  }

  // ---------------------------------------------------------------- members

  // The members in whatever order the key table yields its keys.
  method GroupMembers(ths: FeatureNode, ghost w: NodeHeap) returns (members: seq<FeatureNode>)
    requires w.Valid() && ths in w.graph
    ensures forall x :: x in members ==> x in w.graph
    ensures forall x :: x in w.graph ==> (x in members <==> IsMember(w.graph, ths, x))
    ensures w.graph[ths].Features? ==> |members| == |GroupKeys(w.graph[ths].kv)|
    ensures members != [] <==> IsGroup(w.graph, ths)
  {
    assert w.Sound(ths);
    if ths.IsValued() {
      return [];
    }
    members := CollectMembers(ths.kvPairs.value);
    assert members == [] ==> GroupKeys(ths.kvPairs.value) == {};
  }

  method CollectMembers<N>(kv: map<Key, N>) returns (members: seq<N>)
    ensures Collects(kv, GroupKeys(kv), members)
  {
    members := [];
    var names := kv.Keys;
    ghost var seen: set<Key> := {};
    while names != {}
      invariant names <= kv.Keys && seen == GroupKeys(kv) - names
      invariant Collects(kv, seen, members)
      decreases names
    {
      var name :| name in names;
      KeysLeft(kv, names, name);
      names := names - {name};
      if IsMemberKey(name) {
        CollectsMore(kv, seen, members, name);
        members := members + [kv[name]];
        seen := seen + {name};
      }
    }
    assert seen == GroupKeys(kv);
  }

  lemma KeysLeft<N>(kv: map<Key, N>, names: set<Key>, name: Key)
    requires name in names && names <= kv.Keys
    ensures GroupKeys(kv) - (names - {name}) == GroupKeys(kv) - names + if IsMemberKey(name) then {name} else {}
  {
  }

  // These are the nodes under the keys seen, one entry for each key.
  ghost predicate Collects<N>(kv: map<Key, N>, seen: set<Key>, members: seq<N>) {
    && seen <= kv.Keys && |members| == |seen|
    && (forall x :: x in members ==> exists k :: k in seen && kv[k] == x)
    && forall k :: k in seen ==> kv[k] in members
  }

  lemma CollectsMore<N>(kv: map<Key, N>, seen: set<Key>, members: seq<N>, k: Key)
    requires Collects(kv, seen, members) && k in kv && k !in seen
    ensures Collects(kv, seen + {k}, members + [kv[k]])
  {
    forall x | x in members + [kv[k]]
      ensures exists k' :: k' in seen + {k} && kv[k'] == x
    {
      if x in members {
        var k' :| k' in seen && kv[k'] == x;
        assert k' in seen + {k};
      } else {
        assert k in seen + {k} && kv[k] == x;
      }
    }
    assert kv[k] in members + [kv[k]];
  }

  method NumMembers(ths: FeatureNode, ghost w: NodeHeap) returns (n: nat)
    requires w.Valid() && ths in w.graph
    ensures n == if w.graph[ths].Text? then 0 else |GroupKeys(w.graph[ths].kv)|
  {
    var members := GroupMembers(ths, w);
    n := |members|;
  }

  // Walks member0, member1, ... until one is missing.
  method WalkMembers(ths: FeatureNode, ghost s: seq<FeatureNode>, ghost w: NodeHeap) returns (visited: seq<FeatureNode>)
    requires w.Valid() && ths in w.graph && w.graph[ths].Features? && Numbered(w.graph[ths].kv, s)
    ensures visited == s && Distinct(visited)
    ensures forall x :: x in w.graph ==> (x in visited <==> IsMember(w.graph, ths, x))
  {
    assert w.Sound(ths);
    visited := [];
    var n := 0;
    while MemberKey(n) in ths.kvPairs.value
      invariant n == |visited| <= |s| && visited == s[..n]
      decreases |s| - n
    {
      NumberedFacts(ths.kvPairs.value, s, n);
      visited := visited + [ths.kvPairs.value[MemberKey(n)]];
      n := n + 1;
    }
    NumberedFacts(ths.kvPairs.value, s, n);
    forall x | x in w.graph
      ensures x in visited <==> IsMember(w.graph, ths, x)
    {
      ListedMembers(w.graph[ths].kv, s, FirstKeys(|s|), x);
    }
  }

  // ---------------------------------------------------------------- adding

  // Only the group changed: it lists s' where it listed s, and its other keys are as before.
  ghost predicate Relisted<N>(g: Graph<N>, g': Graph<N>, ths: N, s: seq<N>, s': seq<N>) {
    && ths in g && ths in g' && g[ths].Features? && g'[ths].Features?
    && g' == g[ths := g'[ths]]
    && SameRest(g[ths].kv, g'[ths].kv)
    && Numbered(g'[ths].kv, s')
  }

  // A node with its list of members.  If it is ranked itself, it ranks below those that hold it, as it may become
  // a group.
  ghost predicate Listing<N>(g: Graph<N>, rank: map<N, nat>, ths: N, s: seq<N>) {
    && Ranked(g, rank) && ths in g && g[ths].Features?
    && Numbered(g[ths].kv, s) && (forall x :: x in s ==> x in g)
    && (ths in rank ==> forall p :: p in rank && IsMember(g, p, ths) ==> rank[ths] < rank[p])
  }

  lemma GroupListing<N>(g: Graph<N>, rank: map<N, nat>, ths: N, s: seq<N>)
    requires Closed(g) && Ranked(g, rank) && IsGroup(g, ths) && Numbered(g[ths].kv, s)
    ensures Listing(g, rank, ths, s)
  {
    forall x | x in s
      ensures x in g
    {
      ListedMembers(g[ths].kv, s, FirstKeys(|s|), x);
    }
  }

  // A node may be listed by a ranked one.
  ghost predicate MayHold<N>(g: Graph<N>, rank: map<N, nat>, ths: N, x: N) {
    x in g && (ths in rank ==> x in rank && x != ths && (IsGroup(g, x) ==> rank[x] < rank[ths]))
  }

  lemma ListedBelow<N>(g: Graph<N>, rank: map<N, nat>, ths: N, s: seq<N>, x: N)
    requires Listing(g, rank, ths, s) && x in s
    ensures IsGroup(g, ths) && IsMember(g, ths, x) && MayHold(g, rank, ths, x)
  {
    ListedMembers(g[ths].kv, s, FirstKeys(|s|), x);
  }

  // The graph stays ranked when the members of one group are replaced by nodes of lower rank.
  lemma RelistedRanked<N>(g: Graph<N>, g': Graph<N>, rank: map<N, nat>, ths: N, s: seq<N>, s': seq<N>)
    requires Listing(g, rank, ths, s) && Relisted(g, g', ths, s, s')
    requires forall x :: x in s' ==> MayHold(g, rank, ths, x)
    ensures Listing(g', rank, ths, s')
  {
    forall k | k in GroupKeys(g'[ths].kv)
      ensures g'[ths].kv[k] in s'
    {
      ListedMembers(g'[ths].kv, s', FirstKeys(|s'|), g'[ths].kv[k]);
    }
    assert forall m :: m in g && m != ths ==> (IsGroup(g', m) <==> IsGroup(g, m));
    forall n, k | n in rank && g'[n].Features? && k in GroupKeys(g'[n].kv)
      ensures g'[n].kv[k] in rank && (IsGroup(g', g'[n].kv[k]) ==> rank[g'[n].kv[k]] < rank[n])
    {
      if n != ths && g'[n].kv[k] == ths {
        assert IsMember(g, n, ths);
      } else if n == ths {
        assert MayHold(g, rank, ths, g'[n].kv[k]);
      }
    }
    if ths in rank {
      assert forall p :: p in rank && IsMember(g', p, ths) ==> p != ths && IsMember(g, p, ths);
    }
  }

  // The state of a group after `added` has been added to it.
  ghost predicate Added<N>(g: Graph<N>, g': Graph<N>, rank: map<N, nat>, ths: N, s: seq<N>, s': seq<N>, added: set<N>) {
    && Relisted(g, g', ths, s, s') && s <= s'
    && Elements(s') == Elements(s) + added
    && Listing(g', rank, ths, s')
  }

  lemma AddedNothing<N>(g: Graph<N>, rank: map<N, nat>, ths: N, s: seq<N>)
    requires Listing(g, rank, ths, s)
    ensures Added(g, g, rank, ths, s, s, {})
  {
    assert g == g[ths := g[ths]];
  }

  lemma AddedMore<N>(g: Graph<N>, g1: Graph<N>, g2: Graph<N>, rank: map<N, nat>, ths: N, s: seq<N>, s1: seq<N>,
                     s2: seq<N>,
                     added: set<N>, more: set<N>)
    requires Added(g, g1, rank, ths, s, s1, added) && Added(g1, g2, rank, ths, s1, s2, more)
    ensures Added(g, g2, rank, ths, s, s2, added + more)
  {
    RelistedTwice(g, g1, g2, ths, s, s1, s2);
  }

  // Adding has kept every member key and its node, and new ones lead to what was added.
  lemma AddedSteps<N>(g: Graph<N>, g': Graph<N>, rank: map<N, nat>, ths: N, s: seq<N>, s': seq<N>, added: set<N>)
    requires Listing(g, rank, ths, s) && Added(g, g', rank, ths, s, s', added)
    ensures Extends(g, g')
    ensures forall k :: k in GroupKeys(g'[ths].kv) && k !in g[ths].kv ==> g'[ths].kv[k] in added
  {
    forall k | k in g[ths].kv
      ensures k in g'[ths].kv && g'[ths].kv[k] == g[ths].kv[k]
    {
      if IsMemberKey(k) {
        assert k in GroupKeys(g[ths].kv);
        var i :| 0 <= i < |s| && FirstKeys(|s|)[i] == k;
        FirstKeyAt(|s|, i);
        NumberedFacts(g[ths].kv, s, i);
        NumberedFacts(g'[ths].kv, s', i);
      }
    }
    forall k | k in GroupKeys(g'[ths].kv) && k !in g[ths].kv
      ensures g'[ths].kv[k] in added
    {
      var i :| 0 <= i < |s'| && FirstKeys(|s'|)[i] == k;
      FirstKeyAt(|s'|, i);
      NumberedFacts(g'[ths].kv, s', i);
      if i < |s| {
        NumberedFacts(g[ths].kv, s, i);
      } else {
        assert forall j :: 0 <= j < |s| ==> s[j] == s'[j] && s'[j] != s'[i];
        assert s'[i] in Elements(s');
      }
    }
  }

  lemma PlainEnds<N>(g: Graph<N>, n: N, path: Path)
    requires !IsGroup(g, n) && MemberSteps(path)
    ensures path == [] || Target(g, n, path) == None
  {
    assert forall k :: k in path && Step(g, n, k).Some? ==> k in GroupKeys(g[n].kv);
    assert path == [] || path[0] in path;
  }

  // A path to a leaf was there before nodes were added, or the leaf is one of these.
  lemma {:induction false} GrownPath<N>(g: Graph<N>, g': Graph<N>, rank: map<N, nat>, ths: N, added: set<N>, n: N,
                                        path: Path)
    requires Extends(g, g') && ths in g && g[ths].Features? && g'[ths].Features? && g' == g[ths := g'[ths]]
    requires Ranked(g, rank) && n in rank
    requires forall k :: k in GroupKeys(g'[ths].kv) && k !in g[ths].kv ==> g'[ths].kv[k] in added
    requires forall x :: x in added ==> x in g && x != ths && !IsGroup(g, x)
    requires MemberSteps(path) && Target(g', n, path).Some?
    ensures Target(g, n, path) == Target(g', n, path) || Target(g', n, path).value in added
    decreases |path|
  {
    if path != [] {
      var k, rest := path[0], path[1..];
      assert k in path;
      if Step(g, n, k).Some? {
        assert k in GroupKeys(g[n].kv);
        GrownPath(g, g', rank, ths, added, g[n].kv[k], rest);
      } else {
        assert n == ths && k in GroupKeys(g'[ths].kv);
        PlainEnds(g', g'[ths].kv[k], rest);
      }
    }
  }

  // Adding leaves below a node to a group leaves the same below it, apart from these.
  lemma LeavesGrow<N>(g: Graph<N>, g': Graph<N>, rank: map<N, nat>, ths: N, s: seq<N>, s': seq<N>, added: set<N>, n: N)
    requires Listing(g, rank, ths, s) && Added(g, g', rank, ths, s, s', added)
    requires n in rank && ths !in Leaves(g, n) && forall x :: x in added ==> x in g && x != ths && !IsGroup(g, x)
    ensures Leaves(g, n) <= Leaves(g', n) <= Leaves(g, n) + added
  {
    AddedSteps(g, g', rank, ths, s, s', added);
    forall x | x in Leaves(g, n)
      ensures x in Leaves(g', n)
    {
      var path :| MemberSteps(path) && Target(g, n, path) == Some(x);
      ExtendsKeepsPaths(g, g', n, path);
    }
    forall x | x in Leaves(g', n)
      ensures x in Leaves(g, n) + added
    {
      var path :| MemberSteps(path) && Target(g', n, path) == Some(x);
      GrownPath(g, g', rank, ths, added, n, path);
      assert IsGroup(g, x) ==> IsGroup(g', x);
    }
  }

  lemma AddedNext<N>(g: Graph<N>, g1: Graph<N>, g2: Graph<N>, rank: map<N, nat>, ths: N, s: seq<N>, s1: seq<N>,
                     s2: seq<N>, ms: seq<N>, i: nat)
    requires Listing(g, rank, ths, s) && i < |ms| && ms[i] in rank
    requires Leaves(g, ms[i]) <= Leaves(g1, ms[i]) <= Leaves(g, ms[i]) + LeavesOfAll(g, ms[..i])
    requires Added(g, g1, rank, ths, s, s1, LeavesOfAll(g, ms[..i]))
             && Added(g1, g2, rank, ths, s1, s2, Leaves(g1, ms[i]))
    ensures Added(g, g2, rank, ths, s, s2, LeavesOfAll(g, ms[..i + 1]))
  {
    LeavesOfMore(g, ms, i + 1);
    AddedMore(g, g1, g2, rank, ths, s, s1, s2, LeavesOfAll(g, ms[..i]), Leaves(g1, ms[i]));
    assert LeavesOfAll(g, ms[..i]) + Leaves(g1, ms[i]) == LeavesOfAll(g, ms[..i + 1]);
  }

  // How deep groups can be nested below a node.
  ghost function Height<N>(g: Graph<N>, rank: map<N, nat>, n: N): nat
    requires n in rank
  {
    if IsGroup(g, n) then rank[n] + 1 else 0
  }

  // Adds a node, or the members of a group, however deep they are nested.  `s` is the list before, the
  // result the list after.  A node without members yet must not be among those to be added to it: if its turn came
  // first, it would become a member of itself.
  method AddGroupMember(ths: FeatureNode, other: FeatureNode, ghost s: seq<FeatureNode>,
                        ghost rank: map<FeatureNode, nat>, ghost w: NodeHeap)
    returns (ghost s': seq<FeatureNode>)
    requires w.Valid() && other in rank && Listing(w.graph, rank, ths, s) && ths !in Leaves(w.graph, other)
    modifies w, w.graph.Keys
    ensures w.Valid()
    ensures Added(old(w.graph), w.graph, rank, ths, s, s', Leaves(old(w.graph), other))
    decreases Height(w.graph, rank, other), 1
  {
    var members := GroupMembers(other, w);
    if members == [] {
      LeavesOfPlain(w.graph, other);
      s' := AddPlainMember(ths, other, s, rank, w);
    } else {
      LeavesOfGroup(w.graph, rank, other, members);
      forall i | 0 <= i < |members|
        ensures members[i] in rank && ths !in Leaves(w.graph, members[i])
        ensures Height(w.graph, rank, members[i]) < Height(w.graph, rank, other)
      {
        assert members[i] in members && IsMember(w.graph, other, members[i]);
      }
      s' := AddEach(ths, members, Height(w.graph, rank, other), s, rank, w);
    }
  }

  // The case of a group: its members one after the other.
  method AddEach(ths: FeatureNode, members: seq<FeatureNode>, ghost bound: nat, ghost s: seq<FeatureNode>,
                 ghost rank: map<FeatureNode, nat>, ghost w: NodeHeap)
    returns (ghost s': seq<FeatureNode>)
    requires w.Valid() && Listing(w.graph, rank, ths, s)
    requires forall m :: m in members ==> m in rank && ths !in Leaves(w.graph, m) && Height(w.graph, rank, m) < bound
    modifies w, w.graph.Keys
    ensures w.Valid()
    ensures Added(old(w.graph), w.graph, rank, ths, s, s', LeavesOfAll(old(w.graph), members))
    decreases bound, 0
  {
    ghost var g0 := w.graph;
    s' := s;
    AddedNothing(g0, rank, ths, s);
    var i := 0;
    while i < |members|
      invariant i <= |members| && w.Valid()
      invariant Added(g0, w.graph, rank, ths, s, s', LeavesOfAll(g0, members[..i]))
    {
      ghost var g, s1 := w.graph, s';
      AddingOn(g0, g, rank, ths, s, s1, members, i);
      s' := AddGroupMember(ths, members[i], s1, rank, w);
      AddedNext(g0, g, w.graph, rank, ths, s, s1, s', members, i);
      i := i + 1;
    }
    assert members[..|members|] == members;
  }

  // After the first i members have been added, the next one still has what it had below it, or more of the same.
  lemma AddingOn<N>(g: Graph<N>, g1: Graph<N>, rank: map<N, nat>, ths: N, s: seq<N>, s1: seq<N>, ms: seq<N>, i: nat)
    requires Listing(g, rank, ths, s) && i < |ms| && Added(g, g1, rank, ths, s, s1, LeavesOfAll(g, ms[..i]))
    requires forall m :: m in ms ==> m in rank && ths !in Leaves(g, m)
    ensures Leaves(g, ms[i]) <= Leaves(g1, ms[i]) <= Leaves(g, ms[i]) + LeavesOfAll(g, ms[..i])
    ensures ths !in Leaves(g1, ms[i]) && Height(g1, rank, ms[i]) == Height(g, rank, ms[i])
  {
    assert ms[i] in ms;
    forall x | x in LeavesOfAll(g, ms[..i])
      ensures x in g && x != ths && !IsGroup(g, x)
    {
      var j :| 0 <= j < i && x in Leaves(g, ms[..i][j]);
      assert ms[j] in ms;
    }
    LeavesGrow(g, g1, rank, ths, s, s1, LeavesOfAll(g, ms[..i]), ms[i]);
    AddedSteps(g, g1, rank, ths, s, s1, LeavesOfAll(g, ms[..i]));
    if ms[i] == ths {
      if !IsGroup(g, ths) {
        LeavesOfPlain(g, ths);
      }
      var k :| k in GroupKeys(g[ths].kv);
      assert Step(g1, ths, k) == Step(g, ths, k) && k in GroupKeys(g1[ths].kv);
    }
  }

  lemma PlainAdded<N>(g: Graph<N>, rank: map<N, nat>, ths: N, s: seq<N>, other: N)
    requires Listing(g, rank, ths, s) && other !in s && !IsGroup(g, other) && MayHold(g, rank, ths, other)
    ensures Added(g, WithEdge(g, ths, MemberKey(|s|), other), rank, ths, s, s + [other], {other})
  {
    NumberedAppend(g[ths].kv, s, other);
    forall x | x in s
      ensures MayHold(g, rank, ths, x)
    {
      ListedBelow(g, rank, ths, s, x);
    }
    RelistedRanked(g, WithEdge(g, ths, MemberKey(|s|), other), rank, ths, s, s + [other]);
  }

  // The case of a node that is no group: it goes under the next number, unless it is listed already.  The list
  // stays free of groups exactly if the node is not added to itself.
  method AddPlainMember(ths: FeatureNode, other: FeatureNode, ghost s: seq<FeatureNode>,
                        ghost rank: map<FeatureNode, nat>, ghost w: NodeHeap)
    returns (ghost s': seq<FeatureNode>)
    requires w.Valid() && other in w.graph && Listing(w.graph, rank, ths, s) && !IsGroup(w.graph, other)
    requires ths in rank ==> other in rank
    modifies w, w.graph.Keys
    ensures w.Valid()
    ensures s' == if other in s then s else s + [other]
    ensures PlainAddition(old(w.graph), w.graph, rank, ths, s, s', other)
  {
    ghost var g0 := w.graph;
    var listed := GroupMembers(ths, w);
    ListedMembers(g0[ths].kv, s, FirstKeys(|s|), other);
    NumberedFacts(g0[ths].kv, s, 0);
    s' := if other in s then s else s + [other];
    if other !in listed {
      var _ := ths.Set(MemberKey(|listed|), other, w);
    }
    PlainAdds(g0, w.graph, rank, ths, s, s', other);
  }

  // What adding a node that is no group does: the node is listed, and the list stays free of groups exactly if
  // the node was not added to itself.
  ghost predicate PlainAddition<N>(g: Graph<N>, g': Graph<N>, rank: map<N, nat>, ths: N, s: seq<N>, s': seq<N>,
                                 other: N) {
    && Relisted(g, g', ths, s, s')
    && (other != ths ==> Added(g, g', rank, ths, s, s', {other}))
    && ((forall x :: x in s ==> !IsGroup(g, x)) ==> ((forall x :: x in s' ==> !IsGroup(g', x)) <==> other != ths))
  }

  lemma PlainAdds<N>(g: Graph<N>, g': Graph<N>, rank: map<N, nat>, ths: N, s: seq<N>, s': seq<N>, other: N)
    requires other in g && Listing(g, rank, ths, s) && !IsGroup(g, other) && (ths in rank ==> other in rank)
    requires s' == if other in s then s else s + [other]
    requires g' == if other in s then g else WithEdge(g, ths, MemberKey(|s|), other)
    ensures PlainAddition(g, g', rank, ths, s, s', other)
  {
    if other in s {
      ListedBelow(g, rank, ths, s, other);
      AddedNothing(g, rank, ths, s);
      assert g == g[ths := g[ths]];
    } else {
      NumberedAppend(g[ths].kv, s, other);
      if other != ths {
        PlainAdded(g, rank, ths, s, other);
      }
    }
    if forall x :: x in s ==> !IsGroup(g, x) {
      PlainStaysFree(g, g', ths, s, s', other);
    }
  }

  // What becomes of the members when a node that is no group is added.
  lemma PlainStaysFree<N>(g: Graph<N>, g': Graph<N>, ths: N, s: seq<N>, s': seq<N>, other: N)
    requires Relisted(g, g', ths, s, s') && Numbered(g[ths].kv, s) && !IsGroup(g, other)
    requires s' == (if other in s then s else s + [other]) && forall x :: x in s ==> !IsGroup(g, x)
    ensures (forall x :: x in s' ==> !IsGroup(g', x)) <==> other != ths
  {
    ListedMembers(g[ths].kv, s, FirstKeys(|s|), ths);
    assert other in s';
    ListedMembers(g'[ths].kv, s', FirstKeys(|s'|), other);
    assert IsGroup(g', ths);
    assert ths in s ==> IsGroup(g, ths);
  }

  lemma LeavesOfMore<N>(g: Graph<N>, ns: seq<N>, i: nat)
    requires 0 < i <= |ns|
    ensures LeavesOfAll(g, ns[..i]) == LeavesOfAll(g, ns[..i - 1]) + Leaves(g, ns[i - 1])
  {
    forall x | x in LeavesOfAll(g, ns[..i - 1]) || x in Leaves(g, ns[i - 1])
      ensures x in LeavesOfAll(g, ns[..i])
    {
      if x in Leaves(g, ns[i - 1]) {
        assert x in Leaves(g, ns[..i][i - 1]);
      } else {
        var j :| 0 <= j < i - 1 && x in Leaves(g, ns[..i - 1][j]);
        assert x in Leaves(g, ns[..i][j]);
      }
    }
    forall x | x in LeavesOfAll(g, ns[..i])
      ensures x in LeavesOfAll(g, ns[..i - 1]) || x in Leaves(g, ns[i - 1])
    {
      var j :| 0 <= j < i && x in Leaves(g, ns[..i][j]);
      if j < i - 1 {
        assert x in Leaves(g, ns[..i - 1][j]);
      }
    }
  }

  // ---------------------------------------------------------------- removing

  ghost function PositionOf<T>(s: seq<T>, x: T): (i: nat)
    ensures i <= |s| && x !in s[..i] && (i < |s| ==> s[i] == x)
  {
    if s == [] || s[0] == x then 0 else 1 + PositionOf(s[1..], x)
  }

  // The i-th of n member keys.
  method KeyAt(i: nat, ghost n: nat) returns (k: Key)
    requires i < n
    ensures k == FirstKeys(n)[i]
  {
    FirstKeyAt(n, i);
    k := MemberKey(i);
  }

  // Moves the member after the i-th one down to it, or drops the i-th one when it is the last.
  method MoveDown(ths: FeatureNode, i: nat, n: nat, ghost kv0: map<Key, FeatureNode>, ghost s: seq<FeatureNode>,
                  ghost pos: nat, ghost w: NodeHeap)
    returns (ghost kv: map<Key, FeatureNode>)
    requires w.Valid() && ths in w.graph && w.graph[ths].Features? && pos <= i < n == |s|
    requires Distinct(FirstKeys(n)) && Shifting(kv0, s, FirstKeys(n), pos, i, w.graph[ths].kv)
    modifies w, w.graph.Keys
    ensures w.Valid() && w.graph == old(w.graph)[ths := Features(kv)]
    ensures Shifting(kv0, s, FirstKeys(n), pos, i + 1, kv)
  {
    kv := w.graph[ths].kv;
    ghost var g := w.graph;
    ShiftingMoves(kv0, s, FirstKeys(n), pos, i, kv);
    assert w.Sound(ths);
    var k := KeyAt(i, n);
    if i == n - 1 {
      var _ := ths.Set(k, null, w);
      kv := kv - {k};
    } else {
      var k1 := KeyAt(i + 1, n);
      var next := ths.kvPairs.value[k1];
      assert g[ths].kv[k1] == next && next in g;
      var _ := ths.Set(k, next, w);
      kv := kv[k := next];
    }
  }

  // Removes a member and moves the later ones down, so that the numbers stay contiguous.
  method RemoveGroupMember(ths: FeatureNode, other: FeatureNode, ghost s: seq<FeatureNode>, ghost w: NodeHeap)
    requires w.Valid() && ths in w.graph && w.graph[ths].Features? && Numbered(w.graph[ths].kv, s)
    modifies w, w.graph.Keys
    ensures w.Valid()
    ensures Relisted(old(w.graph), w.graph, ths, s, DropAt(s, PositionOf(s, other)))
  {
    ghost var g0, kv0, kv := w.graph, w.graph[ths].kv, w.graph[ths].kv;
    ghost var pos, ks := PositionOf(s, other), FirstKeys(|s|);
    var n := NumMembers(ths, w);
    NumberedFacts(kv0, s, 0);
    var found, i := false, 0;
    while i < n
      invariant i <= n == |s| && w.Valid()
      invariant found <==> pos < i
      invariant w.graph == g0[ths := Features(kv)]
      invariant Shifting(kv0, s, ks, pos, i, kv)
    {
      assert w.Sound(ths);
      var k := KeyAt(i, n);
      assert ks[i] == k && k in kv && kv[k] == s[i];
      if ths.kvPairs.value[k] == other {
        found := true;
      }
      if found {
        kv := MoveDown(ths, i, n, kv0, s, pos, w);
      }
      i := i + 1;
    }
    ShiftingEnds(kv0, s, ks, pos, kv);
  }

  // ---------------------------------------------------------------- repairing

  lemma DropAtElements<T>(s: seq<T>, x: T)
    requires Distinct(s)
    ensures Elements(DropAt(s, PositionOf(s, x))) == Elements(s) - {x}
    ensures Distinct(DropAt(s, PositionOf(s, x)))
  {
    var i := PositionOf(s, x);
    var t := DropAt(s, i);
    forall y | y in s && y != x
      ensures y in t
    {
      var j :| 0 <= j < |s| && s[j] == y;
      assert j != i;
      assert t[if j < i then j else j - 1] == y;
    }
    if i < |s| {
      assert forall j :: 0 <= j < |t| ==> t[j] == s[if j < i then j else j + 1];
    }
  }

  // What repairing a group does to the list of one group that held it.
  ghost predicate RepairedList<N>(g: Graph<N>, ths: N, s: seq<N>, s': seq<N>) {
    && DropAt(s, PositionOf(s, ths)) <= s'
    && Elements(s') == Elements(s) - {ths} + Leaves(g, ths)
  }

  // Puts the leaves of a group in the group's place.
  method RepairParent(sp: FeatureNode, ths: FeatureNode, ghost s: seq<FeatureNode>,
                      ghost rank: map<FeatureNode, nat>, ghost w: NodeHeap)
    returns (ghost s': seq<FeatureNode>)
    requires w.Valid() && ths in rank && IsGroup(w.graph, ths)
    requires Listing(w.graph, rank, sp, s) && IsMember(w.graph, sp, ths)
    modifies w, w.graph.Keys
    ensures w.Valid()
    ensures Relisted(old(w.graph), w.graph, sp, s, s') && Ranked(w.graph, rank)
    ensures RepairedList(old(w.graph), ths, s, s')
  {
    ghost var g0 := w.graph;
    RemoveGroupMember(sp, ths, s, w);
    ghost var g1 := w.graph;
    RemovedListing(g0, g1, rank, sp, ths, s);
    RemovedLeaves(g0, g1, rank, sp, ths, s);
    s' := AddGroupMember(sp, ths, DropAt(s, PositionOf(s, ths)), rank, w);
    RemovedThenAdded(g0, g1, w.graph, rank, sp, ths, s, s');
  }

  lemma RemovedListing<N>(g: Graph<N>, g1: Graph<N>, rank: map<N, nat>, sp: N, ths: N, s: seq<N>)
    requires Listing(g, rank, sp, s) && Relisted(g, g1, sp, s, DropAt(s, PositionOf(s, ths)))
    ensures Listing(g1, rank, sp, DropAt(s, PositionOf(s, ths)))
  {
    var s1 := DropAt(s, PositionOf(s, ths));
    DropAtElements(s, ths);
    forall x | x in s1
      ensures MayHold(g, rank, sp, x)
    {
      assert x in Elements(s1) && x in s;
      ListedBelow(g, rank, sp, s, x);
    }
    RelistedRanked(g, g1, rank, sp, s, s1);
  }

  // What is below a group stays as it is while the group is taken out of another.
  lemma RemovedLeaves<N>(g: Graph<N>, g1: Graph<N>, rank: map<N, nat>, sp: N, ths: N, s: seq<N>)
    requires Listing(g, rank, sp, s) && ths in rank && IsGroup(g, ths) && IsMember(g, sp, ths)
    requires Relisted(g, g1, sp, s, DropAt(s, PositionOf(s, ths)))
    ensures Leaves(g1, ths) == Leaves(g, ths) && sp !in Leaves(g1, ths)
  {
    LeavesStable(g, g1, rank, ths);
    assert IsGroup(g, sp);
  }

  lemma RemovedThenAdded<N>(g: Graph<N>, g1: Graph<N>, g2: Graph<N>, rank: map<N, nat>, sp: N, ths: N, s: seq<N>,
                            s': seq<N>)
    requires Listing(g, rank, sp, s) && ths in rank && IsGroup(g, ths) && IsMember(g, sp, ths)
    requires Relisted(g, g1, sp, s, DropAt(s, PositionOf(s, ths)))
    requires Added(g1, g2, rank, sp, DropAt(s, PositionOf(s, ths)), s', Leaves(g1, ths))
    ensures Relisted(g, g2, sp, s, s') && Ranked(g2, rank) && RepairedList(g, ths, s, s')
  {
    DropAtElements(s, ths);
    RemovedLeaves(g, g1, rank, sp, ths, s);
    RelistedTwice(g, g1, g2, sp, s, DropAt(s, PositionOf(s, ths)), s');
  }

  lemma RelistedTwice<N>(g: Graph<N>, g1: Graph<N>, g2: Graph<N>, n: N, s: seq<N>, s1: seq<N>, s2: seq<N>)
    requires Relisted(g, g1, n, s, s1) && Relisted(g1, g2, n, s1, s2)
    ensures Relisted(g, g2, n, s, s2)
  {
  }

  // The groups that hold ths.
  ghost function Holders<N>(g: Graph<N>, ths: N): set<N> {
    set p | p in g && IsMember(g, p, ths)
  }

  // The groups of `done` have been repaired and nothing else has changed.
  ghost predicate Repaired<N>(g: Graph<N>, g': Graph<N>, ths: N, done: set<N>, lists: map<N, seq<N>>,
                              lists': map<N, seq<N>>) {
    && g'.Keys == g.Keys && done <= g.Keys && done <= lists.Keys && done <= lists'.Keys
    && (forall n :: n in g && n !in done ==> g'[n] == g[n])
    && (forall p {:trigger RepairedAt(g, g', ths, p, lists[p], lists'[p])} :: p in done ==>
           RepairedAt(g, g', ths, p, lists[p], lists'[p]))
  }

  ghost predicate RepairedAt<N>(g: Graph<N>, g': Graph<N>, ths: N, p: N, s: seq<N>, s': seq<N>) {
    && p in g && p in g' && g[p].Features? && g'[p].Features? && SameRest(g[p].kv, g'[p].kv)
    && Numbered(g'[p].kv, s') && RepairedList(g, ths, s, s')
  }

  // Flattens: wherever this group is a member of a group, its leaves become members in its stead.
  method RepairGroup(ths: FeatureNode, ghost lists: map<FeatureNode, seq<FeatureNode>>,
                     ghost rank: map<FeatureNode, nat>, ghost w: NodeHeap)
    returns (ghost lists': map<FeatureNode, seq<FeatureNode>>)
    requires w.Valid() && ths in rank && Ranked(w.graph, rank)
    requires forall p :: p in Holders(w.graph, ths) ==> p in lists && Numbered(w.graph[p].kv, lists[p])
    modifies w, w.graph.Keys
    ensures w.Valid() && Ranked(w.graph, rank)
    ensures old(IsGroup(w.graph, ths)) ==>
              Repaired(old(w.graph), w.graph, ths, old(Holders(w.graph, ths)), lists, lists')
    ensures old(!IsGroup(w.graph, ths)) ==> w.graph == old(w.graph)
  {
    ghost var g0 := w.graph;
    lists' := map[];
    var members := GroupMembers(ths, w);
    if members == [] {
      return;
    }
    var semanticParents := SemanticParents(ths, w);
    lists' := RepairAll(semanticParents, ths, lists, rank, w);
  }

  method RepairAll(holders: set<FeatureNode>, ths: FeatureNode, ghost lists: map<FeatureNode, seq<FeatureNode>>,
                   ghost rank: map<FeatureNode, nat>, ghost w: NodeHeap)
    returns (ghost lists': map<FeatureNode, seq<FeatureNode>>)
    requires w.Valid() && ths in rank && IsGroup(w.graph, ths) && Ranked(w.graph, rank)
    requires holders == Holders(w.graph, ths)
    requires forall p :: p in holders ==> p in lists && Numbered(w.graph[p].kv, lists[p])
    modifies w, w.graph.Keys
    ensures w.Valid() && Ranked(w.graph, rank) && Repaired(old(w.graph), w.graph, ths, holders, lists, lists')
  {
    ghost var g0 := w.graph;
    lists' := map[];
    var todo := holders;
    ghost var done: set<FeatureNode> := {};
    while todo != {}
      invariant w.Valid() && Ranked(w.graph, rank)
      invariant forall p :: p in holders <==> p in todo || p in done
      invariant forall p :: p in todo ==> p !in done
      invariant Repaired(g0, w.graph, ths, done, lists, lists')
      decreases todo
    {
      var sp :| sp in todo;
      lists' := RepairNext(sp, ths, g0, done, lists, lists', rank, w);
      done, todo := done + {sp}, todo - {sp};
    }
    assert done == holders;
  }

  method RepairNext(sp: FeatureNode, ths: FeatureNode, ghost g0: Graph<FeatureNode>, ghost done: set<FeatureNode>,
                    ghost lists: map<FeatureNode, seq<FeatureNode>>, ghost lists1: map<FeatureNode, seq<FeatureNode>>,
                    ghost rank: map<FeatureNode, nat>, ghost w: NodeHeap)
    returns (ghost lists': map<FeatureNode, seq<FeatureNode>>)
    requires w.Valid() && Ranked(g0, rank) && Ranked(w.graph, rank) && ths in rank && IsGroup(g0, ths)
    requires done <= Holders(g0, ths) && sp in Holders(g0, ths) - done
    requires sp in lists && Numbered(g0[sp].kv, lists[sp]) && Repaired(g0, w.graph, ths, done, lists, lists1)
    modifies w, w.graph.Keys
    ensures w.Valid() && Ranked(w.graph, rank) && Repaired(g0, w.graph, ths, done + {sp}, lists, lists')
    ensures w.graph.Keys == old(w.graph.Keys)
  {
    ghost var g := w.graph;
    HolderListing(g0, g, rank, ths, done, lists, lists1, sp);
    ghost var s' := RepairParent(sp, ths, lists[sp], rank, w);
    RepairedMore(g0, g, w.graph, rank, ths, done, lists, lists1, sp, s');
    lists' := lists1[sp := s'];
  }

  lemma HolderListing<N>(g: Graph<N>, g1: Graph<N>, rank: map<N, nat>, ths: N, done: set<N>,
                         lists: map<N, seq<N>>, lists': map<N, seq<N>>, sp: N)
    requires Closed(g1) && Ranked(g, rank) && Ranked(g1, rank) && ths in rank && IsGroup(g, ths)
    requires Repaired(g, g1, ths, done, lists, lists') && done <= Holders(g, ths)
    requires sp in Holders(g, ths) - done && sp in lists && Numbered(g[sp].kv, lists[sp])
    ensures IsGroup(g1, ths) && IsMember(g1, sp, ths) && Listing(g1, rank, sp, lists[sp])
  {
    assert ths !in Holders(g, ths);
    assert g1[ths] == g[ths] && g1[sp] == g[sp] && IsGroup(g1, sp);
    GroupListing(g1, rank, sp, lists[sp]);
  }

  lemma RepairedMore<N>(g: Graph<N>, g1: Graph<N>, g2: Graph<N>, rank: map<N, nat>, ths: N, done: set<N>,
                        lists: map<N, seq<N>>, lists': map<N, seq<N>>, sp: N, s': seq<N>)
    requires Ranked(g, rank) && ths in rank && IsGroup(g, ths) && done <= Holders(g, ths)
    requires sp in Holders(g, ths) - done
    requires Repaired(g, g1, ths, done, lists, lists') && sp in lists
    requires Relisted(g1, g2, sp, lists[sp], s') && RepairedList(g1, ths, lists[sp], s')
    ensures Repaired(g, g2, ths, done + {sp}, lists, lists'[sp := s'])
  {
    forall m | m in rank && (IsGroup(g, m) ==> rank[m] <= rank[ths])
      ensures g1[m] == g[m]
    {
    }
    LeavesStable(g, g1, rank, ths);
    assert g1[sp] == g[sp];
    RepairedJoins(g, g1, g2, ths, done, lists, lists', sp, s');
  }

  lemma RepairedJoins<N>(g: Graph<N>, g1: Graph<N>, g2: Graph<N>, ths: N, done: set<N>,
                         lists: map<N, seq<N>>, lists': map<N, seq<N>>, sp: N, s': seq<N>)
    requires Repaired(g, g1, ths, done, lists, lists') && sp in g && sp !in done && sp in lists && sp in g2
             && g2 == g1[sp := g2[sp]]
    requires RepairedAt(g, g2, ths, sp, lists[sp], s')
    ensures Repaired(g, g2, ths, done + {sp}, lists, lists'[sp := s'])
  {
    forall p | p in done
      ensures RepairedAt(g, g2, ths, p, lists[p], lists'[p])
    {
      assert RepairedAt(g, g1, ths, p, lists[p], lists'[p]);
    }
  }

  // The nodes that hold ths as a group member, found among its parents.
  method SemanticParents(ths: FeatureNode, ghost w: NodeHeap) returns (sps: set<FeatureNode>)
    requires w.Valid() && ths in w.graph
    ensures sps == Holders(w.graph, ths)
  {
    assert w.Sound(ths);
    sps := {};
    var todo := ths.parents;
    while todo != {}
      invariant todo <= ths.parents
      invariant forall p :: p in sps <==> p in ths.parents && p !in todo && IsMember(w.graph, p, ths)
      decreases todo
    {
      var p :| p in todo;
      todo := todo - {p};
      assert Points(w.graph, p, ths);
      var members := GroupMembers(p, w);
      if ths in members {
        sps := sps + {p};
      }
    }
    forall p | p in w.graph && IsMember(w.graph, p, ths)
      ensures p in ths.parents
    {
      var k :| k in GroupKeys(w.graph[p].kv) && w.graph[p].kv[k] == ths;
      assert Points(w.graph, p, ths);
    }
  }

  // Afterwards the group is a member of nobody.
  lemma RepairedNobodyHolds<N>(g: Graph<N>, g': Graph<N>, ths: N, lists: map<N, seq<N>>, lists': map<N, seq<N>>)
    requires ths in g && IsGroup(g, ths) && Repaired(g, g', ths, Holders(g, ths), lists, lists')
    ensures Holders(g', ths) == {}
  {
    forall p | p in g
      ensures !IsMember(g', p, ths)
    {
      if p in Holders(g, ths) {
        var s' := lists'[p];
        assert RepairedAt(g, g', ths, p, lists[p], s');
        ListedMembers(g'[p].kv, s', FirstKeys(|s'|), ths);
        assert ths !in Elements(s');
      }
    }
  }
}
