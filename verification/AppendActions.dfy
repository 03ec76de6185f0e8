// The `+=` actions: texts are joined, and nodes with features become members of one group.
module AppendActions {
  import opened Prelude
  import opened FeatureGraph
  import opened FeaturePaths
  import opened FeatureNodes
  import opened Unification
  import opened FeatureActions
  import opened MemberKeys
  import opened SemanticGroups

  // What appending asks for: below the other node groups are not nested in a cycle, a group has its members
  // numbered, and a node that is none is not to hold, as a member, the group it moves into.
  ghost predicate Appendable(g: Graph<FeatureNode>, rank: map<FeatureNode, nat>, ths: FeatureNode, other: FeatureNode,
                             parent: FeatureNode, featName: Key, s: seq<FeatureNode>) {
    && Ranked(g, rank) && ths in g && other in rank && parent in g && g[parent].Features?
    && if IsGroup(g, ths) then Numbered(g[ths].kv, s) else IsMemberKey(featName) ==> ths != parent
  }

  // A new group, with the node as its member, in the node's place under the feature.
  ghost function Nested(g: Graph<FeatureNode>, ths: FeatureNode, parent: FeatureNode, featName: Key,
                        group: FeatureNode): Graph<FeatureNode>
    requires parent in g && g[parent].Features? && group !in g
  {
    WithEdge(g[group := Features(map[MemberKey(0) := ths])], parent, featName, group)
  }

  // What appending makes of the graph: nothing for the node itself; a group gets the leaves of the other node
  // as members; any other node moves into a new group, which takes its place under the feature, and so do the
  // leaves.
  ghost predicate Appended(g: Graph<FeatureNode>, g': Graph<FeatureNode>, ths: FeatureNode, other: FeatureNode,
                           parent: FeatureNode, featName: Key, s: seq<FeatureNode>,
                           group: FeatureNode, s': seq<FeatureNode>) {
    if other == ths then g' == g && group == ths
    else if IsGroup(g, ths) then
      && group == ths && s <= s' && Elements(s') == Elements(s) + Leaves(g, other)
      && Relisted(g, g', ths, s, s')
    else
      && group !in g && parent in g && g[parent].Features?
      && [ths] <= s' && Elements(s') == {ths} + Leaves(Nested(g, ths, parent, featName, group), other)
      && Relisted(Nested(g, ths, parent, featName, group), g', group, [ths], s')
  }

  // `group` is where the members end up, and s' their list.
  method AppendToSelf(ths: FeatureNode, other: FeatureNode, parent: FeatureNode, featName: Key,
                      ghost s: seq<FeatureNode>, ghost rank: map<FeatureNode, nat>, ghost w: NodeHeap)
    returns (ghost group: FeatureNode, ghost s': seq<FeatureNode>)
    requires w.Valid() && Appendable(w.graph, rank, ths, other, parent, featName, s)
    modifies w, w.graph.Keys
    ensures w.Valid()
    ensures Appended(old(w.graph), w.graph, ths, other, parent, featName, s, group, s')
  {
    if other == ths {
      return ths, s;
    }
    var members := GroupMembers(ths, w);
    if members != [] {
      GroupListing(w.graph, rank, ths, s);
      s' := AddGroupMember(ths, other, s, rank, w);
      return ths, s';
    }
    ghost var g0 := w.graph;
    var made := NewGroupFromSelf(ths, w);
    var _ := parent.Set(featName, made, w);
    ghost var rank1 := NestedRank(g0, rank, ths, made);
    NestedRanked(g0, rank, ths, parent, featName, made);
    NestedListing(g0, rank1, ths, parent, featName, made);
    ghost var g2 := w.graph;
    s' := AddGroupMember(made, other, [ths], rank1, w);
    group := made;
    AppendedNew(g0, g2, w.graph, rank1, ths, other, parent, featName, s, made, s');
  }

  lemma AppendedNew(g: Graph<FeatureNode>, g2: Graph<FeatureNode>, g': Graph<FeatureNode>, rank: map<FeatureNode, nat>,
                    ths: FeatureNode, other: FeatureNode, parent: FeatureNode, featName: Key, s: seq<FeatureNode>,
                    made: FeatureNode, s': seq<FeatureNode>)
    requires other != ths && !IsGroup(g, ths) && made !in g && parent in g && g[parent].Features?
    requires g2 == Nested(g, ths, parent, featName, made) && Added(g2, g', rank, made, [ths], s', Leaves(g2, other))
    ensures Appended(g, g', ths, other, parent, featName, s, made, s')
  {
    assert Elements([ths]) == {ths};
  }

  // Of two nodes with features that are no groups, appending makes a group of two in the place of the first.
  lemma TwoMakeAGroup(g: Graph<FeatureNode>, g': Graph<FeatureNode>, ths: FeatureNode, other: FeatureNode,
                      parent: FeatureNode, featName: Key, s: seq<FeatureNode>, group: FeatureNode,
                      s': seq<FeatureNode>)
    requires Closed(g) && ths in g && other in g && Appended(g, g', ths, other, parent, featName, s, group, s')
    requires !IsGroup(g, ths) && !IsGroup(g, other) && ths != other && (other == parent ==> !IsMemberKey(featName))
    ensures Target(g', parent, [featName, "member0"]) == Some(ths)
    ensures Target(g', parent, [featName, "member1"]) == Some(other)
    ensures forall k :: k != "member0" && k != "member1" ==> Target(g', parent, [featName, k]) == None
    ensures forall n :: n in g && n != parent ==> n in g' && g'[n] == g[n]
  {
    var g1 := Nested(g, ths, parent, featName, group);
    assert !IsGroup(g1, other) by {
      if other == parent {
        assert GroupKeys(g1[parent].kv) == GroupKeys(g[parent].kv);
      }
    }
    LeavesOfPlain(g1, other);
    TwoElements(s', ths, other);
    var kv := g'[group].kv;
    GroupOfTwo(kv, ths, other);
    forall k: Key
      ensures Target(g', parent, [featName, k]) == Step(g', group, k)
    {
      assert [featName, k][1..] == [k];
      StepIsTarget(g', group, k);
    }
  }

  lemma TwoElements<T>(s: seq<T>, a: T, b: T)
    requires [a] <= s && Distinct(s) && Elements(s) == {a, b} && a != b
    ensures s == [a, b]
  {
    assert b in s && s[0] == a;
    forall i | 0 <= i < |s|
      ensures s[i] == a || s[i] == b
    {
      assert s[i] in Elements(s);
    }
    assert s[1] == b && s[|s| - 1] == b;
  }

  lemma GroupOfTwo<N>(kv: map<Key, N>, a: N, b: N)
    requires Numbered(kv, [a, b])
    ensures "member0" in kv && kv["member0"] == a && "member1" in kv && kv["member1"] == b
    ensures forall k :: k in kv && IsMemberKey(k) ==> k == "member0" || k == "member1"
  {
    MemberKeysSpelt();
    assert MemberKey(1) == "member1";
    NumberedFacts(kv, [a, b], 0);
    NumberedFacts(kv, [a, b], 1);
    assert FirstKeys(2) == FirstKeys(1) + [MemberKey(1)] && FirstKeys(1) == FirstKeys(0) + [MemberKey(0)];
    forall k | k in kv && IsMemberKey(k)
      ensures k == "member0" || k == "member1"
    {
      assert k in GroupKeys(kv);
    }
  }

  // A new group with this node as its only member.
  method NewGroupFromSelf(ths: FeatureNode, ghost w: NodeHeap) returns (group: FeatureNode)
    requires w.Valid() && ths in w.graph && !IsGroup(w.graph, ths)
    modifies w, w.graph.Keys
    ensures w.Valid() && group !in old(w.graph) && fresh(group)
    ensures w.graph == old(w.graph)[group := Features(map[MemberKey(0) := ths])]
  {
    group := Create(w);
    var _ := group.Set(MemberKey(0), ths, w);
    assert map[][MemberKey(0) := ths] == map[MemberKey(0) := ths];
  }

  // The new group ranks below all groups there were, and below the parent if that becomes one.
  ghost function NestedRank(g: Graph<FeatureNode>, rank: map<FeatureNode, nat>, ths: FeatureNode,
                            made: FeatureNode): map<FeatureNode, nat>
    requires rank.Keys <= g.Keys
  {
    map n | n in rank.Keys + {ths, made} ::
      if n == made then 0 else if n in rank && IsGroup(g, n) then rank[n] + 2 else 1
  }

  lemma NestedRanked(g: Graph<FeatureNode>, rank: map<FeatureNode, nat>, ths: FeatureNode, parent: FeatureNode,
                     featName: Key, made: FeatureNode)
    requires Closed(g) && Ranked(g, rank) && ths in g && parent in g && g[parent].Features? && made !in g
    requires !IsGroup(g, ths) && (IsMemberKey(featName) ==> ths != parent)
    ensures Ranked(Nested(g, ths, parent, featName, made), NestedRank(g, rank, ths, made))
  {
    var g', rank' := Nested(g, ths, parent, featName, made), NestedRank(g, rank, ths, made);
    forall n | n in g && n != parent
      ensures IsGroup(g', n) <==> IsGroup(g, n)
    {
    }
    if !IsMemberKey(featName) {
      assert GroupKeys(g'[parent].kv) == GroupKeys(g[parent].kv);
    }
    forall n, k | n in rank' && g'[n].Features? && k in GroupKeys(g'[n].kv)
      ensures g'[n].kv[k] in rank' && (IsGroup(g', g'[n].kv[k]) ==> rank'[g'[n].kv[k]] < rank'[n])
    {
      if n == parent && k == featName {
        assert rank'[parent] > 0;
      } else if n != made {
        assert k in GroupKeys(g[n].kv);
      }
    }
  }

  lemma NestedListing(g: Graph<FeatureNode>, rank: map<FeatureNode, nat>, ths: FeatureNode, parent: FeatureNode,
                      featName: Key, made: FeatureNode)
    requires Closed(g) && made !in g && parent in g && g[parent].Features? && ths in g
    requires Ranked(Nested(g, ths, parent, featName, made), rank)
    ensures Listing(Nested(g, ths, parent, featName, made), rank, made, [ths])
    ensures IsGroup(Nested(g, ths, parent, featName, made), made)
  {
    MemberKeyInjective(0, 0);
    var kv: map<Key, FeatureNode> := map[];
    NumberedAppend(kv, [], ths);
    assert kv[MemberKey(0) := ths] == map[MemberKey(0) := ths] && [] + [ths] == [ths];
    assert MemberKey(0) in GroupKeys(kv[MemberKey(0) := ths]);
    GroupListing(Nested(g, ths, parent, featName, made), rank, made, [ths]);
  }

  // If the feature led to the node, or is no member key, nesting changes nothing of what is below the other
  // node, though the other node may hold the parent.
  lemma NestedLeaves(g: Graph<FeatureNode>, rank: map<FeatureNode, nat>, ths: FeatureNode, parent: FeatureNode,
                     featName: Key, made: FeatureNode, other: FeatureNode)
    requires Ranked(g, rank) && ths in g && parent in g && g[parent].Features? && made !in g && other in rank
    requires !IsGroup(g, ths) && (IsMemberKey(featName) ==> Step(g, parent, featName) == Some(ths))
    ensures Leaves(Nested(g, ths, parent, featName, made), other) == Leaves(g, other)
  {
    var g' := Nested(g, ths, parent, featName, made);
    MemberKeyInjective(0, 0);
    NestedGroups(g, rank, ths, parent, featName, made);
    forall x | x in Leaves(g, other)
      ensures x in Leaves(g', other)
    {
      var path :| MemberSteps(path) && Target(g, other, path) == Some(x);
      var path' := IntoNested(g, rank, ths, parent, featName, made, other, path);
    }
    forall x | x in Leaves(g', other)
      ensures x in Leaves(g, other)
    {
      var path' :| MemberSteps(path') && Target(g', other, path') == Some(x);
      var path := OutOfNested(g, rank, ths, parent, featName, made, other, path');
      MemberPathRank(g, rank, other, path);
    }
  }

  lemma NestedGroups(g: Graph<FeatureNode>, rank: map<FeatureNode, nat>, ths: FeatureNode, parent: FeatureNode,
                     featName: Key, made: FeatureNode)
    requires Ranked(g, rank) && ths in g && parent in g && g[parent].Features? && made !in g
    requires !IsGroup(g, ths) && (IsMemberKey(featName) ==> Step(g, parent, featName) == Some(ths))
    ensures var g' := Nested(g, ths, parent, featName, made);
      && IsGroup(g', made) && GroupKeys(g'[made].kv) == {MemberKey(0)}
      && forall n :: n in g ==> (IsGroup(g', n) <==> IsGroup(g, n))
  {
    var g' := Nested(g, ths, parent, featName, made);
    MemberKeyInjective(0, 0);
    assert MemberKey(0) in GroupKeys(g'[made].kv);
    if IsMemberKey(featName) {
      assert featName in GroupKeys(g[parent].kv) && featName in GroupKeys(g'[parent].kv);
    } else {
      assert GroupKeys(g'[parent].kv) == GroupKeys(g[parent].kv);
    }
  }

  // A path to a leaf passes through the new group where it took the feature.
  lemma {:induction false} IntoNested(g: Graph<FeatureNode>, rank: map<FeatureNode, nat>, ths: FeatureNode,
                                      parent: FeatureNode, featName: Key, made: FeatureNode, n: FeatureNode, path: Path)
    returns (path': Path)
    requires Ranked(g, rank) && ths in g && parent in g && g[parent].Features? && made !in g && n in rank
    requires !IsGroup(g, ths) && (IsMemberKey(featName) ==> Step(g, parent, featName) == Some(ths))
    requires MemberSteps(path) && Target(g, n, path).Some?
    ensures MemberSteps(path') && Target(Nested(g, ths, parent, featName, made), n, path') == Target(g, n, path)
    decreases |path|
  {
    var g' := Nested(g, ths, parent, featName, made);
    if path == [] {
      path' := [];
    } else {
      var k := path[0];
      assert k in path && k in GroupKeys(g[n].kv);
      if n == parent && k == featName {
        assert IsMemberKey(featName);
        PlainEnds(g, ths, path[1..]);
        MemberKeyInjective(0, 0);
        path' := [featName, MemberKey(0)];
        assert path'[1..] == [MemberKey(0)] && path'[1..][1..] == [] && path[1..] == [];
        assert Step(g', parent, featName) == Some(made) && Step(g', made, MemberKey(0)) == Some(ths);
        assert Target(g', made, [MemberKey(0)]) == Some(ths);
      } else {
        var rest := IntoNested(g, rank, ths, parent, featName, made, g[n].kv[k], path[1..]);
        path' := [k] + rest;
        assert path'[1..] == rest;
      }
    }
  }

  lemma {:induction false} OutOfNested(g: Graph<FeatureNode>, rank: map<FeatureNode, nat>, ths: FeatureNode,
                                       parent: FeatureNode, featName: Key, made: FeatureNode, n: FeatureNode,
                                       path': Path)
    returns (path: Path)
    requires Ranked(g, rank) && ths in g && parent in g && g[parent].Features? && made !in g && n in rank
    requires !IsGroup(g, ths) && (IsMemberKey(featName) ==> Step(g, parent, featName) == Some(ths))
    requires var t := Target(Nested(g, ths, parent, featName, made), n, path');
      MemberSteps(path') && t.Some? && !IsGroup(Nested(g, ths, parent, featName, made), t.value)
    ensures MemberSteps(path) && Target(g, n, path) == Target(Nested(g, ths, parent, featName, made), n, path')
    decreases |path'|
  {
    var g' := Nested(g, ths, parent, featName, made);
    NestedGroups(g, rank, ths, parent, featName, made);
    if path' == [] {
      path := [];
    } else {
      var k := path'[0];
      assert k in path';
      if n == parent && k == featName {
        assert path'[1..] != [];
        assert path'[1..][0] in path' && path'[1..][0] in GroupKeys(g'[made].kv);
        assert Target(g', made, path'[1..]) == Target(g', ths, path'[1..][1..]);
        PlainEnds(g', ths, path'[1..][1..]);
        path := [featName];
      } else {
        assert k in GroupKeys(g[n].kv);
        var rest := OutOfNested(g, rank, ths, parent, featName, made, g[n].kv[k], path'[1..]);
        path := [k] + rest;
        assert path[1..] == rest;
      }
    }
  }

  // Groups stay flat: what ends up in the group is no group itself.
  lemma AppendedIsFlat(g: Graph<FeatureNode>, g': Graph<FeatureNode>, rank: map<FeatureNode, nat>, ths: FeatureNode,
                       other: FeatureNode, parent: FeatureNode, featName: Key, s: seq<FeatureNode>,
                       group: FeatureNode, s': seq<FeatureNode>, x: FeatureNode)
    requires Appendable(g, rank, ths, other, parent, featName, s) && other != ths
    requires Appended(g, g', ths, other, parent, featName, s, group, s')
    requires IsGroup(g, ths) ==> forall y :: y in s ==> !IsGroup(g, y)
    requires x in s'
    ensures group in g' && g'[group].Features? && Numbered(g'[group].kv, s') && !IsGroup(g', x)
  {
    assert x in Elements(s');
    if IsGroup(g, ths) {
      assert x in s || x in Leaves(g, other);
    } else {
      var g1 := Nested(g, ths, parent, featName, group);
      MemberKeyInjective(0, 0);
      assert MemberKey(0) in GroupKeys(g1[group].kv);
      if x == ths && x == parent {
        assert GroupKeys(g1[x].kv) == GroupKeys(g[x].kv);
      }
    }
  }

  // ---------------------------------------------------------------- the action

  // A missing string is shown as Java shows it when strings are joined.
  function Shown(text: Option<string>): string {
    match text case None => "null" case Some(t) => t
  }

  ghost predicate HasFeatures(g: Graph<FeatureNode>, n: FeatureNode?) {
    n != null && n in g && g[n].Features? && g[n].kv != map[]
  }

  // What is joined to the text of a node: the text of the other node, or the text of the rule.
  ghost predicate TextJoined(g: Graph<FeatureNode>, g': Graph<FeatureNode>, left: FeatureNode, right: FeatureNode?,
                             rightVal: Option<string>, o: Outcome)
    requires left in g && g[left].Text? && g[left].text.Some?
  {
    && (o.Threw? <==> right != null && right in g && g[right].Features?)
    && g' == if o.Threw? then g
             else g[left := Text(Some(g[left].text.value + "_" +
               Shown(if right != null && right in g && g[right].Text? then g[right].text else rightVal)))]
  }

  // The node at the end of a path, and the one before it.
  ghost predicate EndsAt(g: Graph<FeatureNode>, f: FeatureNode, path: Path, left: FeatureNode, parent: FeatureNode) {
    && path != [] && Target(g, f, path) == Some(left)
    && Target(g, f, path[..|path| - 1]) == Some(parent) && Step(g, parent, path[|path| - 1]) == Some(left)
  }

  // Appending to a node that is not empty: texts are joined, and nodes with features become one group.
  // Anything else is refused and changes nothing.
  ghost predicate Filled(g: Graph<FeatureNode>, g': Graph<FeatureNode>, f: FeatureNode, left: FeatureNode,
                         right: FeatureNode?, rightVal: Option<string>, path: Path, s: seq<FeatureNode>, o: Outcome,
                         group: FeatureNode, s': seq<FeatureNode>)
    requires left in g && !IsEmptyBody(g[left])
  {
    if g[left].Text? then TextJoined(g, g', left, right, rightVal, o)
    else
      && (o.Threw? <==> path == [] || !HasFeatures(g, right))
      && if o.Threw? then g' == g
         else exists parent :: parent in g && EndsAt(g, f, path, left, parent) &&
                               Appended(g, g', left, right, parent, path[|path| - 1], s, group, s')
  }

  // Nor does appending leave a node without its text.
  lemma FilledKeepsTexts(g: Graph<FeatureNode>, g': Graph<FeatureNode>, f: FeatureNode, left: FeatureNode,
                         right: FeatureNode?, rightVal: Option<string>, path: Path, s: seq<FeatureNode>, o: Outcome,
                         group: FeatureNode, s': seq<FeatureNode>)
    requires NoBlankText(g) && left in g && !IsEmptyBody(g[left])
    requires Filled(g, g', f, left, right, rightVal, path, s, o, group, s')
    ensures NoBlankText(g')
  {
  }

  method AppendToFilled(f: FeatureNode, left: FeatureNode, right: FeatureNode?, rightVal: Option<string>, path: Path,
                        ghost s: seq<FeatureNode>, ghost rank: map<FeatureNode, nat>, ghost w: NodeHeap)
    returns (o: Outcome, ghost group: FeatureNode, ghost s': seq<FeatureNode>)
    requires w.Valid() && f in w.graph && Target(w.graph, f, path) == Some(left) && left in w.graph &&
              (right != null ==> right in w.graph)
    requires !IsEmptyBody(w.graph[left])
    requires HasFeatures(w.graph, left) && HasFeatures(w.graph, right) && path != [] ==>
               Ranked(w.graph, rank) && right in rank && (IsGroup(w.graph, left) ==> Numbered(w.graph[left].kv, s))
    modifies w, w.graph.Keys
    ensures w.Valid()
    ensures Filled(old(w.graph), w.graph, f, left, right, rightVal, path, s, o, group, s')
  {
    group, s' := left, s;
    ghost var g0 := w.graph;
    assert w.Sound(left);
    if left.IsValued() {
      var text := rightVal;
      if right != null {
        assert w.Sound(right);
        if !right.IsValued() {
          return Threw, group, s';
        }
        text := right.value;
      }
      o := left.ForceValue(left.value.value + "_" + Shown(text), w);
      return;
    }
    if right == null {
      return Threw, group, s';
    }
    assert w.Sound(right);
    if right.IsValued() || right.IsEmpty() || path == [] {
      return Threw, group, s';
    }
    var l := |path| - 1;
    assert path == path[..l] + [path[l]];
    TargetAppend(g0, f, path[..l], [path[l]]);
    var parent := f.PathTarget(path[..l], w);
    assert EndsAt(g0, f, path, left, parent);
    assert IsMemberKey(path[l]) ==> path[l] in GroupKeys(g0[parent].kv);
    group, s' := AppendToSelf(left, right, parent, path[l], s, rank, w);
    return Ok, group, s';
  }

  // The action: a node that is missing or empty is treated as by `=`.
  method DoActionAppend(f: FeatureNode, left: FeatureNode?, right: FeatureNode?, rightVal: Option<string>,
                        path: Path, targetPath: Option<Path>,
                        ghost s: seq<FeatureNode>, ghost rank: map<FeatureNode, nat>, ghost w: NodeHeap)
    returns (o: Outcome, ghost tr: Trail<FeatureNode>, ghost group: FeatureNode, ghost s': seq<FeatureNode>)
    requires w.Valid() && f in w.graph && (left != null ==> left in w.graph) && (right != null ==> right in w.graph)
    requires Target(w.graph, f, path) == if left == null then None else Some(left)
    requires targetPath.Some? ==> rightVal.None?
    requires targetPath.Some? ==> Target(w.graph, f, targetPath.value) == if right == null then None else Some(right)
    requires rightVal.Some? ==> left != null && right == null
    requires HasFeatures(w.graph, left) && HasFeatures(w.graph, right) && path != [] ==>
               Ranked(w.graph, rank) && right in rank && (IsGroup(w.graph, left) ==> Numbered(w.graph[left].kv, s))
    modifies w, w.graph.Keys
    ensures w.Valid()
    ensures left != null && !IsEmptyBody(old(w.graph)[left]) ==>
              Filled(old(w.graph), w.graph, f, left, right, rightVal, path, s, o, group, s')
    ensures left == null || IsEmptyBody(old(w.graph)[left]) ==>
              Assigned(old(w.graph), f, left, right, rightVal, path, targetPath, tr, o, w.graph)
  {
    tr, group, s' := Trail(f, [], [], w.graph), f, s;
    if left == null {
      o, tr := DoActionEquals(f, left, right, rightVal, path, targetPath, w);
      return;
    }
    assert w.Sound(left);
    if left.IsEmpty() {
      o, tr := DoActionEquals(f, left, right, rightVal, path, targetPath, w);
    } else {
      o, group, s' := AppendToFilled(f, left, right, rightVal, path, s, rank, w);
    }
  }

  method CreateText(text: string, ghost w: NodeHeap) returns (n: FeatureNode)
    requires w.Valid()
    modifies w
    ensures fresh(n) && n !in old(w.graph) && w.Valid()
    ensures w.graph == old(w.graph)[n := Text(Some(text))]
  {
    n := Create(w);
    var _ := n.ForceValue(text, w);
  }

  // The node a rule has on its right side, if it is a path or a variable.
  ghost function RightOf(g: Graph<FeatureNode>, f: FeatureNode, target: RuleTarget,
                         vars: map<string, FeatureNode>): FeatureNode? {
    match target
    case ToPath(path) => NodeAt(g, f, path)
    case ToVariable(name) => if name in vars then vars[name] else null
    case _ => null
  }

  // What a rule does, by its sign: an assignment, also by `+=` to a missing or empty node; else appending; and
  // nothing under any other sign, but that a text for a missing node has been made by then.
  ghost predicate RuleApplied(g: Graph<FeatureNode>, f: FeatureNode, path: Path, sign: string, target: RuleTarget,
                              vars: map<string, FeatureNode>, s: seq<FeatureNode>, tr: Trail<FeatureNode>,
                              made: FeatureNode, o: Outcome, group: FeatureNode, s': seq<FeatureNode>,
                              g': Graph<FeatureNode>)
    requires f in g
  {
    var left := NodeAt(g, f, path);
    if target.ToNothing? || sign == "=" || (sign == "+=" && !(left != null && left in g && !IsEmptyBody(g[left])))
    then RuleDone(g, f, path, target, vars, tr, made, o, g')
    else if sign == "+="
    then Filled(g, g', f, left, RightOf(g, f, target, vars), TextOf(target), path, s, o, group, s')
    else o.Threw? && g' == if target.ToText? && left == null then g[made := Text(Some(target.text))] else g
  }

  // A rule `<path> sign target`.  A target that asks for nothing clears the path, whatever the sign.
  method DoAction(f: FeatureNode, path: Path, sign: string, target: RuleTarget, vars: map<string, FeatureNode>,
                  ghost s: seq<FeatureNode>, ghost rank: map<FeatureNode, nat>, ghost w: NodeHeap)
    returns (o: Outcome, ghost tr: Trail<FeatureNode>, ghost made: FeatureNode, ghost group: FeatureNode,
             ghost s': seq<FeatureNode>)
    requires w.Valid() && f in w.graph && vars.Values <= w.graph.Keys
    requires var left, right := NodeAt(w.graph, f, path), RightOf(w.graph, f, target, vars);
      sign == "+=" && HasFeatures(w.graph, left) && HasFeatures(w.graph, right) && path != [] ==>
        Ranked(w.graph, rank) && right in rank && (IsGroup(w.graph, left) ==> Numbered(w.graph[left].kv, s))
    modifies w, w.graph.Keys
    ensures w.Valid()
    ensures RuleApplied(old(w.graph), f, path, sign, target, vars, s, tr, made, o, group, s', w.graph)
  {
    tr, made, group, s' := Trail(f, [], [], w.graph), f, f, s;
    ghost var g := w.graph;
    var left := f.PathTarget(path, w);
    var right: FeatureNode? := null;
    var rightVal, targetPath := None, None;
    match target {
      case ToPath(path2) =>
        right := f.PathTarget(path2, w);
        targetPath := Some(path2);
      case ToVariable(name) =>
        right := if name in vars then vars[name] else null;
        assert right != null ==> right in vars.Values;
      case ToNothing =>
        o := DoActionClear(f, left, path, w);
        return;
      case ToText(text) =>
        if left == null {
          right := CreateText(text, w);
          made := right;
          SameWalk(g, w.graph, f, path);
        } else {
          rightVal := Some(text);
        }
    }
    if sign == "=" {
      o, tr := DoActionEquals(f, left, right, rightVal, path, targetPath, w);
    } else if sign == "+=" {
      o, tr, group, s' := DoActionAppend(f, left, right, rightVal, path, targetPath, s, rank, w);
    } else {
      o := Threw;
    }
  }

  function TextOf(target: RuleTarget): Option<string> {
    if target.ToText? then Some(target.text) else None
  }

  // The text on the right side of a rule, as the rule or a node gives it.
  ghost predicate GivesText(g: Graph<FeatureNode>, f: FeatureNode, target: RuleTarget, vars: map<string, FeatureNode>,
                            text: string) {
    match target
    case ToPath(path) => LeadsToText(g, f, path, text)
    case ToVariable(name) => name in vars && vars[name] in g && g[vars[name]] == Text(Some(text))
    case ToNothing => false
    case ToText(t) => t == text
  }

  // Appending a text to a text joins the two by an underscore, the old one first.
  lemma TextsAreJoined(g: Graph<FeatureNode>, f: FeatureNode, path: Path, target: RuleTarget,
                       vars: map<string, FeatureNode>, s: seq<FeatureNode>, tr: Trail<FeatureNode>, made: FeatureNode,
                       o: Outcome, group: FeatureNode, s': seq<FeatureNode>, g': Graph<FeatureNode>, a: string,
                       b: string)
    requires f in g && RuleApplied(g, f, path, "+=", target, vars, s, tr, made, o, group, s', g')
    requires LeadsToText(g, f, path, a) && GivesText(g, f, target, vars, b)
    ensures o.Ok? && LeadsToText(g', f, path, a + "_" + b)
  {
    var left := NodeAt(g, f, path);
    TextKeepsPaths(g, left, a + "_" + b, f, path);
  }

  // Without a node on the right side the word "null" is joined.
  lemma NullIsJoined(g: Graph<FeatureNode>, f: FeatureNode, path: Path, target: RuleTarget,
                     vars: map<string, FeatureNode>, s: seq<FeatureNode>, tr: Trail<FeatureNode>, made: FeatureNode,
                     o: Outcome, group: FeatureNode, s': seq<FeatureNode>, g': Graph<FeatureNode>, a: string)
    requires f in g && RuleApplied(g, f, path, "+=", target, vars, s, tr, made, o, group, s', g')
    requires LeadsToText(g, f, path, a)
    requires (target.ToPath? && Target(g, f, target.path) == None) || (target.ToVariable? && target.name !in vars)
    ensures o.Ok? && LeadsToText(g', f, path, a + "_null")
  {
    var left := NodeAt(g, f, path);
    assert a + "_" + "null" == a + "_null";
    TextKeepsPaths(g, left, a + "_null", f, path);
  }
}
