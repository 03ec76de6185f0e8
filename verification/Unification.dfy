// What the action `<left path> = <right path>` does to a feature graph, and when it unifies its paths.
module Unification {
  import opened Prelude
  import opened FeatureGraph
  import opened FeaturePaths

  // ---------------------------------------------------------------- facts about made paths

  // Nodes that both graphs have alike are walked alike.
  lemma {:induction false} SameWalk<N>(g: Graph<N>, g': Graph<N>, n: N, path: Path)
    requires Closed(g) && n in g && forall m :: m in g ==> m in g' && g'[m] == g[m]
    ensures Target(g', n, path) == Target(g, n, path)
    ensures Resolved(g', n, path) == Resolved(g, n, path) && StopNode(g', n, path) == StopNode(g, n, path)
    decreases |path|
  {
    if path != [] && Step(g, n, path[0]).Some? {
      SameWalk(g, g', Step(g, n, path[0]).value, path[1..]);
    }
  }

  lemma PathMadeLeads<N>(g: Graph<N>, f: N, path: Path, target: N, nodes: seq<N>, g': Graph<N>)
    requires Closed(g) && f in g && PathMade(g, f, path, target, nodes, g')
    ensures Closed(g') && Extends(g, g')
    ensures Target(g, f, path).Some? ==> g' == g
    ensures Target(g, f, path).None? ==> Target(g', f, path) == Some(target)
  {
    ResolvedFacts(g, f, path);
    var s, p := Resolved(g, f, path), StopNode(g, f, path);
    if s < |path| {
      var keys := path[s..];
      GrownClosed(g, p, keys, nodes);
      GrownExtends(g, p, keys, nodes);
      ExtendsKeepsPaths(g, g', f, path[..s]);
      GrownFrom(g, p, keys, nodes, keys);
      TwoStretches(g', f, path, s, p, target);
    }
  }

  // ---------------------------------------------------------------- the action

  // The steps in between, for the case that neither path existed: the node made for the left path, the
  // nodes grown for the two paths, and the graph after the first of them.
  datatype Trail<!N> = Trail(left: N, grownLeft: seq<N>, grownRight: seq<N>, mid: Graph<N>)

  // What the action does, case by case.
  ghost predicate Equated<N>(g: Graph<N>, f: N, left: Path, right: Path, tr: Trail<N>, o: Outcome, g': Graph<N>)
    requires f in g
  {
    match (Target(g, f, left), Target(g, f, right))
    case (Some(l), Some(r)) =>
      l in g && r in g && (o.Threw? <==> !Mergeable(g, l, r)) && g' == Merged(g, l, r)
    case (Some(l), None) =>
      l in g && (o.Threw? <==> Blocked(g, f, right)) &&
      if o.Threw? then g' == g else PathMade(g, f, right, l, tr.grownRight, g')
    case (None, Some(r)) =>
      r in g && (o.Threw? <==> Blocked(g, f, left)) &&
      if o.Threw? then g' == g else PathMade(g, f, left, r, tr.grownLeft, g')
    case (None, None) =>
      && tr.left !in g
      && var g1 := g[tr.left := Features(map[])];
      if Blocked(g1, f, left) then o.Threw? && g' == g1
      else
        && PathMade(g1, f, left, tr.left, tr.grownLeft, tr.mid)
        && f in tr.mid
        && (o.Threw? <==> Blocked(tr.mid, f, right))
        && if o.Threw? then g' == tr.mid else PathMade(tr.mid, f, right, tr.left, tr.grownRight, g')
  }

  ghost predicate Unified<N>(g: Graph<N>, f: N, left: Path, right: Path) {
    Target(g, f, left).Some? && Target(g, f, left) == Target(g, f, right)
  }

  // From its j-th step on, `path` would run along the keys that are about to be grown at p.
  ghost predicate Enters<N>(g: Graph<N>, n: N, path: Path, j: nat, p: N, keys: Path) {
    j < |path| && Target(g, n, path[..j]) == Some(p) && path[j..] <= keys
  }

  // The two ways the action leaves its paths apart.  Either one path is empty and the node it is applied
  // to is the one the merge discards; or neither path exists, and the right one runs into the new end
  // of the left one and stops short.
  ghost predicate LeftApart<N>(g: Graph<N>, f: N, left: Path, right: Path)
    requires f in g
  {
    match (Target(g, f, left), Target(g, f, right))
    case (Some(l), Some(r)) =>
      (left == [] || right == []) && l != r && l in g && r in g && Victim(g, l, r) == f
    case (None, None) =>
      exists j :: Enters(g, f, right, j, StopNode(g, f, left), left[Resolved(g, f, left)..])
               && |right| - j < |left| - Resolved(g, f, left)
    case _ => false
  }

  // Along the grown chain only prefixes of the remaining keys exist, if nothing leaves the last node.
  lemma {:induction false} OnlyTheChain<N>(g: Graph<N>, p: N, keys: Path, nodes: seq<N>, x: nat, path: Path)
    requires CanGrow(g, p, keys, nodes) && x < |nodes|
    requires var t := nodes[|nodes| - 1]; t != p && t in g && g[t] == Features(map[])
    requires Target(Grown(g, p, keys, nodes), nodes[x], path).Some?
    ensures path <= keys[x + 1..]
    ensures Target(Grown(g, p, keys, nodes), nodes[x], path) == Some(nodes[x + |path|])
    decreases |path|
  {
    if path != [] {
      assert Step(Grown(g, p, keys, nodes), nodes[x], path[0]) ==
             if x + 1 < |nodes| && path[0] == keys[x + 1] then Some(nodes[x + 1]) else None by {
        GrownNodeByNode(g, p, keys, nodes);
      }
      OnlyTheChain(g, p, keys, nodes, x + 1, path[1..]);
      assert keys[x + 1..] == [keys[x + 1]] + keys[x + 2..];
    }
  }

  // A path that did not exist exists after the growth only by running into the chain.
  lemma {:induction false} NewPathsEnter<N>(g: Graph<N>, p: N, keys: Path, nodes: seq<N>, n: N, path: Path)
    requires Closed(g) && CanGrow(g, p, keys, nodes) && n in g
    requires var t := nodes[|nodes| - 1]; t != p && t in g && g[t] == Features(map[])
    requires Target(g, n, path).None? && Target(Grown(g, p, keys, nodes), n, path).Some?
    ensures exists j :: Enters(g, n, path, j, p, keys)
    decreases |path|
  {
    GrownNodeByNode(g, p, keys, nodes);
    var k := path[0];
    if Step(g, n, k).Some? {
      var m := Step(g, n, k).value;
      NewPathsEnter(g, p, keys, nodes, m, path[1..]);
      var j: nat :| Enters(g, m, path[1..], j, p, keys);
      assert path[..j + 1][1..] == path[1..][..j];
      assert path[j + 1..] == path[1..][j..];
      assert Enters(g, n, path, j + 1, p, keys);
    } else {
      assert n == p && k == keys[0];
      OnlyTheChain(g, p, keys, nodes, 0, path[1..]);
      assert keys == [keys[0]] + keys[1..] && path == [k] + path[1..];
      assert path[..0] == [] && path[0..] == path;
      assert Enters(g, n, path, 0, p, keys);
    }
  }

  lemma GrownFrom<N>(g: Graph<N>, p: N, keys: Path, nodes: seq<N>, start: Path)
    requires CanGrow(g, p, keys, nodes) && start <= keys && start != []
    ensures Target(Grown(g, p, keys, nodes), p, start) == Some(nodes[|start| - 1])
  {
    GrownChain(g, p, keys, nodes, 0, |start|);
    assert keys[0..|start|] == start;
  }

  lemma EnteringLeads<N>(g: Graph<N>, p: N, keys: Path, nodes: seq<N>, n: N, path: Path, j: nat)
    requires CanGrow(g, p, keys, nodes) && Enters(g, n, path, j, p, keys)
    ensures Target(Grown(g, p, keys, nodes), n, path) == Some(nodes[|path| - j - 1])
  {
    OldPathStays(g, p, keys, nodes, n, path[..j]);
    GrownFrom(g, p, keys, nodes, path[j..]);
    TwoStretches(Grown(g, p, keys, nodes), n, path, j, p, nodes[|path| - j - 1]);
  }

  lemma OldPathStays<N>(g: Graph<N>, p: N, keys: Path, nodes: seq<N>, n: N, path: Path)
    requires CanGrow(g, p, keys, nodes) && Target(g, n, path).Some?
    ensures Target(Grown(g, p, keys, nodes), n, path) == Target(g, n, path)
  {
    GrownExtends(g, p, keys, nodes);
    ExtendsKeepsPaths(g, Grown(g, p, keys, nodes), n, path);
  }

  lemma TwoStretches<N>(g: Graph<N>, n: N, path: Path, j: nat, m: N, t: N)
    requires j <= |path| && Target(g, n, path[..j]) == Some(m) && Target(g, m, path[j..]) == Some(t)
    ensures Target(g, n, path) == Some(t)
  {
    TargetAppend(g, n, path[..j], path[j..]);
    assert path[..j] + path[j..] == path;
  }

  // A path runs into the chain at one place only.
  lemma EntersOnce<N>(g: Graph<N>, p: N, keys: Path, nodes: seq<N>, n: N, path: Path, i: nat, j: nat)
    requires CanGrow(g, p, keys, nodes) && Enters(g, n, path, i, p, keys) && Enters(g, n, path, j, p, keys)
    ensures i == j
  {
    EnteringLeads(g, p, keys, nodes, n, path, i);
    EnteringLeads(g, p, keys, nodes, n, path, j);
  }

  // ---------------------------------------------------------------- the theorem

  lemma EqualsUnifiesExisting<N>(g: Graph<N>, f: N, left: Path, right: Path)
    requires Closed(g) && f in g && Target(g, f, left).Some? && Target(g, f, right).Some?
    requires var l, r := Target(g, f, left).value, Target(g, f, right).value;
      l in g && r in g && Mergeable(g, l, r)
    ensures var g' := Merged(g, Target(g, f, left).value, Target(g, f, right).value);
      Unified(g', f, left, right) <==> !LeftApart(g, f, left, right)
  {
    var l, r := Target(g, f, left).value, Target(g, f, right).value;
    if l != r {
      RootedPath(g, l, r, f, left);
      RootedPath(g, l, r, f, right);
    }
  }

  // Where a path leads after a merge, seen from a node that may itself have been discarded.
  lemma RootedPath<N>(g: Graph<N>, a: N, b: N, f: N, path: Path)
    requires Closed(g) && f in g && a in g && b in g && a != b && Mergeable(g, a, b) && Target(g, f, path).Some?
    ensures Target(g, f, path).value in g
    ensures Target(Merged(g, a, b), f, path) ==
            if path == [] then Some(f) else Some(Quotient(g, a, b)[Target(g, f, path).value])
  {
    var g' := Merged(g, a, b);
    if path != [] {
      var m := Step(g, f, path[0]).value;
      assert Step(g', f, path[0]) == Some(Quotient(g, a, b)[m]);
      MergeKeepsMeaning(g, a, b, m, path[1..]);
    }
  }

  lemma EqualsUnifiesNew<N>(g: Graph<N>, f: N, left: Path, right: Path, tr: Trail<N>, g': Graph<N>)
    requires Closed(g) && f in g && Target(g, f, left).None? && Target(g, f, right).None?
    requires Equated(g, f, left, right, tr, Ok, g')
    ensures Unified(g', f, left, right) <==> !LeftApart(g, f, left, right)
  {
    var g1, mid := g[tr.left := Features(map[])], tr.mid;
    var s, p := Resolved(g, f, left), StopNode(g, f, left);
    var keys, nodes := left[s..], tr.grownLeft;
    SameWalk(g, g1, f, left);
    SameWalk(g, g1, f, right);
    ResolvedFacts(g, f, left);
    PathMadeLeads(g1, f, left, tr.left, nodes, mid);
    PathMadeLeads(mid, f, right, tr.left, tr.grownRight, g');
    ExtendsKeepsPaths(mid, g', f, left);
    forall j | 0 <= j <= |right|
      ensures Target(g1, f, right[..j]) == Target(g, f, right[..j])
    {
      SameWalk(g, g1, f, right[..j]);
    }
    assert forall j: nat :: Enters(g1, f, right, j, p, keys) <==> Enters(g, f, right, j, p, keys);
    RightEnters(g1, p, keys, nodes, f, right);
    if j: nat :| Enters(g, f, right, j, p, keys) {
      assert Enters(g1, f, right, j, p, keys);
      assert Target(g', f, right) == Some(nodes[|right| - j - 1]);
      assert nodes[|right| - j - 1] == tr.left <==> |right| - j == |keys|;
    }
  }

  // Where a path that did not exist leads when a chain has been grown: to where it has come on the chain, if
  // it runs into it, at the one place where it does.
  lemma RightEnters<N>(g: Graph<N>, p: N, keys: Path, nodes: seq<N>, n: N, path: Path)
    requires Closed(g) && CanGrow(g, p, keys, nodes) && n in g && Target(g, n, path).None?
    requires var t := nodes[|nodes| - 1]; t != p && t in g && g[t] == Features(map[])
    ensures forall i: nat, j: nat :: Enters(g, n, path, i, p, keys) && Enters(g, n, path, j, p, keys) ==> i == j
    ensures forall j: nat :: Enters(g, n, path, j, p, keys) ==>
              Target(Grown(g, p, keys, nodes), n, path) == Some(nodes[|path| - j - 1])
    ensures Target(Grown(g, p, keys, nodes), n, path).Some? ==> exists j: nat :: Enters(g, n, path, j, p, keys)
  {
    forall i: nat, j: nat | Enters(g, n, path, i, p, keys) && Enters(g, n, path, j, p, keys)
      ensures i == j && Target(Grown(g, p, keys, nodes), n, path) == Some(nodes[|path| - j - 1])
    {
      EntersOnce(g, p, keys, nodes, n, path, i, j);
      EnteringLeads(g, p, keys, nodes, n, path, j);
    }
    if Target(Grown(g, p, keys, nodes), n, path).Some? {
      NewPathsEnter(g, p, keys, nodes, n, path);
    }
  }

  // The action, when it does not throw, makes both paths lead to one node in every case but the two above.
  lemma EqualsUnifies<N>(g: Graph<N>, f: N, left: Path, right: Path, tr: Trail<N>, g': Graph<N>)
    requires Closed(g) && f in g && Equated(g, f, left, right, tr, Ok, g')
    ensures Unified(g', f, left, right) <==> !LeftApart(g, f, left, right)
  {
    match (Target(g, f, left), Target(g, f, right))
    case (Some(_), Some(_)) =>
      EqualsUnifiesExisting(g, f, left, right);
    case (Some(_), None) =>
      PathMadeLeads(g, f, right, Target(g, f, left).value, tr.grownRight, g');
      ExtendsKeepsPaths(g, g', f, left);
    case (None, Some(_)) =>
      PathMadeLeads(g, f, left, Target(g, f, right).value, tr.grownLeft, g');
      ExtendsKeepsPaths(g, g', f, right);
    case (None, None) =>
      EqualsUnifiesNew(g, f, left, right, tr, g');
  }

  // Once its paths are unified the action does nothing, and does not throw.
  lemma EqualsAgain<N>(g: Graph<N>, f: N, left: Path, right: Path, tr: Trail<N>, o: Outcome, g': Graph<N>)
    requires f in g && Unified(g, f, left, right) && Equated(g, f, left, right, tr, o, g')
    ensures o.Ok? && g' == g
  {
  }

  // The action `<a> = <>` on a node 0 whose `a` leads to a node 1 with the same features: 0 is discarded,
  // so that the empty path, which is 0 itself, is left behind.
  lemma EmptyPathLeftApart()
    ensures var g: Graph<nat> := map[0 := Features(map["a" := 1]), 1 := Features(map["a" := 1])];
      && Closed(g) && Mergeable(g, 1, 0) && LeftApart(g, 0, ["a"], [])
      && Target(Merged(g, 1, 0), 0, ["a"]) == Some(1) && Target(Merged(g, 1, 0), 0, []) == Some(0)
  {
    var g: Graph<nat> := map[0 := Features(map["a" := 1]), 1 := Features(map["a" := 1])];
    assert "a" in g[0].kv && "a" in g[1].kv;
    assert Step(g, 0, "a") == Some(1) && Target(g, 0, ["a"]) == Some(1);
    assert Step(Merged(g, 1, 0), 0, "a") == Some(1);
  }

  // The action `<a b> = <a>` on a node 0 without features makes the nodes 2 and 1; the new end of the left path
  // makes the right one, which ends at 2 while the left one ends at 1.
  lemma PrefixLeftApart()
    ensures var g: Graph<nat> := map[0 := Features(map[])];
      var g': Graph<nat> := map[0 := Features(map["a" := 2]), 1 := Features(map[]), 2 := Features(map["b" := 1])];
      && Closed(g) && Target(g, 0, ["a", "b"]) == None == Target(g, 0, ["a"]) && LeftApart(g, 0, ["a", "b"], ["a"])
      && Equated(g, 0, ["a", "b"], ["a"], Trail(1, [2, 1], [], g'), Ok, g')
      && Target(g', 0, ["a", "b"]) == Some(1) && Target(g', 0, ["a"]) == Some(2)
  {
    var g: Graph<nat> := map[0 := Features(map[])];
    var g1: Graph<nat> := map[0 := Features(map[]), 1 := Features(map[])];
    var g': Graph<nat> := map[0 := Features(map["a" := 2]), 1 := Features(map[]), 2 := Features(map["b" := 1])];
    assert ["a"][..0] == [] && ["a"][0..] == ["a"] <= ["a", "b"][0..] == ["a", "b"];
    assert Resolved(g, 0, ["a", "b"]) == 0 && StopNode(g, 0, ["a", "b"]) == 0;
    assert Enters(g, 0, ["a"], 0, StopNode(g, 0, ["a", "b"]), ["a", "b"][Resolved(g, 0, ["a", "b"])..]);
    assert g[1 := Features(map[])] == g1;
    PrefixGrown(g1, g');
    assert Step(g', 0, "a") == Some(2) && Step(g', 2, "b") == Some(1) && ["a", "b"][1..] == ["b"];
    assert Target(g', 2, ["b"]) == Some(1) && Target(g', 0, ["a"]) == Some(2);
    assert Resolved(g', 0, ["a"]) == 1;
  }

  lemma PrefixGrown(g1: Graph<nat>, g': Graph<nat>)
    requires g1 == map[0 := Features(map[]), 1 := Features(map[])]
    requires g' == map[0 := Features(map["a" := 2]), 1 := Features(map[]), 2 := Features(map["b" := 1])]
    ensures PathMade(g1, 0, ["a", "b"], 1, [2, 1], g') && !Blocked(g1, 0, ["a", "b"])
  {
    var keys, nodes: seq<nat> := ["a", "b"], [2, 1];
    assert Resolved(g1, 0, keys) == 0 && StopNode(g1, 0, keys) == 0 && keys[0..] == keys;
    assert keys[..1] == ["a"] && nodes[..1] == [2] && ["a"][..0] == [] && [2][..0] == [];
    assert Grown(g1, 0, ["a"], [2]) == Joined(g1, 0, "a", 2);
    assert Grown(g1, 0, keys, nodes) == Joined(Joined(g1, 0, "a", 2), 2, "b", 1);
    assert Joined(g1, 0, "a", 2) == map[0 := Features(map["a" := 2]), 1 := Features(map[]), 2 := Features(map[])];
  }
}
