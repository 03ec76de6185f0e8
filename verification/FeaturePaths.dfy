// Walking chains of keys through a feature graph, and growing the missing end of such a chain.
module FeaturePaths {
  import opened Prelude
  import opened FeatureGraph

  // How many steps of a path exist, and the node where the walk stops.
  ghost function Resolved<N>(g: Graph<N>, n: N, path: Path): (i: nat)
    ensures i <= |path|
  {
    if path == [] then 0
    else match Step(g, n, path[0])
      case None => 0
      case Some(m) => 1 + Resolved(g, m, path[1..])
  }

  ghost function StopNode<N>(g: Graph<N>, n: N, path: Path): N {
    if path == [] then n
    else match Step(g, n, path[0])
      case None => n
      case Some(m) => StopNode(g, m, path[1..])
  }

  // The walk has steps left at a node that holds a text.
  ghost predicate Blocked<N>(g: Graph<N>, n: N, path: Path) {
    var p := StopNode(g, n, path);
    Resolved(g, n, path) < |path| && p in g && g[p].Text?
  }

  lemma {:induction false} TargetAppend<N>(g: Graph<N>, n: N, p: Path, q: Path)
    ensures Target(g, n, p + q) == match Target(g, n, p) case None => None case Some(m) => Target(g, m, q)
    decreases |p|
  {
    if p == [] {
      assert p + q == q;
    } else {
      assert (p + q)[1..] == p[1..] + q;
      match Step(g, n, p[0])
      case None =>
      case Some(m) => TargetAppend(g, m, p[1..], q);
    }
  }

  lemma {:induction false} ResolvedFacts<N>(g: Graph<N>, n: N, path: Path)
    requires Closed(g) && n in g
    ensures var i := Resolved(g, n, path);
      && StopNode(g, n, path) in g
      && Target(g, n, path[..i]) == Some(StopNode(g, n, path))
      && (i < |path| ==> Step(g, StopNode(g, n, path), path[i]) == None)
      && (i == |path| <==> Target(g, n, path).Some?)
    decreases |path|
  {
    if path != [] && Step(g, n, path[0]).Some? {
      var m := Step(g, n, path[0]).value;
      ResolvedFacts(g, m, path[1..]);
      var i := Resolved(g, m, path[1..]);
      assert path[..i + 1][1..] == path[1..][..i];
      assert path[..|path|] == path && path[1..][..|path| - 1] == path[1..];
    } else {
      assert path[..0] == [];
    }
  }

  // A prefix that resolves is no longer than the longest one.
  lemma {:induction false} ResolvedIsLongest<N>(g: Graph<N>, n: N, path: Path, i: nat)
    requires i <= |path| && Target(g, n, path[..i]).Some?
    ensures i <= Resolved(g, n, path)
    ensures i == |path| || Step(g, Target(g, n, path[..i]).value, path[i]).None? ==>
              i == Resolved(g, n, path) && Target(g, n, path[..i]).value == StopNode(g, n, path)
    decreases |path|
  {
    if i == 0 {
    } else {
      var m := Step(g, n, path[0]).value;
      assert path[..i][1..] == path[1..][..i - 1];
      ResolvedIsLongest(g, m, path[1..], i - 1);
    }
  }

  // ---------------------------------------------------------------- growing

  // An edge to a node that is created, with no features, unless it exists.
  ghost function Joined<N>(g: Graph<N>, from: N, k: Key, to: N): Graph<N> {
    var g1 := if to in g then g else g[to := Features(map[])];
    if from in g1 && g1[from].Features? then WithEdge(g1, from, k, to) else g1
  }

  // A chain of edges, one key each, from p through the given nodes.
  ghost function Grown<N>(g: Graph<N>, p: N, keys: Path, nodes: seq<N>): Graph<N>
    requires |keys| == |nodes|
  {
    var i := |keys| - 1;
    if keys == [] then g
    else Joined(Grown(g, p, keys[..i], nodes[..i]), if i == 0 then p else nodes[i - 1], keys[i], nodes[i])
  }

  // Every node of the chain but the last is new; nothing leaves p by the chain's first key.
  ghost predicate CanGrow<N>(g: Graph<N>, p: N, keys: Path, nodes: seq<N>) {
    && |keys| == |nodes| && keys != []
    && p in g && g[p].Features? && keys[0] !in g[p].kv
    && Distinct(nodes)
    && (forall i :: 0 <= i < |nodes| - 1 ==> nodes[i] !in g)
  }

  // The grown graph, node by node.
  ghost predicate IsGrown<N>(g: Graph<N>, p: N, keys: Path, nodes: seq<N>, g': Graph<N>)
    requires CanGrow(g, p, keys, nodes)
  {
    var l := |nodes| - 1;
    && g'.Keys == g.Keys + (set n | n in nodes)
    && (forall n :: n in g && n != p ==> g'[n] == g[n])
    && g'[p] == Features(g[p].kv[keys[0] := nodes[0]])
    && (forall i :: 0 <= i < l ==> nodes[i] in g' && g'[nodes[i]] == Features(map[keys[i + 1] := nodes[i + 1]]))
    && (nodes[l] !in g ==> nodes[l] in g' && g'[nodes[l]] == Features(map[]))
  }

  lemma GrownStep<N>(g: Graph<N>, p: N, keys: Path, nodes: seq<N>, l: nat, g1: Graph<N>, g': Graph<N>)
    requires CanGrow(g, p, keys, nodes) && 0 < l == |nodes| - 1
    requires CanGrow(g, p, keys[..l], nodes[..l]) && IsGrown(g, p, keys[..l], nodes[..l], g1)
    requires g' == Joined(g1, nodes[l - 1], keys[l], nodes[l])
    ensures IsGrown(g, p, keys, nodes, g')
  {
    var nodes1 := nodes[..l];
    assert nodes == nodes1 + [nodes[l]];
    assert nodes1[l - 1] !in g && g1[nodes1[l - 1]] == Features(map[]);
    assert g'.Keys == g.Keys + (set n | n in nodes);
    forall i | 0 <= i < l
      ensures nodes[i] in g' && g'[nodes[i]] == Features(map[keys[i + 1] := nodes[i + 1]])
    {
      if i < l - 1 {
        assert nodes1[i] in g1 && g1[nodes1[i]] == Features(map[keys[..l][i + 1] := nodes1[i + 1]]);
      }
    }
  }

  lemma {:induction false} GrownNodeByNode<N>(g: Graph<N>, p: N, keys: Path, nodes: seq<N>)
    requires CanGrow(g, p, keys, nodes)
    ensures IsGrown(g, p, keys, nodes, Grown(g, p, keys, nodes))
    decreases |keys|
  {
    var l := |keys| - 1;
    if l == 0 {
      assert Grown(g, p, keys[..l], nodes[..l]) == g;
      assert nodes == [nodes[0]];
    } else {
      GrownNodeByNode(g, p, keys[..l], nodes[..l]);
      GrownStep(g, p, keys, nodes, l, Grown(g, p, keys[..l], nodes[..l]), Grown(g, p, keys, nodes));
    }
  }

  lemma GrownClosed<N>(g: Graph<N>, p: N, keys: Path, nodes: seq<N>)
    requires CanGrow(g, p, keys, nodes) && Closed(g)
    ensures Closed(Grown(g, p, keys, nodes))
  {
    GrownNodeByNode(g, p, keys, nodes);
    var g' := Grown(g, p, keys, nodes);
    forall n, k | n in g' && g'[n].Features? && k in g'[n].kv
      ensures g'[n].kv[k] in g'
    {
      if n !in g {
        var i :| 0 <= i < |nodes| && nodes[i] == n;
        assert i + 1 < |nodes| ==> nodes[i + 1] in nodes;
      } else if n == p && k == keys[0] {
        assert nodes[0] in nodes;
      }
    }
  }

  // Every edge of g is an edge of g'.
  ghost predicate Extends<N>(g: Graph<N>, g': Graph<N>) {
    && g.Keys <= g'.Keys
    && forall n, k :: n in g && g[n].Features? && k in g[n].kv ==> Step(g', n, k) == Step(g, n, k)
  }

  lemma {:induction false} ExtendsKeepsPaths<N>(g: Graph<N>, g': Graph<N>, n: N, path: Path)
    requires Extends(g, g') && Target(g, n, path).Some?
    ensures Target(g', n, path) == Target(g, n, path)
    decreases |path|
  {
    if path != [] {
      ExtendsKeepsPaths(g, g', Step(g, n, path[0]).value, path[1..]);
    }
  }

  lemma GrownExtends<N>(g: Graph<N>, p: N, keys: Path, nodes: seq<N>)
    requires CanGrow(g, p, keys, nodes)
    ensures Extends(g, Grown(g, p, keys, nodes))
  {
    GrownNodeByNode(g, p, keys, nodes);
  }

  ghost function ChainNode<N>(p: N, nodes: seq<N>, x: nat): N
    requires x <= |nodes|
  {
    if x == 0 then p else nodes[x - 1]
  }

  // Along the chain, a prefix of the remaining keys leads to the matching node.
  lemma {:induction false} GrownChain<N>(g: Graph<N>, p: N, keys: Path, nodes: seq<N>, i: nat, j: nat)
    requires CanGrow(g, p, keys, nodes) && i <= j <= |keys|
    ensures Target(Grown(g, p, keys, nodes), ChainNode(p, nodes, i), keys[i..j]) == Some(ChainNode(p, nodes, j))
    decreases j - i
  {
    GrownNodeByNode(g, p, keys, nodes);
    if i < j {
      assert keys[i..j][1..] == keys[i + 1..j];
      GrownChain(g, p, keys, nodes, i + 1, j);
    }
  }

  // ---------------------------------------------------------------- making a path

  // g' is g with the missing end of the path from f grown towards the target.
  ghost predicate PathMade<N>(g: Graph<N>, f: N, path: Path, target: N, nodes: seq<N>, g': Graph<N>) {
    var s, p := Resolved(g, f, path), StopNode(g, f, path);
    if s == |path| then g' == g
    else
      && CanGrow(g, p, path[s..], nodes)
      && nodes[|nodes| - 1] == target
      && g' == Grown(g, p, path[s..], nodes)
  }

  // Making a path leaves no node without its text.
  lemma PathMadeKeepsTexts<N>(g: Graph<N>, f: N, path: Path, target: N, nodes: seq<N>, g': Graph<N>)
    requires NoBlankText(g) && PathMade(g, f, path, target, nodes, g')
    ensures NoBlankText(g')
  {
    var s, p := Resolved(g, f, path), StopNode(g, f, path);
    if s < |path| {
      GrownNodeByNode(g, p, path[s..], nodes);
      forall n | n in g'
        ensures g'[n] != Text(None)
      {
        if n !in g {
          assert n in nodes;
          var i :| 0 <= i < |nodes| && nodes[i] == n;
          assert i < |nodes| - 1 ==> g'[nodes[i]] == Features(map[path[s..][i + 1] := nodes[i + 1]]);
        }
      }
    }
  }

  // The walk has come to `cur` by i steps; `nodes` has been grown so far.
  ghost predicate Making<N>(g0: Graph<N>, f: N, path: Path, target: N, i: nat, cur: N, nodes: seq<N>, g: Graph<N>)
    requires i <= |path|
  {
    var s, p := Resolved(g0, f, path), StopNode(g0, f, path);
    && Closed(g0) && f in g0 && target in g0
    && if nodes == [] then g == g0 && Target(g0, f, path[..i]) == Some(cur)
       else
         && s < i == s + |nodes| && cur == nodes[|nodes| - 1]
         && (if i < |path| then cur !in g0 else cur == target)
         && CanGrow(g0, p, path[s..i], nodes)
         && g == Grown(g0, p, path[s..i], nodes)
  }

  lemma MakingStarts<N>(g0: Graph<N>, f: N, path: Path, target: N)
    requires Closed(g0) && f in g0 && target in g0
    ensures Making(g0, f, path, target, 0, f, [], g0)
  {
    assert path[..0] == [];
  }

  lemma MakingBlocked<N>(g0: Graph<N>, f: N, path: Path, target: N, i: nat, cur: N, nodes: seq<N>, g: Graph<N>)
    requires i < |path| && Making(g0, f, path, target, i, cur, nodes, g) && cur in g && g[cur].Text?
    ensures Blocked(g0, f, path) && g == g0
  {
    if nodes == [] {
      ResolvedIsLongest(g0, f, path, i);
      ResolvedFacts(g0, f, path);
    } else {
      GrownNodeByNode(g0, StopNode(g0, f, path), path[Resolved(g0, f, path)..i], nodes);
    }
  }

  lemma MakingWalks<N>(g0: Graph<N>, f: N, path: Path, target: N, i: nat, cur: N, nodes: seq<N>, g: Graph<N>)
    requires i < |path| && Making(g0, f, path, target, i, cur, nodes, g) && Step(g, cur, path[i]).Some?
    ensures Making(g0, f, path, target, i + 1, Step(g, cur, path[i]).value, nodes, g)
  {
    if nodes == [] {
      TargetAppend(g0, f, path[..i], [path[i]]);
      assert path[..i] + [path[i]] == path[..i + 1];
    } else {
      GrownNodeByNode(g0, StopNode(g0, f, path), path[Resolved(g0, f, path)..i], nodes);
    }
  }

  lemma MakingGrows<N>(g0: Graph<N>, f: N, path: Path, target: N, i: nat, cur: N, nodes: seq<N>, g: Graph<N>, to: N)
    requires i < |path| && Making(g0, f, path, target, i, cur, nodes, g)
    requires cur in g && g[cur].Features? && path[i] !in g[cur].kv
    requires if i + 1 < |path| then to !in g else to == target
    ensures Making(g0, f, path, target, i + 1, to, nodes + [to], Joined(g, cur, path[i], to))
  {
    if nodes == [] {
      ResolvedIsLongest(g0, f, path, i);
      ResolvedFacts(g0, f, path);
    }
    var s, p := Resolved(g0, f, path), StopNode(g0, f, path);
    var keys := path[s..i];
    assert path[s..i + 1] == keys + [path[i]];
    GrownMore(g0, p, keys, nodes, path[i], to);
    if nodes != [] {
      NotInChain(g0, p, keys, nodes, to, i + 1 < |path|);
      assert cur == nodes[|nodes| - 1];
      LongerChainGrows(g0, p, keys, nodes, path[i], to);
    }
  }

  lemma GrownMore<N>(g: Graph<N>, p: N, keys: Path, nodes: seq<N>, key: Key, to: N)
    requires |keys| == |nodes|
    ensures Grown(g, p, keys + [key], nodes + [to]) ==
            Joined(Grown(g, p, keys, nodes), if nodes == [] then p else nodes[|nodes| - 1], key, to)
  {
    assert (keys + [key])[..|keys|] == keys && (nodes + [to])[..|nodes|] == nodes;
  }

  // A node of the graph is not on a chain that has not come to its end, and a new one is on no chain.
  lemma NotInChain<N>(g: Graph<N>, p: N, keys: Path, nodes: seq<N>, to: N, isNew: bool)
    requires CanGrow(g, p, keys, nodes) && nodes[|nodes| - 1] !in g
    requires if isNew then to !in Grown(g, p, keys, nodes) else to in g
    ensures to !in nodes && (isNew ==> to !in g)
  {
    GrownNodeByNode(g, p, keys, nodes);
    assert nodes == nodes[..|nodes| - 1] + [nodes[|nodes| - 1]];
  }

  lemma LongerChainGrows<N>(g: Graph<N>, p: N, keys: Path, nodes: seq<N>, key: Key, to: N)
    requires CanGrow(g, p, keys, nodes) && nodes[|nodes| - 1] !in g && to !in nodes
    ensures CanGrow(g, p, keys + [key], nodes + [to])
  {
  }

  lemma MakingAdvances<N>(g0: Graph<N>, f: N, path: Path, target: N, i: nat, cur: N, nodes: seq<N>, g: Graph<N>, to: N,
                          g': Graph<N>)
    requires i < |path| && Making(g0, f, path, target, i, cur, nodes, g) && cur in g && g[cur].Features?
    requires if path[i] in g[cur].kv then to == g[cur].kv[path[i]] && g' == g
             else g' == Joined(g, cur, path[i], to) && if i + 1 < |path| then to !in g else to == target
    ensures Making(g0, f, path, target, i + 1, to, if Step(g, cur, path[i]).Some? then nodes else nodes + [to], g')
  {
    if path[i] in g[cur].kv {
      MakingWalks(g0, f, path, target, i, cur, nodes, g);
    } else {
      MakingGrows(g0, f, path, target, i, cur, nodes, g, to);
    }
  }

  lemma MakingDone<N>(g0: Graph<N>, f: N, path: Path, target: N, cur: N, nodes: seq<N>, g: Graph<N>)
    requires Making(g0, f, path, target, |path|, cur, nodes, g)
    ensures PathMade(g0, f, path, target, nodes, g) && !Blocked(g0, f, path)
  {
    var s := Resolved(g0, f, path);
    ResolvedFacts(g0, f, path);
    if nodes == [] {
      ResolvedIsLongest(g0, f, path, |path|);
    } else {
      assert path[s..|path|] == path[s..];
    }
  }
}
