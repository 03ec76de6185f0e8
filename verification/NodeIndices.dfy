// The indices under which shared nodes are printed: a node gets one when the walk comes to it again.
module NodeIndices {
  import opened Prelude
  import opened FeatureGraph
  import opened FeatureNodes
  import opened NameFilter
  import opened Traversals

  // How a walk from a root comes to a node: as its root, or by a key of another node.
  datatype Arrival<N> = AtRoot | ByEdge(from: N, key: Key)

  ghost function Lands<N>(g: Graph<N>, root: N, a: Arrival<N>): Option<N> {
    match a
    case AtRoot => Some(root)
    case ByEdge(from, key) => Step(g, from, key)
  }

  ghost function Arrived<N>(g: Graph<N>, root: N, arrivals: set<Arrival<N>>, n: N): set<Arrival<N>> {
    set a | a in arrivals && Lands(g, root, a) == Some(n)
  }

  ghost function KeysOf<N>(g: Graph<N>, n: N): set<Key> {
    if n in g && g[n].Features? then g[n].kv.Keys else {}
  }

  // Every way to come to a node of the reachable part: the root, and each followed edge of a reachable node.
  ghost function AllArrivals<N>(g: Graph<N>, keep: Key -> bool, root: N): set<Arrival<N>> {
    {AtRoot} + set p, k | p in Reach(g, keep, root) && k in KeysOf(g, p) && keep(k) :: ByEdge(p, k)
  }

  ghost function WaysTo<N>(g: Graph<N>, keep: Key -> bool, root: N, n: N): set<Arrival<N>> {
    Arrived(g, root, AllArrivals(g, keep, root), n)
  }

  // The indices are 0 .. k-1, one for each of k nodes.
  ghost predicate Numbering<N>(indices: map<N, nat>) {
    && (forall n :: n in indices ==> indices[n] < |indices|)
    && (forall m, n {:trigger SameIndex(indices, m, n)} :: m in indices && n in indices ==> !SameIndex(indices, m, n))
  }

  ghost predicate SameIndex<N>(indices: map<N, nat>, m: N, n: N)
    requires m in indices && n in indices
  {
    m != n && indices[m] == indices[n]
  }

  // What the tables hold after the arrivals so far.
  ghost predicate Tally<N>(g: Graph<N>, root: N, arrivals: set<Arrival<N>>, visited: set<N>, indices: map<N, nat>) {
    && visited <= g.Keys && indices.Keys <= g.Keys && Numbering(indices)
    && (forall n {:trigger TallyAt(g, root, arrivals, visited, indices, n)} :: n in g ==>
           TallyAt(g, root, arrivals, visited, indices, n))
    && OnlyFrom(visited, arrivals)
  }

  // A node has been visited when it has been come to, and has an index when it has been come to twice.
  ghost predicate TallyAt<N>(g: Graph<N>, root: N, arrivals: set<Arrival<N>>, visited: set<N>, indices: map<N, nat>,
                             n: N) {
    var ways := Arrived(g, root, arrivals, n);
    (n in visited <==> ways != {}) && (n in indices <==> |ways| >= 2)
  }

  ghost predicate OnlyFrom<N>(visited: set<N>, arrivals: set<Arrival<N>>) {
    forall a :: a in arrivals ==> a == AtRoot || a.from in visited
  }

  lemma ArrivedMore<N>(g: Graph<N>, root: N, arrivals: set<Arrival<N>>, a: Arrival<N>, n: N)
    requires a !in arrivals
    ensures Arrived(g, root, arrivals + {a}, n) ==
            Arrived(g, root, arrivals, n) + if Lands(g, root, a) == Some(n) then {a} else {}
    ensures |Arrived(g, root, arrivals + {a}, n)| ==
            |Arrived(g, root, arrivals, n)| + if Lands(g, root, a) == Some(n) then 1 else 0
  {
    assert Arrived(g, root, arrivals + {a}, n) ==
           Arrived(g, root, arrivals, n) + if Lands(g, root, a) == Some(n) then {a} else {};
  }

  lemma NumberingMore<N>(indices: map<N, nat>, n: N)
    requires Numbering(indices) && n !in indices
    ensures Numbering(indices[n := |indices|])
  {
    var indices' := indices[n := |indices|];
    forall a, b | a in indices' && b in indices'
      ensures !SameIndex(indices', a, b)
    {
      assert a in indices && b in indices ==> !SameIndex(indices, a, b);
    }
  }

  // The tables after one more arrival: the first, the second, or a later one at its node.
  lemma TallyFirst<N>(g: Graph<N>, root: N, arrivals: set<Arrival<N>>, visited: set<N>, indices: map<N, nat>,
                      a: Arrival<N>, n: N)
    requires Tally(g, root, arrivals, visited, indices) && a !in arrivals && n in g && Lands(g, root, a) == Some(n)
    requires (a == AtRoot || a.from in visited) && n !in visited
    ensures Tally(g, root, arrivals + {a}, visited + {n}, indices)
  {
    assert TallyAt(g, root, arrivals, visited, indices, n);
    forall m | m in g
      ensures TallyAt(g, root, arrivals + {a}, visited + {n}, indices, m)
    {
      assert TallyAt(g, root, arrivals, visited, indices, m);
      ArrivedMore(g, root, arrivals, a, m);
    }
  }

  lemma TallyAgain<N>(g: Graph<N>, root: N, arrivals: set<Arrival<N>>, visited: set<N>, indices: map<N, nat>,
                      a: Arrival<N>, n: N)
    requires Tally(g, root, arrivals, visited, indices) && a !in arrivals && n in g && Lands(g, root, a) == Some(n)
    requires (a == AtRoot || a.from in visited) && n in visited
    ensures Tally(g, root, arrivals + {a}, visited, if n in indices then indices else indices[n := |indices|])
  {
    var indices' := if n in indices then indices else indices[n := |indices|];
    assert Numbering(indices') by {
      if n !in indices {
        NumberingMore(indices, n);
      }
    }
    assert TallyAt(g, root, arrivals, visited, indices, n);
    forall m | m in g
      ensures TallyAt(g, root, arrivals + {a}, visited, indices', m)
    {
      assert TallyAt(g, root, arrivals, visited, indices, m);
      ArrivedMore(g, root, arrivals, a, m);
    }
  }

  class IndexTable {
    var indices: map<FeatureNode, nat>
    var alreadyVisited: set<FeatureNode>
    ghost var arrivals: set<Arrival<FeatureNode>>

    constructor ()
      ensures indices == map[] && alreadyVisited == {} && arrivals == {}
    {
      indices, alreadyVisited, arrivals := map[], {}, {};
    }

    ghost predicate Tallies(g: Graph<FeatureNode>, root: FeatureNode)
      reads this
    {
      Tally(g, root, arrivals, alreadyVisited, indices)
    }
  }

  // The followed edges of these nodes have all been walked.
  ghost predicate Walked<N>(g: Graph<N>, keep: Key -> bool, nodes: set<N>, arrivals: set<Arrival<N>>) {
    forall p, k :: p in nodes && k in KeysOf(g, p) && keep(k) ==> ByEdge(p, k) in arrivals
  }

  // From the tables (v0, a0) to (v, a): the new arrivals are by followed edges of n and of nodes that have
  // just been visited, the edges of these have all been walked, and n reaches them.
  ghost predicate Progress<N>(g: Graph<N>, keep: Key -> bool, n: N, v0: set<N>, a0: set<Arrival<N>>, v: set<N>,
                              a: set<Arrival<N>>) {
    && v0 <= v && a0 <= a
    && (forall e :: e in a - a0 ==>
           e.ByEdge? && (e.from == n || e.from in v - v0) && e.key in KeysOf(g, e.from) && keep(e.key))
    && Walked(g, keep, v - v0, a)
    && forall m :: m in v - v0 ==> Reachable(g, keep, n, m)
  }

  lemma ProgressTrans<N>(g: Graph<N>, keep: Key -> bool, n: N, v0: set<N>, a0: set<Arrival<N>>, v1: set<N>,
                         a1: set<Arrival<N>>,
                         v2: set<N>, a2: set<Arrival<N>>)
    requires Progress(g, keep, n, v0, a0, v1, a1) && Progress(g, keep, n, v1, a1, v2, a2)
    ensures Progress(g, keep, n, v0, a0, v2, a2)
  {
  }

  // What was done at the end of an edge is progress of the node the edge leaves.
  lemma ProgressByEdge<N>(g: Graph<N>, keep: Key -> bool, n: N, v1: set<N>, a1: set<Arrival<N>>, s: Key, c: N,
                          v2: set<N>, a2: set<Arrival<N>>)
    requires Step(g, n, s) == Some(c) && keep(s) && n in v1
    requires Progress(g, keep, c, v1 + {c}, a1 + {ByEdge(n, s)}, v2, a2)
    requires if c in v1 then v2 == v1 && a2 == a1 + {ByEdge(n, s)} else Walked(g, keep, {c}, a2)
    ensures Progress(g, keep, n, v1, a1, v2, a2)
    ensures forall k :: k != s ==> (ByEdge(n, k) in a2 <==> ByEdge(n, k) in a1)
  {
    forall m | m in v2 - v1
      ensures Reachable(g, keep, n, m)
    {
      ReachesItself(g, keep, c);
      ReachesOn(g, keep, n, s, m);
    }
  }

  // Comes to a node by `a`: gives it an index if it has been visited, else visits it and goes on.
  method MakeIndices(n: FeatureNode, filter: FeatureNameFilter, table: IndexTable,
                     ghost root: FeatureNode, ghost a: Arrival<FeatureNode>, ghost w: NodeHeap)
    requires w.Valid() && n in w.graph && table.Tallies(w.graph, root)
    requires a !in table.arrivals && Lands(w.graph, root, a) == Some(n) &&
              (a == AtRoot || a.from in table.alreadyVisited)
    modifies table
    ensures table.Tallies(w.graph, root)
    ensures Progress(w.graph, filter.Keeps, n, old(table.alreadyVisited) + {n}, old(table.arrivals) + {a},
                     table.alreadyVisited, table.arrivals)
    ensures n in old(table.alreadyVisited) ==>
              table.alreadyVisited == old(table.alreadyVisited) && table.arrivals == old(table.arrivals) + {a}
    ensures n !in old(table.alreadyVisited) ==> Walked(w.graph, filter.Keeps, {n}, table.arrivals)
    decreases w.graph.Keys - table.alreadyVisited, 0
  {
    ghost var g := w.graph;
    if n in table.alreadyVisited {
      TallyAgain(g, root, table.arrivals, table.alreadyVisited, table.indices, a, n);
      if n !in table.indices {
        table.indices := table.indices[n := |table.indices|];
      }
      table.arrivals := table.arrivals + {a};
      return;
    }
    TallyFirst(g, root, table.arrivals, table.alreadyVisited, table.indices, a, n);
    table.arrivals := table.arrivals + {a};
    table.alreadyVisited := table.alreadyVisited + {n};
    if !n.IsValued() {
      MakeIndicesBelow(n, filter, table, root, w);
    }
    assert w.Sound(n);
  }

  // Goes on by one feature that the filter keeps.
  method FollowKey(n: FeatureNode, s: Key, filter: FeatureNameFilter, table: IndexTable, ghost root: FeatureNode,
                   ghost w: NodeHeap)
    requires w.Valid() && n in w.graph && table.Tallies(w.graph, root) && n in table.alreadyVisited
    requires s in KeysOf(w.graph, n) && filter.Keeps(s) && ByEdge(n, s) !in table.arrivals
    modifies table
    ensures table.Tallies(w.graph, root)
    ensures Progress(w.graph, filter.Keeps, n, old(table.alreadyVisited), old(table.arrivals), table.alreadyVisited,
              table.arrivals)
    ensures forall k :: ByEdge(n, k) in table.arrivals <==> k == s || ByEdge(n, k) in old(table.arrivals)
    decreases w.graph.Keys - table.alreadyVisited, 1
  {
    ghost var v1, a1 := table.alreadyVisited, table.arrivals;
    assert w.Sound(n);
    var c := n.kvPairs.value[s];
    assert Step(w.graph, n, s) == Some(c);
    MakeIndices(c, filter, table, root, ByEdge(n, s), w);
    ProgressByEdge(w.graph, filter.Keeps, n, v1, a1, s, c, table.alreadyVisited, table.arrivals);
  }

  // Goes on by every feature that the filter keeps.
  method MakeIndicesBelow(n: FeatureNode, filter: FeatureNameFilter, table: IndexTable, ghost root: FeatureNode,
                          ghost w: NodeHeap)
    requires w.Valid() && n in w.graph && !n.IsValued() && table.Tallies(w.graph, root) && n in table.alreadyVisited
    requires forall k :: ByEdge(n, k) !in table.arrivals
    modifies table
    ensures table.Tallies(w.graph, root)
    ensures Progress(w.graph, filter.Keeps, n, old(table.alreadyVisited), old(table.arrivals), table.alreadyVisited,
              table.arrivals)
    ensures Walked(w.graph, filter.Keeps, {n}, table.arrivals)
    decreases w.graph.Keys - table.alreadyVisited, 2
  {
    ghost var v0, a0 := table.alreadyVisited, table.arrivals;
    assert w.Sound(n);
    var names := filter.Features(n.kvPairs.value.Keys);
    var i := 0;
    while i < |names|
      invariant i <= |names| && table.Tallies(w.graph, root)
      invariant Progress(w.graph, filter.Keeps, n, v0, a0, table.alreadyVisited, table.arrivals)
      invariant forall j :: 0 <= j < |names| ==> (ByEdge(n, names[j]) in table.arrivals <==> j < i)
    {
      ghost var v1, a1 := table.alreadyVisited, table.arrivals;
      assert names[i] in names;
      FollowKey(n, names[i], filter, table, root, w);
      ProgressTrans(w.graph, filter.Keeps, n, v0, a0, v1, a1, table.alreadyVisited, table.arrivals);
      i := i + 1;
    }
  }

  // The table of a whole walk: exactly the nodes that can be come to in two ways or more have an index, and
  // the indices are 0 .. k-1.
  method Indices(root: FeatureNode, filter: FeatureNameFilter,
                 ghost w: NodeHeap) returns (indices: map<FeatureNode, nat>)
    requires w.Valid() && root in w.graph
    ensures Numbering(indices) && indices.Keys <= Reach(w.graph, filter.Keeps, root)
    ensures forall n :: n in Reach(w.graph, filter.Keeps, root) ==>
              (n in indices <==> |WaysTo(w.graph, filter.Keeps, root, n)| >= 2)
  {
    var table := new IndexTable();
    MakeIndices(root, filter, table, root, AtRoot, w);
    indices := table.indices;
    WalkedAll(w.graph, filter.Keeps, root, table.alreadyVisited, table.arrivals, indices);
    forall n | n in w.graph
      ensures n in indices <==> |WaysTo(w.graph, filter.Keeps, root, n)| >= 2
      ensures n in indices ==> n in table.alreadyVisited
    {
      assert TallyAt(w.graph, root, table.arrivals, table.alreadyVisited, indices, n);
    }
  }

  // A finished walk has visited what can be reached, by every way there is.
  lemma WalkedAll<N>(g: Graph<N>, keep: Key -> bool, root: N, v: set<N>, a: set<Arrival<N>>, indices: map<N, nat>)
    requires Closed(g) && root in g && Tally(g, root, a, v, indices)
    requires Progress(g, keep, root, {root}, {AtRoot}, v, a) && Walked(g, keep, {root}, a)
    ensures v == Reach(g, keep, root) && a == AllArrivals(g, keep, root)
  {
    ReachesItself(g, keep, root);
    forall p, k | p in v && p in g && g[p].Features? && k in g[p].kv && keep(k)
      ensures g[p].kv[k] in v
    {
      var c := g[p].kv[k];
      assert k in KeysOf(g, p) && ByEdge(p, k) in Arrived(g, root, a, c);
      assert TallyAt(g, root, a, v, indices, c);
    }
    ClosedIsReach(g, keep, v, root);
  }
}
