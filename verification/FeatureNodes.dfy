// The mutable feature node: a key table or a string, and the set of nodes that point here.
module FeatureNodes {
  import opened Prelude
  import opened FeatureGraph
  import opened FeaturePaths

  class FeatureNode {
    var parents: set<FeatureNode>
    var kvPairs: Option<map<Key, FeatureNode>>
    var value: Option<string>

    constructor ()
      ensures parents == {} && Body() == Features(map[]) && value == None
    {
      parents, kvPairs, value := {}, Some(map[]), None;
    }

    ghost function Body(): Body<FeatureNode>
      reads this
    {
      if kvPairs.None? then Text(value) else Features(kvPairs.value)
    }

    // The node holds this body and has these back-pointers, and never has both a table and a string.
    ghost predicate Reflects(b: Body<FeatureNode>, ps: set<FeatureNode>)
      reads this
    {
      Body() == b && parents == ps && (kvPairs.Some? ==> value.None?)
    }

    predicate IsValued()
      reads this
    {
      kvPairs.None?
    }

    predicate IsEmpty()
      reads this
      ensures IsEmpty() == IsEmptyBody(Body())
    {
      if IsValued() then value.None? else kvPairs.value == map[]
    }

    // Stores a string; refused while the node still has keys.
    method ForceValue(val: string, ghost w: NodeHeap) returns (o: Outcome)
      requires w.Valid() && this in w.graph
      modifies w, this
      ensures w.Valid()
      ensures o.Threw? <==> old(w.graph[this].Features? && w.graph[this].kv != map[])
      ensures w.graph == if o.Threw? then old(w.graph) else old(w.graph)[this := Text(Some(val))]
    {
      assert w.Sound(this);
      ghost var g0 := w.graph;
      if kvPairs.Some? && kvPairs.value.Keys != {} {
        return Threw;
      }
      kvPairs, value := None, Some(val);
      w.graph := w.graph[this := Text(Some(val))];
      forall n | n in g0
        ensures w.Sound(n)
      {
        assert old(w.Sound(n));
        assert forall p :: p in g0 ==> (Points(w.graph, p, n) <==> Points(g0, p, n));
      }
      return Ok;
    }

    // Points `key` at `target`, or drops the key when `target` is null.
    method Set(key: Key, target: FeatureNode?, ghost w: NodeHeap) returns (o: Outcome)
      requires w.Valid() && this in w.graph && (target != null ==> target in w.graph)
      modifies w, w.graph.Keys
      ensures w.Valid()
      ensures o.Threw? <==> old(w.graph[this].Text?)
      ensures o.Threw? ==> w.graph == old(w.graph)
      ensures o.Ok? ==> w.graph == SetShape(old(w.graph), this, key, target)
    {
      assert w.Sound(this);
      if IsValued() {
        return Threw;
      }
      ghost var g0 := w.graph;
      var kv := kvPairs.value;
      var kv' := if target == null then kv - {key} else kv[key := target];
      var oldTarget: FeatureNode? := if key in kv then kv[key] else null;
      if target != null {
        target.parents := target.parents + {this};
      }
      kvPairs := Some(kv');
      assert target != null ==> key in kv' && kv'[key] == target;
      if oldTarget != null && oldTarget !in kv'.Values {
        oldTarget.parents := oldTarget.parents - {this};
      }
      w.graph := SetShape(g0, this, key, target);
      forall m | m in g0 && m != this
        ensures m.Reflects(g0[m], SetParents(g0, this, key, target, m))
      {
        assert old(w.Sound(m));
      }
      SetKeepsBackPointers(w, g0, this, key, target);
      return Ok;
    }

    // Every key that leads to `oldF` is led to `newF`.  The order in which the keys come up is free.
    method Substitute(oldF: FeatureNode, newF: FeatureNode, ghost w: NodeHeap)
      requires w.Valid() && this in w.graph && newF in w.graph && w.graph[this].Features?
      modifies w, w.graph.Keys
      ensures w.Valid()
      ensures w.graph == old(w.graph[this := RenamedBody(w.graph[this], oldF, newF)])
    {
      assert w.Sound(this);
      ghost var g0, kv0, kv := w.graph, kvPairs.value, kvPairs.value;
      if oldF == newF {
        RenamedKeyByKey(kv0, kv0, oldF, newF);
        return;
      }
      var names := kvPairs.value.Keys;
      while names != {}
        invariant w.Valid() && names <= kv0.Keys && kv.Keys == kv0.Keys
        invariant w.graph == g0[this := Features(kv)]
        invariant forall k :: k in kv0 ==> kv[k] == if k in names then kv0[k] else Renamed(kv0[k], oldF, newF)
        decreases names
      {
        var name :| name in names;
        names := names - {name};
        assert w.Sound(this) && kvPairs.value == kv;
        if kvPairs.value[name] == oldF {
          var _ := Set(name, newF, w);
          kv := kv[name := newF];
        }
      }
      RenamedKeyByKey(kv0, kv, oldF, newF);
    }

    // Leads every edge that ends here to `other` instead.  The check at the end never fires.
    method ReplaceSelfWith(other: FeatureNode, ghost w: NodeHeap) returns (o: Outcome)
      requires w.Valid() && this in w.graph && other in w.graph
      modifies w, w.graph.Keys
      ensures w.Valid() && o.Ok?
      ensures w.graph == if other == this then old(w.graph) else Redirect(old(w.graph), this, other)
      ensures other != this ==> parents == {}
    {
      if other == this {
        return Ok;
      }
      assert w.Sound(this);
      ghost var g0 := w.graph;
      ghost var parents0 := parents;
      var todo := parents;
      while todo != {}
        invariant w.Valid() && todo <= parents0
        invariant w.graph == RedirectIn(g0, parents0 - todo, this, other)
        decreases todo
      {
        var p :| p in todo;
        assert Points(g0, p, this);
        assert w.graph[p] == g0[p];
        p.Substitute(this, other, w);
        todo := todo - {p};
        assert w.graph == RedirectIn(g0, parents0 - todo, this, other);
      }
      RedirectTouchesParents(g0, this, other);
      assert w.Sound(this);
      if parents != {} {
        return Threw;
      }
      return Ok;
    }

    // Makes one node of two.  A conflict is found before anything is changed.
    method MergeWith(other: FeatureNode, ghost w: NodeHeap) returns (o: Outcome)
      requires w.Valid() && this in w.graph && other in w.graph
      modifies w, w.graph.Keys
      ensures w.Valid()
      ensures o.Threw? <==> !Mergeable(old(w.graph), this, other)
      ensures w.graph == Merged(old(w.graph), this, other)
    {
      if other == this {
        return Ok;
      }
      assert w.Sound(this) && w.Sound(other);
      if other.IsEmpty() {
        o := other.ReplaceSelfWith(this, w);
        return;
      }
      if IsEmpty() {
        o := ReplaceSelfWith(other, w);
        return;
      }
      ghost var g0 := w.graph;
      if IsValued() {
        if !other.IsValued() || other.value != value {
          return Threw;
        }
      } else {
        if other.IsValued() {
          return Threw;
        }
        var names := other.kvPairs.value.Keys;
        while names != {}
          invariant names <= g0[other].kv.Keys
          invariant forall k :: k in g0[other].kv && k !in names ==>
                    k in g0[this].kv && g0[this].kv[k] == g0[other].kv[k]
          decreases names
        {
          var name :| name in names;
          names := names - {name};
          if name !in kvPairs.value || other.kvPairs.value[name] != kvPairs.value[name] {
            return Threw;
          }
        }
        // Every feature of the other node is one of ours by now, so this copy changes nothing.
        names := other.kvPairs.value.Keys;
        while names != {}
          invariant w.Valid() && w.graph == g0 && names <= g0[other].kv.Keys
          decreases names
        {
          var name :| name in names;
          names := names - {name};
          assert w.Sound(other) && g0[this].kv[name := g0[other].kv[name]] == g0[this].kv;
          var _ := Set(name, other.kvPairs.value[name], w);
        }
      }
      o := other.ReplaceSelfWith(this, w);
    }

    // Follows the keys from here; null when one is missing or a text is in the way.
    method PathTarget(path: Path, ghost w: NodeHeap) returns (r: FeatureNode?)
      requires w.Valid() && this in w.graph
      ensures r != null ==> r in w.graph && Target(w.graph, this, path) == Some(r)
      ensures r == null ==> Target(w.graph, this, path) == None
    {
      r := this;
      var i := 0;
      while i < |path| && r != null
        invariant i <= |path|
        invariant r != null ==> r in w.graph && Target(w.graph, this, path) == Target(w.graph, r, path[i..])
        invariant r == null ==> Target(w.graph, this, path) == None
      {
        assert w.Sound(r);
        assert path[i..][0] == path[i] && path[i..][1..] == path[i + 1..];
        if r.IsValued() {
          return null;
        }
        r := if path[i] in r.kvPairs.value then r.kvPairs.value[path[i]] else null;
        i := i + 1;
      }
    }

    // One step of `MakePath`: the node a key leads to.  A missing key is made to lead to `last`, or to a
    // new node when there is none.
    method StepOrMake(key: Key, last: FeatureNode?, ghost w: NodeHeap) returns (o: Outcome, next: FeatureNode)
      requires w.Valid() && this in w.graph && (last != null ==> last in w.graph)
      modifies w, w.graph.Keys
      ensures w.Valid() && (o.Threw? <==> old(w.graph[this].Text?))
      ensures o.Threw? ==> w.graph == old(w.graph)
      ensures o.Ok? ==> next in w.graph &&
                        if key in old(w.graph)[this].kv
                        then w.graph == old(w.graph) && next == old(w.graph)[this].kv[key]
                        else w.graph == Joined(old(w.graph), this, key, next) &&
                             if last == null then fresh(next) && next !in old(w.graph) else next == last
      ensures old(w.graph.Keys) <= w.graph.Keys && fresh(w.graph.Keys - old(w.graph.Keys))
    {
      assert w.Sound(this);
      if IsValued() {
        return Threw, this;
      }
      if key in kvPairs.value {
        return Ok, kvPairs.value[key];
      }
      if last == null {
        next := Create(w);
      } else {
        next := last;
        // The source looks once more whether the path exists; here it never does.
        if key in kvPairs.value {
          return Threw, this;
        }
      }
      var _ := Set(key, next, w);
      return Ok, next;
    }

    // The i-th step of `MakePath` from `f`.
    method MakeStep(path: Path, i: nat, target: FeatureNode, ghost f: FeatureNode, ghost g0: Graph<FeatureNode>,
                    ghost nodes: seq<FeatureNode>, ghost w: NodeHeap)
      returns (o: Outcome, cur: FeatureNode, ghost nodes': seq<FeatureNode>)
      requires w.Valid() && i < |path| && this in w.graph && target in w.graph && g0.Keys <= w.graph.Keys
      requires Making(g0, f, path, target, i, this, nodes, w.graph)
      modifies w, w.graph.Keys
      ensures w.Valid() && cur in w.graph
      ensures o.Threw? ==> w.graph == g0 && Blocked(g0, f, path)
      ensures o.Ok? ==> Making(g0, f, path, target, i + 1, cur, nodes', w.graph)
      ensures old(w.graph.Keys) <= w.graph.Keys && fresh(w.graph.Keys - old(w.graph.Keys))
    {
      ghost var g := w.graph;
      nodes' := nodes;
      o, cur := StepOrMake(path[i], if i + 1 < |path| then null else target, w);
      if o.Threw? {
        MakingBlocked(g0, f, path, target, i, this, nodes, g);
        return Threw, this, nodes;
      }
      MakingAdvances(g0, f, path, target, i, this, nodes, g, cur, w.graph);
      nodes' := if Step(g, this, path[i]).Some? then nodes else nodes + [cur];
    }

    // Makes the missing end of a path, so that it leads to `target`.  A path that exists is left as it is,
    // wherever it leads.  `nodes` is what the new keys lead to, one by one; all but the last are new nodes.
    method MakePath(path: Path, target: FeatureNode,
                    ghost w: NodeHeap) returns (o: Outcome, ghost nodes: seq<FeatureNode>)
      requires w.Valid() && this in w.graph && target in w.graph
      modifies w, w.graph.Keys
      ensures w.Valid()
      ensures o.Threw? <==> Blocked(old(w.graph), this, path)
      ensures if o.Threw? then w.graph == old(w.graph) else PathMade(old(w.graph), this, path, target, nodes, w.graph)
      ensures old(w.graph.Keys) <= w.graph.Keys && fresh(w.graph.Keys - old(w.graph.Keys))
    {
      ghost var g0 := w.graph;
      var cur, i := this, 0;
      nodes := [];
      MakingStarts(g0, this, path, target);
      while i < |path|
        invariant w.Valid() && i <= |path| && cur in w.graph
        invariant g0.Keys <= w.graph.Keys && fresh(w.graph.Keys - g0.Keys)
        invariant Making(g0, this, path, target, i, cur, nodes, w.graph)
      {
        o, cur, nodes := cur.MakeStep(path, i, target, this, g0, nodes, w);
        if o.Threw? {
          return;
        }
        i := i + 1;
      }
      MakingDone(g0, this, path, target, cur, nodes, w.graph);
      return Ok, nodes;
    }
  }

  // A new node without features joins the heap.
  method Create(ghost w: NodeHeap) returns (n: FeatureNode)
    requires w.Valid()
    modifies w
    ensures fresh(n) && n !in old(w.graph) && w.Valid()
    ensures w.graph == old(w.graph)[n := Features(map[])]
  {
    n := new FeatureNode();
    ghost var g0 := w.graph;
    w.graph := w.graph[n := Features(map[])];
    forall m | m in w.graph
      ensures w.Sound(m)
    {
      assert m != n ==> old(w.Sound(m));
      assert forall p :: p in g0 ==> (Points(w.graph, p, m) <==> Points(g0, p, m));
    }
  }

  // What `Set` makes of the graph ...
  ghost function SetShape(g: Graph<FeatureNode>, n: FeatureNode, key: Key, target: FeatureNode?): Graph<FeatureNode>
    requires n in g && g[n].Features?
  {
    if target == null then WithoutEdge(g, n, key) else WithEdge(g, n, key, target)
  }

  // ... and of the back-pointers of a node.
  ghost function SetParents(g: Graph<FeatureNode>, n: FeatureNode, key: Key, target: FeatureNode?,
                            m: FeatureNode): set<FeatureNode>
    requires n in g && g[n].Features?
  {
    if m == target then ParentsIn(g, m) + {n}
    else if key in g[n].kv && g[n].kv[key] == m && m !in SetShape(g, n, key, target)[n].kv.Values
    then ParentsIn(g, m) - {n}
    else ParentsIn(g, m)
  }

  lemma SetKeepsBackPointers(w: NodeHeap, g: Graph<FeatureNode>, n: FeatureNode, key: Key, target: FeatureNode?)
    requires Closed(g) && n in g && g[n].Features? && (target != null ==> target in g)
    requires w.graph == SetShape(g, n, key, target)
    requires n.Reflects(SetShape(g, n, key, target)[n], SetParents(g, n, key, target, n))
    requires forall m :: m in g && m != n ==> m.Reflects(g[m], SetParents(g, n, key, target, m))
    ensures w.Valid()
  {
    forall m | m in g
      ensures w.Sound(m)
    {
      if target == null {
        ParentsAfterDrop(g, n, key, m);
      } else {
        ParentsAfterPut(g, n, key, target, m);
      }
    }
  }

  // The nodes alive, and the graph they hold at present.
  class NodeHeap {
    ghost var graph: Graph<FeatureNode>

    // The fields of the node are what the graph says, and its back-pointers are exact.
    ghost predicate Sound(n: FeatureNode)
      requires n in graph
      reads this, n
    {
      n.Reflects(graph[n], ParentsIn(graph, n))
    }

    ghost predicate Valid()
      reads this, graph.Keys
    {
      Closed(graph) && forall n {:trigger Sound(n)} :: n in graph ==> Sound(n)
    }
  }
}
