// Printing a feature graph as a Prolog term: every node with features is written out once, under an index,
// and referred to by that index wherever else it occurs.
module PrologPrinter {
  import opened Prelude
  import opened FeatureGraph
  import opened FeatureNodes
  import opened NameFilter
  import opened Traversals
  import opened NodeIndices
  import opened PrologTerms

  // ---------------------------------------------------------------- what has been printed

  // No node is written out twice: an index is not opened where it has been opened before.
  ghost predicate OpensOnce(out: seq<Token>) {
    forall p {:trigger OpensFirst(out, p)} :: 0 <= p < |out| && out[p].Open? ==> OpensFirst(out, p)
  }

  ghost predicate OpensFirst(out: seq<Token>, p: nat)
    requires p < |out|
  {
    out[p] !in out[..p]
  }

  // A reference to a node with features comes after the place where that node was written out.
  ghost predicate RefsBacked<N>(g: Graph<N>, idx: map<N, nat>, out: seq<Token>) {
    forall p {:trigger RefBacked(g, idx, out, p)} :: 0 <= p < |out| && out[p].Ref? ==> RefBacked(g, idx, out, p)
  }

  ghost predicate RefBacked<N>(g: Graph<N>, idx: map<N, nat>, out: seq<Token>, p: nat)
    requires p < |out| && out[p].Ref?
  {
    exists n :: n in idx && n in g && idx[n] == out[p].index && (g[n].Features? ==> Open(out[p].index) in out[..p])
  }

  // The nodes with an index have been written out, the pending ones excepted, and nothing else has.
  ghost predicate Ledger<N>(g: Graph<N>, idx: map<N, nat>, out: seq<Token>, pending: set<N>) {
    && Numbering(idx) && idx.Keys <= g.Keys
    && OpensOnce(out) && RefsBacked(g, idx, out)
    && (forall n {:trigger WrittenOut(g, idx, out, pending, n)} :: n in idx && n in g ==>
           WrittenOut(g, idx, out, pending, n))
    && OpensBelow(out, |idx|)
  }

  ghost predicate WrittenOut<N>(g: Graph<N>, idx: map<N, nat>, out: seq<Token>, pending: set<N>, n: N)
    requires n in idx && n in g
  {
    Open(idx[n]) in out <==> g[n].Features? && n !in pending
  }

  ghost predicate OpensBelow(out: seq<Token>, k: nat) {
    forall i: nat {:trigger Open(i) in out} :: Open(i) in out ==> i < k
  }

  // What one more token does to the parts of the ledger that only look at the output.
  lemma OutputMore<N>(g: Graph<N>, idx: map<N, nat>, out: seq<Token>, t: Token)
    requires OpensOnce(out) && RefsBacked(g, idx, out)
    requires t.Open? ==> t !in out
    requires t.Ref? ==> exists n :: n in idx && n in g && idx[n] == t.index && (g[n].Features? ==> Open(t.index) in out)
    ensures OpensOnce(out + [t]) && RefsBacked(g, idx, out + [t])
    ensures forall u :: u in out + [t] <==> u in out || u == t
  {
    var out' := out + [t];
    forall p | 0 <= p < |out'| && out'[p].Ref?
      ensures RefBacked(g, idx, out', p)
    {
      assert out'[..p] == if p < |out| then out[..p] else out;
      if p < |out| {
        assert RefBacked(g, idx, out, p);
      }
    }
    forall p | 0 <= p < |out'| && out'[p].Open?
      ensures OpensFirst(out', p)
    {
      assert out'[..p] == if p < |out| then out[..p] else out;
      if p < |out| {
        assert OpensFirst(out, p);
      }
    }
  }

  lemma LedgerPlain<N>(g: Graph<N>, idx: map<N, nat>, out: seq<Token>, pending: set<N>, t: Token)
    requires Ledger(g, idx, out, pending) && !t.Open? && !t.Ref?
    ensures Ledger(g, idx, out + [t], pending)
  {
    OutputMore(g, idx, out, t);
    forall n | n in idx && n in g
      ensures WrittenOut(g, idx, out + [t], pending, n)
    {
      assert WrittenOut(g, idx, out, pending, n);
    }
  }

  lemma LedgerRef<N>(g: Graph<N>, idx: map<N, nat>, out: seq<Token>, n: N)
    requires Ledger(g, idx, out, {}) && n in idx
    ensures Ledger(g, idx, out + [Ref(idx[n])], {})
  {
    assert WrittenOut(g, idx, out, {}, n);
    OutputMore(g, idx, out, Ref(idx[n]));
    forall m | m in idx && m in g
      ensures WrittenOut(g, idx, out + [Ref(idx[n])], {}, m)
    {
      assert WrittenOut(g, idx, out, {}, m);
    }
  }

  lemma LedgerOpen<N>(g: Graph<N>, idx: map<N, nat>, out: seq<Token>, n: N)
    requires Ledger(g, idx, out, {n}) && n in idx && g[n].Features?
    ensures Ledger(g, idx, out + [Open(idx[n])], {})
  {
    assert WrittenOut(g, idx, out, {n}, n);
    OutputMore(g, idx, out, Open(idx[n]));
    forall m | m in idx && m in g
      ensures WrittenOut(g, idx, out + [Open(idx[n])], {}, m)
    {
      assert !SameIndex(idx, m, n);
      assert WrittenOut(g, idx, out, {n}, m);
    }
  }

  // A node that is new gets the next index and is to be written out.
  lemma LedgerIndex<N>(g: Graph<N>, idx: map<N, nat>, out: seq<Token>, n: N)
    requires Ledger(g, idx, out, {}) && n !in idx && n in g
    ensures Ledger(g, idx[n := |idx|], out, {n}) && Grows(idx, idx[n := |idx|])
  {
    var idx' := idx[n := |idx|];
    NumberingMore(idx, n);
    forall p | 0 <= p < |out| && out[p].Ref?
      ensures RefBacked(g, idx', out, p)
    {
      assert RefBacked(g, idx, out, p);
      var m :| m in idx && m in g && idx[m] == out[p].index && (g[m].Features? ==> Open(out[p].index) in out[..p]);
      assert m in idx' && idx'[m] == out[p].index;
    }
    forall m | m in idx' && m in g
      ensures WrittenOut(g, idx', out, {n}, m)
    {
      if m != n {
        assert WrittenOut(g, idx, out, {}, m);
      }
    }
  }

  // A text needs no writing out.
  lemma LedgerText<N>(g: Graph<N>, idx: map<N, nat>, out: seq<Token>, n: N)
    requires Ledger(g, idx, out, {n}) && n in g && g[n].Text?
    ensures Ledger(g, idx, out, {})
  {
    forall m | m in idx && m in g
      ensures WrittenOut(g, idx, out, {}, m)
    {
      assert WrittenOut(g, idx, out, {n}, m);
    }
  }

  lemma LedgerDropComma<N>(g: Graph<N>, idx: map<N, nat>, out: seq<Token>)
    requires Ledger(g, idx, out + [Comma], {})
    ensures Ledger(g, idx, out, {})
  {
    var out' := out + [Comma];
    forall p | 0 <= p < |out|
      ensures out'[p] == out[p] && out'[..p] == out[..p]
      ensures out[p].Ref? ==> RefBacked(g, idx, out, p)
      ensures out[p].Open? ==> OpensFirst(out, p)
    {
      assert out[p].Ref? ==> RefBacked(g, idx, out', p);
      assert out[p].Open? ==> OpensFirst(out', p);
    }
    assert forall t :: t in out' <==> t in out || t == Comma;
    forall m | m in idx && m in g
      ensures WrittenOut(g, idx, out, {}, m)
    {
      assert WrittenOut(g, idx, out', {}, m);
    }
  }

  // ---------------------------------------------------------------- the printer

  class Printer {
    var indices: map<FeatureNode, nat>
    var visited: set<FeatureNode>
    var result: seq<Token>

    constructor (root: FeatureNode)
      ensures indices == map[root := 0] && visited == {root} && result == []
    {
      indices, visited, result := map[root := 0], {root}, [];
    }

    // Everything visited has an index, and all but the pending nodes have been written out.
    ghost predicate Keeps(g: Graph<FeatureNode>, pending: set<FeatureNode>)
      reads this
    {
      visited == indices.Keys && Ledger(g, indices, result, pending)
    }

    ghost function Now(): Snapshot<FeatureNode>
      reads this
    {
      Snapshot(indices, visited, result)
    }

    // Prints a token that neither opens nor refers.
    method Put(t: Token, ghost g: Graph<FeatureNode>, ghost pending: set<FeatureNode>)
      requires Keeps(g, pending) && !t.Open? && !t.Ref?
      modifies this`result
      ensures Keeps(g, pending) && result == old(result) + [t]
    {
      LedgerPlain(g, indices, result, pending, t);
      result := result + [t];
    }

    // Opens the block of a pending node.
    method PutOpen(n: FeatureNode, ghost g: Graph<FeatureNode>)
      requires Keeps(g, {n}) && n in indices && g[n].Features?
      modifies this`result
      ensures Keeps(g, {}) && result == old(result) + [Open(indices[n])]
    {
      LedgerOpen(g, indices, result, n);
      result := result + [Open(indices[n])];
    }

    method PutRef(n: FeatureNode, ghost g: Graph<FeatureNode>)
      requires Keeps(g, {}) && n in indices
      modifies this`result
      ensures Keeps(g, {}) && result == old(result) + [Ref(indices[n])]
    {
      LedgerRef(g, indices, result, n);
      result := result + [Ref(indices[n])];
    }

    // Ends a block: what has been printed since `out0` becomes a whole one.
    method CloseBlock(empty: bool, index: nat, ghost out0: seq<Token>, ghost fields: seq<Field>,
                      ghost g: Graph<FeatureNode>)
      requires Keeps(g, {}) && result == out0 + [Open(index)] + RenderFields(fields) && (empty <==> fields == [])
      modifies this`result
      ensures Keeps(g, {}) && result == out0 + Render(Block(index, fields))
    {
      if empty {
        Put(Close, g, {});
      } else {
        RenderBlock(out0, result, index, fields);
        DeleteLastComma(g);
        Put(Tail(index), g, {});
      }
    }

    method DeleteLastComma(ghost g: Graph<FeatureNode>)
      requires Keeps(g, {}) && result != [] && result[|result| - 1] == Comma
      modifies this`result
      ensures Keeps(g, {}) && result == old(result)[..|old(result)| - 1]
    {
      assert result == result[..|result| - 1] + [Comma];
      LedgerDropComma(g, indices, result[..|result| - 1]);
      result := result[..|result| - 1];
    }
  }

  // From v0 to v: the nodes that came in can be reached from n, and their features have been dealt with.
  ghost predicate Advance<N>(g: Graph<N>, keep: Key -> bool, n: N, v0: set<N>, v: set<N>) {
    && v0 <= v
    && (forall m :: m in v - v0 ==> Reachable(g, keep, n, m))
    && Follows(g, keep, v - v0, v)
  }

  lemma AdvanceTrans<N>(g: Graph<N>, keep: Key -> bool, n: N, v0: set<N>, v1: set<N>, v2: set<N>)
    requires Advance(g, keep, n, v0, v1) && Advance(g, keep, n, v1, v2)
    ensures Advance(g, keep, n, v0, v2)
  {
  }

  // What came in at the end of an edge came in for the node the edge leaves.
  lemma AdvanceByEdge<N>(g: Graph<N>, keep: Key -> bool, n: N, k: Key, c: N, v0: set<N>, v: set<N>)
    requires Step(g, n, k) == Some(c) && keep(k) && Advance(g, keep, c, v0 + {c}, v) && Follows(g, keep, {c}, v)
    ensures Advance(g, keep, n, v0, v)
  {
    ReachesItself(g, keep, c);
    forall m | m in v - v0
      ensures Reachable(g, keep, n, m)
    {
      ReachesOn(g, keep, n, k, m);
    }
  }

  // The fields show the features of these names, in this order.
  ghost predicate FieldsShown<N>(g: Graph<N>, keep: Key -> bool, lower: string -> string, idx: map<N, nat>, n: N,
                                 names: seq<Key>, fields: seq<Field>)
  {
    |fields| == |names| && forall j :: 0 <= j < |names| ==>
      fields[j].key == names[j] && names[j] in KeysOf(g, n) &&
          Shows(g, keep, lower, idx, g[n].kv[names[j]], fields[j].term)
  }

  lemma FieldsShownMore<N>(g: Graph<N>, keep: Key -> bool, lower: string -> string, idx: map<N, nat>,
                           idx': map<N, nat>, n: N,
                           names: seq<Key>, fields: seq<Field>, name: Key, t: Term)
    requires FieldsShown(g, keep, lower, idx, n, names, fields) && Grows(idx, idx')
    requires name in KeysOf(g, n) && Shows(g, keep, lower, idx', g[n].kv[name], t)
    ensures FieldsShown(g, keep, lower, idx', n, names + [name], fields + [Field(name, t)])
  {
    forall j | 0 <= j < |names|
      ensures Shows(g, keep, lower, idx', g[n].kv[names[j]], fields[j].term)
    {
      ShowsMore(g, keep, lower, idx, idx', g[n].kv[names[j]], fields[j].term);
    }
  }

  // A block with such fields shows the node.
  lemma BlockDepicts<N>(g: Graph<N>, keep: Key -> bool, lower: string -> string, idx: map<N, nat>, n: N,
                        names: seq<Key>, fields: seq<Field>)
    requires n in g && g[n].Features? && n in idx && FieldsShown(g, keep, lower, idx, n, names, fields)
    requires Distinct(names) && forall k :: k in names <==> k in g[n].kv && keep(k)
    ensures Depicts(g, keep, lower, idx, n, Block(idx[n], fields))
  {
    forall k | k in g[n].kv && keep(k)
      ensures exists i :: 0 <= i < |fields| && fields[i].key == k
    {
      var i :| 0 <= i < |names| && names[i] == k;
      assert fields[i].key == k;
    }
    forall i | 0 <= i < |fields|
      ensures fields[i].key in g[n].kv && keep(fields[i].key)
    {
      assert names[i] in names;
    }
  }

  // The indices, the nodes visited and the output at one time.
  datatype Snapshot<N> = Snapshot(idx: map<N, nat>, v: set<N>, out: seq<Token>)

  // Between two times the node, which had just been given its index, has been written out by this term, and
  // every node that came in has been written out once.
  ghost predicate Drawn<N>(g: Graph<N>, keep: Key -> bool, lower: string -> string, n: N, s0: Snapshot<N>,
                           s: Snapshot<N>,
                           t: Term) {
    && Grows(s0.idx, s.idx) && s.out == s0.out + Render(t)
    && Depicts(g, keep, lower, s.idx, n, t)
    && Advance(g, keep, n, s0.v, s.v) && Follows(g, keep, {n}, s.v)
    && Written(g, n, t) == multiset{n} + multiset(s.v - s0.v)
  }

  // Between two times this feature of the node has been written out, a comma after it.
  ghost predicate FieldPrinted<N>(g: Graph<N>, keep: Key -> bool, lower: string -> string, n: N, name: Key,
                                  s0: Snapshot<N>,
                                  s: Snapshot<N>, t: Term) {
    && name in KeysOf(g, n) && Grows(s0.idx, s.idx)
    && s.out == s0.out + [Name(name)] + Render(t) + [Comma]
    && Shows(g, keep, lower, s.idx, g[n].kv[name], t)
    && Advance(g, keep, n, s0.v, s.v) && g[n].kv[name] in s.v
    && Written(g, g[n].kv[name], t) == multiset(s.v - s0.v)
  }

  // Between two times the features of these names have been written out.
  ghost predicate FieldsPrinted<N>(g: Graph<N>, keep: Key -> bool, lower: string -> string, n: N, s0: Snapshot<N>,
                                   s: Snapshot<N>, names: seq<Key>, fields: seq<Field>) {
    && Grows(s0.idx, s.idx) && s.out == s0.out + RenderFields(fields)
    && FieldsShown(g, keep, lower, s.idx, n, names, fields)
    && Advance(g, keep, n, s0.v, s.v) && WrittenBelow(g, n, fields) == multiset(s.v - s0.v)
    && forall k :: k in names ==> k in KeysOf(g, n) && g[n].kv[k] in s.v
  }

  lemma TextDrawn<N>(g: Graph<N>, keep: Key -> bool, lower: string -> string, n: N, s: Snapshot<N>)
    requires n in g && g[n].Text? && g[n].text.Some?
    ensures Drawn(g, keep, lower, n, s, s.(out := s.out + [Quote(lower(g[n].text.value))]),
              Quoted(lower(g[n].text.value)))
  {
    assert s.v - s.v == {};
  }

  // A block is drawn when its features have been printed and it has been closed.
  lemma BlockDrawn<N>(g: Graph<N>, keep: Key -> bool, lower: string -> string, n: N, names: seq<Key>,
                      fields: seq<Field>,
                      s0: Snapshot<N>, s1: Snapshot<N>, s2: Snapshot<N>, s: Snapshot<N>)
    requires n in g && g[n].Features? && n in s0.idx && Distinct(names)
    requires forall k :: k in names <==> k in g[n].kv && keep(k)
    requires s1.idx == s0.idx && s1.v == s0.v && FieldsPrinted(g, keep, lower, n, s1, s2, names, fields)
    requires s.idx == s2.idx && s.v == s2.v && s.out == s0.out + Render(Block(s0.idx[n], fields))
    ensures Drawn(g, keep, lower, n, s0, s, Block(s0.idx[n], fields))
  {
    BlockDepicts(g, keep, lower, s.idx, n, names, fields);
  }

  lemma RefPrinted<N>(g: Graph<N>, keep: Key -> bool, lower: string -> string, n: N, name: Key, s0: Snapshot<N>)
    requires name in KeysOf(g, n) && g[n].kv[name] in s0.v && g[n].kv[name] in s0.idx
    ensures FieldPrinted(g, keep, lower, n, name, s0,
                         s0.(out := s0.out + [Name(name)] + [Ref(s0.idx[g[n].kv[name]])] + [Comma]),
                             Back(s0.idx[g[n].kv[name]]))
  {
    assert s0.v - s0.v == {};
  }

  lemma ValuePrinted<N>(g: Graph<N>, keep: Key -> bool, lower: string -> string, n: N, name: Key, s0: Snapshot<N>,
                        s1: Snapshot<N>, s2: Snapshot<N>, t: Term)
    requires name in KeysOf(g, n) && keep(name) && g[n].kv[name] !in s0.v && Grows(s0.idx, s1.idx)
    requires s1.v == s0.v + {g[n].kv[name]} && s1.out == s0.out + [Name(name)]
    requires Drawn(g, keep, lower, g[n].kv[name], s1, s2, t)
    ensures FieldPrinted(g, keep, lower, n, name, s0, s2.(out := s2.out + [Comma]), t)
  {
    var c := g[n].kv[name];
    AdvanceByEdge(g, keep, n, name, c, s0.v, s2.v);
    NewOnce(s0.v, s1.v, s2.v);
    assert s1.v - s0.v == {c} && multiset({c}) == multiset{c};
  }

  lemma FieldsPrintedMore<N>(g: Graph<N>, keep: Key -> bool, lower: string -> string, n: N,
                             s0: Snapshot<N>, s1: Snapshot<N>, s2: Snapshot<N>, names: seq<Key>, name: Key,
                             fields: seq<Field>, t: Term)
    requires FieldsPrinted(g, keep, lower, n, s0, s1, names, fields) && FieldPrinted(g, keep, lower, n, name, s1, s2, t)
    ensures FieldsPrinted(g, keep, lower, n, s0, s2, names + [name], fields + [Field(name, t)])
  {
    FieldsShownMore(g, keep, lower, s1.idx, s2.idx, n, names, fields, name, t);
    AdvanceTrans(g, keep, n, s0.v, s1.v, s2.v);
    WrittenBelowMore(g, n, fields, Field(name, t));
    NewOnce(s0.v, s1.v, s2.v);
    RenderFieldsMore(fields, Field(name, t));
    assert s0.out + RenderFields(fields) + [Name(name)] + Render(t) + [Comma] ==
           s0.out + (RenderFields(fields) + [Name(name)] + Render(t) + [Comma]);
  }

  lemma FieldsPrintedNext<N>(g: Graph<N>, keep: Key -> bool, lower: string -> string, n: N,
                             s0: Snapshot<N>, s1: Snapshot<N>, s2: Snapshot<N>, names: seq<Key>, i: nat,
                             fields: seq<Field>, t: Term)
    requires i < |names| && FieldsPrinted(g, keep, lower, n, s0, s1, names[..i], fields)
    requires FieldPrinted(g, keep, lower, n, names[i], s1, s2, t)
    ensures FieldsPrinted(g, keep, lower, n, s0, s2, names[..i + 1], fields + [Field(names[i], t)])
  {
    FieldsPrintedMore(g, keep, lower, n, s0, s1, s2, names[..i], names[i], fields, t);
    assert names[..i] + [names[i]] == names[..i + 1];
  }

  // Writes out a node that has just been given its index.
  method PrintNode(fn: FeatureNode, filter: FeatureNameFilter, lower: string -> string, st: Printer, ghost w: NodeHeap)
    returns (ghost t: Term)
    requires w.Valid() && NoBlankText(w.graph) && fn in w.graph && fn in st.indices && st.Keeps(w.graph, {fn})
    modifies st
    ensures st.Keeps(w.graph, {}) && Drawn(w.graph, filter.Keeps, lower, fn, old(st.Now()), st.Now(), t)
    decreases w.graph.Keys - st.visited, 4
  {
    ghost var g := w.graph;
    assert w.Sound(fn);
    if fn.IsValued() {
      t := Quoted(lower(fn.value.value));
      LedgerText(g, st.indices, st.result, fn);
      TextDrawn(g, filter.Keeps, lower, fn, st.Now());
      st.Put(Quote(lower(fn.value.value)), g, {});
      return;
    }
    t := PrintBlock(fn, filter, lower, st, w);
  }

  // The case of a node with features.
  method PrintBlock(fn: FeatureNode, filter: FeatureNameFilter, lower: string -> string, st: Printer, ghost w: NodeHeap)
    returns (ghost t: Term)
    requires w.Valid() && NoBlankText(w.graph) && fn in w.graph && w.graph[fn].Features? && fn in st.indices
             && st.Keeps(w.graph, {fn})
    modifies st
    ensures st.Keeps(w.graph, {}) && Drawn(w.graph, filter.Keeps, lower, fn, old(st.Now()), st.Now(), t)
    decreases w.graph.Keys - st.visited, 3
  {
    ghost var s0 := st.Now();
    assert w.Sound(fn);
    var index := st.indices[fn];
    st.PutOpen(fn, w.graph);
    ghost var s1 := st.Now();
    var names := filter.Features(fn.kvPairs.value.Keys);
    assert forall i :: 0 <= i < |names| ==> names[i] in names;
    ghost var fields := PrintFields(fn, names, filter, lower, st, w);
    ghost var s2 := st.Now();
    t := Block(index, fields);
    st.CloseBlock(names == [], index, s0.out, fields, w.graph);
    BlockDrawn(w.graph, filter.Keeps, lower, fn, names, fields, s0, s1, s2, st.Now());
  }

  // Writes out the features of a node, a comma after each.
  method PrintFields(fn: FeatureNode, names: seq<Key>, filter: FeatureNameFilter, lower: string -> string, st: Printer,
                     ghost w: NodeHeap)
    returns (ghost fields: seq<Field>)
    requires w.Valid() && NoBlankText(w.graph) && fn in w.graph
    requires forall i :: 0 <= i < |names| ==> names[i] in KeysOf(w.graph, fn) && filter.Keeps(names[i])
    requires fn in st.visited && st.Keeps(w.graph, {})
    modifies st
    ensures st.Keeps(w.graph, {})
    ensures FieldsPrinted(w.graph, filter.Keeps, lower, fn, old(st.Now()), st.Now(), names, fields)
    decreases w.graph.Keys - st.visited, 2
  {
    ghost var s0 := st.Now();
    assert s0.v - s0.v == {};
    fields := [];
    var i := 0;
    while i < |names|
      invariant i <= |names| && st.Keeps(w.graph, {})
      invariant FieldsPrinted(w.graph, filter.Keeps, lower, fn, s0, st.Now(), names[..i], fields)
    {
      ghost var s1 := st.Now();
      ghost var t := PrintField(fn, names[i], filter, lower, st, w);
      FieldsPrintedNext(w.graph, filter.Keeps, lower, fn, s0, s1, st.Now(), names, i, fields, t);
      fields := fields + [Field(names[i], t)];
      i := i + 1;
    }
    assert names[..|names|] == names;
  }

  // Writes out one feature: its name, and its value or a reference to it.
  method PrintField(fn: FeatureNode, name: Key, filter: FeatureNameFilter, lower: string -> string, st: Printer,
                    ghost w: NodeHeap)
    returns (ghost t: Term)
    requires w.Valid() && NoBlankText(w.graph) && fn in w.graph && w.graph[fn].Features?
    requires name in w.graph[fn].kv && filter.Keeps(name)
    requires fn in st.visited && st.Keeps(w.graph, {})
    modifies st
    ensures st.Keeps(w.graph, {})
    ensures FieldPrinted(w.graph, filter.Keeps, lower, fn, name, old(st.Now()), st.Now(), t)
    ensures t.Back? <==> w.graph[fn].kv[name] in old(st.visited)
    decreases w.graph.Keys - st.visited, 1
  {
    ghost var g, s0 := w.graph, st.Now();
    assert w.Sound(fn);
    var value := fn.kvPairs.value[name];
    st.Put(Name(name), g, {});
    if value in st.visited {
      t := Back(st.indices[value]);
      st.PutRef(value, g);
      RefPrinted(g, filter.Keeps, lower, fn, name, s0);
    } else {
      LedgerIndex(g, st.indices, st.result, value);
      st.visited := st.visited + {value};
      st.indices := st.indices[value := |st.indices|];
      ghost var s1 := st.Now();
      t := PrintNode(value, filter, lower, st, w);
      ValuePrinted(g, filter.Keeps, lower, fn, name, s0, s1, st.Now(), t);
    }
    st.Put(Comma, g, {});
  }

  // What has come in from the root on, with its features dealt with, is what can be reached.
  lemma AdvanceFromRoot<N>(g: Graph<N>, keep: Key -> bool, root: N, v: set<N>)
    requires root in g && v <= g.Keys && Advance(g, keep, root, {root}, v) && Follows(g, keep, {root}, v)
    ensures v == Reach(g, keep, root)
    ensures multiset{root} + multiset(v - {root}) == multiset(v)
  {
    ReachesItself(g, keep, root);
    ClosedIsReach(g, keep, v, root);
    assert v == {root} + (v - {root});
  }

  // A graph that has been drawn from its root on has been written out completely.
  lemma WholeDrawn<N>(g: Graph<N>, keep: Key -> bool, lower: string -> string, root: N, s0: Snapshot<N>,
                      s: Snapshot<N>, t: Term)
    requires root in g && s0 == Snapshot(map[root := 0], {root}, []) && Drawn(g, keep, lower, root, s0, s, t)
    requires s.v == s.idx.Keys && Ledger(g, s.idx, s.out, {})
    ensures s.idx.Keys == Reach(g, keep, root) && s.out == Render(t)
    ensures Written(g, root, t) == multiset(Reach(g, keep, root))
    ensures forall n :: n in s.idx ==> (Open(s.idx[n]) in s.out <==> g[n].Features?)
  {
    AdvanceFromRoot(g, keep, root, s.v);
    forall n | n in s.idx
      ensures Open(s.idx[n]) in s.out <==> g[n].Features?
    {
      assert WrittenOut(g, s.idx, s.out, {}, n);
    }
  }

  // The whole graph as a term, which writes out every node that can be reached exactly once.  The output has a
  // reference to an index that is never opened exactly if it comes to some text in more than one way.
  method ToPrologList(root: FeatureNode, filter: FeatureNameFilter, lower: string -> string, ghost w: NodeHeap)
    returns (result: seq<Token>, indices: map<FeatureNode, nat>, ghost t: Term)
    requires w.Valid() && NoBlankText(w.graph) && root in w.graph
    ensures Numbering(indices) && indices.Keys == Reach(w.graph, filter.Keeps, root)
    ensures result == Render(t) && Depicts(w.graph, filter.Keeps, lower, indices, root, t)
    ensures Written(w.graph, root, t) == multiset(Reach(w.graph, filter.Keeps, root))
    ensures forall n :: n in indices ==> (Open(indices[n]) in result <==> w.graph[n].Features?)
    ensures OpensOnce(result) && RefsBacked(w.graph, indices, result)
    ensures Dangles(result) <==> exists n :: n in Reach(w.graph, filter.Keeps, root) && w.graph[n].Text? &&
                                             |WaysTo(w.graph, filter.Keeps, root, n)| >= 2
  {
    var st := new Printer(root);
    ghost var s0 := st.Now();
    t := PrintNode(root, filter, lower, st, w);
    result, indices := st.result, st.indices;
    WholeDrawn(w.graph, filter.Keeps, lower, root, s0, st.Now(), t);
    DanglesExactly(w.graph, filter.Keeps, lower, indices, root, t);
  }
}
