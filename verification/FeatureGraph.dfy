// The meaning of a heap of feature nodes: an edge-labelled graph whose nodes hold either a text or
// labelled edges.  Everything here is about values; FeatureNodes ties the mutable nodes to it.
module FeatureGraph {
  import opened Prelude

  type Key = string
  type Path = seq<Key>

  // What a node holds.  Text(None) is the node with neither a key table nor a string.
  datatype Body<N> = Text(text: Option<string>) | Features(kv: map<Key, N>)

  type Graph<!N> = map<N, Body<N>>

  ghost predicate Closed<N>(g: Graph<N>) {
    forall n, k :: n in g && g[n].Features? && k in g[n].kv ==> g[n].kv[k] in g
  }

  // No node has lost its key table without getting a string; only storing a null string leaves one so.
  ghost predicate NoBlankText<N>(g: Graph<N>) {
    forall n :: n in g ==> g[n] != Text(None)
  }

  ghost predicate Points<N>(g: Graph<N>, p: N, c: N) {
    p in g && g[p].Features? && c in g[p].kv.Values
  }

  // The back-pointers a graph calls for.
  ghost function ParentsIn<N>(g: Graph<N>, c: N): set<N> {
    set p | p in g && Points(g, p, c)
  }

  ghost predicate IsEmptyBody<N>(b: Body<N>) {
    match b
    case Text(t) => t.None?
    case Features(kv) => kv == map[]
  }

  ghost function Step<N>(g: Graph<N>, n: N, k: Key): Option<N> {
    if n in g && g[n].Features? && k in g[n].kv then Some(g[n].kv[k]) else None
  }

  // Where a chain of keys leads.
  ghost function Target<N>(g: Graph<N>, n: N, path: Path): Option<N> {
    if path == [] then Some(n)
    else match Step(g, n, path[0])
      case None => None
      case Some(m) => Target(g, m, path[1..])
  }

  ghost function WithEdge<N>(g: Graph<N>, n: N, k: Key, t: N): Graph<N>
    requires n in g && g[n].Features?
  {
    g[n := Features(g[n].kv[k := t])]
  }

  ghost function WithoutEdge<N>(g: Graph<N>, n: N, k: Key): Graph<N>
    requires n in g && g[n].Features?
  {
    g[n := Features(g[n].kv - {k})]
  }

  // Only the old and the new end of an edge gain or lose a back-pointer when the edge moves.
  lemma ParentsAfterPut<N>(g: Graph<N>, n: N, k: Key, t: N, c: N)
    requires n in g && g[n].Features?
    ensures ParentsIn(WithEdge(g, n, k, t), c) ==
            if c == t then ParentsIn(g, c) + {n}
            else if Step(g, n, k) == Some(c) && c !in g[n].kv[k := t].Values then ParentsIn(g, c) - {n}
            else ParentsIn(g, c)
  {
    var kv, kv', g' := g[n].kv, g[n].kv[k := t], WithEdge(g, n, k, t);
    assert k in kv' && kv'[k] == t;
    assert forall k' :: k' in kv && k' != k ==> k' in kv' && kv'[k'] == kv[k'];
    assert forall p :: p in g && p != n ==> (Points(g', p, c) <==> Points(g, p, c));
    assert Points(g', n, c) <==> c in kv'.Values;
    assert Points(g, n, c) <==> c in kv.Values;
    assert c != t && Step(g, n, k) != Some(c) ==> (c in kv'.Values <==> c in kv.Values);
  }

  lemma ParentsAfterDrop<N>(g: Graph<N>, n: N, k: Key, c: N)
    requires n in g && g[n].Features?
    ensures ParentsIn(WithoutEdge(g, n, k), c) ==
            if Step(g, n, k) == Some(c) && c !in (g[n].kv - {k}).Values then ParentsIn(g, c) - {n}
            else ParentsIn(g, c)
  {
    var kv, kv', g' := g[n].kv, g[n].kv - {k}, WithoutEdge(g, n, k);
    assert forall k' :: k' in kv && k' != k ==> k' in kv' && kv'[k'] == kv[k'];
    assert forall p :: p in g && p != n ==> (Points(g', p, c) <==> Points(g, p, c));
    assert Points(g', n, c) <==> c in kv'.Values;
    assert Points(g, n, c) <==> c in kv.Values;
    assert Step(g, n, k) != Some(c) ==> (c in kv'.Values <==> c in kv.Values);
  }

  // ---------------------------------------------------------------- redirection

  ghost function Renamed<N>(n: N, victim: N, survivor: N): N {
    if n == victim then survivor else n
  }

  ghost function RenamedBody<N>(b: Body<N>, victim: N, survivor: N): Body<N> {
    match b
    case Text(_) => b
    case Features(kv) => Features(map k | k in kv :: Renamed(kv[k], victim, survivor))
  }

  lemma RenamedKeyByKey<N>(kv: map<Key, N>, kv': map<Key, N>, victim: N, survivor: N)
    requires kv'.Keys == kv.Keys && forall k :: k in kv ==> kv'[k] == Renamed(kv[k], victim, survivor)
    ensures RenamedBody(Features(kv), victim, survivor) == Features(kv')
  {
  }

  // Every edge into the victim now leads to the survivor.
  ghost function Redirect<N>(g: Graph<N>, victim: N, survivor: N): Graph<N> {
    map n | n in g :: RenamedBody(g[n], victim, survivor)
  }

  // A redirection half way: only the nodes of `done` have been rewritten.
  ghost function RedirectIn<N>(g: Graph<N>, done: set<N>, victim: N, survivor: N): Graph<N> {
    map n | n in g :: if n in done then RenamedBody(g[n], victim, survivor) else g[n]
  }

  // Rewriting the victim's parents is enough, and leaves it without any.
  lemma RedirectTouchesParents<N>(g: Graph<N>, victim: N, survivor: N)
    ensures RedirectIn(g, ParentsIn(g, victim), victim, survivor) == Redirect(g, victim, survivor)
    ensures victim != survivor ==> ParentsIn(Redirect(g, victim, survivor), victim) == {}
  {
    forall n | n in g && n !in ParentsIn(g, victim)
      ensures RenamedBody(g[n], victim, survivor) == g[n]
    {
      if g[n].Features? {
        assert forall k :: k in g[n].kv ==> g[n].kv[k] in g[n].kv.Values;
      }
    }
  }

  // ---------------------------------------------------------------- merging

  ghost predicate Mergeable<N>(g: Graph<N>, a: N, b: N)
    requires a in g && b in g
  {
    || a == b
    || IsEmptyBody(g[a])
    || IsEmptyBody(g[b])
    || (g[a].Text? && g[a] == g[b])
    || (g[a].Features? && g[b].Features? && forall k :: k in g[b].kv ==> k in g[a].kv && g[a].kv[k] == g[b].kv[k])
  }

  // The node that loses all its incoming edges when `b` is merged into `a`.
  ghost function Victim<N>(g: Graph<N>, a: N, b: N): N
    requires a in g && b in g
  {
    if !IsEmptyBody(g[b]) && IsEmptyBody(g[a]) then a else b
  }

  ghost function Survivor<N>(g: Graph<N>, a: N, b: N): N
    requires a in g && b in g
  {
    if Victim(g, a, b) == a then b else a
  }

  ghost function Merged<N>(g: Graph<N>, a: N, b: N): Graph<N>
    requires a in g && b in g
  {
    if a == b || !Mergeable(g, a, b) then g else Redirect(g, Victim(g, a, b), Survivor(g, a, b))
  }

  // A map between graphs that keeps every edge and every text.
  ghost predicate Morphism<N, M>(g: Graph<N>, g': Graph<M>, h: map<N, M>) {
    && h.Keys == g.Keys
    && (forall n, k :: n in g && g[n].Features? && k in g[n].kv && g[n].kv[k] in g ==>
          Step(g', h[n], k) == Some(h[g[n].kv[k]]))
    && (forall n :: n in g && g[n].Text? && g[n].text.Some? ==> h[n] in g' && g'[h[n]] == Text(g[n].text))
  }

  // The map that sends the victim of a merge to its survivor and fixes every other node.
  ghost function Quotient<N>(g: Graph<N>, a: N, b: N): map<N, N>
    requires a in g && b in g
  {
    map n | n in g :: if a == b then n else Renamed(n, Victim(g, a, b), Survivor(g, a, b))
  }

  lemma MergeIsMorphism<N>(g: Graph<N>, a: N, b: N)
    requires Closed(g) && a in g && b in g && Mergeable(g, a, b)
    ensures Closed(Merged(g, a, b))
    ensures Morphism(g, Merged(g, a, b), Quotient(g, a, b))
  {
    var g', q := Merged(g, a, b), Quotient(g, a, b);
    forall n, k | n in g && g[n].Features? && k in g[n].kv
      ensures Step(g', q[n], k) == Some(q[g[n].kv[k]])
    {
    }
  }

  lemma {:induction false} MorphismKeepsPaths<N, M>(g: Graph<N>, g': Graph<M>, h: map<N, M>, r: N, path: Path)
    requires Closed(g) && r in g && Morphism(g, g', h)
    requires Target(g, r, path).Some?
    ensures Target(g, r, path).value in g
    ensures Target(g', h[r], path) == Some(h[Target(g, r, path).value])
    decreases |path|
  {
    if path != [] {
      MorphismKeepsPaths(g, g', h, g[r].kv[path[0]], path[1..]);
    }
  }

  // A successful merge keeps the meaning of every path and every text.
  lemma MergeKeepsMeaning<N>(g: Graph<N>, a: N, b: N, r: N, path: Path)
    requires Closed(g) && a in g && b in g && r in g && Mergeable(g, a, b)
    requires Target(g, r, path).Some?
    ensures var t := Target(g, r, path).value;
            && t in g
            && Target(Merged(g, a, b), Quotient(g, a, b)[r], path) == Some(Quotient(g, a, b)[t])
            && (g[t].Text? && g[t].text.Some? ==> Merged(g, a, b)[Quotient(g, a, b)[t]] == g[t])
    ensures Quotient(g, a, b)[a] == Quotient(g, a, b)[b]
  {
    MergeIsMorphism(g, a, b);
    MorphismKeepsPaths(g, Merged(g, a, b), Quotient(g, a, b), r, path);
  }

  // ... and it identifies no more than it must: any other map out of the graph that sends the two
  // nodes to one place is still a map out of the merged graph.
  lemma MergeIsMostGeneral<N, M>(g: Graph<N>, a: N, b: N, g2: Graph<M>, h: map<N, M>)
    requires Closed(g) && a in g && b in g && Mergeable(g, a, b)
    requires Morphism(g, g2, h) && h[a] == h[b]
    ensures Morphism(Merged(g, a, b), g2, h)
  {
    var g' := Merged(g, a, b);
    forall n, k | n in g' && g'[n].Features? && k in g'[n].kv && g'[n].kv[k] in g'
      ensures Step(g2, h[n], k) == Some(h[g'[n].kv[k]])
    {
      assert h[g'[n].kv[k]] == h[g[n].kv[k]];
    }
  }

  // A merge refused because a text is involved could not have been done by any means.
  lemma TextConflictIsReal<N, M>(g: Graph<N>, a: N, b: N, g2: Graph<M>, h: map<N, M>)
    requires Closed(g) && a in g && b in g && !Mergeable(g, a, b)
    requires g[a].Text? || g[b].Text?
    requires Morphism(g, g2, h)
    ensures h[a] != h[b]
  {
    if g[a].Text? && g[b].Features? {
      var k :| k in g[b].kv;
      assert Step(g2, h[b], k).Some?;
    } else if g[b].Text? && g[a].Features? {
      var k :| k in g[a].kv;
      assert Step(g2, h[a], k).Some?;
    }
  }

  // ---------------------------------------------------------------- when and where nodes are merged

  ghost predicate HasText<N>(g: Graph<N>, n: N, text: string) {
    n in g && g[n] == Text(Some(text))
  }

  // Nothing can be seen of the node: it has no text, and no path leads on from it.
  ghost predicate Bare<N>(g: Graph<N>, n: N) {
    && (forall text :: !HasText(g, n, text))
    && forall path: Path :: path != [] ==> Target(g, n, path) == None
  }

  // Every path from the second node leads to the same place from the first.
  ghost predicate Covers<N>(g: Graph<N>, a: N, b: N) {
    forall path: Path :: path != [] && Target(g, b, path).Some? ==> Target(g, a, path) == Target(g, b, path)
  }

  lemma BareExactly<N>(g: Graph<N>, n: N)
    requires n in g
    ensures Bare(g, n) <==> IsEmptyBody(g[n])
  {
    if !IsEmptyBody(g[n]) {
      if g[n].Features? {
        var k :| k in g[n].kv;
        assert Target(g, n, [k]) == Target(g, g[n].kv[k], []) != None;
      } else {
        assert HasText(g, n, g[n].text.value);
      }
    }
  }

  lemma CoversExactly<N>(g: Graph<N>, a: N, b: N)
    requires a in g && b in g && g[a].Features? && g[b].Features?
    ensures Covers(g, a, b) <==> forall k :: k in g[b].kv ==> k in g[a].kv && g[a].kv[k] == g[b].kv[k]
  {
    if Covers(g, a, b) {
      forall k | k in g[b].kv
        ensures k in g[a].kv && g[a].kv[k] == g[b].kv[k]
      {
        assert Target(g, b, [k]) == Target(g, g[b].kv[k], []);
        assert Target(g, a, [k]) == Target(g, b, [k]);
      }
    }
  }

  // A node is merged into another exactly if one of them is bare, or both have the same text, or neither has a text
  // and the other has every path of it.
  lemma MergeableExactly<N>(g: Graph<N>, a: N, b: N)
    requires a in g && b in g
    ensures Mergeable(g, a, b) <==>
            || a == b || Bare(g, a) || Bare(g, b)
            || (exists text :: HasText(g, a, text) && HasText(g, b, text))
            || ((forall text :: !HasText(g, a, text) && !HasText(g, b, text)) && Covers(g, a, b))
  {
    BareExactly(g, a);
    BareExactly(g, b);
    if g[a].Features? && g[b].Features? {
      CoversExactly(g, a, b);
    }
    if g[a].Text? && g[a].text.Some? {
      assert HasText(g, a, g[a].text.value);
    }
    if g[b].Text? && g[b].text.Some? {
      assert HasText(g, b, g[b].text.value);
    }
  }

  // Afterwards whatever led to either node leads to the first one, or to the second one if only that has anything.
  lemma PathsMeet<N>(g: Graph<N>, a: N, b: N, r: N, path: Path)
    requires Closed(g) && a in g && b in g && r in g && Mergeable(g, a, b)
    requires Target(g, r, path) == Some(a) || Target(g, r, path) == Some(b)
    ensures var kept := if Bare(g, a) && !Bare(g, b) then b else a;
      Target(Merged(g, a, b), if r == a || r == b then kept else r, path) == Some(kept)
  {
    BareExactly(g, a);
    BareExactly(g, b);
    MergeKeepsMeaning(g, a, b, r, path);
  }
}
