// When two nodes of a feature graph can be made one at all, whatever a merge makes of them.
module Unifiability {
  import opened Prelude
  import opened FeatureGraph

  // Why two nodes have to become one when two given ones do: because they are the given ones, by symmetry or
  // transitivity, or because equal keys of nodes that become one lead to them.
  datatype Why = Given | Flipped(why: Why) | Chained(first: Why, second: Why) | Below(why: Why, key: Key)

  // The two nodes it is the reason for.
  ghost function Pair<N>(g: Graph<N>, a: N, b: N, why: Why): Option<(N, N)> {
    match why
    case Given => Some((a, b))
    case Flipped(why1) =>
      (match Pair(g, a, b, why1) case None => None case Some(p) => Some((p.1, p.0)))
    case Chained(first, second) =>
      var p, q := Pair(g, a, b, first), Pair(g, a, b, second);
      if p.Some? && q.Some? && p.value.1 == q.value.0 then Some((p.value.0, q.value.1)) else None
    case Below(why1, key) =>
      var p := Pair(g, a, b, why1);
      if p.None? then None
      else
        var x, y := Step(g, p.value.0, key), Step(g, p.value.1, key);
        if x.Some? && y.Some? then Some((x.value, y.value)) else None
  }

  ghost predicate Tied<N>(g: Graph<N>, a: N, b: N, x: N, y: N) {
    x == y || exists why :: Pair(g, a, b, why) == Some((x, y))
  }

  ghost predicate HoldsText<N>(g: Graph<N>, x: N) {
    x in g && g[x].Text? && g[x].text.Some?
  }

  // The one holds a text, the other a different text, or features.
  ghost predicate Differ<N>(g: Graph<N>, x: N, y: N) {
    && HoldsText(g, x) && y in g
    && if g[y].Text? then g[y].text.Some? && g[y].text != g[x].text else g[y].kv != map[]
  }

  // Two nodes would have to become one that cannot.
  ghost predicate Clash<N>(g: Graph<N>, a: N, b: N) {
    exists x, y :: x in g && y in g && Tied(g, a, b, x, y) && Differ(g, x, y)
  }

  // ---------------------------------------------------------------- a clash cannot be resolved

  lemma {:induction false} PairBecomesOne<N, M>(g: Graph<N>, a: N, b: N, why: Why, g2: Graph<M>, h: map<N, M>)
    requires Closed(g) && a in g && b in g && Morphism(g, g2, h) && h[a] == h[b]
    requires Pair(g, a, b, why).Some?
    ensures var p := Pair(g, a, b, why).value; p.0 in g && p.1 in g && h[p.0] == h[p.1]
  {
    match why
    case Given =>
    case Flipped(why1) => PairBecomesOne(g, a, b, why1, g2, h);
    case Chained(first, second) =>
      PairBecomesOne(g, a, b, first, g2, h);
      PairBecomesOne(g, a, b, second, g2, h);
    case Below(why1, key) =>
      PairBecomesOne(g, a, b, why1, g2, h);
      var p := Pair(g, a, b, why1).value;
      assert Step(g2, h[p.0], key) == Some(h[g[p.0].kv[key]]);
      assert Step(g2, h[p.1], key) == Some(h[g[p.1].kv[key]]);
  }

  lemma DifferentStayApart<N, M>(g: Graph<N>, x: N, y: N, g2: Graph<M>, h: map<N, M>)
    requires Closed(g) && Differ(g, x, y) && Morphism(g, g2, h)
    ensures h[x] != h[y]
  {
    if g[y].Features? {
      var k :| k in g[y].kv;
      assert Step(g2, h[y], k).Some?;
    }
  }

  // No structure-keeping map sends two nodes that clash to one place.
  lemma ClashForbids<N, M>(g: Graph<N>, a: N, b: N, g2: Graph<M>, h: map<N, M>)
    requires Closed(g) && a in g && b in g && Morphism(g, g2, h) && Clash(g, a, b)
    ensures h[a] != h[b]
  {
    var x, y :| x in g && y in g && Tied(g, a, b, x, y) && Differ(g, x, y);
    DifferentStayApart(g, x, y, g2, h);
    if h[a] == h[b] {
      var why :| Pair(g, a, b, why) == Some((x, y));
      PairBecomesOne(g, a, b, why, g2, h);
    }
  }

  // ---------------------------------------------------------------- without a clash there is a way

  lemma TiedFlips<N>(g: Graph<N>, a: N, b: N, x: N, y: N)
    requires Tied(g, a, b, x, y)
    ensures Tied(g, a, b, y, x)
  {
    if x != y {
      var why :| Pair(g, a, b, why) == Some((x, y));
      assert Pair(g, a, b, Flipped(why)) == Some((y, x));
    }
  }

  lemma TiedChains<N>(g: Graph<N>, a: N, b: N, x: N, y: N, z: N)
    requires Tied(g, a, b, x, y) && Tied(g, a, b, y, z)
    ensures Tied(g, a, b, x, z)
  {
    if x != y && y != z {
      var first :| Pair(g, a, b, first) == Some((x, y));
      var second :| Pair(g, a, b, second) == Some((y, z));
      assert Pair(g, a, b, Chained(first, second)) == Some((x, z));
    }
  }

  lemma TiedBelow<N>(g: Graph<N>, a: N, b: N, x: N, y: N, key: Key)
    requires Tied(g, a, b, x, y) && Step(g, x, key).Some? && Step(g, y, key).Some?
    ensures Tied(g, a, b, Step(g, x, key).value, Step(g, y, key).value)
  {
    if x != y {
      var why :| Pair(g, a, b, why) == Some((x, y));
      assert Pair(g, a, b, Below(why, key)) == Some((Step(g, x, key).value, Step(g, y, key).value));
    }
  }

  // The nodes that have to become one with x.
  ghost function Class<N>(g: Graph<N>, a: N, b: N, x: N): set<N> {
    set y | y in g && Tied(g, a, b, x, y)
  }

  lemma TiedShareClass<N>(g: Graph<N>, a: N, b: N, x: N, y: N)
    requires Tied(g, a, b, x, y)
    ensures Class(g, a, b, x) == Class(g, a, b, y)
  {
    TiedFlips(g, a, b, x, y);
    forall z | z in g
      ensures Tied(g, a, b, x, z) <==> Tied(g, a, b, y, z)
    {
      if Tied(g, a, b, x, z) {
        TiedChains(g, a, b, y, x, z);
      }
      if Tied(g, a, b, y, z) {
        TiedChains(g, a, b, x, y, z);
      }
    }
  }

  // What the one node made of a class holds: a text of the class, or all its keys, led to classes.
  ghost function ClassBody<N>(g: Graph<N>, a: N, b: N, c: set<N>): Body<set<N>> {
    if exists x :: x in c && HoldsText(g, x) then
      var x :| x in c && HoldsText(g, x);
      Text(g[x].text)
    else
      Features(map k | k in ClassKeys(g, c) :: Class(g, a, b, ClassTarget(g, c, k)))
  }

  ghost function ClassKeys<N>(g: Graph<N>, c: set<N>): set<Key> {
    set x, k | x in c && x in g && g[x].Features? && k in g[x].kv :: k
  }

  ghost function ClassTarget<N>(g: Graph<N>, c: set<N>, k: Key): N
    requires k in ClassKeys(g, c)
  {
    var x :| x in c && Step(g, x, k).Some?;
    Step(g, x, k).value
  }

  ghost function Classes<N>(g: Graph<N>, a: N, b: N): map<N, set<N>> {
    map x | x in g :: Class(g, a, b, x)
  }

  // The graph of the classes.
  ghost function ClassGraph<N>(g: Graph<N>, a: N, b: N): Graph<set<N>> {
    map c | c in Classes(g, a, b).Values :: ClassBody(g, a, b, c)
  }

  lemma ClassStep<N>(g: Graph<N>, a: N, b: N, x: N, k: Key)
    requires Closed(g) && x in g && Step(g, x, k).Some? && !Clash(g, a, b)
    ensures Step(ClassGraph(g, a, b), Class(g, a, b, x), k) == Some(Class(g, a, b, g[x].kv[k]))
  {
    var c := Class(g, a, b, x);
    assert Classes(g, a, b)[x] == c;
    forall y | y in c
      ensures !HoldsText(g, y)
    {
      TiedFlips(g, a, b, x, y);
    }
    assert k in ClassKeys(g, c);
    var y :| y in c && Step(g, y, k).Some? && ClassTarget(g, c, k) == Step(g, y, k).value;
    TiedBelow(g, a, b, x, y, k);
    TiedShareClass(g, a, b, g[x].kv[k], g[y].kv[k]);
  }

  lemma ClassText<N>(g: Graph<N>, a: N, b: N, x: N)
    requires HoldsText(g, x) && !Clash(g, a, b)
    ensures Class(g, a, b, x) in ClassGraph(g, a, b) && ClassGraph(g, a, b)[Class(g, a, b, x)] == Text(g[x].text)
  {
    var c := Class(g, a, b, x);
    assert Classes(g, a, b)[x] == c;
    assert x in c;
    var y :| y in c && HoldsText(g, y) && ClassBody(g, a, b, c) == Text(g[y].text);
    assert !Differ(g, x, y);
  }

  // Two nodes that do not clash become one in the graph of the classes, and nothing is lost.
  lemma ClassesUnify<N>(g: Graph<N>, a: N, b: N)
    requires Closed(g) && a in g && b in g && !Clash(g, a, b)
    ensures Morphism(g, ClassGraph(g, a, b), Classes(g, a, b))
    ensures Classes(g, a, b)[a] == Classes(g, a, b)[b]
  {
    forall n, k | n in g && g[n].Features? && k in g[n].kv
      ensures Step(ClassGraph(g, a, b), Class(g, a, b, n), k) == Some(Class(g, a, b, g[n].kv[k]))
    {
      ClassStep(g, a, b, n, k);
    }
    forall n | HoldsText(g, n)
      ensures Class(g, a, b, n) in ClassGraph(g, a, b) && ClassGraph(g, a, b)[Class(g, a, b, n)] == Text(g[n].text)
    {
      ClassText(g, a, b, n);
    }
    assert Pair(g, a, b, Given) == Some((a, b));
    TiedShareClass(g, a, b, a, b);
  }

  // ---------------------------------------------------------------- what a refused merge means

  // Two nodes can be made one if and only if they do not clash.
  lemma UnifiableExactly<N>(g: Graph<N>, a: N, b: N)
    requires Closed(g) && a in g && b in g
    ensures !Clash(g, a, b) <==> exists g2: Graph<set<N>>, h: map<N, set<N>> :: Morphism(g, g2, h) && h[a] == h[b]
  {
    if Clash(g, a, b) {
      forall g2: Graph<set<N>>, h: map<N, set<N>> | Morphism(g, g2, h)
        ensures h[a] != h[b]
      {
        ClashForbids(g, a, b, g2, h);
      }
    } else {
      ClassesUnify(g, a, b);
    }
  }

  // What a merge accepts does not clash; what it refuses because of a text does.  So a refusal is right, in
  // that no map whatever identifies the two nodes, if and only if they clash; and the merge throws exactly on
  // nodes that cannot be unified, as documented, if and only if it accepts them or they clash.
  lemma RefusalIsRight<N>(g: Graph<N>, a: N, b: N)
    requires Closed(g) && a in g && b in g
    ensures Mergeable(g, a, b) ==> !Clash(g, a, b)
    ensures !Mergeable(g, a, b) && (g[a].Text? || g[b].Text?) ==> Clash(g, a, b)
    ensures (!Mergeable(g, a, b) <==>
               forall g2: Graph<set<N>>, h: map<N, set<N>> :: Morphism(g, g2, h) ==> h[a] != h[b])
            <==> Mergeable(g, a, b) || Clash(g, a, b)
  {
    UnifiableExactly(g, a, b);
    if Mergeable(g, a, b) {
      MergeIsMorphism(g, a, b);
      assert Quotient(g, a, b)[a] == Quotient(g, a, b)[b];
      if Clash(g, a, b) {
        ClashForbids(g, a, b, Merged(g, a, b), Quotient(g, a, b));
      }
    } else if g[a].Text? || g[b].Text? {
      assert Pair(g, a, b, Given) == Some((a, b)) && Pair(g, a, b, Flipped(Given)) == Some((b, a));
      assert Differ(g, a, b) || Differ(g, b, a);
    }
  }

  // Two nodes with features that a merge refuses although they can be made one: each has a key the other lacks.
  ghost function TwoSided(): Graph<nat> {
    map[0 := Features(map["x" := 2]), 1 := Features(map["y" := 2]), 2 := Text(Some("t"))]
  }

  lemma RefusedYetUnifiable()
    ensures Closed(TwoSided()) && !Mergeable(TwoSided(), 0, 1) && !Clash(TwoSided(), 0, 1)
    ensures exists g2: Graph<set<nat>>, h: map<nat, set<nat>> :: Morphism(TwoSided(), g2, h) && h[0] == h[1]
  {
    var g := TwoSided();
    assert "y" in g[1].kv && "y" !in g[0].kv && "x" in g[0].kv;
    var g2: Graph<nat> := map[0 := Features(map["x" := 2, "y" := 2]), 2 := Text(Some("t"))];
    var h: map<nat, nat> := map[0 := 0, 1 := 0, 2 := 2];
    assert Step(g2, 0, "x") == Some(2) && Step(g2, 0, "y") == Some(2);
    assert Morphism(g, g2, h) && h[0] == h[1];
    if Clash(g, 0, 1) {
      ClashForbids(g, 0, 1, g2, h);
    }
    UnifiableExactly(g, 0, 1);
  }
}
