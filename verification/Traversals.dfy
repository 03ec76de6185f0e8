// Depth-first walks over a feature graph that may have cycles.
module Traversals {
  import opened Prelude
  import opened FeatureGraph
  import opened FeatureNodes

  // ---------------------------------------------------------------- reachability

  // There is a path from r to n all of whose keys are followed.
  ghost predicate Reachable<N>(g: Graph<N>, keep: Key -> bool, r: N, n: N) {
    exists path :: AllKept(keep, path) && Target(g, r, path) == Some(n)
  }

  ghost predicate AllKept(keep: Key -> bool, path: Path) {
    forall k :: k in path ==> keep(k)
  }

  ghost function Reach<N>(g: Graph<N>, keep: Key -> bool, r: N): set<N> {
    set n | n in g && Reachable(g, keep, r, n)
  }

  // Every edge that is followed from a node of `from` ends in `into`.
  ghost predicate Follows<N>(g: Graph<N>, keep: Key -> bool, from: set<N>, into: set<N>) {
    forall n, k :: n in from && n in g && g[n].Features? && k in g[n].kv && keep(k) ==> g[n].kv[k] in into
  }

  lemma ReachesItself<N>(g: Graph<N>, keep: Key -> bool, r: N)
    ensures Reachable(g, keep, r, r)
  {
    assert AllKept(keep, []) && Target(g, r, []) == Some(r);
  }

  lemma ReachesOn<N>(g: Graph<N>, keep: Key -> bool, r: N, k: Key, n: N)
    requires Step(g, r, k).Some? && keep(k) && Reachable(g, keep, Step(g, r, k).value, n)
    ensures Reachable(g, keep, r, n)
  {
    var path :| AllKept(keep, path) && Target(g, Step(g, r, k).value, path) == Some(n);
    assert ([k] + path)[1..] == path;
    assert AllKept(keep, [k] + path) && Target(g, r, [k] + path) == Some(n);
  }

  lemma {:induction false} ClosedHoldsPaths<N>(g: Graph<N>, keep: Key -> bool, s: set<N>, r: N, path: Path)
    requires r in s && Follows(g, keep, s, s) && AllKept(keep, path) && Target(g, r, path).Some?
    ensures Target(g, r, path).value in s
    decreases |path|
  {
    if path != [] {
      assert path[0] in path;
      ClosedHoldsPaths(g, keep, s, Step(g, r, path[0]).value, path[1..]);
    }
  }

  // A set with the root that is closed under the edges followed and holds nothing unreachable is the
  // reachable part of the graph.
  lemma ClosedIsReach<N>(g: Graph<N>, keep: Key -> bool, s: set<N>, r: N)
    requires s <= g.Keys && r in s && Follows(g, keep, s, s) && forall n :: n in s ==> Reachable(g, keep, r, n)
    ensures s == Reach(g, keep, r)
  {
    forall n | n in Reach(g, keep, r)
      ensures n in s
    {
      var path :| AllKept(keep, path) && Target(g, r, path) == Some(n);
      ClosedHoldsPaths(g, keep, s, r, path);
    }
  }

  // ---------------------------------------------------------------- collecting the nodes of a parse

  // A set that remembers the order in which its nodes came in.
  class LinkedNodeSet {
    var order: seq<FeatureNode>

    constructor ()
      ensures order == []
    {
      order := [];
    }

    ghost function Nodes(): set<FeatureNode>
      reads this
    {
      set n | n in order
    }
  }

  predicate EveryKey(k: Key) {
    true
  }

  // Adds f and what can be reached from it without passing through nodes visited before.
  method IteratorFromLeft(f: FeatureNode, alreadyVisited: LinkedNodeSet, ghost w: NodeHeap)
    requires w.Valid() && f in w.graph && alreadyVisited.Nodes() <= w.graph.Keys && Distinct(alreadyVisited.order)
    modifies alreadyVisited
    ensures old(alreadyVisited.order) <= alreadyVisited.order && Distinct(alreadyVisited.order)
    ensures f in alreadyVisited.Nodes() && alreadyVisited.Nodes() <= w.graph.Keys
    ensures Follows(w.graph, EveryKey, alreadyVisited.Nodes() - old(alreadyVisited.Nodes()), alreadyVisited.Nodes())
    ensures forall n :: n in alreadyVisited.Nodes() - old(alreadyVisited.Nodes()) ==> Reachable(w.graph, EveryKey, f, n)
    decreases w.graph.Keys - alreadyVisited.Nodes()
  {
    ghost var g, nodes0, order0 := w.graph, alreadyVisited.Nodes(), alreadyVisited.order;
    if f in alreadyVisited.order {
      return;
    }
    alreadyVisited.order := alreadyVisited.order + [f];
    ReachesItself(g, EveryKey, f);
    assert alreadyVisited.Nodes() == nodes0 + {f};
    assert w.Sound(f);
    if f.IsValued() {
      return;
    }
    var names := f.kvPairs.value.Keys;
    while names != {}
      invariant names <= g[f].kv.Keys && w.Valid() && w.graph == g && f.kvPairs == Some(g[f].kv)
      invariant order0 + [f] <= alreadyVisited.order && Distinct(alreadyVisited.order)
      invariant nodes0 + {f} <= alreadyVisited.Nodes() <= g.Keys
      invariant Follows(g, EveryKey, alreadyVisited.Nodes() - nodes0 - {f}, alreadyVisited.Nodes())
      invariant forall k :: k in g[f].kv && k !in names ==> g[f].kv[k] in alreadyVisited.Nodes()
      invariant forall n :: n in alreadyVisited.Nodes() - nodes0 ==> Reachable(g, EveryKey, f, n)
      decreases names
    {
      var name :| name in names;
      names := names - {name};
      ghost var nodes1 := alreadyVisited.Nodes();
      assert g[f].kv[name] in g;
      IteratorFromLeft(f.kvPairs.value[name], alreadyVisited, w);
      forall n | n in alreadyVisited.Nodes() - nodes1
        ensures Reachable(g, EveryKey, f, n)
      {
        ReachesOn(g, EveryKey, f, name, n);
      }
    }
  }

  // All the nodes that can be reached from a node, each once.
  method AllFromLeft(left: FeatureNode, ghost w: NodeHeap) returns (nodes: seq<FeatureNode>)
    requires w.Valid() && left in w.graph
    ensures Distinct(nodes) && Elements(nodes) == Reach(w.graph, EveryKey, left)
  {
    var visited := new LinkedNodeSet();
    IteratorFromLeft(left, visited, w);
    ClosedIsReach(w.graph, EveryKey, visited.Nodes(), left);
    nodes := visited.order;
  }

  // ---------------------------------------------------------------- the relation crawler

  // Keys that the crawler does not follow.
  predicate IsBoring(k: Key) {
    || k in {"str", "orig_str", "SIG", "POS", "pos", "LAB", "PREV", "this"}
    || "phr-" <= k || "F_" <= k || "lab_" <= k || "linkL" <= k || "linkR" <= k
    || EndsWith(k, "-FLAG") || EndsWith(k, "_char") || EndsWith(k, "_links")
  }

  predicate EndsWith(k: Key, suffix: string) {
    |k| >= |suffix| && k[|k| - |suffix|..] == suffix
  }

  predicate Followed(k: Key) {
    !IsBoring(k)
  }

  ghost predicate BeginsWith(k: Key, prefix: string) {
    exists x :: k == prefix + x
  }

  ghost predicate EndsIn(k: Key, suffix: string) {
    exists x :: k == x + suffix
  }

  lemma Affixes(k: Key, affix: string)
    ensures affix <= k <==> BeginsWith(k, affix)
    ensures EndsWith(k, affix) <==> EndsIn(k, affix)
  {
    if affix <= k {
      assert k == affix + k[|affix|..];
    }
    if EndsWith(k, affix) {
      assert k == k[..|k| - |affix|] + affix;
    }
    if x :| k == x + affix {
      assert k[|k| - |affix|..] == affix;
    }
  }

  // The keys that are not followed, by their texts, their beginnings and their ends.
  lemma BoringExactly(k: Key)
    ensures IsBoring(k) <==>
            || k == "str" || k == "orig_str" || k == "SIG" || k == "POS" || k == "pos" || k == "LAB" || k == "PREV"
            || k == "this"
            || BeginsWith(k, "phr-") || BeginsWith(k, "F_") || BeginsWith(k, "lab_") || BeginsWith(k, "linkL")
            || BeginsWith(k, "linkR")
            || EndsIn(k, "-FLAG") || EndsIn(k, "_char") || EndsIn(k, "_links")
  {
    Affixes(k, "phr-");
    Affixes(k, "F_");
    Affixes(k, "lab_");
    Affixes(k, "linkL");
    Affixes(k, "linkR");
    Affixes(k, "-FLAG");
    Affixes(k, "_char");
    Affixes(k, "_links");
  }

  // A node with a name: what the callback is for.
  ghost predicate Named<N>(g: Graph<N>, n: N) {
    n in g && g[n].Features? && "name" in g[n].kv &&
    var t := g[n].kv["name"]; t in g && g[t].Text? && g[t].text.Some?
  }

  ghost function NamedIn<N>(g: Graph<N>, s: set<N>): set<N> {
    set n | n in s && Named(g, n)
  }

  // How a crawl ends: at the end of the graph, on a callback that returns true, or on a name that is no text.
  datatype Crawl = Exhausted | Halted | Failed

  // What a crawl keeps: the nodes seen, and the nodes the callback was called on, in order.
  class CrawlState {
    var alreadyVisited: set<FeatureNode>
    var calls: seq<FeatureNode>

    constructor ()
      ensures alreadyVisited == {} && calls == []
    {
      alreadyVisited, calls := {}, [];
    }

    ghost function Now(): Crawling<FeatureNode>
      reads this
    {
      Crawling(alreadyVisited, calls)
    }
  }

  // The calls made since `calls0` are on the named nodes of `seen`, each once.
  ghost predicate CalledOn<N>(g: Graph<N>, calls0: seq<N>, calls: seq<N>, seen: set<N>) {
    && calls0 <= calls
    && Distinct(calls[|calls0|..])
    && Elements(calls[|calls0|..]) == NamedIn(g, seen)
  }

  // The calls made since `calls0` are on named nodes of `seen`, none twice.
  ghost predicate CalledWithin<N>(g: Graph<N>, calls0: seq<N>, calls: seq<N>, seen: set<N>) {
    && calls0 <= calls
    && Distinct(calls[|calls0|..])
    && Elements(calls[|calls0|..]) <= NamedIn(g, seen)
  }

  lemma CalledOnMore<N>(g: Graph<N>, c0: seq<N>, c1: seq<N>, c2: seq<N>, s1: set<N>, s2: set<N>)
    requires CalledWithin(g, c0, c1, s1) && CalledWithin(g, c1, c2, s2) && s1 !! s2
    ensures CalledWithin(g, c0, c2, s1 + s2)
    ensures CalledOn(g, c0, c1, s1) && CalledOn(g, c1, c2, s2) ==> CalledOn(g, c0, c2, s1 + s2)
  {
    var a, b := c1[|c0|..], c2[|c1|..];
    assert c2[|c0|..] == a + b;
    forall i, j | 0 <= i < |a| && 0 <= j < |b|
      ensures a[i] != b[j]
    {
      assert a[i] in Elements(a) && b[j] in Elements(b);
    }
    assert Elements(a + b) == Elements(a) + Elements(b);
  }

  lemma CalledOnSelf<N>(g: Graph<N>, calls: seq<N>, f: N)
    ensures CalledOn(g, calls, calls, {})
    ensures Named(g, f) ==> CalledOn(g, calls, calls + [f], {f})
    ensures !Named(g, f) ==> CalledOn(g, calls, calls, {f})
  {
    assert calls[|calls|..] == [] && (calls + [f])[|calls|..] == [f];
  }

  // None of the calls made since `calls0` was answered by true.
  ghost predicate Quiet<N>(calls0: seq<N>, calls: seq<N>, halts: N -> bool) {
    calls0 <= calls && forall i :: |calls0| <= i < |calls| ==> !halts(calls[i])
  }

  // The followed edges of these nodes, as far as they lead to nodes with features, end in `into`.
  ghost predicate FollowsFeatured<N>(g: Graph<N>, keep: Key -> bool, from: set<N>, into: set<N>) {
    forall n, k :: n in from && FeaturedStep(g, keep, n, k) ==> g[n].kv[k] in into
  }

  ghost predicate FeaturedStep<N>(g: Graph<N>, keep: Key -> bool, n: N, k: Key) {
    n in g && g[n].Features? && k in g[n].kv && keep(k) && g[n].kv[k] in g && g[g[n].kv[k]].Features?
  }

  // A node whose name is no text: asking for it throws.
  ghost predicate BadName<N>(g: Graph<N>, n: N) {
    n in g && g[n].Features? && "name" in g[n].kv && g[n].kv["name"] in g && g[g[n].kv["name"]].Features?
  }

  // The nodes seen and the calls made at one time.
  datatype Crawling<N> = Crawling(seen: set<N>, calls: seq<N>)

  // Between two times: the nodes that came in can be reached from f, and the calls made are on named nodes of
  // `on`, none twice.  At the end of the graph they are on all of these and none was answered by true; a halt
  // is due to the last call, and a failure to a bad name, no call before being answered by true.
  ghost predicate Crawled<N>(g: Graph<N>, f: N, halts: N -> bool, s0: Crawling<N>, s: Crawling<N>, rc: Crawl,
                             on: set<N>) {
    && s0.seen <= s.seen <= g.Keys
    && (forall n :: n in s.seen - s0.seen ==> Reachable(g, Followed, f, n))
    && CalledWithin(g, s0.calls, s.calls, on)
    && match rc
       case Exhausted =>
         && FollowsFeatured(g, Followed, s.seen - s0.seen, s.seen)
         && Quiet(s0.calls, s.calls, halts) && CalledOn(g, s0.calls, s.calls, on)
       case Halted =>
         && |s.calls| > |s0.calls| && halts(s.calls[|s.calls| - 1])
         && Quiet(s0.calls, s.calls[..|s.calls| - 1], halts)
       case Failed =>
         Quiet(s0.calls, s.calls, halts) && exists n :: n in on && BadName(g, n)
  }

  // Nothing has happened yet.
  lemma CrawlStarts<N>(g: Graph<N>, f: N, halts: N -> bool, s: Crawling<N>)
    requires s.seen <= g.Keys
    ensures Crawled(g, f, halts, s, s, Exhausted, {})
  {
    CalledOnSelf(g, s.calls, f);
    assert s.seen - s.seen == {};
  }

  // A node that holds a text is seen, and that is all.
  lemma TextCrawled<N>(g: Graph<N>, f: N, halts: N -> bool, s: Crawling<N>)
    requires s.seen <= g.Keys && f in g && g[f].Text?
    ensures Crawled(g, f, halts, s, s.(seen := s.seen + {f}), Exhausted, {f})
  {
    CalledOnSelf(g, s.calls, f);
    ReachesItself(g, Followed, f);
  }

  lemma CrawledMore<N>(g: Graph<N>, f: N, halts: N -> bool, s0: Crawling<N>, s1: Crawling<N>, s2: Crawling<N>,
                       rc: Crawl,
                       on1: set<N>, on2: set<N>)
    requires Crawled(g, f, halts, s0, s1, Exhausted, on1) && Crawled(g, f, halts, s1, s2, rc, on2) && on1 !! on2
    ensures Crawled(g, f, halts, s0, s2, rc, on1 + on2)
  {
    CalledOnMore(g, s0.calls, s1.calls, s2.calls, on1, on2);
    if rc == Halted {
      assert s1.calls <= s2.calls[..|s2.calls| - 1];
    }
  }

  // What was crawled from the end of a followed edge was crawled from its start.
  lemma CrawledByEdge<N>(g: Graph<N>, f: N, k: Key, c: N, halts: N -> bool, s0: Crawling<N>, s: Crawling<N>, rc: Crawl,
                         on: set<N>)
    requires Step(g, f, k) == Some(c) && Followed(k) && Crawled(g, c, halts, s0, s, rc, on)
    ensures Crawled(g, f, halts, s0, s, rc, on)
  {
    forall n | n in s.seen - s0.seen
      ensures Reachable(g, Followed, f, n)
    {
      ReachesOn(g, Followed, f, k, n);
    }
  }

  // The name of a node: the callback is called if the name is a text, and the crawl fails if it has features.
  lemma NameCrawled<N>(g: Graph<N>, f: N, halts: N -> bool, s: Crawling<N>)
    requires s.seen <= g.Keys && f in g && g[f].Features? && "name" in g[f].kv && g[f].kv["name"] in g
    ensures BadName(g, f) ==> Crawled(g, f, halts, s, s, Failed, {f})
    ensures Named(g, f) ==>
              Crawled(g, f, halts, s, s.(calls := s.calls + [f]), if halts(f) then Halted else Exhausted, {f})
    ensures !BadName(g, f) && !Named(g, f) ==> Crawled(g, f, halts, s, s, Exhausted, {f})
  {
    CalledOnSelf(g, s.calls, f);
    assert s.seen - s.seen == {};
    assert (s.calls + [f])[..|s.calls + [f]| - 1] == s.calls;
  }

  // Walks the graph; `halts` is the callback's answer.  Only nodes with features are entered.
  method GraphCrawl(f: FeatureNode, state: CrawlState, halts: FeatureNode -> bool,
                    ghost w: NodeHeap) returns (rc: Crawl)
    requires w.Valid() && f in w.graph && state.alreadyVisited <= w.graph.Keys
    modifies state
    ensures Crawled(w.graph, f, halts, old(state.Now()), state.Now(), rc,
              state.alreadyVisited - old(state.alreadyVisited))
    ensures rc == Exhausted ==> f in state.alreadyVisited
    decreases w.graph.Keys - state.alreadyVisited, 0
  {
    ghost var s0 := state.Now();
    if f in state.alreadyVisited {
      CrawlStarts(w.graph, f, halts, s0);
      assert s0.seen - s0.seen == {};
      return Exhausted;
    }
    state.alreadyVisited := state.alreadyVisited + {f};
    assert w.Sound(f);
    if f.IsValued() {
      TextCrawled(w.graph, f, halts, s0);
      assert state.alreadyVisited - s0.seen == {f};
      return Exhausted;
    }
    rc := CrawlKeys(f, f.kvPairs.value.Keys, s0.seen, state, halts, w);
  }

  // The nodes a crawl from f has made calls on, when these keys of f are left.
  ghost function CalledSoFar<N>(g: Graph<N>, f: N, seen0: set<N>, seen: set<N>, left: set<Key>): set<N>
    requires f in g && g[f].Features?
  {
    seen - seen0 - if "name" in left || "name" !in g[f].kv then {f} else {}
  }

  // All keys of a node have been crawled, or the crawl has come to an end before.
  lemma KeysCrawled<N>(g: Graph<N>, f: N, halts: N -> bool, s0: Crawling<N>, s: Crawling<N>, rc: Crawl, on: set<N>)
    requires f in g && g[f].Features? && f !in s0.seen
    requires Crawled(g, f, halts, s0.(seen := s0.seen + {f}), s, rc, on)
    requires on <= s.seen - s0.seen
    requires rc == Exhausted ==> on == CalledSoFar(g, f, s0.seen, s.seen, {})
    requires rc == Exhausted ==> forall k :: FeaturedStep(g, Followed, f, k) ==> g[f].kv[k] in s.seen
    ensures Crawled(g, f, halts, s0, s, rc, s.seen - s0.seen)
  {
    ReachesItself(g, Followed, f);
    assert rc == Exhausted ==> NamedIn(g, s.seen - s0.seen) == NamedIn(g, on);
  }

  // The keys of a node that has just been entered; `seen0` had been visited before.
  method CrawlKeys(f: FeatureNode, keys: set<Key>, ghost seen0: set<FeatureNode>, state: CrawlState,
                   halts: FeatureNode -> bool, ghost w: NodeHeap)
    returns (rc: Crawl)
    requires w.Valid() && f in w.graph && w.graph[f].Features? && keys == w.graph[f].kv.Keys && f !in seen0
    requires state.alreadyVisited == seen0 + {f} <= w.graph.Keys
    modifies state
    ensures Crawled(w.graph, f, halts, Crawling(seen0, old(state.calls)), state.Now(), rc, state.alreadyVisited - seen0)
    ensures f in state.alreadyVisited
    decreases w.graph.Keys - state.alreadyVisited, 2
  {
    ghost var g, s0 := w.graph, state.Now();
    CrawlStarts(g, f, halts, s0);
    var names := keys;
    ghost var on := {};
    while names != {}
      invariant names <= g[f].kv.Keys && seen0 + {f} <= state.alreadyVisited
      invariant Crawled(g, f, halts, s0, state.Now(), Exhausted, on)
      invariant on == CalledSoFar(g, f, seen0, state.alreadyVisited, names)
      invariant forall k :: k !in names && FeaturedStep(g, Followed, f, k) ==> g[f].kv[k] in state.alreadyVisited
      decreases names
    {
      var key :| key in names;
      names := names - {key};
      ghost var s1 := state.Now();
      rc := CrawlKey(f, key, state, halts, w);
      ghost var more := KeyCalls(f, key, s1.seen, state.alreadyVisited);
      CrawledMore(g, f, halts, s0, s1, state.Now(), rc, on, more);
      on := on + more;
      if rc != Exhausted {
        KeysCrawled(g, f, halts, Crawling(seen0, s0.calls), state.Now(), rc, on);
        return;
      }
    }
    rc := Exhausted;
    KeysCrawled(g, f, halts, Crawling(seen0, s0.calls), state.Now(), rc, on);
  }

  lemma NameIsFollowed()
    ensures Followed("name")
  {
    var k := "name";
    assert k[0] == 'n' && |k| == 4;
    assert forall b :: b in {"PREV", "this", "phr-", "F_", "lab_", "linkL", "linkR"} ==> b[0] != k[0];
    assert forall b :: b in {"str", "orig_str", "SIG", "POS", "pos", "LAB"} ==> |b| != |k|;
  }

  // What the calls made by one key are on: the node itself for its name, else what came in.
  ghost function KeyCalls<N>(f: N, key: Key, seen0: set<N>, seen: set<N>): set<N> {
    seen - seen0 + if key == "name" then {f} else {}
  }

  // One key of a node.
  method CrawlKey(f: FeatureNode, key: Key, state: CrawlState, halts: FeatureNode -> bool, ghost w: NodeHeap)
    returns (rc: Crawl)
    requires w.Valid() && f in w.graph && w.graph[f].Features? && key in w.graph[f].kv
    requires f in state.alreadyVisited && state.alreadyVisited <= w.graph.Keys
    modifies state
    ensures Crawled(w.graph, f, halts, old(state.Now()), state.Now(), rc,
                    KeyCalls(f, key, old(state.alreadyVisited), state.alreadyVisited))
    ensures rc == Exhausted ==> FeaturedStep(w.graph, Followed, f, key) ==> w.graph[f].kv[key] in state.alreadyVisited
    decreases w.graph.Keys - state.alreadyVisited, 1
  {
    ghost var g, s0 := w.graph, state.Now();
    NameIsFollowed();
    assert s0.seen - s0.seen == {};
    if IsBoring(key) {
      CrawlStarts(g, f, halts, s0);
      return Exhausted;
    }
    assert w.Sound(f);
    var fn := f.kvPairs.value[key];
    assert fn in g && w.Sound(fn);
    if key == "name" {
      NameCrawled(g, f, halts, s0);
      if !fn.IsValued() {
        return Failed;
      }
      if fn.value.Some? {
        state.calls := state.calls + [f];
        if halts(f) {
          return Halted;
        }
      }
      return Exhausted;
    }
    if fn.IsValued() {
      CrawlStarts(g, f, halts, s0);
      return Exhausted;
    }
    rc := GraphCrawl(fn, state, halts, w);
    CrawledByEdge(g, f, key, fn, halts, s0, state.Now(), rc, state.alreadyVisited - s0.seen);
  }

  // Calls a callback on every named node that can be reached by the keys followed, each once, until one
  // answers true or a name is no text.
  method Foreach(root: FeatureNode, halts: FeatureNode -> bool,
                 ghost w: NodeHeap) returns (rc: Crawl, calls: seq<FeatureNode>)
    requires w.Valid() && root in w.graph
    ensures Distinct(calls) && Elements(calls) <= NamedIn(w.graph, Reach(w.graph, Followed, root))
    ensures rc == Exhausted ==> Elements(calls) == NamedIn(w.graph, Reach(w.graph, Followed, root))
    ensures rc == Halted ==> calls != [] && halts(calls[|calls| - 1])
    ensures forall c :: c in (if rc == Halted then calls[..|calls| - 1] else calls) ==> !halts(c)
    ensures rc == Failed ==> exists n :: n in Reach(w.graph, Followed, root) && BadName(w.graph, n)
  {
    var state := new CrawlState();
    rc := GraphCrawl(root, state, halts, w);
    calls := state.calls;
    assert calls[0..] == calls && state.alreadyVisited - {} == state.alreadyVisited;
    assert state.alreadyVisited <= Reach(w.graph, Followed, root);
    if rc == Exhausted {
      CrawledIsReach(w.graph, Followed, state.alreadyVisited, root);
    }
  }

  // The named nodes of a crawled set are the named nodes that can be reached.
  lemma CrawledIsReach<N>(g: Graph<N>, keep: Key -> bool, s: set<N>, r: N)
    requires s <= g.Keys && r in s && FollowsFeatured(g, keep, s, s) && Closed(g)
    requires forall n :: n in s ==> Reachable(g, keep, r, n)
    ensures NamedIn(g, s) == NamedIn(g, Reach(g, keep, r))
  {
    forall n | n in Reach(g, keep, r) && Named(g, n)
      ensures n in s
    {
      var path :| AllKept(keep, path) && Target(g, r, path) == Some(n);
      FeaturedPathStays(g, keep, s, r, path);
    }
  }

  lemma {:induction false} FeaturedPathStays<N>(g: Graph<N>, keep: Key -> bool, s: set<N>, r: N, path: Path)
    requires Closed(g) && r in s && r in g && FollowsFeatured(g, keep, s, s) && AllKept(keep, path)
    requires Target(g, r, path).Some?
    ensures var t := Target(g, r, path).value; t in g && (g[t].Features? ==> t in s)
    decreases |path|
  {
    if path != [] {
      assert path[0] in path;
      var m := g[r].kv[path[0]];
      if g[m].Features? {
        assert FeaturedStep(g, keep, r, path[0]);
        FeaturedPathStays(g, keep, s, m, path[1..]);
      } else {
        TextEnds(g, m, path[1..]);
      }
    }
  }

  lemma TextEnds<N>(g: Graph<N>, n: N, path: Path)
    requires n in g && g[n].Text? && Target(g, n, path).Some?
    ensures path == []
  {
  }
}
