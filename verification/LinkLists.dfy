// Words and the links between them: numbered links under the words' keys, and both ends under a link's.
module LinkLists {
  import opened Prelude
  import opened FeatureGraph
  import opened FeatureNodes
  import opened Numerals

  datatype Direction = Left | Right

  const LEFT_END: Key := "F_L"
  const RIGHT_END: Key := "F_R"
  const LEFT_LABEL: Key := "lab_L"
  const RIGHT_LABEL: Key := "lab_R"
  const LABEL: Key := "LAB"

  function CountKey(dir: Direction): Key {
    if dir.Left? then "num_left_links" else "num_right_links"
  }

  function LinkPrefix(dir: Direction): Key {
    if dir.Left? then "linkL" else "linkR"
  }

  function LinkKey(dir: Direction, i: nat): Key {
    LinkPrefix(dir) + Decimal(i)
  }

  lemma LinkKeysDiffer(dir: Direction, i: nat, dir': Direction, i': nat)
    ensures LinkKey(dir, i) == LinkKey(dir', i') ==> dir == dir' && i == i'
    ensures LinkKey(dir, i) != CountKey(dir')
    ensures LinkKey(dir, i) !in {LEFT_END, RIGHT_END, LEFT_LABEL, RIGHT_LABEL, LABEL}
  {
    var k, k' := LinkKey(dir, i), LinkKey(dir', i');
    assert k[4] == LinkPrefix(dir)[4] && k'[4] == LinkPrefix(dir')[4] && k[0] == 'l' && |k| > 5;
    assert k[5..] == Decimal(i) && k'[5..] == Decimal(i');
    if k == k' {
      DecimalInjective(i, i');
    }
  }

  // The keys as they are spelt.
  lemma LinkKeysSpelt()
    ensures LinkKey(Left, 0) == "linkL0" && LinkKey(Right, 12) == "linkR12"
    ensures CountKey(Left) == "num_left_links" && CountKey(Right) == "num_right_links"
  {
    assert Decimal(12) == Decimal(1) + [Digit(2)] == "12";
  }

  // The node under a key holds this text.
  ghost predicate Says<N>(g: Graph<N>, n: N, k: Key, text: string) {
    var t := Step(g, n, k);
    t.Some? && t.value in g && g[t.value] == Text(Some(text))
  }

  // The links of a word in one direction, as they are counted and numbered.
  ghost predicate Links<N>(g: Graph<N>, n: N, dir: Direction, links: seq<N>) {
    && n in g && g[n].Features?
    && (Says(g, n, CountKey(dir), Decimal(|links|)) || (links == [] && Step(g, n, CountKey(dir)).None?))
    && forall i {:trigger links[i]} :: 0 <= i < |links| ==> Step(g, n, LinkKey(dir, i)) == Some(links[i])
  }

  method NumLinks(n: FeatureNode, dir: Direction, ghost links: seq<FeatureNode>, ghost w: NodeHeap) returns (num: nat)
    requires w.Valid() && Links(w.graph, n, dir, links)
    ensures num == |links|
  {
    assert w.Sound(n);
    if CountKey(dir) !in n.kvPairs.value {
      return 0;
    }
    var f := n.kvPairs.value[CountKey(dir)];
    assert w.Sound(f);
    DecimalRead(|links|);
    num := ReadDecimal(f.value.value);
  }

  // The i-th link; an index that is not counted is refused.
  method GetLink(n: FeatureNode, dir: Direction, i: nat, ghost links: seq<FeatureNode>, ghost w: NodeHeap)
    returns (o: Outcome, link: FeatureNode?)
    requires w.Valid() && Links(w.graph, n, dir, links)
    ensures o.Threw? <==> i >= |links|
    ensures o.Ok? ==> link == links[i]
  {
    var num := NumLinks(n, dir, links, w);
    if i >= num {
      return Threw, null;
    }
    assert w.Sound(n);
    assert Step(w.graph, n, LinkKey(dir, i)) == Some(links[i]);
    return Ok, n.kvPairs.value[LinkKey(dir, i)];
  }

  // A new node that holds a text.
  method CreateText(text: string, ghost w: NodeHeap) returns (n: FeatureNode)
    requires w.Valid()
    modifies w
    ensures fresh(n) && n !in old(w.graph) && w.Valid()
    ensures w.graph == old(w.graph)[n := Text(Some(text))]
  {
    n := Create(w);
    var _ := n.ForceValue(text, w);
  }

  // Sets the count: in the node that holds it, or in a new one.
  method SetNumLinks(n: FeatureNode, dir: Direction, num: nat, ghost links: seq<FeatureNode>, ghost w: NodeHeap)
    returns (f: FeatureNode)
    requires w.Valid() && Links(w.graph, n, dir, links)
    modifies w, w.graph.Keys
    ensures w.Valid()
    ensures if Step(old(w.graph), n, CountKey(dir)).Some?
            then Step(old(w.graph), n, CountKey(dir)) == Some(f) && f in old(w.graph)
            else f !in old(w.graph) && fresh(f)
    ensures w.graph == WithEdge(old(w.graph)[f := Text(Some(Decimal(num)))], n, CountKey(dir), f)
  {
    ghost var g0 := w.graph;
    assert w.Sound(n);
    if CountKey(dir) in n.kvPairs.value {
      f := n.kvPairs.value[CountKey(dir)];
      var _ := f.ForceValue(Decimal(num), w);
      assert g0[n].kv[CountKey(dir) := f] == g0[n].kv;
      assert w.graph == WithEdge(g0[f := Text(Some(Decimal(num)))], n, CountKey(dir), f);
    } else {
      f := CreateText(Decimal(num), w);
      var _ := n.Set(CountKey(dir), f, w);
    }
  }

  // What adding a link makes of the graph: the count is one higher, and the link is under the next number.
  ghost predicate LinkAdded<N>(g: Graph<N>, g': Graph<N>, n: N, dir: Direction, links: seq<N>, link: N, f: N) {
    && n in g && g[n].Features?
    && (match Step(g, n, CountKey(dir)) case Some(c) => f == c && f in g && g[f].Text? case None => f !in g)
    && g' == WithEdge(WithEdge(g[f := Text(Some(Decimal(|links| + 1)))], n, CountKey(dir), f),
                      n, LinkKey(dir, |links|), link)
  }

  method AddLink(n: FeatureNode, dir: Direction, link: FeatureNode, ghost links: seq<FeatureNode>, ghost w: NodeHeap)
    returns (ghost f: FeatureNode)
    requires w.Valid() && link in w.graph && Links(w.graph, n, dir, links)
    modifies w, w.graph.Keys
    ensures w.Valid() && old(w.graph.Keys) <= w.graph.Keys && fresh(w.graph.Keys - old(w.graph.Keys))
    ensures LinkAdded(old(w.graph), w.graph, n, dir, links, link, f)
    ensures Links(w.graph, n, dir, links + [link])
  {
    ghost var g0 := w.graph;
    var num := NumLinks(n, dir, links, w);
    f := SetNumLinks(n, dir, num + 1, links, w);
    var _ := n.Set(LinkKey(dir, num), link, w);
    AddedLinks(g0, w.graph, n, dir, links, link, f);
  }

  lemma AddedLinks<N>(g: Graph<N>, g': Graph<N>, n: N, dir: Direction, links: seq<N>, link: N, f: N)
    requires Links(g, n, dir, links) && LinkAdded(g, g', n, dir, links, link, f)
    ensures Links(g', n, dir, links + [link])
  {
    LinkKeysDiffer(dir, |links|, dir, |links|);
    forall i | 0 <= i <= |links|
      ensures Step(g', n, LinkKey(dir, i)) == Some((links + [link])[i])
    {
      LinkKeysDiffer(dir, i, dir, |links|);
      if i < |links| {
        assert Step(g, n, LinkKey(dir, i)) == Some(links[i]);
      }
    }
  }

  // The links in the other direction, and those of another word, stay as they are, unless the node that
  // holds their count is the one that was counted up.
  lemma OthersKeepLinks<N>(g: Graph<N>, g': Graph<N>, n: N, dir: Direction, links: seq<N>, link: N, f: N,
                           m: N, dir': Direction, links': seq<N>)
    requires LinkAdded(g, g', n, dir, links, link, f) && Links(g, n, dir, links)
    requires Links(g, m, dir', links') && (m != n || dir' != dir)
    ensures Step(g, m, CountKey(dir')) != Some(f) ==> Links(g', m, dir', links')
    ensures Step(g, m, CountKey(dir')) == Some(f) ==> !Links(g', m, dir', links')
  {
    LinkKeysDiffer(dir, |links|, dir, |links|);
    LinkKeysDiffer(dir, |links|, dir', 0);
    if Step(g, m, CountKey(dir')) == Some(f) {
      if Decimal(|links| + 1) == Decimal(|links'|) {
        DecimalInjective(|links| + 1, |links'|);
      }
      if Decimal(|links|) == Decimal(|links'|) {
        DecimalInjective(|links|, |links'|);
      }
      LinkKeysDiffer(dir, |links|, dir', |links'|);
    } else {
      forall i | 0 <= i < |links'|
        ensures Step(g', m, LinkKey(dir', i)) == Some(links'[i])
      {
        assert Step(g, m, LinkKey(dir', i)) == Some(links'[i]);
        LinkKeysDiffer(dir, |links|, dir', i);
        LinkKeysDiffer(dir', i, dir, 0);
      }
    }
  }

  const ENDS_AND_LABELS := {LEFT_END, RIGHT_END, LEFT_LABEL, RIGHT_LABEL, LABEL}

  // Setting an end or a label of a link leaves the links of words alone; a new text does not matter either.
  lemma EndsKeepLinks<N>(g: Graph<N>, g': Graph<N>, n: N, k: Key, t: N, m: N, dir: Direction, links: seq<N>)
    requires Links(g, m, dir, links) && n in g && g[n].Features? && k in ENDS_AND_LABELS
    requires g' == WithEdge(g, n, k, t) || (t !in g && exists text :: g' == WithEdge(g[t := Text(Some(text))], n, k, t))
    ensures Links(g', m, dir, links)
  {
    LinkKeysDiffer(dir, 0, dir, 0);
    assert k != CountKey(dir);
    forall i | 0 <= i < |links|
      ensures Step(g', m, LinkKey(dir, i)) == Some(links[i])
    {
      LinkKeysDiffer(dir, i, dir, i);
      assert Step(g, m, LinkKey(dir, i)) == Some(links[i]);
    }
  }

  // A link with its ends and labels.
  ghost predicate IsLink<N>(g: Graph<N>, link: N, left: N, right: N, lab: string) {
    Step(g, link, LEFT_END) == Some(left) && Step(g, link, RIGHT_END) == Some(right) && Says(g, link, LABEL, lab)
  }

  // The words count their links in nodes of their own.
  ghost predicate OwnCounts<N>(g: Graph<N>, left: N, right: N) {
    Step(g, left, CountKey(Right)).None? || Step(g, left, CountKey(Right)) != Step(g, right, CountKey(Left))
  }

  // A link has its ends, and both words list links.
  ghost predicate Wired<N>(g: Graph<N>, link: N, left: N, right: N, rights: seq<N>, lefts: seq<N>) {
    && link in g && g[link].Features?
    && Step(g, link, LEFT_END) == Some(left) && Step(g, link, RIGHT_END) == Some(right)
    && Links(g, left, Right, rights) && Links(g, right, Left, lefts)
  }

  lemma EndsStay<N>(g: Graph<N>, g': Graph<N>, n: N, dir: Direction, links: seq<N>, link: N, f: N, m: N, k: Key)
    requires LinkAdded(g, g', n, dir, links, link, f) && k in ENDS_AND_LABELS && m in g && g[m].Features?
    ensures Step(g', m, k) == Step(g, m, k) && m in g' && g'[m].Features?
  {
    LinkKeysDiffer(dir, |links|, dir, |links|);
  }

  // The left end of a link, and the entry in the list of the left word.
  method SetLeftEnd(ths: FeatureNode, left: FeatureNode, right: FeatureNode,
                    ghost rights: seq<FeatureNode>, ghost lefts: seq<FeatureNode>, ghost w: NodeHeap)
    requires w.Valid() && ths in w.graph && w.graph[ths].Features? && OwnCounts(w.graph, left, right)
    requires Links(w.graph, left, Right, rights) && Links(w.graph, right, Left, lefts)
    modifies w, w.graph.Keys
    ensures w.Valid() && old(w.graph.Keys) <= w.graph.Keys && fresh(w.graph.Keys - old(w.graph.Keys))
    ensures ths in w.graph && w.graph[ths].Features? && Step(w.graph, ths, LEFT_END) == Some(left)
            && OwnCounts(w.graph, left, right)
    ensures Links(w.graph, left, Right, rights + [ths]) && Links(w.graph, right, Left, lefts)
  {
    ghost var g0 := w.graph;
    var _ := ths.Set(LEFT_END, left, w);
    ghost var g1 := w.graph;
    EndsKeepLinks(g0, g1, ths, LEFT_END, left, left, Right, rights);
    EndsKeepLinks(g0, g1, ths, LEFT_END, left, right, Left, lefts);
    ghost var f := AddLink(left, Right, ths, rights, w);
    OthersKeepLinks(g1, w.graph, left, Right, rights, ths, f, right, Left, lefts);
    EndsStay(g1, w.graph, left, Right, rights, ths, f, ths, LEFT_END);
    CountsStay(g1, w.graph, left, rights, ths, f, right);
  }

  lemma CountsStay<N>(g: Graph<N>, g': Graph<N>, left: N, rights: seq<N>, link: N, f: N, right: N)
    requires LinkAdded(g, g', left, Right, rights, link, f) && Step(g, right, CountKey(Left)) != Some(f)
    ensures OwnCounts(g', left, right)
  {
    LinkKeysDiffer(Right, |rights|, Left, 0);
    LinkKeysDiffer(Right, |rights|, Right, 0);
  }

  method SetRightEnd(ths: FeatureNode, left: FeatureNode, right: FeatureNode,
                     ghost rights: seq<FeatureNode>, ghost lefts: seq<FeatureNode>, ghost w: NodeHeap)
    requires w.Valid() && ths in w.graph && w.graph[ths].Features? && OwnCounts(w.graph, left, right)
    requires Step(w.graph, ths, LEFT_END) == Some(left)
    requires Links(w.graph, left, Right, rights) && Links(w.graph, right, Left, lefts)
    modifies w, w.graph.Keys
    ensures w.Valid() && old(w.graph.Keys) <= w.graph.Keys && fresh(w.graph.Keys - old(w.graph.Keys))
    ensures Wired(w.graph, ths, left, right, rights, lefts + [ths])
  {
    ghost var g0 := w.graph;
    var _ := ths.Set(RIGHT_END, right, w);
    ghost var g1 := w.graph;
    EndsKeepLinks(g0, g1, ths, RIGHT_END, right, left, Right, rights);
    EndsKeepLinks(g0, g1, ths, RIGHT_END, right, right, Left, lefts);
    ghost var f := AddLink(right, Left, ths, lefts, w);
    OthersKeepLinks(g1, w.graph, right, Left, lefts, ths, f, left, Right, rights);
    EndsStay(g1, w.graph, right, Left, lefts, ths, f, ths, LEFT_END);
    EndsStay(g1, w.graph, right, Left, lefts, ths, f, ths, RIGHT_END);
  }

  lemma WiredLabel<N>(g: Graph<N>, g': Graph<N>, link: N, left: N, right: N, rights: seq<N>, lefts: seq<N>, k: Key,
                      t: N, text: string)
    requires Wired(g, link, left, right, rights, lefts) && k in {LEFT_LABEL, RIGHT_LABEL, LABEL} && t !in g
    requires g' == WithEdge(g[t := Text(Some(text))], link, k, t)
    ensures Wired(g', link, left, right, rights, lefts) && Says(g', link, k, text)
    ensures forall k', text' :: k' != k && Says(g, link, k', text') ==> Says(g', link, k', text')
  {
    EndsKeepLinks(g, g', link, k, t, left, Right, rights);
    EndsKeepLinks(g, g', link, k, t, right, Left, lefts);
  }

  method SetLabel(ths: FeatureNode, k: Key, text: string, ghost left: FeatureNode, ghost right: FeatureNode,
                  ghost rights: seq<FeatureNode>, ghost lefts: seq<FeatureNode>, ghost w: NodeHeap)
    requires w.Valid() && Wired(w.graph, ths, left, right, rights, lefts) && k in {LEFT_LABEL, RIGHT_LABEL, LABEL}
    modifies w, w.graph.Keys
    ensures w.Valid() && old(w.graph.Keys) <= w.graph.Keys && fresh(w.graph.Keys - old(w.graph.Keys))
    ensures Wired(w.graph, ths, left, right, rights, lefts) && Says(w.graph, ths, k, text)
    ensures forall k', text' :: k' != k && Says(old(w.graph), ths, k', text') ==> Says(w.graph, ths, k', text')
  {
    ghost var g := w.graph;
    var t := CreateText(text, w);
    var _ := ths.Set(k, t, w);
    WiredLabel(g, w.graph, ths, left, right, rights, lefts, k, t, text);
  }

  method SetLabels(ths: FeatureNode, leftLabel: string, rightLabel: string, lab: string, ghost left: FeatureNode,
                   ghost right: FeatureNode,
                   ghost rights: seq<FeatureNode>, ghost lefts: seq<FeatureNode>, ghost w: NodeHeap)
    requires w.Valid() && Wired(w.graph, ths, left, right, rights, lefts)
    modifies w, w.graph.Keys
    ensures w.Valid() && Wired(w.graph, ths, left, right, rights, lefts)
    ensures Says(w.graph, ths, LEFT_LABEL, leftLabel) && Says(w.graph, ths, RIGHT_LABEL, rightLabel)
            && Says(w.graph, ths, LABEL, lab)
  {
    SetLabel(ths, LEFT_LABEL, leftLabel, left, right, rights, lefts, w);
    SetLabel(ths, RIGHT_LABEL, rightLabel, left, right, rights, lefts, w);
    SetLabel(ths, LABEL, lab, left, right, rights, lefts, w);
  }

  // A link is set up between two words: each lists it last.
  method SetLinkFeatures(ths: FeatureNode, leftLabel: string, rightLabel: string, lab: string, left: FeatureNode,
                         right: FeatureNode,
                         ghost rights: seq<FeatureNode>, ghost lefts: seq<FeatureNode>, ghost w: NodeHeap)
    requires w.Valid() && ths in w.graph && w.graph[ths].Features? && OwnCounts(w.graph, left, right)
    requires Links(w.graph, left, Right, rights) && Links(w.graph, right, Left, lefts)
    modifies w, w.graph.Keys
    ensures w.Valid() && IsLink(w.graph, ths, left, right, lab)
    ensures Says(w.graph, ths, LEFT_LABEL, leftLabel) && Says(w.graph, ths, RIGHT_LABEL, rightLabel)
    ensures Links(w.graph, left, Right, rights + [ths]) && Links(w.graph, right, Left, lefts + [ths])
  {
    SetLeftEnd(ths, left, right, rights, lefts, w);
    SetRightEnd(ths, left, right, rights + [ths], lefts, w);
    SetLabels(ths, leftLabel, rightLabel, lab, left, right, rights + [ths], lefts + [ths], w);
  }
}
