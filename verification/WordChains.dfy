// Words that belong together, such as the words of a name, are chained by links; the chain is collapsed
// into its last word.
module WordChains {
  import opened Prelude
  import opened FeatureGraph
  import opened FeatureNodes
  import opened LinkLists

  const STR: Key := "str"
  const ORIG_STR: Key := "orig_str"
  const REF: Key := "ref"
  const NAME: Key := "name"
  const COLLOCATION_START: Key := "collocation_start"
  const COLLOCATION_END: Key := "collocation_end"
  const START_CHAR: Key := "start_char"

  // Whether a link of this label chains words.
  type LabelTest = string -> bool

  // ---------------------------------------------------------------- following links

  function EndKey(dir: Direction): Key {
    if dir.Left? then LEFT_END else RIGHT_END
  }

  ghost predicate Labelled<N>(g: Graph<N>, link: N) {
    var t := Step(g, link, LABEL);
    t.Some? && t.value in g && g[t.value].Text? && g[t.value].text.Some?
  }

  ghost function LabelOf<N>(g: Graph<N>, link: N): string
    requires Labelled(g, link)
  {
    g[Step(g, link, LABEL).value].text.value
  }

  // The links of a word have labels and both ends.
  ghost predicate Linked<N>(g: Graph<N>, n: N, dir: Direction, links: seq<N>) {
    && Links(g, n, dir, links)
    && forall i :: 0 <= i < |links| ==>
         Labelled(g, links[i]) && Step(g, links[i], LEFT_END).Some? && Step(g, links[i], RIGHT_END).Some?
  }

  // The far end of the first link from the i-th on that chains words.
  ghost function NextFrom<N>(g: Graph<N>, links: seq<N>, dir: Direction, chains: LabelTest, i: nat): Option<N>
    requires i <= |links| && forall i :: 0 <= i < |links| ==> Labelled(g, links[i])
    decreases |links| - i
  {
    if i == |links| then None
    else if chains(LabelOf(g, links[i])) then Step(g, links[i], EndKey(dir))
    else NextFrom(g, links, dir, chains, i + 1)
  }

  method NextNode(n: FeatureNode, dir: Direction, chains: LabelTest, ghost links: seq<FeatureNode>, ghost w: NodeHeap)
    returns (next: FeatureNode?)
    requires w.Valid() && Linked(w.graph, n, dir, links)
    ensures if next == null then NextFrom(w.graph, links, dir, chains, 0).None?
            else next in w.graph && NextFrom(w.graph, links, dir, chains, 0) == Some(next)
  {
    var num := NumLinks(n, dir, links, w);
    for i := 0 to num
      invariant NextFrom(w.graph, links, dir, chains, 0) == NextFrom(w.graph, links, dir, chains, i)
    {
      var _, link := GetLink(n, dir, i, links, w);
      assert w.Sound(link);
      var lab := link.kvPairs.value[LABEL];
      assert w.Sound(lab);
      if chains(lab.value.value) {
        return link.kvPairs.value[EndKey(dir)];
      }
    }
    next := null;
  }

  // ---------------------------------------------------------------- sentences

  // The links that every word of a sentence has on either side, and the order of the words.
  datatype Sentence<!N> = Sentence(lefts: map<N, seq<N>>, rights: map<N, seq<N>>, at: map<N, nat>)

  function LinksOf<N>(s: Sentence<N>, n: N, dir: Direction): seq<N>
    requires n in s.lefts && n in s.rights
  {
    if dir.Left? then s.lefts[n] else s.rights[n]
  }

  ghost predicate Chaining<N>(g: Graph<N>, link: N, chains: LabelTest) {
    Labelled(g, link) && chains(LabelOf(g, link))
  }

  // A link runs from one word to a later one, and both list it.
  ghost predicate Runs<N>(g: Graph<N>, s: Sentence<N>, link: N, from: N, to: N) {
    && Step(g, link, LEFT_END) == Some(from) && Step(g, link, RIGHT_END) == Some(to)
    && from in s.at && to in s.at && s.at[from] < s.at[to]
    && from in s.rights && link in s.rights[from] && to in s.lefts && link in s.lefts[to]
  }

  // The links of a word run to or from it.
  ghost predicate RunsHere<N>(g: Graph<N>, s: Sentence<N>, n: N, dir: Direction, link: N) {
    var other := Step(g, link, EndKey(dir));
    other.Some? && if dir.Left? then Runs(g, s, link, other.value, n) else Runs(g, s, link, n, other.value)
  }

  // At most one link of a list chains words.
  ghost predicate OneChains<N>(g: Graph<N>, links: seq<N>, chains: LabelTest) {
    forall i, j :: 0 <= i < j < |links| ==> !(Chaining(g, links[i], chains) && Chaining(g, links[j], chains))
  }

  ghost predicate IsSentence<N>(g: Graph<N>, s: Sentence<N>, chains: LabelTest) {
    && s.lefts.Keys == s.rights.Keys == s.at.Keys
    && (forall n, dir :: n in s.at ==> Linked(g, n, dir, LinksOf(s, n, dir)))
    && (forall n, dir, link :: n in s.at && link in LinksOf(s, n, dir) ==> RunsHere(g, s, n, dir, link))
    && (forall n, dir :: n in s.at ==> OneChains(g, LinksOf(s, n, dir), chains))
  }

  ghost function NextOf<N>(g: Graph<N>, s: Sentence<N>, chains: LabelTest, n: N, dir: Direction): Option<N>
    requires IsSentence(g, s, chains) && n in s.at
  {
    NextFrom(g, LinksOf(s, n, dir), dir, chains, 0)
  }

  lemma {:induction false} NextFromIs<N>(g: Graph<N>, links: seq<N>, dir: Direction, chains: LabelTest,
                                         i: nat) returns (k: nat)
    requires i <= |links| && forall i :: 0 <= i < |links| ==>
              Labelled(g, links[i]) && Step(g, links[i], EndKey(dir)).Some?
    ensures NextFrom(g, links, dir, chains, i).Some? ==>
              i <= k < |links| && Chaining(g, links[k], chains) &&
                  NextFrom(g, links, dir, chains, i) == Step(g, links[k], EndKey(dir))
    ensures NextFrom(g, links, dir, chains, i).None? ==> forall j :: i <= j < |links| ==> !Chaining(g, links[j], chains)
    decreases |links| - i
  {
    if i == |links| || chains(LabelOf(g, links[i])) {
      k := i;
    } else {
      k := NextFromIs(g, links, dir, chains, i + 1);
    }
  }

  // The next word, if there is one, is at the other end of a link that chains the two.
  lemma NextRuns<N>(g: Graph<N>, s: Sentence<N>, chains: LabelTest, n: N, dir: Direction) returns (link: N)
    requires IsSentence(g, s, chains) && n in s.at && NextOf(g, s, chains, n, dir).Some?
    ensures var m := NextOf(g, s, chains, n, dir).value;
      Chaining(g, link, chains) && if dir.Left? then Runs(g, s, link, m, n) else Runs(g, s, link, n, m)
  {
    var k := NextFromIs(g, LinksOf(s, n, dir), dir, chains, 0);
    link := LinksOf(s, n, dir)[k];
    assert link in LinksOf(s, n, dir);
    assert RunsHere(g, s, n, dir, link);
  }

  // Going left and going right are inverse.
  lemma NextInverse<N>(g: Graph<N>, s: Sentence<N>, chains: LabelTest, n: N, dir: Direction)
    requires IsSentence(g, s, chains) && n in s.at && NextOf(g, s, chains, n, dir).Some?
    ensures var m, back := NextOf(g, s, chains, n, dir).value, if dir.Left? then Right else Left;
      m in s.at && NextOf(g, s, chains, m, back) == Some(n)
  {
    var m, back := NextOf(g, s, chains, n, dir).value, if dir.Left? then Right else Left;
    var link := NextRuns(g, s, chains, n, dir);
    var links := LinksOf(s, m, back);
    var i :| 0 <= i < |links| && links[i] == link;
    assert Linked(g, m, back, links);
    var k := NextFromIs(g, links, back, chains, 0);
    assert NextOf(g, s, chains, m, back).Some?;
    assert OneChains(g, links, chains);
    assert k == i;
  }

  // Words each of which is chained to the one after it.
  ghost predicate IsChain<N>(g: Graph<N>, s: Sentence<N>, chains: LabelTest, ws: seq<N>)
    requires IsSentence(g, s, chains)
  {
    && ws != [] && (forall i :: 0 <= i < |ws| ==> ws[i] in s.at)
    && forall i :: 0 <= i < |ws| - 1 ==> NextOf(g, s, chains, ws[i], Right) == Some(ws[i + 1])
  }

  // The words of a chain stand in the order of the sentence, so that none comes twice.
  lemma {:induction false} ChainAscends<N>(g: Graph<N>, s: Sentence<N>, chains: LabelTest, ws: seq<N>, i: nat, j: nat)
    requires IsSentence(g, s, chains) && IsChain(g, s, chains, ws) && i < j < |ws|
    ensures s.at[ws[i]] < s.at[ws[j]] && ws[i] != ws[j]
    decreases j
  {
    assert NextOf(g, s, chains, ws[j - 1], Right) == Some(ws[j - 1 + 1]);
    var link := NextRuns(g, s, chains, ws[j - 1], Right);
    if i < j - 1 {
      ChainAscends(g, s, chains, ws, i, j - 1);
    }
  }

  // Goes left as far as the chain goes, and knows the way back.
  method GetLeftMost(n: FeatureNode, chains: LabelTest, ghost s: Sentence<FeatureNode>, ghost w: NodeHeap)
    returns (leftMost: FeatureNode, ghost ws: seq<FeatureNode>)
    requires w.Valid() && IsSentence(w.graph, s, chains) && n in s.at
    ensures IsChain(w.graph, s, chains, ws) && ws[0] == leftMost && ws[|ws| - 1] == n
    ensures NextOf(w.graph, s, chains, leftMost, Left).None?
    decreases s.at[n]
  {
    assert Linked(w.graph, n, Left, LinksOf(s, n, Left));
    var next := NextNode(n, Left, chains, s.lefts[n], w);
    if next == null {
      return n, [n];
    }
    assert NextOf(w.graph, s, chains, n, Left) == Some(next);
    ghost var link := NextRuns(w.graph, s, chains, n, Left);
    NextInverse(w.graph, s, chains, n, Left);
    leftMost, ws := GetLeftMost(next, chains, s, w);
    LongerChain(w.graph, s, chains, ws, n);
    ws := ws + [n];
  }

  lemma LongerChain<N>(g: Graph<N>, s: Sentence<N>, chains: LabelTest, ws: seq<N>, n: N)
    requires IsSentence(g, s, chains) && IsChain(g, s, chains, ws) && n in s.at
    requires NextOf(g, s, chains, ws[|ws| - 1], Right) == Some(n)
    ensures IsChain(g, s, chains, ws + [n])
  {
  }

  // ---------------------------------------------------------------- names

  ghost predicate HasText<N>(g: Graph<N>, n: N, k: Key) {
    var t := Step(g, n, k);
    t.Some? && t.value in g && g[t.value].Text? && g[t.value].text.Some?
  }

  ghost function TextAt<N>(g: Graph<N>, n: N, k: Key): string
    requires HasText(g, n, k)
  {
    g[Step(g, n, k).value].text.value
  }

  // A word has a string, and its original string is one if it is there.
  ghost predicate IsNamed<N>(g: Graph<N>, n: N) {
    HasText(g, n, STR) && (Step(g, n, ORIG_STR).Some? ==> HasText(g, n, ORIG_STR))
  }

  // The original string wins, even an empty one.
  ghost function WordName<N>(g: Graph<N>, n: N): string
    requires IsNamed(g, n)
  {
    if Step(g, n, ORIG_STR).Some? then TextAt(g, n, ORIG_STR) else TextAt(g, n, STR)
  }

  ghost predicate AllNamed<N>(g: Graph<N>, ws: seq<N>) {
    forall x :: x in ws ==> IsNamed(g, x)
  }

  ghost function JoinNames<N>(g: Graph<N>, ws: seq<N>): string
    requires ws != [] && AllNamed(g, ws)
  {
    if |ws| == 1 then WordName(g, ws[0]) else WordName(g, ws[0]) + "_" + JoinNames(g, ws[1..])
  }

  // The name of a word is its original string if it has one, and else its string.
  lemma NameIs<N>(g: Graph<N>, n: N, text: string)
    requires IsNamed(g, n)
    requires Says(g, n, ORIG_STR, text) || (Step(g, n, ORIG_STR).None? && Says(g, n, STR, text))
    ensures WordName(g, n) == text && JoinNames(g, [n]) == text
  {
  }

  // The joined name of two stretches of words is that of the first, an underscore, and that of the second.
  lemma {:induction false} NamesJoin<N>(g: Graph<N>, ws: seq<N>, vs: seq<N>)
    requires ws != [] && vs != [] && AllNamed(g, ws) && AllNamed(g, vs)
    ensures AllNamed(g, ws + vs) && JoinNames(g, ws + vs) == JoinNames(g, ws) + "_" + JoinNames(g, vs)
  {
    var all := ws + vs;
    assert all[0] == ws[0] && all[1..] == ws[1..] + vs;
    if |ws| == 1 {
      assert all[1..] == vs;
    } else {
      NamesJoin(g, ws[1..], vs);
      assert WordName(g, ws[0]) + "_" + (JoinNames(g, ws[1..]) + "_" + JoinNames(g, vs)) ==
             WordName(g, ws[0]) + "_" + JoinNames(g, ws[1..]) + "_" + JoinNames(g, vs);
    }
  }

  method ReadName(n: FeatureNode, ghost w: NodeHeap) returns (name: string)
    requires w.Valid() && n in w.graph && IsNamed(w.graph, n)
    ensures name == WordName(w.graph, n)
  {
    assert w.Sound(n);
    var f := n.kvPairs.value[if ORIG_STR in n.kvPairs.value then ORIG_STR else STR];
    assert w.Sound(f);
    name := f.value.value;
  }

  // ---------------------------------------------------------------- what collapsing leaves alone

  // The keys that collapsing a chain writes to.
  const WRITTEN := {STR, REF, NAME, COLLOCATION_START, COLLOCATION_END, START_CHAR}

  lemma WrittenApart(dir: Direction, i: nat)
    ensures LinkKey(dir, i) !in WRITTEN && CountKey(dir) !in WRITTEN
    ensures LEFT_END !in WRITTEN && RIGHT_END !in WRITTEN && LABEL !in WRITTEN && ORIG_STR !in WRITTEN
  {
    assert LinkKey(dir, i)[0] == 'l' && CountKey(dir)[1] == 'u';
  }

  // All texts are kept, and all other keys.
  ghost predicate Beside<N>(g: Graph<N>, g': Graph<N>) {
    && (forall n :: n in g ==> n in g' && if g[n].Text? then g'[n] == g[n] else g'[n].Features?)
    && forall n, k :: n in g && k !in WRITTEN ==> Step(g', n, k) == Step(g, n, k)
  }

  lemma BesideLinks<N>(g: Graph<N>, g': Graph<N>, n: N, dir: Direction, links: seq<N>)
    requires Beside(g, g') && Linked(g, n, dir, links)
    ensures Linked(g', n, dir, links) && forall i :: 0 <= i < |links| ==> LabelOf(g', links[i]) == LabelOf(g, links[i])
  {
    WrittenApart(dir, 0);
    forall i | 0 <= i < |links|
      ensures Step(g', n, LinkKey(dir, i)) == Some(links[i])
    {
      assert Step(g, n, LinkKey(dir, i)) == Some(links[i]);
      WrittenApart(dir, i);
    }
  }

  lemma {:induction false} BesideNext<N>(g: Graph<N>, g': Graph<N>, links: seq<N>, dir: Direction, chains: LabelTest,
                                         i: nat)
    requires Beside(g, g') && i <= |links|
    requires forall i :: 0 <= i < |links| ==>
              Labelled(g, links[i]) && Labelled(g', links[i]) && LabelOf(g', links[i]) == LabelOf(g, links[i])
    ensures NextFrom(g', links, dir, chains, i) == NextFrom(g, links, dir, chains, i)
    decreases |links| - i
  {
    if i < |links| {
      WrittenApart(dir, 0);
      BesideNext(g, g', links, dir, chains, i + 1);
    }
  }

  lemma BesideSentence<N>(g: Graph<N>, g': Graph<N>, s: Sentence<N>, chains: LabelTest)
    requires Beside(g, g') && IsSentence(g, s, chains)
    ensures IsSentence(g', s, chains)
    ensures forall n, dir :: n in s.at ==> NextOf(g', s, chains, n, dir) == NextOf(g, s, chains, n, dir)
  {
    WrittenApart(Left, 0);
    forall n, dir | n in s.at
      ensures Linked(g', n, dir, LinksOf(s, n, dir)) && OneChains(g', LinksOf(s, n, dir), chains)
      ensures NextFrom(g', LinksOf(s, n, dir), dir, chains, 0) == NextFrom(g, LinksOf(s, n, dir), dir, chains, 0)
    {
      BesideLinks(g, g', n, dir, LinksOf(s, n, dir));
      assert OneChains(g, LinksOf(s, n, dir), chains);
      BesideNext(g, g', LinksOf(s, n, dir), dir, chains, 0);
    }
    forall n, dir, link | n in s.at && link in LinksOf(s, n, dir)
      ensures RunsHere(g', s, n, dir, link)
    {
      assert RunsHere(g, s, n, dir, link);
    }
  }

  // ---------------------------------------------------------------- collecting the names

  // A word that has lost its reference and whose string is a new, empty one.
  ghost predicate Emptied<N>(g: Graph<N>, g': Graph<N>, n: N) {
    && n in g && g[n].Features? && n in g' && g'[n].Features?
    && Step(g', n, REF).None? && Says(g', n, STR, "")
    && forall k :: k != REF && k != STR ==> Step(g', n, k) == Step(g, n, k)
  }

  // Exactly these words have been emptied; all other nodes are as they were.
  ghost predicate Erased<N>(g: Graph<N>, g': Graph<N>, words: seq<N>) {
    && Beside(g, g')
    && (forall n :: n in g && n !in words ==> g'[n] == g[n])
    && forall n :: n in words ==> Emptied(g, g', n)
  }

  lemma ErasedMore<N>(g: Graph<N>, g1: Graph<N>, g2: Graph<N>, n: N, words: seq<N>)
    requires Erased(g, g1, [n]) && Erased(g1, g2, words) && n !in words && forall m :: m in words ==> m in g
    ensures Erased(g, g2, [n] + words)
  {
    var all := [n] + words;
    assert n in [n];
    forall m | m in all
      ensures Emptied(g, g2, m)
    {
      if m == n {
        assert Emptied(g, g1, n) && g2[n] == g1[n];
      } else {
        assert m in words && Emptied(g1, g2, m);
      }
    }
  }

  // The reference of a word goes, and a new, empty string takes the place of its string.
  method EraseWord(n: FeatureNode, ghost w: NodeHeap)
    requires w.Valid() && n in w.graph && w.graph[n].Features?
    modifies w, w.graph.Keys
    ensures w.Valid() && old(w.graph.Keys) <= w.graph.Keys && fresh(w.graph.Keys - old(w.graph.Keys))
    ensures Erased(old(w.graph), w.graph, [n])
  {
    ghost var g := w.graph;
    var _ := n.Set(REF, null, w);
    var empty := CreateText("", w);
    var _ := n.Set(STR, empty, w);
    ErasedOne(g, w.graph, n, empty);
  }

  lemma ErasedOne<N>(g: Graph<N>, g': Graph<N>, n: N, empty: N)
    requires n in g && g[n].Features? && empty !in g
    requires g' == WithEdge(WithoutEdge(g, n, REF)[empty := Text(Some(""))], n, STR, empty)
    ensures Erased(g, g', [n])
  {
    WrittenApart(Left, 0);
    assert Emptied(g, g', n);
  }

  lemma {:induction false} ErasedNames<N>(g: Graph<N>, g': Graph<N>, n: N, ws: seq<N>)
    requires Erased(g, g', [n]) && ws != [] && n !in ws && AllNamed(g, ws)
    ensures AllNamed(g', ws) && JoinNames(g', ws) == JoinNames(g, ws)
  {
    assert ws[0] in ws && g'[ws[0]] == g[ws[0]];
    if |ws| > 1 {
      ErasedNames(g, g', n, ws[1..]);
      assert forall i :: 0 < i < |ws| ==> ws[i] == ws[1..][i - 1];
    }
  }

  // Walks right along a chain, joins the names, and empties all words but the last.
  method CollectNames(current: FeatureNode, rightNode: FeatureNode, chains: LabelTest, erase: bool,
                      ghost ws: seq<FeatureNode>, ghost s: Sentence<FeatureNode>, ghost w: NodeHeap)
    returns (name: string)
    requires w.Valid() && IsSentence(w.graph, s, chains) && IsChain(w.graph, s, chains, ws)
    requires ws[0] == current && ws[|ws| - 1] == rightNode && AllNamed(w.graph, ws)
    modifies w, w.graph.Keys
    ensures w.Valid() && old(w.graph.Keys) <= w.graph.Keys && fresh(w.graph.Keys - old(w.graph.Keys))
    ensures name == JoinNames(old(w.graph), ws)
    ensures Collected(old(w.graph), w.graph, ws[..|ws| - 1], erase)
    decreases |ws|, 1
  {
    ghost var g0 := w.graph;
    assert IsNamed(g0, ws[0]);
    name := ReadName(current, w);
    if |ws| > 1 {
      ChainAscends(g0, s, chains, ws, 0, |ws| - 1);
    }
    if current == rightNode {
      BesideSame(g0);
      return;
    }
    var rest := CollectRest(current, rightNode, chains, erase, ws, s, w);
    name := name + "_" + rest;
  }

  method CollectRest(current: FeatureNode, rightNode: FeatureNode, chains: LabelTest, erase: bool,
                     ghost ws: seq<FeatureNode>, ghost s: Sentence<FeatureNode>, ghost w: NodeHeap)
    returns (rest: string)
    requires w.Valid() && IsSentence(w.graph, s, chains) && IsChain(w.graph, s, chains, ws)
    requires |ws| > 1 && ws[0] == current && ws[|ws| - 1] == rightNode && AllNamed(w.graph, ws)
    modifies w, w.graph.Keys
    ensures w.Valid() && old(w.graph.Keys) <= w.graph.Keys && fresh(w.graph.Keys - old(w.graph.Keys))
    ensures rest == JoinNames(old(w.graph), ws[1..])
    ensures Collected(old(w.graph), w.graph, ws[..|ws| - 1], erase)
    decreases |ws|, 0
  {
    ghost var g0, ws1 := w.graph, ws[1..];
    var next := LeaveWord(current, chains, erase, ws, s, w);
    ghost var g1 := w.graph;
    rest := CollectNames(next, rightNode, chains, erase, ws1, s, w);
    CollectedMore(g0, g1, w.graph, ws, ws1, erase);
  }

  ghost predicate Collected<N>(g: Graph<N>, g': Graph<N>, words: seq<N>, erase: bool) {
    if erase then Erased(g, g', words) else g' == g
  }

  lemma CollectedMore<N>(g: Graph<N>, g1: Graph<N>, g2: Graph<N>, ws: seq<N>, ws1: seq<N>, erase: bool)
    requires |ws| > 1 && ws1 == ws[1..] && ws[0] !in ws1 && forall m :: m in ws1 ==> m in g
    requires Collected(g, g1, ws[..1], erase) && Collected(g1, g2, ws1[..|ws1| - 1], erase)
    ensures Collected(g, g2, ws[..|ws| - 1], erase)
  {
    var words := ws1[..|ws1| - 1];
    assert forall m :: m in words ==> m in ws1;
    assert ws[..1] == [ws[0]] && ws[..|ws| - 1] == [ws[0]] + words;
    if erase {
      ErasedMore(g, g1, g2, ws[0], words);
    }
  }

  // Empties a word, if asked to, and goes on to the next.
  method LeaveWord(current: FeatureNode, chains: LabelTest, erase: bool,
                   ghost ws: seq<FeatureNode>, ghost s: Sentence<FeatureNode>, ghost w: NodeHeap)
    returns (next: FeatureNode)
    requires w.Valid() && IsSentence(w.graph, s, chains) && IsChain(w.graph, s, chains, ws)
    requires |ws| > 1 && ws[0] == current && AllNamed(w.graph, ws)
    modifies w, w.graph.Keys
    ensures w.Valid() && old(w.graph.Keys) <= w.graph.Keys && fresh(w.graph.Keys - old(w.graph.Keys))
    ensures next == ws[1] && Collected(old(w.graph), w.graph, ws[..1], erase)
    ensures IsSentence(w.graph, s, chains) && IsChain(w.graph, s, chains, ws[1..])
    ensures AllNamed(w.graph, ws[1..])
    ensures JoinNames(w.graph, ws[1..]) == JoinNames(old(w.graph), ws[1..])
    ensures ws[0] !in ws[1..] && forall m :: m in ws[1..] ==> m in old(w.graph)
  {
    ghost var g0 := w.graph;
    assert IsNamed(g0, ws[0]) && ws[..1] == [ws[0]];
    if erase {
      EraseWord(current, w);
    }
    RestOfChain(g0, w.graph, s, chains, ws, erase);
    assert Linked(w.graph, current, Right, LinksOf(s, current, Right));
    next := NextNode(current, Right, chains, s.rights[current], w);
  }

  // Emptying the first word of a chain leaves the rest of it as it was.
  lemma RestOfChain<N>(g: Graph<N>, g1: Graph<N>, s: Sentence<N>, chains: LabelTest, ws: seq<N>, erase: bool)
    requires IsSentence(g, s, chains) && IsChain(g, s, chains, ws) && |ws| > 1 && AllNamed(g, ws)
    requires Collected(g, g1, ws[..1], erase)
    ensures IsSentence(g1, s, chains) && IsChain(g1, s, chains, ws[1..]) && AllNamed(g1, ws[1..])
    ensures JoinNames(g1, ws[1..]) == JoinNames(g, ws[1..]) && NextOf(g1, s, chains, ws[0], Right) == Some(ws[1])
    ensures ws[0] !in ws[1..] && forall m :: m in ws[1..] ==> m in g
  {
    forall i | 0 < i < |ws|
      ensures ws[i] != ws[0] && ws[i] in g
    {
      assert ws[i] in ws && IsNamed(g, ws[i]);
      ChainAscends(g, s, chains, ws, 0, i);
    }
    BesideSame(g);
    BesideSentence(g, g1, s, chains);
    forall i | 0 <= i < |ws| - 1
      ensures NextOf(g1, s, chains, ws[i], Right) == Some(ws[i + 1])
    {
    }
    if erase {
      assert ws[..1] == [ws[0]];
      ErasedNames(g, g1, ws[0], ws[1..]);
      assert forall i :: 0 < i < |ws| ==> ws[i] == ws[1..][i - 1];
    }
  }

  lemma BesideSame<N>(g: Graph<N>)
    ensures Beside(g, g)
  {
  }

  // ---------------------------------------------------------------- collapsing

  // A chain has been collapsed into its last word: that word and its reference carry the joined name, in one
  // new node, and the word knows where the chain starts and ends; exactly the other words have lost their
  // string and reference; every other node, and every original string, is as it was.
  ghost predicate Collapsed(g: Graph<FeatureNode>, g': Graph<FeatureNode>, ws: seq<FeatureNode>)
    requires ws != [] && AllNamed(g, ws)
  {
    var left, right := ws[0], ws[|ws| - 1];
    var ref := Step(g, right, REF);
    && Beside(g, g') && ref.Some?
    && (forall n :: n in g && n !in ws && n != ref.value ==> g'[n] == g[n])
    && Says(g', right, STR, JoinNames(g, ws)) && Step(g', right, REF) == ref
    && Step(g', ref.value, NAME) == Step(g', right, STR)
    && Step(g', right, COLLOCATION_START) == Some(left) && Step(g', right, COLLOCATION_END) == Some(right)
    && Step(g', right, START_CHAR) == Step(g, left, START_CHAR)
    && forall i :: 0 <= i < |ws| - 1 ==> Step(g', ws[i], REF).None? && Says(g', ws[i], STR, "")
  }

  // The name goes into one new node, under the last word and under its reference; ...
  ghost function Titled<N>(g: Graph<N>, right: N, ref: N, big: N): Graph<N>
    requires right in g && g[right].Features? && ref in g && g[ref].Features?
  {
    WithEdge(WithEdge(g, ref, NAME, big), right, STR, big)
  }

  // ... then the last word is told where the chain starts and ends.
  ghost function Placed(g: Graph<FeatureNode>, left: FeatureNode, right: FeatureNode,
                        start: FeatureNode?): Graph<FeatureNode>
    requires right in g && g[right].Features?
  {
    SetShape(WithEdge(WithEdge(g, right, COLLOCATION_END, right), right, COLLOCATION_START, left),
             right, START_CHAR, start)
  }

  method Entitle(right: FeatureNode, name: string, ghost ref: FeatureNode, ghost w: NodeHeap) returns (big: FeatureNode)
    requires w.Valid() && right in w.graph && w.graph[right].Features?
    requires Step(w.graph, right, REF) == Some(ref) && w.graph[ref].Features?
    modifies w, w.graph.Keys
    ensures w.Valid() && big !in old(w.graph) && old(w.graph.Keys) <= w.graph.Keys
            && fresh(w.graph.Keys - old(w.graph.Keys))
    ensures w.graph == Titled(old(w.graph)[big := Text(Some(name))], right, ref, big)
  {
    big := CreateText(name, w);
    assert w.Sound(right) && Step(w.graph, right, REF) == Some(ref);
    var refNode := right.kvPairs.value[REF];
    var _ := refNode.Set(NAME, big, w);
    var _ := right.Set(STR, big, w);
  }

  method Place(left: FeatureNode, right: FeatureNode, ghost w: NodeHeap)
    requires w.Valid() && left in w.graph && right in w.graph && w.graph[left].Features? && w.graph[right].Features?
    modifies w, w.graph.Keys
    ensures w.Valid()
    ensures w.graph == Placed(old(w.graph), left, right, StartOf(old(w.graph), left))
  {
    ghost var g := w.graph;
    var _ := right.Set(COLLOCATION_END, right, w);
    var _ := right.Set(COLLOCATION_START, left, w);
    assert w.Sound(left) && Step(w.graph, left, START_CHAR) == Step(g, left, START_CHAR);
    var start: FeatureNode? := if START_CHAR in left.kvPairs.value then left.kvPairs.value[START_CHAR] else null;
    var _ := right.Set(START_CHAR, start, w);
  }

  ghost function StartOf(g: Graph<FeatureNode>, left: FeatureNode): FeatureNode? {
    if Step(g, left, START_CHAR).Some? then Step(g, left, START_CHAR).value else null
  }

  lemma TitledSteps<N>(g: Graph<N>, right: N, ref: N, big: N, n: N, k: Key)
    requires right in g && g[right].Features? && ref in g && g[ref].Features?
    ensures Step(Titled(g, right, ref, big), n, k) ==
            (if (n == right && k == STR) || (n == ref && k == NAME) then Some(big) else Step(g, n, k))
    ensures n != right && n != ref && n in g ==> Titled(g, right, ref, big)[n] == g[n]
  {
  }

  lemma PlacedSteps(g: Graph<FeatureNode>, left: FeatureNode, right: FeatureNode, start: FeatureNode?, n: FeatureNode,
                    k: Key)
    requires right in g && g[right].Features?
    ensures Step(Placed(g, left, right, start), n, k) ==
            (if n != right then Step(g, n, k)
             else if k == START_CHAR then (if start == null then None else Some(start))
             else if k == COLLOCATION_END then Some(right) else if k == COLLOCATION_START then Some(left)
               else Step(g, n, k))
    ensures n != right && n in g ==> Placed(g, left, right, start)[n] == g[n]
  {
  }

  // Where a key leads once all is set.
  ghost function NewStep<N>(g: Graph<N>, left: N, right: N, ref: N, big: N, n: N, k: Key): Option<N> {
    if n == right && k == START_CHAR then Step(g, left, k)
    else if n == right && k == COLLOCATION_END then Some(right)
    else if n == right && k == COLLOCATION_START then Some(left)
    else if (n == right && k == STR) || (n == ref && k == NAME) then Some(big)
    else Step(g, n, k)
  }

  ghost predicate IsSet<N>(g: Graph<N>, g': Graph<N>, left: N, right: N, ref: N, big: N, name: string) {
    && (forall n, k :: n in g ==> Step(g', n, k) == NewStep(g, left, right, ref, big, n, k))
    && (forall n :: n in g && n != right && n != ref ==> n in g' && g'[n] == g[n])
    && (forall n :: n in g ==> n in g' && if g[n].Text? then g'[n] == g[n] else g'[n].Features?)
    && big in g' && g'[big] == Text(Some(name))
  }

  lemma BothSet(g: Graph<FeatureNode>, g': Graph<FeatureNode>, left: FeatureNode, right: FeatureNode, ref: FeatureNode,
                big: FeatureNode, name: string)
    requires right in g && g[right].Features? && ref in g && g[ref].Features? && left in g && big !in g
    requires var g2 := Titled(g[big := Text(Some(name))], right, ref, big);
              g' == Placed(g2, left, right, StartOf(g2, left))
    ensures IsSet(g, g', left, right, ref, big, name)
  {
    var g1 := g[big := Text(Some(name))];
    var g2 := Titled(g1, right, ref, big);
    TitledSteps(g1, right, ref, big, left, START_CHAR);
    TitledSteps(g1, right, ref, big, big, STR);
    PlacedSteps(g2, left, right, StartOf(g2, left), big, STR);
    forall n, k | n in g
      ensures Step(g', n, k) == NewStep(g, left, right, ref, big, n, k)
      ensures n != right && n != ref ==> g'[n] == g[n]
    {
      TitledSteps(g1, right, ref, big, n, k);
      PlacedSteps(g2, left, right, StartOf(g2, left), n, k);
    }
  }

  method Dress(left: FeatureNode, right: FeatureNode, name: string, ghost ref: FeatureNode,
               ghost w: NodeHeap) returns (ghost big: FeatureNode)
    requires w.Valid() && left in w.graph && right in w.graph && w.graph[left].Features? && w.graph[right].Features?
    requires Step(w.graph, right, REF) == Some(ref) && ref in w.graph && w.graph[ref].Features?
    modifies w, w.graph.Keys
    ensures w.Valid() && IsSet(old(w.graph), w.graph, left, right, ref, big, name)
  {
    ghost var g := w.graph;
    big := Entitle(right, name, ref, w);
    Place(left, right, w);
    BothSet(g, w.graph, left, right, ref, big, name);
  }

  // The words emptied and the last one dressed.
  ghost predicate EmptiedAndSet<N>(g: Graph<N>, g1: Graph<N>, g': Graph<N>, ws: seq<N>, ref: N, big: N, name: string)
    requires ws != []
  {
    var left, right := ws[0], ws[|ws| - 1];
    && right !in ws[..|ws| - 1] && right in g && left in g && Step(g, right, REF) == Some(ref)
    && Erased(g, g1, ws[..|ws| - 1]) && IsSet(g1, g', left, right, ref, big, name)
  }

  lemma SetBeside<N>(g: Graph<N>, g1: Graph<N>, g': Graph<N>, ws: seq<N>, ref: N, big: N, name: string)
    requires ws != [] && EmptiedAndSet(g, g1, g', ws, ref, big, name)
    ensures Beside(g, g')
  {
  }

  lemma SetWords<N>(g: Graph<N>, g1: Graph<N>, g': Graph<N>, ws: seq<N>, ref: N, big: N, name: string, i: nat)
    requires i < |ws| - 1 && EmptiedAndSet(g, g1, g', ws, ref, big, name)
    ensures Step(g', ws[i], REF).None? && Says(g', ws[i], STR, "")
  {
    assert ws[i] in ws[..|ws| - 1];
    assert Emptied(g, g1, ws[i]);
  }

  lemma SetLast<N>(g: Graph<N>, g1: Graph<N>, g': Graph<N>, ws: seq<N>, ref: N, big: N, name: string)
    requires ws != [] && EmptiedAndSet(g, g1, g', ws, ref, big, name) && ref in g
    ensures var left, right := ws[0], ws[|ws| - 1];
      && Says(g', right, STR, name) && Step(g', right, REF) == Some(ref) && Step(g', ref, NAME) == Step(g', right, STR)
      && Step(g', right, COLLOCATION_START) == Some(left) && Step(g', right, COLLOCATION_END) == Some(right)
      && Step(g', right, START_CHAR) == Step(g, left, START_CHAR)
  {
    var left, right := ws[0], ws[|ws| - 1];
    assert g1[right] == g[right];
    assert Step(g1, left, START_CHAR) == Step(g, left, START_CHAR) by {
      if left in ws[..|ws| - 1] {
        assert Emptied(g, g1, left);
      }
    }
  }

  lemma SetIsCollapsed(g: Graph<FeatureNode>, g1: Graph<FeatureNode>, g': Graph<FeatureNode>, ws: seq<FeatureNode>,
                       ref: FeatureNode, big: FeatureNode)
    requires ws != [] && AllNamed(g, ws) && ref in g && EmptiedAndSet(g, g1, g', ws, ref, big, JoinNames(g, ws))
    ensures Collapsed(g, g', ws)
  {
    var name := JoinNames(g, ws);
    SetBeside(g, g1, g', ws, ref, big, name);
    SetLast(g, g1, g', ws, ref, big, name);
    forall i: nat | i < |ws| - 1
      ensures Step(g', ws[i], REF).None? && Says(g', ws[i], STR, "")
    {
      SetWords(g, g1, g', ws, ref, big, name, i);
    }
    assert forall n :: n in g && n !in ws ==> n !in ws[..|ws| - 1] && n != ws[|ws| - 1];
  }

  // The algorithm, on a link whose right word the template has found.
  method ApplyTo(node: FeatureNode, rightNode: FeatureNode, chains: LabelTest, ghost s: Sentence<FeatureNode>,
                 ghost w: NodeHeap)
    returns (o: Outcome, ghost ws: seq<FeatureNode>)
    requires w.Valid() && IsSentence(w.graph, s, chains) && node in w.graph && w.graph[node].Features?
             && rightNode in s.at
    requires forall n :: n in s.at ==> n in w.graph && IsNamed(w.graph, n)
    requires var ref := Step(w.graph, rightNode, REF); ref.Some? && ref.value in w.graph && w.graph[ref.value].Features?
    modifies w, w.graph.Keys
    ensures w.Valid()
    ensures o.Threw? <==> Step(old(w.graph), node, RIGHT_END) != Some(rightNode)
    ensures o.Threw? || old(NextOf(w.graph, s, chains, rightNode, Right)).Some? ==> w.graph == old(w.graph)
    ensures o.Ok? && old(NextOf(w.graph, s, chains, rightNode, Right)).None? ==>
              && IsChain(old(w.graph), s, chains, ws) && ws[|ws| - 1] == rightNode
              && NextOf(old(w.graph), s, chains, ws[0], Left).None?
              && AllNamed(old(w.graph), ws) && Collapsed(old(w.graph), w.graph, ws)
  {
    ws := [];
    ghost var g0 := w.graph;
    assert w.Sound(node);
    if RIGHT_END !in node.kvPairs.value || node.kvPairs.value[RIGHT_END] != rightNode {
      return Threw, ws;
    }
    o := Ok;
    assert Linked(g0, rightNode, Right, LinksOf(s, rightNode, Right));
    var further := NextNode(rightNode, Right, chains, s.rights[rightNode], w);
    if further != null {
      return;
    }
    var leftNode;
    leftNode, ws := GetLeftMost(rightNode, chains, s, w);
    Collapse(leftNode, rightNode, chains, ws, s, w);
  }

  method Collapse(leftNode: FeatureNode, rightNode: FeatureNode, chains: LabelTest,
                  ghost ws: seq<FeatureNode>, ghost s: Sentence<FeatureNode>, ghost w: NodeHeap)
    requires w.Valid() && IsSentence(w.graph, s, chains) && IsChain(w.graph, s, chains, ws) && AllNamed(w.graph, ws)
    requires ws[0] == leftNode && ws[|ws| - 1] == rightNode
    requires var ref := Step(w.graph, rightNode, REF); ref.Some? && ref.value in w.graph && w.graph[ref.value].Features?
    modifies w, w.graph.Keys
    ensures w.Valid() && Collapsed(old(w.graph), w.graph, ws)
  {
    ghost var g0 := w.graph;
    LastIsApart(g0, s, chains, ws);
    var bigName := CollectNames(leftNode, rightNode, chains, true, ws, s, w);
    ghost var g1 := w.graph;
    ghost var ref := Step(g0, rightNode, REF).value;
    assert IsNamed(g0, ws[0]) && IsNamed(g0, ws[|ws| - 1]) && g1[rightNode] == g0[rightNode];
    ghost var big := Dress(leftNode, rightNode, bigName, ref, w);
    SetIsCollapsed(g0, g1, w.graph, ws, ref, big);
  }

  lemma LastIsApart<N>(g: Graph<N>, s: Sentence<N>, chains: LabelTest, ws: seq<N>)
    requires IsSentence(g, s, chains) && IsChain(g, s, chains, ws)
    ensures ws[|ws| - 1] !in ws[..|ws| - 1]
  {
    forall i | 0 <= i < |ws| - 1
      ensures ws[i] != ws[|ws| - 1]
    {
      ChainAscends(g, s, chains, ws, i, |ws| - 1);
    }
  }
}