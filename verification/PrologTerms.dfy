// The terms that stand for feature graphs in Prolog output, the tokens that spell them, and how often a term
// writes out or refers to each node.
module PrologTerms {
  import opened Prelude
  import opened FeatureGraph
  import opened Traversals
  import opened NodeIndices

  datatype Token =
    | Open(index: nat)
    | Close
    | Tail(index: nat)
    | Name(key: Key)
    | Ref(index: nat)
    | Quote(text: string)
    | Comma

  // What the tokens spell.
  datatype Term = Quoted(text: string) | Back(index: nat) | Block(index: nat, fields: seq<Field>)
  datatype Field = Field(key: Key, term: Term)

  ghost function Render(t: Term): seq<Token> {
    match t
    case Quoted(text) => [Quote(text)]
    case Back(index) => [Ref(index)]
    case Block(index, fields) =>
      if fields == [] then [Open(index), Close]
      else var inner := RenderFields(fields); [Open(index)] + inner[..|inner| - 1] + [Tail(index)]
  }

  // The fields, a comma after each.
  ghost function RenderFields(fields: seq<Field>): (r: seq<Token>)
    ensures fields != [] ==> r != [] && r[|r| - 1] == Comma
  {
    if fields == [] then []
    else
      var l := |fields| - 1;
      RenderFields(fields[..l]) + [Name(fields[l].key)] + Render(fields[l].term) + [Comma]
  }

  lemma RenderFieldsMore(fields: seq<Field>, f: Field)
    ensures RenderFields(fields + [f]) == RenderFields(fields) + [Name(f.key)] + Render(f.term) + [Comma]
  {
    assert (fields + [f])[..|fields|] == fields;
  }

  // The last comma makes room for the end of the block.
  lemma RenderBlock(out0: seq<Token>, out: seq<Token>, index: nat, fields: seq<Field>)
    requires fields != [] && out == out0 + [Open(index)] + RenderFields(fields)
    ensures out[..|out| - 1] + [Comma] == out
    ensures out[..|out| - 1] + [Tail(index)] == out0 + Render(Block(index, fields))
  {
    var inner := RenderFields(fields);
    assert out[..|out| - 1] == out0 + [Open(index)] + inner[..|inner| - 1];
  }

  // ---------------------------------------------------------------- reading it back

  // Reads one term off the front; the rest is left.
  function ReadTerm(ts: seq<Token>): (r: Option<(Term, seq<Token>)>)
    ensures r.Some? ==> |r.value.1| < |ts|
    decreases |ts|, 0
  {
    if ts == [] then None
    else match ts[0]
      case Quote(text) => Some((Quoted(text), ts[1..]))
      case Ref(index) => Some((Back(index), ts[1..]))
      case Open(index) =>
        if |ts| > 1 && ts[1].Close? then Some((Block(index, []), ts[2..]))
        else
          (match ReadFields(index, [], ts[1..])
           case None => None
           case Some((fields, rest)) => Some((Block(index, fields), rest)))
      case _ => None
  }

  // Reads the fields of the block of this index that are still to come, and its end.
  function ReadFields(index: nat, fields: seq<Field>, ts: seq<Token>): (r: Option<(seq<Field>, seq<Token>)>)
    ensures r.Some? ==> |r.value.1| < |ts|
    decreases |ts|, 1
  {
    if ts == [] || !ts[0].Name? then None
    else match ReadTerm(ts[1..])
      case None => None
      case Some((term, rest)) =>
        var more := fields + [Field(ts[0].key, term)];
        if rest == [] then None
        else if rest[0] == Tail(index) then Some((more, rest[1..]))
        else if rest[0] == Comma then ReadFields(index, more, rest[1..])
        else None
  }

  // What a term is written as can be read back, and only as that term.
  lemma {:induction false} ReadsBack(t: Term, rest: seq<Token>)
    ensures ReadTerm(Render(t) + rest) == Some((t, rest))
    decreases t
  {
    match t
    case Quoted(_) =>
    case Back(_) =>
    case Block(index, fields) =>
      if fields == [] {
        assert (Render(t) + rest)[2..] == rest;
      } else {
        var l, f := |fields| - 1, fields[|fields| - 1];
        var last := [Name(f.key)] + (Render(f.term) + ([Tail(index)] + rest));
        BlockTokens(index, fields, rest);
        ReadsFieldsBack(index, fields[..l], last);
        ReadsBack(f.term, [Tail(index)] + rest);
        ReadsLast(index, fields[..l], f, rest);
        assert fields[..l] + [f] == fields;
        ReadsBlock(index, RenderFields(fields[..l]) + last, fields, rest);
      }
  }

  lemma BlockTokens(index: nat, fields: seq<Field>, rest: seq<Token>)
    requires fields != []
    ensures var l, f := |fields| - 1, fields[|fields| - 1];
      Render(Block(index, fields)) + rest ==
      [Open(index)] + (RenderFields(fields[..l]) + ([Name(f.key)] + (Render(f.term) + ([Tail(index)] + rest))))
  {
    var l, f := |fields| - 1, fields[|fields| - 1];
    var inner, before := RenderFields(fields), RenderFields(fields[..l]);
    assert inner[..|inner| - 1] == before + [Name(f.key)] + Render(f.term);
    Chained([Open(index)], before, [Name(f.key)], Render(f.term), [Tail(index)], rest);
  }

  lemma Chained<T>(a: seq<T>, b: seq<T>, c: seq<T>, d: seq<T>, e: seq<T>, f: seq<T>)
    ensures a + (b + c + d) + e + f == a + (b + (c + (d + (e + f))))
  {
  }

  lemma ReadsBlock(index: nat, ts: seq<Token>, fields: seq<Field>, rest: seq<Token>)
    requires ReadFields(index, [], ts) == Some((fields, rest))
    ensures ReadTerm([Open(index)] + ts) == Some((Block(index, fields), rest))
  {
    assert ([Open(index)] + ts)[1..] == ts;
  }

  lemma ReadsLast(index: nat, fields: seq<Field>, f: Field, rest: seq<Token>)
    requires ReadTerm(Render(f.term) + ([Tail(index)] + rest)) == Some((f.term, [Tail(index)] + rest))
    ensures ReadFields(index, fields, [Name(f.key)] + (Render(f.term) + ([Tail(index)] + rest))) ==
            Some((fields + [f], rest))
  {
    var ts := [Name(f.key)] + (Render(f.term) + ([Tail(index)] + rest));
    assert ts[1..] == Render(f.term) + ([Tail(index)] + rest);
    assert ([Tail(index)] + rest)[1..] == rest;
  }

  lemma ReadsOne(index: nat, fields: seq<Field>, f: Field, rest: seq<Token>)
    requires ReadTerm(Render(f.term) + ([Comma] + rest)) == Some((f.term, [Comma] + rest))
    ensures ReadFields(index, fields, [Name(f.key)] + (Render(f.term) + ([Comma] + rest))) ==
            ReadFields(index, fields + [f], rest)
  {
    var ts := [Name(f.key)] + (Render(f.term) + ([Comma] + rest));
    assert ts[1..] == Render(f.term) + ([Comma] + rest);
    assert ([Comma] + rest)[1..] == rest;
  }

  // Fields that are followed by others.
  lemma {:induction false} ReadsFieldsBack(index: nat, fields: seq<Field>, rest: seq<Token>)
    ensures ReadFields(index, [], RenderFields(fields) + rest) == ReadFields(index, fields, rest)
    decreases fields
  {
    if fields == [] {
      assert RenderFields(fields) + rest == rest;
    } else {
      var l, f := |fields| - 1, fields[|fields| - 1];
      var one := [Name(f.key)] + (Render(f.term) + ([Comma] + rest));
      assert RenderFields(fields) + rest == RenderFields(fields[..l]) + one;
      ReadsFieldsBack(index, fields[..l], one);
      ReadsBack(f.term, [Comma] + rest);
      ReadsOne(index, fields[..l], f, rest);
      assert fields[..l] + [f] == fields;
    }
  }

  // The term shows the node: a text by itself, a node with features by its index and its kept features, each
  // of which is shown or referred to.
  ghost predicate Depicts<N>(g: Graph<N>, keep: Key -> bool, lower: string -> string, idx: map<N, nat>, n: N, t: Term)
    decreases t, 0
  {
    n in g &&
    match t
    case Quoted(text) => g[n].Text? && g[n].text.Some? && text == lower(g[n].text.value)
    case Back(_) => false
    case Block(index, fields) =>
      && g[n].Features? && n in idx && index == idx[n]
      && (forall i, j :: 0 <= i < j < |fields| ==> fields[i].key != fields[j].key)
      && (forall k :: k in g[n].kv && keep(k) ==> exists i :: 0 <= i < |fields| && fields[i].key == k)
      && forall i :: 0 <= i < |fields| ==>
           fields[i].key in g[n].kv && keep(fields[i].key) &&
               Shows(g, keep, lower, idx, g[n].kv[fields[i].key], fields[i].term)
  }

  ghost predicate Shows<N>(g: Graph<N>, keep: Key -> bool, lower: string -> string, idx: map<N, nat>, n: N, t: Term)
    decreases t, 1
  {
    match t
    case Back(index) => n in idx && index == idx[n]
    case _ => Depicts(g, keep, lower, idx, n, t)
  }

  ghost predicate Grows<N>(idx: map<N, nat>, idx': map<N, nat>) {
    forall n :: n in idx ==> n in idx' && idx'[n] == idx[n]
  }

  lemma {:induction false} ShowsMore<N>(g: Graph<N>, keep: Key -> bool, lower: string -> string,
                                        idx: map<N, nat>, idx': map<N, nat>, n: N, t: Term)
    requires Grows(idx, idx') && Shows(g, keep, lower, idx, n, t)
    ensures Shows(g, keep, lower, idx', n, t)
    decreases t
  {
    if t.Block? {
      forall i | 0 <= i < |t.fields|
        ensures Shows(g, keep, lower, idx', g[n].kv[t.fields[i].key], t.fields[i].term)
      {
        ShowsMore(g, keep, lower, idx, idx', g[n].kv[t.fields[i].key], t.fields[i].term);
      }
    }
  }

  // ---------------------------------------------------------------- what a term writes out and refers to

  // The nodes that a term which stands for n writes out, as often as it does.
  ghost function Written<N>(g: Graph<N>, n: N, t: Term): multiset<N>
    decreases t
  {
    match t
    case Quoted(_) => multiset{n}
    case Back(_) => multiset{}
    case Block(_, fields) => multiset{n} + WrittenBelow(g, n, fields)
  }

  ghost function WrittenBelow<N>(g: Graph<N>, n: N, fields: seq<Field>): multiset<N>
    decreases fields
  {
    if fields == [] then multiset{}
    else
      var l := |fields| - 1;
      WrittenBelow(g, n, fields[..l]) +
      match Step(g, n, fields[l].key) case None => multiset{} case Some(c) => Written(g, c, fields[l].term)
  }

  // The nodes that it refers to, as often as it does.
  ghost function Referred<N>(g: Graph<N>, n: N, t: Term): multiset<N>
    decreases t
  {
    match t
    case Quoted(_) => multiset{}
    case Back(_) => multiset{n}
    case Block(_, fields) => ReferredBelow(g, n, fields)
  }

  ghost function ReferredBelow<N>(g: Graph<N>, n: N, fields: seq<Field>): multiset<N>
    decreases fields
  {
    if fields == [] then multiset{}
    else
      var l := |fields| - 1;
      ReferredBelow(g, n, fields[..l]) +
      match Step(g, n, fields[l].key) case None => multiset{} case Some(c) => Referred(g, c, fields[l].term)
  }

  lemma WrittenBelowMore<N>(g: Graph<N>, n: N, fields: seq<Field>, f: Field)
    requires Step(g, n, f.key).Some?
    ensures WrittenBelow(g, n, fields + [f]) == WrittenBelow(g, n, fields) + Written(g, Step(g, n, f.key).value, f.term)
  {
    assert (fields + [f])[..|fields|] == fields;
  }

  // What comes in from v0 to v1 and then to v2, each once.
  lemma NewOnce<N>(v0: set<N>, v1: set<N>, v2: set<N>)
    requires v0 <= v1 <= v2
    ensures multiset(v1 - v0) + multiset(v2 - v1) == multiset(v2 - v0)
  {
    assert v2 - v0 == (v1 - v0) + (v2 - v1);
  }

  // ---------------------------------------------------------------- counting

  ghost predicate Once<N>(ms: multiset<N>) {
    forall x :: x in ms ==> ms[x] == 1
  }

  // The followed edges from these nodes to m.
  ghost function EdgesInto<N>(g: Graph<N>, keep: Key -> bool, from: multiset<N>, m: N): set<Arrival<N>> {
    set p, k | p in from && k in KeysOf(g, p) && keep(k) && g[p].kv[k] == m :: ByEdge(p, k)
  }

  // The edges from n to m by the keys of these fields.
  ghost function FieldEdges<N>(g: Graph<N>, n: N, fields: seq<Field>, m: N): set<Arrival<N>> {
    set i | 0 <= i < |fields| && Step(g, n, fields[i].key) == Some(m) :: ByEdge(n, fields[i].key)
  }

  lemma EdgesSplit<N>(g: Graph<N>, keep: Key -> bool, a: multiset<N>, b: multiset<N>, m: N)
    requires Once(a + b)
    ensures EdgesInto(g, keep, a + b, m) == EdgesInto(g, keep, a, m) + EdgesInto(g, keep, b, m)
    ensures |EdgesInto(g, keep, a + b, m)| == |EdgesInto(g, keep, a, m)| + |EdgesInto(g, keep, b, m)|
  {
    var ea, eb := EdgesInto(g, keep, a, m), EdgesInto(g, keep, b, m);
    forall x | x in a
      ensures x !in b
    {
      assert x in a + b && (a + b)[x] == a[x] + b[x];
    }
    assert ea !! eb;
    assert EdgesInto(g, keep, a + b, m) == ea + eb;
  }

  ghost predicate FieldsFit<N>(g: Graph<N>, keep: Key -> bool, lower: string -> string, idx: map<N, nat>, n: N,
                               fields: seq<Field>) {
    && (forall i, j :: 0 <= i < j < |fields| ==> fields[i].key != fields[j].key)
    && forall i :: 0 <= i < |fields| ==>
         fields[i].key in KeysOf(g, n) && keep(fields[i].key) &&
             Shows(g, keep, lower, idx, g[n].kv[fields[i].key], fields[i].term)
  }

  lemma FieldEdgesMore<N>(g: Graph<N>, n: N, fields: seq<Field>, m: N)
    requires fields != [] && forall i, j :: 0 <= i < j < |fields| ==> fields[i].key != fields[j].key
    ensures |FieldEdges(g, n, fields, m)| ==
            |FieldEdges(g, n, fields[..|fields| - 1], m)| +
                if Step(g, n, fields[|fields| - 1].key) == Some(m) then 1 else 0
  {
    var l := |fields| - 1;
    var e := ByEdge(n, fields[l].key);
    assert e !in FieldEdges(g, n, fields[..l], m);
    assert FieldEdges(g, n, fields, m) ==
           FieldEdges(g, n, fields[..l], m) + if Step(g, n, fields[l].key) == Some(m) then {e} else {};
  }

  lemma BlockEdges<N>(g: Graph<N>, keep: Key -> bool, lower: string -> string, idx: map<N, nat>, n: N, t: Term, m: N)
    requires t.Block? && Depicts(g, keep, lower, idx, n, t)
    ensures EdgesInto(g, keep, multiset{n}, m) == FieldEdges(g, n, t.fields, m)
  {
    forall k | k in KeysOf(g, n) && keep(k) && g[n].kv[k] == m
      ensures ByEdge(n, k) in FieldEdges(g, n, t.fields, m)
    {
      var i :| 0 <= i < |t.fields| && t.fields[i].key == k;
      assert Step(g, n, t.fields[i].key) == Some(m);
    }
  }

  // A node is written out or referred to once for every edge to it from a node written out, and the node
  // that the term stands for once more.
  lemma {:induction false} TermCounts<N>(g: Graph<N>, keep: Key -> bool, lower: string -> string, idx: map<N, nat>,
                                         n: N, t: Term, m: N)
    requires Shows(g, keep, lower, idx, n, t) && Once(Written(g, n, t))
    ensures |EdgesInto(g, keep, Written(g, n, t), m)| + (if m == n then 1 else 0) ==
            Written(g, n, t)[m] + Referred(g, n, t)[m]
    decreases t
  {
    match t
    case Quoted(_) =>
      assert EdgesInto(g, keep, Written(g, n, t), m) == {};
    case Back(_) =>
      assert EdgesInto(g, keep, Written(g, n, t), m) == {};
    case Block(_, fields) =>
      OnceParts(multiset{n}, WrittenBelow(g, n, fields));
      FieldsCount(g, keep, lower, idx, n, fields, m);
      EdgesSplit(g, keep, multiset{n}, WrittenBelow(g, n, fields), m);
      BlockEdges(g, keep, lower, idx, n, t, m);
  }

  lemma {:induction false} FieldsCount<N>(g: Graph<N>, keep: Key -> bool, lower: string -> string, idx: map<N, nat>,
                                          n: N, fields: seq<Field>, m: N)
    requires FieldsFit(g, keep, lower, idx, n, fields) && Once(WrittenBelow(g, n, fields))
    ensures |EdgesInto(g, keep, WrittenBelow(g, n, fields), m)| + |FieldEdges(g, n, fields, m)| ==
            WrittenBelow(g, n, fields)[m] + ReferredBelow(g, n, fields)[m]
    decreases fields
  {
    if fields == [] {
      assert EdgesInto(g, keep, WrittenBelow(g, n, fields), m) == {};
    } else {
      var l := |fields| - 1;
      var c := g[n].kv[fields[l].key];
      var a, b := WrittenBelow(g, n, fields[..l]), Written(g, c, fields[l].term);
      assert WrittenBelow(g, n, fields) == a + b;
      OnceParts(a, b);
      FieldsCount(g, keep, lower, idx, n, fields[..l], m);
      TermCounts(g, keep, lower, idx, c, fields[l].term, m);
      EdgesSplit(g, keep, a, b, m);
      FieldEdgesMore(g, n, fields, m);
    }
  }

  lemma OnceParts<N>(a: multiset<N>, b: multiset<N>)
    requires Once(a + b)
    ensures Once(a) && Once(b)
  {
    forall x | x in a || x in b
      ensures a[x] + b[x] == 1
    {
      assert x in a + b && (a + b)[x] == a[x] + b[x];
    }
  }

  lemma WayIsEdge<N>(g: Graph<N>, keep: Key -> bool, root: N, n: N, a: Arrival<N>)
    ensures a in WaysTo(g, keep, root, n) <==>
            a in EdgesInto(g, keep, multiset(Reach(g, keep, root)), n) || (a == AtRoot && n == root)
  {
    assert a.ByEdge? ==> (a.from in multiset(Reach(g, keep, root)) <==> a.from in Reach(g, keep, root));
  }

  lemma OneMore<T>(s: set<T>, s': set<T>, x: T, more: bool)
    requires x !in s && forall y :: y in s' <==> y in s || (y == x && more)
    ensures |s'| == |s| + if more then 1 else 0
  {
    assert s' == s + if more then {x} else {};
  }

  lemma WaysAreEdges<N>(g: Graph<N>, keep: Key -> bool, root: N, n: N)
    ensures |WaysTo(g, keep, root, n)| ==
            |EdgesInto(g, keep, multiset(Reach(g, keep, root)), n)| + if n == root then 1 else 0
  {
    forall a
      ensures a in WaysTo(g, keep, root, n) <==>
              a in EdgesInto(g, keep, multiset(Reach(g, keep, root)), n) || (a == AtRoot && n == root)
    {
      WayIsEdge(g, keep, root, n, a);
    }
    OneMore(EdgesInto(g, keep, multiset(Reach(g, keep, root)), n), WaysTo(g, keep, root, n), AtRoot, n == root);
  }

  // If every node that can be reached is written out exactly once, a node is referred to once for every way
  // to come to it but one.
  lemma ReferencesCount<N>(g: Graph<N>, keep: Key -> bool, lower: string -> string, idx: map<N, nat>, root: N, t: Term,
                           n: N)
    requires Depicts(g, keep, lower, idx, root, t) && Written(g, root, t) == multiset(Reach(g, keep, root))
    requires n in Reach(g, keep, root)
    ensures |WaysTo(g, keep, root, n)| == 1 + Referred(g, root, t)[n]
  {
    var reach := Reach(g, keep, root);
    TermCounts(g, keep, lower, idx, root, t, n);
    WaysAreEdges(g, keep, root, n);
    assert multiset(reach)[n] == 1;
  }

  // ---------------------------------------------------------------- references in the output

  ghost predicate RefersTo<N>(idx: map<N, nat>, ms: multiset<N>, i: nat) {
    exists m :: m in ms && m in idx && idx[m] == i
  }

  lemma RefersToEither<N>(idx: map<N, nat>, a: multiset<N>, b: multiset<N>, i: nat)
    ensures RefersTo(idx, a + b, i) <==> RefersTo(idx, a, i) || RefersTo(idx, b, i)
  {
    assert forall m :: m in a + b <==> m in a || m in b;
  }

  lemma {:induction false} RefsRendered<N>(g: Graph<N>, keep: Key -> bool, lower: string -> string, idx: map<N, nat>,
                                           n: N, t: Term, i: nat)
    requires Shows(g, keep, lower, idx, n, t)
    ensures Ref(i) in Render(t) <==> RefersTo(idx, Referred(g, n, t), i)
    decreases t
  {
    match t
    case Quoted(_) =>
    case Back(index) =>
      assert index == i ==> n in Referred(g, n, t);
    case Block(index, fields) =>
      FieldRefsRendered(g, keep, lower, idx, n, fields, i);
      if fields != [] {
        var inner := RenderFields(fields);
        assert inner == inner[..|inner| - 1] + [Comma];
      }
  }

  lemma {:induction false} FieldRefsRendered<N>(g: Graph<N>, keep: Key -> bool, lower: string -> string,
                                                idx: map<N, nat>, n: N, fields: seq<Field>, i: nat)
    requires FieldsFit(g, keep, lower, idx, n, fields)
    ensures Ref(i) in RenderFields(fields) <==> RefersTo(idx, ReferredBelow(g, n, fields), i)
    decreases fields
  {
    if fields != [] {
      var l := |fields| - 1;
      assert fields[l].key in KeysOf(g, n);
      var c := g[n].kv[fields[l].key];
      FieldRefsRendered(g, keep, lower, idx, n, fields[..l], i);
      RefsRendered(g, keep, lower, idx, c, fields[l].term, i);
      var a, b := ReferredBelow(g, n, fields[..l]), Referred(g, c, fields[l].term);
      assert ReferredBelow(g, n, fields) == a + b;
      RefersToEither(idx, a, b, i);
    }
  }

  // Some reference is to an index under which nothing is written out.
  ghost predicate Dangles(out: seq<Token>) {
    exists i: nat :: Ref(i) in out && Open(i) !in out
  }

  // The output of a graph whose reachable nodes are all written out once has such a reference if and only if
  // some text can be come to in more than one way.
  lemma DanglesExactly<N>(g: Graph<N>, keep: Key -> bool, lower: string -> string, idx: map<N, nat>, root: N, t: Term)
    requires Depicts(g, keep, lower, idx, root, t) && Written(g, root, t) == multiset(Reach(g, keep, root))
    requires Numbering(idx) && idx.Keys == Reach(g, keep, root)
    requires forall n :: n in idx ==> (Open(idx[n]) in Render(t) <==> g[n].Features?)
    ensures Dangles(Render(t)) <==>
            exists n :: n in Reach(g, keep, root) && g[n].Text? && |WaysTo(g, keep, root, n)| >= 2
  {
    if Dangles(Render(t)) {
      var i: nat :| Ref(i) in Render(t) && Open(i) !in Render(t);
      RefsRendered(g, keep, lower, idx, root, t, i);
      var n :| n in Referred(g, root, t) && n in idx && idx[n] == i;
      ReferencesCount(g, keep, lower, idx, root, t, n);
    }
    if n :| n in Reach(g, keep, root) && g[n].Text? && |WaysTo(g, keep, root, n)| >= 2 {
      ReferencesCount(g, keep, lower, idx, root, t, n);
      RefsRendered(g, keep, lower, idx, root, t, idx[n]);
      assert RefersTo(idx, Referred(g, root, t), idx[n]);
    }
  }

  // A node two of whose keys lead to one text.
  ghost function SharedText(): Graph<nat> {
    map[0 := Features(map["a" := 1, "b" := 1]), 1 := Text(Some("t"))]
  }

  lemma SharedTextReached()
    ensures Reach(SharedText(), EveryKey, 0) == {0, 1} && |WaysTo(SharedText(), EveryKey, 0, 1)| >= 2
  {
    var g := SharedText();
    ReachesItself(g, EveryKey, 0);
    ReachesItself(g, EveryKey, 1);
    ReachesOn(g, EveryKey, 0, "a", 1);
    assert "a" != "b" && "a" in KeysOf(g, 0) && "b" in KeysOf(g, 0);
    var ways := WaysTo(g, EveryKey, 0, 1);
    assert {ByEdge(0, "a"), ByEdge(0, "b")} <= ways;
    assert ways == {ByEdge(0, "a"), ByEdge(0, "b")} + (ways - {ByEdge(0, "a"), ByEdge(0, "b")});
  }

  // It is written out, but not under the index by which the other key refers to it.
  lemma SharedTextDangles(lower: string -> string, idx: map<nat, nat>, t: Term)
    requires Depicts(SharedText(), EveryKey, lower, idx, 0, t)
    requires Written(SharedText(), 0, t) == multiset(Reach(SharedText(), EveryKey, 0))
    requires Numbering(idx) && idx.Keys == Reach(SharedText(), EveryKey, 0)
    requires forall n :: n in idx ==> (Open(idx[n]) in Render(t) <==> SharedText()[n].Features?)
    ensures Dangles(Render(t))
  {
    SharedTextReached();
    DanglesExactly(SharedText(), EveryKey, lower, idx, 0, t);
  }

  ghost function SharedTextFields(lower: string -> string): seq<Field> {
    [Field("a", Quoted(lower("t"))), Field("b", Back(1))]
  }

  lemma SharedTextDepicted(lower: string -> string)
    ensures Depicts(SharedText(), EveryKey, lower, map[0 := 0, 1 := 1], 0, Block(0, SharedTextFields(lower)))
  {
    var g, idx, fields := SharedText(), map[0 := 0, 1 := 1], SharedTextFields(lower);
    assert "a" != "b" && g[0].kv.Keys == {"a", "b"};
    assert Shows(g, EveryKey, lower, idx, 1, fields[0].term) && Shows(g, EveryKey, lower, idx, 1, fields[1].term);
    assert fields[0].key == "a" && fields[1].key == "b";
  }

  lemma SharedTextWritten(lower: string -> string)
    ensures Written(SharedText(), 0, Block(0, SharedTextFields(lower))) == multiset{0, 1}
  {
    var a, b := Field("a", Quoted(lower("t"))), Field("b", Back(1));
    assert SharedTextFields(lower) == [a] + [b] && [a] == [] + [a];
    WrittenBelowMore(SharedText(), 0, [], a);
    WrittenBelowMore(SharedText(), 0, [a], b);
  }

  lemma SharedTextTokens(lower: string -> string)
    ensures RenderFields(SharedTextFields(lower)) ==
            [Name("a"), Quote(lower("t")), Comma, Name("b"), Ref(1), Comma]
  {
    var a, b := Field("a", Quoted(lower("t"))), Field("b", Back(1));
    assert SharedTextFields(lower) == [a] + [b] && [a] == [] + [a];
    RenderFieldsMore([], a);
    assert RenderFields([a]) == [Name("a"), Quote(lower("t")), Comma];
    RenderFieldsMore([a], b);
  }

  // That output, with the first key first.
  lemma SharedTextPrinted(lower: string -> string)
    ensures Render(Block(0, SharedTextFields(lower))) ==
            [Open(0), Name("a"), Quote(lower("t")), Comma, Name("b"), Ref(1), Tail(0)]
    ensures Dangles(Render(Block(0, SharedTextFields(lower))))
  {
    SharedTextTokens(lower);
    assert RenderFields(SharedTextFields(lower))[..5] == [Name("a"), Quote(lower("t")), Comma, Name("b"), Ref(1)];
    assert Render(Block(0, SharedTextFields(lower)))[5] == Ref(1);
  }
}
