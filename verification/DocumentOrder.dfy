// Document order: the comparator for browsers that cannot compare positions, and the removal of duplicates
// from what it has sorted.
module DocumentOrder {
  import opened Prelude

  // ---------------------------------------------------------------- trees and their pointers

  datatype Tree<N> = Node(id: N, kids: seq<Tree<N>>)

  // What the comparator sees of the nodes: pointers, absent where there is no such node.
  datatype Dom<!N> = Dom(parentNode: map<N, N>, nextSibling: map<N, N>)

  function Follow<N>(pointers: map<N, N>, n: N): Option<N> {
    if n in pointers then Some(pointers[n]) else None
  }

  // The position of a node: the child to go to at each level.
  predicate IsPath<N>(t: Tree<N>, p: seq<nat>)
    decreases |p|
  {
    p == [] || (p[0] < |t.kids| && IsPath(t.kids[p[0]], p[1..]))
  }

  function At<N>(t: Tree<N>, p: seq<nat>): Tree<N>
    requires IsPath(t, p)
    decreases |p|
  {
    if p == [] then t else At(t.kids[p[0]], p[1..])
  }

  function Id<N>(t: Tree<N>, p: seq<nat>): N
    requires IsPath(t, p)
  {
    At(t, p).id
  }

  lemma {:induction false} ChildPath<N>(t: Tree<N>, p: seq<nat>, i: nat)
    requires IsPath(t, p)
    ensures IsPath(t, p + [i]) <==> i < |At(t, p).kids|
    ensures i < |At(t, p).kids| ==> At(t, p + [i]) == At(t, p).kids[i]
    decreases |p|
  {
    if p != [] {
      ChildPath(t.kids[p[0]], p[1..], i);
      assert (p + [i])[1..] == p[1..] + [i];
    }
  }

  lemma {:induction false} PrefixPath<N>(t: Tree<N>, p: seq<nat>, k: nat)
    requires IsPath(t, p) && k <= |p|
    ensures IsPath(t, p[..k])
    decreases |p|
  {
    if k > 0 {
      PrefixPath(t.kids[p[0]], p[1..], k - 1);
      assert p[..k][1..] == p[1..][..k - 1];
    }
  }

  // The pointers of a node are those of its place in the tree.
  ghost predicate Pointed<N>(dom: Dom<N>, t: Tree<N>, p: seq<nat>)
    requires IsPath(t, p)
  {
    if p == [] then Follow(dom.parentNode, t.id).None? && Follow(dom.nextSibling, t.id).None?
    else
      var up, i := p[..|p| - 1], p[|p| - 1];
      && IsPath(t, up) && Follow(dom.parentNode, Id(t, p)) == Some(Id(t, up))
      && Follow(dom.nextSibling, Id(t, p)) == (if IsPath(t, up + [i + 1]) then Some(Id(t, up + [i + 1])) else None)
  }

  // No node has two places.
  ghost predicate Unique<N>(t: Tree<N>) {
    forall p, q :: IsPath(t, p) && IsPath(t, q) && Id(t, p) == Id(t, q) ==> p == q
  }

  ghost predicate Depicts<N>(dom: Dom<N>, t: Tree<N>) {
    Unique(t) && forall p :: IsPath(t, p) ==> Pointed(dom, t, p)
  }

  // ---------------------------------------------------------------- document order

  // All nodes, each before what is below it, siblings in their order.
  ghost function Preorder<N>(t: Tree<N>): seq<N> {
    [t.id] + PreorderAll(t.kids)
  }

  ghost function PreorderAll<N>(ts: seq<Tree<N>>): seq<N> {
    if ts == [] then [] else Preorder(ts[0]) + PreorderAll(ts[1..])
  }

  ghost predicate Before<N>(order: seq<N>, a: N, b: N) {
    exists i, j :: 0 <= i < j < |order| && order[i] == a && order[j] == b
  }

  // The same by positions: an ancestor first, else as at the first level where the paths part.
  predicate Lex(p: seq<nat>, q: seq<nat>) {
    q != [] && (p == [] || p[0] < q[0] || (p[0] == q[0] && Lex(p[1..], q[1..])))
  }

  lemma BeforeWithin<N>(l: seq<N>, order: seq<N>, r: seq<N>, a: N, b: N)
    requires Before(order, a, b)
    ensures Before(l + order + r, a, b)
  {
    var i, j :| 0 <= i < j < |order| && order[i] == a && order[j] == b;
    var all := l + order + r;
    assert all[|l| + i] == a && all[|l| + j] == b;
  }

  lemma BeforeAcross<N>(l: seq<N>, r: seq<N>, a: N, b: N)
    requires a in l && b in r
    ensures Before(l + r, a, b)
  {
    var i :| 0 <= i < |l| && l[i] == a;
    var j :| 0 <= j < |r| && r[j] == b;
    assert (l + r)[i] == a && (l + r)[|l| + j] == b;
  }

  // The listing of the trees before the k-th, of this one, and of those after it.
  lemma {:induction false} PreorderSplit<N>(ts: seq<Tree<N>>, k: nat)
    requires k < |ts|
    ensures PreorderAll(ts) == PreorderAll(ts[..k]) + Preorder(ts[k]) + PreorderAll(ts[k + 1..])
  {
    if k == 0 {
      assert PreorderAll(ts[..0]) == [];
      assert [] + Preorder(ts[0]) == Preorder(ts[0]);
    } else {
      PreorderSplit(ts[1..], k - 1);
      assert ts[1..][..k - 1] == ts[..k][1..];
      assert ts[1..][k..] == ts[k + 1..];
    }
  }

  lemma ListedAmong<N>(ts: seq<Tree<N>>, k: nat, a: N)
    requires k < |ts| && a in Preorder(ts[k])
    ensures a in PreorderAll(ts)
  {
    PreorderSplit(ts, k);
  }

  lemma {:induction false} PathListed<N>(t: Tree<N>, p: seq<nat>)
    requires IsPath(t, p)
    ensures Id(t, p) in Preorder(t)
    decreases |p|
  {
    if p != [] {
      PathListed(t.kids[p[0]], p[1..]);
      ListedAmong(t.kids, p[0], Id(t, p));
    }
  }

  // Positions in lexicographic order are listed in that order.
  lemma {:induction false} LexIsBefore<N>(t: Tree<N>, p: seq<nat>, q: seq<nat>)
    requires IsPath(t, p) && IsPath(t, q) && Lex(p, q)
    ensures Before(Preorder(t), Id(t, p), Id(t, q))
    decreases |p|
  {
    PreorderSplit(t.kids, q[0]);
    if p == [] {
      PathListed(t.kids[q[0]], q[1..]);
      BeforeAcross([t.id], PreorderAll(t.kids), Id(t, p), Id(t, q));
    } else if p[0] < q[0] {
      EarlierChild(t, p, q);
    } else {
      LexIsBefore(t.kids[p[0]], p[1..], q[1..]);
      var l, r := PreorderAll(t.kids[..p[0]]), PreorderAll(t.kids[p[0] + 1..]);
      BeforeWithin([t.id] + l, Preorder(t.kids[p[0]]), r, Id(t, p), Id(t, q));
      assert Preorder(t) == [t.id] + l + Preorder(t.kids[p[0]]) + r;
    }
  }

  lemma EarlierChild<N>(t: Tree<N>, p: seq<nat>, q: seq<nat>)
    requires IsPath(t, p) && IsPath(t, q) && p != [] && q != [] && p[0] < q[0]
    ensures Before(Preorder(t), Id(t, p), Id(t, q))
  {
    var a, b, l, k := Id(t, p), Id(t, q), PreorderAll(t.kids[..q[0]]), Preorder(t.kids[q[0]]);
    PathListed(t.kids[q[0]], q[1..]);
    PathListed(t.kids[p[0]], p[1..]);
    ListedAmong(t.kids[..q[0]], p[0], a);
    PreorderSplit(t.kids, q[0]);
    BeforeAcross(l, k, a, b);
    var r := PreorderAll(t.kids[q[0] + 1..]);
    BeforeWithin([t.id], l + k, r, a, b);
    assert Preorder(t) == [t.id] + (l + k) + r;
  }

  lemma {:induction false} LexTotal(p: seq<nat>, q: seq<nat>)
    ensures p == q || Lex(p, q) || Lex(q, p)
  {
    if p != [] && q != [] && p[0] == q[0] {
      LexTotal(p[1..], q[1..]);
      assert p == [p[0]] + p[1..] && q == [q[0]] + q[1..];
    }
  }

  // Where a node stands in the listing.
  lemma BeforeOnce<N>(order: seq<N>, a: N, b: N)
    requires Distinct(order) && Before(order, a, b)
    ensures a != b && !Before(order, b, a)
  {
  }

  // Every entry of the listing has a position.
  lemma {:induction false} ListedPath<N>(t: Tree<N>, a: N) returns (p: seq<nat>)
    requires a in Preorder(t)
    ensures IsPath(t, p) && Id(t, p) == a
    decreases t, 1
  {
    if a == t.id {
      p := [];
    } else {
      var k, rest := ListedPathAll(t.kids, a);
      p := [k] + rest;
      assert p[1..] == rest;
    }
  }

  lemma {:induction false} ListedPathAll<N>(ts: seq<Tree<N>>, a: N) returns (k: nat, p: seq<nat>)
    requires a in PreorderAll(ts)
    ensures k < |ts| && IsPath(ts[k], p) && Id(ts[k], p) == a
    decreases ts, 0
  {
    if a in Preorder(ts[0]) {
      k := 0;
      p := ListedPath(ts[0], a);
    } else {
      k, p := ListedPathAll(ts[1..], a);
      k := k + 1;
    }
  }

  ghost predicate UniqueAll<N>(ts: seq<Tree<N>>) {
    forall k: nat, p, l: nat, q ::
      k < |ts| && l < |ts| && IsPath(ts[k], p) && IsPath(ts[l], q) && Id(ts[k], p) == Id(ts[l], q) ==>
      k == l && p == q
  }

  // Nothing is listed twice.
  lemma {:induction false} PreorderNoRepeats<N>(t: Tree<N>)
    requires Unique(t)
    ensures Distinct(Preorder(t))
    decreases t, 1
  {
    forall k: nat, p, l: nat, q | k < |t.kids| && l < |t.kids| && IsPath(t.kids[k], p) && IsPath(t.kids[l], q) &&
        Id(t.kids[k], p) == Id(t.kids[l], q)
      ensures k == l && p == q
    {
      assert ([k] + p)[1..] == p && ([l] + q)[1..] == q;
      assert Id(t, [k] + p) == Id(t, [l] + q);
    }
    PreorderAllNoRepeats(t.kids);
    forall a | a in PreorderAll(t.kids)
      ensures a != t.id
    {
      var k, p := ListedPathAll(t.kids, a);
      assert ([k] + p)[1..] == p;
      assert Id(t, [k] + p) == a && Id(t, []) == t.id;
    }
    HeadApart(t.id, PreorderAll(t.kids));
  }

  lemma {:induction false} PreorderAllNoRepeats<N>(ts: seq<Tree<N>>)
    requires UniqueAll(ts)
    ensures Distinct(PreorderAll(ts))
    decreases ts, 0
  {
    if ts != [] {
      forall p, q | IsPath(ts[0], p) && IsPath(ts[0], q) && Id(ts[0], p) == Id(ts[0], q)
        ensures p == q
      {
      }
      PreorderNoRepeats(ts[0]);
      forall k: nat, p, l: nat, q | k < |ts[1..]| && l < |ts[1..]| && IsPath(ts[1..][k], p) && IsPath(ts[1..][l], q) &&
          Id(ts[1..][k], p) == Id(ts[1..][l], q)
        ensures k == l && p == q
      {
        assert ts[1..][k] == ts[k + 1] && ts[1..][l] == ts[l + 1];
      }
      PreorderAllNoRepeats(ts[1..]);
      forall a, b | a in Preorder(ts[0]) && b in PreorderAll(ts[1..])
        ensures a != b
      {
        var p := ListedPath(ts[0], a);
        var k, q := ListedPathAll(ts[1..], b);
        assert ts[1..][k] == ts[k + 1];
        assert Id(ts[0], p) == a && Id(ts[k + 1], q) == b;
      }
      NoRepeatsConcat(Preorder(ts[0]), PreorderAll(ts[1..]));
    }
  }

  lemma HeadApart<N>(a: N, s: seq<N>)
    requires Distinct(s) && forall x :: x in s ==> x != a
    ensures Distinct([a] + s)
  {
    forall i, j | 0 <= i < j < |[a] + s|
      ensures ([a] + s)[i] != ([a] + s)[j]
    {
      assert s[j - 1] in s;
    }
  }

  lemma NoRepeatsConcat<N>(l: seq<N>, r: seq<N>)
    requires Distinct(l) && Distinct(r) && forall a :: !(a in l && a in r)
    ensures Distinct(l + r)
  {
    forall i, j | 0 <= i < j < |l + r|
      ensures (l + r)[i] != (l + r)[j]
    {
      if i < |l| <= j {
        assert l[i] in l && r[j - |l|] in r;
      }
    }
  }

  // Document order is a strict total order on the nodes of a tree.
  lemma StrictTotalOrder<N>(t: Tree<N>, a: N, b: N, c: N)
    requires Unique(t) && a in Preorder(t) && b in Preorder(t)
    ensures var order := Preorder(t);
      && !Before(order, a, a)
      && (a != b ==> (Before(order, a, b) <==> !Before(order, b, a)))
      && (Before(order, a, b) && Before(order, b, c) ==> Before(order, a, c))
  {
    var order := Preorder(t);
    PreorderNoRepeats(t);
    var i :| 0 <= i < |order| && order[i] == a;
    var j :| 0 <= j < |order| && order[j] == b;
    assert i < j ==> Before(order, a, b);
    assert j < i ==> Before(order, b, a);
    if Before(order, a, b) && Before(order, b, c) {
      var k :| j < k < |order| && order[k] == c;
      assert i < k;
    }
  }

  // ---------------------------------------------------------------- the comparator

  // The siblings after a node, in order.
  ghost predicate Chain<N>(dom: Dom<N>, a: N, after: seq<N>)
    decreases |after|
  {
    if after == [] then Follow(dom.nextSibling, a).None?
    else Follow(dom.nextSibling, a) == Some(after[0]) && Chain(dom, after[0], after[1..])
  }

  // Which of two siblings comes first; `ret` if they are the same.
  method SiblingCheck<N(==)>(dom: Dom<N>, a: N, b: N, ret: int, ghost after: seq<N>) returns (r: int)
    requires Chain(dom, a, after)
    ensures r == if a == b then ret else if b in after then -1 else 1
  {
    if a == b {
      return ret;
    }
    var cur := Follow(dom.nextSibling, a);
    ghost var rest := after;
    while cur.Some?
      invariant if rest == [] then cur.None? else cur == Some(rest[0]) && Chain(dom, rest[0], rest[1..])
      invariant b in after <==> b in rest
      decreases |rest|
    {
      if cur.value == b {
        return -1;
      }
      assert rest == [rest[0]] + rest[1..];
      cur := Follow(dom.nextSibling, cur.value);
      rest := rest[1..];
    }
    r := 1;
  }

  lemma NextKid<N>(dom: Dom<N>, t: Tree<N>, p: seq<nat>, i: nat)
    requires Depicts(dom, t) && IsPath(t, p) && i < |At(t, p).kids|
    ensures var kids := At(t, p).kids;
      Follow(dom.nextSibling, kids[i].id) == if i + 1 < |kids| then Some(kids[i + 1].id) else None
  {
    var q := p + [i];
    ChildPath(t, p, i);
    ChildPath(t, p, i + 1);
    assert Pointed(dom, t, q);
    assert q[..|q| - 1] == p && q[|q| - 1] == i;
  }

  lemma {:induction false} SiblingsAfter<N>(dom: Dom<N>, t: Tree<N>, p: seq<nat>, i: nat) returns (after: seq<N>)
    requires Depicts(dom, t) && IsPath(t, p) && i < |At(t, p).kids|
    ensures Chain(dom, At(t, p).kids[i].id, after)
    ensures forall j :: i < j < |At(t, p).kids| ==> At(t, p).kids[j].id in after
    ensures forall x :: x in after ==> exists j :: i < j < |At(t, p).kids| && At(t, p).kids[j].id == x
    decreases |At(t, p).kids| - i
  {
    NextKid(dom, t, p, i);
    var kids := At(t, p).kids;
    if i + 1 == |kids| {
      after := [];
    } else {
      var rest := SiblingsAfter(dom, t, p, i + 1);
      after := [kids[i + 1].id] + rest;
      assert after[1..] == rest;
      assert forall x :: x in after <==> x == kids[i + 1].id || x in rest;
    }
  }

  lemma Siblings<N>(dom: Dom<N>, t: Tree<N>, p: seq<nat>, i: nat, j: nat) returns (after: seq<N>)
    requires Depicts(dom, t) && IsPath(t, p + [i]) && IsPath(t, p + [j])
    ensures Chain(dom, Id(t, p + [i]), after)
    ensures Id(t, p + [j]) in after <==> i < j
    ensures Id(t, p + [i]) == Id(t, p + [j]) <==> i == j
  {
    PrefixPath(t, p + [i], |p|);
    assert (p + [i])[..|p|] == p;
    ChildPath(t, p, i);
    ChildPath(t, p, j);
    after := SiblingsAfter(dom, t, p, i);
    forall k: nat | k < |At(t, p).kids|
      ensures At(t, p).kids[k].id == Id(t, p + [j]) <==> k == j
    {
      KidsDiffer(t, p, k, j);
    }
  }

  lemma KidsDiffer<N>(t: Tree<N>, p: seq<nat>, k: nat, j: nat)
    requires Unique(t) && IsPath(t, p) && k < |At(t, p).kids| && j < |At(t, p).kids|
    ensures IsPath(t, p + [j]) && (At(t, p).kids[k].id == Id(t, p + [j]) <==> k == j)
  {
    ChildPath(t, p, k);
    ChildPath(t, p, j);
    assert (p + [k])[|p|] == k && (p + [j])[|p|] == j;
  }

  lemma PrefixPaths<N>(t: Tree<N>, p: seq<nat>)
    requires IsPath(t, p)
    ensures forall k :: 0 <= k <= |p| ==> IsPath(t, p[..k])
  {
    forall k | 0 <= k <= |p|
      ensures IsPath(t, p[..k])
    {
      PrefixPath(t, p, k);
    }
  }

  // The parents of a node from the root down.
  ghost function Line<N>(t: Tree<N>, p: seq<nat>): (line: seq<N>)
    requires IsPath(t, p)
    ensures |line| == |p| && forall k :: 0 <= k < |p| ==> IsPath(t, p[..k]) && line[k] == Id(t, p[..k])
  {
    PrefixPaths(t, p);
    seq(|p|, k requires 0 <= k < |p| => Id(t, p[..k]))
  }

  lemma Snoc<T>(s: seq<T>, i: nat)
    requires 0 < i <= |s|
    ensures s[..i] == s[..i - 1] + [s[i - 1]]
  {
  }

  lemma Cons<T>(s: seq<T>, i: nat)
    requires i < |s|
    ensures [s[i]] + s[i + 1..] == s[i..]
  {
  }

  lemma ParentOfPrefix<N>(dom: Dom<N>, t: Tree<N>, p: seq<nat>, k: nat)
    requires Depicts(dom, t) && IsPath(t, p) && k < |p|
    ensures Follow(dom.parentNode, Line(t, p)[k]) == if k == 0 then None else Some(Line(t, p)[k - 1])
  {
    LineAt(t, p, k);
    ParentOf(dom, t, p[..k]);
  }

  // The line of a prefix is a prefix of the line.
  lemma LineAt<N>(t: Tree<N>, p: seq<nat>, k: nat)
    requires IsPath(t, p) && k < |p|
    ensures IsPath(t, p[..k]) && Line(t, p)[k] == Id(t, p[..k])
    ensures k > 0 ==> Line(t, p[..k])[k - 1] == Line(t, p)[k - 1]
  {
    PrefixPath(t, p, k);
    if k > 0 {
      assert p[..k][..k - 1] == p[..k - 1];
    }
  }

  lemma ParentOf<N>(dom: Dom<N>, t: Tree<N>, p: seq<nat>)
    requires Depicts(dom, t) && IsPath(t, p)
    ensures p == [] ==> Follow(dom.parentNode, Id(t, p)).None?
    ensures p != [] ==> Follow(dom.parentNode, Id(t, p)) == Some(Line(t, p)[|p| - 1])
  {
    assert Pointed(dom, t, p);
  }

  method Parents<N(==)>(dom: Dom<N>, up: Option<N>, ghost t: Tree<N>, ghost p: seq<nat>) returns (line: seq<N>)
    requires Depicts(dom, t) && IsPath(t, p) && up == Follow(dom.parentNode, Id(t, p))
    ensures line == Line(t, p)
  {
    var cur := up;
    line := [];
    ghost var k := |p|;
    ParentOf(dom, t, p);
    while cur.Some?
      invariant 0 <= k <= |p| && line == Line(t, p)[k..]
      invariant cur == if k == 0 then None else Some(Line(t, p)[k - 1])
      decreases k
    {
      line := [cur.value] + line;
      k := k - 1;
      Cons(Line(t, p), k);
      ParentOfPrefix(dom, t, p, k);
      cur := Follow(dom.parentNode, cur.value);
    }
  }

  lemma {:induction false} LexFrom(p: seq<nat>, q: seq<nat>, k: nat)
    requires k <= |p| && k <= |q| && p[..k] == q[..k]
    ensures Lex(p, q) == Lex(p[k..], q[k..])
  {
    if k > 0 {
      assert p[0] == p[..k][0] == q[..k][0] == q[0];
      assert p[1..][..k - 1] == p[..k][1..] == q[..k][1..] == q[1..][..k - 1];
      LexFrom(p[1..], q[1..], k - 1);
      assert p[1..][k - 1..] == p[k..] && q[1..][k - 1..] == q[k..];
    }
  }

  // The paths part at the k-th step.
  lemma LexAt(p: seq<nat>, q: seq<nat>, k: nat)
    requires k <= |p| && k <= |q| && p[..k] == q[..k]
    ensures k < |p| && k < |q| && p[k] != q[k] ==> (Lex(p, q) <==> p[k] < q[k]) && (Lex(q, p) <==> q[k] < p[k])
    ensures k == |p| < |q| ==> Lex(p, q) && !Lex(q, p)
    ensures k == |q| < |p| ==> Lex(q, p) && !Lex(p, q)
  {
    LexFrom(p, q, k);
    LexFrom(q, p, k);
  }

  // The sign by which two positions compare.
  ghost function Sign(p: seq<nat>, q: seq<nat>): int {
    if p == q then 0 else if Lex(p, q) then -1 else 1
  }

  lemma SignIsOrder<N>(t: Tree<N>, p: seq<nat>, q: seq<nat>)
    requires Unique(t) && IsPath(t, p) && IsPath(t, q)
    ensures Sign(p, q) == 0 <==> Id(t, p) == Id(t, q)
    ensures Sign(p, q) < 0 <==> Before(Preorder(t), Id(t, p), Id(t, q))
    ensures Sign(p, q) > 0 <==> Before(Preorder(t), Id(t, q), Id(t, p))
  {
    PreorderNoRepeats(t);
    LexTotal(p, q);
    if p != q {
      if Lex(p, q) {
        LexIsBefore(t, p, q);
        BeforeOnce(Preorder(t), Id(t, p), Id(t, q));
      } else {
        LexIsBefore(t, q, p);
        BeforeOnce(Preorder(t), Id(t, q), Id(t, p));
      }
    }
  }

  ghost predicate Apart<N>(t: Tree<N>, u: Tree<N>) {
    forall p, q :: IsPath(t, p) && IsPath(u, q) ==> Id(t, p) != Id(u, q)
  }

  // What comparing two nodes gives: within one tree how their positions stand; of nodes in two trees a root comes
  // first, but otherwise always the second argument.
  ghost function Compared<N>(t: Tree<N>, p: seq<nat>, u: Tree<N>, q: seq<nat>): int {
    if t == u then Sign(p, q) else if p == [] && q != [] then -1 else 1
  }

  // Asked the other way round the comparator answers the opposite within one tree, but of nodes in two trees only
  // if exactly one of them is a root.
  lemma ComparedBackwards<N>(t: Tree<N>, p: seq<nat>, u: Tree<N>, q: seq<nat>)
    ensures Compared(t, p, u, q) == -Compared(u, q, t, p) <==> t == u || (p == [] <==> q != [])
  {
    LexTotal(p, q);
    if t == u && p != q {
      LexOneWay(p, q);
    }
  }

  lemma {:induction false} LexOneWay(p: seq<nat>, q: seq<nat>)
    ensures !(Lex(p, q) && Lex(q, p))
    decreases |p|
  {
    if p != [] && q != [] && p[0] == q[0] {
      LexOneWay(p[1..], q[1..]);
    }
  }

  // Compares two nodes that are not the same, where neither positions nor source indexes can be compared.
  method CompareApart<N(==)>(dom: Dom<N>, a: N, b: N, ghost t: Tree<N>, ghost p: seq<nat>, ghost u: Tree<N>,
                              ghost q: seq<nat>)
    returns (r: int)
    requires Depicts(dom, t) && IsPath(t, p) && Id(t, p) == a && Depicts(dom, u) && IsPath(u, q) && Id(u, q) == b
             && a != b
    requires t == u || Apart(t, u)
    ensures r == Compared(t, p, u, q)
  {
    var aup, bup := Follow(dom.parentNode, a), Follow(dom.parentNode, b);
    ParentOf(dom, t, p);
    ParentOf(dom, u, q);
    if aup == bup {
      ghost var after := SameParent(dom, a, b, t, p, u, q);
      r := SiblingCheck(dom, a, b, 0, after);
    } else if aup.None? {
      assert Lex(p, q);
      r := -1;
    } else if bup.None? {
      assert Lex(q, p) && !Lex(p, q);
      r := 1;
    } else {
      var ap := Parents(dom, aup, t, p);
      var bp := Parents(dom, bup, u, q);
      r := Walk(dom, a, b, ap, bp, t, p, u, q);
    }
  }

  // Different nodes with the same parent, or both with none.
  lemma SameParent<N>(dom: Dom<N>, a: N, b: N, t: Tree<N>, p: seq<nat>, u: Tree<N>, q: seq<nat>) returns (after: seq<N>)
    requires Depicts(dom, t) && IsPath(t, p) && Id(t, p) == a && Depicts(dom, u) && IsPath(u, q) && Id(u, q) == b
             && a != b
    requires t == u || Apart(t, u)
    requires Follow(dom.parentNode, a) == Follow(dom.parentNode, b)
    ensures Chain(dom, a, after)
    ensures t == u ==> Sign(p, q) == if b in after then -1 else 1
    ensures t != u ==> p == q == [] && b !in after
  {
    ParentOf(dom, t, p);
    ParentOf(dom, u, q);
    if p == [] {
      assert Pointed(dom, t, p);
      after := [];
    } else {
      var l := |p| - 1;
      assert Line(t, p)[l] == Line(u, q)[|q| - 1];
      assert t == u;
      assert p[..l] == q[..|q| - 1];
      assert p == p[..l] + [p[l]] && q == p[..l] + [q[l]];
      after := Siblings(dom, t, p[..l], p[l], q[l]);
      LexAt(p, q, l);
    }
  }

  // Down the lines of parents to where they part.
  method Walk<N(==)>(dom: Dom<N>, a: N, b: N, ap: seq<N>, bp: seq<N>, ghost t: Tree<N>, ghost p: seq<nat>,
                      ghost u: Tree<N>, ghost q: seq<nat>)
    returns (r: int)
    requires Depicts(dom, t) && IsPath(t, p) && Id(t, p) == a && Depicts(dom, u) && IsPath(u, q) && Id(u, q) == b
    requires t == u || Apart(t, u)
    requires ap == Line(t, p) && bp == Line(u, q) && ap != [] && bp != []
    requires t == u ==> !(|p| == |q| && p[..|p| - 1] == q[..|q| - 1])
    ensures r == if t == u then Sign(p, q) else 1
  {
    var i := 0;
    while i < |ap| && i < |bp|
      invariant 0 <= i <= |p| && i <= |q|
      invariant i > 0 ==> t == u && p[..i - 1] == q[..i - 1]
    {
      if ap[i] != bp[i] {
        ghost var after := Parted(dom, t, p, u, q, i);
        r := SiblingCheck(dom, ap[i], bp[i], 0, after);
        return;
      }
      SameAncestor(t, p, u, q, i);
      i := i + 1;
    }
    ghost var after := Ended(dom, t, p, q, i);
    if i == |ap| {
      r := SiblingCheck(dom, a, bp[i], -1, after);
    } else {
      r := SiblingCheck(dom, ap[i], b, 1, after);
    }
  }

  lemma SameAncestor<N>(t: Tree<N>, p: seq<nat>, u: Tree<N>, q: seq<nat>, i: nat)
    requires Unique(t) && IsPath(t, p) && IsPath(u, q) && (t == u || Apart(t, u)) && i < |p| && i < |q|
    requires Line(t, p)[i] == Line(u, q)[i]
    ensures t == u && p[..i] == q[..i]
  {
    LineAt(t, p, i);
    LineAt(u, q, i);
  }

  // The lines part at the i-th parent: two siblings stand there, or the roots of two trees.
  lemma Parted<N>(dom: Dom<N>, t: Tree<N>, p: seq<nat>, u: Tree<N>, q: seq<nat>, i: nat) returns (after: seq<N>)
    requires Depicts(dom, t) && IsPath(t, p) && IsPath(u, q) && i < |p| && i < |q|
    requires i > 0 ==> t == u && p[..i - 1] == q[..i - 1]
    requires Line(t, p)[i] != Line(u, q)[i]
    ensures Chain(dom, Line(t, p)[i], after)
    ensures (if t == u then Sign(p, q) else 1) == if Line(u, q)[i] in after then -1 else 1
  {
    LineAt(t, p, i);
    LineAt(u, q, i);
    if i == 0 {
      assert p[..0] == [] && q[..0] == [];
      assert Pointed(dom, t, []);
      after := [];
    } else {
      after := PartedSiblings(dom, t, p, q, i);
    }
  }

  lemma PartedSiblings<N>(dom: Dom<N>, t: Tree<N>, p: seq<nat>, q: seq<nat>, i: nat) returns (after: seq<N>)
    requires Depicts(dom, t) && IsPath(t, p) && IsPath(t, q) && 0 < i < |p| && i < |q| && p[..i - 1] == q[..i - 1]
    requires IsPath(t, p[..i]) && IsPath(t, q[..i]) && Id(t, p[..i]) != Id(t, q[..i])
    ensures Chain(dom, Id(t, p[..i]), after)
    ensures Sign(p, q) == if Id(t, q[..i]) in after then -1 else 1
  {
    var up := p[..i - 1];
    Snoc(p, i);
    Snoc(q, i);
    after := Siblings(dom, t, up, p[i - 1], q[i - 1]);
    LexAt(p, q, i - 1);
  }

  // One line ends: its node and the other node's ancestor, or that node itself, are siblings or the same.
  lemma Ended<N>(dom: Dom<N>, t: Tree<N>, p: seq<nat>, q: seq<nat>, i: nat) returns (after: seq<N>)
    requires Depicts(dom, t) && IsPath(t, p) && IsPath(t, q) && 0 < i && i <= |p| && i <= |q| && (i == |p| || i == |q|)
    requires p[..i - 1] == q[..i - 1] && !(|p| == |q| && p[..|p| - 1] == q[..|q| - 1])
    ensures |p| != |q|
    ensures i == |p| ==>
              && Chain(dom, Id(t, p), after)
              && Sign(p, q) == if Id(t, p) == Line(t, q)[i] || Line(t, q)[i] in after then -1 else 1
    ensures i == |q| ==>
              && Chain(dom, Line(t, p)[i], after)
              && Sign(p, q) == if Id(t, q) in after && Line(t, p)[i] != Id(t, q) then -1 else 1
  {
    after := EndedSiblings(dom, t, p, q, i);
    assert p[..|p|] == p && q[..|q|] == q;
    if i < |q| {
      LineAt(t, q, i);
    }
    if i < |p| {
      LineAt(t, p, i);
    }
  }

  lemma EndedSiblings<N>(dom: Dom<N>, t: Tree<N>, p: seq<nat>, q: seq<nat>, i: nat) returns (after: seq<N>)
    requires Depicts(dom, t) && IsPath(t, p) && IsPath(t, q) && 0 < i && i <= |p| && i <= |q| && (i == |p| || i == |q|)
    requires p[..i - 1] == q[..i - 1] && !(|p| == |q| && p[..|p| - 1] == q[..|q| - 1])
    ensures |p| != |q| && IsPath(t, p[..i]) && IsPath(t, q[..i]) && Chain(dom, Id(t, p[..i]), after)
    ensures i == |p| ==> Sign(p, q) == if Id(t, p[..i]) == Id(t, q[..i]) || Id(t, q[..i]) in after then -1 else 1
    ensures i == |q| ==> Sign(p, q) == if Id(t, q[..i]) in after && Id(t, p[..i]) != Id(t, q[..i]) then -1 else 1
  {
    var up := p[..i - 1];
    Snoc(p, i);
    Snoc(q, i);
    PrefixPath(t, p, i);
    PrefixPath(t, q, i);
    after := Siblings(dom, t, up, p[i - 1], q[i - 1]);
    LexAt(p, q, i - 1);
    if p[i - 1] == q[i - 1] {
      LexAt(p, q, i);
    }
  }

  // ---------------------------------------------------------------- removing duplicates

  predicate Repeats<N(==)>(s: seq<N>, i: nat)
    requires i < |s|
  {
    i > 0 && s[i] == s[i - 1]
  }

  lemma SameEntries<N>(s: seq<N>, s': seq<N>)
    requires multiset(s) == multiset(s')
    ensures Elements(s) == Elements(s') && forall x :: x in s' <==> x in s
  {
    forall x
      ensures x in s <==> x in s'
    {
      assert x in s <==> x in multiset(s);
      assert x in s' <==> x in multiset(s');
    }
  }

  // What is left of the entries from an index on without those that repeat the entry before them.
  function Kept<N(==)>(s: seq<N>, from: nat): seq<N>
    requires from <= |s|
    decreases |s| - from
  {
    if from == |s| then [] else (if Repeats(s, from) then [] else [s[from]]) + Kept(s, from + 1)
  }

  lemma Regroup<N>(s: seq<N>, from: nat, to: nat, rest: seq<N>)
    requires from < to <= |s|
    ensures s[from..to] + rest == [s[from]] + (s[from + 1..to] + rest)
  {
    assert s[from..to] == [s[from]] + s[from + 1..to];
  }

  lemma {:induction false} KeptRun<N>(s: seq<N>, from: nat, to: nat)
    requires from <= to <= |s| && forall i :: from <= i < to ==> !Repeats(s, i)
    ensures Kept(s, from) == s[from..to] + Kept(s, to)
    decreases |s| - from
  {
    if from < to {
      KeptRun(s, from + 1, to);
      Regroup(s, from, to, Kept(s, to));
    } else {
      assert s[from..to] == [];
    }
  }

  lemma NothingRepeats<N>(s: seq<N>)
    requires forall i :: 0 <= i < |s| ==> !Repeats(s, i)
    ensures Kept(s, 0) == s
  {
    KeptRun(s, 0, |s|);
    assert s[0..|s|] + [] == s;
  }

  // Splicing out one that repeats, before others have gone after it.
  lemma SpliceKept<N>(s: seq<N>, d: nat, c: nat)
    requires d < c <= |s| && Repeats(s, d) && forall i :: d < i < c ==> !Repeats(s, i)
    ensures (s[..c] + Kept(s, c))[..d] + (s[..c] + Kept(s, c))[d + 1..] == s[..d] + Kept(s, d)
  {
    KeptRun(s, d + 1, c);
    SplitAt(s, d, c, Kept(s, c));
    KeptSkips(s, d);
  }

  lemma KeptSkips<N>(s: seq<N>, d: nat)
    requires d < |s| && Repeats(s, d)
    ensures Kept(s, d) == Kept(s, d + 1)
  {
  }

  lemma SplitAt<N>(s: seq<N>, d: nat, c: nat, rest: seq<N>)
    requires d < c <= |s|
    ensures (s[..c] + rest)[..d] == s[..d] && (s[..c] + rest)[d + 1..] == s[d + 1..c] + rest
  {
  }

  // What a sort has done: the list it leaves, and the pairs it had compared.
  datatype Sorting<N> = Sorting(sorted: seq<N>, compared: seq<(N, N)>)

  // The list holds the given entries in document order, and the pairs compared are of these entries.
  ghost predicate Sorts<N>(order: seq<N>, items: seq<N>, sorting: Sorting<N>) {
    && multiset(sorting.sorted) == multiset(items) && Sorted(order, sorting.sorted)
    && forall k :: 0 <= k < |sorting.compared| ==> sorting.compared[k].0 in items && sorting.compared[k].1 in items
  }

  // A sort that passes equal entries to the comparator has passed some if there are any.
  ghost predicate ShowsEqual<N>(sorting: Sorting<N>) {
    (exists i :: 0 <= i < |sorting.sorted| && Repeats(sorting.sorted, i)) ==>
      exists k :: 0 <= k < |sorting.compared| && sorting.compared[k].0 == sorting.compared[k].1
  }

  // The results of a search, and what is known of entries that are the same: whether the comparator has met
  // some, and whether that has to be taken for granted.
  class Results<N(==)> {
    var items: seq<N>
    var hasDuplicate: bool
    const baseHasDuplicate: bool

    // A first sort of two equal entries tells whether sorting passes such entries to the comparator.
    constructor (items: seq<N>, passesEqual: bool)
      ensures this.items == items && baseHasDuplicate == !passesEqual
    {
      this.items, hasDuplicate, baseHasDuplicate := items, passesEqual, !passesEqual;
    }

    // The comparator.  Within one tree it tells document order.
    method SortOrder(dom: Dom<N>, a: N, b: N, ghost t: Tree<N>, ghost p: seq<nat>, ghost u: Tree<N>, ghost q: seq<nat>)
      returns (r: int)
      requires Depicts(dom, t) && IsPath(t, p) && Id(t, p) == a && Depicts(dom, u) && IsPath(u, q) && Id(u, q) == b
      requires t == u || Apart(t, u)
      modifies this`hasDuplicate
      ensures t == u ==>
        && (r == 0 <==> a == b) && (r < 0 <==> Before(Preorder(t), a, b)) && (r > 0 <==> Before(Preorder(t), b, a))
      ensures t != u ==> r == Compared(t, p, u, q)
      ensures hasDuplicate <==> old(hasDuplicate) || a == b
    {
      if t == u {
        SignIsOrder(t, p, q);
      }
      if a == b {
        hasDuplicate := true;
        return 0;
      }
      r := CompareApart(dom, a, b, t, p, u, q);
    }

    // Sorts the results and removes the duplicates.  The sort is a parameter: what it leaves, and what it had
    // compared on the way.
    method UniqueSort(dom: Dom<N>, sorting: Sorting<N>, ghost t: Tree<N>)
      requires Depicts(dom, t) && (forall x :: x in items ==> x in Preorder(t))
      requires Sorts(Preorder(t), items, sorting) && (!baseHasDuplicate ==> ShowsEqual(sorting))
      modifies this
      ensures Ascends(Preorder(t), items) && Elements(items) == Elements(old(items))
      ensures items == Filtered(Preorder(t), Elements(old(items)))
    {
      ghost var items0 := items;
      hasDuplicate := baseHasDuplicate;
      for k := 0 to |sorting.compared|
        invariant items == items0
        invariant hasDuplicate <==>
                  baseHasDuplicate || exists l :: 0 <= l < k && sorting.compared[l].0 == sorting.compared[l].1
      {
        var (a, b) := sorting.compared[k];
        ghost var p := ListedPath(t, a);
        ghost var q := ListedPath(t, b);
        var _ := SortOrder(dom, a, b, t, p, t, q);
      }
      items := sorting.sorted;
      SameEntries(items0, items);
      if !hasDuplicate {
        NothingRepeats(sorting.sorted);
      }
      RemoveDuplicates();
      SortedResults(t, sorting.sorted);
    }

    // What follows the sorting of the results.
    method RemoveDuplicates()
      modifies this
      ensures items == if hasDuplicate then Kept(old(items), 0) else old(items)
      ensures hasDuplicate == old(hasDuplicate)
    {
      if hasDuplicate {
        var duplicates := FindDuplicates();
        ghost var s := items;
        ghost var c: nat := |items|;
        var j := |duplicates|;
        while j > 0
          invariant 0 <= j <= |duplicates| && c <= |s| && hasDuplicate
          invariant forall k :: 0 <= k < j ==> duplicates[k] < c
          invariant forall i :: 0 <= i < c && Repeats(s, i) ==> i in duplicates[..j]
          invariant items == s[..c] + Kept(s, c)
        {
          j := j - 1;
          ghost var d := duplicates[j];
          assert duplicates[..j + 1] == duplicates[..j] + [d];
          SpliceKept(s, d, c);
          items := items[..duplicates[j]] + items[duplicates[j] + 1..];
          c := d;
        }
        KeptRun(s, 0, c);
      }
    }

    method FindDuplicates() returns (duplicates: seq<nat>)
      ensures forall i, j :: 0 <= i < j < |duplicates| ==> duplicates[i] < duplicates[j]
      ensures forall k :: 0 <= k < |duplicates| ==> duplicates[k] < |items| && Repeats(items, duplicates[k])
      ensures forall i :: 0 <= i < |items| && Repeats(items, i) ==> i in duplicates
    {
      duplicates := [];
      var i := 1;
      while i < |items|
        invariant 1 <= i
        invariant forall k, j :: 0 <= k < j < |duplicates| ==> duplicates[k] < duplicates[j]
        invariant forall k :: 0 <= k < |duplicates| ==>
                  duplicates[k] < i && duplicates[k] < |items| && Repeats(items, duplicates[k])
        invariant forall k :: 0 <= k < |items| && k < i && Repeats(items, k) ==> k in duplicates
      {
        if items[i] == items[i - 1] {
          duplicates := duplicates + [i];
        }
        i := i + 1;
      }
    }
  }

  ghost predicate Sorted<N>(order: seq<N>, s: seq<N>) {
    forall i, j :: 0 <= i < j < |s| ==> s[i] == s[j] || Before(order, s[i], s[j])
  }

  ghost predicate Ascends<N>(order: seq<N>, s: seq<N>) {
    forall i, j :: 0 <= i < j < |s| ==> Before(order, s[i], s[j])
  }

  // What is kept of sorted entries ascends, and nothing is lost.
  lemma {:induction false} KeptAscends<N>(order: seq<N>, s: seq<N>, from: nat)
    requires Distinct(order) && Sorted(order, s) && from <= |s|
    ensures Ascends(order, Kept(s, from))
    ensures forall x :: x in Kept(s, from) ==> x in s[from..] && (from > 0 ==> Before(order, s[from - 1], x))
    ensures forall x :: x in s[from..] ==> x in Kept(s, from) || (from > 0 && x == s[from - 1])
    decreases |s| - from
  {
    if from < |s| {
      KeptAscends(order, s, from + 1);
      assert s[from..] == [s[from]] + s[from + 1..];
      if !Repeats(s, from) {
        var rest := Kept(s, from + 1);
        assert Kept(s, from) == [s[from]] + rest;
        forall i | 0 <= i < |rest|
          ensures Before(order, s[from], rest[i])
        {
          assert rest[i] in rest;
        }
        if from > 0 {
          assert Before(order, s[from - 1], s[from]);
          forall x | x in rest
            ensures Before(order, s[from - 1], x)
          {
            var k :| from < k < |s| && s[k] == x;
            assert Before(order, s[from], x);
            BeforeOnce(order, s[from], x);
          }
        }
      }
    }
  }

  // Those of a listing that are in a set, in the order of the listing.
  ghost function Filtered<N>(order: seq<N>, keep: set<N>): seq<N> {
    if order == [] then []
    else Filtered(order[..|order| - 1], keep) + if order[|order| - 1] in keep then [order[|order| - 1]] else []
  }

  lemma {:induction false} FilteredSame<N>(order: seq<N>, keep: set<N>, keep': set<N>)
    requires forall x :: x in order ==> (x in keep <==> x in keep')
    ensures Filtered(order, keep) == Filtered(order, keep')
  {
    if order != [] {
      FilteredSame(order[..|order| - 1], keep, keep');
    }
  }

  // Nothing of a listing without repeats comes after its last entry.
  lemma BeforeLast<N>(order: seq<N>, a: N, b: N)
    requires order != [] && Distinct(order) && Before(order, a, b)
    ensures a != order[|order| - 1] && (b != order[|order| - 1] ==> Before(order[..|order| - 1], a, b))
  {
    var i, j :| 0 <= i < j < |order| && order[i] == a && order[j] == b;
    if b != order[|order| - 1] {
      assert order[..|order| - 1][i] == a && order[..|order| - 1][j] == b;
    }
  }

  lemma SomeEntry<N>(s: seq<N>)
    ensures s == [] || exists x :: x in s
  {
    if s != [] {
      assert s[0] in s;
    }
  }

  // Only one list of given elements ascends.
  lemma {:induction false} AscendingIsFiltered<N>(order: seq<N>, s: seq<N>)
    requires Distinct(order) && Ascends(order, s) && forall x :: x in s ==> x in order
    ensures s == Filtered(order, Elements(s))
    decreases |order|
  {
    if order == [] {
      SomeEntry(s);
    } else {
      var l, last := |order| - 1, order[|order| - 1];
      if last in s {
        LastIsLast(order, s);
        var front := s[..|s| - 1];
        AscendsWithout(order, front);
        AscendingIsFiltered(order[..l], front);
        FilteredSame(order[..l], Elements(front), Elements(s));
      } else {
        AscendsWithout(order, s);
        AscendingIsFiltered(order[..l], s);
      }
    }
  }

  // The last entry of the listing comes last, and once.
  lemma LastIsLast<N>(order: seq<N>, s: seq<N>)
    requires order != [] && Distinct(order) && Ascends(order, s) && order[|order| - 1] in s
    ensures var front, last := s[..|s| - 1], order[|order| - 1];
      && s == front + [last] && last !in front && Elements(s) == Elements(front) + {last} && Ascends(order, front)
    ensures order[|order| - 1] !in order[..|order| - 1]
  {
    var last := order[|order| - 1];
    forall k | 0 <= k < |s| - 1
      ensures s[k] != last
    {
      assert Before(order, s[k], s[k + 1]);
      BeforeLast(order, s[k], s[k + 1]);
    }
    var front := s[..|s| - 1];
    assert s == front + [s[|s| - 1]];
    assert s[|s| - 1] == last;
  }

  lemma AscendsWithout<N>(order: seq<N>, s: seq<N>)
    requires order != [] && Distinct(order) && Ascends(order, s)
    requires forall x :: x in s ==> x in order && x != order[|order| - 1]
    ensures Ascends(order[..|order| - 1], s) && forall x :: x in s ==> x in order[..|order| - 1]
  {
    forall i, j | 0 <= i < j < |s|
      ensures Before(order[..|order| - 1], s[i], s[j])
    {
      assert s[i] in s && s[j] in s;
      assert Before(order, s[i], s[j]);
      BeforeLast(order, s[i], s[j]);
    }
  }

  // Removing the duplicates from results that the comparator has sorted leaves the nodes found, each once,
  // in document order.
  lemma SortedResults<N>(t: Tree<N>, s: seq<N>)
    requires Unique(t) && Sorted(Preorder(t), s) && forall x :: x in s ==> x in Preorder(t)
    ensures Kept(s, 0) == Filtered(Preorder(t), Elements(s))
    ensures Ascends(Preorder(t), Kept(s, 0)) && Elements(Kept(s, 0)) == Elements(s)
  {
    var kept := Kept(s, 0);
    PreorderNoRepeats(t);
    KeptAscends(Preorder(t), s, 0);
    assert s[0..] == s;
    AscendingIsFiltered(Preorder(t), kept);
    assert Elements(kept) == Elements(s) by {
      forall x
        ensures x in Elements(kept) <==> x in Elements(s)
      {
        assert x in kept <==> x in s;
      }
    }
  }
}
