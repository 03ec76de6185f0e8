// Matching an element against a chain of combinators: the search among ancestors or preceding siblings
// that remembers its answers on the elements gives the answers of the plain search.
module SelectorMemo {
  import opened Prelude
  import opened Numerals

  // ---------------------------------------------------------------- elements and matchers

  // The mark that a search leaves on an element: the run of the whole selector, the name of the
  // combinator, and the candidate for which the element was looked at.
  datatype Stamp = Stamp(dirruns: nat, doneName: nat, cachedruns: nat)

  class Element {
    const parentNode: Element?
    const previousSibling: Element?
    const isElement: bool
    ghost const rank: nat

    var stamp: Option<Stamp>
    var sizset: bool

    // Parents and preceding siblings come earlier in the document.
    constructor (parent: Element?, prev: Element?, isElement: bool, ghost rank: nat)
      requires parent != null ==> parent.rank < rank
      requires prev != null ==> prev.rank < rank
      ensures parentNode == parent && previousSibling == prev && this.isElement == isElement && this.rank == rank
      ensures stamp == None
    {
      parentNode, previousSibling, this.isElement, this.rank := parent, prev, isElement, rank;
      stamp, sizset := None, false;
    }
  }

  datatype Dir = ParentNode | PreviousSibling

  function Next(e: Element, dir: Dir): Element? {
    if dir.ParentNode? then e.parentNode else e.previousSibling
  }

  // A document fragment closed under both directions, along which ranks fall.
  ghost predicate Document(doc: set<Element>) {
    forall e: Element, dir: Dir {:trigger Next(e, dir)} :: e in doc && Next(e, dir) != null ==>
      Next(e, dir) in doc && Next(e, dir).rank < e.rank
  }

  // A combinator with its name; the name is unique, a counter numbers them.
  datatype Combinator = Combinator(dir: Dir, first: bool, checkNonElements: bool, doneName: nat)

  type Filter = Element -> bool

  // A list of matchers as an element is tested by: element filters, and at the head of the list either one
  // more test or a combinator over an inner list.
  datatype Matcher = Matcher(head: Head, filters: seq<Filter>)
  datatype Head = Test(test: Filter) | Related(comb: Combinator, inner: Matcher)

  predicate Accepts(c: Combinator, e: Element) {
    c.checkNonElements || e.isElement
  }

  // ---------------------------------------------------------------- what matching means

  ghost predicate Matches(doc: set<Element>, m: Matcher, e: Element)
    requires Document(doc) && e in doc
    decreases m, 0, 0
  {
    && (forall i :: 0 <= i < |m.filters| ==> m.filters[i](e))
    && match m.head
       case Test(test) => test(e)
       case Related(comb, inner) => Finds(doc, comb, inner, e)
  }

  // The plain search from e: among all acceptable elements in the direction, or at the nearest only.
  ghost predicate Finds(doc: set<Element>, c: Combinator, inner: Matcher, e: Element)
    requires Document(doc) && e in doc
    decreases inner, 1, e.rank
  {
    var p := Next(e, c.dir);
    p != null &&
    if !Accepts(c, p) then Finds(doc, c, inner, p)
    else Matches(doc, inner, p) || (!c.first && Finds(doc, c, inner, p))
  }

  // ---------------------------------------------------------------- the searches

  // The search without memory, as it is done on XML documents, and for combinators that look at the
  // nearest element only.
  method ElementMatcherPlain(m: Matcher, e: Element, ghost doc: set<Element>) returns (r: bool)
    requires Document(doc) && e in doc
    ensures r == Matches(doc, m, e)
    decreases m, 0
  {
    var i := |m.filters|;
    while i > 0
      invariant 0 <= i <= |m.filters|
      invariant forall j :: i <= j < |m.filters| ==> m.filters[j](e)
    {
      i := i - 1;
      if !m.filters[i](e) {
        return false;
      }
    }
    match m.head
    case Test(test) => r := test(e);
    case Related(comb, inner) => r := CombinatorPlain(comb, inner, e, doc);
  }

  method CombinatorPlain(c: Combinator, inner: Matcher, e: Element, ghost doc: set<Element>) returns (r: bool)
    requires Document(doc) && e in doc
    ensures r == Finds(doc, c, inner, e)
    decreases inner, 1
  {
    var elem := Next(e, c.dir);
    ghost var at := e;
    while elem != null
      invariant at in doc && elem == Next(at, c.dir)
      invariant Finds(doc, c, inner, e) == Finds(doc, c, inner, at)
      decreases at.rank
    {
      if Accepts(c, elem) {
        r := ElementMatcherPlain(inner, elem, doc);
        if r || c.first {
          return;
        }
      }
      at := elem;
      elem := Next(elem, c.dir);
    }
    r := false;
  }

  // ---------------------------------------------------------------- the memory

  // The combinators in play, by name.
  type Names = map<nat, (Combinator, Matcher)>

  // Every combinator of the matcher is listed under its name.
  ghost predicate Listed(names: Names, m: Matcher)
    decreases m, 0
  {
    m.head.Related? ==> NamedAs(names, m.head.comb, m.head.inner)
  }

  ghost predicate NamedAs(names: Names, c: Combinator, inner: Matcher)
    decreases inner, 1
  {
    c.doneName in names && names[c.doneName] == (c, inner) && Listed(names, inner)
  }

  // The mark on an element may be believed: it is of no later run of the selector, a mark of this run tells
  // whether the named combinator's inner matcher holds here, ...
  ghost predicate Truthful(doc: set<Element>, names: Names, dirruns: nat, cachedruns: nat, e: Element)
    requires Document(doc) && e in doc
    reads e
  {
    e.stamp.Some? ==>
      var s := e.stamp.value;
      && s.dirruns <= dirruns
      && (s.dirruns == dirruns ==>
            && s.cachedruns <= cachedruns && s.doneName in names
            && (e.sizset <==> Matches(doc, names[s.doneName].1, e)))
  }

  // ... and a negative mark made for the present candidate, that the search fails from here on.
  ghost predicate Conclusive(doc: set<Element>, names: Names, dirruns: nat, cachedruns: nat, e: Element)
    requires Document(doc) && e in doc
    reads e
  {
    && Truthful(doc, names, dirruns, cachedruns, e)
    && (e.stamp.Some? && e.stamp.value.dirruns == dirruns && e.stamp.value.cachedruns == cachedruns && !e.sizset ==>
          !Finds(doc, names[e.stamp.value.doneName].0, names[e.stamp.value.doneName].1, e))
  }

  ghost predicate TruthfulBelow(doc: set<Element>, names: Names, dirruns: nat, cachedruns: nat, k: nat)
    requires Document(doc)
    reads doc
  {
    forall e: Element {:trigger Truthful(doc, names, dirruns, cachedruns, e)} :: e in doc && e.rank < k ==>
      Truthful(doc, names, dirruns, cachedruns, e)
  }

  ghost predicate ConclusiveBelow(doc: set<Element>, names: Names, dirruns: nat, cachedruns: nat, k: nat)
    requires Document(doc)
    reads doc
  {
    forall e: Element {:trigger Conclusive(doc, names, dirruns, cachedruns, e)} :: e in doc && e.rank < k ==>
      Conclusive(doc, names, dirruns, cachedruns, e)
  }

  // While a search goes on, the elements it has passed carry a mark that will be conclusive if it fails.
  ghost predicate Settled(doc: set<Element>, names: Names, key: Stamp, c: Combinator, inner: Matcher, found: bool,
                          e: Element)
    requires Document(doc) && e in doc
    reads e
  {
    || Conclusive(doc, names, key.dirruns, key.cachedruns, e)
    || (e.stamp == Some(key) && !e.sizset && Truthful(doc, names, key.dirruns, key.cachedruns, e)
        && Finds(doc, c, inner, e) == found)
  }

  ghost predicate SettledBetween(doc: set<Element>, names: Names, key: Stamp, c: Combinator, inner: Matcher,
                                 found: bool, lo: nat, hi: nat)
    requires Document(doc)
    reads doc
  {
    forall e: Element {:trigger Settled(doc, names, key, c, inner, found, e)} :: e in doc && lo <= e.rank < hi ==>
      Settled(doc, names, key, c, inner, found, e)
  }

  // The elements from a rank on are as they were.
  twostate predicate Untouched(doc: set<Element>, k: nat)
    reads doc
  {
    forall e: Element :: e in doc && e.rank >= k ==> e.stamp == old(e.stamp) && e.sizset == old(e.sizset)
  }

  method ElementMatcher(m: Matcher, e: Element, dirruns: nat, cachedruns: nat, ghost names: Names,
                        ghost doc: set<Element>)
    returns (r: bool)
    requires Document(doc) && e in doc && Listed(names, m)
    requires ConclusiveBelow(doc, names, dirruns, cachedruns, e.rank)
    modifies doc
    ensures r == Matches(doc, m, e)
    ensures Untouched(doc, e.rank)
    ensures TruthfulBelow(doc, names, dirruns, cachedruns, e.rank)
    ensures !r ==> ConclusiveBelow(doc, names, dirruns, cachedruns, e.rank)
    decreases m, 0, 0
  {
    ConclusiveIsTruthful(doc, names, dirruns, cachedruns, e.rank);
    var i := |m.filters|;
    while i > 0
      invariant 0 <= i <= |m.filters|
      invariant forall j :: i <= j < |m.filters| ==> m.filters[j](e)
    {
      i := i - 1;
      if !m.filters[i](e) {
        return false;
      }
    }
    match m.head
    case Test(test) => r := test(e);
    case Related(comb, inner) => r := CombinatorSearch(comb, inner, e, dirruns, cachedruns, names, doc);
  }

  lemma ConclusiveIsTruthful(doc: set<Element>, names: Names, dirruns: nat, cachedruns: nat, k: nat)
    requires Document(doc) && ConclusiveBelow(doc, names, dirruns, cachedruns, k)
    ensures TruthfulBelow(doc, names, dirruns, cachedruns, k)
  {
    forall e: Element | e in doc && e.rank < k
      ensures Truthful(doc, names, dirruns, cachedruns, e)
    {
      assert Conclusive(doc, names, dirruns, cachedruns, e);
    }
  }

  // The search with memory.  On the way it marks what it looks at, and what it looked at before, for this
  // candidate or an earlier one, it does not look at again.
  method CombinatorSearch(c: Combinator, inner: Matcher, e: Element, dirruns: nat, cachedruns: nat,
                          ghost names: Names, ghost doc: set<Element>)
    returns (r: bool)
    requires Document(doc) && e in doc && NamedAs(names, c, inner)
    requires ConclusiveBelow(doc, names, dirruns, cachedruns, e.rank)
    modifies doc
    ensures r == Finds(doc, c, inner, e)
    ensures Untouched(doc, e.rank)
    ensures TruthfulBelow(doc, names, dirruns, cachedruns, e.rank)
    ensures !r ==> ConclusiveBelow(doc, names, dirruns, cachedruns, e.rank)
    decreases inner, 2
  {
    if c.first {
      r := NearestSearch(c, inner, e, dirruns, cachedruns, names, doc);
    } else {
      r := FarSearch(c, inner, e, dirruns, cachedruns, names, doc);
    }
  }

  // Only the nearest acceptable element is tested, and nothing is remembered.
  method NearestSearch(c: Combinator, inner: Matcher, e: Element, dirruns: nat, cachedruns: nat,
                       ghost names: Names, ghost doc: set<Element>)
    returns (r: bool)
    requires Document(doc) && e in doc && NamedAs(names, c, inner) && c.first
    requires ConclusiveBelow(doc, names, dirruns, cachedruns, e.rank)
    modifies doc
    ensures r == Finds(doc, c, inner, e)
    ensures Untouched(doc, e.rank)
    ensures TruthfulBelow(doc, names, dirruns, cachedruns, e.rank)
    ensures !r ==> ConclusiveBelow(doc, names, dirruns, cachedruns, e.rank)
    decreases inner, 1
  {
    ConclusiveIsTruthful(doc, names, dirruns, cachedruns, e.rank);
    var elem := Next(e, c.dir);
    ghost var at := e;
    while elem != null
      invariant at in doc && elem == Next(at, c.dir) && at.rank <= e.rank
      invariant Finds(doc, c, inner, e) == Finds(doc, c, inner, at)
      decreases at.rank
    {
      if Accepts(c, elem) {
        forall x: Element | x in doc && x.rank < elem.rank
          ensures Conclusive(doc, names, dirruns, cachedruns, x)
        {
        }
        r := ElementMatcher(inner, elem, dirruns, cachedruns, names, doc);
        forall x: Element | x in doc && x.rank < e.rank
          ensures Truthful(doc, names, dirruns, cachedruns, x)
          ensures !r ==> Conclusive(doc, names, dirruns, cachedruns, x)
        {
          assert x.rank >= elem.rank ==> old(Conclusive(doc, names, dirruns, cachedruns, x));
        }
        return;
      }
      at := elem;
      elem := Next(elem, c.dir);
    }
    r := false;
  }

  // All acceptable elements in the direction are tested until one passes, each of them marked.
  method FarSearch(c: Combinator, inner: Matcher, e: Element, dirruns: nat, cachedruns: nat,
                   ghost names: Names, ghost doc: set<Element>)
    returns (r: bool)
    requires Document(doc) && e in doc && NamedAs(names, c, inner) && !c.first
    requires ConclusiveBelow(doc, names, dirruns, cachedruns, e.rank)
    modifies doc
    ensures r == Finds(doc, c, inner, e)
    ensures Untouched(doc, e.rank)
    ensures TruthfulBelow(doc, names, dirruns, cachedruns, e.rank)
    ensures !r ==> ConclusiveBelow(doc, names, dirruns, cachedruns, e.rank)
    decreases inner, 1
  {
    var key := Stamp(dirruns, c.doneName, cachedruns);
    ghost var found := Finds(doc, c, inner, e);
    var elem := Next(e, c.dir);
    ghost var at := e;
    while elem != null
      invariant at in doc && elem == Next(at, c.dir) && at.rank <= e.rank
      invariant found == Finds(doc, c, inner, at)
      invariant Untouched(doc, e.rank)
      invariant ConclusiveBelow(doc, names, dirruns, cachedruns, at.rank)
      invariant SettledBetween(doc, names, key, c, inner, found, at.rank, e.rank)
      decreases at.rank
    {
      if Accepts(c, elem) {
        assert Conclusive(doc, names, dirruns, cachedruns, elem);
        if elem.stamp == Some(key) {
          r := elem.sizset;
          SettledIsTruthful(doc, names, key, c, inner, found, at.rank, e.rank);
          return;
        } else if elem.stamp.Some? && elem.stamp.value.dirruns == dirruns && elem.stamp.value.doneName == c.doneName {
          if elem.sizset {
            SettledIsTruthful(doc, names, key, c, inner, found, at.rank, e.rank);
            return true;
          }
        } else {
          label L:
          r := MarkAndTest(key, c, inner, elem, names, doc);
          forall x: Element | x in doc && x.rank < e.rank
            ensures Truthful(doc, names, dirruns, cachedruns, x)
            ensures !r && x.rank < elem.rank ==> Conclusive(doc, names, dirruns, cachedruns, x)
            ensures !r && x.rank >= elem.rank ==> Settled(doc, names, key, c, inner, found, x)
          {
            assert x.rank < at.rank ==> old@L(Conclusive(doc, names, dirruns, cachedruns, x));
            assert x.rank >= at.rank ==> old@L(Settled(doc, names, key, c, inner, found, x));
          }
          if r {
            return;
          }
        }
      }
      at := elem;
      elem := Next(elem, c.dir);
    }
    SettledIsTruthful(doc, names, key, c, inner, found, at.rank, e.rank);
    r := false;
  }

  // Marks an element and tests it; the mark says how the test came out.
  method MarkAndTest(key: Stamp, c: Combinator, inner: Matcher, elem: Element, ghost names: Names,
                     ghost doc: set<Element>)
    returns (r: bool)
    requires Document(doc) && elem in doc && NamedAs(names, c, inner) && key.doneName == c.doneName
    requires ConclusiveBelow(doc, names, key.dirruns, key.cachedruns, elem.rank)
    modifies doc
    ensures r == Matches(doc, inner, elem) && elem.stamp == Some(key) && elem.sizset == r
    ensures forall x: Element :: x in doc && x.rank >= elem.rank && x != elem ==>
              x.stamp == old(x.stamp) && x.sizset == old(x.sizset)
    ensures TruthfulBelow(doc, names, key.dirruns, key.cachedruns, elem.rank)
    ensures !r ==> ConclusiveBelow(doc, names, key.dirruns, key.cachedruns, elem.rank)
    decreases inner, 0, 1
  {
    elem.stamp := Some(key);
    forall x: Element | x in doc && x.rank < elem.rank
      ensures Conclusive(doc, names, key.dirruns, key.cachedruns, x)
    {
      assert old(Conclusive(doc, names, key.dirruns, key.cachedruns, x));
    }
    r := ElementMatcher(inner, elem, key.dirruns, key.cachedruns, names, doc);
    label L:
    elem.sizset := r;
    forall x: Element | x in doc && x.rank < elem.rank
      ensures Truthful(doc, names, key.dirruns, key.cachedruns, x)
      ensures !r ==> Conclusive(doc, names, key.dirruns, key.cachedruns, x)
    {
      assert old@L(Truthful(doc, names, key.dirruns, key.cachedruns, x));
      assert !r ==> old@L(Conclusive(doc, names, key.dirruns, key.cachedruns, x));
    }
  }

  // What a search leaves behind: true marks in any case, conclusive ones if it failed.
  lemma SettledIsTruthful(doc: set<Element>, names: Names, key: Stamp, c: Combinator, inner: Matcher, found: bool,
                          lo: nat, hi: nat)
    requires Document(doc) && ConclusiveBelow(doc, names, key.dirruns, key.cachedruns, lo)
    requires key.doneName in names && names[key.doneName] == (c, inner)
    requires SettledBetween(doc, names, key, c, inner, found, lo, hi)
    ensures TruthfulBelow(doc, names, key.dirruns, key.cachedruns, hi)
    ensures !found ==> ConclusiveBelow(doc, names, key.dirruns, key.cachedruns, hi)
  {
    forall e: Element | e in doc && e.rank < hi
      ensures Truthful(doc, names, key.dirruns, key.cachedruns, e)
      ensures !found ==> Conclusive(doc, names, key.dirruns, key.cachedruns, e)
    {
      if e.rank < lo {
        assert Conclusive(doc, names, key.dirruns, key.cachedruns, e);
      } else {
        assert Settled(doc, names, key, c, inner, found, e);
      }
    }
  }

  // ---------------------------------------------------------------- compiling a selector

  // The signs between the parts of a selector: `>`, a space, `+` and `~`.
  datatype Relation = Child | Descendant | Adjacent | Sibling

  // The direction in which a sign looks, and whether it looks at the nearest element only.
  function Axis(rel: Relation): (Dir, bool) {
    match rel
    case Child => (ParentNode, true)
    case Descendant => (ParentNode, false)
    case Adjacent => (PreviousSibling, true)
    case Sibling => (PreviousSibling, false)
  }

  // A selector is a list of tokens, left to right: signs and element filters.
  datatype Token = Relative(rel: Relation) | Filtering(filter: Filter)

  // What a token list asks of an element, read from the right: the last filter holds here, or the rest
  // holds of an element in the last combinator's direction.
  ghost predicate Selects(doc: set<Element>, base: Head, tokens: seq<Token>, e: Element)
    requires Document(doc) && e in doc
    decreases |tokens|, 0, 0
  {
    if tokens == [] then Matches(doc, Matcher(base, []), e)
    else
      var l := |tokens| - 1;
      match tokens[l]
      case Filtering(filter) => filter(e) && Selects(doc, base, tokens[..l], e)
      case Relative(rel) => SelectsAlong(doc, base, tokens[..l], Axis(rel).0, Axis(rel).1, e)
  }

  ghost predicate SelectsAlong(doc: set<Element>, base: Head, tokens: seq<Token>, dir: Dir, first: bool, e: Element)
    requires Document(doc) && e in doc
    decreases |tokens|, 1, e.rank
  {
    var p := Next(e, dir);
    p != null &&
    if !p.isElement then SelectsAlong(doc, base, tokens, dir, first, p)
    else Selects(doc, base, tokens, p) || (!first && SelectsAlong(doc, base, tokens, dir, first, p))
  }

  // The chain of parents of a node, and that of the siblings before it, the nearest first.
  ghost function Ancestors(doc: set<Element>, e: Element): (chain: seq<Element>)
    requires Document(doc) && e in doc
    ensures forall x :: x in chain ==> x in doc
    decreases e.rank
  {
    assert Next(e, ParentNode) == e.parentNode;
    if e.parentNode == null then [] else [e.parentNode] + Ancestors(doc, e.parentNode)
  }

  ghost function Preceding(doc: set<Element>, e: Element): (chain: seq<Element>)
    requires Document(doc) && e in doc
    ensures forall x :: x in chain ==> x in doc
    decreases e.rank
  {
    assert Next(e, PreviousSibling) == e.previousSibling;
    if e.previousSibling == null then [] else [e.previousSibling] + Preceding(doc, e.previousSibling)
  }

  ghost function ChainOf(doc: set<Element>, e: Element, dir: Dir): (chain: seq<Element>)
    requires Document(doc) && e in doc
    ensures forall x :: x in chain ==> x in doc
  {
    if dir.ParentNode? then Ancestors(doc, e) else Preceding(doc, e)
  }

  lemma ChainSteps(doc: set<Element>, e: Element, dir: Dir)
    requires Document(doc) && e in doc
    ensures var p := Next(e, dir);
      if p == null then ChainOf(doc, e, dir) == [] else p in doc && ChainOf(doc, e, dir) == [p] + ChainOf(doc, p, dir)
  {
  }

  // What a search looks for among the nodes of a chain: one that it may look at and that passes; the nearest one
  // only, if it looks at no other.
  ghost predicate FoundIn(chain: seq<Element>, first: bool, mayLook: Element -> bool, passes: set<Element>) {
    exists i :: 0 <= i < |chain| && mayLook(chain[i]) && chain[i] in passes &&
                (first ==> forall j :: 0 <= j < i ==> !mayLook(chain[j]))
  }

  lemma FoundFurther(p: Element, rest: seq<Element>, first: bool, mayLook: Element -> bool, passes: set<Element>)
    ensures FoundIn([p] + rest, first, mayLook, passes) <==>
            if !mayLook(p) then FoundIn(rest, first, mayLook, passes)
            else p in passes || (!first && FoundIn(rest, first, mayLook, passes))
  {
    var chain := [p] + rest;
    if i :| 0 <= i < |rest| && mayLook(rest[i]) && rest[i] in passes &&
            (first ==> forall j :: 0 <= j < i ==> !mayLook(rest[j])) {
      assert chain[i + 1] == rest[i];
      assert forall j :: 0 < j < i + 1 ==> chain[j] == rest[j - 1];
    }
    if i :| 0 <= i < |chain| && mayLook(chain[i]) && chain[i] in passes &&
            (first ==> forall j :: 0 <= j < i ==> !mayLook(chain[j])) {
      assert chain[0] == p;
      if i > 0 {
        assert chain[i] == rest[i - 1];
        assert first ==> forall j :: 0 <= j < i - 1 ==> rest[j] == chain[j + 1] && !mayLook(rest[j]);
      }
    }
    assert p in passes && mayLook(p) ==> chain[0] in passes;
  }

  ghost function Matching(doc: set<Element>, m: Matcher): set<Element>
    requires Document(doc)
  {
    set x | x in doc && Matches(doc, m, x)
  }

  // The search of a combinator, told by the pointers of the nodes: it finds an ancestor or a preceding sibling, an
  // element unless it checks other nodes too, that matches.
  lemma {:induction false} FindsOnChain(doc: set<Element>, c: Combinator, inner: Matcher, e: Element)
    requires Document(doc) && e in doc
    ensures Finds(doc, c, inner, e) <==>
            FoundIn(if c.dir.ParentNode? then Ancestors(doc, e) else Preceding(doc, e), c.first,
                    (x: Element) => c.checkNonElements || x.isElement, Matching(doc, inner))
    decreases e.rank
  {
    var p := Next(e, c.dir);
    ChainSteps(doc, e, c.dir);
    if p != null {
      FindsOnChain(doc, c, inner, p);
      FoundFurther(p, ChainOf(doc, p, c.dir), c.first, (x: Element) => c.checkNonElements || x.isElement,
                   Matching(doc, inner));
    }
  }

  ghost function Selecting(doc: set<Element>, base: Head, tokens: seq<Token>): set<Element>
    requires Document(doc)
  {
    set x | x in doc && Selects(doc, base, tokens, x)
  }

  lemma {:induction false} SelectsOnChain(doc: set<Element>, base: Head, tokens: seq<Token>, dir: Dir, first: bool,
                                          e: Element)
    requires Document(doc) && e in doc
    ensures SelectsAlong(doc, base, tokens, dir, first, e) <==>
            FoundIn(ChainOf(doc, e, dir), first, (x: Element) => x.isElement, Selecting(doc, base, tokens))
    decreases e.rank
  {
    var p := Next(e, dir);
    ChainSteps(doc, e, dir);
    if p != null {
      SelectsOnChain(doc, base, tokens, dir, first, p);
      FoundFurther(p, ChainOf(doc, p, dir), first, (x: Element) => x.isElement, Selecting(doc, base, tokens));
    }
  }

  // What the signs mean, told by the pointers of the nodes: for `>` the nearest ancestor that is an element, for a
  // space some ancestor, for `+` the nearest element before, for `~` some element before satisfies the selector on the
  // left, and the element itself the filter on the right.
  lemma RelationMeans(doc: set<Element>, base: Head, tokens: seq<Token>, rel: Relation, h: Filter, e: Element)
    requires Document(doc) && e in doc
    ensures var left := Selecting(doc, base, tokens); var isElement := (x: Element) => x.isElement;
      Selects(doc, base, tokens + [Relative(rel), Filtering(h)], e) <==>
      h(e) && match rel
              case Child => FoundIn(Ancestors(doc, e), true, isElement, left)
              case Descendant => FoundIn(Ancestors(doc, e), false, isElement, left)
              case Adjacent => FoundIn(Preceding(doc, e), true, isElement, left)
              case Sibling => FoundIn(Preceding(doc, e), false, isElement, left)
  {
    var all := tokens + [Relative(rel), Filtering(h)];
    assert all[..|all| - 1] == tokens + [Relative(rel)];
    assert (tokens + [Relative(rel)])[..|tokens|] == tokens;
    SelectsOnChain(doc, base, tokens, Axis(rel).0, Axis(rel).1, e);
  }

  // What a selector starts from: nothing in particular, if it does not begin with a sign and its context is not the
  // outermost one; else that the sign, or a space, leads to the context, which may be a node other than an element.
  function ContextHead(lead: Option<Relation>, anywhere: bool, isContext: Filter, doneName: nat): Head {
    if lead.None? && anywhere then Test(e => true)
    else
      var (dir, first) := Axis(if lead.Some? then lead.value else Descendant);
      Related(Combinator(dir, first, dir.ParentNode?, doneName), Matcher(Test(isContext), []))
  }

  ghost function Contexts(doc: set<Element>, isContext: Filter): set<Element> {
    set x | x in doc && isContext(x)
  }

  lemma ContextMeans(doc: set<Element>, lead: Option<Relation>, anywhere: bool, isContext: Filter, doneName: nat,
                     e: Element)
    requires Document(doc) && e in doc
    ensures var any, isElement, context := (x: Element) => true, (x: Element) => x.isElement, Contexts(doc, isContext);
      Selects(doc, ContextHead(lead, anywhere, isContext, doneName), [], e) <==>
      match lead
      case None => anywhere || FoundIn(Ancestors(doc, e), false, any, context)
      case Some(Child) => FoundIn(Ancestors(doc, e), true, any, context)
      case Some(Descendant) => FoundIn(Ancestors(doc, e), false, any, context)
      case Some(Adjacent) => FoundIn(Preceding(doc, e), true, isElement, context)
      case Some(Sibling) => FoundIn(Preceding(doc, e), false, isElement, context)
  {
    var inner := Matcher(Test(isContext), []);
    var rel := if lead.Some? then lead.value else Descendant;
    FindsOnChain(doc, Combinator(Axis(rel).0, Axis(rel).1, Axis(rel).0.ParentNode?, doneName), inner, e);
    assert Matching(doc, inner) == Contexts(doc, isContext);
  }

  // The matcher selects what the tokens ask for.
  ghost predicate Implements(doc: set<Element>, m: Matcher, base: Head, tokens: seq<Token>)
    requires Document(doc)
  {
    forall e: Element :: e in doc ==> Matches(doc, m, e) == Selects(doc, base, tokens, e)
  }

  lemma {:induction false} ImplementsAlong(doc: set<Element>, m: Matcher, base: Head, tokens: seq<Token>,
                                           c: Combinator, e: Element)
    requires Document(doc) && e in doc && Implements(doc, m, base, tokens) && !c.checkNonElements
    ensures Finds(doc, c, m, e) == SelectsAlong(doc, base, tokens, c.dir, c.first, e)
    decreases e.rank
  {
    var p := Next(e, c.dir);
    if p != null {
      ImplementsAlong(doc, m, base, tokens, c, p);
    }
  }

  lemma FilterAdds(doc: set<Element>, m: Matcher, filter: Filter, e: Element)
    requires Document(doc) && e in doc
    ensures Matches(doc, Matcher(m.head, m.filters + [filter]), e) == (filter(e) && Matches(doc, m, e))
  {
    var fs := m.filters + [filter];
    assert fs[|m.filters|] == filter;
    assert forall i :: 0 <= i < |m.filters| ==> fs[i] == m.filters[i];
  }

  // Builds the matcher of a token list; every combinator gets the next name of a counter.
  method MatcherFromTokens(base: Head, tokens: seq<Token>, done0: nat, ghost names0: Names, ghost doc: set<Element>)
    returns (m: Matcher, done: nat, ghost names: Names)
    requires Document(doc) && Listed(names0, Matcher(base, [])) && forall n :: n in names0 ==> n < done0
    ensures Listed(names, m) && Implements(doc, m, base, tokens)
    ensures done0 <= done && (forall n :: n in names ==> n < done)
    ensures forall n :: n in names0 ==> n in names && names[n] == names0[n]
  {
    m, done, names := Matcher(base, []), done0, names0;
    for i := 0 to |tokens|
      invariant done0 <= done && (forall n :: n in names ==> n < done)
      invariant forall n :: n in names0 ==> n in names && names[n] == names0[n]
      invariant Listed(names, m) && Implements(doc, m, base, tokens[..i])
    {
      assert tokens[..i + 1][..i] == tokens[..i];
      ghost var inner := m;
      match tokens[i]
      case Filtering(filter) =>
        m := Matcher(m.head, m.filters + [filter]);
        forall e: Element | e in doc
          ensures Matches(doc, m, e) == Selects(doc, base, tokens[..i + 1], e)
        {
          FilterAdds(doc, inner, filter, e);
        }
      case Relative(rel) =>
        var (dir, first) := Axis(rel);
        var comb := Combinator(dir, first, false, done);
        ghost var names1 := names[done := (comb, m)];
        assert Listed(names1, Matcher(Related(comb, m), [])) <==> NamedAs(names1, comb, m);
        ListedMore(names, names1, m);
        forall e: Element | e in doc
          ensures Matches(doc, Matcher(Related(comb, inner), []), e) == Selects(doc, base, tokens[..i + 1], e)
        {
          ImplementsAlong(doc, inner, base, tokens[..i], comb, e);
        }
        m, done, names := Matcher(Related(comb, m), []), done + 1, names1;
    }
    assert tokens[..|tokens|] == tokens;
  }

  lemma {:induction false} ListedMore(names: Names, names': Names, m: Matcher)
    requires Listed(names, m) && forall n :: n in names ==> n in names' && names'[n] == names[n]
    ensures Listed(names', m)
    decreases m
  {
    if m.head.Related? {
      ListedMore(names, names', m.head.inner);
    }
  }

  // ---------------------------------------------------------------- running a selector

  ghost predicate MatchesSome(doc: set<Element>, matchers: seq<Matcher>, e: Element)
    requires Document(doc) && e in doc
  {
    exists j :: 0 <= j < |matchers| && Matches(doc, matchers[j], e)
  }

  ghost function Selected(doc: set<Element>, matchers: seq<Matcher>, elems: seq<Element>): seq<Element>
    requires Document(doc) && forall i :: 0 <= i < |elems| ==> elems[i] in doc
  {
    if elems == [] then []
    else
      var l := |elems| - 1;
      Selected(doc, matchers, elems[..l]) + if MatchesSome(doc, matchers, elems[l]) then [elems[l]] else []
  }

  // The candidates that one matcher holds of, and no others, each as often as it comes and in its place.
  lemma {:induction false} SelectedExactly(doc: set<Element>, matchers: seq<Matcher>, l: seq<Element>, e: Element,
                                           r: seq<Element>)
    requires Document(doc) && (forall x :: x in l + [e] + r ==> x in doc)
    ensures (forall x :: x in l || x == e || x in r ==> x in doc)
    ensures Selected(doc, matchers, l + [e] + r) ==
            Selected(doc, matchers, l) +
            (if exists j :: 0 <= j < |matchers| && Matches(doc, matchers[j], e) then [e] else []) +
            Selected(doc, matchers, r)
    decreases |r|
  {
    var all := l + [e] + r;
    assert forall x :: x in l || x == e || x in r ==> x in all;
    assert all[..|all|] == all;
    if r == [] {
      assert all[..|all| - 1] == l;
    } else {
      var r1 := r[..|r| - 1];
      assert all[..|all| - 1] == l + [e] + r1;
      assert forall x :: x in l + [e] + r1 ==> x in all;
      SelectedExactly(doc, matchers, l, e, r1);
    }
  }

  // All marks on the elements are of runs before this one.
  ghost predicate MarkedBefore(doc: set<Element>, dirruns: nat)
    reads doc
  {
    forall e: Element :: e in doc && e.stamp.Some? ==> e.stamp.value.dirruns < dirruns
  }

  // Tests one candidate by the matchers of a group, until one holds.
  method MatchCandidate(e: Element, matchers: seq<Matcher>, dirruns: nat, cachedruns: nat,
                        ghost names: Names, ghost top: nat, ghost doc: set<Element>)
    returns (r: bool)
    requires Document(doc) && e in doc && (forall x: Element :: x in doc ==> x.rank < top)
    requires forall j :: 0 <= j < |matchers| ==> Listed(names, matchers[j])
    requires ConclusiveBelow(doc, names, dirruns, cachedruns, top)
    modifies doc
    ensures r == MatchesSome(doc, matchers, e)
    ensures TruthfulBelow(doc, names, dirruns, cachedruns, top)
  {
    var j := 0;
    while j < |matchers|
      invariant j <= |matchers| && forall i :: 0 <= i < j ==> !Matches(doc, matchers[i], e)
      invariant ConclusiveBelow(doc, names, dirruns, cachedruns, top)
    {
      label L:
      forall x: Element | x in doc && x.rank < e.rank
        ensures Conclusive(doc, names, dirruns, cachedruns, x)
      {
      }
      r := ElementMatcher(matchers[j], e, dirruns, cachedruns, names, doc);
      forall x: Element | x in doc
        ensures Truthful(doc, names, dirruns, cachedruns, x)
        ensures !r ==> Conclusive(doc, names, dirruns, cachedruns, x)
      {
        assert x.rank >= e.rank ==> old@L(Conclusive(doc, names, dirruns, cachedruns, x));
      }
      if r {
        return;
      }
      j := j + 1;
    }
    ConclusiveIsTruthful(doc, names, dirruns, cachedruns, top);
    r := false;
  }

  // Runs a group of selectors over the candidates; `el` numbers the candidates of all runs.
  method SuperMatcher(elems: seq<Element>, matchers: seq<Matcher>, dirruns: nat, el: nat,
                      ghost names: Names, ghost top: nat, ghost doc: set<Element>)
    returns (results: seq<Element>, el': nat)
    requires Document(doc) && (forall i :: 0 <= i < |elems| ==> elems[i] in doc) &&
              (forall x: Element :: x in doc ==> x.rank < top)
    requires forall j :: 0 <= j < |matchers| ==> Listed(names, matchers[j])
    requires MarkedBefore(doc, dirruns)
    modifies doc
    ensures results == Selected(doc, matchers, elems) && MarkedBefore(doc, dirruns + 1)
  {
    var cachedruns := el;
    results := [];
    forall x: Element | x in doc
      ensures Conclusive(doc, names, dirruns, cachedruns, x)
    {
    }
    var i := 0;
    while i < |elems|
      invariant i <= |elems| && results == Selected(doc, matchers, elems[..i])
      invariant ConclusiveBelow(doc, names, dirruns, cachedruns, top)
    {
      var matched := MatchCandidate(elems[i], matchers, dirruns, cachedruns, names, top, doc);
      assert elems[..i + 1][..i] == elems[..i];
      if matched {
        results := results + [elems[i]];
      }
      // A mark of an earlier candidate concludes nothing, so every true mark is conclusive again.
      forall x: Element | x in doc
        ensures Conclusive(doc, names, dirruns, cachedruns + 1, x)
      {
        assert Truthful(doc, names, dirruns, cachedruns, x);
      }
      cachedruns := cachedruns + 1;
      i := i + 1;
    }
    assert elems[..|elems|] == elems;
    el' := cachedruns;
    forall x: Element | x in doc && x.stamp.Some?
      ensures x.stamp.value.dirruns < dirruns + 1
    {
      assert Conclusive(doc, names, dirruns, cachedruns, x);
    }
  }

  // A group of selectors, the candidates for it, and the number of the next candidate.
  datatype Query = Query(elems: seq<Element>, matchers: seq<Matcher>, el: nat)

  // One run after another on the same elements, each under the next run number; the marks of all runs stay where
  // they are unless they are overwritten.
  method RunAll(queries: seq<Query>, dirruns0: nat, ghost names: seq<Names>, ghost top: nat, ghost doc: set<Element>)
    returns (results: seq<seq<Element>>)
    requires Document(doc) && (forall x: Element :: x in doc ==> x.rank < top) && |names| == |queries|
    requires forall k, i :: 0 <= k < |queries| && 0 <= i < |queries[k].elems| ==> queries[k].elems[i] in doc
    requires forall k, j :: 0 <= k < |queries| && 0 <= j < |queries[k].matchers| ==>
               Listed(names[k], queries[k].matchers[j])
    requires MarkedBefore(doc, dirruns0 + 1)
    modifies doc
    ensures |results| == |queries| && MarkedBefore(doc, dirruns0 + |queries| + 1)
    ensures forall k :: 0 <= k < |queries| ==> results[k] == Selected(doc, queries[k].matchers, queries[k].elems)
  {
    results := [];
    var dirruns := dirruns0;
    for k := 0 to |queries|
      invariant dirruns == dirruns0 + k && MarkedBefore(doc, dirruns + 1) && |results| == k
      invariant forall l :: 0 <= l < k ==> results[l] == Selected(doc, queries[l].matchers, queries[l].elems)
    {
      dirruns := dirruns + 1;
      var found, _ := SuperMatcher(queries[k].elems, queries[k].matchers, dirruns, queries[k].el, names[k], top, doc);
      results := results + [found];
    }
  }

  // ---------------------------------------------------------------- the text of a mark

  // The mark is stored as one text, and compared as a text.
  function DirKey(s: Stamp): string {
    Decimal(s.dirruns) + " " + Decimal(s.doneName) + " "
  }

  function CachedKey(s: Stamp): string {
    DirKey(s) + Decimal(s.cachedruns)
  }

  lemma FirstIn(s: string)
    ensures s != [] ==> s[0] in s
  {
  }

  // A digit string is cut off by the first space.
  lemma {:induction false} SpaceCuts(a: string, b: string, u: string, v: string)
    requires ' ' !in a && ' ' !in b && a + [' '] + u <= b + [' '] + v
    ensures a == b && u <= v
  {
    var x, y := a + [' '] + u, b + [' '] + v;
    if a == [] || b == [] {
      assert x[0] == y[0];
      FirstIn(a);
      FirstIn(b);
      assert x[1..] == u && y[1..] == v;
    } else {
      assert x[0] == y[0];
      assert a[1..] + [' '] + u == x[1..] && b[1..] + [' '] + v == y[1..];
      SpaceCuts(a[1..], b[1..], u, v);
      assert a == [a[0]] + a[1..] && b == [b[0]] + b[1..];
    }
  }

  lemma {:induction false} NoSpaces(n: nat)
    ensures ' ' !in Decimal(n)
  {
    if n >= 10 {
      NoSpaces(n / 10);
    }
  }

  // Equal texts are equal marks, and a text begins with a key exactly for the same run and combinator.
  lemma MarksAsTexts(s: Stamp, t: Stamp)
    ensures CachedKey(s) == CachedKey(t) <==> s == t
    ensures DirKey(t) <= CachedKey(s) <==> s.dirruns == t.dirruns && s.doneName == t.doneName
  {
    var d, e := Decimal(s.dirruns), Decimal(t.dirruns);
    var m, n := Decimal(s.doneName), Decimal(t.doneName);
    var a := Decimal(s.cachedruns);
    NoSpaces(s.dirruns);
    NoSpaces(t.dirruns);
    NoSpaces(s.doneName);
    NoSpaces(t.doneName);
    assert CachedKey(s) == d + [' '] + (m + [' '] + a);
    assert DirKey(t) == e + [' '] + (n + [' ']);
    if DirKey(t) <= CachedKey(s) {
      SpaceCuts(e, d, n + [' '], m + [' '] + a);
      assert n + [' '] == n + [' '] + [];
      SpaceCuts(n, m, [], a);
      DecimalInjective(t.dirruns, s.dirruns);
      DecimalInjective(t.doneName, s.doneName);
    }
    if CachedKey(s) == CachedKey(t) {
      assert DirKey(t) <= CachedKey(t);
      assert CachedKey(s)[|DirKey(s)|..] == a && CachedKey(t)[|DirKey(t)|..] == Decimal(t.cachedruns);
      DecimalInjective(s.cachedruns, t.cachedruns);
    }
  }
}
