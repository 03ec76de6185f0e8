// The order in which the features of a node are listed: some left out by prefix, some put first or last.
module NameFilter {
  import opened Prelude

  // ---------------------------------------------------------------- the order of strings

  predicate Less(s: string, t: string) {
    if s == [] then t != []
    else t != [] && (s[0] < t[0] || (s[0] == t[0] && Less(s[1..], t[1..])))
  }

  lemma {:induction false} LessIsTotal(s: string, t: string)
    ensures !Less(s, s)
    ensures s == t || Less(s, t) || Less(t, s)
    ensures !(Less(s, t) && Less(t, s))
  {
    if s != [] {
      LessIsTotal(s[1..], s[1..]);
      if t != [] {
        LessIsTotal(s[1..], t[1..]);
        assert s == [s[0]] + s[1..] && t == [t[0]] + t[1..];
      }
    }
  }

  lemma {:induction false} LessIsTransitive(s: string, t: string, u: string)
    requires Less(s, t) && Less(t, u)
    ensures Less(s, u)
  {
    if s != [] && s[0] == t[0] == u[0] {
      LessIsTransitive(s[1..], t[1..], u[1..]);
    }
  }

  // The first place where two strings differ, and the smaller character is in s.
  ghost predicate SmallerAt(s: string, t: string, i: nat) {
    i < |s| && i < |t| && s[..i] == t[..i] && s[i] < t[i]
  }

  lemma SmallerLater(s: string, t: string, i: nat)
    requires s != [] && t != []
    ensures SmallerAt(s, t, i + 1) <==> s[0] == t[0] && SmallerAt(s[1..], t[1..], i)
  {
    if i + 1 < |s| && i + 1 < |t| {
      assert s[..i + 1] == [s[0]] + s[1..][..i] && t[..i + 1] == [t[0]] + t[1..][..i];
      assert s[..i + 1] == t[..i + 1] ==> s[1..][..i] == s[..i + 1][1..] == t[..i + 1][1..] == t[1..][..i];
    }
  }

  // The order is the alphabetical one: the smaller character decides at the first place where two strings differ,
  // and a string comes before its extensions.
  lemma {:induction false} LessExactly(s: string, t: string)
    ensures Less(s, t) <==> s < t || exists i :: SmallerAt(s, t, i)
  {
    if s != [] && t != [] {
      LessExactly(s[1..], t[1..]);
      assert s == [s[0]] + s[1..] && t == [t[0]] + t[1..];
      forall i: nat
        ensures SmallerAt(s, t, i) <==> if i == 0 then s[0] < t[0] else s[0] == t[0] && SmallerAt(s[1..], t[1..], i - 1)
      {
        if i > 0 {
          SmallerLater(s, t, i - 1);
        }
      }
      if i: nat :| SmallerAt(s[1..], t[1..], i) {
        assert SmallerAt(s, t, i + 1) <==> s[0] == t[0];
      }
      assert SmallerAt(s, t, 0) <==> s[0] < t[0];
    }
  }

  // ---------------------------------------------------------------- sorted names

  ghost predicate StrictlySorted(s: seq<string>) {
    forall i, j :: 0 <= i < j < |s| ==> Less(s[i], s[j])
  }

  lemma NamesOfNone(s: seq<string>)
    ensures Elements(s) == {} <==> s == []
  {
    if s != [] {
      assert s[0] in Elements(s);
    }
  }

  // There is one way to list a set in order.
  lemma {:induction false} SortedIsUnique(s: seq<string>, t: seq<string>)
    requires StrictlySorted(s) && StrictlySorted(t) && Elements(s) == Elements(t)
    ensures s == t
  {
    NamesOfNone(s);
    NamesOfNone(t);
    if s != [] {
      FirstIsLeast(s, t);
      FirstIsLeast(t, s);
      LessIsTotal(s[0], t[0]);
      TailNames(s);
      TailNames(t);
      SortedIsUnique(s[1..], t[1..]);
    }
  }

  lemma FirstIsLeast(s: seq<string>, t: seq<string>)
    requires StrictlySorted(s) && s != [] && t != [] && Elements(s) == Elements(t)
    ensures s[0] == t[0] || Less(s[0], t[0])
  {
    assert t[0] in Elements(t) && t[0] in s;
  }

  lemma TailNames(s: seq<string>)
    requires StrictlySorted(s) && s != []
    ensures Elements(s[1..]) == Elements(s) - {s[0]}
  {
    LessIsTotal(s[0], s[0]);
    assert s == [s[0]] + s[1..];
  }

  lemma SortedHasNoRepeats(s: seq<string>)
    requires StrictlySorted(s)
    ensures Distinct(s)
  {
    forall i, j | 0 <= i < j < |s|
      ensures s[i] != s[j]
    {
      LessIsTotal(s[i], s[j]);
    }
  }

  // The least name of a set.
  method Least(names: set<string>) returns (m: string)
    requires names != {}
    ensures m in names && forall x :: x in names ==> x == m || Less(m, x)
  {
    m :| m in names;
    var todo := names - {m};
    while todo != {}
      invariant m in names && todo <= names
      invariant forall x :: x in names - todo ==> x == m || Less(m, x)
      decreases todo
    {
      var x :| x in todo;
      todo := todo - {x};
      LessIsTotal(m, x);
      if Less(x, m) {
        forall y | y in names - todo && y != x
          ensures Less(x, y)
        {
          if y != m {
            LessIsTransitive(x, m, y);
          }
        }
        m := x;
      }
    }
  }

  // The names of a set in order, as a tree set yields them.
  method Sorted(names: set<string>) returns (s: seq<string>)
    ensures StrictlySorted(s) && Elements(s) == names
  {
    s := [];
    var todo := names;
    while todo != {}
      invariant StrictlySorted(s) && Elements(s) == names - todo && todo <= names
      invariant forall x, y :: x in s && y in todo ==> Less(x, y)
      decreases todo
    {
      var m := Least(todo);
      LessIsTotal(m, m);
      assert forall x :: x in s ==> Less(x, m);
      assert Elements(s + [m]) == Elements(s) + {m};
      s := s + [m];
      todo := todo - {m};
    }
  }

  // ---------------------------------------------------------------- transferring

  predicate HasPrefix(name: string, prefix: string) {
    prefix <= name
  }

  function WithPrefix(names: set<string>, prefix: string): set<string> {
    set n | n in names && HasPrefix(n, prefix)
  }

  // A name comes before its extensions.
  lemma {:induction false} PrefixIsLess(p: string, n: string)
    requires p <= n && p != n
    ensures Less(p, n)
  {
    if p != [] {
      assert p[1..] <= n[1..];
      assert p == [p[0]] + p[1..] && n == [n[0]] + n[1..];
      PrefixIsLess(p[1..], n[1..]);
    }
  }

  lemma PrefixFirst(names: set<string>, prefix: string, ts: seq<string>)
    requires StrictlySorted(ts) && Elements(ts) == WithPrefix(names - {prefix}, prefix)
    ensures var block := if prefix in names then [prefix] + ts else ts;
      StrictlySorted(block) && Elements(block) == WithPrefix(names, prefix)
  {
    forall x | x in ts
      ensures x in names && x != prefix && HasPrefix(x, prefix) && Less(prefix, x)
    {
      assert x in Elements(ts);
      PrefixIsLess(prefix, x);
    }
    if prefix in names {
      assert Elements([prefix] + ts) == {prefix} + Elements(ts);
    }
  }

  lemma MovedBlock(output: seq<string>, names: set<string>, prefix: string, ts: seq<string>)
    returns (block: seq<string>)
    requires StrictlySorted(ts) && Elements(ts) == WithPrefix(names - {prefix}, prefix)
    ensures (if prefix in names then output + [prefix] else output) + ts == output + block
    ensures StrictlySorted(block) && Elements(block) == WithPrefix(names, prefix)
    ensures names - {prefix} - Elements(ts) == names - WithPrefix(names, prefix)
  {
    PrefixFirst(names, prefix, ts);
    PrefixApart(names, prefix);
    block := if prefix in names then [prefix] + ts else ts;
  }

  lemma PrefixApart(names: set<string>, prefix: string)
    ensures names - {prefix} - WithPrefix(names - {prefix}, prefix) == names - WithPrefix(names, prefix)
    ensures prefix !in names ==> names - {prefix} == names
  {
    assert HasPrefix(prefix, prefix);
  }

  // Moves the names with a prefix to the end of a list: the prefix itself first, then the others in order.
  method TransferMultiNames(output: seq<string>, featureNames: set<string>, prefix: string)
    returns (output': seq<string>, featureNames': set<string>, ghost block: seq<string>)
    ensures output' == output + block && featureNames' == featureNames - WithPrefix(featureNames, prefix)
    ensures StrictlySorted(block) && Elements(block) == WithPrefix(featureNames, prefix)
  {
    output', featureNames' := TransferName(output, featureNames, prefix);
    var ts := Sorted(WithPrefix(featureNames', prefix));
    SortedHasNoRepeats(ts);
    output', featureNames' := TransferEach(output', featureNames', ts);
    block := MovedBlock(output, featureNames, prefix, ts);
  }

  // Moves the names of a list, in its order.
  method TransferEach(output: seq<string>, featureNames: set<string>, ts: seq<string>)
    returns (output': seq<string>, featureNames': set<string>)
    requires Distinct(ts) && Elements(ts) <= featureNames
    ensures output' == output + ts && featureNames' == featureNames - Elements(ts)
  {
    output', featureNames' := output, featureNames;
    for i := 0 to |ts|
      invariant output' == output + ts[..i]
      invariant featureNames' == featureNames - Elements(ts[..i])
    {
      assert ts[..i + 1] == ts[..i] + [ts[i]];
      assert Elements(ts[..i + 1]) == Elements(ts[..i]) + {ts[i]};
      assert ts[i] in Elements(ts) && ts[i] !in ts[..i];
      output', featureNames' := TransferName(output', featureNames', ts[i]);
    }
    assert ts[..|ts|] == ts;
  }

  // Moves one name, if it is there.
  method TransferName(output: seq<string>, featureNames: set<string>, name: string)
    returns (output': seq<string>, featureNames': set<string>)
    ensures featureNames' == featureNames - {name}
    ensures output' == if name in featureNames then output + [name] else output
  {
    output', featureNames' := output, featureNames;
    if name in featureNames {
      output', featureNames' := output + [name], featureNames - {name};
    }
  }

  // ---------------------------------------------------------------- the listing

  // The blocks of names that a list of prefixes takes out of a set, one prefix after the other.
  ghost predicate AreBlocks(blocks: seq<seq<string>>, prefixes: seq<string>, names: set<string>) {
    && |blocks| == |prefixes|
    && forall i :: 0 <= i < |blocks| ==>
         StrictlySorted(blocks[i]) && Elements(blocks[i]) == WithPrefix(LeftOver(names, prefixes[..i]), prefixes[i])
  }

  // The names with none of the prefixes.
  ghost function LeftOver(names: set<string>, prefixes: seq<string>): set<string> {
    set n | n in names && forall p :: p in prefixes ==> !HasPrefix(n, p)
  }

  ghost function Flat(blocks: seq<seq<string>>): seq<string> {
    if blocks == [] then [] else Flat(blocks[..|blocks| - 1]) + blocks[|blocks| - 1]
  }

  lemma LeftOverMore(names: set<string>, prefixes: seq<string>, p: string)
    ensures LeftOver(names, prefixes + [p]) == LeftOver(names, prefixes) - WithPrefix(LeftOver(names, prefixes), p)
  {
    assert forall q :: q in prefixes + [p] <==> q in prefixes || q == p;
  }

  lemma BlocksMore(blocks: seq<seq<string>>, prefixes: seq<string>, names: set<string>, b: seq<string>, p: string)
    requires AreBlocks(blocks, prefixes, names)
    requires StrictlySorted(b) && Elements(b) == WithPrefix(LeftOver(names, prefixes), p)
    ensures AreBlocks(blocks + [b], prefixes + [p], names)
    ensures Flat(blocks + [b]) == Flat(blocks) + b
  {
    var bs, ps := blocks + [b], prefixes + [p];
    assert bs[..|bs| - 1] == blocks;
    forall i | 0 <= i < |bs|
      ensures StrictlySorted(bs[i]) && Elements(bs[i]) == WithPrefix(LeftOver(names, ps[..i]), ps[i])
    {
      assert ps[..i] == prefixes[..i];
      assert prefixes[..|prefixes|] == prefixes;
    }
  }

  // Together the blocks hold exactly the names with one of the prefixes, each of them once.
  lemma {:induction false} BlocksHold(blocks: seq<seq<string>>, prefixes: seq<string>, names: set<string>)
    requires AreBlocks(blocks, prefixes, names)
    ensures Distinct(Flat(blocks)) && Elements(Flat(blocks)) == names - LeftOver(names, prefixes)
  {
    if blocks == [] {
      assert prefixes == [];
    } else {
      var l := |blocks| - 1;
      var bs, ps := blocks[..l], prefixes[..l];
      assert forall i :: 0 <= i < l ==> ps[..i] == prefixes[..i];
      BlocksHold(bs, ps, names);
      SortedHasNoRepeats(blocks[l]);
      LeftOverMore(names, ps, prefixes[l]);
      assert prefixes == ps + [prefixes[l]];
      JoinDisjoint(Flat(bs), blocks[l]);
    }
  }

  lemma JoinDisjoint(s: seq<string>, t: seq<string>)
    requires Distinct(s) && Distinct(t) && Elements(s) !! Elements(t)
    ensures Distinct(s + t) && Elements(s + t) == Elements(s) + Elements(t)
  {
    forall i, j | 0 <= i < j < |s + t|
      ensures (s + t)[i] != (s + t)[j]
    {
      if i < |s| <= j {
        assert s[i] in Elements(s) && t[j - |s|] in Elements(t);
      }
    }
  }

  // The entries of an order before and after its first empty one.
  ghost function Before(order: seq<string>): (r: seq<string>) {
    if order == [] || order[0] == "" then [] else [order[0]] + Before(order[1..])
  }

  ghost function After(order: seq<string>): (r: seq<string>) {
    if order == [] then [] else if order[0] == "" then order[1..] else After(order[1..])
  }

  // No entry before is empty, and the first empty one stands between the two parts, if there is one.
  lemma {:induction false} OrderSplits(order: seq<string>)
    ensures "" !in Before(order)
    ensures order == Before(order) + if "" in order then [""] + After(order) else []
    ensures "" !in order ==> After(order) == []
  {
    if order != [] {
      OrderSplits(order[1..]);
      assert order == [order[0]] + order[1..];
    }
  }

  // How far the order has been gone through: `firsts` are the entries so far, and no empty one was among
  // them unless it was the last.
  ghost predicate GoneThrough(order: seq<string>, i: nat, foundEmpty: bool, firsts: seq<string>) {
    && i <= |order|
    && Before(order) == firsts + (if foundEmpty then [] else Before(order[i..]))
    && After(order) == if foundEmpty then order[i..] else After(order[i..])
  }

  lemma GoneFurther(order: seq<string>, i: nat, firsts: seq<string>)
    requires i < |order| && GoneThrough(order, i, false, firsts)
    ensures if order[i] == "" then GoneThrough(order, i + 1, true, firsts)
              else GoneThrough(order, i + 1, false, firsts + [order[i]])
  {
    assert order[i..][1..] == order[i + 1..];
    if order[i] != "" {
      assert firsts + ([order[i]] + Before(order[i + 1..])) == firsts + [order[i]] + Before(order[i + 1..]);
    }
  }

  lemma GoneToEnd(order: seq<string>, i: nat, foundEmpty: bool, firsts: seq<string>)
    requires GoneThrough(order, i, foundEmpty, firsts) && (foundEmpty || i == |order|)
    ensures firsts == Before(order) && After(order) == order[i..]
  {
    assert firsts + [] == firsts;
  }

  // A listing: the blocks of the entries before the empty one, then what no entry claims, in order, then
  // the blocks of the entries after it.
  ghost predicate IsListing(s: seq<string>, names: set<string>, order: seq<string>,
                            first: seq<seq<string>>, rest: seq<string>, last: seq<seq<string>>)
  {
    && AreBlocks(first, Before(order), names)
    && AreBlocks(last, After(order), LeftOver(names, Before(order)))
    && StrictlySorted(rest) && Elements(rest) == LeftOver(LeftOver(names, Before(order)), After(order))
    && s == Flat(first) + rest + Flat(last)
  }

  // A listing has every name, once.
  lemma ListingIsComplete(s: seq<string>, names: set<string>, order: seq<string>,
                          first: seq<seq<string>>, rest: seq<string>, last: seq<seq<string>>)
    requires IsListing(s, names, order, first, rest, last)
    ensures Distinct(s) && Elements(s) == names
  {
    var left := LeftOver(names, Before(order));
    BlocksHold(first, Before(order), names);
    BlocksHold(last, After(order), left);
    SortedHasNoRepeats(rest);
    JoinDisjoint(Flat(first), rest);
    JoinDisjoint(Flat(first) + rest, Flat(last));
  }

  // The state of a transfer: the blocks of some prefixes are in the output and gone from the names.
  ghost predicate Taken(names0: set<string>, prefixes: seq<string>, blocks: seq<seq<string>>, output: seq<string>,
                        names: set<string>) {
    AreBlocks(blocks, prefixes, names0) && output == Flat(blocks) && names == LeftOver(names0, prefixes)
  }

  lemma TakenMore(names0: set<string>, ps: seq<string>, bs: seq<seq<string>>, output: seq<string>, names: set<string>,
                  p: string, b: seq<string>)
    requires Taken(names0, ps, bs, output, names)
    requires StrictlySorted(b) && Elements(b) == WithPrefix(names, p)
    ensures Taken(names0, ps + [p], bs + [b], output + b, names - WithPrefix(names, p))
  {
    BlocksMore(bs, ps, names0, b, p);
    LeftOverMore(names0, ps, p);
  }

  // Transfers the names of one prefix after the other.
  method TransferAll(featureNames: set<string>, prefixes: seq<string>)
    returns (output: seq<string>, names: set<string>, ghost blocks: seq<seq<string>>)
    ensures Taken(featureNames, prefixes, blocks, output, names)
  {
    output, names, blocks := [], featureNames, [];
    assert LeftOver(names, []) == names;
    for i := 0 to |prefixes|
      invariant Taken(featureNames, prefixes[..i], blocks, output, names)
    {
      ghost var output0, names0 := output, names;
      ghost var block;
      output, names, block := TransferMultiNames(output, names, prefixes[i]);
      TakenMore(featureNames, prefixes[..i], blocks, output0, names0, prefixes[i], block);
      blocks := blocks + [block];
      assert prefixes[..i + 1] == prefixes[..i] + [prefixes[i]];
    }
    assert prefixes[..|prefixes|] == prefixes;
  }

  // ---------------------------------------------------------------- the filter

  class FeatureNameFilter {
    const ignoreSet: set<string>
    const featureOrder: seq<string>

    constructor (ignores: set<string>, order: Option<seq<string>>)
      ensures ignoreSet == ignores
      ensures featureOrder == if order.None? then [""] else order.value
    {
      ignoreSet := ignores;
      featureOrder := if order.None? then [""] else order.value;
    }

    predicate Keeps(name: string) {
      forall p :: p in ignoreSet ==> !HasPrefix(name, p)
    }

    function Kept(names: set<string>): set<string> {
      set n | n in names && Keeps(n)
    }

    // Lists the names in the order asked for.
    method Transfer(featureNames: set<string>) returns (output: seq<string>)
      ensures exists first, rest, last :: IsListing(output, featureNames, featureOrder, first, rest, last)
    {
      var names, i;
      ghost var first, lasts;
      output, names, i, first := TransferToEmpty(featureNames);
      var afterOthers;
      ghost var left := names;
      afterOthers, names, lasts := TransferAll(names, featureOrder[i..]);
      var rest := Sorted(names);
      output := output + rest + afterOthers;
      assert IsListing(output, featureNames, featureOrder, first, rest, lasts);
    }

    // The entries of the order before the empty one; `i` is where those after it begin.
    method TransferToEmpty(featureNames: set<string>)
      returns (output: seq<string>, names: set<string>, i: nat, ghost first: seq<seq<string>>)
      ensures Taken(featureNames, Before(featureOrder), first, output, names)
      ensures i <= |featureOrder| && After(featureOrder) == featureOrder[i..]
    {
      output, names, i, first := [], featureNames, 0, [];
      var foundEmpty := false;
      ghost var firsts, block := [], [];
      assert LeftOver(featureNames, []) == featureNames;
      while i < |featureOrder| && !foundEmpty
        invariant GoneThrough(featureOrder, i, foundEmpty, firsts)
        invariant Taken(featureNames, firsts, first, output, names)
        decreases |featureOrder| - i
      {
        var s := featureOrder[i];
        GoneFurther(featureOrder, i, firsts);
        i := i + 1;
        if s == "" {
          foundEmpty := true;
        } else {
          ghost var output0, names0 := output, names;
          output, names, block := TransferMultiNames(output, names, s);
          TakenMore(featureNames, firsts, first, output0, names0, s, block);
          first, firsts := first + [block], firsts + [s];
        }
      }
      GoneToEnd(featureOrder, i, foundEmpty, firsts);
    }

    // The features of a node with these keys, as they are printed: none with an ignored prefix, every
    // other one once.
    method Features(featureNames: set<string>) returns (output: seq<string>)
      ensures Distinct(output)
      ensures forall n :: n in output <==> n in featureNames && Keeps(n)
      ensures exists first, rest, last ::
                IsListing(output, Kept(featureNames), featureOrder, first, rest, last)
    {
      var names := featureNames;
      var todo := ignoreSet;
      while todo != {}
        invariant todo <= ignoreSet
        invariant forall n :: n in names <==>
                    n in featureNames && forall p :: p in ignoreSet - todo ==> !HasPrefix(n, p)
        decreases todo
      {
        var p :| p in todo;
        todo := todo - {p};
        var _, left, _ := TransferMultiNames([], names, p);
        names := left;
      }
      assert names == Kept(featureNames);
      output := Transfer(names);
      ghost var first, rest, last :| IsListing(output, names, featureOrder, first, rest, last);
      ListingIsComplete(output, names, featureOrder, first, rest, last);
      assert forall n :: n in output <==> n in Elements(output);
    }
  }
}
