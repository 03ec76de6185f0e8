// How a conjunction group lists its members: under the keys member0, member1, and so on.
module MemberKeys {
  import opened Prelude
  import opened FeatureGraph
  import opened Numerals

  const MEMBER_PREFIX: Key := "member"

  function MemberKey(i: nat): (k: Key) {
    MEMBER_PREFIX + Decimal(i)
  }

  predicate IsMemberKey(k: Key) {
    |k| > |MEMBER_PREFIX| && k[..|MEMBER_PREFIX|] == MEMBER_PREFIX
  }

  function GroupKeys<N>(kv: map<Key, N>): set<Key> {
    set k | k in kv && IsMemberKey(k)
  }

  // The keys member0 .. member(n-1).
  ghost function FirstKeys(n: nat): (ks: seq<Key>)
    ensures |ks| == n
  {
    if n == 0 then [] else FirstKeys(n - 1) + [MemberKey(n - 1)]
  }

  // The member keys of the table are exactly the given ones, and lead to the nodes of s, all different.
  ghost predicate ListedUnder<N>(kv: map<Key, N>, s: seq<N>, ks: seq<Key>) {
    && |ks| == |s| && Distinct(s) && Distinct(ks)
    && GroupKeys(kv) == Elements(ks)
    && forall i :: 0 <= i < |s| ==> ks[i] in kv && kv[ks[i]] == s[i]
  }

  // The member keys are exactly member0 .. member(|s|-1), and lead to the nodes of s in this order.
  ghost predicate Numbered<N>(kv: map<Key, N>, s: seq<N>) {
    ListedUnder(kv, s, FirstKeys(|s|))
  }

  // Two tables agree on everything that is not a member key.
  ghost predicate SameRest<N>(kv: map<Key, N>, kv': map<Key, N>) {
    forall k :: !IsMemberKey(k) ==> (k in kv <==> k in kv') && (k in kv ==> kv[k] == kv'[k])
  }

  // ---------------------------------------------------------------- the numbers

  lemma MemberKeyInjective(i: nat, j: nat)
    ensures IsMemberKey(MemberKey(i))
    ensures MemberKey(i) == MemberKey(j) ==> i == j
  {
    assert MemberKey(i)[|MEMBER_PREFIX|..] == Decimal(i) && MemberKey(j)[|MEMBER_PREFIX|..] == Decimal(j);
    if MemberKey(i) == MemberKey(j) {
      DecimalInjective(i, j);
    }
  }

  // The keys as they are spelt.
  lemma MemberKeysSpelt()
    ensures MemberKey(0) == "member0" && MemberKey(12) == "member12"
    ensures IsMemberKey("member0") && IsMemberKey("members") && !IsMemberKey("member") && !IsMemberKey("numbers")
  {
    assert Decimal(12) == Decimal(1) + [Digit(2)] == "12";
    assert "members"[..6] == "member" && "numbers"[..6] == "number";
    assert "numbers"[..6][0] != "member"[0];
  }

  lemma {:induction false} FirstKeyAt(n: nat, i: nat)
    requires i < n
    ensures FirstKeys(n)[i] == MemberKey(i)
  {
    if i < n - 1 {
      FirstKeyAt(n - 1, i);
    }
  }

  lemma FirstKeysFacts(n: nat)
    ensures Distinct(FirstKeys(n))
    ensures forall i :: 0 <= i < n ==> IsMemberKey(FirstKeys(n)[i])
  {
    forall i, j | 0 <= i < n && 0 <= j < n
      ensures IsMemberKey(FirstKeys(n)[i])
      ensures i != j ==> FirstKeys(n)[i] != FirstKeys(n)[j]
    {
      FirstKeyAt(n, i);
      FirstKeyAt(n, j);
      MemberKeyInjective(i, j);
    }
  }

  lemma {:induction false} ElementsOfDistinct<T>(s: seq<T>)
    requires Distinct(s)
    ensures |Elements(s)| == |s|
  {
    if s != [] {
      var i := |s| - 1;
      ElementsOfDistinct(s[..i]);
      assert Elements(s) == Elements(s[..i]) + {s[i]};
      assert s[i] !in s[..i];
    }
  }

  // Under which keys a numbered group answers, and how many members it has.
  lemma NumberedFacts<N>(kv: map<Key, N>, s: seq<N>, i: nat)
    requires Numbered(kv, s)
    ensures |GroupKeys(kv)| == |s|
    ensures i < |s| ==> MemberKey(i) in kv && kv[MemberKey(i)] == s[i]
    ensures i >= |s| ==> MemberKey(i) !in kv
  {
    ElementsOfDistinct(FirstKeys(|s|));
    MemberKeyInjective(i, i);
    if i < |s| {
      FirstKeyAt(|s|, i);
    } else if MemberKey(i) in kv {
      assert MemberKey(i) in GroupKeys(kv);
      var j :| 0 <= j < |s| && FirstKeys(|s|)[j] == MemberKey(i);
      FirstKeyAt(|s|, j);
      MemberKeyInjective(i, j);
    }
  }

  lemma ListedMembers<N>(kv: map<Key, N>, s: seq<N>, ks: seq<Key>, x: N)
    requires ListedUnder(kv, s, ks)
    ensures x in s <==> exists k :: k in GroupKeys(kv) && kv[k] == x
  {
    if x in s {
      var i :| 0 <= i < |s| && s[i] == x;
      assert ks[i] in ks && kv[ks[i]] == x;
    }
  }

  // ---------------------------------------------------------------- adding

  lemma ListedAppend<N>(kv: map<Key, N>, s: seq<N>, ks: seq<Key>, x: N, k: Key)
    requires ListedUnder(kv, s, ks) && x !in s && k !in ks && IsMemberKey(k)
    ensures ListedUnder(kv[k := x], s + [x], ks + [k]) && SameRest(kv, kv[k := x])
  {
    assert GroupKeys(kv[k := x]) == GroupKeys(kv) + {k};
  }

  // A new member goes under the next number.
  lemma NumberedAppend<N>(kv: map<Key, N>, s: seq<N>, x: N)
    requires Numbered(kv, s) && x !in s
    ensures Numbered(kv[MemberKey(|s|) := x], s + [x]) && SameRest(kv, kv[MemberKey(|s|) := x])
  {
    var ks, k := FirstKeys(|s|), MemberKey(|s|);
    MemberKeyInjective(|s|, |s|);
    FirstKeysFacts(|s| + 1);
    assert FirstKeys(|s| + 1) == ks + [k];
    forall i | 0 <= i < |s|
      ensures ks[i] != k
    {
      assert FirstKeys(|s| + 1)[i] == ks[i] && FirstKeys(|s| + 1)[|s|] == k;
    }
    ListedAppend(kv, s, ks, x, k);
  }

  // ---------------------------------------------------------------- removing

  // What is left of a list when the i-th entry goes.
  ghost function DropAt<N>(s: seq<N>, i: nat): seq<N>
    requires i <= |s|
  {
    if i == |s| then s else s[..i] + s[i + 1..]
  }

  // The table while the members after `pos` are moved down; i of them have been looked at.
  ghost predicate Shifting<N>(kv0: map<Key, N>, s: seq<N>, ks: seq<Key>, pos: nat, i: nat, kv: map<Key, N>)
    requires pos <= |s| && i <= |s| == |ks|
  {
    var gone := pos < |s| && i == |s|;
    && SameRest(kv0, kv)
    && GroupKeys(kv) == Elements(if gone then ks[..|s| - 1] else ks)
    && forall j {:trigger ks[j]} :: 0 <= j < |s| - (if gone then 1 else 0) ==>
         ks[j] in kv && kv[ks[j]] == if pos <= j < i then s[j + 1] else s[j]
  }

  lemma ShiftingMoves<N>(kv0: map<Key, N>, s: seq<N>, ks: seq<Key>, pos: nat, i: nat, kv: map<Key, N>)
    requires pos <= i < |s| == |ks| && Distinct(ks) && Shifting(kv0, s, ks, pos, i, kv)
    ensures IsMemberKey(ks[i])
    ensures i + 1 < |s| ==> ks[i + 1] in kv && Shifting(kv0, s, ks, pos, i + 1, kv[ks[i] := kv[ks[i + 1]]])
    ensures i + 1 == |s| ==> Shifting(kv0, s, ks, pos, i + 1, kv - {ks[i]})
  {
    assert ks[i] in GroupKeys(kv);
    if i + 1 < |s| {
      assert kv[ks[i + 1]] == s[i + 1];
      var kv' := kv[ks[i] := s[i + 1]];
      assert GroupKeys(kv') == GroupKeys(kv);
      forall j | 0 <= j < |s|
        ensures ks[j] in kv' && kv'[ks[j]] == if pos <= j < i + 1 then s[j + 1] else s[j]
      {
        assert j != i ==> ks[j] != ks[i];
      }
    } else {
      var kv' := kv - {ks[i]};
      assert ks == ks[..i] + [ks[i]];
      assert GroupKeys(kv') == GroupKeys(kv) - {ks[i]};
      forall j | 0 <= j < |s| - 1
        ensures ks[j] in kv' && kv'[ks[j]] == if pos <= j < i + 1 then s[j + 1] else s[j]
      {
        assert ks[j] != ks[i];
      }
    }
  }

  lemma ShiftingEnds<N>(kv0: map<Key, N>, s: seq<N>, ks: seq<Key>, pos: nat, kv: map<Key, N>)
    requires Distinct(s) && Distinct(ks) && pos <= |s| == |ks| && Shifting(kv0, s, ks, pos, |s|, kv)
    ensures ListedUnder(kv, DropAt(s, pos), if pos == |s| then ks else ks[..|s| - 1])
  {
    var s' := DropAt(s, pos);
    var ks' := if pos == |s| then ks else ks[..|s| - 1];
    forall j | 0 <= j < |s'|
      ensures ks'[j] in kv && kv[ks'[j]] == s'[j]
    {
      assert ks'[j] == ks[j];
    }
  }
}
