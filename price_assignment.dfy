/** `assign_prices` of DAVE.py: every way of splitting a list of limit
    prices into a chosen part of a given size and the rest. */
module PriceAssignment {
  import opened Basics

  /** One `[a, b]` entry of the result: the chosen prices and the others. */
  type Split = (seq<int>, seq<int>)

  /** Index of the first occurrence of `x`. */
  function IndexOf(s: seq<int>, x: int): (i: nat)
    requires x in s
    ensures i < |s| && s[i] == x && x !in s[..i]
  {
    if s[0] == x then 0
    else
      var j := IndexOf(s[1..], x);
      assert s[..j + 1] == [s[0]] + s[1..][..j];
      j + 1
  }

  /** `list.remove(x)`: drop the first occurrence of `x`. The source raises
      `ValueError` when `x` is absent; every call here is shown to find it. */
  function RemoveFirst(s: seq<int>, x: int): (r: seq<int>)
    requires x in s
    ensures r == s[..IndexOf(s, x)] + s[IndexOf(s, x) + 1..]
    ensures multiset(r) == multiset(s) - multiset{x}
  {
    var i := IndexOf(s, x);
    assert s == s[..i] + [x] + s[i + 1..];
    s[..i] + s[i + 1..]
  }

  /** A copy of `s` with each element of `a` removed in turn (the inner
      loop of the general branch). */
  function Rest(s: seq<int>, a: seq<int>): (b: seq<int>)
    requires multiset(a) <= multiset(s)
    ensures multiset(b) == multiset(s) - multiset(a)
    decreases |a|
  {
    if a == [] then s
    else
      assert a == [a[0]] + a[1..];
      assert a[0] in multiset(a);
      Rest(RemoveFirst(s, a[0]), a[1..])
  }

  lemma {:induction false} SubsequenceMultiset(c: seq<int>, s: seq<int>)
    requires IsSubsequence(c, s)
    ensures multiset(c) <= multiset(s)
  {
    if c != [] {
      assert s == [s[0]] + s[1..];
      if c[0] == s[0] {
        SubsequenceMultiset(c[1..], s[1..]);
        assert c == [c[0]] + c[1..];
      } else {
        SubsequenceMultiset(c, s[1..]);
      }
    }
  }

  function Prepend(x: int, cs: seq<seq<int>>): (r: seq<seq<int>>)
    ensures |r| == |cs|
    ensures forall i :: 0 <= i < |cs| ==> r[i] == [x] + cs[i]
  {
    seq(|cs|, i requires 0 <= i < |cs| => [x] + cs[i])
  }

  /** `itertools.combinations(s, k)` for `k >= 0`: the combinations that use
      the first element come first, each followed by a combination of the
      rest, then the combinations of the rest. */
  function Combos(s: seq<int>, k: nat): seq<seq<int>>
    decreases |s|
  {
    if k == 0 then [[]]
    else if s == [] then []
    else Prepend(s[0], Combos(s[1..], k - 1)) + Combos(s[1..], k)
  }

  /** Pascal's rule: the number of `k`-element subsets of `n` items. */
  function Binom(n: nat, k: nat): nat {
    if k == 0 then 1
    else if n == 0 then 0
    else Binom(n - 1, k - 1) + Binom(n - 1, k)
  }

  /** Each combination has exactly `k` elements taken from `s` in order. */
  lemma CombosShape(s: seq<int>, k: nat)
    ensures forall c :: c in Combos(s, k) ==> |c| == k && IsSubsequence(c, s)
  {
    forall c | c in Combos(s, k) ensures |c| == k && IsSubsequence(c, s) {
      var i :| 0 <= i < |Combos(s, k)| && Combos(s, k)[i] == c;
      ComboAt(s, k, i);
    }
  }

  /** The combination at position i, by induction on the list. */
  lemma {:induction false} ComboAt(s: seq<int>, k: nat, i: int)
    requires 0 <= i < |Combos(s, k)|
    ensures |Combos(s, k)[i]| == k && IsSubsequence(Combos(s, k)[i], s)
    decreases |s|
  {
    if k > 0 {
      var fewer: nat := k - 1;
      var with := Prepend(s[0], Combos(s[1..], fewer));
      assert Combos(s, k) == with + Combos(s[1..], k);
      if i < |with| {
        ComboAt(s[1..], fewer, i);
        HeadCombo(s, k, Combos(s[1..], fewer)[i]);
      } else {
        ComboAt(s[1..], k, i - |with|);
        SkipHead(Combos(s[1..], k)[i - |with|], s);
      }
    }
  }

  /** A combination of the rest with the first element put in front. */
  lemma HeadCombo(s: seq<int>, k: nat, c: seq<int>)
    requires s != [] && k > 0 && |c| == k - 1 && IsSubsequence(c, s[1..])
    ensures |[s[0]] + c| == k && IsSubsequence([s[0]] + c, s)
  {
    assert ([s[0]] + c)[1..] == c;
  }

  /** Skipping a leading element of `s` keeps a subsequence one. */
  lemma {:induction false} SkipHead(c: seq<int>, s: seq<int>)
    requires s != [] && IsSubsequence(c, s[1..])
    ensures IsSubsequence(c, s)
    decreases |s|, 0
  {
    if c != [] && c[0] == s[0] {
      DropHead(c, s[1..]);
    }
  }

  /** A subsequence stays one when its own head is dropped. */
  lemma {:induction false} DropHead(c: seq<int>, s: seq<int>)
    requires c != [] && IsSubsequence(c, s)
    ensures IsSubsequence(c[1..], s)
    decreases |s|, 1
  {
    if c[0] == s[0] {
      SkipHead(c[1..], s);
    } else {
      DropHead(c, s[1..]);
      SkipHead(c[1..], s);
    }
  }

  /** `itertools.combinations` yields C(n, k) tuples. */
  lemma {:induction false} CombosCount(s: seq<int>, k: nat)
    ensures |Combos(s, k)| == Binom(|s|, k)
    decreases |s|
  {
    if k > 0 && s != [] {
      var fewer: nat := k - 1;
      CombosCount(s[1..], fewer);
      CombosCount(s[1..], k);
      assert |Combos(s, k)| == |Combos(s[1..], fewer)| + |Combos(s[1..], k)|;
    }
  }


  /** The `num_a == 1` branch: one split per element, that element alone
      against the list without its first occurrence. */
  function SinglePairs(s: seq<int>): seq<Split> {
    seq(|s|, i requires 0 <= i < |s| => ([s[i]], RemoveFirst(s, s[i])))
  }

  /** The general branch: one split per combination, in the order given. */
  function ComboPairs(s: seq<int>, cs: seq<seq<int>>): seq<Split>
    requires forall c :: c in cs ==> multiset(c) <= multiset(s)
  {
    seq(|cs|, i requires 0 <= i < |cs| => (cs[i], Rest(s, cs[i])))
  }

  /** One more combination adds its split at the end. */
  lemma ComboPairsSnoc(s: seq<int>, cs: seq<seq<int>>, j: int, b: seq<int>)
    requires forall c :: c in cs ==> multiset(c) <= multiset(s)
    requires 0 <= j < |cs| && b == Rest(s, cs[j])
    ensures ComboPairs(s, cs)[..j + 1] == ComboPairs(s, cs)[..j] + [(cs[j], b)]
  {
  }

  lemma CombosWithin(s: seq<int>, k: nat)
    ensures forall c :: c in Combos(s, k) ==> multiset(c) <= multiset(s)
  {
    CombosShape(s, k);
    forall c | c in Combos(s, k) ensures multiset(c) <= multiset(s) {
      SubsequenceMultiset(c, s);
    }
  }

  /** The list `assign_prices(s, num_a)` returns; None when
      `itertools.combinations` rejects a negative size. */
  function Assignments(s: seq<int>, numA: int): Option<seq<Split>> {
    if numA == 1 then Some(SinglePairs(s))
    else if numA < 0 then None
    else
      CombosWithin(s, numA);
      Some(ComboPairs(s, Combos(s, numA)))
  }

  /** `assign_prices`: builds the splits with the source's loops. */
  method AssignPrices(limitprices: seq<int>, numA: int) returns (values: Option<seq<Split>>)
    ensures values == Assignments(limitprices, numA)
  {
    if numA == 1 {
      var acc := SingleLoop(limitprices);
      return Some(acc);
    }
    if numA < 0 {
      return None;
    }
    var combos := Combos(limitprices, numA);
    CombosWithin(limitprices, numA);
    var acc := ComboLoop(limitprices, combos);
    values := Some(acc);
  }

  /** The `num_a == 1` loop: copy the list, remove the element, append. */
  method SingleLoop(s: seq<int>) returns (acc: seq<Split>)
    ensures acc == SinglePairs(s)
  {
    acc := [];
    var i := 0;
    while i < |s|
      invariant 0 <= i <= |s|
      invariant acc == SinglePairs(s)[..i]
    {
      var pricea := s[i];
      var b := RemoveFirst(s, pricea);
      assert SinglePairs(s)[..i + 1] == SinglePairs(s)[..i] + [([pricea], b)];
      acc := acc + [([pricea], b)];
      i := i + 1;
    }
  }

  /** The general loop: one split per combination, in order. */
  method ComboLoop(s: seq<int>, combos: seq<seq<int>>) returns (acc: seq<Split>)
    requires forall c :: c in combos ==> multiset(c) <= multiset(s)
    ensures acc == ComboPairs(s, combos)
  {
    acc := [];
    var j := 0;
    while j < |combos|
      invariant 0 <= j <= |combos|
      invariant acc == ComboPairs(s, combos)[..j]
    {
      var a := combos[j];
      var b := RemoveEach(s, a);
      ComboPairsSnoc(s, combos, j, b);
      acc := acc + [(a, b)];
      j := j + 1;
    }
  }


  /** The inner loop: a copy of `s`, then `b.remove(element)` for each
      element of the combination. */
  method RemoveEach(s: seq<int>, a: seq<int>) returns (b: seq<int>)
    requires multiset(a) <= multiset(s)
    ensures b == Rest(s, a)
  {
    b := s;
    var k := 0;
    while k < |a|
      invariant 0 <= k <= |a|
      invariant multiset(a[k..]) <= multiset(b)
      invariant Rest(b, a[k..]) == Rest(s, a)
    {
      RestStep(b, a[k..]);
      assert a[k..][1..] == a[k + 1..];
      b := RemoveFirst(b, a[k]);
      k := k + 1;
    }
  }

  lemma RestStep(b: seq<int>, t: seq<int>)
    requires t != [] && multiset(t) <= multiset(b)
    ensures t[0] in b
    ensures multiset(t[1..]) <= multiset(RemoveFirst(b, t[0]))
    ensures Rest(b, t) == Rest(RemoveFirst(b, t[0]), t[1..])
  {
    assert t == [t[0]] + t[1..];
    assert t[0] in multiset(t);
  }

  /** Every split puts `num_a` prices on one side (one in the first branch)
      and together the two sides hold exactly the input prices. */
  lemma SplitsPartition(s: seq<int>, numA: int)
    requires numA >= 0
    ensures Assignments(s, numA).Some?
    ensures forall p :: p in Assignments(s, numA).value ==>
              |p.0| == numA && multiset(p.0) + multiset(p.1) == multiset(s)
  {
    if numA != 1 {
      CombosShape(s, numA);
      CombosWithin(s, numA);
      var ps := Assignments(s, numA).value;
      forall p | p in ps ensures |p.0| == numA && multiset(p.0) + multiset(p.1) == multiset(s) {
        var i :| 0 <= i < |ps| && ps[i] == p;
        assert p.0 in Combos(s, numA);
      }
    } else {
      var ps := SinglePairs(s);
      forall p | p in ps ensures |p.0| == 1 && multiset(p.0) + multiset(p.1) == multiset(s) {
        var i :| 0 <= i < |ps| && ps[i] == p;
        assert s[i] in s;
      }
    }
  }

  /** There are C(n, num_a) splits; the first branch gives C(n, 1) = n. */
  lemma SplitsCount(s: seq<int>, numA: int)
    requires numA >= 0
    ensures |Assignments(s, numA).value| == Binom(|s|, numA)
  {
    if numA == 1 {
      BinomOne(|s|);
    } else {
      CombosCount(s, numA);
    }
  }

  lemma {:induction false} BinomOne(n: nat)
    ensures Binom(n, 1) == n
  {
    if n > 0 {
      BinomOne(n - 1);
      assert Binom(n, 1) == Binom(n - 1, 0) + Binom(n - 1, 1);
    }
  }

  /** More prices requested than there are gives no split. */
  lemma {:induction false} BinomAbove(n: nat, k: nat)
    requires k > n
    ensures Binom(n, k) == 0
  {
    if n > 0 {
      BinomAbove(n - 1, k - 1);
      BinomAbove(n - 1, k);
    }
  }

  /** The `num_a == 1` special case produces exactly what the general
      branch would: the 1-combinations in order, each against the list
      without that element. */
  lemma SingleBranchAgrees(s: seq<int>)
    ensures (CombosWithin(s, 1); SinglePairs(s) == ComboPairs(s, Combos(s, 1)))
  {
    CombosWithin(s, 1);
    SingletonCombos(s);
    var cs := Combos(s, 1);
    forall i | 0 <= i < |s| ensures SinglePairs(s)[i] == ComboPairs(s, cs)[i] {
      assert cs[i] == [s[i]];
      assert [s[i]][1..] == [];
      assert Rest(s, [s[i]]) == RemoveFirst(s, s[i]);
    }
  }

  lemma {:induction false} SingletonCombos(s: seq<int>)
    ensures Combos(s, 1) == seq(|s|, i requires 0 <= i < |s| => [s[i]])
  {
    if s != [] {
      SingletonCombos(s[1..]);
      var rest := Combos(s[1..], 1);
      assert Combos(s[1..], 0) == [[]];
      var p := Prepend(s[0], [[]]);
      assert |p| == 1 && p[0] == [s[0]] + [];
      assert [s[0]] + [] == [s[0]];
      assert p == [[s[0]]];
      assert Combos(s, 1) == [[s[0]]] + rest;
    }
  }
}
