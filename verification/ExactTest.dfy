/** The exact Mann-Whitney test: the p-value counts, over all ways to choose the ranks of the
    first sample, those whose rank sum is at least as far from its mean as the observed one. */
module ExactTest {
  import opened MidRanks

  // ----- Combinations -----

  function Prepend(x: int, cs: seq<seq<int>>): (r: seq<seq<int>>)
    ensures |r| == |cs| && forall i :: 0 <= i < |cs| ==> r[i] == [x] + cs[i]
  {
    seq(|cs|, i requires 0 <= i < |cs| => [x] + cs[i])
  }

  /** The k-element subsets of lo..hi as ascending sequences, in lexicographic order. */
  function Combinations(lo: int, hi: int, k: int): seq<seq<int>>
    decreases if k <= 0 then 0 else hi - lo + 1
  {
    if k == 0 then [[]]
    else if k < 0 || lo > hi then []
    else Prepend(lo, Combinations(lo + 1, hi, k - 1)) + Combinations(lo + 1, hi, k)
  }

  predicate Ascending(c: seq<int>, lo: int, hi: int) {
    && (forall i :: 0 <= i < |c| ==> lo <= c[i] <= hi)
    && (forall i, j :: 0 <= i < j < |c| ==> c[i] < c[j])
  }

  /** The enumeration holds exactly the ascending sequences of length k ... */
  lemma {:induction false} CombinationsAreTheSubsets(lo: int, hi: int, k: int, c: seq<int>)
    ensures c in Combinations(lo, hi, k) <==> |c| == k && Ascending(c, lo, hi)
    decreases if k <= 0 then 0 else hi - lo + 1
  {
    hide Combinations, Ascending;
    if k <= 0 || lo > hi {
      NothingToChoose(lo, hi, k, c);
    } else {
      InCombinations(lo, hi, k, c);
      CombinationsAreTheSubsets(lo + 1, hi, k, c);
      if c != [] {
        CombinationsAreTheSubsets(lo + 1, hi, k - 1, c[1..]);
        AscendingSplits(c, lo, hi);
      }
    }
  }

  lemma NothingToChoose(lo: int, hi: int, k: int, c: seq<int>)
    requires k <= 0 || lo > hi
    ensures c in Combinations(lo, hi, k) <==> |c| == k && Ascending(c, lo, hi)
  {
    if c != [] {
      assert Ascending(c, lo, hi) ==> lo <= c[0] <= hi;
    }
  }

  lemma AscendingSplits(c: seq<int>, lo: int, hi: int)
    requires c != []
    ensures Ascending(c, lo, hi) <==>
            (c[0] == lo && lo <= hi && Ascending(c[1..], lo + 1, hi)) || Ascending(c, lo + 1, hi)
  {
    var rest := c[1..];
    assert forall i :: 0 < i < |c| ==> c[i] == rest[i - 1];
    if c[0] == lo && lo <= hi && Ascending(rest, lo + 1, hi) {
      forall i, j | 0 <= i < j < |c| ensures c[i] < c[j] {
        assert c[j] == rest[j - 1];
      }
    }
    if Ascending(c, lo, hi) {
      assert forall i :: 0 < i < |c| ==> c[0] < c[i];
    }
  }

  lemma InCombinations(lo: int, hi: int, k: int, c: seq<int>)
    requires k > 0 && lo <= hi
    ensures c in Combinations(lo, hi, k) <==>
            || (c != [] && c[0] == lo && c[1..] in Combinations(lo + 1, hi, k - 1))
            || c in Combinations(lo + 1, hi, k)
  {
    InPrepend(lo, Combinations(lo + 1, hi, k - 1), c);
  }

  lemma InPrepend(x: int, cs: seq<seq<int>>, c: seq<int>)
    ensures c in Prepend(x, cs) <==> c != [] && c[0] == x && c[1..] in cs
  {
    if c in Prepend(x, cs) {
      var i :| 0 <= i < |cs| && Prepend(x, cs)[i] == c;
      assert c[1..] == cs[i];
    }
    if c != [] && c[0] == x && c[1..] in cs {
      var i :| 0 <= i < |cs| && cs[i] == c[1..];
      assert Prepend(x, cs)[i] == c;
    }
  }

  /** ... each of them once. */
  lemma {:induction false} CombinationsAreDistinct(lo: int, hi: int, k: int, i: nat, j: nat)
    requires i < j < |Combinations(lo, hi, k)|
    ensures Combinations(lo, hi, k)[i] != Combinations(lo, hi, k)[j]
    decreases if k <= 0 then 0 else hi - lo + 1
  {
    if k > 0 && lo <= hi {
      var with, without := Combinations(lo + 1, hi, k - 1), Combinations(lo + 1, hi, k);
      if j < |with| {
        CombinationsAreDistinct(lo + 1, hi, k - 1, i, j);
        assert ([lo] + with[i])[1..] == with[i] && ([lo] + with[j])[1..] == with[j];
      } else if i >= |with| {
        CombinationsAreDistinct(lo + 1, hi, k, i - |with|, j - |with|);
      } else {
        var c := without[j - |with|];
        assert c in without;
        CombinationsAreTheSubsets(lo + 1, hi, k, c);
        assert c[0] >= lo + 1;
      }
    }
  }

  // ----- Extreme combinations -----

  function Total(c: seq<int>): int {
    if c == [] then 0 else c[0] + Total(c[1..])
  }

  function Abs(x: int): nat {
    if x < 0 then -x else x
  }

  /** At least `dev` away from the mean; sums and means are doubled. */
  predicate Extreme(sum: int, mean2: int, dev2: int) {
    Abs(2 * sum - mean2) >= dev2
  }

  function Extremes(cs: seq<seq<int>>, mean2: int, dev2: int): nat {
    if cs == [] then 0
    else Extremes(cs[..|cs| - 1], mean2, dev2) + if Extreme(Total(cs[|cs| - 1]), mean2, dev2) then 1 else 0
  }

  lemma {:induction false} ExtremesAppend(cs: seq<seq<int>>, ds: seq<seq<int>>, mean2: int, dev2: int)
    ensures Extremes(cs + ds, mean2, dev2) == Extremes(cs, mean2, dev2) + Extremes(ds, mean2, dev2)
  {
    if ds == [] {
      assert cs + ds == cs;
    } else {
      ExtremesAppend(cs, ds[..|ds| - 1], mean2, dev2);
      assert (cs + ds)[..|cs + ds| - 1] == cs + ds[..|ds| - 1];
    }
  }

  lemma {:induction false} ExtremesPrepend(x: int, cs: seq<seq<int>>, mean2: int, dev2: int)
    ensures Extremes(Prepend(x, cs), mean2, dev2) == Extremes(cs, mean2 - 2 * x, dev2)
  {
    if cs != [] {
      var n := |cs| - 1;
      ExtremesPrepend(x, cs[..n], mean2, dev2);
      assert Prepend(x, cs)[..n] == Prepend(x, cs[..n]);
      assert ([x] + cs[n])[1..] == cs[n];
    }
  }

  function Count(lo: int, hi: int, k: int, mean2: int, dev2: int): nat {
    Extremes(Combinations(lo, hi, k), mean2, dev2)
  }

  lemma CountSplits(lo: int, hi: int, k: int, mean2: int, dev2: int)
    requires k > 0 && lo <= hi
    ensures Count(lo, hi, k, mean2, dev2) ==
            Count(lo + 1, hi, k - 1, mean2 - 2 * lo, dev2) + Count(lo + 1, hi, k, mean2, dev2)
  {
    var with := Combinations(lo + 1, hi, k - 1);
    ExtremesPrepend(lo, with, mean2, dev2);
    ExtremesAppend(Prepend(lo, with), Combinations(lo + 1, hi, k), mean2, dev2);
  }

  lemma {:induction false} NoneTooLarge(lo: int, hi: int, k: int)
    requires lo <= hi + 1 && k > hi - lo + 1
    ensures Combinations(lo, hi, k) == []
    decreases hi - lo + 1
  {
    if lo <= hi {
      NoneTooLarge(lo + 1, hi, k - 1);
      NoneTooLarge(lo + 1, hi, k);
    }
  }

  /** Twice the sum of lo..hi. */
  function Sum2(lo: int, hi: int): int {
    (lo + hi) * (hi - lo + 1)
  }

  lemma Sum2Splits(lo: int, hi: int)
    ensures Sum2(lo, hi) == 2 * lo + Sum2(lo + 1, hi)
  {
  }

  lemma NoneSelected(lo: int, hi: int, mean2: int, dev2: int)
    ensures Count(lo, hi, 0, mean2, dev2) == if Extreme(0, mean2, dev2) then 1 else 0
  {
    var cs: seq<seq<int>> := [[]];
    assert Combinations(lo, hi, 0) == cs;
    assert cs[..0] == [];
    assert Extremes(cs[..0], mean2, dev2) == 0;
  }

  lemma TooManySelected(lo: int, hi: int, k: int, mean2: int, dev2: int)
    requires lo <= hi + 1 && k > hi - lo + 1
    ensures Count(lo, hi, k, mean2, dev2) == 0
  {
    NoneTooLarge(lo, hi, k);
  }

  lemma {:induction false} AllSelected(lo: int, hi: int, mean2: int, dev2: int)
    requires lo <= hi + 1
    ensures Count(lo, hi, hi - lo + 1, mean2, dev2) == Count(lo, hi, 0, Sum2(lo, hi) - mean2, dev2)
    decreases hi - lo + 1
  {
    hide Count, Sum2;
    NoneSelected(lo, hi, Sum2(lo, hi) - mean2, dev2);
    if lo == hi + 1 {
      NoneSelected(lo, hi, mean2, dev2);
      NothingToSum(lo, hi);
    } else {
      Sum2Splits(lo, hi);
      CountSplits(lo, hi, hi - lo + 1, mean2, dev2);
      AllSelected(lo + 1, hi, mean2 - 2 * lo, dev2);
      NoneSelected(lo + 1, hi, Sum2(lo, hi) - mean2, dev2);
      TooManySelected(lo + 1, hi, hi - lo + 1, mean2, dev2);
    }
  }

  lemma NothingToSum(lo: int, hi: int)
    requires lo == hi + 1
    ensures Sum2(lo, hi) == 0
  {
  }

  /** The complement bijection: there are as many extreme k-subsets of lo..hi as extreme subsets
      of the other size, with the mean reflected. */
  lemma {:induction false} ComplementsAreAsExtreme(lo: int, hi: int, k: nat, mean2: int, dev2: int)
    requires lo <= hi + 1 && k <= hi - lo + 1
    ensures Count(lo, hi, k, mean2, dev2) == Count(lo, hi, hi - lo + 1 - k, Sum2(lo, hi) - mean2, dev2)
    decreases hi - lo + 1
  {
    hide Count, Sum2;
    var n := hi - lo + 1;
    var other, reflected := n - k, Sum2(lo, hi) - mean2;
    if other == 0 {
      AllSelected(lo, hi, mean2, dev2);
    } else if k == 0 {
      AllSelected(lo, hi, reflected, dev2);
      assert Sum2(lo, hi) - reflected == mean2;
    } else {
      Sum2Splits(lo, hi);
      CountSplits(lo, hi, k, mean2, dev2);
      CountSplits(lo, hi, other, reflected, dev2);
      ComplementsAreAsExtreme(lo + 1, hi, k - 1, mean2 - 2 * lo, dev2);
      ComplementsAreAsExtreme(lo + 1, hi, k, mean2, dev2);
    }
  }

  lemma {:induction false} ExtremesAtMost(cs: seq<seq<int>>, mean2: int, dev2: int)
    ensures Extremes(cs, mean2, dev2) <= |cs|
    ensures dev2 <= 0 ==> Extremes(cs, mean2, dev2) == |cs|
  {
    if cs != [] {
      ExtremesAtMost(cs[..|cs| - 1], mean2, dev2);
    }
  }

  lemma {:induction false} ExtremesAtLeast(cs: seq<seq<int>>, mean2: int, dev2: int, i: nat)
    requires i < |cs| && Extreme(Total(cs[i]), mean2, dev2)
    ensures Extremes(cs, mean2, dev2) >= 1
  {
    if i < |cs| - 1 {
      ExtremesAtLeast(cs[..|cs| - 1], mean2, dev2, i);
    }
  }

  // ----- The p-value -----

  predicate NoTies(s: seq<Obs>) {
    forall i, j :: 0 <= i < j < |s| ==> s[i].value != s[j].value
  }

  /** How far the doubled rank sum of the first sample lies from its doubled mean. */
  function Deviation2(a: seq<real>, b: seq<real>): nat {
    Abs(Pairs(Labelled(a, 0), Labelled(b, 1)) + |a| * (|a| + 1) - |a| * (|a| + |b| + 1))
  }

  function ExtremeSplits(a: seq<real>, b: seq<real>): nat {
    Count(1, |a| + |b|, |a|, |a| * (|a| + |b| + 1), Deviation2(a, b))
  }

  function Splits(a: seq<real>, b: seq<real>): nat {
    |Combinations(1, |a| + |b|, |a|)|
  }

  lemma SplitsAreCounted(lo: int, hi: int, k: int, mean2: int)
    ensures Count(lo, hi, k, mean2, 0) == |Combinations(lo, hi, k)|
  {
    ExtremesAtMost(Combinations(lo, hi, k), mean2, 0);
  }

  lemma MeansReflect(n1: nat, n2: nat)
    ensures Sum2(1, n1 + n2) - n1 * (n1 + n2 + 1) == n2 * (n2 + n1 + 1)
  {
  }

  lemma DeviationIsSymmetric(a: seq<real>, b: seq<real>)
    ensures Deviation2(a, b) == Deviation2(b, a)
  {
    hide Pairs;
    var s, t := Labelled(a, 0), Labelled(b, 1);
    PairsOfBothSides(s, t);
    PairsIgnoreLabels(t, s, Labelled(b, 0), Labelled(a, 1));
    var p := Pairs(s, t);
    assert p + |a| * (|a| + 1) - |a| * (|a| + |b| + 1) == p - |a| * |b|;
    assert 2 * |a| * |b| - p + |b| * (|b| + 1) - |b| * (|b| + |a| + 1) == |a| * |b| - p;
  }

  /** Swapping the samples changes neither the extreme splits nor their total: p(a, b) == p(b, a). */
  lemma PValueIsSymmetric(a: seq<real>, b: seq<real>)
    ensures ExtremeSplits(a, b) == ExtremeSplits(b, a)
    ensures Splits(a, b) == Splits(b, a)
  {
    hide Count, Sum2, Deviation2, Combinations;
    var n, mean2 := |a| + |b|, |a| * (|a| + |b| + 1);
    MeansReflect(|a|, |b|);
    DeviationIsSymmetric(a, b);
    ComplementsAreAsExtreme(1, n, |a|, mean2, Deviation2(a, b));
    ComplementsAreAsExtreme(1, n, |a|, mean2, 0);
    SplitsAreCounted(1, n, |a|, mean2);
    SplitsAreCounted(1, n, |b|, |b| * (|b| + |a| + 1));
  }

  // ----- The observed split is one of those enumerated -----

  /** The ranks of the first sample within the first n of the ordered pool. */
  function FirstRanks(lab: seq<Obs>, n: nat): seq<int>
    requires n <= |lab|
  {
    if n == 0 then []
    else FirstRanks(lab, n - 1) + if lab[n - 1].group == 0 then [n] else []
  }

  lemma {:induction false} TotalAppend(c: seq<int>, x: int)
    ensures Total(c + [x]) == Total(c) + x
  {
    if c != [] {
      TotalAppend(c[1..], x);
      assert (c + [x])[1..] == c[1..] + [x];
    }
  }

  /** Without ties the midrank of the k-th observation is its position. */
  lemma RankIsPosition(lab: seq<Obs>, k: nat)
    requires Ordered(lab) && NoTies(lab) && k < |lab|
    ensures Rank2(lab[k].value, lab) == 2 * (k + 1)
  {
    forall m | 0 <= m < |lab|
      ensures (m < k ==> lab[m].value < lab[k].value) && (m > k ==> lab[m].value > lab[k].value)
    {
      assert m < k ==> Before(lab[m], lab[k]);
      assert m > k ==> Before(lab[k], lab[m]);
    }
    BlockRank(lab, k, k, |lab|);
    assert lab[..|lab|] == lab;
  }

  function InFirst(o: Obs): int {
    if o.group == 0 then 1 else 0
  }

  lemma {:induction false} FirstRanksAscend(lab: seq<Obs>, n: nat)
    requires n <= |lab|
    ensures Ascending(FirstRanks(lab, n), 1, n)
    ensures |FirstRanks(lab, n)| == SumOf(lab[..n], InFirst)
  {
    if n > 0 {
      FirstRanksAscend(lab, n - 1);
      assert lab[..n][..n - 1] == lab[..n - 1];
    }
  }

  lemma {:induction false} FirstRanksTotal(lab: seq<Obs>, n: nat)
    requires Ordered(lab) && NoTies(lab) && n <= |lab|
    ensures 2 * Total(FirstRanks(lab, n)) == RankSum2(lab[..n], 0, lab)
  {
    hide Rank2, Total, NoTies, Ordered;
    if n == 0 {
      EmptyTotal();
    } else {
      FirstRanksTotal(lab, n - 1);
      assert lab[..n][..n - 1] == lab[..n - 1];
      RankIsPosition(lab, n - 1);
      TotalAppend(FirstRanks(lab, n - 1), n);
      assert FirstRanks(lab, n - 1) + [] == FirstRanks(lab, n - 1);
    }
  }

  lemma EmptyTotal()
    ensures Total([]) == 0
  {
  }

  lemma {:induction false} Members(s: seq<Obs>, group: int)
    requires forall o :: o in s ==> o.group == group
    ensures SumOf(s, InFirst) == if group == 0 then |s| else 0
  {
    if s != [] {
      Members(s[..|s| - 1], group);
    }
  }

  lemma ObservedIsASplit(a: seq<real>, b: seq<real>, lab: seq<Obs>)
    requires Ordered(lab) && NoTies(lab) && multiset(lab) == multiset(Pool(a, b))
    ensures FirstRanks(lab, |lab|) in Combinations(1, |a| + |b|, |a|)
    ensures 2 * Total(FirstRanks(lab, |lab|)) == Pairs(Labelled(a, 0), Labelled(b, 1)) + |a| * (|a| + 1)
  {
    hide Combinations, Ascending, Total, RankSum2, Pairs, NoTies, Ordered;
    var s, t := Labelled(a, 0), Labelled(b, 1);
    assert |lab| == |multiset(lab)| == |multiset(s + t)| == |a| + |b|;
    assert lab[..|lab|] == lab;
    FirstRanksAscend(lab, |lab|);
    FirstRanksTotal(lab, |lab|);
    RankSumFormIsPairCount(a, b, lab);
    SumPermuted(lab, s + t, InFirst);
    SumAppend(s, t, InFirst);
    Members(s, 0);
    Members(t, 1);
    CombinationsAreTheSubsets(1, |lab|, |a|, FirstRanks(lab, |lab|));
  }

  lemma SortedHasNoTies(s: seq<Obs>, lab: seq<Obs>)
    requires NoTies(s) && multiset(lab) == multiset(s)
    ensures NoTies(lab)
  {
    forall i, j | 0 <= i < j < |lab| ensures lab[i].value != lab[j].value {
      if lab[i] == lab[j] {
        TwiceIn(lab, i, j);
        OnceIn(s, lab[i]);
      } else {
        assert lab[i] in multiset(s) && lab[j] in multiset(s);
        var m :| 0 <= m < |s| && s[m] == lab[i];
        var n :| 0 <= n < |s| && s[n] == lab[j];
        assert m < n || n < m;
      }
    }
  }

  lemma TwiceIn(s: seq<Obs>, i: nat, j: nat)
    requires i < j < |s| && s[i] == s[j]
    ensures multiset(s)[s[i]] >= 2
  {
    assert s == s[..j] + [s[j]] + s[j + 1..];
    assert s[..j] == s[..i] + [s[i]] + s[i + 1..j];
  }

  lemma {:induction false} OnceIn(s: seq<Obs>, o: Obs)
    requires NoTies(s)
    ensures multiset(s)[o] <= 1
  {
    if s != [] {
      var n := |s| - 1;
      OnceIn(s[..n], o);
      assert s == s[..n] + [s[n]];
      if s[n] == o {
        assert o !in s[..n];
      }
    }
  }

  /** Without ties the p-value lies in (0, 1]: the observed split is itself extreme. */
  lemma PValueIsAProbability(a: seq<real>, b: seq<real>)
    requires NoTies(Pool(a, b))
    ensures 1 <= ExtremeSplits(a, b) <= Splits(a, b)
  {
    hide Combinations, Total, Pairs, NoTies, Sort;
    var lab := Sort(Pool(a, b));
    var all, mean2 := Combinations(1, |a| + |b|, |a|), |a| * (|a| + |b| + 1);
    SortedHasNoTies(Pool(a, b), lab);
    ObservedIsASplit(a, b, lab);
    var i :| 0 <= i < |all| && all[i] == FirstRanks(lab, |lab|);
    ExtremesAtLeast(all, mean2, Deviation2(a, b), i);
    ExtremesAtMost(all, mean2, Deviation2(a, b));
  }

  // ----- The code -----

  function RealAbs(x: real): real {
    if x < 0.0 then -x else x
  }

  /** The slack of 1e-9 in the comparison never matters, because rank sums are integers and means
      are halves. */
  lemma ToleranceIsHarmless(sum: int, observed: int, mean2: int)
    ensures RealAbs(sum as real - mean2 as real / 2.0) >= RealAbs(observed as real - mean2 as real / 2.0) - 0.000000001
       <==> Extreme(sum, mean2, Abs(2 * observed - mean2))
  {
  }

  /** The rank under which the dictionary knows an observation: of equal ones the last. */
  function LastRank(lab: seq<Obs>, o: Obs): nat {
    if lab == [] then 0 else if lab[|lab| - 1] == o then |lab| else LastRank(lab[..|lab| - 1], o)
  }

  /** The dictionary from observation to rank. */
  method RankTable(lab: seq<Obs>) returns (ranks: map<Obs, int>)
    ensures forall o :: o in lab ==> o in ranks && ranks[o] == LastRank(lab, o)
  {
    ranks := map[];
    for i := 0 to |lab|
      invariant forall o :: o in lab[..i] ==> o in ranks && ranks[o] == LastRank(lab[..i], o)
    {
      assert lab[..i + 1] == lab[..i] + [lab[i]] && lab[..i + 1][..i] == lab[..i];
      ranks := ranks[lab[i] := i + 1];
    }
    assert lab[..|lab|] == lab;
  }

  function Observed(a: seq<real>, lab: seq<Obs>): int {
    if a == [] then 0 else Observed(a[..|a| - 1], lab) + LastRank(lab, Obs(a[|a| - 1], 0))
  }

  method ObservedRankSum(a: seq<real>, lab: seq<Obs>, ranks: map<Obs, int>) returns (r1: int)
    requires forall v :: v in a ==> Obs(v, 0) in ranks && ranks[Obs(v, 0)] == LastRank(lab, Obs(v, 0))
    ensures r1 == Observed(a, lab)
  {
    r1 := 0;
    for i := 0 to |a|
      invariant r1 == Observed(a[..i], lab)
    {
      assert a[..i + 1][..i] == a[..i] && a[i] in a;
      r1 := r1 + ranks[Obs(a[i], 0)];
    }
    assert a[..|a|] == a;
  }

  lemma {:induction false} LastRankIsPosition(lab: seq<Obs>, k: nat)
    requires NoTies(lab) && k < |lab|
    ensures LastRank(lab, lab[k]) == k + 1
  {
    if k < |lab| - 1 {
      assert lab[k].value != lab[|lab| - 1].value;
      LastRankIsPosition(lab[..|lab| - 1], k);
    }
  }

  /** Without ties the dictionary holds the midranks. */
  lemma {:induction false} ObservedIsTheRankSum(a: seq<real>, lab: seq<Obs>)
    requires Ordered(lab) && NoTies(lab) && forall v :: v in a ==> Obs(v, 0) in lab
    ensures 2 * Observed(a, lab) == SumOf(Labelled(a, 0), AnyRank(lab))
  {
    if a != [] {
      hide Rank2, Ordered, NoTies, LastRank;
      var rest, last := a[..|a| - 1], Obs(a[|a| - 1], 0);
      ObservedIsTheRankSum(rest, lab);
      assert Labelled(a, 0)[..|a| - 1] == Labelled(rest, 0);
      assert last in lab;
      var k :| 0 <= k < |lab| && lab[k] == last;
      LastRankIsPosition(lab, k);
      RankIsPosition(lab, k);
    }
  }

  /** The rank sum over the first sample in its own order is the pair count plus n1(n1 + 1). */
  lemma SampleRankSum(a: seq<real>, b: seq<real>, lab: seq<Obs>)
    requires multiset(lab) == multiset(Pool(a, b))
    ensures SumOf(Labelled(a, 0), AnyRank(lab)) == Pairs(Labelled(a, 0), Labelled(b, 1)) + |a| * (|a| + 1)
  {
    hide Pairs;
    var s, t := Labelled(a, 0), Labelled(b, 1);
    forall o | o in s ensures AnyRank(lab)(o) == RankIn(0, s + t)(o) {
      SumPermuted(lab, s + t, Against(o.value));
    }
    SumSame(s, AnyRank(lab), RankIn(0, s + t));
    RankSumIsPairs(s, 0, s, t);
    PairsOfBothSides(s, s);
  }

  method CountExtremes(all: seq<seq<int>>, r1: int, mean2: int) returns (extreme: nat, total: nat)
    ensures total == |all|
    ensures extreme == Extremes(all, mean2, Abs(2 * r1 - mean2))
  {
    hide RealAbs, Extreme, Total, Abs;
    var mean := mean2 as real / 2.0;
    var deviation := RealAbs(r1 as real - mean);
    extreme, total := 0, 0;
    while total < |all|
      invariant total <= |all|
      invariant extreme == Extremes(all[..total], mean2, Abs(2 * r1 - mean2))
    {
      var sum := Total(all[total]);
      ToleranceIsHarmless(sum, r1, mean2);
      assert all[..total + 1][..total] == all[..total];
      if RealAbs(sum as real - mean) >= deviation - 0.000000001 {
        extreme := extreme + 1;
      }
      total := total + 1;
    }
    assert all[..|all|] == all;
  }

  lemma PoolHoldsTheFirst(a: seq<real>, b: seq<real>, lab: seq<Obs>, v: real)
    requires v in a && multiset(lab) == multiset(Pool(a, b))
    ensures Obs(v, 0) in lab
  {
    var i :| 0 <= i < |a| && a[i] == v;
    assert Pool(a, b)[i] == Obs(v, 0);
    assert Obs(v, 0) in multiset(lab);
  }

  lemma Quotient(x: nat, y: nat)
    requires 0 <= x <= y && y > 0
    ensures 0.0 <= x as real / y as real <= 1.0
    ensures x as real / y as real > 0.0 <==> x > 0
    ensures x as real / y as real * y as real == x as real
  {
  }

  // ----- Which rank sums have a p-value above zero -----

  /** Twice the sum of the k numbers from lo on, and of the k numbers up to hi. */
  function Least2(lo: int, k: nat): int {
    k * (2 * lo + k - 1)
  }

  function Greatest2(hi: int, k: nat): int {
    k * (2 * hi - k + 1)
  }

  lemma SumsStep(lo: int, hi: int, k: nat)
    requires k > 0
    ensures Least2(lo, k) == Least2(lo + 1, k - 1) + 2 * lo
    ensures Greatest2(hi, k) == Greatest2(hi, k - 1) + 2 * (hi - k + 1)
  {
  }

  lemma {:induction false} TotalBounds(c: seq<int>, lo: int, hi: int)
    requires Ascending(c, lo, hi)
    ensures c != [] ==> c[0] <= hi - |c| + 1
    ensures Least2(lo, |c|) <= 2 * Total(c) <= Greatest2(hi, |c|)
  {
    if c != [] {
      hide Least2, Greatest2;
      var rest := c[1..];
      assert forall i :: 0 <= i < |rest| ==> rest[i] == c[i + 1] && c[0] < c[i + 1];
      TotalBounds(rest, lo + 1, hi);
      SumsStep(lo, hi, |c|);
    }
  }

  function Lowest(lo: int, k: nat): (c: seq<int>)
    ensures |c| == k && forall i :: 0 <= i < k ==> c[i] == lo + i
    decreases k
  {
    if k == 0 then [] else [lo] + Lowest(lo + 1, k - 1)
  }

  lemma {:induction false} LowestTotal(lo: int, k: nat)
    ensures 2 * Total(Lowest(lo, k)) == Least2(lo, k)
    decreases k
  {
    if k > 0 {
      hide Least2;
      LowestTotal(lo + 1, k - 1);
      SumsStep(lo, lo, k);
      assert ([lo] + Lowest(lo + 1, k - 1))[1..] == Lowest(lo + 1, k - 1);
    }
  }

  lemma {:induction false} SomeExtreme(cs: seq<seq<int>>, mean2: int, dev2: int) returns (i: nat)
    requires Extremes(cs, mean2, dev2) >= 1
    ensures i < |cs| && Extreme(Total(cs[i]), mean2, dev2)
  {
    i := |cs| - 1;
    if !Extreme(Total(cs[i]), mean2, dev2) {
      i := SomeExtreme(cs[..i], mean2, dev2);
    }
  }

  lemma DistanceFromTheMean(k: nat, n: nat, sum: int)
    requires k <= n && Least2(1, k) <= 2 * sum <= Greatest2(n, k)
    ensures Abs(2 * sum - k * (n + 1)) <= k * (n - k)
    ensures 2 * sum == Least2(1, k) ==> Abs(2 * sum - k * (n + 1)) == k * (n - k)
  {
    assert Least2(1, k) == k * (n + 1) - k * (n - k);
    assert Greatest2(n, k) == k * (n + 1) + k * (n - k);
  }

  /** Some assignment of ranks is at least a given doubled distance from the mean exactly if the distance
      is at most n1*n2. */
  lemma SomeSplitIsExtreme(n1: nat, n2: nat, dev2: int)
    ensures Count(1, n1 + n2, n1, n1 * (n1 + n2 + 1), dev2) >= 1 <==> dev2 <= n1 * n2
  {
    hide Combinations, Extremes, Total, Abs, Least2, Greatest2;
    var n, mean2 := n1 + n2, n1 * (n1 + n2 + 1);
    var all := Combinations(1, n, n1);
    if Extremes(all, mean2, dev2) >= 1 {
      var i := SomeExtreme(all, mean2, dev2);
      assert all[i] in all;
      CombinationsAreTheSubsets(1, n, n1, all[i]);
      TotalBounds(all[i], 1, n);
      DistanceFromTheMean(n1, n, Total(all[i]));
    }
    if dev2 <= n1 * n2 {
      var c := Lowest(1, n1);
      CombinationsAreTheSubsets(1, n, n1, c);
      LowestTotal(1, n1);
      TotalBounds(c, 1, n);
      DistanceFromTheMean(n1, n, Total(c));
      var i :| 0 <= i < |all| && all[i] == c;
      ExtremesAtLeast(all, mean2, dev2, i);
    }
  }

  /** The doubled distance of the observed rank sum from its mean, as the code takes it. */
  function ObservedDeviation2(a: seq<real>, b: seq<real>): nat {
    Abs(2 * Observed(a, Sort(Pool(a, b))) - |a| * (|a| + |b| + 1))
  }

  /** The enumeration and the quotient for an observed rank sum. */
  method ExactP(n1: nat, n2: nat, r1: int) returns (p: real)
    ensures var dev2 := Abs(2 * r1 - n1 * (n1 + n2 + 1));
      && p * |Combinations(1, n1 + n2, n1)| as real == Count(1, n1 + n2, n1, n1 * (n1 + n2 + 1), dev2) as real
      && 0.0 <= p <= 1.0 && (p > 0.0 <==> dev2 <= n1 * n2)
  {
    hide Combinations, Extremes, Abs;
    var all, mean2 := Combinations(1, n1 + n2, n1), n1 * (n1 + n2 + 1);
    var extreme, total := CountExtremes(all, r1, mean2);
    ExtremesAtMost(all, mean2, Abs(2 * r1 - mean2));
    SomeSplitExists(n1, n2);
    SomeSplitIsExtreme(n1, n2, Abs(2 * r1 - mean2));
    Quotient(extreme, total);
    p := extreme as real / total as real;
    if p > 1.0 {
      p := 1.0;
    }
  }

  // ----- The observed rank sum in terms of the samples -----

  function NotAbove(a: seq<real>, v: real): nat {
    if a == [] then 0 else NotAbove(a[..|a| - 1], v) + if a[|a| - 1] <= v then 1 else 0
  }

  function Below(b: seq<real>, v: real): nat {
    if b == [] then 0 else Below(b[..|b| - 1], v) + if b[|b| - 1] < v then 1 else 0
  }

  function Equal(a: seq<real>, v: real): nat {
    if a == [] then 0 else Equal(a[..|a| - 1], v) + if a[|a| - 1] == v then 1 else 0
  }

  /** The tied pairs within a sample. */
  function Ties(a: seq<real>): nat {
    if a == [] then 0 else Ties(a[..|a| - 1]) + Equal(a[..|a| - 1], a[|a| - 1])
  }

  /** The pairs in which the first sample has the larger value. */
  function Greater(a: seq<real>, b: seq<real>): nat {
    if a == [] then 0 else Greater(a[..|a| - 1], b) + Below(b, a[|a| - 1])
  }

  function AtOrBefore(o: Obs): Obs -> int {
    (p: Obs) => if Before(p, o) then 1 else 0
  }

  lemma {:induction false} AllAtOrBefore(s: seq<Obs>, o: Obs)
    requires forall p :: p in s ==> Before(p, o)
    ensures SumOf(s, AtOrBefore(o)) == |s|
  {
    if s != [] {
      AllAtOrBefore(s[..|s| - 1], o);
    }
  }

  /** The rank in the dictionary counts the observations at or before one. */
  lemma {:induction false} LastRankCounts(lab: seq<Obs>, o: Obs)
    requires Ordered(lab) && o in lab
    ensures LastRank(lab, o) == SumOf(lab, AtOrBefore(o))
  {
    var n := |lab| - 1;
    if lab[n] == o {
      assert forall i :: 0 <= i < n ==> Before(lab[i], lab[n]);
      AllAtOrBefore(lab, o);
    } else {
      var i :| 0 <= i < |lab| && lab[i] == o;
      assert Before(lab[i], lab[n]);
      assert lab[..n][i] == o;
      LastRankCounts(lab[..n], o);
    }
  }

  lemma {:induction false} CountsInFirst(a: seq<real>, v: real)
    ensures SumOf(Labelled(a, 0), AtOrBefore(Obs(v, 0))) == NotAbove(a, v)
  {
    if a != [] {
      CountsInFirst(a[..|a| - 1], v);
      assert Labelled(a, 0)[..|a| - 1] == Labelled(a[..|a| - 1], 0);
    }
  }

  lemma {:induction false} CountsInSecond(b: seq<real>, v: real)
    ensures SumOf(Labelled(b, 1), AtOrBefore(Obs(v, 0))) == Below(b, v)
  {
    if b != [] {
      CountsInSecond(b[..|b| - 1], v);
      assert Labelled(b, 1)[..|b| - 1] == Labelled(b[..|b| - 1], 1);
    }
  }

  lemma RankInSamples(a: seq<real>, b: seq<real>, v: real)
    requires v in a
    ensures LastRank(Sort(Pool(a, b)), Obs(v, 0)) == NotAbove(a, v) + Below(b, v)
  {
    hide Sort, Ordered, LastRank, SumOf;
    var lab, o := Sort(Pool(a, b)), Obs(v, 0);
    PoolHoldsTheFirst(a, b, lab, v);
    LastRankCounts(lab, o);
    SumPermuted(lab, Pool(a, b), AtOrBefore(o));
    SumAppend(Labelled(a, 0), Labelled(b, 1), AtOrBefore(o));
    CountsInFirst(a, v);
    CountsInSecond(b, v);
  }

  function SumNotAbove(s: seq<real>, a: seq<real>): nat {
    if s == [] then 0 else SumNotAbove(s[..|s| - 1], a) + NotAbove(a, s[|s| - 1])
  }

  lemma {:induction false} ObservedSplits(s: seq<real>, a: seq<real>, b: seq<real>)
    requires forall v :: v in s ==> v in a
    ensures Observed(s, Sort(Pool(a, b))) == SumNotAbove(s, a) + Greater(s, b)
  {
    if s != [] {
      hide Sort, Pool, LastRank, NotAbove, Below;
      ObservedSplits(s[..|s| - 1], a, b);
      RankInSamples(a, b, s[|s| - 1]);
    }
  }

  lemma {:induction false} OneMoreNotAbove(s: seq<real>, a: seq<real>, x: real)
    ensures SumNotAbove(s, a + [x]) + NotAbove(s, x) == SumNotAbove(s, a) + |s| + Equal(s, x)
  {
    if s != [] {
      OneMoreNotAbove(s[..|s| - 1], a, x);
      assert (a + [x])[..|a|] == a;
    }
  }

  lemma NotAboveStep(rest: seq<real>, x: real)
    ensures var a := rest + [x]; SumNotAbove(a, a) == SumNotAbove(rest, rest) + |a| + Equal(rest, x)
  {
    OneMoreNotAbove(rest, rest, x);
    assert (rest + [x])[..|rest|] == rest;
  }

  lemma Triangle(n: nat)
    ensures (n + 1) * (n + 2) == n * (n + 1) + 2 * (n + 1)
  {
  }

  lemma {:induction false} NotAbovePairs(a: seq<real>)
    ensures 2 * SumNotAbove(a, a) == |a| * (|a| + 1) + 2 * Ties(a)
  {
    if a != [] {
      hide SumNotAbove, Equal;
      var rest, x := a[..|a| - 1], a[|a| - 1];
      assert a == rest + [x];
      NotAbovePairs(rest);
      NotAboveStep(rest, x);
      Triangle(|rest|);
    }
  }

  /** For all samples: the rank sum that the dictionary gives, less n1(n1 + 1)/2, counts the pairs in which
      the first sample is larger and the ties within it; ties between the samples count nothing. */
  lemma ObservedCountsTies(a: seq<real>, b: seq<real>)
    ensures 2 * Observed(a, Sort(Pool(a, b))) == |a| * (|a| + 1) + 2 * (Ties(a) + Greater(a, b))
    ensures ObservedDeviation2(a, b) == Abs(2 * (Ties(a) + Greater(a, b)) - |a| * |b|)
  {
    hide Sort, Pool, Observed, Ties, Greater;
    ObservedSplits(a, a, b);
    NotAbovePairs(a);
    assert |a| * (|a| + 1) - |a| * (|a| + |b| + 1) == -(|a| * |b|);
  }

  /** `mannwhitney_exact`, with U doubled, for all samples. The p-value counts the assignments at least as
      extreme as the rank sum the dictionary gives. It is above zero exactly if the ties within the first
      sample are no more than the pairs in which that sample is not larger. Without ties it is the
      p-value of the exact test. */
  method MannWhitneyExact(a: seq<real>, b: seq<real>) returns (u2: int, p: real)
    ensures u2 == Min(2 * (Ties(a) + Greater(a, b)), 2 * (|a| * |b| - Ties(a) - Greater(a, b)))
    ensures p * Splits(a, b) as real == Count(1, |a| + |b|, |a|, |a| * (|a| + |b| + 1), ObservedDeviation2(a, b)) as real
    ensures 0.0 <= p <= 1.0
    ensures p > 0.0 <==> Ties(a) + Greater(a, b) <= |a| * |b|
    ensures NoTies(Pool(a, b)) ==> u2 == U2(a, b) && p > 0.0 && p * Splits(a, b) as real == ExtremeSplits(a, b) as real
  {
    hide Combinations, Count, Pairs, NoTies, Ordered, Sort, Pool, Observed, LastRank, Deviation2, ObservedDeviation2, Ties, Greater;
    var lab := Sort(Pool(a, b));
    var ranks := RankTable(lab);
    forall v | v in a ensures Obs(v, 0) in lab {
      PoolHoldsTheFirst(a, b, lab, v);
    }
    var r1 := ObservedRankSum(a, lab, ranks);
    var u1 := 2 * r1 - |a| * (|a| + 1);
    u2 := Min(u1, 2 * |a| * |b| - u1);
    p := ExactP(|a|, |b|, r1);
    DeviationOf(a, b, r1);
    ObservedCountsTies(a, b);
    AboveZero(Ties(a) + Greater(a, b), |a| * |b|);
    if NoTies(Pool(a, b)) {
      WithoutTies(a, b);
    }
  }

  lemma DeviationOf(a: seq<real>, b: seq<real>, r1: int)
    requires r1 == Observed(a, Sort(Pool(a, b)))
    ensures ObservedDeviation2(a, b) == Abs(2 * r1 - |a| * (|a| + |b| + 1))
  {
    hide Observed, Sort, Pool, Abs;
  }

  lemma AboveZero(x: nat, pairs: nat)
    ensures Abs(2 * x - pairs) <= pairs <==> x <= pairs
  {
  }

  lemma SomeSplitExists(n1: nat, n2: nat)
    ensures |Combinations(1, n1 + n2, n1)| >= 1
  {
    CombinationsAreTheSubsets(1, n1 + n2, n1, Lowest(1, n1));
  }

  /** Without ties the code's rank sum is that of the pair count. */
  lemma ObservedIsPairCount(a: seq<real>, b: seq<real>)
    requires NoTies(Pool(a, b))
    ensures 2 * Observed(a, Sort(Pool(a, b))) == Pairs(Labelled(a, 0), Labelled(b, 1)) + |a| * (|a| + 1)
  {
    hide Pairs, NoTies, Ordered, Sort, Pool, SumOf, Observed;
    var lab := Sort(Pool(a, b));
    SortedHasNoTies(Pool(a, b), lab);
    forall v | v in a ensures Obs(v, 0) in lab {
      PoolHoldsTheFirst(a, b, lab, v);
    }
    ObservedIsTheRankSum(a, lab);
    SampleRankSum(a, b, lab);
  }

  lemma WithoutTies(a: seq<real>, b: seq<real>)
    requires NoTies(Pool(a, b))
    ensures 2 * Observed(a, Sort(Pool(a, b))) == Pairs(Labelled(a, 0), Labelled(b, 1)) + |a| * (|a| + 1)
    ensures ObservedDeviation2(a, b) == Deviation2(a, b) <= |a| * |b|
  {
    hide Pairs, NoTies, Sort, Pool, Observed, Count, Labelled, Abs;
    ObservedIsPairCount(a, b);
    assert ObservedDeviation2(a, b) == Deviation2(a, b);
    hide Deviation2, ObservedDeviation2;
    PValueIsAProbability(a, b);
    SomeSplitIsExtreme(|a|, |b|, Deviation2(a, b));
  }

  /** With ties the p-value can be zero, for samples that are compared: two equal values, both above two
      others. */
  method TwoEqualValues() returns (p: real)
    ensures p == 0.0
  {
    var a, b := [2.0, 2.0], [0.0, 1.0];
    assert a[..1] == [2.0] && [2.0][..0] == [];
    assert b[..1] == [0.0] && [0.0][..0] == [];
    assert Below(b, 2.0) == 2;
    assert Greater(a, b) == Greater([2.0], b) + 2 == 4;
    assert Equal([2.0], 2.0) == 1;
    assert Ties(a) == Ties([2.0]) + 1;
    var _, q := MannWhitneyExact(a, b);
    p := q;
  }
}
