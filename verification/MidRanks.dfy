/** The Mann-Whitney U statistic with midranks for ties. Ranks and U are doubled, so that a
    midrank is an integer. */
module MidRanks {
  import opened Results

  /** A value and the sample it comes from: 0 for the first, 1 for the second. */
  datatype Obs = Obs(value: real, group: int)

  function Labelled(values: seq<real>, group: int): (s: seq<Obs>)
    ensures |s| == |values| && forall i :: 0 <= i < |s| ==> s[i] == Obs(values[i], group)
  {
    seq(|values|, i requires 0 <= i < |values| => Obs(values[i], group))
  }

  function Pool(a: seq<real>, b: seq<real>): seq<Obs> {
    Labelled(a, 0) + Labelled(b, 1)
  }

  // ----- Sums over a sample -----

  function SumOf(s: seq<Obs>, f: Obs -> int): int {
    if s == [] then 0 else SumOf(s[..|s| - 1], f) + f(s[|s| - 1])
  }

  lemma {:induction false} SumAppend(s: seq<Obs>, t: seq<Obs>, f: Obs -> int)
    ensures SumOf(s + t, f) == SumOf(s, f) + SumOf(t, f)
  {
    if t == [] {
      assert s + t == s;
    } else {
      SumAppend(s, t[..|t| - 1], f);
      assert (s + t)[..|s + t| - 1] == s + t[..|t| - 1];
    }
  }

  lemma {:induction false} SumSame(s: seq<Obs>, f: Obs -> int, g: Obs -> int)
    requires forall o :: o in s ==> f(o) == g(o)
    ensures SumOf(s, f) == SumOf(s, g)
  {
    if s != [] {
      SumSame(s[..|s| - 1], f, g);
    }
  }

  lemma WithoutOne(t: seq<Obs>, i: nat)
    requires i < |t|
    ensures multiset(t[..i] + t[i + 1..]) == multiset(t) - multiset{t[i]}
  {
    assert t == t[..i] + [t[i]] + t[i + 1..];
  }

  lemma SumOfOne(o: Obs, f: Obs -> int)
    ensures SumOf([o], f) == f(o)
  {
  }

  lemma SumWithoutOne(t: seq<Obs>, i: nat, f: Obs -> int)
    requires i < |t|
    ensures SumOf(t, f) == SumOf(t[..i] + t[i + 1..], f) + f(t[i])
  {
    hide SumOf;
    var before, after := t[..i], t[i + 1..];
    SumAppend(before, after, f);
    SumAppend(before, [t[i]] + after, f);
    SumAppend([t[i]], after, f);
    SumOfOne(t[i], f);
    assert t == before + ([t[i]] + after);
  }

  lemma {:induction false} SumPermuted(s: seq<Obs>, t: seq<Obs>, f: Obs -> int)
    requires multiset(s) == multiset(t)
    ensures SumOf(s, f) == SumOf(t, f)
  {
    if s == [] {
      assert |t| == |multiset(t)| == 0;
    } else {
      var n := |s| - 1;
      assert s == s[..n] + [s[n]];
      assert s[n] in multiset(t);
      var i :| 0 <= i < |t| && t[i] == s[n];
      WithoutOne(t, i);
      SumPermuted(s[..n], t[..i] + t[i + 1..], f);
      SumWithoutOne(t, i, f);
    }
  }

  // ----- Midranks and pairs -----

  /** Two for each smaller value, one for each equal value. */
  function Wins(x: real, y: real): int {
    if x > y then 2 else if x == y then 1 else 0
  }

  function Against(x: real): Obs -> int {
    (o: Obs) => Wins(x, o.value)
  }

  function Beat(x: real, s: seq<Obs>): int {
    SumOf(s, Against(x))
  }

  /** The doubled midrank of a value in a sample that holds it: the mean of the ranks of its equals. */
  function Rank2(x: real, s: seq<Obs>): int {
    Beat(x, s) + 1
  }

  function RankIn(group: int, pool: seq<Obs>): Obs -> int {
    (o: Obs) => if o.group == group then Rank2(o.value, pool) else 0
  }

  /** The doubled rank sum of one sample. */
  function RankSum2(s: seq<Obs>, group: int, pool: seq<Obs>): int {
    SumOf(s, RankIn(group, pool))
  }

  /** The quadratic count: over all pairs, two where s has the larger value and one where they tie. */
  function Pairs(s: seq<Obs>, t: seq<Obs>): int {
    if s == [] then 0 else Pairs(s[..|s| - 1], t) + Beat(s[|s| - 1].value, t)
  }

  lemma BeatOneMore(x: real, t: seq<Obs>, o: Obs)
    ensures Beat(x, t + [o]) == Beat(x, t) + Wins(x, o.value)
  {
  }

  lemma {:induction false} PairsOneMore(s: seq<Obs>, t: seq<Obs>, o: Obs)
    ensures Pairs(s, t + [o]) + Beat(o.value, s) == Pairs(s, t) + 2 * |s|
  {
    if s != [] {
      var last := s[|s| - 1];
      PairsOneMore(s[..|s| - 1], t, o);
      BeatOneMore(last.value, t, o);
      assert s == s[..|s| - 1] + [last];
      BeatOneMore(o.value, s[..|s| - 1], last);
    }
  }

  /** Each pair gives two points in all. */
  lemma {:induction false} PairsOfBothSides(s: seq<Obs>, t: seq<Obs>)
    ensures Pairs(s, t) + Pairs(t, s) == 2 * |s| * |t|
  {
    if s == [] {
      PairsWithNothing(t);
    } else {
      hide Beat;
      var rest, last := s[..|s| - 1], s[|s| - 1];
      PairsOfBothSides(rest, t);
      assert s == rest + [last];
      PairsOneMore(t, rest, last);
    }
  }

  lemma {:induction false} PairsWithNothing(t: seq<Obs>)
    ensures Pairs(t, []) == 0
  {
    if t != [] {
      PairsWithNothing(t[..|t| - 1]);
    }
  }

  /** The rank sum of the part of a sample s that lies in one group, within a pool p + q. */
  lemma {:induction false} RankSumIsPairs(s: seq<Obs>, group: int, p: seq<Obs>, q: seq<Obs>)
    requires forall o :: o in s ==> o.group == group
    ensures RankSum2(s, group, p + q) == Pairs(s, p) + Pairs(s, q) + |s|
  {
    if s != [] {
      RankSumIsPairs(s[..|s| - 1], group, p, q);
      SumAppend(p, q, Against(s[|s| - 1].value));
    }
  }

  lemma {:induction false} RankSumOfOthers(s: seq<Obs>, group: int, pool: seq<Obs>)
    requires forall o :: o in s ==> o.group != group
    ensures RankSum2(s, group, pool) == 0
  {
    if s != [] {
      RankSumOfOthers(s[..|s| - 1], group, pool);
    }
  }

  /** Rank sums do not depend on the order of the observations. */
  lemma RankSumPermuted(s: seq<Obs>, t: seq<Obs>, group: int)
    requires multiset(s) == multiset(t)
    ensures RankSum2(s, group, s) == RankSum2(t, group, t)
  {
    forall o | o in s ensures RankIn(group, s)(o) == RankIn(group, t)(o) {
      SumPermuted(s, t, Against(o.value));
    }
    SumSame(s, RankIn(group, s), RankIn(group, t));
    SumPermuted(s, t, RankIn(group, t));
  }

  // ----- Main results -----

  /** The rank sum form of U: whatever ties there are and however the pool is ordered, the
      doubled rank sum of the first sample less n1(n1 + 1) is the quadratic pair count. */
  lemma RankSumFormIsPairCount(a: seq<real>, b: seq<real>, lab: seq<Obs>)
    requires multiset(lab) == multiset(Pool(a, b))
    ensures RankSum2(lab, 0, lab) - |a| * (|a| + 1) == Pairs(Labelled(a, 0), Labelled(b, 1))
  {
    hide Pairs, Rank2, Beat;
    var s, t := Labelled(a, 0), Labelled(b, 1);
    RankSumPermuted(lab, s + t, 0);
    SumAppend(s, t, RankIn(0, s + t));
    RankSumIsPairs(s, 0, s, t);
    RankSumOfOthers(t, 0, s + t);
    PairsOfBothSides(s, s);
  }

  function AnyRank(pool: seq<Obs>): Obs -> int {
    (o: Obs) => Rank2(o.value, pool)
  }

  /** The midranks of N observations always add up to N(N + 1)/2. */
  lemma RanksAddUp(s: seq<Obs>)
    ensures SumOf(s, AnyRank(s)) == |s| * (|s| + 1)
  {
    RanksArePairs(s, s);
    PairsOfBothSides(s, s);
  }

  lemma {:induction false} RanksArePairs(s: seq<Obs>, pool: seq<Obs>)
    ensures SumOf(s, AnyRank(pool)) == Pairs(s, pool) + |s|
  {
    if s != [] {
      RanksArePairs(s[..|s| - 1], pool);
    }
  }

  function Min(x: int, y: int): int {
    if x < y then x else y
  }

  /** The doubled U that is reported. */
  function U2(a: seq<real>, b: seq<real>): int {
    var p := Pairs(Labelled(a, 0), Labelled(b, 1));
    Min(p, 2 * |a| * |b| - p)
  }

  lemma {:induction false} PairsIgnoreLabels(s: seq<Obs>, t: seq<Obs>, s': seq<Obs>, t': seq<Obs>)
    requires |s| == |s'| && forall i :: 0 <= i < |s| ==> s[i].value == s'[i].value
    requires |t| == |t'| && forall i :: 0 <= i < |t| ==> t[i].value == t'[i].value
    ensures Pairs(s, t) == Pairs(s', t')
  {
    if s != [] {
      PairsIgnoreLabels(s[..|s| - 1], t, s'[..|s| - 1], t');
      BeatIgnoresLabels(s[|s| - 1].value, t, t');
    }
  }

  lemma {:induction false} BeatIgnoresLabels(x: real, t: seq<Obs>, t': seq<Obs>)
    requires |t| == |t'| && forall i :: 0 <= i < |t| ==> t[i].value == t'[i].value
    ensures Beat(x, t) == Beat(x, t')
  {
    if t != [] {
      BeatIgnoresLabels(x, t[..|t| - 1], t'[..|t| - 1]);
    }
  }

  /** The reported U does not depend on which sample is called the first. */
  lemma UIsSymmetric(a: seq<real>, b: seq<real>)
    ensures U2(a, b) == U2(b, a)
  {
    var s, t := Labelled(a, 0), Labelled(b, 1);
    PairsOfBothSides(s, t);
    PairsIgnoreLabels(t, s, Labelled(b, 0), Labelled(a, 1));
  }

  // ----- The code -----

  /** The order of Python's tuples (value, label). */
  predicate Before(x: Obs, y: Obs) {
    x.value < y.value || (x.value == y.value && x.group <= y.group)
  }

  predicate Ordered(s: seq<Obs>) {
    forall i, j :: 0 <= i < j < |s| ==> Before(s[i], s[j])
  }

  function Insert(s: seq<Obs>, o: Obs): (r: seq<Obs>)
    ensures multiset(r) == multiset(s) + multiset{o}
  {
    if s == [] || Before(o, s[0]) then [o] + s
    else
      assert s == [s[0]] + s[1..];
      [s[0]] + Insert(s[1..], o)
  }

  lemma {:induction false} InsertKeepsOrder(s: seq<Obs>, o: Obs)
    requires Ordered(s)
    ensures Ordered(Insert(s, o))
  {
    if s != [] && !Before(o, s[0]) {
      InsertKeepsOrder(s[1..], o);
      var rest := Insert(s[1..], o);
      forall i | 0 <= i < |rest| ensures Before(s[0], rest[i]) {
        assert rest[i] in multiset(rest);
        assert rest[i] in s[1..] || rest[i] == o;
      }
    }
  }

  function Sort(s: seq<Obs>): (r: seq<Obs>)
    ensures multiset(r) == multiset(s) && Ordered(r)
  {
    if s == [] then []
    else
      assert s == s[..|s| - 1] + [s[|s| - 1]];
      InsertKeepsOrder(Sort(s[..|s| - 1]), s[|s| - 1]);
      Insert(Sort(s[..|s| - 1]), s[|s| - 1])
  }

  /** In an ordered sample, a block i..j of equals between smaller and larger values. */
  lemma {:induction false} BlockRank(s: seq<Obs>, i: nat, j: nat, n: nat)
    requires i <= j < |s| && n <= |s|
    requires forall k :: 0 <= k < |s| ==> (k < i ==> s[k].value < s[i].value) && (k > j ==> s[k].value > s[i].value)
    requires forall k :: i <= k <= j ==> s[k].value == s[i].value
    ensures Beat(s[i].value, s[..n]) == 2 * Min(n, i) + if n <= i then 0 else Min(n, j + 1) - i
  {
    if n > 0 {
      BlockRank(s, i, j, n - 1);
      assert s[..n] == s[..n - 1] + [s[n - 1]];
      BeatOneMore(s[i].value, s[..n - 1], s[n - 1]);
    }
  }

  /** The loop that fills `ranks`. */
  method Midranks(lab: seq<Obs>, ranks: array<int>)
    requires Ordered(lab) && ranks.Length == |lab|
    modifies ranks
    ensures forall k :: 0 <= k < |lab| ==> ranks[k] == Rank2(lab[k].value, lab)
  {
    var i := 0;
    while i < |lab|
      invariant 0 <= i <= |lab|
      invariant 0 < i < |lab| ==> lab[i - 1].value < lab[i].value
      invariant forall k :: 0 <= k < i ==> ranks[k] == Rank2(lab[k].value, lab)
    {
      var j := i;
      while j + 1 < |lab| && lab[j + 1].value == lab[i].value
        invariant i <= j < |lab|
        invariant forall k :: i <= k <= j ==> lab[k].value == lab[i].value
      {
        j := j + 1;
      }
      var r := i + j + 2;
      assert r == Rank2(lab[i].value, lab) by {
        forall k | 0 <= k < |lab|
          ensures (k < i ==> lab[k].value < lab[i].value) && (k > j ==> lab[k].value > lab[i].value)
        {
          assert k < i - 1 ==> Before(lab[k], lab[i - 1]);
          assert k > j + 1 ==> Before(lab[j + 1], lab[k]);
          assert k > j ==> Before(lab[i], lab[j + 1]);
        }
        BlockRank(lab, i, j, |lab|);
        assert lab[..|lab|] == lab;
      }
      for k := i to j + 1
        invariant forall m :: 0 <= m < k ==> ranks[m] == Rank2(lab[m].value, lab)
      {
        ranks[k] := r;
      }
      i := j + 1;
    }
  }

  method FirstRankSum(lab: seq<Obs>, ranks: array<int>) returns (r1: int)
    requires ranks.Length == |lab| && forall k :: 0 <= k < |lab| ==> ranks[k] == Rank2(lab[k].value, lab)
    ensures r1 == RankSum2(lab, 0, lab)
  {
    r1 := 0;
    for k := 0 to |lab|
      invariant r1 == RankSum2(lab[..k], 0, lab)
    {
      assert lab[..k + 1][..k] == lab[..k];
      if lab[k].group == 0 {
        r1 := r1 + ranks[k];
      }
    }
    assert lab[..|lab|] == lab;
  }

  /** `mw` up to U, doubled; None where it answers nan. */
  method Mw(a: seq<real>, b: seq<real>) returns (u: Option<int>)
    ensures u == if |a| == 0 || |b| == 0 then None else Some(U2(a, b))
  {
    if |a| == 0 || |b| == 0 {
      return None;
    }
    var lab := Sort(Pool(a, b));
    var ranks := new int[|lab|];
    Midranks(lab, ranks);
    var r1 := FirstRankSum(lab, ranks);
    RankSumFormIsPairCount(a, b, lab);
    var u1 := r1 - |a| * (|a| + 1);
    u := Some(Min(u1, 2 * |a| * |b| - u1));
  }
}
