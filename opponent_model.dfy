/**
 * Frequency/rank model of the opponent's preferences, as the agent keeps it
 * in code/JohnnyOpponentModel.java.
 *
 * Per issue the model keeps a frequency table (how often each value appeared
 * in the opponent's bids), listed in an order that is re-sorted by descending
 * frequency after every observation; a rank score per value, obtained by
 * competition ranking of the frequencies; and one weight per issue. A Java
 * frequency table (a LinkedHashMap from value name to count) is represented by
 * its content `freq[i][v]` (count of value `v` of issue `i`) and its iteration
 * order `order[i]` (the values of issue `i` in the order the table lists them).
 */
module OpponentModel {
  import opened Domain

  /** The counts of an issue's values, read in the order `order` lists the values. */
  function CountsInOrder(f: seq<nat>, order: seq<nat>): (cs: seq<nat>)
    requires forall j :: 0 <= j < |order| ==> order[j] < |f|
    ensures |cs| == |order|
    ensures forall j :: 0 <= j < |order| ==> cs[j] == f[order[j]]
  {
    seq(|order|, j requires 0 <= j < |order| => f[order[j]])
  }

  ghost predicate SortedDesc(cs: seq<nat>)
  {
    forall j, k :: 0 <= j < k < |cs| ==> cs[j] >= cs[k]
  }

  /** `order` lists values of the issue with counts `f`, by descending count. */
  ghost predicate SortedTable(f: seq<nat>, order: seq<nat>)
  {
    && (forall j :: 0 <= j < |order| ==> order[j] < |f|)
    && (forall j, k :: 0 <= j < k < |order| ==> f[order[j]] >= f[order[k]])
  }

  /** How many of the counts `cs` are strictly greater than `c`. */
  function CountAbove(cs: seq<nat>, c: nat): (k: nat)
    ensures k <= |cs|
  {
    if cs == [] then 0 else (if cs[0] > c then 1 else 0) + CountAbove(cs[1..], c)
  }

  /** The score of a value of rank `rank` on an issue with `n` values. */
  function RankScore(n: nat, rank: int): real
    requires n > 0
  {
    (n - rank + 1) as real / n as real
  }

  /**
   * Competition ranking of one issue: every value `v` has a score, and its rank
   * is one more than the number of values of the issue with a strictly higher count.
   * The values of the issue are the only keys.
   */
  ghost predicate RankedIssue(f: seq<nat>, r: map<nat, real>)
  {
    && (forall v :: v in r ==> v < |f|)
    && forall v :: 0 <= v < |f| ==> v in r && r[v] == RankScore(|f|, 1 + CountAbove(f, f[v]))
  }

  /** The uniform prior: every value of an issue with `n` values, and nothing else, scores 1.0. */
  ghost predicate AllOne(n: nat, r: map<nat, real>)
  {
    && (forall v :: v in r ==> v < n)
    && forall v :: 0 <= v < n ==> v in r && r[v] == 1.0
  }

  /**
   * The frequency table of an issue with `n` values: one counter per value, the
   * counters add up to the number of bids seen, and the iteration order lists
   * every value exactly once.
   */
  ghost predicate TableValid(n: nat, f: seq<nat>, order: seq<nat>, total: nat)
  {
    && |f| == n
    && Sum(f) == total
    && multiset(order) == multiset(Iota(n))
    && (forall j :: 0 <= j < |order| ==> order[j] < n)
  }

  /** Sum over the counts of (count / total)^2: the issue's concentration index. */
  function Concentration(cs: seq<nat>, total: nat): real
    requires total > 0
  {
    if cs == [] then 0.0
    else
      var share := cs[|cs| - 1] as real / total as real;
      Concentration(cs[..|cs| - 1], total) + share * share
  }

  /** Adding the next squared share extends the concentration index by one count, keeping it positive. */
  lemma ConcentrationStep(cs: seq<nat>, j: nat, total: nat, w: real, share: real)
    requires j < |cs| && total > 0
    requires w == Concentration(cs[..j], total)
    requires share == cs[j] as real / total as real
    requires j > 0 ==> w > 0.0
    requires j == 0 ==> cs[j] > 0
    ensures w + share * share == Concentration(cs[..j + 1], total)
    ensures w + share * share > 0.0
  {
    assert cs[..j + 1][..j] == cs[..j];
    assert share >= 0.0;
    if j == 0 {
      assert share > 0.0;
    }
  }

  /** Every one of the `k` issues weighs 1/k. */
  ghost predicate UniformWeights(weight: seq<real>, k: nat)
  {
    |weight| == k && forall i :: 0 <= i < k ==> weight[i] == 1.0 / k as real
  }

  /** Opponent utility of `bid` over its first `m` issues: the sum of rank score times weight. */
  function WeightedScore(ranks: seq<map<nat, real>>, weight: seq<real>, bid: Bid, m: nat): real
    requires m <= |bid| && |bid| <= |ranks| && |bid| <= |weight|
    requires forall i :: 0 <= i < |bid| ==> bid[i] in ranks[i]
  {
    if m == 0 then 0.0
    else WeightedScore(ranks, weight, bid, m - 1) + ranks[m - 1][bid[m - 1]] * weight[m - 1]
  }

  // ---------------------------------------------------------------------------
  // Counting values above a count

  lemma {:induction false} CountAboveConcat(a: seq<nat>, b: seq<nat>, c: nat)
    ensures CountAbove(a + b, c) == CountAbove(a, c) + CountAbove(b, c)
  {
    if a == [] {
      assert a + b == b;
    } else {
      CountAboveConcat(a[1..], b, c);
      assert (a + b)[1..] == a[1..] + b;
      assert (a + b)[0] == a[0];
    }
  }

  /** Removing one count removes its contribution. */
  lemma CountAboveRemove(b: seq<nat>, i: nat, c: nat)
    requires i < |b|
    ensures CountAbove(b, c) == CountAbove(b[..i] + b[i + 1..], c) + (if b[i] > c then 1 else 0)
  {
    var lo, hi := b[..i], b[i + 1..];
    CountAboveConcat(lo, hi, c);
    CountAboveConcat(lo, [b[i]] + hi, c);
    assert ([b[i]] + hi)[1..] == hi;
    assert lo + ([b[i]] + hi) == b;
  }

  /** The number of counts above `c` depends only on the multiset of counts. */
  lemma {:induction false} CountAbovePermutation(a: seq<nat>, b: seq<nat>, c: nat)
    requires multiset(a) == multiset(b)
    ensures CountAbove(a, c) == CountAbove(b, c)
  {
    if a == [] {
      assert |b| == |multiset(b)| == 0;
    } else {
      var x := a[0];
      assert x in multiset(b);
      var i :| 0 <= i < |b| && b[i] == x;
      MultisetRemove(b, i);
      MultisetRemove(a, 0);
      assert a[..0] + a[1..] == a[1..];
      CountAbovePermutation(a[1..], b[..i] + b[i + 1..], c);
      CountAboveRemove(b, i, c);
    }
  }

  lemma {:induction false} CountAboveNone(cs: seq<nat>, c: nat)
    requires forall j :: 0 <= j < |cs| ==> cs[j] <= c
    ensures CountAbove(cs, c) == 0
  {
    if cs != [] {
      CountAboveNone(cs[1..], c);
    }
  }

  /** In counts sorted in descending order, the counts above `c` are exactly a prefix. */
  lemma {:induction false} CountAboveSorted(cs: seq<nat>, k: nat, c: nat)
    requires SortedDesc(cs)
    requires k <= |cs|
    requires k < |cs| ==> cs[k] <= c
    requires k > 0 ==> cs[k - 1] > c
    ensures CountAbove(cs, c) == k
  {
    if k == 0 {
      CountAboveNone(cs, c);
    } else {
      CountAboveSorted(cs[1..], k - 1, c);
    }
  }

  /** A count is never above itself, so at most the other values rank above it. */
  lemma {:induction false} CountAboveOwn(cs: seq<nat>, j: nat)
    requires j < |cs|
    ensures CountAbove(cs, cs[j]) < |cs|
  {
    if j > 0 {
      CountAboveOwn(cs[1..], j - 1);
    }
  }

  /** A higher count has no more counts above it. */
  lemma {:induction false} CountAboveAntitone(cs: seq<nat>, c1: nat, c2: nat)
    requires c1 >= c2
    ensures CountAbove(cs, c1) <= CountAbove(cs, c2)
  {
    if cs != [] {
      CountAboveAntitone(cs[1..], c1, c2);
    }
  }

  // ---------------------------------------------------------------------------
  // Sorting a frequency table by descending count (Java's stable List.sort)

  /** Inserts value `x` before the first value whose count is not above `x`'s. */
  function InsertByCount(x: nat, s: seq<nat>, f: seq<nat>): (r: seq<nat>)
    requires x < |f|
    requires forall j :: 0 <= j < |s| ==> s[j] < |f|
    ensures |r| == |s| + 1
    ensures multiset(r) == multiset(s) + multiset([x])
    ensures forall j :: 0 <= j < |r| ==> r[j] < |f|
  {
    if s == [] || f[x] >= f[s[0]] then [x] + s
    else
      assert s == [s[0]] + s[1..];
      [s[0]] + InsertByCount(x, s[1..], f)
  }

  /** The values of `s` reordered by descending count, equal counts keeping their order. */
  function SortByCount(s: seq<nat>, f: seq<nat>): (r: seq<nat>)
    requires forall j :: 0 <= j < |s| ==> s[j] < |f|
    ensures |r| == |s|
    ensures multiset(r) == multiset(s)
    ensures forall j :: 0 <= j < |r| ==> r[j] < |f|
  {
    if s == [] then []
    else
      assert s == [s[0]] + s[1..];
      InsertByCount(s[0], SortByCount(s[1..], f), f)
  }

  /** Inserting a value whose count is at most `c` into values whose counts are at most `c` keeps every count at most `c`. */
  lemma {:induction false} InsertBounded(x: nat, s: seq<nat>, f: seq<nat>, c: nat)
    requires x < |f| && f[x] <= c
    requires forall j :: 0 <= j < |s| ==> s[j] < |f| && f[s[j]] <= c
    ensures forall j :: 0 <= j < |s| + 1 ==> f[InsertByCount(x, s, f)[j]] <= c
  {
    if s != [] && f[x] < f[s[0]] {
      InsertBounded(x, s[1..], f, c);
    }
  }

  lemma {:induction false} InsertKeepsSorted(x: nat, s: seq<nat>, f: seq<nat>)
    requires x < |f|
    requires SortedTable(f, s)
    ensures SortedTable(f, InsertByCount(x, s, f))
  {
    if s != [] && f[x] < f[s[0]] {
      var rest := InsertByCount(x, s[1..], f);
      InsertKeepsSorted(x, s[1..], f);
      InsertBounded(x, s[1..], f, f[s[0]]);
      var r := [s[0]] + rest;
      forall j, k | 0 <= j < k < |r|
        ensures f[r[j]] >= f[r[k]]
      {
        assert r[k] == rest[k - 1];
        if j > 0 {
          assert r[j] == rest[j - 1];
        }
      }
    }
  }

  /** The sorted table lists the values by descending count. */
  lemma {:induction false} SortIsSorted(s: seq<nat>, f: seq<nat>)
    requires forall j :: 0 <= j < |s| ==> s[j] < |f|
    ensures SortedTable(f, SortByCount(s, f))
  {
    if s != [] {
      SortIsSorted(s[1..], f);
      InsertKeepsSorted(s[0], SortByCount(s[1..], f), f);
    }
  }

  /** A sorted table read in its order gives counts in descending order. */
  lemma SortedCounts(f: seq<nat>, order: seq<nat>)
    requires SortedTable(f, order)
    ensures SortedDesc(CountsInOrder(f, order))
  {
  }

  /** Dropping a value from the order drops its count from the counts read in that order. */
  lemma CountsRemove(f: seq<nat>, o: seq<nat>, i: nat)
    requires forall j :: 0 <= j < |o| ==> o[j] < |f|
    requires i < |o|
    ensures multiset(CountsInOrder(f, o)) == multiset(CountsInOrder(f, o[..i] + o[i + 1..])) + multiset([f[o[i]]])
  {
    var cs := CountsInOrder(f, o);
    assert CountsInOrder(f, o[..i] + o[i + 1..]) == cs[..i] + cs[i + 1..];
    assert cs == cs[..i] + [cs[i]] + cs[i + 1..];
  }

  /** Reading the counts in two orders that list the same values gives the same multiset of counts. */
  lemma {:induction false} CountsPermutation(f: seq<nat>, o1: seq<nat>, o2: seq<nat>)
    requires forall j :: 0 <= j < |o1| ==> o1[j] < |f|
    requires forall j :: 0 <= j < |o2| ==> o2[j] < |f|
    requires multiset(o1) == multiset(o2)
    ensures multiset(CountsInOrder(f, o1)) == multiset(CountsInOrder(f, o2))
  {
    if o1 == [] {
      assert |o2| == |multiset(o2)| == 0;
      assert CountsInOrder(f, o2) == [];
    } else {
      var x := o1[0];
      assert x in multiset(o2);
      var i :| 0 <= i < |o2| && o2[i] == x;
      var r1, r2 := o1[..0] + o1[1..], o2[..i] + o2[i + 1..];
      assert multiset(r1) == multiset(r2) by {
        MultisetRemove(o2, i);
        MultisetRemove(o1, 0);
      }
      CountsPermutation(f, r1, r2);
      CountsRemove(f, o1, 0);
      CountsRemove(f, o2, i);
    }
  }

  /** Read in any order that lists every value once, the counts form the multiset of the table. */
  lemma CountsOfTable(n: nat, f: seq<nat>, order: seq<nat>, total: nat)
    requires TableValid(n, f, order, total)
    ensures multiset(CountsInOrder(f, order)) == multiset(f)
  {
    assert CountsInOrder(f, Iota(n)) == f;
    CountsPermutation(f, order, Iota(n));
  }

  // ---------------------------------------------------------------------------
  // Facts about the tables and the rank scores

  /** Observing value `v` once more keeps the table well formed, with one more bid counted. */
  lemma IncrementKeepsTable(n: nat, f: seq<nat>, order: seq<nat>, total: nat, v: nat)
    requires TableValid(n, f, order, total)
    requires v < n
    ensures TableValid(n, f[v := f[v] + 1], order, total + 1)
  {
    SumIncrement(f, v);
  }

  /** After at least one observation the most frequent value has a non-zero count. */
  lemma TopCountPositive(f: seq<nat>, order: seq<nat>)
    requires TableValid(|f|, f, order, Sum(f))
    requires SortedTable(f, order)
    requires Sum(f) > 0
    ensures |order| > 0 && f[order[0]] > 0
  {
    var cs := CountsInOrder(f, order);
    CountsOfTable(|f|, f, order, Sum(f));
    SumZero(f);
    var w :| 0 <= w < |f| && f[w] != 0;
    assert f[w] in multiset(cs);
    var j :| 0 <= j < |cs| && cs[j] == f[w];
    assert f[order[0]] >= f[order[j]];
  }

  lemma DivideMonotone(x: real, y: real, n: real)
    requires n > 0.0 && x <= y
    ensures x / n <= y / n
  {
    assert y / n - x / n == (y - x) / n;
  }

  /** With fewer than n values above it, a value scores between 1/n and 1. */
  lemma RankScoreRange(n: nat, above: nat)
    requires above < n
    ensures 0.0 < 1.0 / n as real <= RankScore(n, 1 + above) <= 1.0
  {
    DivideMonotone(1.0, (n - above) as real, n as real);
    DivideMonotone((n - above) as real, n as real, n as real);
  }

  /** Fewer values above means a higher score. */
  lemma RankScoreOrder(n: nat, a1: nat, a2: nat)
    requires n > 0 && a1 <= a2
    ensures RankScore(n, 1 + a1) >= RankScore(n, 1 + a2)
  {
    DivideMonotone((n - a2) as real, (n - a1) as real, n as real);
  }

  /** Every rank score lies between 1/n and 1. */
  lemma RankScoreBounds(f: seq<nat>, r: map<nat, real>, v: nat)
    requires RankedIssue(f, r)
    requires v < |f|
    ensures 0.0 < 1.0 / |f| as real <= r[v] <= 1.0
  {
    CountAboveOwn(f, v);
    RankScoreRange(|f|, CountAbove(f, f[v]));
  }

  /** A value that no other value of the issue beats scores exactly 1. */
  lemma RankScoreOfTop(f: seq<nat>, r: map<nat, real>, v: nat)
    requires RankedIssue(f, r)
    requires v < |f|
    requires forall w :: 0 <= w < |f| ==> f[w] <= f[v]
    ensures r[v] == 1.0
  {
    CountAboveNone(f, f[v]);
    RankScoreOfFirst(|f|);
  }

  lemma RankScoreOfFirst(n: nat)
    requires n > 0
    ensures RankScore(n, 1) == 1.0
  {
    var m := n as real;
    assert (n - 1 + 1) as real == m;
    assert m / m == 1.0;
  }

  /** A value seen at least as often as another scores at least as high. */
  lemma RankScoreMonotone(f: seq<nat>, r: map<nat, real>, a: nat, b: nat)
    requires RankedIssue(f, r)
    requires a < |f| && b < |f|
    requires f[a] >= f[b]
    ensures r[a] >= r[b]
  {
    CountAboveAntitone(f, f[a], f[b]);
    RankScoreOrder(|f|, CountAbove(f, f[a]), CountAbove(f, f[b]));
  }

  lemma {:induction false} UniformPrefix(ranks: seq<map<nat, real>>, weight: seq<real>, bid: Bid, m: nat)
    requires |bid| == |ranks| == |weight| > 0
    requires forall i :: 0 <= i < |bid| ==> bid[i] in ranks[i] && ranks[i][bid[i]] == 1.0
    requires UniformWeights(weight, |bid|)
    requires m <= |bid|
    ensures WeightedScore(ranks, weight, bid, m) == m as real * (1.0 / |bid| as real)
  {
    if m > 0 {
      UniformPrefix(ranks, weight, bid, m - 1);
    }
  }

  /** With every value scoring 1 and uniform weights, the opponent utility is 1. */
  lemma UniformPriorUtility(ranks: seq<map<nat, real>>, weight: seq<real>, bid: Bid)
    requires |bid| == |ranks| == |weight| > 0
    requires forall i :: 0 <= i < |bid| ==> bid[i] in ranks[i] && ranks[i][bid[i]] == 1.0
    requires UniformWeights(weight, |bid|)
    ensures WeightedScore(ranks, weight, bid, |bid|) == 1.0
  {
    UniformPrefix(ranks, weight, bid, |bid|);
    var k := |bid| as real;
    assert k * (1.0 / k) == 1.0;
  }

  lemma {:induction false} BoundedPrefix(ranks: seq<map<nat, real>>, weight: seq<real>, bid: Bid, m: nat)
    requires |bid| == |ranks| == |weight| > 0
    requires forall i :: 0 <= i < |bid| ==> bid[i] in ranks[i] && 0.0 < ranks[i][bid[i]] <= 1.0
    requires UniformWeights(weight, |bid|)
    requires m <= |bid|
    ensures m > 0 ==> 0.0 < WeightedScore(ranks, weight, bid, m)
    ensures WeightedScore(ranks, weight, bid, m) <= m as real * (1.0 / |bid| as real)
  {
    if m > 0 {
      BoundedPrefix(ranks, weight, bid, m - 1);
      var w := 1.0 / |bid| as real;
      var s := ranks[m - 1][bid[m - 1]];
      assert 0.0 < s * w <= w;
    }
  }

  /** With every score in (0, 1] and uniform weights, the opponent utility is in (0, 1]. */
  lemma ScoredUtilityRange(ranks: seq<map<nat, real>>, weight: seq<real>, bid: Bid)
    requires |bid| == |ranks| == |weight| > 0
    requires forall i :: 0 <= i < |bid| ==> bid[i] in ranks[i] && 0.0 < ranks[i][bid[i]] <= 1.0
    requires UniformWeights(weight, |bid|)
    ensures 0.0 < WeightedScore(ranks, weight, bid, |bid|) <= 1.0
  {
    BoundedPrefix(ranks, weight, bid, |bid|);
    var k := |bid| as real;
    assert k * (1.0 / k) == 1.0;
  }

  /**
   * The first `j` values of the table's order carry their competition-ranking
   * score, and only values of the issue are scored.
   */
  ghost predicate RankedPrefix(f: seq<nat>, options: seq<nat>, r: map<nat, real>, j: nat)
    requires forall jj :: 0 <= jj < |options| ==> options[jj] < |f|
  {
    && (forall v :: v in r ==> v < |f|)
    && forall jj :: 0 <= jj < j && jj < |options| ==>
         options[jj] in r && r[options[jj]] == RankScore(|options|, 1 + CountAbove(CountsInOrder(f, options), f[options[jj]]))
  }

  /** Scoring the next value of the order extends the scored prefix by one. */
  lemma RankedPrefixStep(f: seq<nat>, options: seq<nat>, total: nat, r: map<nat, real>, j: nat, score: real)
    requires TableValid(|f|, f, options, total)
    requires j < |options|
    requires RankedPrefix(f, options, r, j)
    requires score == RankScore(|options|, 1 + CountAbove(CountsInOrder(f, options), f[options[j]]))
    ensures RankedPrefix(f, options, r[options[j] := score], j + 1)
  {
    var p := PermutationHolds(options, |f|, options[j]);
  }

  /**
   * Scores given along the table's order, by the number of counts above each
   * value's count, are the issue's competition ranking.
   */
  lemma RankedByTable(f: seq<nat>, options: seq<nat>, total: nat, r: map<nat, real>)
    requires |f| > 0 && TableValid(|f|, f, options, total)
    requires RankedPrefix(f, options, r, |options|)
    ensures RankedIssue(f, r)
  {
    var cs := CountsInOrder(f, options);
    CountsOfTable(|f|, f, options, total);
    PermutationBounded(options, |f|);
    forall v | 0 <= v < |f|
      ensures v in r && r[v] == RankScore(|f|, 1 + CountAbove(f, f[v]))
    {
      var p := PermutationHolds(options, |f|, v);
      CountAbovePermutation(cs, f, f[v]);
    }
  }

  /** A table of zero counters listed in domain order is well formed and sorted. */
  lemma InitialTable(n: nat, f: seq<nat>)
    requires |f| == n
    requires forall v :: 0 <= v < n ==> f[v] == 0
    ensures TableValid(n, f, Iota(n), 0)
    ensures SortedTable(f, Iota(n))
  {
    SumZero(f);
  }

  // ---------------------------------------------------------------------------
  // The model

  class JohnnyOpponentModel {
    /** Number of values of each issue, in domain order. */
    const sizes: seq<nat>
    /** freq[i][v]: how many of the opponent's bids chose value v on issue i. */
    var freq: seq<seq<nat>>
    /** order[i]: the order in which issue i's frequency table lists its values. */
    var order: seq<seq<nat>>
    /** ranks[i][v]: the rank score of value v on issue i. */
    var ranks: seq<map<nat, real>>
    /** The issue weights used by the utility estimate. */
    var weight: seq<real>
    /** Number of opponent bids observed. */
    var bidCount: nat

    ghost predicate Valid()
      reads this
    {
      && |freq| == |sizes| && |order| == |sizes| && |ranks| == |sizes| && |weight| == |sizes|
      && (forall i :: 0 <= i < |sizes| ==> TableValid(sizes[i], freq[i], order[i], bidCount))
      && (forall i :: 0 <= i < |sizes| ==> SortedTable(freq[i], order[i]))
      && UniformWeights(weight, |sizes|)
      && (bidCount == 0 ==> forall i :: 0 <= i < |sizes| ==> AllOne(sizes[i], ranks[i]))
      && (bidCount > 0 ==> forall i :: 0 <= i < |sizes| ==> RankedIssue(freq[i], ranks[i]))
    }

    /** Zero counters, rank score 1.0 for every value, uniform weights 1/k. */
    constructor (sizes: seq<nat>)
      ensures Valid() && this.sizes == sizes && bidCount == 0
      ensures forall i, v :: 0 <= i < |sizes| && 0 <= v < sizes[i] ==> freq[i][v] == 0
      ensures forall i :: 0 <= i < |sizes| ==> AllOne(sizes[i], ranks[i])
      ensures forall i :: 0 <= i < |sizes| ==> weight[i] == 1.0 / |sizes| as real
    {
      var frequencies: seq<seq<nat>> := [];
      var orders: seq<seq<nat>> := [];
      var rankMaps: seq<map<nat, real>> := [];
      var weights: seq<real> := [];
      for i := 0 to |sizes|
        invariant |frequencies| == i && |orders| == i && |rankMaps| == i && |weights| == i
        invariant forall ii :: 0 <= ii < i ==> |frequencies[ii]| == sizes[ii] && orders[ii] == Iota(sizes[ii])
        invariant forall ii, v :: 0 <= ii < i && 0 <= v < sizes[ii] ==> frequencies[ii][v] == 0
        invariant forall ii :: 0 <= ii < i ==> AllOne(sizes[ii], rankMaps[ii])
        invariant forall ii :: 0 <= ii < i ==> weights[ii] == 1.0 / |sizes| as real
      {
        var initFrequency: seq<nat> := [];
        var initRank: map<nat, real> := map[];
        weights := weights + [1.0 / |sizes| as real];
        for v := 0 to sizes[i]
          invariant |initFrequency| == v
          invariant forall w :: 0 <= w < v ==> initFrequency[w] == 0
          invariant AllOne(v, initRank)
        {
          initFrequency := initFrequency + [0];
          initRank := initRank[v := 1.0];
        }
        frequencies := frequencies + [initFrequency];
        orders := orders + [Iota(sizes[i])];
        rankMaps := rankMaps + [initRank];
      }
      this.sizes := sizes;
      freq := frequencies;
      order := orders;
      ranks := rankMaps;
      weight := weights;
      bidCount := 0;
      new;
      forall i | 0 <= i < |sizes|
        ensures TableValid(sizes[i], freq[i], order[i], 0) && SortedTable(freq[i], order[i])
      {
        InitialTable(sizes[i], freq[i]);
      }
    }

    /** Counts the opponent's bid: one more on the bid's value of every issue, one more bid. */
    method AddOpponentFrequency(opponentBid: Bid)
      requires |freq| == |sizes| && |order| == |sizes| && ValidBid(sizes, opponentBid)
      requires forall i :: 0 <= i < |sizes| ==> TableValid(sizes[i], freq[i], order[i], bidCount) && |freq[i]| == sizes[i]
      modifies this`freq, this`bidCount
      ensures bidCount == old(bidCount) + 1
      ensures order == old(order) && ranks == old(ranks) && weight == old(weight)
      ensures |freq| == |sizes|
      ensures forall i :: 0 <= i < |sizes| ==>
                freq[i] == old(freq[i])[opponentBid[i] := old(freq[i][opponentBid[i]]) + 1]
      ensures forall i :: 0 <= i < |sizes| ==> TableValid(sizes[i], freq[i], order[i], bidCount)
    {
      ghost var before := freq;
      for i := 0 to |opponentBid|
        invariant |freq| == |sizes|
        invariant forall ii :: 0 <= ii < i ==>
                    freq[ii] == before[ii][opponentBid[ii] := before[ii][opponentBid[ii]] + 1]
        invariant forall ii :: i <= ii < |sizes| ==> freq[ii] == before[ii]
        modifies this`freq
      {
        var frequency := freq[i];
        frequency := frequency[opponentBid[i] := frequency[opponentBid[i]] + 1];
        freq := freq[i := frequency];
      }
      bidCount := bidCount + 1;
      forall i | 0 <= i < |sizes|
        ensures TableValid(sizes[i], freq[i], order[i], bidCount)
      {
        IncrementKeepsTable(sizes[i], before[i], order[i], old(bidCount), opponentBid[i]);
      }
    }

    /** Re-sorts every frequency table by descending count; the counts themselves stay. */
    method SortOpponentFrequency()
      requires |freq| == |sizes| && |order| == |sizes|
      requires forall i :: 0 <= i < |sizes| ==> TableValid(sizes[i], freq[i], order[i], bidCount)
      modifies this`order
      ensures freq == old(freq) && ranks == old(ranks) && weight == old(weight) && bidCount == old(bidCount)
      ensures |order| == |sizes|
      ensures forall i :: 0 <= i < |sizes| ==> multiset(order[i]) == multiset(old(order[i]))
      ensures forall i :: 0 <= i < |sizes| ==> TableValid(sizes[i], freq[i], order[i], bidCount)
      ensures forall i :: 0 <= i < |sizes| ==> SortedTable(freq[i], order[i])
    {
      for i := 0 to |sizes|
        invariant freq == old(freq) && ranks == old(ranks) && weight == old(weight) && bidCount == old(bidCount)
        invariant |order| == |sizes|
        invariant forall ii :: 0 <= ii < |sizes| ==> multiset(order[ii]) == multiset(old(order[ii]))
        invariant forall ii :: 0 <= ii < |sizes| ==> TableValid(sizes[ii], freq[ii], order[ii], bidCount)
        invariant forall ii :: 0 <= ii < i ==> SortedTable(freq[ii], order[ii])
      {
        SortIsSorted(order[i], freq[i]);
        order := order[i := SortByCount(order[i], freq[i])];
      }
    }

    /**
     * Ranks the values of one issue from its sorted table: competition ranking,
     * score (n - rank + 1) / n, and the issue's concentration index.
     */
    static method RankValues(f: seq<nat>, options: seq<nat>, total: nat) returns (issueRank: map<nat, real>, weightIssue: real)
      requires |f| > 0 && total > 0
      requires TableValid(|f|, f, options, total)
      requires SortedTable(f, options)
      ensures RankedIssue(f, issueRank)
      ensures weightIssue == Concentration(CountsInOrder(f, options), total)
      ensures weightIssue > 0.0
    {
      ghost var cs := CountsInOrder(f, options);
      SortedCounts(f, options);
      TopCountPositive(f, options);
      var optionNum := |options|;
      var rank := 0;
      issueRank := map[];
      weightIssue := 0.0;
      var lastFrequency := 0;
      var sameRank := 0;
      for j := 0 to optionNum
        invariant j == 0 ==> rank == 0 && sameRank == 0 && lastFrequency == 0
        invariant j > 0 ==> sameRank == j - rank && lastFrequency == cs[j - 1] && rank == 1 + CountAbove(cs, cs[j - 1])
        invariant RankedPrefix(f, options, issueRank, j)
        invariant weightIssue == Concentration(cs[..j], total)
        invariant j > 0 ==> weightIssue > 0.0
      {
        var frequency := f[options[j]];
        assert cs[j] == frequency;
        if lastFrequency == frequency {
          sameRank := sameRank + 1;
        } else {
          assert j > 0 ==> cs[j - 1] >= frequency;
          CountAboveSorted(cs, j, frequency);
          rank := rank + 1 + sameRank;
          sameRank := 0;
          lastFrequency := frequency;
        }
        var score := RankScore(optionNum, rank);
        RankedPrefixStep(f, options, total, issueRank, j, score);
        issueRank := issueRank[options[j] := score];
        var share := frequency as real / total as real;
        ConcentrationStep(cs, j, total, weightIssue, share);
        weightIssue := weightIssue + share * share;
      }
      assert cs[..optionNum] == cs;
      RankedByTable(f, options, total, issueRank);
    }

    /**
     * Takes one opponent bid into account: counts it, re-sorts the tables and
     * re-ranks every issue. The normalised concentration weights are computed
     * into a local list only, so the weights used by the utility estimate keep
     * their value.
     */
    method UpdateOpponentPreference(opponentBid: Bid)
      requires Valid() && ValidBid(sizes, opponentBid)
      modifies this`freq, this`order, this`ranks, this`bidCount
      ensures Valid()
      ensures bidCount == old(bidCount) + 1
      ensures forall i :: 0 <= i < |sizes| ==>
                freq[i] == old(freq[i])[opponentBid[i] := old(freq[i][opponentBid[i]]) + 1]
      ensures forall i :: 0 <= i < |sizes| ==> multiset(order[i]) == multiset(old(order[i]))
      ensures weight == old(weight)
    {
      AddOpponentFrequency(opponentBid);
      SortOpponentFrequency();

      var sumWeightIssue := 0.0;
      var weightIssueList: seq<real> := [];
      for i := 0 to |sizes|
        invariant |ranks| == |sizes| && |weightIssueList| == i
        invariant i > 0 ==> sumWeightIssue > 0.0
        invariant forall ii :: 0 <= ii < i ==> RankedIssue(freq[ii], ranks[ii])
        modifies this`ranks
      {
        var issueRank, weightIssue := RankValues(freq[i], order[i], bidCount);
        sumWeightIssue := sumWeightIssue + weightIssue;
        weightIssueList := weightIssueList + [weightIssue];
        ranks := ranks[i := issueRank];
      }
      for i := 0 to |weightIssueList|
        invariant |weightIssueList| == |sizes|
        modifies {}
      {
        weightIssueList := weightIssueList[i := weightIssueList[i] / sumWeightIssue];
      }
    }

    /** Every value of a valid bid has a rank score in (0, 1]; before any observation the score is 1. */
    lemma ScoresOfBid(opponentBid: Bid)
      requires Valid() && ValidBid(sizes, opponentBid)
      ensures forall i :: 0 <= i < |opponentBid| ==> opponentBid[i] in ranks[i]
      ensures bidCount == 0 ==> forall i :: 0 <= i < |opponentBid| ==> ranks[i][opponentBid[i]] == 1.0
      ensures forall i :: 0 <= i < |opponentBid| ==> 0.0 < ranks[i][opponentBid[i]] <= 1.0
    {
      forall i | 0 <= i < |opponentBid|
        ensures opponentBid[i] in ranks[i] && 0.0 < ranks[i][opponentBid[i]] <= 1.0
      {
        if bidCount > 0 {
          RankScoreBounds(freq[i], ranks[i], opponentBid[i]);
        }
      }
    }

    /** Estimated utility of `opponentBid` for the opponent: per issue, rank score times weight. */
    method GetOpponentUtility(opponentBid: Bid) returns (calculatedUtility: real)
      requires Valid() && ValidBid(sizes, opponentBid)
      ensures calculatedUtility == WeightedScore(ranks, weight, opponentBid, |opponentBid|)
      ensures bidCount == 0 && |sizes| > 0 ==> calculatedUtility == 1.0
      ensures bidCount > 0 && |sizes| > 0 ==> 0.0 < calculatedUtility <= 1.0
    {
      ScoresOfBid(opponentBid);
      calculatedUtility := 0.0;
      for i := 0 to |opponentBid|
        invariant calculatedUtility == WeightedScore(ranks, weight, opponentBid, i)
      {
        assert WeightedScore(ranks, weight, opponentBid, i + 1)
            == WeightedScore(ranks, weight, opponentBid, i) + ranks[i][opponentBid[i]] * weight[i];
        calculatedUtility := calculatedUtility + ranks[i][opponentBid[i]] * weight[i];
      }
      if |sizes| > 0 {
        if bidCount == 0 {
          UniformPriorUtility(ranks, weight, opponentBid);
        } else {
          ScoredUtilityRange(ranks, weight, opponentBid);
        }
      }
    }
  }
}
