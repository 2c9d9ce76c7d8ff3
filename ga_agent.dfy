/**
 * The genetic-algorithm negotiation agent of code/GAagent.java: its population
 * of candidate bids, the generation step it runs when it has to answer an
 * offer, and its accept/offer policy.
 *
 * The population is a Java HashMap from bid to fitness. It is represented by
 * its content `popList` and the order `popOrder` in which iterating over it
 * lists the bids. Every random draw of the generation step is an explicit
 * input (`Draws`); the agent's own utility and the fitness function are
 * functions given from outside.
 */
module GeneticAgent {
  import opened Domain
  import opened OpponentModel

  /** Population cap. */
  const PopSize: nat := 100
  /** Default mating-pool size. */
  const SelectionPool: nat := 80
  /** Length of the shortlist from which the offer is drawn. */
  const RandomBid: nat := 3

  datatype Action = Offer(bid: Bid) | Accept(bid: Bid)

  /** What `chooseAction` produces: an action, or the exception a too-short shortlist raises. */
  datatype Outcome = Chosen(action: Action) | ShortlistTooSmall

  /** One crossover draw: whether crossover happens for the pair, and the two cut points. */
  datatype CrossoverDraw = CrossoverDraw(fire: bool, start: nat, end: nat)

  /**
   * The random draws of one generation: a pair of population indices per
   * tournament, a crossover draw per pair of parents, per child and issue the
   * mutated value (None when the mutation trigger did not fire), the two
   * shuffles as index permutations, and the shortlist index.
   */
  datatype Draws = Draws(
    tournament: seq<(nat, nat)>,
    crossover: seq<CrossoverDraw>,
    mutation: seq<seq<Option<nat>>>,
    crossoverShuffle: seq<nat>,
    selectionShuffle: seq<nat>,
    pick: nat)

  /** `order` lists every bid of `pop` exactly once: a HashMap and its iteration order. */
  ghost predicate Listing(order: seq<Bid>, pop: map<Bid, real>)
  {
    && Distinct(order)
    && |order| == |pop|
    && (forall j :: 0 <= j < |order| ==> order[j] in pop)
    && (forall b :: b in pop ==> b in order)
  }

  /** Size of the mating pool for a population of `n` bids. */
  function MatingPoolSize(n: nat): (m: nat)
    ensures m <= n && m <= SelectionPool
    ensures m == n || m == SelectionPool
  {
    if n < SelectionPool then n else SelectionPool
  }

  /** Number of parent pairs the crossover visits: one per even index below the pool size. */
  function PairCount(m: nat): nat
  {
    (m + 1) / 2
  }

  /** The partner of parent `i`: the next bid of the population, wrapping to the first. */
  function Partner(i: nat, n: nat): (p: nat)
    requires i < n
    ensures p < n
    ensures p == i + 1 || (i + 1 == n && p == 0)
  {
    if i + 1 == n then 0 else i + 1
  }

  /** The draws fit a population of `n` bids over issues with `sizes` values. */
  predicate WellFormedDraws(d: Draws, n: nat, sizes: seq<nat>)
  {
    var m := MatingPoolSize(n);
    && |d.tournament| == m
    && (forall t :: 0 <= t < m ==> d.tournament[t].0 < n && d.tournament[t].1 < n)
    && |d.crossover| == PairCount(m)
    && (forall p :: 0 <= p < PairCount(m) && d.crossover[p].fire ==>
          d.crossover[p].start < |sizes| && d.crossover[p].end < |sizes|)
    && |d.mutation| == 2 * PairCount(m)
    && (forall c :: 0 <= c < 2 * PairCount(m) ==> MutationDraw(d.mutation[c], sizes))
    && IsPermutation(d.crossoverShuffle, 2 * PairCount(m))
    && IsPermutation(d.selectionShuffle, m)
    && d.pick < RandomBid
  }

  /** One mutation draw per issue; a fired draw picks a value of that issue. */
  predicate MutationDraw(draw: seq<Option<nat>>, sizes: seq<nat>)
  {
    |draw| == |sizes| && forall i :: 0 <= i < |sizes| && draw[i].Some? ==> draw[i].value < sizes[i]
  }

  // ---------------------------------------------------------------------------
  // Sorting by descending fitness (Java's stable List.sort on the entries)

  ghost predicate SortedByFitness(s: seq<Bid>, pop: map<Bid, real>)
  {
    && (forall j :: 0 <= j < |s| ==> s[j] in pop)
    && (forall j, k :: 0 <= j < k < |s| ==> pop[s[j]] >= pop[s[k]])
  }

  /** Inserts `x` before the first bid whose fitness is not above `x`'s. */
  function InsertByFitness(x: Bid, s: seq<Bid>, pop: map<Bid, real>): (r: seq<Bid>)
    requires x in pop
    requires forall j :: 0 <= j < |s| ==> s[j] in pop
    ensures |r| == |s| + 1
    ensures multiset(r) == multiset(s) + multiset([x])
    ensures forall j :: 0 <= j < |r| ==> r[j] in pop
  {
    if s == [] || pop[x] >= pop[s[0]] then [x] + s
    else
      assert s == [s[0]] + s[1..];
      [s[0]] + InsertByFitness(x, s[1..], pop)
  }

  /** The bids of `s` by descending fitness, bids of equal fitness keeping their order. */
  function SortByFitness(s: seq<Bid>, pop: map<Bid, real>): (r: seq<Bid>)
    requires forall j :: 0 <= j < |s| ==> s[j] in pop
    ensures |r| == |s|
    ensures multiset(r) == multiset(s)
    ensures forall j :: 0 <= j < |r| ==> r[j] in pop
  {
    if s == [] then []
    else
      assert s == [s[0]] + s[1..];
      InsertByFitness(s[0], SortByFitness(s[1..], pop), pop)
  }

  lemma {:induction false} InsertBelow(x: Bid, s: seq<Bid>, pop: map<Bid, real>, c: real)
    requires x in pop && pop[x] <= c
    requires forall j :: 0 <= j < |s| ==> s[j] in pop && pop[s[j]] <= c
    ensures forall j :: 0 <= j < |s| + 1 ==> pop[InsertByFitness(x, s, pop)[j]] <= c
  {
    if s != [] && pop[x] < pop[s[0]] {
      InsertBelow(x, s[1..], pop, c);
    }
  }

  lemma {:induction false} InsertSorted(x: Bid, s: seq<Bid>, pop: map<Bid, real>)
    requires x in pop
    requires SortedByFitness(s, pop)
    ensures SortedByFitness(InsertByFitness(x, s, pop), pop)
  {
    if s != [] && pop[x] < pop[s[0]] {
      var rest := InsertByFitness(x, s[1..], pop);
      InsertSorted(x, s[1..], pop);
      InsertBelow(x, s[1..], pop, pop[s[0]]);
      var r := [s[0]] + rest;
      forall j, k | 0 <= j < k < |r|
        ensures pop[r[j]] >= pop[r[k]]
      {
        assert r[k] == rest[k - 1];
        if j > 0 {
          assert r[j] == rest[j - 1];
        }
      }
    }
  }

  /** Sorting lists the bids by descending fitness. */
  lemma {:induction false} SortSorted(s: seq<Bid>, pop: map<Bid, real>)
    requires forall j :: 0 <= j < |s| ==> s[j] in pop
    ensures SortedByFitness(SortByFitness(s, pop), pop)
  {
    if s != [] {
      SortSorted(s[1..], pop);
      InsertSorted(s[0], SortByFitness(s[1..], pop), pop);
    }
  }

  /** A sequence without repetitions holds every element at most once. */
  lemma {:induction false} AtMostOnce<T>(s: seq<T>, x: T)
    requires Distinct(s)
    ensures multiset(s)[x] <= 1
  {
    if s != [] {
      var init, last := s[..|s| - 1], s[|s| - 1];
      assert s == init + [last];
      AtMostOnce(init, x);
      if last == x {
        assert forall q :: 0 <= q < |init| ==> init[q] != x;
        assert x !in multiset(init);
      }
    }
  }

  /** A sequence with the multiset of a sequence without repetitions has no repetitions either. */
  lemma DistinctPermutation<T>(s: seq<T>, r: seq<T>)
    requires Distinct(s) && multiset(r) == multiset(s)
    ensures Distinct(r)
  {
    forall j, k | 0 <= j < k < |r|
      ensures r[j] != r[k]
    {
      if r[j] == r[k] {
        TwoPositions(r, j, k);
        AtMostOnce(s, r[j]);
        assert false;
      }
    }
  }

  /**
   * The first `k` bids of the population by descending fitness: `k` distinct
   * members, each at least as fit as every member left out.
   */
  function TopK(order: seq<Bid>, pop: map<Bid, real>, k: nat): (top: seq<Bid>)
    requires Listing(order, pop)
    requires k <= |pop|
    ensures |top| == k && Distinct(top)
    ensures forall j :: 0 <= j < k ==> top[j] in pop
    ensures forall j, b :: 0 <= j < k && b in pop && b !in top ==> pop[top[j]] >= pop[b]
  {
    TopKFacts(order, pop, k);
    SortByFitness(order, pop)[..k]
  }

  lemma TopKFacts(order: seq<Bid>, pop: map<Bid, real>, k: nat)
    requires Listing(order, pop)
    requires k <= |pop|
    ensures var top := SortByFitness(order, pop)[..k];
      && Distinct(top)
      && forall j, b :: 0 <= j < k && b in pop && b !in top ==> pop[top[j]] >= pop[b]
  {
    var sorted := SortByFitness(order, pop);
    SortSorted(order, pop);
    DistinctPermutation(order, sorted);
    DistinctPrefix(sorted, k);
    forall b | b in pop
      ensures b in multiset(sorted)
    {
      assert b in multiset(order);
    }
    TopPrefix(sorted, pop, k);
  }

  lemma DistinctPrefix<T>(s: seq<T>, k: nat)
    requires Distinct(s) && k <= |s|
    ensures Distinct(s[..k])
  {
  }

  /** In a sorted listing of the population, a prefix beats every member outside it. */
  lemma TopPrefix(sorted: seq<Bid>, pop: map<Bid, real>, k: nat)
    requires SortedByFitness(sorted, pop) && k <= |sorted|
    requires forall b :: b in pop ==> b in multiset(sorted)
    ensures forall j, b :: 0 <= j < k && b in pop && b !in sorted[..k] ==> pop[sorted[j]] >= pop[b]
  {
    forall j, b | 0 <= j < k && b in pop && b !in sorted[..k]
      ensures pop[sorted[j]] >= pop[b]
    {
      assert forall q :: 0 <= q < k ==> sorted[q] == sorted[..k][q];
      var q :| 0 <= q < |sorted| && sorted[q] == b;
    }
  }

  // ---------------------------------------------------------------------------
  // Seeding

  /** Index of the first bid of the ranking that seeds the population: the last `PopSize` bids are kept. */
  function SeedStart(n: nat): (start: nat)
    ensures start <= n && n - start <= PopSize
    ensures n <= PopSize ==> start == 0
  {
    if PopSize < n then n - PopSize else 0
  }

  /**
   * Seeds the population with the best `PopSize` bids of the user's ranking
   * (the ranking lists bids from worst to best), all of fitness 0.
   */
  method SeedPopulation(bidOrder: seq<Bid>) returns (pop: map<Bid, real>, order: seq<Bid>)
    ensures Listing(order, pop)
    ensures |pop| <= PopSize
    ensures forall b :: b in pop <==> b in bidOrder[SeedStart(|bidOrder|)..]
    ensures forall b :: b in pop ==> pop[b] == 0.0
  {
    var bidList := bidOrder;
    if PopSize < |bidOrder| {
      bidList := bidOrder[|bidOrder| - PopSize..];
    }
    assert bidList == bidOrder[SeedStart(|bidOrder|)..];
    pop, order := PutAll(bidList);
  }

  /** Puts every bid of `bidList` into an empty population with fitness 0. */
  method PutAll(bidList: seq<Bid>) returns (pop: map<Bid, real>, order: seq<Bid>)
    ensures Listing(order, pop) && |order| <= |bidList|
    ensures forall b :: b in pop <==> b in bidList
    ensures forall b :: b in pop ==> pop[b] == 0.0
  {
    pop, order := map[], [];
    for i := 0 to |bidList|
      invariant Listing(order, pop) && |order| <= i
      invariant forall b :: b in pop <==> b in bidList[..i]
      invariant forall b :: b in pop ==> pop[b] == 0.0
    {
      assert bidList[..i + 1] == bidList[..i] + [bidList[i]];
      if bidList[i] !in pop {
        ListingAdd(order, pop, bidList[i], 0.0);
        order := order + [bidList[i]];
      } else {
        assert pop[bidList[i] := 0.0] == pop;
      }
      pop := pop[bidList[i] := 0.0];
    }
    assert bidList[..|bidList|] == bidList;
  }

  // ---------------------------------------------------------------------------
  // Selection

  /**
   * Binary tournaments: for every draw (a, b), the fitter of bidList[a] and
   * bidList[b] joins the mating pool, the second one on a tie.
   */
  method Tournament(bidList: seq<Bid>, pop: map<Bid, real>, draws: seq<(nat, nat)>) returns (selectBid: seq<Bid>)
    requires forall j :: 0 <= j < |bidList| ==> bidList[j] in pop
    requires |draws| == MatingPoolSize(|bidList|)
    requires forall t :: 0 <= t < |draws| ==> draws[t].0 < |bidList| && draws[t].1 < |bidList|
    ensures |selectBid| == MatingPoolSize(|bidList|)
    ensures forall t :: 0 <= t < |selectBid| ==> selectBid[t] in pop
    ensures Selected(bidList, pop, draws, selectBid)
  {
    var matingPoolSize := SelectionPool;
    if |bidList| < SelectionPool {
      matingPoolSize := |bidList|;
    }
    selectBid := [];
    for i := 0 to matingPoolSize
      invariant |selectBid| == i
      invariant forall t :: 0 <= t < i ==> selectBid[t] in pop
      invariant forall t :: 0 <= t < i ==>
                  var b1, b2 := bidList[draws[t].0], bidList[draws[t].1];
                  && (selectBid[t] == b1 || selectBid[t] == b2)
                  && pop[selectBid[t]] >= pop[b1] && pop[selectBid[t]] >= pop[b2]
                  && (pop[b1] == pop[b2] ==> selectBid[t] == b2)
    {
      var bid1 := bidList[draws[i].0];
      var bid2 := bidList[draws[i].1];
      if pop[bid1] > pop[bid2] {
        selectBid := selectBid + [bid1];
      } else {
        selectBid := selectBid + [bid2];
      }
    }
  }

  /**
   * The outcome of the tournaments: entry t of `selectBid` is the fitter of
   * the two bids drawn for tournament t, the second one on a tie.
   */
  ghost predicate Selected(bidList: seq<Bid>, pop: map<Bid, real>, draws: seq<(nat, nat)>, selectBid: seq<Bid>)
  {
    && |selectBid| == |draws|
    && forall t :: 0 <= t < |draws| ==>
         && draws[t].0 < |bidList| && draws[t].1 < |bidList|
         && bidList[draws[t].0] in pop && bidList[draws[t].1] in pop
         && var b1, b2 := bidList[draws[t].0], bidList[draws[t].1];
            && (selectBid[t] == b1 || selectBid[t] == b2)
            && pop[selectBid[t]] >= pop[b1] && pop[selectBid[t]] >= pop[b2]
            && (pop[b1] == pop[b2] ==> selectBid[t] == b2)
  }

  // ---------------------------------------------------------------------------
  // Crossover

  /** Children `c1`, `c2` of `b1`, `b2`: issues `lo`..`hi` exchanged, every other issue kept. */
  ghost predicate SegmentSwapped(b1: Bid, b2: Bid, c1: Bid, c2: Bid, lo: int, hi: int)
  {
    && |b1| == |b2| == |c1| == |c2|
    && (forall j :: 0 <= j < |b1| && lo <= j <= hi ==> c1[j] == b2[j] && c2[j] == b1[j])
    && (forall j :: 0 <= j < |b1| && !(lo <= j <= hi) ==> c1[j] == b1[j] && c2[j] == b2[j])
  }

  /** The issue values of two parents swapped over the inclusive range between the two cut points. */
  method SwapSegment(bid1: Bid, bid2: Bid, start: nat, end: nat) returns (child1: Bid, child2: Bid)
    requires |bid1| == |bid2| && start < |bid1| && end < |bid1|
    ensures SegmentSwapped(bid1, bid2, child1, child2, if start < end then start else end, if start < end then end else start)
  {
    var lo, hi := start, end;
    if lo > hi {
      lo, hi := hi, lo;
    }
    child1, child2 := bid1, bid2;
    for j := lo to hi + 1
      invariant SegmentSwapped(bid1, bid2, child1, child2, lo, j - 1)
    {
      var val1 := child1[j];
      var val2 := child2[j];
      child1 := child1[j := val2];
      child2 := child2[j := val1];
    }
  }

  /** Swapping the same range twice gives the parents back. */
  lemma SwapTwice(b1: Bid, b2: Bid, c1: Bid, c2: Bid, d1: Bid, d2: Bid, lo: int, hi: int)
    requires SegmentSwapped(b1, b2, c1, c2, lo, hi)
    requires SegmentSwapped(c1, c2, d1, d2, lo, hi)
    ensures d1 == b1 && d2 == b2
  {
  }

  /** Children of two bids of a domain are bids of that domain. */
  lemma SwapKeepsValid(sizes: seq<nat>, b1: Bid, b2: Bid, c1: Bid, c2: Bid, lo: int, hi: int)
    requires ValidBid(sizes, b1) && ValidBid(sizes, b2)
    requires SegmentSwapped(b1, b2, c1, c2, lo, hi)
    ensures ValidBid(sizes, c1) && ValidBid(sizes, c2)
  {
  }

  /**
   * Crossover over the population listing: parent i (i even, below the pool
   * size) pairs with its Partner; a fired draw swaps the segment between its
   * cut points, otherwise the parents pass unchanged.
   */
  method Crossover(bidList: seq<Bid>, matingPoolSize: nat, sizes: seq<nat>, draws: seq<CrossoverDraw>)
    returns (crossoverList: seq<Bid>)
    requires matingPoolSize <= |bidList|
    requires forall j :: 0 <= j < |bidList| ==> ValidBid(sizes, bidList[j])
    requires |draws| == PairCount(matingPoolSize)
    requires forall p :: 0 <= p < |draws| && draws[p].fire ==> draws[p].start < |sizes| && draws[p].end < |sizes|
    ensures |crossoverList| == 2 * PairCount(matingPoolSize)
    ensures forall c :: 0 <= c < |crossoverList| ==> ValidBid(sizes, crossoverList[c])
    ensures forall p :: 0 <= p < PairCount(matingPoolSize) ==> Crossed(bidList, draws, crossoverList, p)
  {
    crossoverList := [];
    var i := 0;
    while i < matingPoolSize
      invariant i % 2 == 0 && i <= matingPoolSize + 1
      invariant |crossoverList| == i
      invariant forall c :: 0 <= c < i ==> ValidBid(sizes, crossoverList[c])
      invariant forall p :: 0 <= p && 2 * p < i ==> Crossed(bidList, draws, crossoverList, p)
    {
      var bid1 := bidList[i];
      var selectBid2 := i + 1;
      if selectBid2 == |bidList| {
        selectBid2 := 0;
      }
      var bid2 := bidList[selectBid2];
      var draw := draws[i / 2];
      if draw.fire {
        var child1, child2 := SwapSegment(bid1, bid2, draw.start, draw.end);
        SwapKeepsValid(sizes, bid1, bid2, child1, child2,
          if draw.start < draw.end then draw.start else draw.end,
          if draw.start < draw.end then draw.end else draw.start);
        bid1, bid2 := child1, child2;
      }
      ghost var prev := crossoverList;
      crossoverList := crossoverList + [bid1, bid2];
      assert forall c :: 0 <= c < i ==> crossoverList[c] == prev[c];
      assert Crossed(bidList, draws, crossoverList, i / 2);
      forall p | 0 <= p && 2 * p < i + 2
        ensures Crossed(bidList, draws, crossoverList, p)
      {
        if 2 * p < i {
          assert Crossed(bidList, draws, prev, p);
        } else {
          assert p == i / 2;
        }
      }
      i := i + 2;
    }
  }

  /** Children 2p and 2p+1 come from parent 2p and its Partner, as draw p says. */
  ghost predicate Crossed(bidList: seq<Bid>, draws: seq<CrossoverDraw>, crossoverList: seq<Bid>, p: nat)
  {
    && 2 * p < |bidList| && p < |draws| && 2 * p + 1 < |crossoverList|
    && var parent1, parent2 := bidList[2 * p], bidList[Partner(2 * p, |bidList|)];
       var d := draws[p];
       if d.fire then
         SegmentSwapped(parent1, parent2, crossoverList[2 * p], crossoverList[2 * p + 1],
           if d.start < d.end then d.start else d.end, if d.start < d.end then d.end else d.start)
       else
         crossoverList[2 * p] == parent1 && crossoverList[2 * p + 1] == parent2
  }

  // ---------------------------------------------------------------------------
  // Mutation

  /** `mutated` is `bid` with every issue whose trigger fired set to the drawn value, and nothing else changed. */
  ghost predicate MutatedFrom(mutated: Bid, bid: Bid, draw: seq<Option<nat>>)
  {
    && |mutated| == |bid| == |draw|
    && (forall i :: 0 <= i < |draw| && draw[i].None? ==> mutated[i] == bid[i])
    && (forall i :: 0 <= i < |draw| && draw[i].Some? ==> mutated[i] == draw[i].value)
  }

  /** Mutates one child: every issue whose trigger fired takes the drawn value of that issue. */
  method MutateBid(bid: Bid, sizes: seq<nat>, draw: seq<Option<nat>>) returns (mutated: Bid)
    requires ValidBid(sizes, bid) && MutationDraw(draw, sizes)
    ensures ValidBid(sizes, mutated)
    ensures MutatedFrom(mutated, bid, draw)
  {
    mutated := bid;
    for i := 0 to |sizes|
      invariant ValidBid(sizes, mutated)
      invariant forall ii :: 0 <= ii < |sizes| && (ii >= i || draw[ii].None?) ==> mutated[ii] == bid[ii]
      invariant forall ii :: 0 <= ii < i && draw[ii].Some? ==> mutated[ii] == draw[ii].value
    {
      if draw[i].Some? {
        mutated := mutated[i := draw[i].value];
      }
    }
  }

  /** Mutates every child of the crossover. */
  method Mutate(crossoverList: seq<Bid>, sizes: seq<nat>, draws: seq<seq<Option<nat>>>) returns (mutationList: seq<Bid>)
    requires forall c :: 0 <= c < |crossoverList| ==> ValidBid(sizes, crossoverList[c])
    requires |draws| == |crossoverList|
    requires forall c :: 0 <= c < |draws| ==> MutationDraw(draws[c], sizes)
    ensures |mutationList| == |crossoverList|
    ensures forall c :: 0 <= c < |mutationList| ==> ValidBid(sizes, mutationList[c])
    ensures forall c :: 0 <= c < |mutationList| ==> MutatedFrom(mutationList[c], crossoverList[c], draws[c])
  {
    mutationList := [];
    for c := 0 to |crossoverList|
      invariant |mutationList| == c
      invariant forall cc :: 0 <= cc < c ==> ValidBid(sizes, mutationList[cc])
      invariant forall cc :: 0 <= cc < c ==> MutatedFrom(mutationList[cc], crossoverList[cc], draws[cc])
    {
      var bid := MutateBid(crossoverList[c], sizes, draws[c]);
      mutationList := mutationList + [bid];
    }
  }

  // ---------------------------------------------------------------------------
  // Repopulation

  /** `s` reordered by the index permutation `perm` (Collections.shuffle with a given outcome). */
  function Shuffle(s: seq<Bid>, perm: seq<nat>): (r: seq<Bid>)
    requires IsPermutation(perm, |s|)
    ensures |r| == |s|
    ensures forall b :: b in r <==> b in s
  {
    var r := seq(|s|, k requires 0 <= k < |s| => s[perm[k]]);
    ShuffleMembers(s, perm, r);
    r
  }

  lemma ShuffleMembers(s: seq<Bid>, perm: seq<nat>, r: seq<Bid>)
    requires IsPermutation(perm, |s|)
    requires |perm| == |s| == |r|
    requires forall k :: 0 <= k < |r| ==> perm[k] < |s| && r[k] == s[perm[k]]
    ensures forall b :: b in r <==> b in s
  {
    forall b | b in s
      ensures b in r
    {
      var j :| 0 <= j < |s| && s[j] == b;
      assert j in perm;
      var k :| 0 <= k < |perm| && perm[k] == j;
      assert r[k] == b;
    }
  }

  /** Putting a new bid into the map appends it to the iteration order. */
  lemma ListingAdd(order: seq<Bid>, pop: map<Bid, real>, b: Bid, v: real)
    requires Listing(order, pop) && b !in pop
    ensures Listing(order + [b], pop[b := v])
  {
  }

  /** Fitness a bid joins the new population with: its old fitness, or 0 for a new bid. */
  function Inherited(pop: map<Bid, real>, b: Bid): real
  {
    if b in pop then pop[b] else 0.0
  }

  /**
   * The bids of `s` that are not in `seen`, each once, in the order of their
   * first occurrence: what a pass over `s` adds to the population `seen`.
   */
  function Fresh(seen: set<Bid>, s: seq<Bid>): (r: seq<Bid>)
    ensures Distinct(r)
    ensures forall b :: b in r <==> b in s && b !in seen
  {
    if s == [] then []
    else
      var prev := Fresh(seen, s[..|s| - 1]);
      var b := s[|s| - 1];
      assert s == s[..|s| - 1] + [b];
      if b in seen || b in prev then prev else prev + [b]
  }

  /** One more candidate visited: it is new exactly when it is in neither the population nor the bids visited so far. */
  lemma FreshStep(newOrder: seq<Bid>, newPop: map<Bid, real>, filledOrder: seq<Bid>, filled: map<Bid, real>,
                  candidates: seq<Bid>, k: nat)
    requires k < |candidates|
    requires filledOrder == newOrder + Fresh(newPop.Keys, candidates[..k])
    requires forall b :: b in filled <==> b in newPop || b in candidates[..k]
    ensures newOrder + Fresh(newPop.Keys, candidates[..k + 1]) ==
              if candidates[k] in filled then filledOrder else filledOrder + [candidates[k]]
    ensures forall b :: b in filled.Keys + {candidates[k]} <==> b in newPop || b in candidates[..k + 1]
  {
    assert candidates[..k + 1] == candidates[..k] + [candidates[k]];
    assert candidates[..k + 1][..k] == candidates[..k];
    if candidates[k] !in filled {
      assert newOrder + (Fresh(newPop.Keys, candidates[..k]) + [candidates[k]]) == filledOrder + [candidates[k]];
    }
  }

  /**
   * A pass over `a + c` adds what a pass over `a` adds, then what a pass over
   * `c` adds to the population grown by `a`.
   */
  lemma {:induction false} FreshAppend(seen: set<Bid>, grown: set<Bid>, a: seq<Bid>, c: seq<Bid>)
    requires forall b :: b in grown <==> b in seen || b in a
    ensures Fresh(seen, a + c) == Fresh(seen, a) + Fresh(grown, c)
    decreases |c|
  {
    if c == [] {
      assert a + c == a;
    } else {
      var c' := c[..|c| - 1];
      var x := c[|c| - 1];
      FreshAppend(seen, grown, a, c');
      assert (a + c)[..|a + c| - 1] == a + c';
      assert (a + c)[|a + c| - 1] == x;
    }
  }

  /**
   * Adds the candidates, in order, to the new population, skipping bids
   * already in it and stopping as soon as the counter reaches `PopSize`.
   * The candidates before `stop` are the ones visited.
   */
  method FillFrom(newPop: map<Bid, real>, newOrder: seq<Bid>, currentPop: nat, candidates: seq<Bid>, pop: map<Bid, real>)
    returns (filled: map<Bid, real>, filledOrder: seq<Bid>, count: nat, stop: nat)
    requires Listing(newOrder, newPop) && currentPop == |newPop| && currentPop < PopSize
    requires forall b :: b in newPop ==> newPop[b] == Inherited(pop, b)
    ensures stop <= |candidates|
    ensures Listing(filledOrder, filled) && count == |filled| && count <= PopSize
    ensures filledOrder == newOrder + Fresh(newPop.Keys, candidates[..stop])
    ensures forall b :: b in filled ==> filled[b] == Inherited(pop, b)
    ensures stop < |candidates| ==> count == PopSize
    ensures 0 < stop ==> currentPop + |Fresh(newPop.Keys, candidates[..stop - 1])| < PopSize
    ensures count != PopSize ==> forall c :: 0 <= c < |candidates| ==> candidates[c] in filled
  {
    filled, filledOrder, count, stop := newPop, newOrder, currentPop, 0;
    while stop < |candidates| && count != PopSize
      invariant Filling(newPop, newOrder, currentPop, candidates, pop, filled, filledOrder, count, stop)
    {
      filled, filledOrder, count, stop := Visit(newPop, newOrder, currentPop, candidates, pop, filled, filledOrder, count, stop);
    }
    FilledMembers(newPop, filled, candidates, stop);
  }

  /** The state of the refill loop after visiting `candidates[..stop]`. */
  ghost predicate Filling(newPop: map<Bid, real>, newOrder: seq<Bid>, currentPop: nat, candidates: seq<Bid>, pop: map<Bid, real>,
                          filled: map<Bid, real>, filledOrder: seq<Bid>, count: nat, stop: nat)
  {
    && stop <= |candidates|
    && Listing(filledOrder, filled) && count == |filled| && count <= PopSize
    && filledOrder == newOrder + Fresh(newPop.Keys, candidates[..stop])
    && count == currentPop + |Fresh(newPop.Keys, candidates[..stop])|
    && (forall b :: b in filled <==> b in newPop || b in candidates[..stop])
    && (forall b :: b in filled ==> filled[b] == Inherited(pop, b))
    && (0 < stop ==> currentPop + |Fresh(newPop.Keys, candidates[..stop - 1])| < PopSize)
  }

  /** One turn of the refill loop: visits `candidates[stop]`. */
  method Visit(newPop: map<Bid, real>, newOrder: seq<Bid>, currentPop: nat, candidates: seq<Bid>, pop: map<Bid, real>,
               filled: map<Bid, real>, filledOrder: seq<Bid>, count: nat, stop: nat)
    returns (filled': map<Bid, real>, filledOrder': seq<Bid>, count': nat, stop': nat)
    requires Filling(newPop, newOrder, currentPop, candidates, pop, filled, filledOrder, count, stop)
    requires stop < |candidates| && count != PopSize
    ensures stop' == stop + 1
    ensures Filling(newPop, newOrder, currentPop, candidates, pop, filled', filledOrder', count', stop')
  {
    FreshStep(newOrder, newPop, filledOrder, filled, candidates, stop);
    filled', filledOrder', count' := Admit(filled, filledOrder, count, candidates[stop], pop);
    stop' := stop + 1;
  }

  /** Visits one candidate: a bid not yet in the population joins it, last in the listing, with its inherited fitness. */
  method Admit(filled: map<Bid, real>, filledOrder: seq<Bid>, count: nat, bid: Bid, pop: map<Bid, real>)
    returns (next: map<Bid, real>, nextOrder: seq<Bid>, nextCount: nat)
    requires Listing(filledOrder, filled) && count == |filled|
    ensures Listing(nextOrder, next) && nextCount == |next|
    ensures nextOrder == if bid in filled then filledOrder else filledOrder + [bid]
    ensures nextCount == if bid in filled then count else count + 1
    ensures next.Keys == filled.Keys + {bid}
    ensures forall b :: b in next ==> next[b] == if b in filled then filled[b] else Inherited(pop, b)
  {
    next, nextOrder, nextCount := filled, filledOrder, count;
    if bid !in filled {
      ListingAdd(filledOrder, filled, bid, Inherited(pop, bid));
      nextOrder := filledOrder + [bid];
      next := filled[bid := Inherited(pop, bid)];
      nextCount := count + 1;
    }
  }

  /** Every visited candidate is a member of the filled population. */
  lemma FilledMembers(newPop: map<Bid, real>, filled: map<Bid, real>, candidates: seq<Bid>, stop: nat)
    requires stop <= |candidates|
    requires forall b :: b in filled <==> b in newPop || b in candidates[..stop]
    ensures forall c :: 0 <= c < stop ==> candidates[c] in filled
  {
    forall c | 0 <= c < stop
      ensures candidates[c] in filled
    {
      assert candidates[c] in candidates[..stop];
    }
  }

  /** The elites, in order, each with its fitness: the start of the new population. */
  method KeepElites(elites: seq<Bid>, pop: map<Bid, real>) returns (newPop: map<Bid, real>, newOrder: seq<Bid>)
    requires Distinct(elites) && forall e :: 0 <= e < |elites| ==> elites[e] in pop
    ensures Listing(newOrder, newPop) && newOrder == elites
    ensures forall b :: b in newPop ==> b in pop && newPop[b] == pop[b]
  {
    newPop, newOrder := map[], [];
    for e := 0 to |elites|
      invariant Listing(newOrder, newPop) && |newOrder| == e
      invariant forall k :: 0 <= k < e ==> newOrder[k] == elites[k]
      invariant forall b :: b in newPop ==> b in pop && newPop[b] == pop[b]
    {
      assert elites[e] !in newPop by {
        forall k | 0 <= k < e
          ensures newOrder[k] != elites[e]
        {
        }
      }
      ListingAdd(newOrder, newPop, elites[e], pop[elites[e]]);
      newOrder := newOrder + [elites[e]];
      newPop := newPop[elites[e] := pop[elites[e]]];
    }
  }

  /**
   * `newOrder` lists a population refilled after the elites: the elites
   * first, then bids of the three candidate lists only, no bid twice and no
   * more than `PopSize` bids. A list is drawn on only when every earlier list
   * is used up, and a population short of `PopSize` holds every candidate.
   */
  ghost predicate Refill(elites: seq<Bid>, mutationList: seq<Bid>, crossoverShuffled: seq<Bid>,
                         selectShuffled: seq<Bid>, newOrder: seq<Bid>)
  {
    && Distinct(newOrder)
    && |elites| <= |newOrder| && newOrder[..|elites|] == elites
    && |newOrder| <= PopSize
    && (forall b :: b in newOrder ==>
          b in elites || b in mutationList || b in crossoverShuffled || b in selectShuffled)
    && (|newOrder| != PopSize ==>
          && (forall b :: b in mutationList ==> b in newOrder)
          && (forall b :: b in crossoverShuffled ==> b in newOrder)
          && (forall b :: b in selectShuffled ==> b in newOrder))
    && ((exists b :: b in newOrder && b !in elites && b !in mutationList) ==>
          forall c :: c in mutationList ==> c in newOrder)
    && ((exists b :: b in newOrder && b !in elites && b !in mutationList && b !in crossoverShuffled) ==>
          forall c :: c in crossoverShuffled ==> c in newOrder)
    && (exists stop :: GreedyRefill(elites, mutationList + crossoverShuffled + selectShuffled, newOrder, stop))
  }

  /** The bids of a listing, as a set. */
  function Members(s: seq<Bid>): (r: set<Bid>)
    ensures forall b :: b in r <==> b in s
  {
    set b | b in s
  }

  /**
   * `newOrder` is the elites followed by one greedy pass over the candidate
   * list `all`: each visited candidate not yet present joins, in order, and
   * the pass visits `all[..stop]`, stopping early only once `PopSize` bids
   * are listed.
   */
  ghost predicate GreedyRefill(elites: seq<Bid>, all: seq<Bid>, newOrder: seq<Bid>, stop: nat)
  {
    && stop <= |all|
    && newOrder == elites + Fresh(Members(elites), all[..stop])
    && (stop < |all| ==> |newOrder| == PopSize)
    && (0 < stop ==> |elites| + |Fresh(Members(elites), all[..stop - 1])| < PopSize)
  }

  /** A pass over one more candidate list continues the greedy pass over the earlier lists. */
  lemma GreedyPass(elites: seq<Bid>, prev: seq<Bid>, done: nat, order: seq<Bid>, seen: set<Bid>,
                   candidates: seq<Bid>, stop: nat, all: seq<Bid>, reached: nat, next: seq<Bid>)
    requires GreedyRefill(elites, prev, order, done) && done == |prev|
    requires all == prev + candidates && reached == done + stop
    requires forall b :: b in seen <==> b in order
    requires stop <= |candidates|
    requires next == order + Fresh(seen, candidates[..stop])
    requires 0 < stop ==> |order| + |Fresh(seen, candidates[..stop - 1])| < PopSize
    requires stop < |candidates| ==> |next| == PopSize
    ensures GreedyRefill(elites, all, next, reached)
  {
    var e := Members(elites);
    assert prev[..done] == prev;
    assert order == elites + Fresh(e, prev);
    assert forall b :: b in seen <==> b in e || b in prev;
    FreshAppend(e, seen, prev, candidates[..stop]);
    assert all[..reached] == prev + candidates[..stop];
    AppendAssociative(elites, Fresh(e, prev), Fresh(seen, candidates[..stop]));
    assert next == elites + Fresh(e, all[..reached]);
    if 0 < stop {
      FreshAppend(e, seen, prev, candidates[..stop - 1]);
      assert all[..reached - 1] == prev + candidates[..stop - 1];
      assert |elites| + |Fresh(e, all[..reached - 1])| == |order| + |Fresh(seen, candidates[..stop - 1])|;
    } else if 0 < done {
      assert all[..reached - 1] == prev[..done - 1];
    }
  }

  /** A full population stays the greedy refill whatever candidates follow. */
  lemma GreedyFull(elites: seq<Bid>, all: seq<Bid>, newOrder: seq<Bid>, stop: nat, rest: seq<Bid>)
    requires GreedyRefill(elites, all, newOrder, stop) && |newOrder| == PopSize
    ensures GreedyRefill(elites, all + rest, newOrder, stop)
  {
    assert (all + rest)[..stop] == all[..stop];
    if 0 < stop {
      assert (all + rest)[..stop - 1] == all[..stop - 1];
    }
  }

  /**
   * The new population: the elites with their fitness, then new bids from the
   * mutated children, then (if still short) from the shuffled children of the
   * crossover, then from the shuffled mating pool, never repeating a bid and
   * never going past `PopSize`.
   */
  method Repopulate(elites: seq<Bid>, pop: map<Bid, real>, mutationList: seq<Bid>,
                    crossoverShuffled: seq<Bid>, selectShuffled: seq<Bid>)
    returns (newPop: map<Bid, real>, newOrder: seq<Bid>)
    requires Distinct(elites) && |elites| < PopSize
    requires forall e :: 0 <= e < |elites| ==> elites[e] in pop
    ensures Listing(newOrder, newPop)
    ensures Refill(elites, mutationList, crossoverShuffled, selectShuffled, newOrder)
    ensures forall e :: 0 <= e < |elites| ==> elites[e] in newPop && newPop[elites[e]] == pop[elites[e]]
    ensures forall b :: b in newPop && b !in elites ==> newPop[b] == Inherited(pop, b)
  {
    var elitePop, eliteOrder := KeepElites(elites, pop);
    var none: seq<Bid> := [];
    assert GreedyRefill(elites, none, eliteOrder, 0);
    var stop;
    newPop, newOrder, stop := RefillAll(elites, pop, elitePop, eliteOrder, mutationList, crossoverShuffled,
                                        selectShuffled);
    GreedyIsRefill(elites, mutationList, crossoverShuffled, selectShuffled, newOrder, stop);
    forall e | 0 <= e < |elites|
      ensures elites[e] in newPop && newPop[elites[e]] == pop[elites[e]]
    {
      assert newOrder[e] == elites[e];
    }
  }

  /**
   * The three refill passes after the elites: over the mutated children and,
   * while the population is short, over the shuffled children of the
   * crossover and the shuffled mating pool.
   */
  method RefillAll(elites: seq<Bid>, pop: map<Bid, real>, newPop: map<Bid, real>, newOrder: seq<Bid>,
                   mutationList: seq<Bid>, crossoverShuffled: seq<Bid>, selectShuffled: seq<Bid>)
    returns (filled: map<Bid, real>, filledOrder: seq<Bid>, stop: nat)
    requires Listing(newOrder, newPop) && |newPop| < PopSize
    requires forall b :: b in newPop ==> newPop[b] == Inherited(pop, b)
    requires GreedyRefill(elites, [], newOrder, 0)
    ensures Listing(filledOrder, filled)
    ensures forall b :: b in filled ==> filled[b] == Inherited(pop, b)
    ensures GreedyRefill(elites, mutationList + crossoverShuffled + selectShuffled, filledOrder, stop)
  {
    var none: seq<Bid> := [];
    assert mutationList == none + mutationList;
    var pop1, order1, count1, stop1 := RefillPass(elites, none, pop, newPop, newOrder, 0, mutationList,
                                                  mutationList);
    if count1 != PopSize {
      filled, filledOrder, stop := RefillTail(elites, pop, pop1, order1, mutationList, stop1, crossoverShuffled,
                                              selectShuffled);
    } else {
      filled, filledOrder, stop := pop1, order1, stop1;
      GreedyFull(elites, mutationList, order1, stop1, crossoverShuffled + selectShuffled);
      assert mutationList + (crossoverShuffled + selectShuffled) == mutationList + crossoverShuffled + selectShuffled;
    }
  }

  /**
   * The refill once the mutated children are used up and the population is
   * still short: a pass over the shuffled children of the crossover and, if
   * still short, one over the shuffled mating pool.
   */
  method RefillTail(elites: seq<Bid>, pop: map<Bid, real>, newPop: map<Bid, real>, newOrder: seq<Bid>,
                    mutationList: seq<Bid>, done: nat, crossoverShuffled: seq<Bid>, selectShuffled: seq<Bid>)
    returns (filled: map<Bid, real>, filledOrder: seq<Bid>, stop: nat)
    requires Listing(newOrder, newPop) && |newPop| < PopSize
    requires forall b :: b in newPop ==> newPop[b] == Inherited(pop, b)
    requires GreedyRefill(elites, mutationList, newOrder, done) && done == |mutationList|
    ensures Listing(filledOrder, filled)
    ensures forall b :: b in filled ==> filled[b] == Inherited(pop, b)
    ensures GreedyRefill(elites, mutationList + crossoverShuffled + selectShuffled, filledOrder, stop)
  {
    var pop2, order2, count2, stop2 := RefillPass(elites, mutationList, pop, newPop, newOrder, done, crossoverShuffled,
                                                  mutationList + crossoverShuffled);
    if count2 != PopSize {
      var count3;
      filled, filledOrder, count3, stop := RefillPass(elites, mutationList + crossoverShuffled, pop, pop2, order2,
                                                      stop2, selectShuffled,
                                                      mutationList + crossoverShuffled + selectShuffled);
    } else {
      filled, filledOrder, stop := pop2, order2, stop2;
      GreedyFull(elites, mutationList + crossoverShuffled, order2, stop2, selectShuffled);
    }
  }

  /**
   * One refill pass over `candidates`, after passes over the lists `prev`:
   * the greedy refill continues over `prev + candidates`, and a pass that
   * leaves the population short of `PopSize` has visited every candidate.
   */
  method RefillPass(elites: seq<Bid>, prev: seq<Bid>, pop: map<Bid, real>,
                    newPop: map<Bid, real>, newOrder: seq<Bid>, done: nat, candidates: seq<Bid>, all: seq<Bid>)
    returns (filled: map<Bid, real>, filledOrder: seq<Bid>, count: nat, reached: nat)
    requires Listing(newOrder, newPop) && |newPop| < PopSize
    requires forall b :: b in newPop ==> newPop[b] == Inherited(pop, b)
    requires GreedyRefill(elites, prev, newOrder, done) && done == |prev|
    requires all == prev + candidates
    ensures Listing(filledOrder, filled) && count == |filled| && count <= PopSize
    ensures forall b :: b in filled ==> filled[b] == Inherited(pop, b)
    ensures GreedyRefill(elites, all, filledOrder, reached)
    ensures count != PopSize ==> reached == |all|
  {
    var visited;
    filled, filledOrder, count, visited := FillFrom(newPop, newOrder, |newPop|, candidates, pop);
    reached := done + visited;
    GreedyPass(elites, prev, done, newOrder, newPop.Keys, candidates, visited, all, reached, filledOrder);
  }

  /** The facts of a greedy refill about its shape: no bid twice, the elites first, at most `PopSize` bids. */
  lemma GreedyShape(elites: seq<Bid>, all: seq<Bid>, newOrder: seq<Bid>, stop: nat)
    requires Distinct(elites) && |elites| < PopSize
    requires GreedyRefill(elites, all, newOrder, stop)
    ensures Distinct(newOrder)
    ensures |elites| <= |newOrder| <= PopSize && newOrder[..|elites|] == elites
  {
    var e := Members(elites);
    var added := Fresh(e, all[..stop]);
    forall i, j | 0 <= i < j < |newOrder|
      ensures newOrder[i] != newOrder[j]
    {
      if |elites| <= j {
        assert newOrder[j] == added[j - |elites|] && newOrder[j] !in e;
        if i < |elites| {
          assert newOrder[i] == elites[i] && newOrder[i] in e;
        } else {
          assert newOrder[i] == added[i - |elites|];
        }
      } else {
        assert newOrder[i] == elites[i] && newOrder[j] == elites[j];
      }
    }
    if 0 < stop {
      assert all[..stop][..stop - 1] == all[..stop - 1];
    }
  }

  /** A bid of a greedy refill that is not an elite is a visited candidate. */
  lemma GreedySource(elites: seq<Bid>, all: seq<Bid>, newOrder: seq<Bid>, stop: nat, b: Bid) returns (k: nat)
    requires GreedyRefill(elites, all, newOrder, stop)
    requires b in newOrder && b !in elites
    ensures k < stop && all[k] == b
  {
    var e := Members(elites);
    assert b in Fresh(e, all[..stop]);
    assert b in all[..stop];
    k :| 0 <= k < stop && all[..stop][k] == b;
  }

  /** Every visited candidate is in the greedy refill. */
  lemma GreedyVisited(elites: seq<Bid>, all: seq<Bid>, newOrder: seq<Bid>, stop: nat, k: nat)
    requires GreedyRefill(elites, all, newOrder, stop)
    requires k < stop
    ensures all[k] in newOrder
  {
    var e := Members(elites);
    assert all[k] == all[..stop][k];
    if all[k] in e {
      var i :| 0 <= i < |elites| && elites[i] == all[k];
      assert newOrder[i] == all[k];
    } else {
      assert all[k] in Fresh(e, all[..stop]);
    }
  }

  /**
   * The greedy refill over the mutated children, then the shuffled children,
   * then the shuffled tournament winners, is a refill by priority.
   */
  lemma GreedyIsRefill(elites: seq<Bid>, mutationList: seq<Bid>, crossoverShuffled: seq<Bid>,
                       selectShuffled: seq<Bid>, newOrder: seq<Bid>, stop: nat)
    requires Distinct(elites) && |elites| < PopSize
    requires GreedyRefill(elites, mutationList + crossoverShuffled + selectShuffled, newOrder, stop)
    ensures Refill(elites, mutationList, crossoverShuffled, selectShuffled, newOrder)
  {
    var all := mutationList + crossoverShuffled + selectShuffled;
    GreedyShape(elites, all, newOrder, stop);
    forall b | b in newOrder
      ensures b in elites || b in mutationList || b in crossoverShuffled || b in selectShuffled
    {
      if b !in elites {
        var k := GreedySource(elites, all, newOrder, stop, b);
        assert b in all;
      }
    }
    GreedyPriority(elites, mutationList, crossoverShuffled, selectShuffled, newOrder, stop);
    if |newOrder| != PopSize {
      GreedyComplete(elites, all, newOrder, stop);
    }
  }

  /**
   * The greedy refill draws on the shuffled children only once every mutated
   * child is in, and on the mating pool only once every shuffled child is in.
   */
  lemma GreedyPriority(elites: seq<Bid>, mutationList: seq<Bid>, crossoverShuffled: seq<Bid>,
                       selectShuffled: seq<Bid>, newOrder: seq<Bid>, stop: nat)
    requires GreedyRefill(elites, mutationList + crossoverShuffled + selectShuffled, newOrder, stop)
    ensures (exists b :: b in newOrder && b !in elites && b !in mutationList) ==>
              forall c :: c in mutationList ==> c in newOrder
    ensures (exists b :: b in newOrder && b !in elites && b !in mutationList && b !in crossoverShuffled) ==>
              forall c :: c in crossoverShuffled ==> c in newOrder
  {
    var m, c := |mutationList|, |crossoverShuffled|;
    var all := mutationList + crossoverShuffled + selectShuffled;
    if exists b :: b in newOrder && b !in elites && b !in mutationList {
      var b :| b in newOrder && b !in elites && b !in mutationList;
      var k := GreedySource(elites, all, newOrder, stop, b);
      assert all[0..m] == mutationList;
      assert m <= k;
      GreedyCovers(elites, all, newOrder, stop, mutationList, 0);
    }
    if exists b :: b in newOrder && b !in elites && b !in mutationList && b !in crossoverShuffled {
      var b :| b in newOrder && b !in elites && b !in mutationList && b !in crossoverShuffled;
      var k := GreedySource(elites, all, newOrder, stop, b);
      assert all[0..m] == mutationList && all[m..m + c] == crossoverShuffled;
      assert m + c <= k;
      GreedyCovers(elites, all, newOrder, stop, crossoverShuffled, m);
    }
  }

  /** A greedy refill that ends short of `PopSize` has visited, and so holds, every candidate. */
  lemma GreedyComplete(elites: seq<Bid>, all: seq<Bid>, newOrder: seq<Bid>, stop: nat)
    requires GreedyRefill(elites, all, newOrder, stop) && |newOrder| != PopSize
    ensures forall b :: b in all ==> b in newOrder
  {
    forall b | b in all
      ensures b in newOrder
    {
      var k :| 0 <= k < |all| && all[k] == b;
      GreedyVisited(elites, all, newOrder, stop, k);
    }
  }

  /** A candidate list visited in full by the greedy refill is all in it. */
  lemma GreedyCovers(elites: seq<Bid>, all: seq<Bid>, newOrder: seq<Bid>, stop: nat, part: seq<Bid>, at: nat)
    requires GreedyRefill(elites, all, newOrder, stop)
    requires at + |part| <= stop && all[at..at + |part|] == part
    ensures forall b :: b in part ==> b in newOrder
  {
    forall b | b in part
      ensures b in newOrder
    {
      var i :| 0 <= i < |part| && part[i] == b;
      assert all[at + i] == b;
      GreedyVisited(elites, all, newOrder, stop, at + i);
    }
  }

  /** A population of at most `PopSize` valid bids, listed by `order`. */
  ghost predicate Population(sizes: seq<nat>, order: seq<Bid>, pop: map<Bid, real>)
  {
    && Listing(order, pop) && |pop| <= PopSize
    && forall b :: b in pop ==> ValidBid(sizes, b)
  }

  ghost predicate AllValid(sizes: seq<nat>, bids: seq<Bid>)
  {
    forall j :: 0 <= j < |bids| ==> ValidBid(sizes, bids[j])
  }

  /** The three lists bred by one generation, before shuffling. */
  datatype Offspring = Offspring(selectBid: seq<Bid>, crossoverList: seq<Bid>, mutationList: seq<Bid>)

  /**
   * `o` is what the draws `d` breed from the population `pop` listed by
   * `order`: the tournament winners, the children of the crossover over the
   * listing, and those children mutated.
   */
  ghost predicate OffspringOf(order: seq<Bid>, pop: map<Bid, real>, d: Draws, o: Offspring)
  {
    var m := MatingPoolSize(|order|);
    && |o.selectBid| == m
    && Selected(order, pop, d.tournament, o.selectBid)
    && |o.crossoverList| == 2 * PairCount(m)
    && (forall p :: 0 <= p < PairCount(m) ==> Crossed(order, d.crossover, o.crossoverList, p))
    && |o.mutationList| == |o.crossoverList| == |d.mutation|
    && (forall c :: 0 <= c < |o.mutationList| ==> MutatedFrom(o.mutationList[c], o.crossoverList[c], d.mutation[c]))
  }

  /**
   * Selection, crossover and mutation of one generation, and the two
   * shuffles: the candidates of the new population besides its elites.
   */
  method Reproduce(order: seq<Bid>, pop: map<Bid, real>, sizes: seq<nat>, d: Draws)
    returns (o: Offspring, crossoverShuffled: seq<Bid>, selectShuffled: seq<Bid>)
    requires Population(sizes, order, pop)
    requires WellFormedDraws(d, |pop|, sizes)
    ensures OffspringOf(order, pop, d, o)
    ensures crossoverShuffled == Shuffle(o.crossoverList, d.crossoverShuffle)
    ensures selectShuffled == Shuffle(o.selectBid, d.selectionShuffle)
    ensures forall c :: 0 <= c < |o.mutationList| ==> ValidBid(sizes, o.mutationList[c])
    ensures forall c :: 0 <= c < |crossoverShuffled| ==> ValidBid(sizes, crossoverShuffled[c])
    ensures forall t :: 0 <= t < |selectShuffled| ==> selectShuffled[t] in pop
  {
    var n := |pop|;
    var selectBid := Tournament(order, pop, d.tournament);
    var crossoverList := Crossover(order, MatingPoolSize(n), sizes, d.crossover);
    var mutationList := Mutate(crossoverList, sizes, d.mutation);
    o := Offspring(selectBid, crossoverList, mutationList);
    crossoverShuffled := Shuffle(crossoverList, d.crossoverShuffle);
    selectShuffled := Shuffle(selectBid, d.selectionShuffle);
    forall c | 0 <= c < |crossoverShuffled|
      ensures ValidBid(sizes, crossoverShuffled[c])
    {
      assert crossoverShuffled[c] in crossoverList;
      var k :| 0 <= k < |crossoverList| && crossoverList[k] == crossoverShuffled[c];
    }
    forall t | 0 <= t < |selectShuffled|
      ensures selectShuffled[t] in pop
    {
      assert selectShuffled[t] in selectBid;
      var k :| 0 <= k < |selectBid| && selectBid[k] == selectShuffled[t];
    }
  }

  /**
   * One generation from the evaluated population `pop` listed in `order`:
   * the elites, then the offspring the draws breed, refilled into a
   * population of at most `PopSize` bids, each with its inherited fitness.
   */
  method NextGeneration(order: seq<Bid>, pop: map<Bid, real>, sizes: seq<nat>, d: Draws)
    returns (newPop: map<Bid, real>, newOrder: seq<Bid>, o: Offspring)
    requires Population(sizes, order, pop)
    requires WellFormedDraws(d, |pop|, sizes)
    ensures var bred := OffspringOf(order, pop, d, o); bred
    ensures Population(sizes, newOrder, newPop)
    ensures var refilled := Refill(TopK(order, pop, |pop| / 10), o.mutationList,
                                   Shuffle(o.crossoverList, d.crossoverShuffle), Shuffle(o.selectBid, d.selectionShuffle), newOrder);
            refilled
    ensures forall b :: b in newPop ==> newPop[b] == Inherited(pop, b)
  {
    var n := |pop|;
    var elites := TopK(order, pop, n / 10);
    var crossoverShuffled, selectShuffled;
    o, crossoverShuffled, selectShuffled := Reproduce(order, pop, sizes, d);
    newPop, newOrder := Repopulate(elites, pop, o.mutationList, crossoverShuffled, selectShuffled);
    forall b | b in newPop
      ensures ValidBid(sizes, b) && newPop[b] == Inherited(pop, b)
    {
      if b in elites {
        var k :| 0 <= k < |elites| && elites[k] == b;
      } else if b in o.mutationList {
      } else if b in crossoverShuffled {
      } else {
        assert b in selectShuffled;
      }
    }
  }

  // ---------------------------------------------------------------------------
  // The agent

  class GAagent {
    /** Number of values of each issue, in domain order. */
    const sizes: seq<nat>
    /** The agent's own utility of a bid. */
    const util: Bid -> real
    /** The bid of maximal own utility, and that utility. */
    const maxBid: Bid
    const bidMaxUtil: real
    /** The frequency model of the opponent, fed with every received offer. */
    const opponentModel: JohnnyOpponentModel
    /** The population with its fitness values, and its iteration order. */
    var popList: map<Bid, real>
    var popOrder: seq<Bid>
    /** Every bid the agent has offered. */
    var history: seq<Bid>
    var lastReceivedOffer: Option<Bid>

    ghost predicate Valid()
      reads this, opponentModel
    {
      && Population(sizes, popOrder, popList)
      && AllValid(sizes, history)
      && ValidBid(sizes, maxBid)
      && (lastReceivedOffer.Some? ==> ValidBid(sizes, lastReceivedOffer.value))
      && opponentModel.Valid() && opponentModel.sizes == sizes
    }

    /** Seeds the population from the user's bid ranking (worst to best); no offer received, nothing offered. */
    constructor (sizes: seq<nat>, util: Bid -> real, maxBid: Bid, bidOrder: seq<Bid>)
      requires ValidBid(sizes, maxBid)
      requires forall j :: 0 <= j < |bidOrder| ==> ValidBid(sizes, bidOrder[j])
      ensures Valid()
      ensures this.sizes == sizes && this.util == util && this.maxBid == maxBid && bidMaxUtil == util(maxBid)
      ensures forall b :: b in popList <==> b in bidOrder[SeedStart(|bidOrder|)..]
      ensures forall b :: b in popList ==> popList[b] == 0.0
      ensures history == [] && lastReceivedOffer == None
      ensures fresh(opponentModel) && opponentModel.bidCount == 0
      ensures forall i, v :: 0 <= i < |sizes| && 0 <= v < sizes[i] ==> opponentModel.freq[i][v] == 0
      ensures forall i :: 0 <= i < |sizes| ==> AllOne(sizes[i], opponentModel.ranks[i])
      ensures forall i :: 0 <= i < |sizes| ==> opponentModel.weight[i] == 1.0 / |sizes| as real
    {
      var pop, order := SeedPopulation(bidOrder);
      this.sizes := sizes;
      this.util := util;
      this.maxBid := maxBid;
      bidMaxUtil := util(maxBid);
      popList, popOrder := pop, order;
      history := [];
      lastReceivedOffer := None;
      opponentModel := new JohnnyOpponentModel(sizes);
    }

    /** An offer arrives: it becomes the last received offer and the opponent model counts it. */
    method ReceiveOffer(offer: Bid)
      requires Valid() && ValidBid(sizes, offer)
      modifies this`lastReceivedOffer, opponentModel
      ensures Valid()
      ensures lastReceivedOffer == Some(offer)
      ensures popList == old(popList) && popOrder == old(popOrder) && history == old(history)
      ensures opponentModel.bidCount == old(opponentModel.bidCount) + 1
      ensures forall i :: 0 <= i < |sizes| ==>
                opponentModel.freq[i] == old(opponentModel.freq[i])[offer[i] := old(opponentModel.freq[i][offer[i]]) + 1]
      ensures opponentModel.weight == old(opponentModel.weight)
    {
      lastReceivedOffer := Some(offer);
      opponentModel.UpdateOpponentPreference(offer);
    }

    /** Every member of the population gets its fitness. */
    method EvaluatePopulation(fitness: Bid -> real)
      requires Listing(popOrder, popList)
      modifies this`popList
      ensures popList == Evaluated(old(popList), fitness)
    {
      var pop := popList;
      for j := 0 to |popOrder|
        invariant pop.Keys == popList.Keys
        invariant forall k :: 0 <= k < j ==> pop[popOrder[k]] == fitness(popOrder[k])
      {
        pop := pop[popOrder[j] := fitness(popOrder[j])];
      }
      popList := pop;
    }

    /** Members whose fitness is 0 are evaluated; the others keep their fitness. */
    method RescoreZeros(fitness: Bid -> real)
      requires Listing(popOrder, popList)
      modifies this`popList
      ensures popList == Rescored(old(popList), fitness)
    {
      var pop := popList;
      for j := 0 to |popOrder|
        invariant pop.Keys == popList.Keys
        invariant forall k :: 0 <= k < j ==> pop[popOrder[k]] == Rescored(popList, fitness)[popOrder[k]]
        invariant forall k :: j <= k < |popOrder| ==> pop[popOrder[k]] == popList[popOrder[k]]
      {
        if pop[popOrder[j]] == 0.0 {
          pop := pop[popOrder[j] := fitness(popOrder[j])];
        }
      }
      popList := pop;
    }

    /**
     * The generation step of `chooseAction`: evaluate the population, breed
     * the next generation from it, and evaluate the members that joined with
     * fitness 0.
     */
    method Breed(fitness: Bid -> real, d: Draws) returns (ghost o: Offspring)
      requires Population(sizes, popOrder, popList) && WellFormedDraws(d, |popList|, sizes)
      modifies this`popList, this`popOrder
      ensures Population(sizes, popOrder, popList)
      ensures var bred := Bred(old(popOrder), old(popList), fitness, d, o, popOrder, popList); bred
    {
      EvaluatePopulation(fitness);
      PopulationSameKeys(sizes, popOrder, old(popList), popList);
      var newPop, newOrder, offspring := NextGeneration(popOrder, popList, sizes, d);
      o := offspring;
      popList, popOrder := newPop, newOrder;
      RescoreZeros(fitness);
      BreedOutcome(sizes, old(popOrder), old(popList), fitness, d, o, newOrder, newPop);
    }

    /** The immediate acceptance test: the offer is worth the best bid, or the agent has offered it itself. */
    predicate AcceptsOutright(last: Bid, offered: seq<Bid>)
    {
      util(last) >= bidMaxUtil || last in offered
    }

    /**
     * The agent's answer. Before any offer it opens with its best bid. An
     * offer worth its best bid, or one it has itself offered, is accepted.
     * Otherwise it breeds a new generation and answers with `Decide`.
     */
    method ChooseAction(fitness: Bid -> real, d: Draws) returns (outcome: Outcome, ghost o: Offspring)
      requires Valid() && WellFormedDraws(d, |popList|, sizes)
      modifies this
      ensures Valid()
      ensures lastReceivedOffer == old(lastReceivedOffer)
      ensures old(lastReceivedOffer).None? ==>
                outcome == Chosen(Offer(maxBid)) && history == old(history) + [maxBid]
                && popList == old(popList) && popOrder == old(popOrder)
      ensures old(lastReceivedOffer).Some? && AcceptsOutright(old(lastReceivedOffer).value, old(history)) ==>
                outcome == Chosen(Accept(old(lastReceivedOffer).value)) && history == old(history)
                && popList == old(popList) && popOrder == old(popOrder)
      ensures old(lastReceivedOffer).Some? && !AcceptsOutright(old(lastReceivedOffer).value, old(history)) ==>
                var bred := Bred(old(popOrder), old(popList), fitness, d, o, popOrder, popList);
                bred && Responded(old(lastReceivedOffer).value, old(history), d.pick, outcome)
    {
      o := Offspring([], [], []);
      if lastReceivedOffer.None? {
        history := history + [maxBid];
        outcome := Chosen(Offer(maxBid));
        return;
      }
      var last := lastReceivedOffer.value;
      if AcceptsOutright(last, history) {
        outcome := Chosen(Accept(last));
        return;
      }
      outcome, o := Respond(last, fitness, d);
    }

    /** The answer to an offer not accepted outright: breed a new generation, then `Decide`. */
    method Respond(last: Bid, fitness: Bid -> real, d: Draws) returns (outcome: Outcome, ghost o: Offspring)
      requires Valid() && WellFormedDraws(d, |popList|, sizes)
      modifies this`popList, this`popOrder, this`history
      ensures Valid() && lastReceivedOffer == old(lastReceivedOffer)
      ensures var bred := Bred(old(popOrder), old(popList), fitness, d, o, popOrder, popList); bred
      ensures Responded(last, old(history), d.pick, outcome)
    {
      o := Breed(fitness, d);
      outcome := Decide(last, d.pick);
    }

    /**
     * The answer to an offer `last` that is not accepted outright, once the
     * new generation is bred: the bid drawn from the three fittest members is
     * offered (and recorded) if it is worth at least `last`, else `last` is
     * accepted. A population of fewer than three bids has no such shortlist.
     */
    ghost predicate Responded(last: Bid, offered: seq<Bid>, pick: nat, outcome: Outcome)
      reads this
    {
      && Listing(popOrder, popList)
      && (|popList| < RandomBid ==> outcome == ShortlistTooSmall && history == offered)
      && (|popList| >= RandomBid && pick < RandomBid ==>
            var best := TopK(popOrder, popList, RandomBid)[pick];
            if util(best) >= util(last) then
              outcome == Chosen(Offer(best)) && history == offered + (if best in offered then [] else [best])
            else
              outcome == Chosen(Accept(last)) && history == offered)
    }

    method Decide(last: Bid, pick: nat) returns (outcome: Outcome)
      requires Valid() && pick < RandomBid
      modifies this`history
      ensures Valid()
      ensures Responded(last, old(history), pick, outcome)
    {
      if |popList| < RandomBid {
        return ShortlistTooSmall;
      }
      var bestBid := TopK(popOrder, popList, RandomBid)[pick];
      if util(bestBid) >= util(last) {
        if bestBid !in history {
          history := history + [bestBid];
        }
        return Chosen(Offer(bestBid));
      }
      return Chosen(Accept(last));
    }
  }

  /**
   * `bred`, listed by `bredOrder`, is the population the draws `d` breed
   * from `pop` (listed by `order`) once evaluated: `o` is what the draws
   * breed from the evaluated population, the new listing is its elites
   * refilled from the mutated children and the two shuffled lists, and every
   * member carries its fitness.
   */
  ghost predicate Bred(order: seq<Bid>, pop: map<Bid, real>, fitness: Bid -> real, d: Draws, o: Offspring,
                       bredOrder: seq<Bid>, bred: map<Bid, real>)
  {
    var evaluated := Evaluated(pop, fitness);
    && Listing(order, pop)
    && OffspringOf(order, evaluated, d, o)
    && IsPermutation(d.crossoverShuffle, |o.crossoverList|) && IsPermutation(d.selectionShuffle, |o.selectBid|)
    && Listing(bredOrder, bred)
    && Refill(TopK(order, evaluated, |pop| / 10), o.mutationList,
              Shuffle(o.crossoverList, d.crossoverShuffle), Shuffle(o.selectBid, d.selectionShuffle), bredOrder)
    && (forall b :: b in bred ==> bred[b] == fitness(b))
  }

  /** The population with every member of fitness 0 evaluated. */
  function Rescored(pop: map<Bid, real>, fitness: Bid -> real): (r: map<Bid, real>)
    ensures r.Keys == pop.Keys
  {
    map b | b in pop :: if pop[b] == 0.0 then fitness(b) else pop[b]
  }

  /**
   * Rescoring completes the evaluation of a population whose members have
   * their fitness or 0.
   */
  lemma RescoredEvaluates(pop: map<Bid, real>, fitness: Bid -> real)
    requires forall b :: b in pop ==> pop[b] == 0.0 || pop[b] == fitness(b)
    ensures Rescored(pop, fitness) == Evaluated(pop, fitness)
  {
  }

  /**
   * A next generation built from the evaluated population, whose members
   * that joined with fitness 0 are then evaluated, is a bred generation.
   */
  lemma BreedOutcome(sizes: seq<nat>, order: seq<Bid>, pop: map<Bid, real>, fitness: Bid -> real,
                     d: Draws, o: Offspring, newOrder: seq<Bid>, newPop: map<Bid, real>)
    requires Population(sizes, order, pop) && Population(sizes, newOrder, newPop)
    requires WellFormedDraws(d, |pop|, sizes)
    requires OffspringOf(order, Evaluated(pop, fitness), d, o)
    requires Refill(TopK(order, Evaluated(pop, fitness), |pop| / 10), o.mutationList,
                    Shuffle(o.crossoverList, d.crossoverShuffle), Shuffle(o.selectBid, d.selectionShuffle), newOrder)
    requires forall b :: b in newPop ==> newPop[b] == Inherited(Evaluated(pop, fitness), b)
    ensures Population(sizes, newOrder, Rescored(newPop, fitness))
    ensures Bred(order, pop, fitness, d, o, newOrder, Rescored(newPop, fitness))
  {
    RescoredEvaluates(newPop, fitness);
    PopulationSameKeys(sizes, newOrder, newPop, Rescored(newPop, fitness));
    var evaluated := Evaluated(pop, fitness);
    assert |evaluated| == |evaluated.Keys| == |pop.Keys| == |pop|;
  }

  lemma PopulationSameKeys(sizes: seq<nat>, order: seq<Bid>, pop: map<Bid, real>, pop2: map<Bid, real>)
    requires Population(sizes, order, pop) && pop2.Keys == pop.Keys
    ensures Population(sizes, order, pop2)
  {
    assert |pop2| == |pop2.Keys| == |pop.Keys| == |pop|;
  }

  /** The population after evaluation: same bids, each with its fitness. */
  function Evaluated(pop: map<Bid, real>, fitness: Bid -> real): (r: map<Bid, real>)
    ensures r.Keys == pop.Keys
    ensures forall b :: b in r ==> r[b] == fitness(b)
  {
    map b | b in pop :: fitness(b)
  }
}
