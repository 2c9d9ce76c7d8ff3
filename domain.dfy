/**
 * The negotiation domain as the three components see it: a fixed, ordered
 * list of discrete issues, each with an ordered list of values, and bids
 * that pick one value per issue. A bid is written as the sequence of the
 * chosen values' positions in their issues' value lists.
 */
module Domain {

  /** A bid: entry `i` is the position of the chosen value in issue `i`'s value list. */
  type Bid = seq<nat>

  /** A discrete issue: its issue number and the names of its values, in domain order. */
  datatype Issue = Issue(number: nat, values: seq<string>)

  datatype Option<T> = None | Some(value: T)

  /** `b` assigns exactly one value of the right issue to every issue. */
  predicate ValidBid(sizes: seq<nat>, b: Bid)
  {
    |b| == |sizes| && forall i :: 0 <= i < |b| ==> b[i] < sizes[i]
  }

  /** No element occurs twice. */
  predicate Distinct<T(==)>(s: seq<T>)
  {
    forall j, k :: 0 <= j < k < |s| ==> s[j] != s[k]
  }

  /** Number of values of every issue, in domain order. */
  function Sizes(issues: seq<Issue>): (r: seq<nat>)
    ensures |r| == |issues|
    ensures forall i :: 0 <= i < |issues| ==> r[i] == |issues[i].values|
  {
    seq(|issues|, i requires 0 <= i < |issues| => |issues[i].values|)
  }

  /** The positions 0 .. n-1, in order. */
  function Iota(n: nat): (r: seq<nat>)
    ensures |r| == n
    ensures forall i :: 0 <= i < n ==> r[i] == i
  {
    if n == 0 then [] else Iota(n - 1) + [n - 1]
  }

  /**
   * `perm` lists each of the positions 0 .. n-1 exactly once: n entries,
   * all below n, and every position among them (so none twice).
   */
  predicate IsPermutation(perm: seq<nat>, n: nat)
  {
    && |perm| == n
    && (forall k :: 0 <= k < |perm| ==> perm[k] < n)
    && (forall v :: 0 <= v < n ==> v in perm)
  }

  lemma {:induction false} IotaMultiplicity(n: nat, v: nat)
    ensures multiset(Iota(n))[v] == if v < n then 1 else 0
  {
    if n > 0 {
      var prev, last: seq<nat> := Iota(n - 1), [n - 1];
      IotaMultiplicity(n - 1, v);
      assert multiset(Iota(n)) == multiset(prev) + multiset(last);
      assert multiset(last)[v] == if v == n - 1 then 1 else 0;
    }
  }

  /** Removing the element at position `i` removes one copy of it from the multiset. */
  lemma MultisetRemove<T>(b: seq<T>, i: nat)
    requires i < |b|
    ensures multiset(b[..i] + b[i + 1..]) == multiset(b) - multiset([b[i]])
  {
    assert b == b[..i] + [b[i]] + b[i + 1..];
    assert multiset(b) == multiset(b[..i]) + multiset([b[i]]) + multiset(b[i + 1..]);
  }

  /** A value found at two positions occurs at least twice. */
  lemma TwoPositions<T>(s: seq<T>, p: nat, q: nat)
    requires p < q < |s| && s[p] == s[q]
    ensures multiset(s)[s[p]] >= 2
  {
    assert s == s[..q] + s[q..];
    assert s[..q][p] == s[p];
    assert s[q..][0] == s[p];
    assert multiset(s)[s[p]] == multiset(s[..q])[s[p]] + multiset(s[q..])[s[p]];
  }

  /** A value that occurs once in `s` occurs at one position only. */
  lemma OnceAtOnePosition<T>(s: seq<T>, p: nat, q: nat)
    requires p < |s| && q < |s| && s[p] == s[q]
    requires multiset(s)[s[p]] == 1
    ensures p == q
  {
    if p < q {
      TwoPositions(s, p, q);
      assert false;
    } else if q < p {
      TwoPositions(s, q, p);
      assert false;
    }
  }

  /** A sequence with the multiset of 0 .. n-1 holds every position below `n` exactly once. */
  lemma PermutationHolds(order: seq<nat>, n: nat, v: nat) returns (p: nat)
    requires multiset(order) == multiset(Iota(n))
    requires v < n
    ensures p < |order| && order[p] == v
    ensures forall q :: 0 <= q < |order| && order[q] == v ==> q == p
  {
    IotaMultiplicity(n, v);
    assert v in multiset(order);
    p :| 0 <= p < |order| && order[p] == v;
    forall q | 0 <= q < |order| && order[q] == v
      ensures q == p
    {
      OnceAtOnePosition(order, p, q);
    }
  }

  /** Every entry of a sequence with the multiset of 0 .. n-1 is below `n`. */
  lemma PermutationBounded(order: seq<nat>, n: nat)
    requires multiset(order) == multiset(Iota(n))
    ensures |order| == n
    ensures forall j :: 0 <= j < |order| ==> order[j] < n
  {
    assert |multiset(order)| == |multiset(Iota(n))|;
    forall j | 0 <= j < |order|
      ensures order[j] < n
    {
      assert order[j] in multiset(order);
      IotaMultiplicity(n, order[j]);
    }
  }

  /** Sum of a sequence of counters. */
  function Sum(s: seq<nat>): nat
  {
    if s == [] then 0 else Sum(s[..|s| - 1]) + s[|s| - 1]
  }

  /** Adding one to one counter adds one to the sum. */
  lemma {:induction false} SumIncrement(s: seq<nat>, v: nat)
    requires v < |s|
    ensures Sum(s[v := s[v] + 1]) == Sum(s) + 1
  {
    var t := s[v := s[v] + 1];
    assert t[..|t| - 1] == if v == |s| - 1 then s[..|s| - 1] else s[..|s| - 1][v := s[v] + 1];
    if v < |s| - 1 {
      SumIncrement(s[..|s| - 1], v);
    }
  }

  /** A sum of counters is zero exactly when every counter is zero. */
  lemma {:induction false} SumZero(s: seq<nat>)
    ensures Sum(s) == 0 <==> forall j :: 0 <= j < |s| ==> s[j] == 0
  {
    if s != [] {
      SumZero(s[..|s| - 1]);
      assert forall j :: 0 <= j < |s| - 1 ==> s[..|s| - 1][j] == s[j];
    }
  }

  /** Decimal digits of a natural number, most significant first (Java's string form of an int). */
  function NatToString(n: nat): (r: string)
    ensures |r| >= 1 && (|r| == 1 <==> n < 10)
    ensures forall j :: 0 <= j < |r| ==> '0' <= r[j] <= '9'
    decreases n
  {
    if n < 10 then [Digit(n)] else NatToString(n / 10) + [Digit(n % 10)]
  }

  function Digit(d: nat): (c: char)
    requires d < 10
    ensures '0' <= c <= '9'
  {
    ['0', '1', '2', '3', '4', '5', '6', '7', '8', '9'][d]
  }

  /** Different numbers have different decimal strings. */
  lemma {:induction false} NatToStringInjective(a: nat, b: nat)
    requires NatToString(a) == NatToString(b)
    ensures a == b
    decreases a
  {
    var s := NatToString(a);
    assert s[|s| - 1] == Digit(a % 10) && s[|s| - 1] == Digit(b % 10);
    assert a % 10 == b % 10;
    if a >= 10 && b >= 10 {
      assert NatToString(a / 10) == s[..|s| - 1] == NatToString(b / 10);
      NatToStringInjective(a / 10, b / 10);
    } else if a >= 10 || b >= 10 {
      assert false;
    }
  }

  /** Concatenation of sequences is associative. */
  lemma AppendAssociative<T>(a: seq<T>, b: seq<T>, c: seq<T>)
    ensures (a + b) + c == a + (b + c)
  {
  }
}
