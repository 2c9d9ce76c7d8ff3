/**
 * The preference estimator of code/LinearProgrammingUtilitySpaceEstimator.java:
 * it turns the user's ranked bids into a linear program over one variable per
 * (issue, value) and one slack variable per comparison, and turns the solver's
 * answer back into value utilities.
 *
 * Variable layout: the `x` variable of value `v` of issue `i` sits at
 * `XIndex(sizes, i, v)` (the values of earlier issues first, then `v`); the
 * slack of comparison `k` sits at `variableXSize + k`. The estimator finds a
 * variable by looking its name `"w" + number + "x" + value` up in
 * `variableName`; `IndexOfXName` proves that this lookup lands on the layout
 * position.
 */
module LinearProgramming {
  import opened Domain

  // ---------------------------------------------------------------------------
  // The linear program handed to the solver

  /**
   * A row of the program. Its name is `"c"` followed by its `number`
   * (`ConstraintName`); the number is kept so that rows compare without
   * going through their decimal names.
   */
  datatype Constraint =
    | AtLeast(coefficients: seq<real>, bound: real, number: nat)   // coefficients . vars >= bound
    | EqualTo(coefficients: seq<real>, value: real, number: nat)   // coefficients . vars == value

  datatype LinearProgram = LinearProgram(objective: seq<real>, constraints: seq<Constraint>, minProblem: bool)

  /**
   * The user's ranking as the estimator reads it: its pairwise comparisons
   * (in each pair the first bid is ranked below the second) and its maximal bid.
   */
  datatype BidRanking = BidRanking(comparisons: seq<(Bid, Bid)>, maximal: Bid)

  /** Every bid of the ranking picks a value of every issue. */
  predicate RankingFits(sizes: seq<nat>, r: BidRanking)
  {
    && ValidBid(sizes, r.maximal)
    && forall k :: 0 <= k < |r.comparisons| ==>
         ValidBid(sizes, r.comparisons[k].0) && ValidBid(sizes, r.comparisons[k].1)
  }

  // ---------------------------------------------------------------------------
  // Variable names and the lookup by name

  /** Name of the variable of value `value` of the issue numbered `number`. */
  function XName(number: nat, value: string): string
  {
    "w" + NatToString(number) + "x" + value
  }

  function ConstraintName(c: nat): string
  {
    "c" + NatToString(c)
  }

  function ZName(z: nat): string
  {
    "z" + NatToString(z)
  }

  /** The slack names "z1" .. "zm", in order. */
  function ZNames(m: nat): (r: seq<string>)
    ensures |r| == m
    ensures forall k :: 0 <= k < m ==> r[k] == ZName(k + 1)
  {
    if m == 0 then [] else ZNames(m - 1) + [ZName(m)]
  }

  /** The variable names of one issue's values, in value order. */
  function ValueNames(issue: Issue): (r: seq<string>)
    ensures |r| == |issue.values|
  {
    seq(|issue.values|, v requires 0 <= v < |issue.values| => XName(issue.number, issue.values[v]))
  }

  /** The variable names of all values of all issues, issue by issue. */
  function XNames(issues: seq<Issue>): seq<string>
  {
    if issues == [] then []
    else XNames(issues[..|issues| - 1]) + ValueNames(issues[|issues| - 1])
  }

  /** Java's List.indexOf: the first position holding `x`, or -1. */
  function IndexOf(s: seq<string>, x: string): (r: int)
    ensures r == -1 <==> x !in s
    ensures r >= 0 ==> r < |s| && s[r] == x && forall q :: 0 <= q < r ==> s[q] != x
  {
    if s == [] then -1
    else if s[0] == x then 0
    else
      var k := IndexOf(s[1..], x);
      assert forall q :: 1 <= q < |s| ==> s[q] == s[1..][q - 1];
      if k < 0 then -1 else k + 1
  }

  /** Issue numbers are distinct, and so are the values of each issue. */
  ghost predicate WellNamed(issues: seq<Issue>)
  {
    && (forall i, j :: 0 <= i < j < |issues| ==> issues[i].number != issues[j].number)
    && (forall i :: 0 <= i < |issues| ==> Distinct(issues[i].values))
  }

  /** In "w" + digits + "x" + value, the first 'x' follows the digits. */
  lemma FirstXAfterDigits(digits: string, value: string)
    requires forall j :: 0 <= j < |digits| ==> '0' <= digits[j] <= '9'
    ensures var s := ['w'] + digits + ['x'] + value;
      s[1 + |digits|] == 'x' && forall q :: 0 <= q < 1 + |digits| ==> s[q] != 'x'
  {
    var s := ['w'] + digits + ['x'] + value;
    assert forall q :: 1 <= q < 1 + |digits| ==> s[q] == digits[q - 1];
  }

  /** The digits of the issue number end at the first 'x', so a name determines its issue number and value. */
  lemma XNameInjective(a: nat, v: string, b: nat, u: string)
    requires XName(a, v) == XName(b, u)
    ensures a == b && v == u
  {
    var sa, sb := NatToString(a), NatToString(b);
    var s := XName(a, v);
    FirstXAfterDigits(sa, v);
    FirstXAfterDigits(sb, u);
    assert s == ['w'] + sa + ['x'] + v;
    assert s == ['w'] + sb + ['x'] + u;
    assert |sa| == |sb|;
    assert sa == s[1..1 + |sa|] == sb;
    NatToStringInjective(a, b);
    assert v == s[2 + |sa|..] == u;
  }

  // ---------------------------------------------------------------------------
  // Variable layout

  /** Position of the `x` variable of value `v` of issue `i`. */
  function XIndex(sizes: seq<nat>, i: nat, v: nat): (x: nat)
    requires i < |sizes|
    ensures v < sizes[i] ==> x < Sum(sizes)
  {
    OffsetMonotone(sizes, i, |sizes|);
    assert sizes[..|sizes|] == sizes;
    Sum(sizes[..i]) + v
  }

  lemma OffsetStep(sizes: seq<nat>, i: nat)
    requires i < |sizes|
    ensures Sum(sizes[..i + 1]) == Sum(sizes[..i]) + sizes[i]
  {
    assert sizes[..i + 1][..i] == sizes[..i];
  }

  /** The variables of issue `i` come before those of every later issue. */
  lemma {:induction false} OffsetMonotone(sizes: seq<nat>, i: nat, j: nat)
    requires i < j <= |sizes|
    ensures Sum(sizes[..i]) + sizes[i] <= Sum(sizes[..j])
  {
    OffsetStep(sizes, j - 1);
    if i < j - 1 {
      OffsetMonotone(sizes, i, j - 1);
    }
  }

  /** Every (issue, value) pair has its own `x` variable, below `variableXSize`. */
  lemma XIndexLayout(sizes: seq<nat>, i: nat, v: nat, i2: nat, v2: nat)
    requires i < |sizes| && v < sizes[i] && i2 < |sizes| && v2 < sizes[i2]
    ensures XIndex(sizes, i, v) < Sum(sizes)
    ensures XIndex(sizes, i, v) == XIndex(sizes, i2, v2) <==> i == i2 && v == v2
  {
    OffsetMonotone(sizes, i, |sizes|);
    assert sizes[..|sizes|] == sizes;
    if i < i2 {
      OffsetMonotone(sizes, i, i2);
    } else if i2 < i {
      OffsetMonotone(sizes, i2, i);
    }
  }

  lemma SizesPrefix(issues: seq<Issue>, k: nat)
    requires k <= |issues|
    ensures Sizes(issues[..k]) == Sizes(issues)[..k]
  {
  }

  lemma {:induction false} XNamesLength(issues: seq<Issue>)
    ensures |XNames(issues)| == Sum(Sizes(issues))
  {
    if issues != [] {
      var last := |issues| - 1;
      XNamesLength(issues[..last]);
      SizesPrefix(issues, last);
      OffsetStep(Sizes(issues), last);
      assert Sizes(issues)[..last + 1] == Sizes(issues);
    }
  }

  /** A name listed for some issues carries the number of one of them. */
  lemma {:induction false} NameHasIssueNumber(issues: seq<Issue>, number: nat, value: string)
    requires XName(number, value) in XNames(issues)
    ensures exists j :: 0 <= j < |issues| && issues[j].number == number
  {
    var last := |issues| - 1;
    var prefix := issues[..last];
    if XName(number, value) in XNames(prefix) {
      NameHasIssueNumber(prefix, number, value);
      var j :| 0 <= j < |prefix| && prefix[j].number == number;
      assert issues[j].number == number;
    } else {
      var names := ValueNames(issues[last]);
      assert XName(number, value) in names;
      var v :| 0 <= v < |names| && names[v] == XName(number, value);
      XNameInjective(issues[last].number, issues[last].values[v], number, value);
    }
  }

  lemma IndexOfAppend(a: seq<string>, b: seq<string>, x: string)
    ensures x in a ==> IndexOf(a + b, x) == IndexOf(a, x)
    ensures x !in a && x in b ==> IndexOf(a + b, x) == |a| + IndexOf(b, x)
  {
    var s := a + b;
    if x in a {
      var r := IndexOf(a, x);
      assert s[r] == x;
      assert forall q :: 0 <= q < r ==> s[q] == a[q];
    } else if x in b {
      var r := IndexOf(b, x);
      assert s[|a| + r] == x;
      assert forall q :: 0 <= q < |a| ==> s[q] == a[q];
      assert forall q :: |a| <= q < |a| + r ==> s[q] == b[q - |a|];
    }
  }

  /** Looking a value's variable name up finds that value's position in the layout. */
  lemma {:induction false} IndexOfXName(issues: seq<Issue>, i: nat, v: nat)
    requires WellNamed(issues)
    requires i < |issues| && v < |issues[i].values|
    ensures IndexOf(XNames(issues), XName(issues[i].number, issues[i].values[v])) == XIndex(Sizes(issues), i, v)
  {
    var last := |issues| - 1;
    var prefix := issues[..last];
    var name := XName(issues[i].number, issues[i].values[v]);
    var names := ValueNames(issues[last]);
    assert XNames(issues) == XNames(prefix) + names;
    SizesPrefix(issues, last);
    assert WellNamed(prefix);
    if i < last {
      IndexOfXName(prefix, i, v);
      assert prefix[i] == issues[i];
      assert Sizes(prefix)[..i] == Sizes(issues)[..i];
      IndexOfAppend(XNames(prefix), names, name);
    } else {
      if name in XNames(prefix) {
        NameHasIssueNumber(prefix, issues[i].number, issues[i].values[v]);
        assert false;
      }
      assert names[v] == name;
      forall q | 0 <= q < v
        ensures names[q] != name
      {
        if names[q] == name {
          XNameInjective(issues[i].number, issues[i].values[q], issues[i].number, issues[i].values[v]);
        }
      }
      IndexOfAppend(XNames(prefix), names, name);
      XNamesLength(prefix);
      assert Sizes(issues)[..i] == Sizes(prefix);
    }
  }

  /** Names appended after the value names do not change where a value's name is found. */
  lemma IndexOfXNameExtended(issues: seq<Issue>, extra: seq<string>, i: nat, v: nat)
    requires WellNamed(issues)
    requires i < |issues| && v < |issues[i].values|
    ensures IndexOf(XNames(issues) + extra, XName(issues[i].number, issues[i].values[v])) == XIndex(Sizes(issues), i, v)
  {
    IndexOfXName(issues, i, v);
    IndexOfAppend(XNames(issues), extra, XName(issues[i].number, issues[i].values[v]));
  }

  // ---------------------------------------------------------------------------
  // The rows of the program

  function Zeros(n: nat): (r: seq<real>)
    ensures |r| == n && forall j :: 0 <= j < n ==> r[j] == 0.0
  {
    seq(n, j => 0.0)
  }

  /** Coefficient 1 on variable `j`, 0 elsewhere. */
  function Unit(n: nat, j: nat): (r: seq<real>)
    requires j < n
    ensures |r| == n && r[j] == 1.0 && forall t :: 0 <= t < n && t != j ==> r[t] == 0.0
  {
    Zeros(n)[j := 1.0]
  }

  /** Minimise the sum of the `m` slacks: 0 on every `x`, 1 on every slack. */
  function Objective(xSize: nat, m: nat): (r: seq<real>)
    ensures |r| == xSize + m
    ensures forall j :: 0 <= j < xSize + m ==> r[j] == if j < xSize then 0.0 else 1.0
  {
    seq(xSize + m, j => if j < xSize then 0.0 else 1.0)
  }

  /**
   * The comparison row after visiting the first `m` issues: per issue, minus
   * one on the lower bid's value and plus one on the higher bid's value.
   */
  function AddIssues(row: seq<real>, sizes: seq<nat>, b1: Bid, b2: Bid, m: nat): (r: seq<real>)
    requires Sum(sizes) <= |row| && ValidBid(sizes, b1) && ValidBid(sizes, b2) && m <= |sizes|
    ensures |r| == |row|
  {
    if m == 0 then row
    else
      var prev := AddIssues(row, sizes, b1, b2, m - 1);
      XIndexLayout(sizes, m - 1, b1[m - 1], m - 1, b1[m - 1]);
      XIndexLayout(sizes, m - 1, b2[m - 1], m - 1, b2[m - 1]);
      Moved(prev, XIndex(sizes, m - 1, b1[m - 1]), XIndex(sizes, m - 1, b2[m - 1]))
  }

  /** The row with 1 taken off entry `down` and then 1 added to entry `up`. */
  function Moved(row: seq<real>, down: nat, up: nat): (r: seq<real>)
    requires down < |row| && up < |row|
    ensures |r| == |row|
  {
    var lowered := row[down := row[down] + -1.0];
    lowered[up := lowered[up] + 1.0]
  }

  lemma AddIssuesStep(row: seq<real>, sizes: seq<nat>, b1: Bid, b2: Bid, m: nat)
    requires Sum(sizes) <= |row| && ValidBid(sizes, b1) && ValidBid(sizes, b2) && m < |sizes|
    ensures XIndex(sizes, m, b1[m]) < |row| && XIndex(sizes, m, b2[m]) < |row|
    ensures AddIssues(row, sizes, b1, b2, m + 1) ==
      Moved(AddIssues(row, sizes, b1, b2, m), XIndex(sizes, m, b1[m]), XIndex(sizes, m, b2[m]))
  {
    XIndexLayout(sizes, m, b1[m], m, b1[m]);
    XIndexLayout(sizes, m, b2[m], m, b2[m]);
  }

  /** Net coefficient of value `v` in a comparison where the lower bid picks `a` and the higher bid picks `b`. */
  function Delta(a: nat, b: nat, v: nat): real
  {
    (if b == v then 1.0 else 0.0) - (if a == v then 1.0 else 0.0)
  }

  /** The first `m` issues leave every variable from `Sum(sizes[..m])` on untouched. */
  lemma {:induction false} AddIssuesOutside(row: seq<real>, sizes: seq<nat>, b1: Bid, b2: Bid, m: nat, j: nat)
    requires Sum(sizes) <= |row| && ValidBid(sizes, b1) && ValidBid(sizes, b2) && m <= |sizes|
    requires Sum(sizes[..m]) <= j < |row|
    ensures AddIssues(row, sizes, b1, b2, m)[j] == row[j]
  {
    if m > 0 {
      OffsetStep(sizes, m - 1);
      AddIssuesOutside(row, sizes, b1, b2, m - 1, j);
    }
  }

  /**
   * After the first `m` issues, the variable of value `v` of an issue `i < m`
   * has moved by its net coefficient.
   */
  lemma {:induction false} AddIssuesValue(row: seq<real>, sizes: seq<nat>, b1: Bid, b2: Bid, m: nat, i: nat, v: nat)
    requires Sum(sizes) <= |row| && ValidBid(sizes, b1) && ValidBid(sizes, b2) && m <= |sizes|
    requires i < m && v < sizes[i]
    ensures XIndex(sizes, i, v) < |row|
    ensures AddIssues(row, sizes, b1, b2, m)[XIndex(sizes, i, v)] == row[XIndex(sizes, i, v)] + Delta(b1[i], b2[i], v)
  {
    var x := XIndex(sizes, i, v);
    XIndexLayout(sizes, i, v, m - 1, b1[m - 1]);
    XIndexLayout(sizes, i, v, m - 1, b2[m - 1]);
    if i == m - 1 {
      AddIssuesOutside(row, sizes, b1, b2, m - 1, x);
    } else {
      AddIssuesValue(row, sizes, b1, b2, m - 1, i, v);
    }
  }

  /** The row that pins the best bid's utility: 1 on each of its values' variables. */
  function BestRow(row: seq<real>, sizes: seq<nat>, best: Bid, m: nat): (r: seq<real>)
    requires Sum(sizes) <= |row| && ValidBid(sizes, best) && m <= |sizes|
    ensures |r| == |row|
  {
    if m == 0 then row
    else
      XIndexLayout(sizes, m - 1, best[m - 1], m - 1, best[m - 1]);
      BestRow(row, sizes, best, m - 1)[XIndex(sizes, m - 1, best[m - 1]) := 1.0]
  }

  /** The first `m` issues leave every variable from `Sum(sizes[..m])` on untouched. */
  lemma {:induction false} BestRowOutside(row: seq<real>, sizes: seq<nat>, best: Bid, m: nat, j: nat)
    requires Sum(sizes) <= |row| && ValidBid(sizes, best) && m <= |sizes|
    requires Sum(sizes[..m]) <= j < |row|
    ensures BestRow(row, sizes, best, m)[j] == row[j]
  {
    if m > 0 {
      OffsetStep(sizes, m - 1);
      BestRowOutside(row, sizes, best, m - 1, j);
    }
  }

  /**
   * After the first `m` issues, the variable of value `v` of an issue `i < m`
   * is 1 if the best bid picks `v` and untouched otherwise.
   */
  lemma {:induction false} BestRowValue(row: seq<real>, sizes: seq<nat>, best: Bid, m: nat, i: nat, v: nat)
    requires Sum(sizes) <= |row| && ValidBid(sizes, best) && m <= |sizes|
    requires i < m && v < sizes[i]
    ensures XIndex(sizes, i, v) < |row|
    ensures BestRow(row, sizes, best, m)[XIndex(sizes, i, v)] == if v == best[i] then 1.0 else row[XIndex(sizes, i, v)]
  {
    var x := XIndex(sizes, i, v);
    XIndexLayout(sizes, i, v, m - 1, best[m - 1]);
    if i == m - 1 {
      BestRowOutside(row, sizes, best, m - 1, x);
    } else {
      BestRowValue(row, sizes, best, m - 1, i, v);
    }
  }

  /**
   * The comparison row of `c = (b1, b2)` with slack variable `z`: the slack
   * plus the values of `b2` minus the values of `b1`.
   */
  function CompareRow(sizes: seq<nat>, n: nat, z: nat, lower: Bid, higher: Bid): (row: seq<real>)
    requires Sum(sizes) <= z < n && ValidBid(sizes, lower) && ValidBid(sizes, higher)
    ensures |row| == n
  {
    AddIssues(Unit(n, z), sizes, lower, higher, |sizes|)
  }

  /**
   * The rows `x_t >= 0` of the first `j` of the `xSize` value variables, over
   * `xSize + m` variables, named from `c0` on.
   */
  function XRows(xSize: nat, m: nat, c0: nat, j: nat): (rows: seq<Constraint>)
    requires j <= xSize
    ensures |rows| == j
  {
    if j == 0 then [] else XRows(xSize, m, c0, j - 1) + [AtLeast(Unit(xSize + m, j - 1), 0.0, c0 + j - 1)]
  }

  /** One more value variable appends its row. */
  lemma XRowsStep(xSize: nat, m: nat, c0: nat, j: nat)
    requires j < xSize
    ensures XRows(xSize, m, c0, j + 1) == XRows(xSize, m, c0, j) + [AtLeast(Unit(xSize + m, j), 0.0, c0 + j)]
  {
  }

  /** Row `t` of the x rows says `x_t >= 0`. */
  lemma {:induction false} XRowsAt(xSize: nat, m: nat, c0: nat, j: nat, t: nat)
    requires t < j <= xSize
    ensures XRows(xSize, m, c0, j)[t] == AtLeast(Unit(xSize + m, t), 0.0, c0 + t)
  {
    if t < j - 1 {
      XRowsAt(xSize, m, c0, j - 1, t);
    }
  }

  /**
   * The two rows of comparison `k` of a program whose rows are named from
   * `c0` on: its slack is non-negative, and so is its comparison row.
   */
  function PairRows(sizes: seq<nat>, r: BidRanking, c0: nat, k: nat): (rows: seq<Constraint>)
    requires RankingFits(sizes, r) && k < |r.comparisons|
    ensures |rows| == 2
  {
    var xSize, n := Sum(sizes), Sum(sizes) + |r.comparisons|;
    [AtLeast(Unit(n, xSize + k), 0.0, c0 + xSize + 2 * k),
     AtLeast(CompareRow(sizes, n, xSize + k, r.comparisons[k].0, r.comparisons[k].1), 0.0, c0 + xSize + 2 * k + 1)]
  }

  /** The rows of the first `k` comparisons, two per comparison. */
  function ComparisonRows(sizes: seq<nat>, r: BidRanking, c0: nat, k: nat): (rows: seq<Constraint>)
    requires RankingFits(sizes, r) && k <= |r.comparisons|
    ensures |rows| == 2 * k
  {
    if k == 0 then [] else ComparisonRows(sizes, r, c0, k - 1) + PairRows(sizes, r, c0, k - 1)
  }

  /** One more comparison appends its two rows. */
  lemma ComparisonRowsStep(sizes: seq<nat>, r: BidRanking, c0: nat, k: nat)
    requires RankingFits(sizes, r) && k < |r.comparisons|
    ensures ComparisonRows(sizes, r, c0, k + 1) == ComparisonRows(sizes, r, c0, k) + PairRows(sizes, r, c0, k)
  {
  }

  /** The row saying that the values of the maximal bid sum to exactly 1; it comes last. */
  function BestEquality(sizes: seq<nat>, r: BidRanking, c0: nat): Constraint
    requires RankingFits(sizes, r)
  {
    var xSize, m := Sum(sizes), |r.comparisons|;
    EqualTo(BestRow(Zeros(xSize + m), sizes, r.maximal, |sizes|), 1.0, c0 + xSize + 2 * m)
  }

  /**
   * The program of a ranking, its rows named from `c0` on: minimise the
   * slacks subject to the x rows, the comparison rows and the best-bid row.
   */
  function Formulation(sizes: seq<nat>, r: BidRanking, c0: nat): LinearProgram
    requires RankingFits(sizes, r)
  {
    LinearProgram(
      Objective(Sum(sizes), |r.comparisons|),
      XRows(Sum(sizes), |r.comparisons|, c0, Sum(sizes)) + ComparisonRows(sizes, r, c0, |r.comparisons|) + [BestEquality(sizes, r, c0)],
      true)
  }

  /** Comparison `i` owns rows `2i` and `2i + 1` of the comparison rows. */
  lemma {:induction false} ComparisonRowsAt(sizes: seq<nat>, r: BidRanking, c0: nat, k: nat, i: nat)
    requires RankingFits(sizes, r) && i < k <= |r.comparisons|
    ensures var rows, pair := ComparisonRows(sizes, r, c0, k), PairRows(sizes, r, c0, i);
      rows[2 * i] == pair[0] && rows[2 * i + 1] == pair[1]
  {
    if i < k - 1 {
      ComparisonRowsAt(sizes, r, c0, k - 1, i);
    }
  }

  /**
   * On the slack variables, the comparison row of bids `b1` below `b2` with
   * slack variable `z` is 1 on `z` and 0 on every other slack.
   */
  lemma ComparisonRowSlack(sizes: seq<nat>, n: nat, z: nat, b1: Bid, b2: Bid, j: nat)
    requires Sum(sizes) <= z < n && ValidBid(sizes, b1) && ValidBid(sizes, b2)
    requires Sum(sizes) <= j < n
    ensures CompareRow(sizes, n, z, b1, b2)[j] == if j == z then 1.0 else 0.0
  {
    assert sizes[..|sizes|] == sizes;
    AddIssuesOutside(Unit(n, z), sizes, b1, b2, |sizes|, j);
  }

  /**
   * On the variable of value `v` of issue `i`, the comparison row of bids
   * `b1` below `b2` holds +1 if only `b2` picks `v`, -1 if only `b1` does,
   * and 0 otherwise.
   */
  lemma ComparisonRowValues(sizes: seq<nat>, n: nat, z: nat, b1: Bid, b2: Bid, i: nat, v: nat)
    requires Sum(sizes) <= z < n && ValidBid(sizes, b1) && ValidBid(sizes, b2)
    requires i < |sizes| && v < sizes[i]
    ensures CompareRow(sizes, n, z, b1, b2)[XIndex(sizes, i, v)] == Delta(b1[i], b2[i], v)
  {
    AddIssuesValue(Unit(n, z), sizes, b1, b2, |sizes|, i, v);
  }

  /**
   * The program of a ranking is a minimisation of the slacks over one variable
   * per value and one per comparison, with `variableXSize + 2 * comparisons + 1`
   * rows, the last one an equality to 1.
   */
  lemma FormulationShape(sizes: seq<nat>, r: BidRanking, c0: nat)
    requires RankingFits(sizes, r)
    ensures var lp, xSize, m := Formulation(sizes, r, c0), Sum(sizes), |r.comparisons|;
      && lp.minProblem
      && |lp.objective| == xSize + m
      && (forall j :: 0 <= j < xSize ==> lp.objective[j] == 0.0)
      && (forall j :: xSize <= j < xSize + m ==> lp.objective[j] == 1.0)
      && |lp.constraints| == xSize + 2 * m + 1
      && lp.constraints[xSize + 2 * m] ==
           EqualTo(BestRow(Zeros(xSize + m), sizes, r.maximal, |sizes|), 1.0, c0 + xSize + 2 * m)
  {
  }

  /** The first `variableXSize` rows say `x_j >= 0`. */
  lemma FormulationXRows(sizes: seq<nat>, r: BidRanking, c0: nat, j: nat)
    requires RankingFits(sizes, r) && j < Sum(sizes)
    ensures var lp, n := Formulation(sizes, r, c0), Sum(sizes) + |r.comparisons|;
      |lp.constraints| > j && lp.constraints[j] == AtLeast(Unit(n, j), 0.0, c0 + j)
  {
    var xs := XRows(Sum(sizes), |r.comparisons|, c0, Sum(sizes));
    XRowsAt(Sum(sizes), |r.comparisons|, c0, Sum(sizes), j);
    assert Formulation(sizes, r, c0).constraints == xs + (ComparisonRows(sizes, r, c0, |r.comparisons|) + [BestEquality(sizes, r, c0)]);
  }

  /** After the x rows come the comparison rows. */
  lemma FormulationComparisonAt(sizes: seq<nat>, r: BidRanking, c0: nat, i: nat)
    requires RankingFits(sizes, r) && i < 2 * |r.comparisons|
    ensures Formulation(sizes, r, c0).constraints[Sum(sizes) + i] == ComparisonRows(sizes, r, c0, |r.comparisons|)[i]
  {
  }

  /** The two rows of a comparison, one by one. */
  lemma PairRowsContents(sizes: seq<nat>, r: BidRanking, c0: nat, k: nat)
    requires RankingFits(sizes, r) && k < |r.comparisons|
    ensures var xSize, n := Sum(sizes), Sum(sizes) + |r.comparisons|;
      && PairRows(sizes, r, c0, k)[0] == AtLeast(Unit(n, xSize + k), 0.0, c0 + xSize + 2 * k)
      && PairRows(sizes, r, c0, k)[1] == AtLeast(CompareRow(sizes, n, xSize + k, r.comparisons[k].0, r.comparisons[k].1), 0.0, c0 + xSize + 2 * k + 1)
  {
  }

  /**
   * Comparison `k` owns rows `variableXSize + 2k` (its slack is non-negative)
   * and `variableXSize + 2k + 1` (its comparison row is non-negative).
   */
  lemma FormulationComparisonRows(sizes: seq<nat>, r: BidRanking, c0: nat, k: nat)
    requires RankingFits(sizes, r) && k < |r.comparisons|
    ensures var f, xSize, n := Formulation(sizes, r, c0).constraints, Sum(sizes), Sum(sizes) + |r.comparisons|;
      && |f| > xSize + 2 * k + 1
      && f[xSize + 2 * k] == AtLeast(Unit(n, xSize + k), 0.0, c0 + xSize + 2 * k)
      && f[xSize + 2 * k + 1] ==
           AtLeast(CompareRow(sizes, n, xSize + k, r.comparisons[k].0, r.comparisons[k].1), 0.0, c0 + xSize + 2 * k + 1)
  {
    FormulationComparisonAt(sizes, r, c0, 2 * k);
    FormulationComparisonAt(sizes, r, c0, 2 * k + 1);
    ComparisonRowsAt(sizes, r, c0, |r.comparisons|, k);
    PairRowsContents(sizes, r, c0, k);
  }

  /** The best-bid row has 1 on each of the maximal bid's value variables and 0 on every other variable. */
  lemma BestRowContents(sizes: seq<nat>, n: nat, best: Bid)
    requires Sum(sizes) <= n && ValidBid(sizes, best)
    ensures var row := BestRow(Zeros(n), sizes, best, |sizes|);
      && (forall i :: 0 <= i < |sizes| ==> row[XIndex(sizes, i, best[i])] == 1.0)
      && (forall i, v :: 0 <= i < |sizes| && 0 <= v < sizes[i] && v != best[i] ==> row[XIndex(sizes, i, v)] == 0.0)
      && (forall j :: Sum(sizes) <= j < n ==> row[j] == 0.0)
  {
    var row := BestRow(Zeros(n), sizes, best, |sizes|);
    forall i, v | 0 <= i < |sizes| && 0 <= v < sizes[i]
      ensures row[XIndex(sizes, i, v)] == if v == best[i] then 1.0 else 0.0
    {
      BestRowValue(Zeros(n), sizes, best, |sizes|, i, v);
    }
    forall i | 0 <= i < |sizes|
      ensures row[XIndex(sizes, i, best[i])] == 1.0
    {
      BestRowValue(Zeros(n), sizes, best, |sizes|, i, best[i]);
    }
    assert sizes[..|sizes|] == sizes;
    forall j | Sum(sizes) <= j < n
      ensures row[j] == 0.0
    {
      BestRowOutside(Zeros(n), sizes, best, |sizes|, j);
    }
  }

  // ---------------------------------------------------------------------------
  // Repair of negative solution entries

  /** The running minimum of the first `n` entries, starting from 0. */
  function NegNum(s: seq<real>, n: nat): (neg: real)
    requires n <= |s|
    ensures neg <= 0.0
    ensures forall j :: 0 <= j < n ==> neg <= s[j]
    ensures neg < 0.0 ==> exists j :: 0 <= j < n && s[j] == neg
  {
    if n == 0 then 0.0
    else
      var prev := NegNum(s, n - 1);
      if prev > s[n - 1] then s[n - 1] else prev
  }

  /**
   * The solution with its first `xSize` entries raised by the magnitude of the
   * most negative of them, if any is negative: the `x` entries become
   * non-negative, the lowest becomes 0, and their differences are kept.
   */
  function Shift(s: seq<real>, xSize: nat): (r: seq<real>)
    requires xSize <= |s|
    ensures |r| == |s|
    ensures forall j :: 0 <= j < xSize ==> r[j] >= 0.0
    ensures forall j, k :: 0 <= j < xSize && 0 <= k < xSize ==> r[j] - r[k] == s[j] - s[k]
    ensures forall j :: xSize <= j < |s| ==> r[j] == s[j]
    ensures (forall j :: 0 <= j < xSize ==> s[j] >= 0.0) ==> r == s
    ensures (exists j :: 0 <= j < xSize && s[j] < 0.0) ==> exists j :: 0 <= j < xSize && r[j] == 0.0
  {
    var negNum := NegNum(s, xSize);
    if negNum < 0.0 then seq(|s|, j requires 0 <= j < |s| => if j < xSize then s[j] + -negNum else s[j])
    else s
  }

  lemma ShiftAt(s: seq<real>, xSize: nat, j: nat)
    requires xSize <= |s| && j < |s|
    ensures Shift(s, xSize)[j] == if NegNum(s, xSize) < 0.0 && j < xSize then s[j] + -NegNum(s, xSize) else s[j]
  {
  }

  // ---------------------------------------------------------------------------
  // The estimator

  /** Every issue has its value utilities read off the solution, at its layout position. */
  ghost predicate Assigned(sizes: seq<nat>, evaluation: seq<seq<real>>, solution: seq<real>)
  {
    && |evaluation| == |sizes|
    && (forall i :: 0 <= i < |sizes| ==> |evaluation[i]| == sizes[i])
    && Sum(sizes) <= |solution|
    && forall i, v :: 0 <= i < |sizes| && 0 <= v < sizes[i] ==> evaluation[i][v] == solution[XIndex(sizes, i, v)]
  }

  class LinearProgrammingUtilitySpaceEstimator {
    /** The domain's issues, in domain order. */
    const issues: seq<Issue>
    /** The issue weights of the estimated utility space. */
    var weights: seq<real>
    /** evaluation[i][v]: the estimated utility of value v of issue i. */
    var evaluation: seq<seq<real>>
    /** The names of the LP variables: the value variables, then any slack names added. */
    var variableName: seq<string>
    var variableXSize: nat
    /** Number of the next constraint name. */
    var constraintNum: nat

    ghost function sizes(): seq<nat>
    {
      Sizes(issues)
    }

    ghost predicate Valid()
      reads this
    {
      && WellNamed(issues)
      && variableXSize == Sum(Sizes(issues))
      && |variableName| >= variableXSize
      && variableName[..variableXSize] == XNames(issues)
      && |weights| == |issues|
      && |evaluation| == |issues|
      && (forall i :: 0 <= i < |issues| ==> |evaluation[i]| == |issues[i].values|)
    }

    /** One variable per (issue, value); weights 1/k; every value evaluated at 0. */
    constructor (issues: seq<Issue>)
      requires WellNamed(issues)
      ensures Valid() && this.issues == issues && constraintNum == 1
      ensures variableName == XNames(issues) && variableXSize == Sum(Sizes(issues))
      ensures forall i :: 0 <= i < |issues| ==> weights[i] == 1.0 / |issues| as real
      ensures forall i, v :: 0 <= i < |issues| && 0 <= v < |issues[i].values| ==> evaluation[i][v] == 0.0
    {
      this.issues := issues;
      constraintNum := 1;
      var noIssues := |issues|;
      var names: seq<string> := [];
      var xSize := 0;
      var ws: seq<real> := [];
      var evals: seq<seq<real>> := [];
      for k := 0 to noIssues
        invariant names == XNames(issues[..k]) && xSize == |names|
        invariant |ws| == k && forall i :: 0 <= i < k ==> ws[i] == 1.0 / noIssues as real
        invariant |evals| == k
        invariant forall i :: 0 <= i < k ==> |evals[i]| == |issues[i].values|
        invariant forall i, v :: 0 <= i < k && 0 <= v < |issues[i].values| ==> evals[i][v] == 0.0
      {
        var issue := issues[k];
        ws := ws + [1.0 / noIssues as real];
        var evaluator: seq<real> := [];
        ghost var before := names;
        for v := 0 to |issue.values|
          invariant |evaluator| == v && forall w :: 0 <= w < v ==> evaluator[w] == 0.0
          invariant names == before + ValueNames(issue)[..v] && xSize == |names|
        {
          evaluator := evaluator + [0.0];
          names := names + [XName(issue.number, issue.values[v])];
          xSize := xSize + 1;
        }
        assert ValueNames(issue)[..|issue.values|] == ValueNames(issue);
        assert issues[..k + 1][..k] == issues[..k];
        evals := evals + [evaluator];
      }
      assert issues[..noIssues] == issues;
      XNamesLength(issues);
      variableName := names;
      variableXSize := xSize;
      weights := ws;
      evaluation := evals;
      new;
      assert variableName[..variableXSize] == variableName;
    }

    /** A copy of an array (Java's clone). */
    static method Clone(a: array<real>) returns (c: array<real>)
      ensures fresh(c) && c[..] == a[..]
    {
      c := new real[a.Length];
      forall t | 0 <= t < a.Length {
        c[t] := a[t];
      }
    }

    /** Position of the variable of value `v` of issue `i`, found by its name. */
    method VariableOf(i: nat, v: nat) returns (index: int)
      requires Valid() && i < |issues| && v < |issues[i].values|
      ensures index == XIndex(Sizes(issues), i, v) && index < variableXSize
    {
      index := IndexOf(variableName, XName(issues[i].number, issues[i].values[v]));
      assert variableName == XNames(issues) + variableName[variableXSize..];
      IndexOfXNameExtended(issues, variableName[variableXSize..], i, v);
      XIndexLayout(Sizes(issues), i, v, i, v);
    }

    /**
     * Builds the linear program of the ranking (everything getLinearSolution
     * does before it calls the solver): objective, the x rows, per comparison
     * a slack row and a comparison row, and the best-bid row; one slack name
     * per comparison is added to the variable names.
     */
    method GetLinearSolution(r: BidRanking) returns (lp: LinearProgram)
      requires Valid() && RankingFits(Sizes(issues), r)
      modifies this`variableName, this`constraintNum
      ensures Valid()
      ensures lp == Formulation(Sizes(issues), r, old(constraintNum))
      ensures constraintNum == old(constraintNum) + variableXSize + 2 * |r.comparisons| + 1
      ensures variableName == old(variableName) + ZNames(|r.comparisons|)
      ensures variableXSize == old(variableXSize) && weights == old(weights) && evaluation == old(evaluation)
    {
      ghost var c0 := constraintNum;
      var m := |r.comparisons|;
      var variableValue := ZeroVector(variableXSize + m);
      var zValue := ObjectiveVector(variableValue, variableXSize);
      var xRows := AddXRows(variableValue, m);
      var comparisonRows := AddComparisonRows(r, variableValue, c0);
      var bestRow := BestConstraint(variableValue, r, constraintNum, c0);
      constraintNum := constraintNum + 1;
      lp := LinearProgram(zValue[..], xRows + comparisonRows + [bestRow], true);
    }

    /** A fresh row of `n` zero coefficients. */
    static method ZeroVector(n: nat) returns (variableValue: array<real>)
      ensures fresh(variableValue) && variableValue[..] == Zeros(n)
    {
      variableValue := new real[n];
      for index := 0 to n
        modifies variableValue
        invariant forall t :: 0 <= t < index ==> variableValue[t] == 0.0
      {
        variableValue[index] := 0.0;
      }
    }

    /** The objective row: a copy of the zero row with 1 on every slack variable. */
    static method ObjectiveVector(zero: array<real>, xSize: nat) returns (zValue: array<real>)
      requires xSize <= zero.Length && zero[..] == Zeros(zero.Length)
      ensures fresh(zValue) && zValue[..] == Objective(xSize, zero.Length - xSize)
    {
      zValue := Clone(zero);
      for index := xSize to zValue.Length
        modifies zValue
        invariant forall t :: 0 <= t < xSize ==> zValue[t] == 0.0
        invariant forall t :: xSize <= t < index ==> zValue[t] == 1.0
      {
        zValue[index] := 1.0;
      }
    }

    /** Appends the rows `x_j >= 0`, one per value variable, numbering them on from `constraintNum`. */
    method AddXRows(zero: array<real>, m: nat) returns (rows: seq<Constraint>)
      requires Valid() && zero.Length == variableXSize + m && zero[..] == Zeros(zero.Length)
      modifies this`constraintNum
      ensures Valid()
      ensures rows == XRows(variableXSize, m, old(constraintNum), variableXSize)
      ensures constraintNum == old(constraintNum) + variableXSize
      ensures variableName == old(variableName) && variableXSize == old(variableXSize)
      ensures weights == old(weights) && evaluation == old(evaluation)
    {
      ghost var c0 := constraintNum;
      rows := [];
      for index := 0 to variableXSize
        invariant Valid() && variableName == old(variableName) && variableXSize == old(variableXSize)
        invariant weights == old(weights) && evaluation == old(evaluation)
        invariant rows == XRows(variableXSize, m, c0, index)
        invariant constraintNum == c0 + index
      {
        var createConstraints := Clone(zero);
        createConstraints[index] := 1.0;
        assert createConstraints[..] == Unit(zero.Length, index);
        XRowsStep(variableXSize, m, c0, index);
        rows := rows + [AtLeast(createConstraints[..], 0.0, constraintNum)];
        constraintNum := constraintNum + 1;
      }
    }

    /**
     * Appends the two rows of every comparison, numbering them on from
     * `constraintNum`, and names one slack variable per comparison.
     */
    method AddComparisonRows(r: BidRanking, zero: array<real>, ghost c0: nat) returns (rows: seq<Constraint>)
      requires Valid() && RankingFits(Sizes(issues), r)
      requires zero.Length == variableXSize + |r.comparisons| && zero[..] == Zeros(zero.Length)
      requires constraintNum == c0 + variableXSize
      modifies this`variableName, this`constraintNum
      ensures Valid()
      ensures rows == ComparisonRows(Sizes(issues), r, c0, |r.comparisons|)
      ensures constraintNum == old(constraintNum) + 2 * |r.comparisons|
      ensures variableName == old(variableName) + ZNames(|r.comparisons|) && variableXSize == old(variableXSize)
      ensures weights == old(weights) && evaluation == old(evaluation)
    {
      ghost var sizes := Sizes(issues);
      rows := [];
      var zNum := 1;
      var index := variableXSize;
      for k := 0 to |r.comparisons|
        invariant index == variableXSize + k && zNum == k + 1
        invariant Valid()
        invariant variableName == old(variableName) + ZNames(k)
        invariant variableXSize == old(variableXSize) && weights == old(weights) && evaluation == old(evaluation)
        invariant rows == ComparisonRows(sizes, r, c0, k)
        invariant constraintNum == c0 + variableXSize + 2 * k
      {
        rows := AddComparisonPair(rows, r, zero, k, index, zNum, c0, old(variableName));
        index := index + 1;
        zNum := zNum + 1;
      }
    }

    /**
     * One round of the comparison loop: appends the two rows of comparison
     * `k` and names its slack variable `zNum`.
     */
    method AddComparisonPair(rows0: seq<Constraint>, r: BidRanking, zero: array<real>, k: nat, index: nat, zNum: nat,
                             ghost c0: nat, ghost names0: seq<string>)
      returns (rows: seq<Constraint>)
      requires Valid() && RankingFits(Sizes(issues), r) && k < |r.comparisons|
      requires zero.Length == variableXSize + |r.comparisons| && zero[..] == Zeros(zero.Length)
      requires index == variableXSize + k && zNum == k + 1
      requires rows0 == ComparisonRows(Sizes(issues), r, c0, k)
      requires constraintNum == c0 + variableXSize + 2 * k
      requires variableName == names0 + ZNames(k)
      modifies this`variableName, this`constraintNum
      ensures Valid()
      ensures rows == ComparisonRows(Sizes(issues), r, c0, k + 1)
      ensures constraintNum == old(constraintNum) + 2
      ensures variableName == names0 + ZNames(k + 1)
      ensures variableXSize == old(variableXSize) && weights == old(weights) && evaluation == old(evaluation)
    {
      var slackRow, compareRow := ComparisonConstraints(zero, r, k, index, constraintNum, c0);
      constraintNum := constraintNum + 2;
      ComparisonRowsStep(Sizes(issues), r, c0, k);
      rows := rows0 + [slackRow, compareRow];
      NameSlack(zNum, names0);
    }

    /**
     * Adds the name of slack variable `zNum` after the names of the slacks
     * before it, which follow the names `names0`.
     */
    method NameSlack(zNum: nat, ghost names0: seq<string>)
      requires Valid() && zNum >= 1 && variableName == names0 + ZNames(zNum - 1)
      modifies this`variableName
      ensures Valid() && variableName == names0 + ZNames(zNum)
      ensures variableXSize == old(variableXSize) && constraintNum == old(constraintNum)
      ensures weights == old(weights) && evaluation == old(evaluation)
    {
      variableName := variableName + [ZName(zNum)];
      assert variableName[..variableXSize] == old(variableName)[..variableXSize];
      assert ZNames(zNum) == ZNames(zNum - 1) + [ZName(zNum)];
      AppendAssociative(names0, ZNames(zNum - 1), [ZName(zNum)]);
    }

    /**
     * The two rows of comparison `k` (`bid1` ranked below `bid2`) of a program
     * whose rows are named from `c0` on: its slack variable `z` is
     * non-negative, and so is `z + bid2 - bid1`; they are named `num` and
     * `num + 1`.
     */
    method ComparisonConstraints(zero: array<real>, r: BidRanking, k: nat, z: nat, num: nat, ghost c0: nat)
      returns (slackRow: Constraint, compareRow: Constraint)
      requires Valid() && RankingFits(Sizes(issues), r) && k < |r.comparisons|
      requires zero.Length == variableXSize + |r.comparisons| && zero[..] == Zeros(zero.Length)
      requires z == variableXSize + k && num == c0 + variableXSize + 2 * k
      ensures [slackRow, compareRow] == PairRows(Sizes(issues), r, c0, k)
    {
      var (bid1, bid2) := r.comparisons[k];
      var createConstraints := Clone(zero);
      createConstraints[z] := 1.0;
      ghost var slack := createConstraints[..];
      assert slack == Unit(zero.Length, z);
      slackRow := AtLeast(createConstraints[..], 0.0, num);
      AddComparison(createConstraints, bid1, bid2);
      assert |issues| == |Sizes(issues)|;
      compareRow := AtLeast(createConstraints[..], 0.0, num + 1);
    }

    /**
     * The row of the maximal bid, the last of a program whose rows are named
     * from `c0` on: its values sum to exactly 1.
     */
    method BestConstraint(zero: array<real>, r: BidRanking, num: nat, ghost c0: nat) returns (bestRow: Constraint)
      requires Valid() && RankingFits(Sizes(issues), r)
      requires zero.Length == variableXSize + |r.comparisons| && zero[..] == Zeros(zero.Length)
      requires num == c0 + variableXSize + 2 * |r.comparisons|
      ensures bestRow == BestEquality(Sizes(issues), r, c0)
    {
      var bestBid := r.maximal;
      var createBestConstraints := Clone(zero);
      AddBest(createBestConstraints, bestBid);
      assert |issues| == |Sizes(issues)|;
      bestRow := EqualTo(createBestConstraints[..], 1.0, num);
    }

    /** Adds -1 at the variable of each value of `b1` and +1 at the variable of each value of `b2`. */
    method AddComparison(row: array<real>, b1: Bid, b2: Bid)
      requires Valid() && variableXSize <= row.Length
      requires ValidBid(Sizes(issues), b1) && ValidBid(Sizes(issues), b2)
      modifies row
      ensures row[..] == AddIssues(old(row[..]), Sizes(issues), b1, b2, |issues|)
    {
      ghost var start := row[..];
      ghost var sizes := Sizes(issues);
      for i := 0 to |issues|
        invariant row[..] == AddIssues(start, sizes, b1, b2, i)
      {
        var indexValueBid1 := VariableOf(i, b1[i]);
        var indexValueBid2 := VariableOf(i, b2[i]);
        AddIssuesStep(start, sizes, b1, b2, i);
        Move(row, indexValueBid1, indexValueBid2);
      }
    }

    /** Lowers the coefficient of the lower bid's value and raises that of the higher bid's value. */
    static method Move(row: array<real>, indexValueBid1: nat, indexValueBid2: nat)
      requires indexValueBid1 < row.Length && indexValueBid2 < row.Length
      modifies row
      ensures row[..] == Moved(old(row[..]), indexValueBid1, indexValueBid2)
    {
      row[indexValueBid1] := row[indexValueBid1] + -1.0;
      row[indexValueBid2] := row[indexValueBid2] + 1.0;
    }

    /** Sets 1 at the variable of each value of the maximal bid. */
    method AddBest(row: array<real>, best: Bid)
      requires Valid() && variableXSize <= row.Length && ValidBid(Sizes(issues), best)
      modifies row
      ensures row[..] == BestRow(old(row[..]), Sizes(issues), best, |issues|)
    {
      ghost var start := row[..];
      for i := 0 to |issues|
        invariant row[..] == BestRow(start, Sizes(issues), best, i)
      {
        var indexValueBid := VariableOf(i, best[i]);
        row[indexValueBid] := 1.0;
      }
    }

    /** Raises the `x` entries of the solution by the magnitude of the most negative one, if any is negative. */
    method ShiftNegatives(solution: array<real>)
      requires variableXSize <= solution.Length
      modifies solution
      ensures solution[..] == Shift(old(solution[..]), variableXSize)
    {
      ghost var s := solution[..];
      var negNum := 0.0;
      for index := 0 to variableXSize
        invariant negNum == NegNum(s, index)
      {
        if negNum > solution[index] {
          negNum := solution[index];
        }
      }
      if negNum < 0.0 {
        for index := 0 to variableXSize
          modifies solution
          invariant forall j :: 0 <= j < index ==> solution[j] == s[j] + -negNum
          invariant forall j :: index <= j < solution.Length ==> solution[j] == s[j]
        {
          solution[index] := solution[index] + -negNum;
        }
        forall j | 0 <= j < solution.Length
          ensures solution[j] == Shift(s, variableXSize)[j]
        {
          ShiftAt(s, variableXSize, j);
        }
      }
    }

    /**
     * Sets the utility of every value of every issue to its solution entry.
     * The pass over all values is repeated `variableXSize` times; each pass
     * writes the same entries, so the result is that of a single pass.
     */
    method AssignUtilities(solution: array<real>)
      requires Valid() && variableXSize <= solution.Length
      modifies this`evaluation
      ensures Valid()
      ensures variableXSize > 0 ==> Assigned(Sizes(issues), evaluation, solution[..])
      ensures variableXSize == 0 ==> evaluation == old(evaluation)
    {
      for index := 0 to variableXSize
        invariant Valid()
        invariant index > 0 ==> Assigned(Sizes(issues), evaluation, solution[..])
        invariant index == 0 ==> evaluation == old(evaluation)
      {
        AssignPass(solution);
      }
    }

    /** One pass over every value of every issue, setting its utility to its solution entry. */
    method AssignPass(solution: array<real>)
      requires Valid() && variableXSize <= solution.Length
      modifies this`evaluation
      ensures Valid() && Assigned(Sizes(issues), evaluation, solution[..])
    {
      ghost var sizes := Sizes(issues);
      for i := 0 to |issues|
        invariant Valid()
        invariant forall ii, v :: 0 <= ii < i && 0 <= v < sizes[ii] ==> evaluation[ii][v] == solution[XIndex(sizes, ii, v)]
      {
        AssignIssue(solution, i);
      }
    }

    /** Sets the utility of every value of issue `i` to its solution entry; the other issues keep theirs. */
    method AssignIssue(solution: array<real>, i: nat)
      requires Valid() && variableXSize <= solution.Length && i < |issues|
      modifies this`evaluation
      ensures Valid()
      ensures forall v :: 0 <= v < |issues[i].values| ==> evaluation[i][v] == solution[XIndex(Sizes(issues), i, v)]
      ensures forall ii :: 0 <= ii < |issues| && ii != i ==> evaluation[ii] == old(evaluation[ii])
    {
      var issue := issues[i];
      for v := 0 to |issue.values|
        invariant Valid()
        invariant forall ii :: 0 <= ii < |issues| && ii != i ==> evaluation[ii] == old(evaluation[ii])
        invariant forall w :: 0 <= w < v ==> evaluation[i][w] == solution[XIndex(Sizes(issues), i, w)]
      {
        var indexVar := VariableOf(i, v);
        evaluation := evaluation[i := evaluation[i][v := solution[indexVar]]];
      }
    }

    /**
     * estimateUsingBidRanks up to the final normalisation: build the program,
     * solve it with `solver` (None when it has no solution), repair negative
     * entries, and read the value utilities off the repaired solution.
     */
    method EstimateUsingBidRanks(r: BidRanking, solver: LinearProgram -> Option<seq<real>>) returns (solved: bool)
      requires Valid() && RankingFits(Sizes(issues), r)
      requires forall lp: LinearProgram :: solver(lp).Some? ==> |solver(lp).value| == |lp.objective|
      modifies this
      ensures Valid() && weights == old(weights) && variableXSize == old(variableXSize)
      ensures var answer := solver(Formulation(Sizes(issues), r, old(constraintNum)));
        && solved == answer.Some?
        && (solved && variableXSize > 0 ==> Assigned(Sizes(issues), evaluation, Shift(answer.value, variableXSize)))
        && (!solved || variableXSize == 0 ==> evaluation == old(evaluation))
      ensures constraintNum == old(constraintNum) + variableXSize + 2 * |r.comparisons| + 1
      ensures variableName == old(variableName) + ZNames(|r.comparisons|)
    {
      var lp := GetLinearSolution(r);
      var answer := solver(lp);
      if answer.None? {
        return false;
      }
      var solution := new real[|answer.value|](j requires 0 <= j < |answer.value| => answer.value[j]);
      assert solution[..] == answer.value;
      ShiftNegatives(solution);
      AssignUtilities(solution);
      solved := true;
    }
  }

  /** After the assignment every value utility is non-negative. */
  lemma AssignedNonNegative(sizes: seq<nat>, evaluation: seq<seq<real>>, solution: seq<real>, i: nat, v: nat)
    requires Sum(sizes) <= |solution|
    requires Assigned(sizes, evaluation, Shift(solution, Sum(sizes)))
    requires i < |sizes| && v < sizes[i]
    ensures evaluation[i][v] >= 0.0
  {
    XIndexLayout(sizes, i, v, i, v);
  }
}
