/** Bottom-up rod cutting: a table from rod length to the best profit, the cuts
    that achieve it and their number, filled for lengths 1..length. */
module RodCutting {

  /** One table entry: the record stored under each length. */
  datatype Entry = Entry(maxProfit: int, cuts: seq<int>, numberOfCuts: int)

  /** What the table solver hands back to its caller. */
  datatype Outcome =
    | BaseTable(memo: map<int, Entry>)  // degenerate input: the whole one-entry table
    | Solution(entry: Entry)            // the entry stored for the requested length
    | PriceIndexError                   // a price beyond the end of the list was read

  /** The entry for length 0: no profit, no cuts. */
  const BASE: Entry := Entry(0, [], 0)

  /** Every element of cs is a piece length in 1..n. */
  predicate Parts(cs: seq<int>, n: int) {
    forall k :: 0 <= k < |cs| ==> 1 <= cs[k] <= n
  }

  /** Total length of the pieces. */
  function Sum(cs: seq<int>): int {
    if cs == [] then 0 else cs[0] + Sum(cs[1..])
  }

  /** Total selling price of the pieces. */
  function Value(prices: seq<int>, cs: seq<int>): int
    requires Parts(cs, |prices|)
  {
    if cs == [] then 0 else prices[cs[0] - 1] + Value(prices, cs[1..])
  }

  // ---------------------------------------------------------------------------
  // Reference definition of the recurrence, with the same tie-break as the table
  // ---------------------------------------------------------------------------

  /** Best(prices, i) is the entry the table holds for length i. */
  function Best(prices: seq<int>, i: nat): Entry
    requires i <= |prices|
    decreases i, i + 1
  {
    if i == 0 then BASE else BestAmong(prices, i, i)
  }

  /** The running best for length i after trying the first cuts 1..k, in
      ascending order, starting from profit 0 and no cuts; a later candidate
      replaces the running best only when it is strictly larger. */
  function BestAmong(prices: seq<int>, i: nat, k: nat): Entry
    requires 1 <= i <= |prices| && k <= i
    decreases i, k
  {
    if k == 0 then BASE
    else
      var prev := BestAmong(prices, i, k - 1);
      var rest := Best(prices, i - k);
      var profit := prices[k - 1] + rest.maxProfit;
      if profit > prev.maxProfit then Entry(profit, [k] + rest.cuts, 1 + |rest.cuts|)
      else prev
  }

  /** The profit of cutting j off first and then the best for the remaining i - j. */
  function Candidate(prices: seq<int>, i: nat, j: nat): int
    requires 1 <= j <= i <= |prices|
  {
    prices[j - 1] + Best(prices, i - j).maxProfit
  }

  // ---------------------------------------------------------------------------
  // The table solver
  // ---------------------------------------------------------------------------

  /** Fills the table for lengths 1..length and returns the entry for length;
      a degenerate input returns the whole base table, and a price list shorter
      than length fails on the first price it lacks. */
  method RodCuttingTable(length: int, prices: seq<int>) returns (r: Outcome)
    ensures length <= 0 || prices == [] ==> r == BaseTable(map[0 := BASE])
    ensures length > 0 && prices != [] && length > |prices| ==> r == PriceIndexError
    ensures length > 0 && prices != [] && length <= |prices| ==> r == Solution(Best(prices, length))
  {
    var memo: map<int, Entry> := map[0 := BASE];
    if length <= 0 || prices == [] {
      return BaseTable(memo);
    }
    for i := 1 to length + 1
      invariant i - 1 <= |prices|
      invariant forall k :: 0 <= k < i ==> k in memo && memo[k] == Best(prices, k)
    {
      var maxProfit := 0;
      var bestCuts: seq<int> := [];
      for j := 1 to i + 1
        invariant j - 1 <= |prices|
        invariant i <= |prices| ==>
          maxProfit == BestAmong(prices, i, j - 1).maxProfit && bestCuts == BestAmong(prices, i, j - 1).cuts
      {
        if j - 1 >= |prices| {
          return PriceIndexError;
        }
        var profit := prices[j - 1] + memo[i - j].maxProfit;
        if profit > maxProfit {
          maxProfit := profit;
          bestCuts := [j] + memo[i - j].cuts;
        }
      }
      BestAmongConsistent(prices, i, i);
      memo := memo[i := Entry(maxProfit, bestCuts, |bestCuts|)];
    }
    return Solution(memo[length]);
  }

  // ---------------------------------------------------------------------------
  // What every entry is
  // ---------------------------------------------------------------------------

  /** An entry for length n is consistent: its count is the number of cuts, the
      cuts are pieces of length 1..n that fit in the rod, its profit is their
      total price and is never negative, and it has no cuts exactly when it has
      no profit. */
  predicate Consistent(prices: seq<int>, n: nat, e: Entry)
    requires n <= |prices|
  {
    && e.numberOfCuts == |e.cuts|
    && Parts(e.cuts, n)
    && Sum(e.cuts) <= n
    && e.maxProfit == Value(prices, e.cuts)
    && e.maxProfit >= 0
    && (e.cuts == [] <==> e.maxProfit == 0)
  }

  lemma {:induction false} BestConsistent(prices: seq<int>, i: nat)
    requires i <= |prices|
    ensures Consistent(prices, i, Best(prices, i))
    decreases i, i + 1
  {
    if i > 0 {
      BestAmongConsistent(prices, i, i);
    }
  }

  lemma {:induction false} BestAmongConsistent(prices: seq<int>, i: nat, k: nat)
    requires 1 <= i <= |prices| && k <= i
    ensures Consistent(prices, i, BestAmong(prices, i, k))
    decreases i, k
  {
    if k > 0 {
      BestAmongConsistent(prices, i, k - 1);
      BestConsistent(prices, i - k);
      var rest := Best(prices, i - k);
      var cs := [k] + rest.cuts;
      assert cs[1..] == rest.cuts;
      assert Parts(cs, i);
    }
  }

  // ---------------------------------------------------------------------------
  // The recurrence and the tie-break
  // ---------------------------------------------------------------------------

  /** After trying the first cuts 1..k the running best is the maximum of 0 and
      every candidate so far; if it has cuts, the first one is the smallest j
      attaining it and the rest are the best cuts for the remainder. */
  lemma {:induction false} BestAmongIsFirstMaximum(prices: seq<int>, i: nat, k: nat)
    requires 1 <= i <= |prices| && k <= i
    ensures var e := BestAmong(prices, i, k);
      && e.maxProfit >= 0
      && (forall j :: 1 <= j <= k ==> Candidate(prices, i, j) <= e.maxProfit)
      && (e.cuts == [] ==> e.maxProfit == 0)
      && (e.cuts != [] ==>
            && 1 <= e.cuts[0] <= k
            && Candidate(prices, i, e.cuts[0]) == e.maxProfit
            && e.cuts == [e.cuts[0]] + Best(prices, i - e.cuts[0]).cuts
            && forall j :: 1 <= j < e.cuts[0] ==> Candidate(prices, i, j) < e.maxProfit)
    decreases k
  {
    if k > 0 {
      BestAmongIsFirstMaximum(prices, i, k - 1);
    }
  }

  /** For every length i in 1..|prices|, the table's profit is
      max(0, max over j in 1..i of prices[j-1] + profit(i-j)), and when there are
      cuts the first one is the smallest j attaining that maximum; when there are
      none every candidate is at most 0. */
  lemma BestRecurrence(prices: seq<int>, i: nat)
    requires 1 <= i <= |prices|
    ensures var e := Best(prices, i);
      && e.maxProfit >= 0
      && (forall j :: 1 <= j <= i ==> Candidate(prices, i, j) <= e.maxProfit)
      && (e.cuts == [] <==> e.maxProfit == 0)
      && (e.cuts == [] ==> forall j :: 1 <= j <= i ==> Candidate(prices, i, j) <= 0)
      && (e.cuts != [] ==>
            && 1 <= e.cuts[0] <= i
            && Candidate(prices, i, e.cuts[0]) == e.maxProfit
            && e.cuts == [e.cuts[0]] + Best(prices, i - e.cuts[0]).cuts
            && forall j :: 1 <= j < e.cuts[0] ==> Candidate(prices, i, j) < e.maxProfit)
  {
    BestAmongIsFirstMaximum(prices, i, i);
    BestConsistent(prices, i);
  }

  // ---------------------------------------------------------------------------
  // Optimality
  // ---------------------------------------------------------------------------

  /** Every part of a sequence of positive parts is at most their sum. */
  lemma {:induction false} PartAtMostSum(cs: seq<int>, k: nat)
    requires forall m :: 0 <= m < |cs| ==> cs[m] >= 1
    requires k < |cs|
    ensures cs[k] <= Sum(cs)
    ensures Sum(cs[1..]) >= 0
  {
    if |cs| > 1 {
      PartAtMostSum(cs[1..], if k == 0 then 0 else k - 1);
    }
  }

  /** The table's profit for length i is at least the total price of any way of
      taking pieces of positive length whose lengths add up to at most i; in
      particular of any composition of i. */
  lemma {:induction false} BestIsOptimal(prices: seq<int>, i: nat, cs: seq<int>)
    requires i <= |prices|
    requires Parts(cs, i) && Sum(cs) <= i
    ensures Value(prices, cs) <= Best(prices, i).maxProfit
    decreases |cs|
  {
    if cs == [] {
      BestConsistent(prices, i);
    } else {
      var j := cs[0];
      var rest := cs[1..];
      forall m | 0 <= m < |rest| ensures 1 <= rest[m] <= i - j {
        PartAtMostSum(rest, m);
      }
      BestIsOptimal(prices, i - j, rest);
      BestRecurrence(prices, i);
      assert Candidate(prices, i, j) <= Best(prices, i).maxProfit;
    }
  }

  /** Selling the rod uncut is one of the candidates, so the profit for length i
      is at least prices[i-1]. */
  lemma UncutBound(prices: seq<int>, i: nat)
    requires 1 <= i <= |prices|
    ensures Best(prices, i).maxProfit >= prices[i - 1]
  {
    BestRecurrence(prices, i);
    assert Candidate(prices, i, i) == prices[i - 1];
  }

  /** The cuts achieve the profit: the profit is their total price, so the
      profit is the maximum over all ways of taking pieces. */
  lemma CutsAchieveProfit(prices: seq<int>, i: nat)
    requires i <= |prices|
    ensures Parts(Best(prices, i).cuts, i) && Sum(Best(prices, i).cuts) <= i
    ensures Value(prices, Best(prices, i).cuts) == Best(prices, i).maxProfit
    ensures Best(prices, i).numberOfCuts == |Best(prices, i).cuts|
  {
    BestConsistent(prices, i);
  }

  /** When the uncut rod is strictly better than every other first cut, the
      rod is not cut. */
  lemma NoCutWhenUncutIsStrictlyBest(prices: seq<int>, i: nat)
    requires 1 <= i <= |prices|
    requires prices[i - 1] > 0
    requires forall j :: 1 <= j < i ==> Candidate(prices, i, j) < prices[i - 1]
    ensures Best(prices, i).cuts == [i]
  {
    BestRecurrence(prices, i);
    assert Candidate(prices, i, i) == prices[i - 1];
    var e := Best(prices, i);
    assert e.cuts != [];
    assert e.cuts[0] == i;
  }

  // ---------------------------------------------------------------------------
  // When the cuts use the whole rod
  // ---------------------------------------------------------------------------

  /** With a positive price for a piece of length 1, every length 1..|prices| is
      cut into at least one piece and the pieces add up to the whole rod. */
  lemma {:induction false} CutsCoverRod(prices: seq<int>, i: nat)
    requires 1 <= i <= |prices|
    requires prices[0] > 0
    ensures Best(prices, i).cuts != []
    ensures Parts(Best(prices, i).cuts, i)
    ensures Sum(Best(prices, i).cuts) == i
    decreases i
  {
    BestRecurrence(prices, i);
    BestConsistent(prices, i);
    BestConsistent(prices, i - 1);
    assert Candidate(prices, i, 1) > 0;
    var e := Best(prices, i);
    var c := e.cuts[0];
    assert e.cuts[1..] == Best(prices, i - c).cuts;
    if i - c > 0 {
      CutsCoverRod(prices, i - c);
    }
  }

  /** With non-negative prices, when the winning first cut c leaves a
      remainder, the remainder is cut too: otherwise cutting 1 off first would
      have been at least as good, and 1 comes before c. */
  lemma RemainderIsCut(prices: seq<int>, i: nat)
    requires 1 <= i <= |prices|
    requires forall k :: 0 <= k < i ==> prices[k] >= 0
    requires Best(prices, i).cuts != []
    requires Best(prices, i).cuts[0] < i
    ensures var c := Best(prices, i).cuts[0]; 1 <= c && Best(prices, i - c).cuts != []
  {
    BestRecurrence(prices, i);
    var c := Best(prices, i).cuts[0];
    BestConsistent(prices, i - c);
    BestConsistent(prices, i - 1);
    if c > 1 {
      BestRecurrence(prices, i - 1);
      assert Candidate(prices, i - 1, c) <= Best(prices, i - 1).maxProfit;
      BestConsistent(prices, i - 1 - c);
      assert Candidate(prices, i, 1) < Candidate(prices, i, c);
    } else if prices[0] > 0 {
      CutsCoverRod(prices, i - 1);
    }
  }

  /** With non-negative prices the only way the cuts can fall short of the rod
      is to have no cuts at all (every price up to i is 0). */
  lemma {:induction false} NonNegativeCutsCoverRod(prices: seq<int>, i: nat)
    requires 1 <= i <= |prices|
    requires forall k :: 0 <= k < i ==> prices[k] >= 0
    ensures Best(prices, i).cuts == [] || Sum(Best(prices, i).cuts) == i
    decreases i
  {
    var e := Best(prices, i);
    if e.cuts != [] {
      BestRecurrence(prices, i);
      var c := e.cuts[0];
      var rest := Best(prices, i - c);
      assert e.cuts[1..] == rest.cuts;
      if i - c > 0 {
        RemainderIsCut(prices, i);
        NonNegativeCutsCoverRod(prices, i - c);
      }
    }
  }

  // ---------------------------------------------------------------------------
  // The worked examples
  // ---------------------------------------------------------------------------

  /** A 5-long rod with prices [2, 5, 7, 8, 10]: profit 12 from cuts [1, 2, 2]. */
  lemma BasicCase()
    ensures Best([2, 5, 7, 8, 10], 5) == Entry(12, [1, 2, 2], 3)
  {
    var p := [2, 5, 7, 8, 10];
    assert Best(p, 1) == Entry(2, [1], 1);
    assert Best(p, 2) == Entry(5, [2], 1);
    assert Best(p, 3) == Entry(7, [1, 2], 2);
    assert Best(p, 4) == Entry(10, [2, 2], 2);
  }

  /** A 3-long rod with prices [1, 3, 8]: leaving it uncut, profit 8. */
  lemma OptimalNotToCut()
    ensures Best([1, 3, 8], 3) == Entry(8, [3], 1)
  {
    var p := [1, 3, 8];
    assert Best(p, 1) == Entry(1, [1], 1);
    assert Best(p, 2) == Entry(3, [2], 1);
  }

  /** A 4-long rod with prices [3, 5, 6, 7]: four unit pieces, profit 12. */
  lemma UniformCuts()
    ensures Best([3, 5, 6, 7], 4) == Entry(12, [1, 1, 1, 1], 4)
  {
    var p := [3, 5, 6, 7];
    assert Best(p, 1) == Entry(3, [1], 1);
    assert Best(p, 2) == Entry(6, [1, 1], 2);
    assert Best(p, 3) == Entry(9, [1, 1, 1], 3);
  }

  /** A price of 0 for the only length leaves a non-empty rod with no cuts. */
  lemma WorthlessRodIsNotCut()
    ensures Best([0], 1) == Entry(0, [], 0)
  {
  }
}
