/** The per-group arithmetic: each evaluator's mark total and the mean of
    those totals. Marks are integers and the mean is exact. */
module MarkStatistics {
  import opened Common

  /** The sum of a mark list, folded from the left starting at 0. */
  function Sum(s: seq<int>): (total: int)
    ensures s == [] ==> total == 0
  {
    if s == [] then 0 else Sum(s[..|s| - 1]) + s[|s| - 1]
  }

  /** A sum of values in [lo, hi] lies in [lo * n, hi * n]. */
  lemma {:induction false} SumBounds(s: seq<int>, lo: int, hi: int)
    requires forall i :: 0 <= i < |s| ==> lo <= s[i] <= hi
    ensures lo * |s| <= Sum(s) <= hi * |s|
  {
    if s != [] {
      var init, n := s[..|s| - 1], |s|;
      SumBounds(init, lo, hi);
      assert lo * n == lo * (n - 1) + lo && hi * n == hi * (n - 1) + hi;
    }
  }

  /** `totalPerEvaluator`: one total per mark list, the sum of that
      evaluator's marks; an evaluator who gave no marks totals 0. */
  function Totals(marksList: seq<seq<int>>): (totals: seq<int>)
    ensures |totals| == |marksList|
    ensures forall i :: 0 <= i < |marksList| ==> totals[i] == Sum(marksList[i])
    ensures forall i :: 0 <= i < |marksList| && marksList[i] == [] ==> totals[i] == 0
  {
    seq(|marksList|, i requires 0 <= i < |marksList| => Sum(marksList[i]))
  }

  /** avg is the arithmetic mean of a non-empty sequence of totals. */
  ghost predicate IsMean(avg: real, totals: seq<int>) {
    |totals| > 0 && avg * (|totals| as real) == Sum(totals) as real
  }

  /** The mean of the totals, absent (`null`) when there are none. */
  function Average(totals: seq<int>): (avg: Option<real>)
    ensures avg.None? <==> totals == []
    ensures avg.Some? ==> IsMean(avg.value, totals)
  {
    if |totals| > 0 then Some(Sum(totals) as real / |totals| as real) else None
  }

  /** The mean lies between the smallest and the largest total. */
  lemma AverageWithinTotals(totals: seq<int>, lo: int, hi: int)
    requires totals != []
    requires forall i :: 0 <= i < |totals| ==> lo <= totals[i] <= hi
    ensures lo as real <= Average(totals).value <= hi as real
  {
    SumBounds(totals, lo, hi);
    var n, total := |totals|, Sum(totals);
    BoundsAsReals(total, n, lo, hi);
    var avg := Average(totals).value;
    assert IsMean(avg, totals);
    MeanBetween(total as real, n as real, avg, lo as real, hi as real);
  }

  lemma BoundsAsReals(total: int, n: int, lo: int, hi: int)
    requires lo * n <= total <= hi * n
    ensures (lo as real) * (n as real) <= total as real <= (hi as real) * (n as real)
  {
    assert (lo * n) as real == (lo as real) * (n as real);
    assert (hi * n) as real == (hi as real) * (n as real);
    assert total as real <= (hi * n) as real;
  }

  lemma MeanBetween(total: real, n: real, avg: real, lo: real, hi: real)
    requires n > 0.0 && avg * n == total && lo * n <= total <= hi * n
    ensures lo <= avg <= hi
  {
  }

  /** The worked example: two evaluators giving [5, 5] and [4, 6] both total
      10, and their mean is 10. */
  lemma ExampleAverage()
    ensures Totals([[5, 5], [4, 6]]) == [10, 10]
    ensures Average(Totals([[5, 5], [4, 6]])) == Some(10.0)
  {
    assert Sum([5, 5]) == 10 by { assert [5, 5][..1] == [5]; assert [5][..0] == []; }
    assert Sum([4, 6]) == 10 by { assert [4, 6][..1] == [4]; assert [4][..0] == []; }
    assert Sum([10, 10]) == 20 by { assert [10, 10][..1] == [10]; assert [10][..0] == []; }
  }
}
