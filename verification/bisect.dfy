/**
 The distance bisector `bisector(point => point[0]).left`: the leftmost insertion
 point of a query distance among the plot points. `LowerBound` is the functional
 specification (the first index whose distance is not below the query);
 `BisectLeft` is the binary search d3 performs, proved equal to it whenever the
 distances are ascending.
 */
module Bisect {
  import opened PlotData

  /** Distances ascend along the plot (the order the bisection relies on). */
  predicate SortedByDistance(plot: seq<PlotPoint>)
  {
    forall i, j :: 0 <= i <= j < |plot| ==> plot[i].distance <= plot[j].distance
  }

  /** `b` is an insertion point of `q`: everything just left of it is below `q`,
      and the distance at it is not. */
  predicate IsInsertionPoint(plot: seq<PlotPoint>, q: real, b: nat)
  {
    && b <= |plot|
    && (b == 0 || plot[b - 1].distance < q)
    && (b == |plot| || plot[b].distance >= q)
  }

  /** Leftmost insertion point of `q`: the first index whose distance is `>= q`, else `|plot|`. */
  function LowerBound(plot: seq<PlotPoint>, q: real): (b: nat)
    ensures b <= |plot|
    ensures forall i :: 0 <= i < b ==> plot[i].distance < q
    ensures b < |plot| ==> plot[b].distance >= q
    ensures SortedByDistance(plot) ==> forall i :: b <= i < |plot| ==> plot[i].distance >= q
  {
    if |plot| == 0 then 0
    else if plot[0].distance < q then 1 + LowerBound(plot[1..], q)
    else 0
  }

  /** On ascending distances an insertion point is unique: any index with
      smaller distances to its left and no smaller distance at it is `LowerBound`. */
  lemma LowerBoundUnique(plot: seq<PlotPoint>, q: real, b: nat)
    requires SortedByDistance(plot)
    requires IsInsertionPoint(plot, q, b)
    ensures b == LowerBound(plot, q)
  {
  }

  /** Among equal distances the leftmost one is found: the result lies at or before
      every entry equal to `q`, and on ascending distances it is itself such an entry. */
  lemma LowerBoundLeftmost(plot: seq<PlotPoint>, q: real, j: nat)
    requires j < |plot| && plot[j].distance == q
    ensures LowerBound(plot, q) <= j
    ensures j > 0 && plot[j - 1].distance == q ==> LowerBound(plot, q) < j
    ensures SortedByDistance(plot) ==>
      LowerBound(plot, q) < |plot| && plot[LowerBound(plot, q)].distance == q
  {
  }

  /** How many plot points lie strictly before distance `q`. */
  function CountBelow(plot: seq<PlotPoint>, q: real): nat
  {
    if |plot| == 0 then 0
    else (if plot[0].distance < q then 1 else 0) + CountBelow(plot[1..], q)
  }

  /** No point is counted when none lies before `q`. */
  lemma {:induction false} CountBelowNone(plot: seq<PlotPoint>, q: real)
    requires forall i :: 0 <= i < |plot| ==> plot[i].distance >= q
    ensures CountBelow(plot, q) == 0
  {
    if |plot| > 0 {
      CountBelowNone(plot[1..], q);
    }
  }

  /** On ascending distances the insertion point is the number of points before `q`. */
  lemma {:induction false} LowerBoundCountsBelow(plot: seq<PlotPoint>, q: real)
    requires SortedByDistance(plot)
    ensures LowerBound(plot, q) == CountBelow(plot, q)
  {
    if |plot| > 0 {
      if plot[0].distance < q {
        LowerBoundCountsBelow(plot[1..], q);
      } else {
        CountBelowNone(plot, q);
      }
    }
  }

  /** A larger query never moves the insertion point to the left. */
  lemma LowerBoundMonotone(plot: seq<PlotPoint>, q1: real, q2: real)
    requires q1 <= q2
    ensures LowerBound(plot, q1) <= LowerBound(plot, q2)
  {
  }

  /** d3's bisection over `lo = 0`, `hi = |plot|`; `(lo + hi) >>> 1` is `(lo + hi) / 2`
      while `lo + hi < 2^32`, that is for every length up to 2^31. Without sorted
      input it still returns an insertion point in the local sense; on ascending
      input it is `LowerBound`. */
  method BisectLeft(plot: seq<PlotPoint>, q: real) returns (b: nat)
    ensures IsInsertionPoint(plot, q, b)
    ensures SortedByDistance(plot) ==> b == LowerBound(plot, q)
  {
    var lo, hi := 0, |plot|;
    while lo < hi
      invariant 0 <= lo <= hi <= |plot|
      invariant lo == 0 || plot[lo - 1].distance < q
      invariant hi == |plot| || plot[hi].distance >= q
      decreases hi - lo
    {
      var mid := (lo + hi) / 2;
      if plot[mid].distance < q {
        lo := mid + 1;
      } else {
        hi := mid;
      }
    }
    b := lo;
    if SortedByDistance(plot) {
      LowerBoundUnique(plot, q, b);
    }
  }
}
