/**
 The `[min, max]` extent of a column of values, as d3's `extent` computes it with
 an accessor: a single left-to-right scan that starts from the first value and
 then lowers `min` when `min > value` and raises `max` when `max < value`. On an
 empty input both ends stay `undefined`, modelled as `None`.
 */
module Extents {
  import opened Wrappers

  /** A `[lo, hi]` domain as handed to a linear scale. */
  datatype Domain = Domain(lo: real, hi: real)

  /** Smallest value, defined by the same left-to-right scan as d3's `extent`. */
  function Min(xs: seq<real>): (m: real)
    requires |xs| > 0
    ensures m in xs
    ensures forall i :: 0 <= i < |xs| ==> m <= xs[i]
  {
    if |xs| == 1 then xs[0]
    else
      var m := Min(xs[..|xs| - 1]);
      if m > xs[|xs| - 1] then xs[|xs| - 1] else m
  }

  /** Largest value, defined by the same left-to-right scan as d3's `extent`. */
  function Max(xs: seq<real>): (m: real)
    requires |xs| > 0
    ensures m in xs
    ensures forall i :: 0 <= i < |xs| ==> xs[i] <= m
  {
    if |xs| == 1 then xs[0]
    else
      var m := Max(xs[..|xs| - 1]);
      if m < xs[|xs| - 1] then xs[|xs| - 1] else m
  }

  /** `extent(values)`: undefined exactly on empty input, otherwise the attained bounds. */
  function Extent(xs: seq<real>): (r: Option<Domain>)
    ensures r.None? <==> |xs| == 0
    ensures r.Some? ==> r.value.lo <= r.value.hi
    ensures r.Some? ==> forall i :: 0 <= i < |xs| ==> r.value.lo <= xs[i] <= r.value.hi
    ensures r.Some? ==> r.value.lo in xs && r.value.hi in xs
  {
    if |xs| == 0 then None else Some(Domain(Min(xs), Max(xs)))
  }

  /** The extent is the only domain that bounds every value and whose ends are attained. */
  lemma ExtentUnique(xs: seq<real>, d: Domain)
    requires d.lo in xs && d.hi in xs
    requires forall i :: 0 <= i < |xs| ==> d.lo <= xs[i] <= d.hi
    ensures Extent(xs) == Some(d)
  {
  }

  /** The imperative scan of d3's `extent`, proved to compute `Extent`. */
  method ExtentScan(xs: seq<real>) returns (r: Option<Domain>)
    ensures r == Extent(xs)
  {
    r := None;
    var i := 0;
    while i < |xs|
      invariant 0 <= i <= |xs|
      invariant r == Extent(xs[..i])
    {
      var value := xs[i];
      assert xs[..i + 1][..i] == xs[..i];
      match r {
        case None =>
          r := Some(Domain(value, value));
        case Some(d) =>
          var lo, hi := d.lo, d.hi;
          if lo > value { lo := value; }
          if hi < value { hi := value; }
          r := Some(Domain(lo, hi));
      }
      i := i + 1;
    }
    assert xs[..i] == xs;
  }
}
