/**
 The data core of the `elevation-profile` element: the state rebuilt when the
 `lines` property changes (plot points and the two scale domains), the
 resolution of a pointer distance to a sample in `pointerMove`, and the unit
 choice of the axis tick labels. Rendering, scales and DOM events stay outside;
 the pointer's distance reaches this module already inverted by the x scale.
 */
module ElevationProfile {
  import opened Wrappers
  import opened PlotData
  import opened Extents
  import opened Bisect

  /** The fields of the component that the core reads and writes. */
  datatype State = State(
    lines: seq<Coordinate>,
    plotData: seq<PlotPoint>,
    xDomain: Option<Domain>,
    yDomain: Option<Domain>)

  /** What `willUpdate` establishes: the plot points and domains belong to `lines`. */
  predicate Consistent(s: State)
  {
    && s.plotData == Project(s.lines)
    && s.xDomain == Extent(Distances(s.plotData))
    && s.yDomain == Extent(Elevations(s.plotData))
  }

  /** `willUpdate`: everything is rebuilt from `lines` when, and only when, `lines` changed. */
  function WillUpdate(s: State, linesChanged: bool): (s': State)
    ensures s'.lines == s.lines
    ensures !linesChanged ==> s' == s
    ensures linesChanged ==> Consistent(s')
    ensures linesChanged ==> |s'.plotData| == |s.lines|
    ensures linesChanged ==> (s'.xDomain.None? <==> |s.lines| == 0)
    ensures linesChanged ==> (s'.yDomain.None? <==> |s.lines| == 0)
  {
    if linesChanged then
      var plot := Project(s.lines);
      State(s.lines, plot, Extent(Distances(plot)), Extent(Elevations(plot)))
    else s
  }

  /** A consistent state is a fixed point of a rebuild; so rebuilding twice is rebuilding once. */
  lemma WillUpdateIdempotent(s: State, linesChanged: bool)
    ensures Consistent(s) ==> WillUpdate(s, true) == s
    ensures WillUpdate(WillUpdate(s, linesChanged), true) == WillUpdate(s, true)
  {
  }

  /** On non-empty lines both domains are defined, ordered, contain every sample
      and have both ends attained by some sample. */
  lemma DomainsCoverSamples(s: State)
    requires Consistent(s)
    requires |s.lines| > 0
    ensures s.xDomain.Some? && s.yDomain.Some?
    ensures s.xDomain.value.lo <= s.xDomain.value.hi
    ensures s.yDomain.value.lo <= s.yDomain.value.hi
    ensures forall i :: 0 <= i < |s.lines| ==>
      s.xDomain.value.lo <= s.lines[i].distance <= s.xDomain.value.hi
    ensures forall i :: 0 <= i < |s.lines| ==>
      s.yDomain.value.lo <= s.lines[i].elevation <= s.yDomain.value.hi
    ensures exists i :: 0 <= i < |s.lines| && s.lines[i].distance == s.xDomain.value.lo
    ensures exists i :: 0 <= i < |s.lines| && s.lines[i].distance == s.xDomain.value.hi
    ensures exists i :: 0 <= i < |s.lines| && s.lines[i].elevation == s.yDomain.value.lo
    ensures exists i :: 0 <= i < |s.lines| && s.lines[i].elevation == s.yDomain.value.hi
  {
  }

  /** A single line `[[0,0,10,0],[0,0,20,5],[0,0,15,10]]` has three plot points,
      x domain `[0, 10]` and y domain `[10, 20]`. */
  lemma ExampleSingleLine()
    ensures var s := WillUpdate(State([Coordinate(0.0, 0.0, 10.0, 0.0), Coordinate(0.0, 0.0, 20.0, 5.0),
                                       Coordinate(0.0, 0.0, 15.0, 10.0)], [], None, None), true);
      && |s.plotData| == 3
      && s.xDomain == Some(Domain(0.0, 10.0))
      && s.yDomain == Some(Domain(10.0, 20.0))
  {
  }

  // ---------------------------------------------------------------------------
  // Pointer resolution
  // ---------------------------------------------------------------------------

  /** The outcome of one pointer move: no hit, or an `over` event for sample `index`
      carrying the original coordinate and the plot point the pointer is moved to. */
  datatype Hover = NoHit | Over(index: nat, coordinate: Coordinate, point: PlotPoint)

  /** JavaScript's `Math.min` on two integers. */
  function MinInt(a: int, b: int): int
  {
    if a <= b then a else b
  }

  /** The sample index of a pointer distance: the lower-bound insertion point,
      clamped to the last sample; `-1` when there is no data. */
  function ResolveIndex(plot: seq<PlotPoint>, q: real): (index: int)
    ensures |plot| == 0 ==> index == -1
    ensures |plot| > 0 ==> 0 <= index < |plot|
    ensures forall i :: 0 <= i < index ==> plot[i].distance < q
    ensures 0 <= index < |plot| - 1 ==> plot[index].distance >= q
    ensures |plot| > 0 && q <= plot[0].distance ==> index == 0
    ensures SortedByDistance(plot) && |plot| > 0 && q > plot[|plot| - 1].distance ==>
      index == |plot| - 1
  {
    MinInt(LowerBound(plot, q), |plot| - 1)
  }

  /** A larger pointer distance never resolves to an earlier sample. */
  lemma ResolveIndexMonotone(plot: seq<PlotPoint>, q1: real, q2: real)
    requires q1 <= q2
    ensures ResolveIndex(plot, q1) <= ResolveIndex(plot, q2)
  {
  }

  /** No nearest-neighbour choice: a distance strictly after sample `i - 1` and not
      after sample `i` resolves to `i`, however much closer it is to sample `i - 1`. */
  lemma ResolveIndexTakesUpperNeighbour(plot: seq<PlotPoint>, q: real, i: nat)
    requires SortedByDistance(plot)
    requires 0 < i < |plot|
    requires plot[i - 1].distance < q <= plot[i].distance
    ensures ResolveIndex(plot, q) == i
  {
  }

  /** Samples at distances 0 and 10: the pointer at distance 1 resolves to the
      sample at 10, not to the nearer one at 0. */
  lemma ExampleNotNearest()
    ensures ResolveIndex([PlotPoint(0.0, 0.0), PlotPoint(10.0, 0.0)], 1.0) == 1
  {
  }

  /** `pointerMove` as a function of the state and the inverted pointer distance. */
  function PointerOver(s: State, q: real): (h: Hover)
    requires s.plotData == Project(s.lines)
    ensures h.NoHit? <==> |s.lines| == 0
    ensures h.Over? ==> h.index < |s.lines|
    ensures h.Over? ==> h.index == ResolveIndex(s.plotData, q)
    ensures h.Over? ==> h.coordinate == s.lines[h.index] && h.point == s.plotData[h.index]
    ensures h.Over? ==> h.point == ToPlotPoint(h.coordinate)
  {
    var index := ResolveIndex(s.plotData, q);
    if index < 0 then NoHit
    else Over(index, s.lines[index], s.plotData[index])
  }

  /** `pointerMove` with d3's bisection: on empty data nothing happens; otherwise the
      event names a sample in range, its original coordinate and its projection, and
      that sample is the insertion point of `q` or the last sample when `q` lies past
      the end. On ascending distances it is exactly `PointerOver`. */
  method PointerMove(s: State, q: real) returns (h: Hover)
    requires s.plotData == Project(s.lines)
    ensures h.NoHit? <==> |s.lines| == 0
    ensures h.Over? ==> h.index < |s.lines|
    ensures h.Over? ==> h.coordinate == s.lines[h.index] && h.point == s.plotData[h.index]
    ensures h.Over? ==> h.point == ToPlotPoint(h.coordinate)
    ensures h.Over? ==>
      || IsInsertionPoint(s.plotData, q, h.index)
      || (h.index == |s.lines| - 1 && IsInsertionPoint(s.plotData, q, |s.lines|))
    ensures SortedByDistance(s.plotData) ==> h == PointerOver(s, q)
  {
    var b := BisectLeft(s.plotData, q);
    var index := MinInt(b, |s.plotData| - 1);
    if index < 0 {
      return NoHit;
    }
    h := Over(index, s.lines[index], s.plotData[index]);
  }

  // ---------------------------------------------------------------------------
  // Axis tick labels
  // ---------------------------------------------------------------------------

  /** The unit a tick label is formatted in. */
  datatype Unit = Meter | Kilometer

  /** A tick label before locale formatting: a unit and the amount shown in it. */
  datatype Tick = Tick(unit: Unit, amount: real)

  /** The length, in metres, that a tick label denotes. */
  function InMeters(t: Tick): real
  {
    match t.unit
    case Meter => t.amount
    case Kilometer => t.amount * 1000.0
  }

  /** The labels `tickFormat` can produce: below 1000 m, or at least 1 km. */
  predicate Normal(t: Tick)
  {
    match t.unit
    case Meter => t.amount < 1000.0
    case Kilometer => t.amount >= 1.0
  }

  /** `tickFormat`: metres for values below 1000, kilometres otherwise. */
  function TickFormat(value: real): (t: Tick)
    ensures t.unit == Meter <==> value < 1000.0
    ensures InMeters(t) == value
    ensures Normal(t)
    ensures value == 1000.0 ==> t == Tick(Kilometer, 1.0)
  {
    if value < 1000.0 then Tick(Meter, value) else Tick(Kilometer, value / 1000.0)
  }

  /** Every label of normal form is produced from the length it denotes. */
  lemma TickFormatInverse(t: Tick)
    requires Normal(t)
    ensures TickFormat(InMeters(t)) == t
  {
  }
}
