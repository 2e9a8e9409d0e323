/**
 The input samples of the elevation profile and the plot points derived from them.
 A coordinate is the 4-component array `[lon, lat, elevation, distance]`; a plot
 point is the pair `[distance, elevation]` that the chart draws (x first, y second).
 JavaScript numbers are modelled as (finite) reals.
 */
module PlotData {

  /** One element of the `lines` property: `[lon, lat, elevation, distance]`. */
  datatype Coordinate = Coordinate(lon: real, lat: real, elevation: real, distance: real)

  /** One element of `plotData`: `[distance, elevation]`. */
  datatype PlotPoint = PlotPoint(distance: real, elevation: real)

  /** The plot point of one coordinate: its distance and elevation, in that order. */
  function ToPlotPoint(c: Coordinate): PlotPoint
  {
    PlotPoint(c.distance, c.elevation)
  }

  /** The `lines.map(...)` projection: one plot point per coordinate, same order. */
  function Project(lines: seq<Coordinate>): (plot: seq<PlotPoint>)
    ensures |plot| == |lines|
    ensures forall i :: 0 <= i < |lines| ==>
      plot[i].distance == lines[i].distance && plot[i].elevation == lines[i].elevation
  {
    if |lines| == 0 then []
    else Project(lines[..|lines| - 1]) + [ToPlotPoint(lines[|lines| - 1])]
  }

  /** Projection is a map: it distributes over concatenation of the input. */
  lemma ProjectAppend(a: seq<Coordinate>, b: seq<Coordinate>)
    ensures Project(a + b) == Project(a) + Project(b)
  {
  }

  /** The x column of the plot: the value `data[0]` read by the x accessors. */
  function Distances(plot: seq<PlotPoint>): (xs: seq<real>)
    ensures |xs| == |plot|
    ensures forall i :: 0 <= i < |plot| ==> xs[i] == plot[i].distance
  {
    if |plot| == 0 then []
    else Distances(plot[..|plot| - 1]) + [plot[|plot| - 1].distance]
  }

  /** The y column of the plot: the value `data[1]` read by the y accessors. */
  function Elevations(plot: seq<PlotPoint>): (ys: seq<real>)
    ensures |ys| == |plot|
    ensures forall i :: 0 <= i < |plot| ==> ys[i] == plot[i].elevation
  {
    if |plot| == 0 then []
    else Elevations(plot[..|plot| - 1]) + [plot[|plot| - 1].elevation]
  }
}
