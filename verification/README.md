# elevation-profile — data core in Dafny

The `elevation-profile` custom element draws elevation against distance for a
sequence of GPS coordinates `[lon, lat, elevation, distance]` and reports which
sample lies under the pointer. Inside the Lit/d3 component sits a small, pure
data core, and that is what this project models:

- **Projection** (`willUpdate`): each coordinate becomes the plot point
  `[distance, elevation]`, same length, same order (`PlotData.Project`).
- **Domains** (`willUpdate`): d3 `extent` of the distance column and of the
  elevation column, undefined (`None`) on empty input (`Extents.Extent`, and the
  d3 scan `Extents.ExtentScan` proved equal to it).
- **Pointer resolution** (`pointerMove`): the leftmost insertion point of the
  pointer's distance found by d3's `bisector(p => p[0]).left`, clamped with
  `Math.min(…, length - 1)`; a negative index (no data) means no `over` event.
  `Bisect.LowerBound` is the functional specification, `Bisect.BisectLeft` the
  binary search, proved equal to it on ascending distances; without sorted input
  the search still returns an insertion point in the local sense.
- **Tick labels** (`tickFormat`): values below 1000 are shown in metres
  unchanged, the rest in kilometres as `value / 1000`.

JavaScript numbers are modelled as `real`; a coordinate is a datatype with four
named fields; the component's fields `lines`, `plotData` and the two scale
domains form an immutable `ElevationProfile.State`. The pointer distance is a
parameter: the x scale's `invert` that produces it is not modelled.

The component handles one sequence of coordinates (`lines: number[][]`). It
has no gap markers, labelled segment partitions or line simplification, so
pointer resolution never skips a sample.

Modules: `Wrappers` (Option), `PlotData` (coordinates, plot points, projection,
columns), `Extents` (d3 `extent`), `Bisect` (d3 `bisector.left`),
`ElevationProfile` (component state, `willUpdate`, `pointerMove`, `tickFormat`).

## Model

| member | source | states |
|---|---|---|
| PlotData.Project | elevation-profile.ts:52 | the plot data has one point per coordinate, and point `i` holds coordinate `i`'s distance first and elevation second |
| PlotData.ProjectAppend | elevation-profile.ts:52 | projecting a concatenation is concatenating the projections, so order is kept |
| PlotData.Distances | elevation-profile.ts:54 | the x accessor column: entry `i` is the distance of plot point `i` |
| PlotData.Elevations | elevation-profile.ts:55 | the y accessor column: entry `i` is the elevation of plot point `i` |
| Extents.Min | elevation-profile.ts:54-55 | the scan's minimum is one of the values and no value is below it |
| Extents.Max | elevation-profile.ts:54-55 | the scan's maximum is one of the values and no value is above it |
| Extents.Extent | elevation-profile.ts:54-55 | the extent is undefined exactly on empty input; otherwise `lo <= hi`, every value lies in `[lo, hi]`, and both ends are attained |
| Extents.ExtentUnique | elevation-profile.ts:54-55 | any domain that bounds every value and whose ends are attained is the extent |
| Extents.ExtentScan | elevation-profile.ts:54-55 | the d3 loop (first value sets both ends, later values lower `min` / raise `max`) computes the extent |
| Bisect.LowerBound | elevation-profile.ts:27 | the insertion point is in `[0, len]`, every entry before it has distance `< q`, the entry at it has distance `>= q`, and on sorted data so does every later entry |
| Bisect.LowerBoundUnique | elevation-profile.ts:27 | on ascending distances every insertion point equals the lower bound |
| Bisect.LowerBoundLeftmost | elevation-profile.ts:27 | the result lies at or before every entry whose distance equals `q`; on ascending distances it is such an entry, hence the leftmost one |
| Bisect.LowerBoundCountsBelow | elevation-profile.ts:27 | on ascending distances the insertion point equals the number of samples whose distance is below the query |
| Bisect.LowerBoundMonotone | elevation-profile.ts:136 | a larger query never gives a smaller insertion point |
| Bisect.BisectLeft | elevation-profile.ts:136 | the binary search returns an insertion point, and on ascending distances exactly the lower bound |
| ElevationProfile.WillUpdate | elevation-profile.ts:50-57 | nothing changes unless `lines` changed; then plot data and both domains are rebuilt from `lines`, with one point per coordinate and undefined domains exactly for empty lines |
| ElevationProfile.WillUpdateIdempotent | elevation-profile.ts:50-57 | a consistent state is a fixed point of the rebuild, so rebuilding twice equals rebuilding once |
| ElevationProfile.DomainsCoverSamples | elevation-profile.ts:52-55 | for non-empty lines both domains are ordered, contain every sample's distance or elevation, and both ends are attained by some sample |
| ElevationProfile.ExampleSingleLine | elevation-profile.ts:52-55 | three samples at distances 0, 5, 10 with elevations 10, 20, 15 give x domain `[0, 10]` and y domain `[10, 20]` |
| ElevationProfile.ResolveIndex | elevation-profile.ts:136 | the resolved index is `-1` for no data, otherwise in `[0, len-1]`; it is `0` for a query at or below the first distance and, on ascending distances, `len-1` past the last; it equals the program's index on ascending distances |
| ElevationProfile.ResolveIndexMonotone | elevation-profile.ts:136 | `q1 <= q2` implies `index(q1) <= index(q2)` |
| ElevationProfile.ResolveIndexTakesUpperNeighbour | elevation-profile.ts:136-145 | on ascending distances, a query strictly after `d[i-1]` and at most `d[i]` resolves to `i` even when nearer `d[i-1]`: no nearest-neighbour choice |
| ElevationProfile.ExampleNotNearest | elevation-profile.ts:141-145 | samples at 0 and 10 with the pointer at 1 resolve to the sample at 10 |
| ElevationProfile.PointerOver | elevation-profile.ts:134-162 | on ascending distances: no `over` event exactly when there is no data; otherwise the event names the resolved sample `ResolveIndex(plotData, q)`, the event's coordinate is `lines[index]` and it projects to exactly `plotData[index]` |
| ElevationProfile.PointerMove | elevation-profile.ts:134-162 | with d3's bisection: no hit exactly on empty data, the hit is an insertion point or the clamped last sample, its coordinate projects to its plot point, and on sorted distances it equals `PointerOver` |
| ElevationProfile.TickFormat | elevation-profile.ts:121-127 | the unit is metres exactly when the value is below 1000, the label denotes the original length, and 1000 becomes 1 km |
| ElevationProfile.TickFormatInverse | elevation-profile.ts:121-127 | every label in metres below 1000 or in kilometres from 1 upwards is what `tickFormat` produces for the length it denotes |

## Left out

- Rendering: the SVG template, d3-shape line and area paths, axes, grid ticks, clip path and visibility styling (elevation-profile.ts:63-119) are drawing over libraries outside this model.
- Scales: `scaleLinear` ranges, `scaleX(…)`, `scaleY(…)`, `scaleX.invert(…)` and the `.nice()` widening of the y domain are floating-point mapping inside d3; the pointer distance is an arbitrary input and `yDomain` is the extent before `.nice()`.
- The pointer's screen position (`this.pointer`) is not computed; the event carries the plot point that the scales would map to it.
- Locale formatting with `Intl.NumberFormat('de-CH', …)`: only the unit and the amount are modelled, not the string.
- DOM and lifecycle: `ResizeController`, `offsetWidth` / `offsetHeight`, `querySelector`, the forced update in `firstUpdated`, `CustomEvent` dispatch, `pointerOut` and `createRenderRoot` have no data content.
- NaN and `undefined`: d3's `extent` skipping null/NaN values and the bisector's early return for a NaN query are not modelled; all numbers are finite reals, and coordinates always have four components.
- `(lo + hi) >>> 1` in the bisection is modelled as `(lo + hi) / 2`, which agrees while `lo + hi < 2^32`, that is for every array length up to 2^31.
- The d3-array source itself is not part of this model; its `extent` and `bisector.left` are modelled after their loops.
- ElevationProfile.ResolveIndex: matches the index of `pointerMove` only on ascending distances, because it uses the lower bound (first index whose distance is `>= q`) where d3 bisects; on unsorted distances (for example `[5, 0, 0]` with `q = 1`) the two differ, and `ElevationProfile.PointerMove` is the model of the code as written there.
- ElevationProfile.PointerOver: matches `pointerMove` only on ascending distances, for the same reason as `ResolveIndex`.
- ElevationProfile.PointerOver and ElevationProfile.PointerMove: assume `plotData` was rebuilt from the current `lines`, that is `lines` is replaced and never mutated in place; after an in-place mutation the component would pair a stale plot point with a mismatched or `undefined` coordinate, which is not modelled.
