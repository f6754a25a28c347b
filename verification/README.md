# Antemeridian-aware bounding-box clipping

This project models the geographic bounding-box clipper of the Harmony GDAL
service example. The clipper takes a raster dataset's extent and a user's
subset request. The extent is a longitude range and a latitude range. The
request is a corner-form box `[minlon, minlat, maxlon, maxlat]`. The clipper
returns the corner-form boxes that make up the part of the request lying inside
the dataset. A range whose high end is below its low end wraps through the
antemeridian (180° / -180°). Such a range is split in two before it is
intersected, so one request can clip to two boxes that meet at the
antemeridian.

There are two copies of the algorithm:

- `harmony_service_example/geo.py` is the reference clipper. It is modelled
  in `geo.dfy` (module `Geo`).
- `harmony_gdal/geo.py` is an older copy. It splits ranges, pairs pieces and
  assembles boxes the same way, but its overlap test uses Python truthiness.
  It is modelled in `legacy_geo.dfy` (module `LegacyGeo`).

The steps the two files share are defined once, in `ranges.dfy` (module
`Ranges`):

- `Expand` splits a wrapping range.
- `Cross` is the nested list comprehension `[f(a, b) for a in xs for b in ys]`.
- `Present` is the `[i for i in intersections if i]` filter.
- `ClipAxes` assembles the boxes.

Coordinates are `real`. The clipper only compares coordinates and takes `max`
and `min` of them, so no rounding behaviour is lost. Python lists become
`seq`, kept in the order the comprehensions produce. An empty Python list
returned by `_range_intersection` becomes `None`. A request box is `Box`; the
dataset extent is `Bounds`.

Two predicates carry the meaning of the range encoding:

- `OnArc(r, c)` says which longitudes an encoded range stands for. A wrapping
  range covers `lo` up to 180 and then -180 up to `hi`.
- `SplitsCleanly(r)` holds when both pieces of the split are well formed. Every
  range inside [-180, 180] qualifies, and so does every range that does not
  wrap.

The main results:

- The clipped boxes cover exactly the points that lie on both the dataset
  extent and the request, as `OnArc` reads the encoding
  (`Geo.ClipBboxPoints`). For ends beyond ±180 this is not the modulo-360 arc:
  a dataset `[0, 360]` does not cover -5.
- Every box lies inside the dataset extent (`Geo.ClipBboxWithin`).
- For cleanly splitting inputs, clipping a clipped box again returns it
  unchanged (`Geo.ClipBboxReclip`).
- When the dataset and the request both lie in [-180, 180], both pass
  through the antemeridian and their latitudes overlap, the clip holds a box
  ending at 180 and a box starting at -180 with the same latitude span
  (`Geo.ClipBboxMeetsAtAntemeridian`). When either longitude range wraps these
  are two different boxes; a global request on a global dataset gives one box
  that is both.
- The 1-D intersection does not depend on argument order, as a list, for ranges
  that split cleanly (`Geo.LatlonIntersectionCommutes`).
- Every tabulated unit case in `harmony_service_example/tests/test_bbox.py`
  holds.

Facts about the code that the model makes explicit:

- Swapping the arguments of the 1-D intersection gives the same list in the
  same order whenever both inputs split cleanly, including when both wrap
  (harmony_service_example/tests/test_bbox.py:79 asserts this). The order can
  differ only for ranges that do not split cleanly, i.e. with an end beyond
  ±180 (`Geo.LatlonIntersectionOrderNeedsCleanSplit`).
- The split does not know which axis it is on, so a "wrapping" latitude pair
  gives two ranges (harmony_service_example/tests/test_bbox.py:76, `[-90, 90]`
  against `[45, -45]`).
- Requests may wrap, as `[170, 40, -170, 50]` does
  (harmony_service_example/tests/test_bbox.py:40); the model accepts any
  request.
- The docstrings (harmony_service_example/geo.py:21-24 and 51-55) speak of two
  pieces meeting at the antemeridian. When both ranges pass through it and one
  of them wraps, there are indeed two different ranges ending at 180 and
  starting at -180; two copies of `[-180, 180]` give a single range. The result can also hold three ranges (`[10, 5]` against `[3, 1]`,
  `Geo.LatlonIntersectionThreeRanges`), or two ranges that do not touch it
  (`[-170, 170]` against `[160, -160]`, `Geo.LatlonIntersectionTwoApart`).
  Either way the ranges jointly cover exactly the common points, as `OnArc`
  reads the encoding (`Geo.LatlonIntersectionPoints`).
- `harmony_gdal/geo.py` differs from `harmony_service_example/geo.py` only in
  its overlap test (harmony_gdal/geo.py:35-36).

## Model

| member | source | states |
|---|---|---|
| Ranges.Expand | harmony_service_example/geo.py:58-67 | A range with `hi < lo` becomes two pieces: `[lo, 180]` first, then `[-180, hi]`. The two pieces share no point and meet at the antemeridian. Any other range is its own single piece. When the range splits cleanly every piece is well formed; otherwise one piece is not. |
| Ranges.ExpandCovers | harmony_gdal/geo.py:20-26 | The legacy file writes the same split (shared here with the reference). The pieces together contain exactly the points of the encoded range. |
| Ranges.Present | harmony_service_example/geo.py:70 | The filter keeps exactly the values of the non-empty intersections, and is no longer than its input. |
| Ranges.PresentAppend | harmony_service_example/geo.py:70 | The filter keeps input order: filtering a concatenation gives the concatenation of the filtered parts. |
| Ranges.Cross | harmony_service_example/geo.py:69 | The nested comprehension yields one entry per pair: `|xs| * |ys|` entries. |
| Ranges.CrossAt | harmony_service_example/geo.py:69 | The entry for pair (i, j) sits at position `i * |ys| + j`: pieces of the first list form the outer loop, pieces of the second the inner loop. |
| Ranges.CrossFrom | harmony_service_example/geo.py:69 | Every entry of the comprehension is the result of some pair. |
| Ranges.ClipAxes | harmony_service_example/geo.py:31-35 | The box list is empty when either axis list is empty; otherwise it has one box per (longitude, latitude) pair. |
| Ranges.ClipAxesAt | harmony_service_example/geo.py:34-35 | Box `i * |ys| + j` is `[xs[i].lo, ys[j].lo, xs[i].hi, ys[j].hi]`: corner form, longitude pieces outer. |
| Geo.RangeIntersection | harmony_service_example/geo.py:73-94 | For any two ranges: a reported overlap lies inside both and contains exactly their common points. When nothing is reported, the ranges share no point. Well-formed inputs give a well-formed overlap. |
| Geo.RangeIntersectionSymmetric | harmony_service_example/geo.py:88-92 | The endpoint test and the result do not depend on argument order. |
| Geo.RangeIntersectionOverlap | harmony_service_example/geo.py:88-94 | For well-formed ranges an overlap is reported exactly when `a.lo <= b.hi` and `b.lo <= a.hi`, and it is `[max(a.lo, b.lo), min(a.hi, b.hi)]`. |
| Geo.RangeIntersectionTable | harmony_service_example/tests/test_bbox.py:81-87 | The tabulated range-overlap cases hold in both argument orders. |
| Geo.LatlonIntersection | harmony_service_example/geo.py:38-70 | The result has at most `|Expand(x)| * |Expand(y)|` ranges. A range is in the result exactly when it is the overlap of some piece of `x` with some piece of `y`. |
| Geo.LatlonIntersectionWithin | harmony_service_example/geo.py:51-52 | Each result range lies inside a piece of each input. It is well formed when both inputs split cleanly. |
| Geo.LatlonIntersectionCases | harmony_service_example/geo.py:64-70 | The result equals an independent, hand-written enumeration of the piece pairs in loop order, for each of the four wrap combinations. |
| Geo.LatlonIntersectionPoints | harmony_service_example/geo.py:38-56 | A point lies in some result range exactly when it lies on both encoded ranges, for all inputs: the union of the result is the intersection as `OnArc` reads the encoding. For ends beyond ±180 that is not the modulo-360 arc (`[0, 360]` against `[-10, 10]` gives `[0, 10]`, not -10 to 10). |
| Geo.LatlonIntersectionSize | harmony_service_example/geo.py:69-70 | At most one range when neither input wraps, two when one wraps, four in general. |
| Geo.LatlonIntersectionCommutes | harmony_service_example/tests/test_bbox.py:78-79 | When both inputs split cleanly, swapping them gives the same list in the same order, including when both wrap. |
| Geo.LatlonIntersectionPermutes | harmony_service_example/geo.py:69-70 | For all inputs, swapping them gives the same ranges with the same multiplicities. |
| Geo.LatlonIntersectionOrderNeedsCleanSplit | harmony_service_example/geo.py:69-70 | Two wrapping ranges with high ends at or beyond 180 and different low ends (e.g. `[300, 200]` and `[400, 190]`) give lists in different orders when swapped. |
| Geo.LatlonIntersectionMeetsAtAntemeridian | harmony_service_example/geo.py:51-55 | When both ranges have their ends in [-180, 180] and both pass through 180 and -180, some output range ends at 180 and some output range starts at -180. When either input wraps, no output range is `[-180, 180]`, so these are two different ranges. |
| Geo.LatlonIntersectionThreeRanges | harmony_service_example/geo.py:51-55 | Two wrapping ranges with `y.hi < y.lo <= x.hi < x.lo`, all in [-180, 180], give three ranges: `[x.lo, 180]`, `[y.lo, x.hi]`, `[-180, y.hi]`. "Two ranges" is no upper bound. |
| Geo.LatlonIntersectionTwoApart | harmony_service_example/geo.py:51-55 | A range strictly inside (-180, 180) that overlaps both ends of a wrapping range gives two ranges, `[y.lo, x.hi]` and `[x.lo, y.hi]`, neither of which touches the antemeridian. |
| Geo.LatlonIntersectionTable | harmony_service_example/tests/test_bbox.py:64-79 | All twelve tabulated wrapping-overlap cases hold in both argument orders. This includes the both-wrapping case `[[175, 180], [-180, -175]]` and the split latitude pair. |
| Geo.ClipBbox | harmony_service_example/geo.py:1-35 | No boxes when either axis has no overlap; otherwise one box per pair of longitude overlap and latitude overlap. |
| Geo.ClipBboxOrder | harmony_service_example/geo.py:26-35 | Box `i * |Y| + j` is `[X[i].lo, Y[j].lo, X[i].hi, Y[j].hi]` for the longitude overlaps `X` and latitude overlaps `Y`. |
| Geo.ClipBboxWithin | harmony_service_example/geo.py:18-24 | Every box lies inside a piece of the dataset extent and a piece of the request on both axes ("no larger than the dataset bounds"). It does not wrap when the inputs split cleanly. |
| Geo.ClipBboxPoints | harmony_service_example/geo.py:18-24 | A point lies in some box exactly when its longitude is on both longitude ranges and its latitude on both latitude ranges. The boxes jointly cover the intersection, as `OnArc` reads the encoding. |
| Geo.ClipBboxMeetsAtAntemeridian | harmony_service_example/geo.py:20-24 | When the dataset's and the request's longitude ranges have their ends in [-180, 180] and both pass through the antemeridian, and the latitudes overlap, the clip holds a box ending at 180 and a box starting at -180 with the same latitude span. When either longitude range wraps, they are two different boxes. |
| Geo.ClipBboxEmpty | harmony_service_example/geo.py:20-32 | With cleanly splitting inputs, the clip is empty exactly when request and dataset share no longitude or share no latitude. |
| Geo.ClipBboxContainsBounds | harmony_service_example/tests/test_bbox.py:6-17 | A request covering non-wrapping dataset bounds clips to exactly the bounds. A request equal to the bounds clips to itself. |
| Geo.LatlonIntersectionOfPiece | harmony_service_example/geo.py:64-70 | A well-formed range inside one piece of a cleanly splitting range overlaps it in exactly itself. |
| Geo.ClipBboxReclip | harmony_service_example/geo.py:18-24 | Clipping any clipped box again against the same bounds returns that box alone. |
| Geo.ClipBboxTable | harmony_service_example/tests/test_bbox.py:6-37 | The tabulated identical, larger, disjoint and partially overlapping requests clip as the tests expect. |
| Geo.ClipBboxAntemeridianTable | harmony_service_example/tests/test_bbox.py:39-62 | The tabulated requests against a straddling dataset give two boxes meeting at the antemeridian. Those against datasets just east or west of it give one box. |
| LegacyGeo.RangeIntersection | harmony_gdal/geo.py:32-39 | Whatever the legacy test reports is exactly the reference overlap. For well-formed ranges whose low ends are non-zero, it reports exactly what the reference reports. |
| LegacyGeo.RangeIntersectionSymmetric | harmony_gdal/geo.py:35-36 | The truthiness-based test and its result do not depend on argument order. |
| LegacyGeo.ZeroLowEndpointMissesOverlap | harmony_gdal/geo.py:33-37 | A range starting at 0 is tested by its high end only. `[0, 10]` against `[-5, 5]`-like ranges reports nothing, though the reference finds `[0, b.hi]`. |
| LegacyGeo.LatlonIntersection | harmony_gdal/geo.py:16-29 | At most one range per piece pair. Every range it reports is also in the reference result. |
| LegacyGeo.LatlonIntersectionSound | harmony_gdal/geo.py:16-29 | Every point the legacy result covers lies on both inputs: it never over-reports. |
| LegacyGeo.LatlonIntersectionAgrees | harmony_gdal/geo.py:28-29 | For cleanly splitting inputs with non-zero low ends, the legacy result equals the reference result, order included. |
| LegacyGeo.ClipBbox | harmony_gdal/geo.py:1-13 | No boxes when either axis list is empty. Every box it returns is also returned by the reference clipper. |
| LegacyGeo.ClipBboxAgrees | harmony_gdal/geo.py:9-13 | With cleanly splitting inputs and non-zero `minlon`, `minlat` and dataset low ends, both clippers return the same list. |
| LegacyGeo.ClipBboxMissesOverlap | harmony_gdal/geo.py:4-13 | Dataset `([0, 10], [40, 45])` and request `[-5, 40, 5, 45]`: the legacy clipper returns no box, the reference returns `[0, 40, 5, 45]`. |

## Left out

- The processing pipelines in `harmony_gdal.py`, `harmony_gdal/transform.py` and `harmony_service_example/transform.py` are not modelled. They download granules, run `gdal_translate`, `gdalwarp` and `gdal_merge.py` as subprocesses, stage files and send callbacks.
- Dataset bounds come from a GDAL geotransform with floating-point multiply-add (`_dataset_bounds`, harmony_service_example/transform.py:150-166). The clipper takes them as given input.
- The `-projwin` command assembly (harmony_service_example/transform.py:133-138) is command-line plumbing. Note that `command = command + [...]` there accumulates the arguments of every earlier box into each later command.
- The MIME lookup tables are not modelled. Their PNG and GIF entries are swapped (harmony_gdal.py:51-55).
- Network and S3 downloads in `harmony_gdal/util/data_transfer.py` are not modelled. Note that `_is_networking_setup` is assigned at line 95 without a `global` declaration. That makes the name local to the whole of `_setup_networking`, so the test at line 81 raises `UnboundLocalError` on every call, and every HTTP download fails at line 130.
- Command-line and JSON entry points (`harmony_gdal/cli/`, `harmony_service_example/__main__.py`) are not modelled.
- `harmony_gdal/tests/test_bbox.py` expects a bare box where `harmony_gdal/geo.py:12-13` returns a list of boxes. The model follows the code, not those tests.
- Floating point is modelled as `real`. NaN is ignored. Python treats `-0.0` as falsy like `0.0`, and `Pick` agrees because the two are equal as reals.
- Geo.LatlonIntersectionCommutes: requires both inputs to split cleanly. Without that the list order can differ, as `Geo.LatlonIntersectionOrderNeedsCleanSplit` shows. The source's tabulated cases all split cleanly.
- Geo.ClipBboxEmpty: requires cleanly splitting inputs. A wrapping range with an end beyond ±180 yields ill-formed pieces that can produce an overlap containing no point.
- Geo.ClipBboxReclip: requires cleanly splitting inputs, for the same reason.

## Findings

| source | as written | input that shows it | evidently intended | confidence | as-written member | corrected member |
|---|---|---|---|---|---|---|
| harmony_gdal/geo.py:35-36 | Overlap is tested only by whether `(a[0] or a[1])` lies in `b` or `(b[0] or b[1])` lies in `a`. A range whose low end is 0 is therefore tested by its high end alone. | `a = [0, 10]`, `b = [-5, 5]`. As a clip: dataset `([0, 10], [40, 45])`, request `[-5, 40, 5, 45]`. | Report the overlap of any two intersecting ranges, as the docstring "whether two numeric ranges intersect" says: here `[0, 5]`. | high; not executed | LegacyGeo.ZeroLowEndpointMissesOverlap | Geo.RangeIntersectionOverlap |
