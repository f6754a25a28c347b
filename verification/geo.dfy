/**
 The reference bounding-box clipper: overlap of two closed ranges, overlap of
 two possibly wrapping ranges split at the antemeridian, and the clip of a
 corner-form request box against a dataset's extent.
 */
module Geo {
  import opened Ranges

  /** The overlap of two closed ranges, or None when no endpoint of either
      lies in the other. */
  function RangeIntersection(a: Range, b: Range): (r: Option<Range>)
    ensures r.Some? ==> Within(r.value, a) && Within(r.value, b)
    ensures r.Some? ==> forall c :: Contains(r.value, c) <==> Contains(a, c) && Contains(b, c)
    ensures r.None? ==> forall c :: !(Contains(a, c) && Contains(b, c))
    ensures r.Some? && WellFormed(a) && WellFormed(b) ==> WellFormed(r.value)
  {
    if Contains(b, a.lo) || Contains(b, a.hi) || Contains(a, b.lo) || Contains(a, b.hi) then
      Some(Range(Max(a.lo, b.lo), Min(a.hi, b.hi)))
    else
      None
  }

  lemma RangeIntersectionSymmetric(a: Range, b: Range)
    ensures RangeIntersection(a, b) == RangeIntersection(b, a)
  {}

  /** For well-formed ranges the endpoint test is the usual overlap test, and
      the overlap is the span between the larger low end and the smaller high end. */
  lemma RangeIntersectionOverlap(a: Range, b: Range)
    requires WellFormed(a) && WellFormed(b)
    ensures RangeIntersection(a, b).Some? <==> a.lo <= b.hi && b.lo <= a.hi
    ensures RangeIntersection(a, b).Some? ==>
              RangeIntersection(a, b).value == Range(Max(a.lo, b.lo), Min(a.hi, b.hi))
  {}

  /** `v` is the overlap of some piece of `x` with some piece of `y`. */
  ghost predicate FromPiecePair(v: Range, x: Range, y: Range) {
    exists i, j :: 0 <= i < |Expand(x)| && 0 <= j < |Expand(y)| &&
      RangeIntersection(Expand(x)[i], Expand(y)[j]) == Some(v)
  }

  /** The overlaps of every piece of `x` with every piece of `y` (pieces of
      `x` outer), with the empty ones dropped. */
  function LatlonIntersection(x: Range, y: Range): (r: seq<Range>)
    ensures |r| <= |Expand(x)| * |Expand(y)|
    ensures forall v :: v in r <==> FromPiecePair(v, x, y)
  {
    var r := Present(Cross(Expand(x), Expand(y), RangeIntersection));
    assert forall v :: v in r <==> FromPiecePair(v, x, y) by {
      forall v {
        PresentCrossMembers(Expand(x), Expand(y), RangeIntersection, v);
      }
    }
    r
  }

  /** Each output range lies inside a piece of each input, and is well formed
      when the inputs split into well-formed pieces. */
  lemma LatlonIntersectionWithin(x: Range, y: Range, k: int)
    requires 0 <= k < |LatlonIntersection(x, y)|
    ensures var v := LatlonIntersection(x, y)[k];
      && (exists i :: 0 <= i < |Expand(x)| && Within(v, Expand(x)[i]))
      && (exists j :: 0 <= j < |Expand(y)| && Within(v, Expand(y)[j]))
      && (SplitsCleanly(x) && SplitsCleanly(y) ==> WellFormed(v))
  {
    var v := LatlonIntersection(x, y)[k];
    assert v in LatlonIntersection(x, y);
    var i, j :| 0 <= i < |Expand(x)| && 0 <= j < |Expand(y)| &&
      RangeIntersection(Expand(x)[i], Expand(y)[j]) == Some(v);
    assert Within(v, Expand(x)[i]) && Within(v, Expand(y)[j]);
  }

  /** The overlap written out by hand for each combination of wrapping
      inputs, in the order the nested comprehension visits the piece pairs. */
  function ExplicitIntersection(x: Range, y: Range): seq<Range> {
    var X, Y := Expand(x), Expand(y);
    if !Wraps(x) && !Wraps(y) then
      Listed(RangeIntersection(x, y))
    else if !Wraps(x) then
      Listed(RangeIntersection(x, Y[0])) + Listed(RangeIntersection(x, Y[1]))
    else if !Wraps(y) then
      Listed(RangeIntersection(X[0], y)) + Listed(RangeIntersection(X[1], y))
    else
      Listed(RangeIntersection(X[0], Y[0])) + Listed(RangeIntersection(X[0], Y[1])) +
      Listed(RangeIntersection(X[1], Y[0])) + Listed(RangeIntersection(X[1], Y[1]))
  }

  lemma LatlonIntersectionCases(x: Range, y: Range)
    ensures LatlonIntersection(x, y) == ExplicitIntersection(x, y)
  {
    var X, Y := Expand(x), Expand(y);
    var f := RangeIntersection;
    CrossSmall(X, Y, f);
    if !Wraps(x) && !Wraps(y) {
      PresentOne(f(X[0], Y[0]));
    } else if !Wraps(x) {
      PresentTwo(f(X[0], Y[0]), f(X[0], Y[1]));
    } else if !Wraps(y) {
      PresentTwo(f(X[0], Y[0]), f(X[1], Y[0]));
    } else {
      PresentFour(f(X[0], Y[0]), f(X[0], Y[1]), f(X[1], Y[0]), f(X[1], Y[1]));
    }
  }

  /** A point lies in some output range exactly when it lies on both encoded
      ranges: the output covers the intersection, as `OnArc` reads the
      encoding, and nothing more. */
  lemma LatlonIntersectionPoints(x: Range, y: Range, c: real)
    ensures Covered(LatlonIntersection(x, y), c) <==> OnArc(x, c) && OnArc(y, c)
  {
    ExpandCovers(x, c);
    ExpandCovers(y, c);
    if Covered(LatlonIntersection(x, y), c) {
      CoveredOnlyByPieces(x, y, c);
    }
    if Covered(Expand(x), c) && Covered(Expand(y), c) {
      PiecesCovered(x, y, c);
    }
  }

  lemma CoveredOnlyByPieces(x: Range, y: Range, c: real)
    requires Covered(LatlonIntersection(x, y), c)
    ensures Covered(Expand(x), c) && Covered(Expand(y), c)
  {
    var r, X, Y := LatlonIntersection(x, y), Expand(x), Expand(y);
    var k :| 0 <= k < |r| && Contains(r[k], c);
    assert r[k] in r;
    var i, j :| 0 <= i < |X| && 0 <= j < |Y| && RangeIntersection(X[i], Y[j]) == Some(r[k]);
    assert Contains(X[i], c) && Contains(Y[j], c);
  }

  lemma PiecesCovered(x: Range, y: Range, c: real)
    requires Covered(Expand(x), c) && Covered(Expand(y), c)
    ensures Covered(LatlonIntersection(x, y), c)
  {
    var r, X, Y := LatlonIntersection(x, y), Expand(x), Expand(y);
    var i :| 0 <= i < |X| && Contains(X[i], c);
    var j :| 0 <= j < |Y| && Contains(Y[j], c);
    var v := RangeIntersection(X[i], Y[j]).value;
    assert FromPiecePair(v, x, y);
    assert v in r;
    var k :| 0 <= k < |r| && r[k] == v;
    assert Contains(r[k], c);
  }

  /** The result has at most one range per piece pair: one when neither input
      wraps, two when one does, four in general. */
  lemma LatlonIntersectionSize(x: Range, y: Range)
    ensures |LatlonIntersection(x, y)| <= (if Wraps(x) then 2 else 1) * (if Wraps(y) then 2 else 1)
    ensures !Wraps(x) && !Wraps(y) ==> |LatlonIntersection(x, y)| <= 1
  {}

  /** Swapping the arguments gives the same list, in the same order, as long
      as both wrapping inputs split into well-formed pieces. */
  lemma LatlonIntersectionCommutes(x: Range, y: Range)
    requires SplitsCleanly(x) && SplitsCleanly(y)
    ensures LatlonIntersection(x, y) == LatlonIntersection(y, x)
  {
    LatlonIntersectionCases(x, y);
    LatlonIntersectionCases(y, x);
    ExplicitIntersectionCommutes(x, y);
  }

  lemma ExplicitIntersectionCommutes(x: Range, y: Range)
    requires !(Wraps(x) && Wraps(y)) || (SplitsCleanly(x) && SplitsCleanly(y))
    ensures ExplicitIntersection(x, y) == ExplicitIntersection(y, x)
  {
    var X, Y := Expand(x), Expand(y);
    if !Wraps(x) && !Wraps(y) {
      RangeIntersectionSymmetric(x, y);
    } else if !Wraps(x) {
      RangeIntersectionSymmetric(x, Y[0]);
      RangeIntersectionSymmetric(x, Y[1]);
    } else if !Wraps(y) {
      RangeIntersectionSymmetric(X[0], y);
      RangeIntersectionSymmetric(X[1], y);
    } else {
      RangeIntersectionSymmetric(X[0], Y[0]);
      RangeIntersectionSymmetric(X[0], Y[1]);
      RangeIntersectionSymmetric(X[1], Y[0]);
      RangeIntersectionSymmetric(X[1], Y[1]);
      // of the two mixed pairs at most one overlaps, so their order is moot
      RangeIntersectionOverlap(X[0], Y[1]);
      RangeIntersectionOverlap(X[1], Y[0]);
      assert RangeIntersection(X[0], Y[1]).None? || RangeIntersection(X[1], Y[0]).None?;
    }
  }

  /** Swapping the arguments always gives the same ranges with the same
      multiplicities, whatever the inputs. */
  lemma LatlonIntersectionPermutes(x: Range, y: Range)
    ensures multiset(LatlonIntersection(x, y)) == multiset(LatlonIntersection(y, x))
  {
    LatlonIntersectionCases(x, y);
    LatlonIntersectionCases(y, x);
    var X, Y := Expand(x), Expand(y);
    if Wraps(x) && Wraps(y) {
      RangeIntersectionSymmetric(X[0], Y[0]);
      RangeIntersectionSymmetric(X[0], Y[1]);
      RangeIntersectionSymmetric(X[1], Y[0]);
      RangeIntersectionSymmetric(X[1], Y[1]);
    } else {
      ExplicitIntersectionCommutes(x, y);
    }
  }

  /** Without well-formed pieces the order does depend on the argument order:
      when both ranges wrap with their high ends past the antemeridian (say
      [300, 200] and [400, 190]), both mixed pairs overlap, and they come out
      in opposite orders. */
  lemma LatlonIntersectionOrderNeedsCleanSplit(x: Range, y: Range)
    requires 180.0 <= x.hi < x.lo && 180.0 <= y.hi < y.lo && x.lo != y.lo
    ensures !SplitsCleanly(x) && !SplitsCleanly(y)
    ensures LatlonIntersection(x, y) != LatlonIntersection(y, x)
  {
    var p, q, s := Range(x.lo, 180.0), Range(y.lo, 180.0), Range(-180.0, Min(x.hi, y.hi));
    PastAntemeridian(x, y, p, q, s);
    PastAntemeridian(y, x, q, p, Range(-180.0, Min(y.hi, x.hi)));
    assert LatlonIntersection(x, y)[0] != LatlonIntersection(y, x)[0];
  }

  lemma PastAntemeridian(x: Range, y: Range, p: Range, q: Range, s: Range)
    requires 180.0 <= x.hi < x.lo && 180.0 <= y.hi < y.lo
    requires p == Range(x.lo, 180.0) && q == Range(y.lo, 180.0) && s == Range(-180.0, Min(x.hi, y.hi))
    ensures LatlonIntersection(x, y) == [p, q, s]
  {
    var X, Y := Expand(x), Expand(y);
    assert RangeIntersection(X[0], Y[0]) == None;
    assert RangeIntersection(X[0], Y[1]) == Some(p);
    assert RangeIntersection(X[1], Y[0]) == Some(q);
    assert RangeIntersection(X[1], Y[1]) == Some(s);
    assert ExplicitIntersection(x, y) == [] + [p] + [q] + [s];
    LatlonIntersectionCases(x, y);
  }

  /** When both ranges lie on the globe and both pass through the
      antemeridian, some output range ends at 180 and some output range starts
      at -180. When either input wraps, no output range spans the whole globe,
      so these are two different ranges meeting at the antemeridian; for two
      copies of [-180, 180] they are the same single range. */
  lemma LatlonIntersectionMeetsAtAntemeridian(x: Range, y: Range)
    requires OnGlobe(x) && OnGlobe(y)
    requires OnArc(x, East) && OnArc(x, West) && OnArc(y, East) && OnArc(y, West)
    ensures exists k :: 0 <= k < |LatlonIntersection(x, y)| && LatlonIntersection(x, y)[k].hi == East
    ensures exists k :: 0 <= k < |LatlonIntersection(x, y)| && LatlonIntersection(x, y)[k].lo == West
    ensures Wraps(x) || Wraps(y) ==>
      forall k :: 0 <= k < |LatlonIntersection(x, y)| ==> LatlonIntersection(x, y)[k] != Range(West, East)
  {
    var r := LatlonIntersection(x, y);
    forall k | 0 <= k < |r| && (Wraps(x) || Wraps(y)) ensures r[k] != Range(West, East) {
      LatlonIntersectionWithin(x, y, k);
    }
    LatlonIntersectionPoints(x, y, East);
    LatlonIntersectionPoints(x, y, West);
    var k :| 0 <= k < |r| && Contains(r[k], East);
    LatlonIntersectionWithin(x, y, k);
    var m :| 0 <= m < |r| && Contains(r[m], West);
    LatlonIntersectionWithin(x, y, m);
  }

  /** Two wrapping ranges on the globe can also overlap away from the
      antemeridian, so "two ranges" is no upper bound even for clean inputs:
      [10, 5] and [3, 1] give [10, 180], [3, 5] and [-180, 1]. */
  lemma LatlonIntersectionThreeRanges(x: Range, y: Range)
    requires West <= y.hi < y.lo <= x.hi < x.lo <= East
    ensures LatlonIntersection(x, y) == [Range(x.lo, East), Range(y.lo, x.hi), Range(West, y.hi)]
  {
    var X, Y := Expand(x), Expand(y);
    var p, q, s := Range(x.lo, East), Range(y.lo, x.hi), Range(West, y.hi);
    assert RangeIntersection(X[0], Y[0]) == Some(p);
    assert RangeIntersection(X[0], Y[1]) == None;
    assert RangeIntersection(X[1], Y[0]) == Some(q);
    assert RangeIntersection(X[1], Y[1]) == Some(s);
    assert ExplicitIntersection(x, y) == [p] + [] + [q] + [s];
    LatlonIntersectionCases(x, y);
  }

  /** Two ranges can come out even when neither touches the antemeridian: a
      range inside (-180, 180) overlapping both ends of a wrapping range, as
      [-170, 170] against [160, -160] gives [160, 170] and [-170, -160]. */
  lemma LatlonIntersectionTwoApart(x: Range, y: Range)
    requires West < x.lo <= y.hi < y.lo <= x.hi < East
    ensures LatlonIntersection(x, y) == [Range(y.lo, x.hi), Range(x.lo, y.hi)]
    ensures forall k :: 0 <= k < |LatlonIntersection(x, y)| ==>
      !Contains(LatlonIntersection(x, y)[k], East) && !Contains(LatlonIntersection(x, y)[k], West)
  {
    var Y := Expand(y);
    var p, q := Range(y.lo, x.hi), Range(x.lo, y.hi);
    assert RangeIntersection(x, Y[0]) == Some(p);
    assert RangeIntersection(x, Y[1]) == Some(q);
    assert ExplicitIntersection(x, y) == [p] + [q];
    LatlonIntersectionCases(x, y);
  }

  /** The tabulated unit cases for the range overlap, in both argument orders. */
  lemma RangeIntersectionTable()
    ensures RangeIntersection(Range(0.0, 1.0), Range(2.0, 3.0)) == None
    ensures RangeIntersection(Range(2.0, 3.0), Range(0.0, 1.0)) == None
    ensures RangeIntersection(Range(-10.0, 10.0), Range(2.0, 3.0)) == Some(Range(2.0, 3.0))
    ensures RangeIntersection(Range(2.0, 3.0), Range(-10.0, 10.0)) == Some(Range(2.0, 3.0))
    ensures RangeIntersection(Range(-10.0, 5.0), Range(-5.0, 10.0)) == Some(Range(-5.0, 5.0))
    ensures RangeIntersection(Range(-5.0, 10.0), Range(-10.0, 5.0)) == Some(Range(-5.0, 5.0))
  {}

  /** `LatlonIntersection(a, b)` and `LatlonIntersection(b, a)` are both `e`. */
  ghost predicate BothOrders(a: Range, b: Range, e: seq<Range>) {
    LatlonIntersection(a, b) == e && LatlonIntersection(b, a) == e
  }

  lemma TableRow(a: Range, b: Range, e: seq<Range>)
    requires SplitsCleanly(a) && SplitsCleanly(b)
    requires ExplicitIntersection(a, b) == e
    ensures BothOrders(a, b, e)
  {
    LatlonIntersectionCases(a, b);
    LatlonIntersectionCommutes(a, b);
  }

  const LatlonCases: seq<(Range, Range, seq<Range>)> := [
    (Range(0.0, 1.0), Range(2.0, 3.0), []),
    (Range(0.0, 1.0), Range(0.0, 1.0), [Range(0.0, 1.0)]),
    (Range(0.0, 1.0), Range(0.0, 5.0), [Range(0.0, 1.0)]),
    (Range(0.0, 2.0), Range(1.0, 3.0), [Range(1.0, 2.0)]),
    (Range(1.0, 2.0), Range(0.0, 3.0), [Range(1.0, 2.0)]),
    (Range(1.0, 5.0), Range(170.0, 10.0), [Range(1.0, 5.0)]),
    (Range(-180.0, 0.0), Range(170.0, 0.0), [Range(-180.0, 0.0)]),
    (Range(0.0, 175.0), Range(170.0, -170.0), [Range(170.0, 175.0)]),
    (Range(170.0, -170.0), Range(175.0, -175.0), [Range(175.0, 180.0), Range(-180.0, -175.0)]),
    (Range(170.0, -170.0), Range(175.0, 179.0), [Range(175.0, 179.0)]),
    (Range(170.0, -170.0), Range(-179.0, -175.0), [Range(-179.0, -175.0)]),
    (Range(-90.0, 90.0), Range(45.0, -45.0), [Range(45.0, 90.0), Range(-90.0, -45.0)])
  ]

  lemma LatlonIntersectionTable()
    ensures forall k :: 0 <= k < |LatlonCases| ==> BothOrders(LatlonCases[k].0, LatlonCases[k].1, LatlonCases[k].2)
  {
    forall k | 0 <= k < |LatlonCases|
      ensures BothOrders(LatlonCases[k].0, LatlonCases[k].1, LatlonCases[k].2)
    {
      var c := LatlonCases[k];
      TableRow(c.0, c.1, c.2);
    }
  }

  /** The overlaps of the request's longitude span with the dataset's. */
  function LonHits(bounds: Bounds, bbox: Box): seq<Range> {
    LatlonIntersection(bounds.x, LonRange(bbox))
  }

  /** The overlaps of the request's latitude span with the dataset's. */
  function LatHits(bounds: Bounds, bbox: Box): seq<Range> {
    LatlonIntersection(bounds.y, LatRange(bbox))
  }

  /** Clips a corner-form request box to the dataset's extent: one box per
      pair of a longitude overlap and a latitude overlap. */
  function ClipBbox(bounds: Bounds, bbox: Box): (r: seq<Box>)
    ensures LonHits(bounds, bbox) == [] || LatHits(bounds, bbox) == [] ==> r == []
    ensures |r| == |LonHits(bounds, bbox)| * |LatHits(bounds, bbox)|
  {
    ClipAxes(LonHits(bounds, bbox), LatHits(bounds, bbox))
  }

  /** Boxes come longitude overlap first, latitude overlap second: overlap
      pair (i, j) gives box i * |LatHits| + j. */
  lemma ClipBboxOrder(bounds: Bounds, bbox: Box, i: int, j: int)
    requires 0 <= i < |LonHits(bounds, bbox)| && 0 <= j < |LatHits(bounds, bbox)|
    ensures var X, Y, k := LonHits(bounds, bbox), LatHits(bounds, bbox), i * |LatHits(bounds, bbox)| + j;
      && 0 <= k < |ClipBbox(bounds, bbox)|
      && ClipBbox(bounds, bbox)[k] == Box(X[i].lo, Y[j].lo, X[i].hi, Y[j].hi)
  {
    ClipAxesAt(LonHits(bounds, bbox), LatHits(bounds, bbox), i, j);
  }

  /** Every box lies inside a piece of the dataset's extent and inside a piece
      of the request on both axes ("no larger than the dataset bounds"), and
      does not wrap when the inputs split cleanly. */
  lemma ClipBboxWithin(bounds: Bounds, bbox: Box, k: int)
    requires 0 <= k < |ClipBbox(bounds, bbox)|
    ensures var b := ClipBbox(bounds, bbox)[k];
      && (exists i :: 0 <= i < |Expand(bounds.x)| && Within(LonRange(b), Expand(bounds.x)[i]))
      && (exists i :: 0 <= i < |Expand(LonRange(bbox))| && Within(LonRange(b), Expand(LonRange(bbox))[i]))
      && (exists j :: 0 <= j < |Expand(bounds.y)| && Within(LatRange(b), Expand(bounds.y)[j]))
      && (exists j :: 0 <= j < |Expand(LatRange(bbox))| && Within(LatRange(b), Expand(LatRange(bbox))[j]))
      && (SplitsCleanly(bounds.x) && SplitsCleanly(LonRange(bbox)) ==> b.minx <= b.maxx)
      && (SplitsCleanly(bounds.y) && SplitsCleanly(LatRange(bbox)) ==> b.miny <= b.maxy)
  {
    var X, Y := LonHits(bounds, bbox), LatHits(bounds, bbox);
    ClipAxesFrom(X, Y, k);
    var i, j :| 0 <= i < |X| && 0 <= j < |Y| && ClipBbox(bounds, bbox)[k] == Corners(X[i], Y[j]);
    LatlonIntersectionWithin(bounds.x, LonRange(bbox), i);
    LatlonIntersectionWithin(bounds.y, LatRange(bbox), j);
  }

  /** The boxes cover exactly the points that lie on the dataset's extent and
      on the request, on both axes: their union is the intersection, as `OnArc`
      reads the encoding. */
  lemma ClipBboxPoints(bounds: Bounds, bbox: Box, lon: real, lat: real)
    ensures (exists k :: 0 <= k < |ClipBbox(bounds, bbox)| && InBox(ClipBbox(bounds, bbox)[k], lon, lat))
        <==> OnArc(bounds.x, lon) && OnArc(LonRange(bbox), lon) && OnArc(bounds.y, lat) && OnArc(LatRange(bbox), lat)
  {
    LatlonIntersectionPoints(bounds.x, LonRange(bbox), lon);
    LatlonIntersectionPoints(bounds.y, LatRange(bbox), lat);
    assert ClipBbox(bounds, bbox) == ClipAxes(LonHits(bounds, bbox), LatHits(bounds, bbox));
    BoxesCoverHits(LonHits(bounds, bbox), LatHits(bounds, bbox), lon, lat);
  }

  lemma BoxesCoverHits(X: seq<Range>, Y: seq<Range>, lon: real, lat: real)
    ensures (exists k :: 0 <= k < |ClipAxes(X, Y)| && InBox(ClipAxes(X, Y)[k], lon, lat))
        <==> Covered(X, lon) && Covered(Y, lat)
  {
    var r := ClipAxes(X, Y);
    if exists k :: 0 <= k < |r| && InBox(r[k], lon, lat) {
      var k :| 0 <= k < |r| && InBox(r[k], lon, lat);
      ClipAxesFrom(X, Y, k);
      var i, j :| 0 <= i < |X| && 0 <= j < |Y| && r[k] == Corners(X[i], Y[j]);
      assert Contains(X[i], lon) && Contains(Y[j], lat);
    }
    if Covered(X, lon) && Covered(Y, lat) {
      var i :| 0 <= i < |X| && Contains(X[i], lon);
      var j :| 0 <= j < |Y| && Contains(Y[j], lat);
      ClipAxesAt(X, Y, i, j);
      assert InBox(r[i * |Y| + j], lon, lat);
    }
  }

  /** Some box ends at 180 and some box starts at -180 over the same
      latitude span; when `apart`, they are two different boxes. */
  ghost predicate MeetAtAntemeridian(r: seq<Box>, apart: bool) {
    exists k1, k2 :: 0 <= k1 < |r| && 0 <= k2 < |r| && r[k1].maxx == East && r[k2].minx == West &&
      r[k1].miny == r[k2].miny && r[k1].maxy == r[k2].maxy && (apart ==> k1 != k2)
  }

  /** When the dataset and the request both lie on the globe and both pass
      through the antemeridian, and their latitudes overlap, the clip holds a
      box ending at 180 and a box starting at -180 with the same latitude
      span. When either longitude range wraps these are two different boxes
      meeting at the antemeridian; a global request on a global dataset gives
      one box that is both. */
  lemma ClipBboxMeetsAtAntemeridian(bounds: Bounds, bbox: Box)
    requires OnGlobe(bounds.x) && OnGlobe(LonRange(bbox))
    requires OnArc(bounds.x, East) && OnArc(bounds.x, West)
    requires OnArc(LonRange(bbox), East) && OnArc(LonRange(bbox), West)
    requires LatHits(bounds, bbox) != []
    ensures MeetAtAntemeridian(ClipBbox(bounds, bbox), false)
    ensures Wraps(bounds.x) || Wraps(LonRange(bbox)) ==> MeetAtAntemeridian(ClipBbox(bounds, bbox), true)
  {
    var X, Y := LonHits(bounds, bbox), LatHits(bounds, bbox);
    LatlonIntersectionMeetsAtAntemeridian(bounds.x, LonRange(bbox));
    var i1 :| 0 <= i1 < |X| && X[i1].hi == East;
    var i2 :| 0 <= i2 < |X| && X[i2].lo == West;
    assert ClipBbox(bounds, bbox) == ClipAxes(X, Y);
    AxesMeet(X, Y, i1, i2, false);
    if Wraps(bounds.x) || Wraps(LonRange(bbox)) {
      AxesMeet(X, Y, i1, i2, true);
    }
  }

  lemma AxesMeet(X: seq<Range>, Y: seq<Range>, i1: int, i2: int, apart: bool)
    requires 0 <= i1 < |X| && 0 <= i2 < |X| && Y != []
    requires X[i1].hi == East && X[i2].lo == West
    requires apart ==> X[i1] != Range(West, East)
    ensures MeetAtAntemeridian(ClipAxes(X, Y), apart)
  {
    var r := ClipAxes(X, Y);
    ClipAxesAt(X, Y, i1, 0);
    ClipAxesAt(X, Y, i2, 0);
    var k1, k2 := i1 * |Y|, i2 * |Y|;
    assert r[k1].maxx == East && r[k2].minx == West && r[k1].miny == r[k2].miny && r[k1].maxy == r[k2].maxy;
  }

  /** With cleanly splitting inputs the clip is empty exactly when the request
      and the dataset share no longitude or share no latitude. */
  lemma ClipBboxEmpty(bounds: Bounds, bbox: Box)
    requires SplitsCleanly(bounds.x) && SplitsCleanly(LonRange(bbox))
    requires SplitsCleanly(bounds.y) && SplitsCleanly(LatRange(bbox))
    ensures ClipBbox(bounds, bbox) == [] <==>
      (forall lon :: !(OnArc(bounds.x, lon) && OnArc(LonRange(bbox), lon))) ||
      (forall lat :: !(OnArc(bounds.y, lat) && OnArc(LatRange(bbox), lat)))
  {
    var X, Y := LonHits(bounds, bbox), LatHits(bounds, bbox);
    if X != [] {
      LatlonIntersectionWithin(bounds.x, LonRange(bbox), 0);
      assert Contains(X[0], X[0].lo);
      LatlonIntersectionPoints(bounds.x, LonRange(bbox), X[0].lo);
    } else {
      forall lon ensures !(OnArc(bounds.x, lon) && OnArc(LonRange(bbox), lon)) {
        LatlonIntersectionPoints(bounds.x, LonRange(bbox), lon);
      }
    }
    if Y != [] {
      LatlonIntersectionWithin(bounds.y, LatRange(bbox), 0);
      assert Contains(Y[0], Y[0].lo);
      LatlonIntersectionPoints(bounds.y, LatRange(bbox), Y[0].lo);
    } else {
      forall lat ensures !(OnArc(bounds.y, lat) && OnArc(LatRange(bbox), lat)) {
        LatlonIntersectionPoints(bounds.y, LatRange(bbox), lat);
      }
    }
    if X != [] && Y != [] {
      ClipAxesAt(X, Y, 0, 0);
    }
  }

  /** A request that covers non-wrapping dataset bounds clips to exactly the
      dataset bounds; a request equal to the bounds clips to itself. */
  lemma ClipBboxContainsBounds(bounds: Bounds, bbox: Box)
    requires WellFormed(bounds.x) && WellFormed(bounds.y)
    requires bbox.minx <= bounds.x.lo && bounds.x.hi <= bbox.maxx
    requires bbox.miny <= bounds.y.lo && bounds.y.hi <= bbox.maxy
    ensures ClipBbox(bounds, bbox) == [Box(bounds.x.lo, bounds.y.lo, bounds.x.hi, bounds.y.hi)]
  {
    LatlonIntersectionCases(bounds.x, LonRange(bbox));
    LatlonIntersectionCases(bounds.y, LatRange(bbox));
    ClipAxesAt([bounds.x], [bounds.y], 0, 0);
  }

  /** A wrapping-safe range lying inside one piece of `x` overlaps `x` in
      exactly itself. */
  lemma LatlonIntersectionOfPiece(x: Range, s: Range, i: int)
    requires SplitsCleanly(x) && WellFormed(s)
    requires 0 <= i < |Expand(x)| && Within(s, Expand(x)[i])
    ensures LatlonIntersection(x, s) == [s]
  {
    var X := Expand(x);
    LatlonIntersectionCases(x, s);
    RangeIntersectionOverlap(X[i], s);
    if Wraps(x) {
      RangeIntersectionOverlap(X[1 - i], s);
      assert RangeIntersection(X[1 - i], s) == None;
    }
  }

  /** Clipping a box of the clip against the same bounds gives that box back. */
  lemma ClipBboxReclip(bounds: Bounds, bbox: Box, k: int)
    requires SplitsCleanly(bounds.x) && SplitsCleanly(LonRange(bbox))
    requires SplitsCleanly(bounds.y) && SplitsCleanly(LatRange(bbox))
    requires 0 <= k < |ClipBbox(bounds, bbox)|
    ensures ClipBbox(bounds, ClipBbox(bounds, bbox)[k]) == [ClipBbox(bounds, bbox)[k]]
  {
    var b := ClipBbox(bounds, bbox)[k];
    ClipBboxWithin(bounds, bbox, k);
    var i :| 0 <= i < |Expand(bounds.x)| && Within(LonRange(b), Expand(bounds.x)[i]);
    var j :| 0 <= j < |Expand(bounds.y)| && Within(LatRange(b), Expand(bounds.y)[j]);
    LatlonIntersectionOfPiece(bounds.x, LonRange(b), i);
    LatlonIntersectionOfPiece(bounds.y, LatRange(b), j);
    ClipAxesAt([LonRange(b)], [LatRange(b)], 0, 0);
  }

  /** The tabulated clip cases against a dataset away from the antemeridian. */
  const ClipCases: seq<(Bounds, Box, seq<Box>)> := [
    (Bounds(Range(10.0, 20.0), Range(40.0, 45.0)), Box(10.0, 40.0, 20.0, 45.0), [Box(10.0, 40.0, 20.0, 45.0)]),
    (Bounds(Range(10.0, 20.0), Range(40.0, 45.0)), Box(0.0, 15.0, 25.0, 49.0), [Box(10.0, 40.0, 20.0, 45.0)]),
    (Bounds(Range(10.0, 20.0), Range(40.0, 45.0)), Box(0.0, 5.0, 5.0, 9.0), []),
    (Bounds(Range(10.0, 20.0), Range(40.0, 45.0)), Box(11.0, 15.0, 25.0, 49.0), [Box(11.0, 40.0, 20.0, 45.0)]),
    (Bounds(Range(10.0, 20.0), Range(40.0, 45.0)), Box(0.0, 15.0, 19.0, 49.0), [Box(10.0, 40.0, 19.0, 45.0)]),
    (Bounds(Range(10.0, 20.0), Range(40.0, 45.0)), Box(0.0, 42.0, 25.0, 49.0), [Box(10.0, 42.0, 20.0, 45.0)]),
    (Bounds(Range(10.0, 20.0), Range(40.0, 45.0)), Box(0.0, 15.0, 25.0, 42.0), [Box(10.0, 40.0, 20.0, 42.0)]),
    (Bounds(Range(10.0, 20.0), Range(40.0, 45.0)), Box(11.0, 15.0, 12.0, 49.0), [Box(11.0, 40.0, 12.0, 45.0)]),
    (Bounds(Range(10.0, 20.0), Range(40.0, 45.0)), Box(0.0, 42.0, 25.0, 43.0), [Box(10.0, 42.0, 20.0, 43.0)]),
    (Bounds(Range(10.0, 20.0), Range(40.0, 45.0)), Box(11.0, 42.0, 12.0, 43.0), [Box(11.0, 42.0, 12.0, 43.0)])
  ]

  /** The tabulated clip cases against datasets straddling the antemeridian,
      just east of it and just west of it. */
  const AntemeridianClipCases: seq<(Bounds, Box, seq<Box>)> := [
    (Bounds(Range(175.0, -175.0), Range(42.0, 48.0)), Box(170.0, 40.0, -170.0, 50.0), [Box(175.0, 42.0, 180.0, 48.0), Box(-180.0, 42.0, -175.0, 48.0)]),
    (Bounds(Range(175.0, -175.0), Range(42.0, 48.0)), Box(178.0, 42.0, -178.0, 50.0), [Box(178.0, 42.0, 180.0, 48.0), Box(-180.0, 42.0, -178.0, 48.0)]),
    (Bounds(Range(175.0, -175.0), Range(42.0, 48.0)), Box(170.0, 44.0, -170.0, 46.0), [Box(175.0, 44.0, 180.0, 46.0), Box(-180.0, 44.0, -175.0, 46.0)]),
    (Bounds(Range(175.0, -175.0), Range(42.0, 48.0)), Box(179.0, 45.0, -179.0, 45.5), [Box(179.0, 45.0, 180.0, 45.5), Box(-180.0, 45.0, -179.0, 45.5)]),
    (Bounds(Range(175.0, 179.0), Range(42.0, 48.0)), Box(170.0, 40.0, -170.0, 50.0), [Box(175.0, 42.0, 179.0, 48.0)]),
    (Bounds(Range(175.0, 179.0), Range(42.0, 48.0)), Box(176.0, 44.0, -170.0, 46.0), [Box(176.0, 44.0, 179.0, 46.0)]),
    (Bounds(Range(-179.0, -175.0), Range(42.0, 48.0)), Box(170.0, 40.0, -170.0, 50.0), [Box(-179.0, 42.0, -175.0, 48.0)])
  ]

  lemma ClipRow(bounds: Bounds, bbox: Box, e: seq<Box>)
    requires var X, Y := ExplicitIntersection(bounds.x, LonRange(bbox)), ExplicitIntersection(bounds.y, LatRange(bbox));
      || ((X == [] || Y == []) && e == [])
      || (|Y| == 1 && |e| == |X| && forall k :: 0 <= k < |e| ==> e[k] == Corners(X[k], Y[0]))
    ensures ClipBbox(bounds, bbox) == e
  {
    var X, Y := LonHits(bounds, bbox), LatHits(bounds, bbox);
    LatlonIntersectionCases(bounds.x, LonRange(bbox));
    LatlonIntersectionCases(bounds.y, LatRange(bbox));
    if X != [] && Y != [] {
      forall k | 0 <= k < |X| ensures ClipAxes(X, Y)[k] == Corners(X[k], Y[0]) {
        ClipAxesAt(X, Y, k, 0);
      }
    }
  }

  lemma ClipBboxTable()
    ensures forall k :: 0 <= k < |ClipCases| ==> ClipBbox(ClipCases[k].0, ClipCases[k].1) == ClipCases[k].2
  {
    forall k | 0 <= k < |ClipCases|
      ensures ClipBbox(ClipCases[k].0, ClipCases[k].1) == ClipCases[k].2
    {
      var c := ClipCases[k];
      ClipRow(c.0, c.1, c.2);
    }
  }

  lemma ClipBboxAntemeridianTable()
    ensures forall k :: 0 <= k < |AntemeridianClipCases| ==>
      ClipBbox(AntemeridianClipCases[k].0, AntemeridianClipCases[k].1) == AntemeridianClipCases[k].2
  {
    forall k | 0 <= k < |AntemeridianClipCases|
      ensures ClipBbox(AntemeridianClipCases[k].0, AntemeridianClipCases[k].1) == AntemeridianClipCases[k].2
    {
      var c := AntemeridianClipCases[k];
      ClipRow(c.0, c.1, c.2);
    }
  }
}
