/**
 The older clipper. It has the same shape as the reference one (the same
 split at the antemeridian, the same pairing of pieces and the same assembly
 of boxes); only the overlap test of two ranges differs, and it relies on
 Python truthiness.
 */
module LegacyGeo {
  import opened Ranges
  import Geo

  /** Python's `r[0] or r[1]` on a pair of numbers: the low end, unless it is
      zero (which is falsy), in which case the high end. */
  function Pick(r: Range): real {
    if r.lo != 0.0 then r.lo else r.hi
  }

  /** The overlap of two ranges, reported only when the picked end of one lies
      in the other. */
  function RangeIntersection(a: Range, b: Range): (r: Option<Range>)
    ensures r.Some? ==> r == Geo.RangeIntersection(a, b)
    ensures WellFormed(a) && WellFormed(b) && a.lo != 0.0 && b.lo != 0.0 ==> r == Geo.RangeIntersection(a, b)
  {
    if Contains(b, Pick(a)) || Contains(a, Pick(b)) then
      Some(Range(Max(a.lo, b.lo), Min(a.hi, b.hi)))
    else
      None
  }

  lemma RangeIntersectionSymmetric(a: Range, b: Range)
    ensures RangeIntersection(a, b) == RangeIntersection(b, a)
  {}

  /** A range starting at 0 is tested by its high end only, so an overlap that
      contains neither that high end nor the other range's low end is missed:
      [0, 10] against [-5, 5] reports nothing, though both share [0, 5]. */
  lemma ZeroLowEndpointMissesOverlap(a: Range, b: Range)
    requires a.lo == 0.0 && b.lo < 0.0 < b.hi < a.hi
    ensures RangeIntersection(a, b) == None
    ensures Geo.RangeIntersection(a, b) == Some(Range(0.0, b.hi))
  {}

  /** The overlaps of every piece of `x` with every piece of `y`, with the
      empty ones dropped. Every range it reports is one the reference reports. */
  function LatlonIntersection(x: Range, y: Range): (r: seq<Range>)
    ensures |r| <= |Expand(x)| * |Expand(y)|
    ensures forall v :: v in r ==> v in Geo.LatlonIntersection(x, y)
  {
    var r := Present(Cross(Expand(x), Expand(y), RangeIntersection));
    assert forall v :: v in r ==> v in Geo.LatlonIntersection(x, y) by {
      forall v | v in r ensures v in Geo.LatlonIntersection(x, y) {
        PresentCrossMembers(Expand(x), Expand(y), RangeIntersection, v);
        assert Geo.FromPiecePair(v, x, y);
      }
    }
    r
  }

  /** Every point the legacy result covers lies on both inputs. */
  lemma LatlonIntersectionSound(x: Range, y: Range, c: real)
    requires Covered(LatlonIntersection(x, y), c)
    ensures OnArc(x, c) && OnArc(y, c)
  {
    var r := LatlonIntersection(x, y);
    var k :| 0 <= k < |r| && Contains(r[k], c);
    var g := Geo.LatlonIntersection(x, y);
    assert r[k] in g;
    var k' :| 0 <= k' < |g| && g[k'] == r[k];
    Geo.LatlonIntersectionPoints(x, y, c);
  }

  /** With cleanly splitting inputs whose low ends are non-zero, every piece
      has a non-zero low end, and the legacy result is the reference result. */
  lemma LatlonIntersectionAgrees(x: Range, y: Range)
    requires SplitsCleanly(x) && SplitsCleanly(y)
    requires x.lo != 0.0 && y.lo != 0.0
    ensures LatlonIntersection(x, y) == Geo.LatlonIntersection(x, y)
  {
    var X, Y := Expand(x), Expand(y);
    assert forall i :: 0 <= i < |X| ==> X[i].lo != 0.0 && WellFormed(X[i]);
    assert forall j :: 0 <= j < |Y| ==> Y[j].lo != 0.0 && WellFormed(Y[j]);
    CrossCongruent(X, Y, RangeIntersection, Geo.RangeIntersection);
  }

  /** Clips a corner-form request box to the dataset's extent with the legacy
      overlap test. Every box it returns is a box the reference returns. */
  function ClipBbox(bounds: Bounds, bbox: Box): (r: seq<Box>)
    ensures (LatlonIntersection(bounds.x, LonRange(bbox)) == [] ||
             LatlonIntersection(bounds.y, LatRange(bbox)) == []) ==> r == []
    ensures forall k :: 0 <= k < |r| ==> r[k] in Geo.ClipBbox(bounds, bbox)
  {
    var xs, ys := LatlonIntersection(bounds.x, LonRange(bbox)), LatlonIntersection(bounds.y, LatRange(bbox));
    var r := ClipAxes(xs, ys);
    assert forall k :: 0 <= k < |r| ==> r[k] in Geo.ClipBbox(bounds, bbox) by {
      forall k | 0 <= k < |r| ensures r[k] in Geo.ClipBbox(bounds, bbox) {
        ClipAxesSubset(xs, ys, Geo.LonHits(bounds, bbox), Geo.LatHits(bounds, bbox), k);
      }
    }
    r
  }

  /** Where the overlap test cannot meet a zero low end, the two clippers agree. */
  lemma ClipBboxAgrees(bounds: Bounds, bbox: Box)
    requires SplitsCleanly(bounds.x) && SplitsCleanly(LonRange(bbox))
    requires SplitsCleanly(bounds.y) && SplitsCleanly(LatRange(bbox))
    requires bounds.x.lo != 0.0 && bounds.y.lo != 0.0 && bbox.minx != 0.0 && bbox.miny != 0.0
    ensures ClipBbox(bounds, bbox) == Geo.ClipBbox(bounds, bbox)
  {
    LatlonIntersectionAgrees(bounds.x, LonRange(bbox));
    LatlonIntersectionAgrees(bounds.y, LatRange(bbox));
  }

  /** A dataset starting at longitude 0 and a request straddling it: the
      reference clips to one box, the legacy clipper to none. */
  lemma ClipBboxMissesOverlap(bounds: Bounds, bbox: Box)
    requires bounds == Bounds(Range(0.0, 10.0), Range(40.0, 45.0))
    requires bbox == Box(-5.0, 40.0, 5.0, 45.0)
    ensures ClipBbox(bounds, bbox) == []
    ensures Geo.ClipBbox(bounds, bbox) == [Box(0.0, 40.0, 5.0, 45.0)]
  {
    Geo.ClipRow(bounds, bbox, [Box(0.0, 40.0, 5.0, 45.0)]);
    var x, rx := bounds.x, LonRange(bbox);
    CrossSmall(Expand(x), Expand(rx), RangeIntersection);
    PresentOne(RangeIntersection(x, rx));
  }
}
