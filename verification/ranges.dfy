/**
 Coordinate ranges and bounding boxes, and the list-building steps that both
 clippers share: splitting a range at the antemeridian, the nested
 comprehension that pairs every piece of one list with every piece of another
 (first list outer, second inner), and the filter that drops empty
 intersections.
 */
module Ranges {

  datatype Option<+T> = None | Some(value: T)

  /** A span from `lo` to `hi` degrees along one axis. On longitude, `hi < lo`
      encodes a span that wraps through the antemeridian. */
  datatype Range = Range(lo: real, hi: real)

  /** Corner form: lower-left (minx, miny), then upper-right (maxx, maxy). */
  datatype Box = Box(minx: real, miny: real, maxx: real, maxy: real)

  /** The extent of a dataset: a longitude range and a latitude range. */
  datatype Bounds = Bounds(x: Range, y: Range)

  const East: real := 180.0
  const West: real := -180.0

  function Max(a: real, b: real): real { if a >= b then a else b }
  function Min(a: real, b: real): real { if a <= b then a else b }

  /** Closed-interval membership, as the source's chained `lo <= c <= hi`. */
  predicate Contains(r: Range, c: real) { r.lo <= c <= r.hi }

  predicate WellFormed(r: Range) { r.lo <= r.hi }

  predicate Wraps(r: Range) { r.hi < r.lo }

  /** A wrapping range whose ends lie on the near side of the antemeridian, so
      that both of its pieces are well formed. Every range of longitudes in
      [-180, 180] qualifies, and so does every range that does not wrap. */
  predicate SplitsCleanly(r: Range) { Wraps(r) ==> r.lo <= East && West <= r.hi }

  /** Both ends are longitudes in [-180, 180]. */
  predicate OnGlobe(r: Range) { West <= r.lo <= East && West <= r.hi <= East }

  predicate Within(inner: Range, outer: Range) { outer.lo <= inner.lo && inner.hi <= outer.hi }

  /** The points an encoded range stands for: a wrapping range runs from `lo`
      east up to the antemeridian and continues from -180 up to `hi`. Ends
      beyond ±180 are taken literally, not modulo 360. */
  predicate OnArc(r: Range, c: real) {
    if Wraps(r) then r.lo <= c <= East || West <= c <= r.hi else Contains(r, c)
  }

  /** Some range of `rs` contains `c`. */
  predicate Covered(rs: seq<Range>, c: real) {
    exists i :: 0 <= i < |rs| && Contains(rs[i], c)
  }

  /** The longitude and latitude spans of a corner-form box. */
  function LonRange(b: Box): Range { Range(b.minx, b.maxx) }
  function LatRange(b: Box): Range { Range(b.miny, b.maxy) }

  predicate InBox(b: Box, lon: real, lat: real) {
    Contains(LonRange(b), lon) && Contains(LatRange(b), lat)
  }

  /** Splits a wrapping range into the piece up to 180 and the piece from
      -180; any other range is its own single piece. The split does
      not know which axis it is on, so a "wrapping" latitude range is split too. */
  function Expand(a: Range): (pieces: seq<Range>)
    ensures |pieces| == (if Wraps(a) then 2 else 1)
    ensures SplitsCleanly(a) ==> forall i :: 0 <= i < |pieces| ==> WellFormed(pieces[i])
    ensures !SplitsCleanly(a) ==> !WellFormed(pieces[0]) || !WellFormed(pieces[1])
    ensures Wraps(a) ==> pieces[0].lo == a.lo && pieces[0].hi == East
    ensures Wraps(a) ==> pieces[1].lo == West && pieces[1].hi == a.hi
    ensures Wraps(a) ==> forall c :: !(Contains(pieces[0], c) && Contains(pieces[1], c))
    ensures !Wraps(a) ==> pieces == [a]
  {
    if a.hi < a.lo then [Range(a.lo, East), Range(West, a.hi)] else [a]
  }

  /** The pieces cover exactly the points the encoded range stands for. */
  lemma ExpandCovers(a: Range, c: real)
    ensures Covered(Expand(a), c) <==> OnArc(a, c)
  {
    var pieces := Expand(a);
    if OnArc(a, c) {
      if Wraps(a) && c >= a.lo {
        assert Contains(pieces[0], c);
      } else if Wraps(a) {
        assert Contains(pieces[1], c);
      } else {
        assert Contains(pieces[0], c);
      }
    }
  }

  function Listed<T>(o: Option<T>): seq<T> {
    match o
    case None => []
    case Some(v) => [v]
  }

  /** The values of the `Some` entries of `s`, in order: the source's
      `[i for i in intersections if i]`. */
  function Present<T(!new)>(s: seq<Option<T>>): (r: seq<T>)
    ensures |r| <= |s|
    ensures forall v :: v in r <==> Some(v) in s
  {
    if s == [] then []
    else
      assert s == [s[0]] + s[1..];
      Listed(s[0]) + Present(s[1..])
  }

  lemma {:induction false} PresentAppend<T(!new)>(s: seq<Option<T>>, t: seq<Option<T>>)
    ensures Present(s + t) == Present(s) + Present(t)
    decreases |s|
  {
    if s == [] {
      assert s + t == t;
    } else {
      assert (s + t)[1..] == s[1..] + t;
      PresentAppend(s[1..], t);
    }
  }

  /** An entry of `Present(Cross(xs, ys, f))` is a present result of some pair. */
  lemma PresentCrossMembers<A, B, T(!new)>(xs: seq<A>, ys: seq<B>, f: (A, B) -> Option<T>, v: T)
    ensures v in Present(Cross(xs, ys, f)) <==>
              exists i, j :: 0 <= i < |xs| && 0 <= j < |ys| && f(xs[i], ys[j]) == Some(v)
  {
    var s := Cross(xs, ys, f);
    if v in Present(s) {
      var k :| 0 <= k < |s| && s[k] == Some(v);
      CrossFrom(xs, ys, f, k);
    }
    if exists i, j :: 0 <= i < |xs| && 0 <= j < |ys| && f(xs[i], ys[j]) == Some(v) {
      var i, j :| 0 <= i < |xs| && 0 <= j < |ys| && f(xs[i], ys[j]) == Some(v);
      CrossAt(xs, ys, f, i, j);
    }
  }

  lemma PresentOne<T(!new)>(a: Option<T>)
    ensures Present([a]) == Listed(a)
  {
    assert [a][1..] == [];
  }

  lemma PresentTwo<T(!new)>(a: Option<T>, b: Option<T>)
    ensures Present([a, b]) == Listed(a) + Listed(b)
  {
    PresentOne(a);
    PresentOne(b);
    assert [a, b] == [a] + [b];
    PresentAppend([a], [b]);
  }

  lemma PresentFour<T(!new)>(a: Option<T>, b: Option<T>, c: Option<T>, d: Option<T>)
    ensures Present([a, b, c, d]) == Listed(a) + Listed(b) + Listed(c) + Listed(d)
  {
    PresentTwo(a, b);
    PresentTwo(c, d);
    assert [a, b, c, d] == [a, b] + [c, d];
    PresentAppend([a, b], [c, d]);
  }

  /** `[f(x, b) for b in ys]` */
  function Row<A, B, C>(x: A, ys: seq<B>, f: (A, B) -> C): (r: seq<C>)
    ensures |r| == |ys|
    ensures forall j :: 0 <= j < |ys| ==> r[j] == f(x, ys[j])
  {
    seq(|ys|, j requires 0 <= j < |ys| => f(x, ys[j]))
  }

  /** `[f(a, b) for a in xs for b in ys]`: the first list is the outer loop. */
  function Cross<A, B, C>(xs: seq<A>, ys: seq<B>, f: (A, B) -> C): (r: seq<C>)
    ensures |r| == |xs| * |ys|
    decreases |xs|
  {
    if xs == [] then []
    else
      MulPred(|xs|, |ys|);
      Row(xs[0], ys, f) + Cross(xs[1..], ys, f)
  }

  lemma MulPred(i: int, n: int)
    ensures i * n == n + (i - 1) * n
  {}

  lemma MulBound(i: int, j: int, m: int, n: int)
    requires 0 <= i < m && 0 <= j < n
    ensures 0 <= i * n + j < m * n
  {
    MulMono(0, i, n);
    calc {
      i * n + j;
    <
      i * n + n;
    ==
      (i + 1) * n;
    <= { assert i + 1 <= m; MulMono(i + 1, m, n); }
      m * n;
    }
  }

  lemma MulMono(a: int, b: int, n: int)
    requires a <= b && 0 <= n
    ensures a * n <= b * n
  {}

  /** Pair (i, j) sits at position i * |ys| + j of the product: row i of the
      outer loop, column j of the inner one. */
  lemma {:induction false} CrossAt<A, B, C>(xs: seq<A>, ys: seq<B>, f: (A, B) -> C, i: int, j: int)
    requires 0 <= i < |xs| && 0 <= j < |ys|
    ensures 0 <= i * |ys| + j < |Cross(xs, ys, f)|
    ensures Cross(xs, ys, f)[i * |ys| + j] == f(xs[i], ys[j])
    decreases i
  {
    MulBound(i, j, |xs|, |ys|);
    if i > 0 {
      CrossAt(xs[1..], ys, f, i - 1, j);
      MulPred(i, |ys|);
    }
  }

  /** Every entry of the product comes from some pair. */
  lemma {:induction false} CrossFrom<A, B, C>(xs: seq<A>, ys: seq<B>, f: (A, B) -> C, k: int)
    requires 0 <= k < |Cross(xs, ys, f)|
    ensures exists i, j :: 0 <= i < |xs| && 0 <= j < |ys| && Cross(xs, ys, f)[k] == f(xs[i], ys[j])
    decreases |xs|
  {
    if k >= |ys| {
      CrossFrom(xs[1..], ys, f, k - |ys|);
      var i, j :| 0 <= i < |xs[1..]| && 0 <= j < |ys| && Cross(xs[1..], ys, f)[k - |ys|] == f(xs[1..][i], ys[j]);
      assert Cross(xs, ys, f)[k] == f(xs[i + 1], ys[j]);
    } else {
      assert Cross(xs, ys, f)[k] == f(xs[0], ys[k]);
    }
  }

  /** The products of one- and two-element lists, spelled out in loop order. */
  lemma CrossSmall<A, B, C>(xs: seq<A>, ys: seq<B>, f: (A, B) -> C)
    requires 1 <= |xs| <= 2 && 1 <= |ys| <= 2
    ensures Cross(xs, ys, f) ==
      if |xs| == 1 && |ys| == 1 then [f(xs[0], ys[0])]
      else if |xs| == 1 then [f(xs[0], ys[0]), f(xs[0], ys[1])]
      else if |ys| == 1 then [f(xs[0], ys[0]), f(xs[1], ys[0])]
      else [f(xs[0], ys[0]), f(xs[0], ys[1]), f(xs[1], ys[0]), f(xs[1], ys[1])]
  {
    var r := Cross(xs, ys, f);
    CrossAt(xs, ys, f, 0, 0);
    if |ys| == 2 { CrossAt(xs, ys, f, 0, 1); }
    if |xs| == 2 {
      CrossAt(xs, ys, f, 1, 0);
      if |ys| == 2 { CrossAt(xs, ys, f, 1, 1); }
    }
  }

  /** Equal functions on every pair give equal products. */
  lemma {:induction false} CrossCongruent<A, B, C>(xs: seq<A>, ys: seq<B>, f: (A, B) -> C, g: (A, B) -> C)
    requires forall i, j :: 0 <= i < |xs| && 0 <= j < |ys| ==> f(xs[i], ys[j]) == g(xs[i], ys[j])
    ensures Cross(xs, ys, f) == Cross(xs, ys, g)
    decreases |xs|
  {
    if xs != [] {
      assert forall j :: 0 <= j < |ys| ==> f(xs[0], ys[j]) == g(xs[0], ys[j]);
      CrossCongruent(xs[1..], ys, f, g);
    }
  }

  function Corners(xi: Range, yi: Range): Box {
    Box(xi.lo, yi.lo, xi.hi, yi.hi)
  }

  /** The last step of both clippers: nothing when either axis has no
      intersection, otherwise one corner-form box per (longitude, latitude)
      pair, longitude pieces outer. */
  function ClipAxes(xs: seq<Range>, ys: seq<Range>): (r: seq<Box>)
    ensures |xs| == 0 || |ys| == 0 ==> r == []
    ensures |r| == |xs| * |ys|
  {
    if |xs| == 0 || |ys| == 0 then [] else Cross(xs, ys, Corners)
  }

  /** Box (i, j) of the clip sits at position i * |ys| + j and spans
      longitude piece i and latitude piece j. */
  lemma ClipAxesAt(xs: seq<Range>, ys: seq<Range>, i: int, j: int)
    requires 0 <= i < |xs| && 0 <= j < |ys|
    ensures 0 <= i * |ys| + j < |ClipAxes(xs, ys)|
    ensures ClipAxes(xs, ys)[i * |ys| + j] == Corners(xs[i], ys[j])
  {
    CrossAt(xs, ys, Corners, i, j);
  }

  /** Every box of the clip spans some longitude piece and some latitude piece. */
  lemma ClipAxesFrom(xs: seq<Range>, ys: seq<Range>, k: int)
    requires 0 <= k < |ClipAxes(xs, ys)|
    ensures exists i, j :: 0 <= i < |xs| && 0 <= j < |ys| && ClipAxes(xs, ys)[k] == Corners(xs[i], ys[j])
  {
    CrossFrom(xs, ys, Corners, k);
  }

  /** Clipping sub-lists of the axis overlaps gives boxes that the full lists
      give too. */
  lemma ClipAxesSubset(xs: seq<Range>, ys: seq<Range>, xs': seq<Range>, ys': seq<Range>, k: int)
    requires forall v :: v in xs ==> v in xs'
    requires forall v :: v in ys ==> v in ys'
    requires 0 <= k < |ClipAxes(xs, ys)|
    ensures ClipAxes(xs, ys)[k] in ClipAxes(xs', ys')
  {
    ClipAxesFrom(xs, ys, k);
    var i, j :| 0 <= i < |xs| && 0 <= j < |ys| && ClipAxes(xs, ys)[k] == Corners(xs[i], ys[j]);
    assert xs[i] in xs' && ys[j] in ys';
    var i' :| 0 <= i' < |xs'| && xs'[i'] == xs[i];
    var j' :| 0 <= j' < |ys'| && ys'[j'] == ys[j];
    ClipAxesAt(xs', ys', i', j');
  }
}
