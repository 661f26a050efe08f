/**
 Serving a prepared line at a zoom level (`_PreparedLine.at_level` and `_features_for` in
 `api/geo.py`): a filter over a packed coordinate array and one level byte per point, with
 a coarse floor line when too few points remain.
 */
module LevelFilter {
  import opened Wrappers

  /** A GeoJSON position: longitude, latitude and possibly more. */
  type Point = seq<real>

  /** The held points: 1e5-scaled integers, floats, or positions that carry a third element. */
  datatype Points = Scaled(ints: seq<int>) | Floats(reals: seq<real>) | Positions(points: seq<Point>)

  datatype Box = Box(minLon: real, minLat: real, maxLon: real, maxLat: real)

  /** `points` is None for a line nothing can simplify; its floor is then the line verbatim. */
  datatype Line = Line(
    properties: string, bbox: Option<Box>, points: Option<Points>, levels: seq<nat>, floor: seq<Point>)

  datatype Feature = Feature(coordinates: seq<Point>, properties: string)

  const MIN_POINTS: nat := 32
  const COORD_SCALE: real := 100000.0

  /** `n` points are held: packed coordinates come in pairs. */
  predicate Holds(p: Points, n: nat) {
    match p
    case Scaled(f) => |f| == 2 * n
    case Floats(f) => |f| == 2 * n
    case Positions(q) => |q| == n
  }

  /** A line that can be simplified has a bounding box and a level for every point. */
  predicate WellFormed(l: Line) {
    l.points.Some? ==> l.bbox.Some? && Holds(l.points.value, |l.levels|)
  }

  // --------------------------------------------------------- the packed filter

  /** The point whose coordinates start at flat index 2k. */
  function PointAt(p: Points, n: nat, k: nat): Point
    requires Holds(p, n) && k < n
  {
    match p
    case Scaled(f) => [f[2 * k] as real / COORD_SCALE, f[2 * k + 1] as real / COORD_SCALE]
    case Floats(f) => [f[2 * k], f[2 * k + 1]]
    case Positions(q) => q[k]
  }

  /** The comprehension over flat indices and level bytes, without unpacking dropped points. */
  function KeptPacked(p: Points, levels: seq<nat>, level: nat, k: nat): seq<Point>
    requires Holds(p, |levels|) && k <= |levels|
    decreases |levels| - k
  {
    if k == |levels| then []
    else (if levels[k] <= level then [PointAt(p, |levels|, k)] else []) + KeptPacked(p, levels, level, k + 1)
  }

  /** `filter_to_level`, for a line whose floor is `floor`. */
  function FilterToLevel(poly: seq<Point>, levels: seq<nat>, level: nat, floor: seq<Point>): seq<Point>
    requires |poly| == |levels|
  {
    if |poly| < 3 then poly
    else
      var kept := Kept(poly, levels, level);
      if |kept| >= MIN_POINTS then kept else floor
  }

  /** `at_level`. */
  function AtLevel(l: Line, level: nat): seq<Point>
    requires WellFormed(l) && l.points.Some?
  {
    if l.points.value.Positions? then FilterToLevel(l.points.value.points, l.levels, level, l.floor)
    else
      var kept := KeptPacked(l.points.value, l.levels, level, 0);
      if |kept| >= MIN_POINTS then kept else l.floor
  }

  // ------------------------------------------------------------ the simple form

  /** The points whose level is at most `level`, over (point, level) pairs. */
  function Kept(poly: seq<Point>, levels: seq<nat>, level: nat): seq<Point>
    requires |poly| == |levels|
  {
    if poly == [] then []
    else (if levels[0] <= level then [poly[0]] else []) + Kept(poly[1..], levels[1..], level)
  }

  /** The line as a list of positions. */
  function Unpacked(p: Points, n: nat): (poly: seq<Point>)
    requires Holds(p, n)
    ensures |poly| == n && forall k :: 0 <= k < n ==> poly[k] == PointAt(p, n, k)
  {
    seq(n, k requires 0 <= k < n => PointAt(p, n, k))
  }

  lemma {:induction false} PackedIsKept(p: Points, poly: seq<Point>, levels: seq<nat>, level: nat, k: nat)
    requires Holds(p, |levels|) && |poly| == |levels| && k <= |levels|
    requires forall i :: 0 <= i < |levels| ==> poly[i] == PointAt(p, |levels|, i)
    ensures KeptPacked(p, levels, level, k) == Kept(poly[k..], levels[k..], level)
    decreases |levels| - k
  {
    if k < |levels| {
      PackedIsKept(p, poly, levels, level, k + 1);
      KeptCons(poly, levels, level, k);
    }
  }

  lemma KeptCons(poly: seq<Point>, levels: seq<nat>, level: nat, k: nat)
    requires |poly| == |levels| && k < |levels|
    ensures Kept(poly[k..], levels[k..], level)
         == (if levels[k] <= level then [poly[k]] else []) + Kept(poly[k + 1..], levels[k + 1..], level)
  {
    assert poly[k..][1..] == poly[k + 1..] && levels[k..][1..] == levels[k + 1..];
  }

  /** Whatever form the points are held in, serving a level is the library's filter over the
      unpacked line (at least three points long, as every prepared line is). */
  lemma PackedFilterIsSimple(l: Line, level: nat)
    requires WellFormed(l) && l.points.Some? && 3 <= |l.levels|
    ensures AtLevel(l, level) == FilterToLevel(Unpacked(l.points.value, |l.levels|), l.levels, level, l.floor)
  {
    var poly := Unpacked(l.points.value, |l.levels|);
    if l.points.value.Positions? {
      assert poly == l.points.value.points;
    } else {
      PackedIsKept(l.points.value, poly, l.levels, level, 0);
      assert poly[0..] == poly && l.levels[0..] == l.levels;
    }
  }

  /** `a` is `b` with some elements left out. */
  predicate Within(a: seq<Point>, b: seq<Point>) {
    a == [] || (b != [] && ((a[0] == b[0] && Within(a[1..], b[1..])) || Within(a, b[1..])))
  }

  lemma {:induction false} WithinLonger(a: seq<Point>, b: seq<Point>)
    requires Within(a, b)
    ensures |a| <= |b|
  {
    if a != [] {
      if a[0] == b[0] && Within(a[1..], b[1..]) { WithinLonger(a[1..], b[1..]); } else { WithinLonger(a, b[1..]); }
    }
  }

  lemma WithinCons(x: Point, a: seq<Point>, b: seq<Point>)
    requires Within(a, b)
    ensures Within([x] + a, [x] + b) && Within(a, [x] + b) && [] + a == a && [] + b == b
  {
    assert ([x] + a)[1..] == a && ([x] + b)[1..] == b;
  }

  lemma {:induction false} KeptNested(poly: seq<Point>, levels: seq<nat>, lo: nat, hi: nat)
    requires |poly| == |levels| && lo <= hi
    ensures Within(Kept(poly, levels, lo), Kept(poly, levels, hi))
  {
    if poly != [] {
      KeptNested(poly[1..], levels[1..], lo, hi);
      WithinCons(poly[0], Kept(poly[1..], levels[1..], lo), Kept(poly[1..], levels[1..], hi));
    }
  }

  /** Zooming in only adds points: once a level is served above the floor, every deeper level
      is too, and contains it. */
  lemma LevelsNested(poly: seq<Point>, levels: seq<nat>, floor: seq<Point>, lo: nat, hi: nat)
    requires |poly| == |levels| && 3 <= |poly| && lo <= hi && |Kept(poly, levels, lo)| >= MIN_POINTS
    ensures FilterToLevel(poly, levels, hi, floor) == Kept(poly, levels, hi)
    ensures Within(FilterToLevel(poly, levels, lo, floor), FilterToLevel(poly, levels, hi, floor))
  {
    KeptNested(poly, levels, lo, hi);
    WithinLonger(Kept(poly, levels, lo), Kept(poly, levels, hi));
  }

  // ------------------------------------------------------------------- features

  predicate Intersect(a: Box, b: Box) {
    !(a.maxLon < b.minLon || a.minLon > b.maxLon || a.maxLat < b.minLat || a.minLat > b.maxLat)
  }

  predicate ServedAtFloor(l: Line, box: Option<Box>)
    requires WellFormed(l)
  {
    l.points.None? || (box.Some? && !Intersect(l.bbox.value, box.value))
  }

  /** `_features_for`: one feature per line, in order, for any level and any box. */
  method FeaturesFor(lines: seq<Line>, level: nat, box: Option<Box>) returns (out: seq<Feature>)
    requires forall l :: l in lines ==> WellFormed(l)
    ensures |out| == |lines|
    ensures forall i :: 0 <= i < |lines| ==> out[i].properties == lines[i].properties
    ensures forall i :: 0 <= i < |lines| ==>
              out[i].coordinates == if ServedAtFloor(lines[i], box) then lines[i].floor else AtLevel(lines[i], level)
  {
    out := [];
    for i := 0 to |lines|
      invariant |out| == i
      invariant forall j :: 0 <= j < i ==> out[j].properties == lines[j].properties
      invariant forall j :: 0 <= j < i ==>
                  out[j].coordinates
                  == if ServedAtFloor(lines[j], box) then lines[j].floor else AtLevel(lines[j], level)
    {
      var coords;
      assert lines[i] in lines;
      if lines[i].points.None? || (box.Some? && !Intersect(lines[i].bbox.value, box.value)) {
        coords := lines[i].floor;
      } else {
        coords := AtLevel(lines[i], level);
      }
      out := out + [Feature(coords, lines[i].properties)];
    }
  }

  /** Two boxes intersect exactly when they share a point. */
  lemma IntersectShares(a: Box, b: Box)
    requires a.minLon <= a.maxLon && a.minLat <= a.maxLat && b.minLon <= b.maxLon && b.minLat <= b.maxLat
    ensures Intersect(a, b) <==> exists lon, lat :: InBox(a, lon, lat) && InBox(b, lon, lat)
  {
    if Intersect(a, b) {
      var lon := if a.minLon < b.minLon then b.minLon else a.minLon;
      var lat := if a.minLat < b.minLat then b.minLat else a.minLat;
      assert InBox(a, lon, lat) && InBox(b, lon, lat);
    }
  }

  predicate InBox(b: Box, lon: real, lat: real) {
    b.minLon <= lon <= b.maxLon && b.minLat <= lat <= b.maxLat
  }

  // ------------------------------------------------------------------ packing

  /** The flat array of a line of pairs. */
  function Flat<T>(pairs: seq<(T, T)>): (f: seq<T>)
    ensures |f| == 2 * |pairs|
    ensures forall k :: 0 <= k < |pairs| ==> f[2 * k] == pairs[k].0 && f[2 * k + 1] == pairs[k].1
  {
    if pairs == [] then []
    else
      var n := |pairs| - 1;
      Flat(pairs[..n]) + [pairs[n].0, pairs[n].1]
  }

  lemma ScaledBack(n: int, x: real)
    requires x == n as real / COORD_SCALE
    ensures x * 100000.0 == n as real
  {
  }

  /** Packing a line of longitude and latitude loses nothing, in integers of a hundred-thousandth
      of a degree or in floats. */
  lemma UnpackedScaled(pairs: seq<(int, int)>, k: nat)
    requires k < |pairs|
    ensures var point := Unpacked(Scaled(Flat(pairs)), |pairs|)[k];
            |point| == 2 && point[0] * 100000.0 == pairs[k].0 as real && point[1] * 100000.0 == pairs[k].1 as real
  {
    var f := Flat(pairs);
    var lon, lat := f[2 * k], f[2 * k + 1];
    assert lon == pairs[k].0 && lat == pairs[k].1;
    ScaledBack(lon, lon as real / COORD_SCALE);
    ScaledBack(lat, lat as real / COORD_SCALE);
  }

  lemma UnpackedFloats(pairs: seq<(real, real)>, k: nat)
    requires k < |pairs|
    ensures Unpacked(Floats(Flat(pairs)), |pairs|)[k] == [pairs[k].0, pairs[k].1]
  {
    var f := Flat(pairs);
    assert f[2 * k] == pairs[k].0 && f[2 * k + 1] == pairs[k].1;
  }

  /** How many of the points have a level of at most `level`. */
  function LowEnough(levels: seq<nat>, level: nat): nat {
    if levels == [] then 0 else (if levels[0] > level then 0 else 1) + LowEnough(levels[1..], level)
  }

  /** A line is served from its points exactly when 32 of them have a level that is low enough. */
  lemma ServedAboveFloor(poly: seq<Point>, levels: seq<nat>, level: nat, floor: seq<Point>)
    requires |poly| == |levels| && 3 <= |poly|
    ensures FilterToLevel(poly, levels, level, floor)
         == if LowEnough(levels, level) >= 32 then Kept(poly, levels, level) else floor
  {
    KeptCounts(poly, levels, level);
  }

  lemma {:induction false} KeptCounts(poly: seq<Point>, levels: seq<nat>, level: nat)
    requires |poly| == |levels|
    ensures |Kept(poly, levels, level)| == LowEnough(levels, level)
  {
    if poly != [] { KeptCounts(poly[1..], levels[1..], level); }
  }
}
