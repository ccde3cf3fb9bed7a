/** Canonicalisation of four calibration-marker detections: the clockwise
    corner ordering and the discrete part of `match_homography_points`,
    which stops at the pair (reordered image points, scaled target points)
    that the homography solver receives. */
module Fiducial {
  import opened Results
  import opened Sequences
  import opened Extrema

  datatype Point = Point(x: real, y: real)

  /** One marker found by `locate_markers`: position in image pixels, whether
      its centre is bright, and its matching score. */
  datatype Detection = Detection(x: real, y: real, polarity: bool, score: real)

  /** What `match_homography_points` hands to the homography solver: image
      points in their final order, and the physical points they map to. */
  datatype Correspondence = Correspondence(source: seq<Point>, target: seq<Point>)

  /** `pts.sum(axis = 1)`: one `x + y` per point. */
  function Sums(pts: seq<Point>): (s: seq<real>)
    ensures |s| == |pts|
  {
    seq(|pts|, i requires 0 <= i < |pts| => pts[i].x + pts[i].y)
  }

  /** `np.diff(pts, axis = 1)`, flattened: `y - x` for every point. */
  function Diffs(pts: seq<Point>): (d: seq<real>)
    ensures |d| == |pts|
  {
    seq(|pts|, i requires 0 <= i < |pts| => pts[i].y - pts[i].x)
  }

  /** `arg_clockwise_order`: the first index minimising `x + y`, the first
      minimising `y - x`, the first maximising `x + y`, the first maximising
      `y - x`. */
  function ArgClockwiseOrder(pts: seq<Point>): (order: seq<nat>)
    requires |pts| > 0
    ensures |order| == 4
    ensures IsFirstMin(Sums(pts), order[0])
    ensures IsFirstMin(Diffs(pts), order[1])
    ensures IsFirstMax(Sums(pts), order[2])
    ensures IsFirstMax(Diffs(pts), order[3])
  {
    [ArgMin(Sums(pts)), ArgMin(Diffs(pts)), ArgMax(Sums(pts)), ArgMax(Diffs(pts))]
  }

  /** The two 2018 quadrilaterals in centimetres, clockwise from the top-left
      corner: side 0 had three bright markers, side 1 three dark ones. */
  const Quad2018Side0: seq<Point> :=
    [Point(0.0, 0.0), Point(40.4, -0.1), Point(40.6, 27.9), Point(-0.1, 27.9)]
  const Quad2018Side1: seq<Point> :=
    [Point(0.0, 0.0), Point(40.2, 0.0), Point(40.6, 28.1), Point(0.4, 28.1)]

  /** Every coordinate multiplied by `scale` (`np.array(...) * scale`). */
  function Scaled(q: seq<Point>, scale: real): (r: seq<Point>)
    ensures |r| == |q|
    ensures scale == 1.0 ==> r == q
  {
    seq(|q|, i requires 0 <= i < |q| => Point(q[i].x * scale, q[i].y * scale))
  }

  /** `np.array([(p[0], p[1]) for p in points])`: the position of every marker. */
  function Locations(points: seq<Detection>): (xy: seq<Point>)
    ensures |xy| == |points|
    ensures forall i :: 0 <= i < |points| ==> xy[i] == Point(points[i].x, points[i].y)
  {
    seq(|points|, i requires 0 <= i < |points| => Point(points[i].x, points[i].y))
  }

  /** `np.array([p[2] for p in points])`: the polarity of every marker. */
  function Polarities(points: seq<Detection>): (types: seq<bool>)
    ensures |types| == |points|
    ensures forall i :: 0 <= i < |points| ==> types[i] == points[i].polarity
  {
    seq(|points|, i requires 0 <= i < |points| => points[i].polarity)
  }

  /** `np.sum(types)`: how many markers are bright, which is how often
      `true` occurs; the rest are dark. */
  function CountTrue(s: seq<bool>): (c: nat)
    ensures c <= |s|
    ensures c == multiset(s)[true]
    ensures c + multiset(s)[false] == |s|
  {
    if |s| == 0 then 0
    else
      assert s == [s[0]] + s[1..];
      (if s[0] then 1 else 0) + CountTrue(s[1..])
  }

  /** `0 if np.sum(types) > 2 else 1`: side 0 exactly when three or more
      markers are bright, which for four markers means the bright ones are
      the majority. */
  function ImageSide(points: seq<Detection>): (side: nat)
    ensures side < 2
    ensures side == 0 <==> multiset(Polarities(points))[true] > 2
    ensures |points| == 4 ==>
      (side == 0 <==> multiset(Polarities(points))[true] > multiset(Polarities(points))[false])
  {
    if CountTrue(Polarities(points)) > 2 then 0 else 1
  }

  /** `[False, True][image_side]`: the polarity of the "special" marker. It
      is bright unless three or more markers are bright, and among four
      markers it is never held by more markers than the other polarity. */
  function SpecialPolarity(points: seq<Detection>): (special: bool)
    ensures special <==> multiset(Polarities(points))[true] <= 2
    ensures |points| == 4 ==>
      multiset(Polarities(points))[special] <= multiset(Polarities(points))[!special]
  {
    [false, true][ImageSide(points)]
  }

  /** `types[order]` for the clockwise order of the four locations: entry
      `i` is the polarity of the marker the order names `i`-th. */
  function ClockwisePolarities(points: seq<Detection>): (t: seq<bool>)
    requires |points| == 4
    ensures |t| == 4
    ensures forall i :: 0 <= i < 4 ==>
      t[i] == Polarities(points)[ArgClockwiseOrder(Locations(points))[i]]
  {
    var order := ArgClockwiseOrder(Locations(points));
    seq(4, i requires 0 <= i < 4 => points[order[i]].polarity)
  }

  /** `xy[order, :]` for the clockwise order of the four locations: row `i`
      is the location of the marker the order names `i`-th. */
  function ClockwiseLocations(points: seq<Detection>): (xy: seq<Point>)
    requires |points| == 4
    ensures |xy| == 4
    ensures forall i :: 0 <= i < 4 ==>
      xy[i] == Locations(points)[ArgClockwiseOrder(Locations(points))[i]]
  {
    var order := ArgClockwiseOrder(Locations(points));
    seq(4, i requires 0 <= i < 4 => Point(points[order[i]].x, points[order[i]].y))
  }

  /** `np.argwhere(s == v)[0][0]`: the first position holding `v`, if any. */
  function FirstIndexOf(s: seq<bool>, v: bool): (r: Option<nat>)
    ensures r.Some? ==> r.value < |s| && s[r.value] == v
    ensures r.Some? ==> forall j :: 0 <= j < r.value ==> s[j] != v
    ensures r.None? ==> forall j :: 0 <= j < |s| ==> s[j] != v
  {
    if |s| == 0 then None
    else if s[0] == v then Some(0)
    else
      match FirstIndexOf(s[1..], v)
      case None => None
      case Some(k) => Some(k + 1)
  }

  /** The clockwise position of the first marker of the special polarity. */
  function SpecialIndex(points: seq<Detection>): (r: Option<nat>)
    requires |points| == 4
    ensures r.Some? ==> r.value < 4
    ensures r.Some? ==> ClockwisePolarities(points)[r.value] == SpecialPolarity(points)
    ensures r.Some? ==> forall j :: 0 <= j < r.value ==> ClockwisePolarities(points)[j] != SpecialPolarity(points)
    ensures r.None? <==> SpecialPolarity(points) !in ClockwisePolarities(points)
  {
    FirstIndexOf(ClockwisePolarities(points), SpecialPolarity(points))
  }

  /** How far the clockwise list is rolled once the special marker has been
      found at clockwise position `k`. */
  datatype ShiftRule =
    | AsWritten  // `shift = 4 + high_id_idx - 2`
    | Intended   // the roll that puts position `k` at index 2

  /** Rolling by the shift moves clockwise position `k` to
      `(k + shift) mod 4`: to `(2k + 2) mod 4` as written, to 2 as intended. */
  function Shift(rule: ShiftRule, k: int): (shift: int)
    ensures rule == AsWritten ==> (k + shift) % 4 == (2 * k + 2) % 4
    ensures rule == Intended ==> (k + shift) % 4 == 2
  {
    match rule
    case AsWritten =>
      ModOfSum(4, 2 * k + 2, 4);
      4 + k - 2
    case Intended => 2 - k
  }

  /** `match_homography_points` up to the homography solve, with the roll
      chosen by `rule`. */
  function Canonicalize(points: seq<Detection>, scale: real, year: int, rule: ShiftRule)
    : (r: Result<Correspondence>)
    ensures |points| != 4 ==> r == Err(WrongPointCount)
    ensures |points| == 4 && year != 2018 ==> r == Err(UnsupportedYear)
    ensures |points| == 4 && year == 2018 ==> (r.Ok? <==> SpecialIndex(points).Some?)
    ensures r.Ok? ==> |points| == 4 && SpecialIndex(points).Some? && |r.value.source| == 4
  {
    if |points| != 4 then Err(WrongPointCount)
    else if year != 2018 then Err(UnsupportedYear)
    else
      var homographyPoints := [Quad2018Side0, Quad2018Side1];
      var side := ImageSide(points);
      match SpecialIndex(points)
      case None => Err(NoSpecialMarker)
      case Some(k) =>
        var clockwise := ClockwiseLocations(points);
        var shift := Shift(rule, k);
        Ok(Correspondence(Roll(clockwise, shift), Scaled(homographyPoints[side], scale)))
  }

  /** `match_homography_points(points, scale, year)` as written, without the
      final `cv2.findHomography` call. */
  function MatchHomographyPoints(points: seq<Detection>, scale: real := 10.0, year: int := 2018)
    : (r: Result<Correspondence>)
    ensures |points| != 4 ==> r == Err(WrongPointCount)
    ensures |points| == 4 && year != 2018 ==> r == Err(UnsupportedYear)
    ensures |points| == 4 && year == 2018 ==> (r.Ok? <==> SpecialIndex(points).Some?)
    ensures r.Ok? ==>
      r.value.target == Scaled(if ImageSide(points) == 0 then Quad2018Side0 else Quad2018Side1, scale)
  {
    Canonicalize(points, scale, year, AsWritten)
  }

  /** `match_homography_points` with the roll its comment describes: the
      special marker moves to the third position. */
  function MatchHomographyPointsCorrected(points: seq<Detection>, scale: real := 10.0, year: int := 2018)
    : (r: Result<Correspondence>)
    ensures |points| != 4 ==> r == Err(WrongPointCount)
    ensures |points| == 4 && year != 2018 ==> r == Err(UnsupportedYear)
    ensures |points| == 4 && year == 2018 ==> (r.Ok? <==> SpecialIndex(points).Some?)
  {
    Canonicalize(points, scale, year, Intended)
  }
}
