/** What the clockwise ordering and `match_homography_points` guarantee. */
module FiducialProperties {
  import opened Results
  import opened Sequences
  import opened Extrema
  import opened Fiducial

  /** `pts` lists the four corners of an axis-aligned rectangle with
      positive width and height, each exactly once, in any order. */
  predicate IsRectangle(pts: seq<Point>, left: real, top: real, right: real, bottom: real)
  {
    && left < right && top < bottom
    && |pts| == 4
    && (forall i :: 0 <= i < 4 ==>
         pts[i] in [Point(left, top), Point(right, top), Point(right, bottom), Point(left, bottom)])
    && Point(left, top) in pts && Point(right, top) in pts
    && Point(right, bottom) in pts && Point(left, bottom) in pts
  }

  /** For a rectangle, `arg_clockwise_order` visits top-left, top-right,
      bottom-right, bottom-left (clockwise with y pointing down), and every
      input index exactly once. */
  lemma ClockwiseOrderOfRectangle(pts: seq<Point>, left: real, top: real, right: real, bottom: real)
    requires IsRectangle(pts, left, top, right, bottom)
    ensures pts[ArgClockwiseOrder(pts)[0]] == Point(left, top)
    ensures pts[ArgClockwiseOrder(pts)[1]] == Point(right, top)
    ensures pts[ArgClockwiseOrder(pts)[2]] == Point(right, bottom)
    ensures pts[ArgClockwiseOrder(pts)[3]] == Point(left, bottom)
    ensures forall v :: 0 <= v < 4 ==> v in ArgClockwiseOrder(pts)
  {
    TopLeftFirst(pts, left, top, right, bottom);
    TopRightSecond(pts, left, top, right, bottom);
    BottomRightThird(pts, left, top, right, bottom);
    BottomLeftFourth(pts, left, top, right, bottom);
    DistinctIndicesCover(ArgClockwiseOrder(pts));
  }

  /** The top-left corner alone has the least `x + y`. */
  lemma TopLeftFirst(pts: seq<Point>, left: real, top: real, right: real, bottom: real)
    requires IsRectangle(pts, left, top, right, bottom)
    ensures pts[ArgClockwiseOrder(pts)[0]] == Point(left, top)
  {
    var o := ArgClockwiseOrder(pts);
    var c :| 0 <= c < 4 && pts[c] == Point(left, top);
    assert Sums(pts)[o[0]] <= Sums(pts)[c];
  }

  /** The top-right corner alone has the least `y - x`. */
  lemma TopRightSecond(pts: seq<Point>, left: real, top: real, right: real, bottom: real)
    requires IsRectangle(pts, left, top, right, bottom)
    ensures pts[ArgClockwiseOrder(pts)[1]] == Point(right, top)
  {
    var o := ArgClockwiseOrder(pts);
    var c :| 0 <= c < 4 && pts[c] == Point(right, top);
    assert Diffs(pts)[o[1]] <= Diffs(pts)[c];
  }

  /** The bottom-right corner alone has the greatest `x + y`. */
  lemma BottomRightThird(pts: seq<Point>, left: real, top: real, right: real, bottom: real)
    requires IsRectangle(pts, left, top, right, bottom)
    ensures pts[ArgClockwiseOrder(pts)[2]] == Point(right, bottom)
  {
    var o := ArgClockwiseOrder(pts);
    var c :| 0 <= c < 4 && pts[c] == Point(right, bottom);
    assert Sums(pts)[o[2]] >= Sums(pts)[c];
  }

  /** The bottom-left corner alone has the greatest `y - x`. */
  lemma BottomLeftFourth(pts: seq<Point>, left: real, top: real, right: real, bottom: real)
    requires IsRectangle(pts, left, top, right, bottom)
    ensures pts[ArgClockwiseOrder(pts)[3]] == Point(left, bottom)
  {
    var o := ArgClockwiseOrder(pts);
    var c :| 0 <= c < 4 && pts[c] == Point(left, bottom);
    assert Diffs(pts)[o[3]] >= Diffs(pts)[c];
  }

  /** Four distinct indices below 4 cover every index below 4. */
  /** Entry `i` of the sums is `x + y` and of the differences `y - x` for
      point `i`. */
  lemma SumsDiffsAt(pts: seq<Point>)
    ensures |Sums(pts)| == |pts| && |Diffs(pts)| == |pts|
    ensures forall i :: 0 <= i < |pts| ==> Sums(pts)[i] == pts[i].x + pts[i].y && Diffs(pts)[i] == pts[i].y - pts[i].x
  {
  }

  /** `x + y` and `y - x` together determine a point: two point lists with
      the same sums and differences are the same list. */
  lemma SumsDiffsDetermine(p: seq<Point>, q: seq<Point>)
    requires |p| == |q| && Sums(p) == Sums(q) && Diffs(p) == Diffs(q)
    ensures p == q
  {
    SumsDiffsAt(p);
    SumsDiffsAt(q);
    forall i | 0 <= i < |p|
      ensures p[i] == q[i]
    {
      assert Sums(p)[i] == Sums(q)[i] && Diffs(p)[i] == Diffs(q)[i];
      assert p[i].x == q[i].x && p[i].y == q[i].y;
    }
  }

  /** Row `i` of the reordered pair `(xa, xb)` is row `j` of `(a, b)`. */
  ghost predicate Paired<A, B>(xa: seq<A>, xb: seq<B>, a: seq<A>, b: seq<B>, i: int, j: int)
  {
    0 <= i < |xa| && i < |xb| && 0 <= j < |a| && j < |b| && xa[i] == a[j] && xb[i] == b[j]
  }

  /** Row `i` of `(xa, xb)` is some row of `(a, b)`. */
  ghost predicate RowFrom<A, B>(xa: seq<A>, xb: seq<B>, a: seq<A>, b: seq<B>, i: int)
  {
    exists j :: Paired(xa, xb, a, b, i, j)
  }

  /** Row `j` of `(a, b)` appears as some row of `(xa, xb)`. */
  ghost predicate RowKept<A, B>(xa: seq<A>, xb: seq<B>, a: seq<A>, b: seq<B>, j: int)
  {
    exists i :: Paired(xa, xb, a, b, i, j)
  }

  /** Indexing two lists by the same order keeps their rows together. */
  lemma ReorderPairs<A, B>(a: seq<A>, b: seq<B>, order: seq<nat>, xa: seq<A>, xb: seq<B>)
    requires |a| == |b| && |xa| == |order| && |xb| == |order|
    requires forall i :: 0 <= i < |order| ==> order[i] < |a| && xa[i] == a[order[i]] && xb[i] == b[order[i]]
    ensures forall i :: 0 <= i < |order| ==> RowFrom(xa, xb, a, b, i)
    ensures (forall j :: 0 <= j < |a| ==> j in order) ==> forall j :: 0 <= j < |a| ==> RowKept(xa, xb, a, b, j)
  {
    forall i | 0 <= i < |order|
      ensures RowFrom(xa, xb, a, b, i)
    {
      assert Paired(xa, xb, a, b, i, order[i]);
    }
    if forall j :: 0 <= j < |a| ==> j in order {
      forall j | 0 <= j < |a|
        ensures RowKept(xa, xb, a, b, j)
      {
        assert j in order;
        var i :| 0 <= i < |order| && order[i] == j;
        assert Paired(xa, xb, a, b, i, j);
      }
    }
  }

  /** `xy[order, :]` and `types[order]` use the same order, so clockwise
      position `i` holds the location and the polarity of one and the same
      marker; when the order visits every index, every marker appears. */
  lemma ClockwiseKeepsPairs(points: seq<Detection>)
    requires |points| == 4
    ensures forall i :: 0 <= i < 4 ==>
      RowFrom(ClockwiseLocations(points), ClockwisePolarities(points), Locations(points), Polarities(points), i)
    ensures VisitsAll(points) ==> forall j :: 0 <= j < 4 ==>
      RowKept(ClockwiseLocations(points), ClockwisePolarities(points), Locations(points), Polarities(points), j)
  {
    var order := ArgClockwiseOrder(Locations(points));
    ReorderPairs(Locations(points), Polarities(points), order, ClockwiseLocations(points), ClockwisePolarities(points));
  }

  lemma DistinctIndicesCover(o: seq<nat>)
    requires |o| == 4 && forall i :: 0 <= i < 4 ==> o[i] < 4
    requires o[0] != o[1] && o[0] != o[2] && o[0] != o[3]
    requires o[1] != o[2] && o[1] != o[3] && o[2] != o[3]
    ensures forall v :: 0 <= v < 4 ==> v in o
  {
    forall v | 0 <= v < 4
      ensures v in o
    {
      if v != o[0] && v != o[1] && v != o[2] {
        assert o[3] == v;
      }
    }
  }

  lemma CountTrueOfFour(s: seq<bool>)
    requires |s| == 4
    ensures CountTrue(s) ==
      (if s[0] then 1 else 0) + (if s[1] then 1 else 0) + (if s[2] then 1 else 0) + (if s[3] then 1 else 0)
  {
    var s1 := s[1..];
    var s2 := s1[1..];
    var s3 := s2[1..];
    assert s1[0] == s[1] && s2[0] == s[2] && s3[0] == s[3];
    assert CountTrue(s) == (if s[0] then 1 else 0) + CountTrue(s1);
    assert CountTrue(s1) == (if s[1] then 1 else 0) + CountTrue(s2);
    assert CountTrue(s2) == (if s[2] then 1 else 0) + CountTrue(s3);
    assert s3[1..] == [];
    assert CountTrue(s3) == (if s[3] then 1 else 0);
  }

  /** The target points are the chosen side's 2018 quadrilateral scaled by
      `scale` (`ScaledAt` gives them point by point): three bright markers
      choose side 0, otherwise side 1. */
  lemma TargetIsScaledQuad(points: seq<Detection>, scale: real, rule: ShiftRule)
    requires Canonicalize(points, scale, 2018, rule).Ok?
    ensures |Canonicalize(points, scale, 2018, rule).value.target| == 4
    ensures Canonicalize(points, scale, 2018, rule).value.target
      == Scaled(if CountTrue(Polarities(points)) > 2 then Quad2018Side0 else Quad2018Side1, scale)
  {
    CanonicalTarget(points, scale, rule, SpecialIndex(points).value);
  }

  /** Once the special marker is known, the target points are the chosen
      side's quadrilateral, scaled. */
  lemma CanonicalTarget(points: seq<Detection>, scale: real, rule: ShiftRule, k: nat)
    requires |points| == 4 && SpecialIndex(points) == Some(k)
    ensures Canonicalize(points, scale, 2018, rule).Ok?
    ensures Canonicalize(points, scale, 2018, rule).value.target
      == Scaled(if ImageSide(points) == 0 then Quad2018Side0 else Quad2018Side1, scale)
  {
  }

  /** Point `i` of a scaled list is point `i` with both coordinates scaled. */
  lemma ScaledAt(q: seq<Point>, scale: real, r: seq<Point>)
    requires r == Scaled(q, scale)
    ensures |r| == |q|
    ensures forall i :: 0 <= i < |q| ==> r[i] == Point(q[i].x * scale, q[i].y * scale)
  {
  }

  /** Scaling by `a` and then by `b` is scaling by `a * b`. */
  lemma ScaledTwice(q: seq<Point>, a: real, b: real)
    ensures Scaled(Scaled(q, a), b) == Scaled(q, a * b)
  {
    var l := Scaled(Scaled(q, a), b);
    var r := Scaled(q, a * b);
    forall i | 0 <= i < |q|
      ensures l[i] == r[i]
    {
      assert (q[i].x * a) * b == q[i].x * (a * b);
      assert (q[i].y * a) * b == q[i].y * (a * b);
    }
    assert l == r;
  }

  /** Once the special marker is known, the image points are the clockwise
      points rolled by the shift for its position. */
  lemma CanonicalSource(points: seq<Detection>, scale: real, rule: ShiftRule, k: nat, cw: seq<Point>)
    requires |points| == 4 && SpecialIndex(points) == Some(k)
    requires cw == ClockwiseLocations(points)
    ensures Canonicalize(points, scale, 2018, rule).Ok?
    ensures Canonicalize(points, scale, 2018, rule).value.source == Roll(cw, Shift(rule, k))
  {
  }

  /** The final image points are the clockwise points rolled by the shift:
      index `j` holds clockwise point `(j - shift) mod 4`, so the four points
      keep their cyclic order. */
  lemma SourceIsRotation(points: seq<Detection>, scale: real, rule: ShiftRule, shift: int)
    requires Canonicalize(points, scale, 2018, rule).Ok?
    requires shift == Shift(rule, SpecialIndex(points).value)
    ensures |points| == 4 && SpecialIndex(points).Some?
    ensures forall j :: 0 <= j < 4 ==>
      Canonicalize(points, scale, 2018, rule).value.source[j] == ClockwiseLocations(points)[(j - shift) % 4]
  {
    var k := SpecialIndex(points).value;
    var cw := ClockwiseLocations(points);
    var source := Canonicalize(points, scale, 2018, rule).value.source;
    assert source == Roll(cw, shift) by {
      CanonicalSource(points, scale, rule, k, cw);
    }
    RollReads(cw, shift, source);
  }

  lemma SlotArithmetic(k: int)
    requires 0 <= k < 4
    ensures ((2 * k + 2) % 4 - Shift(AsWritten, k)) % 4 == k
    ensures (2 * k + 2) % 4 == 2 <==> k in {0, 2}
    ensures (2 - Shift(Intended, k)) % 4 == k
  {
  }

  /** As written, the special marker found at clockwise position `k` ends at
      index `j == (2k + 2) mod 4`, which is index 2 only for `k` in {0, 2}. */
  lemma SpecialMarkerSlotAsWritten(points: seq<Detection>, scale: real, j: int)
    requires MatchHomographyPoints(points, scale, 2018).Ok?
    requires j == (2 * SpecialIndex(points).value + 2) % 4
    ensures |points| == 4 && SpecialIndex(points).Some?
    ensures ClockwisePolarities(points)[SpecialIndex(points).value] == SpecialPolarity(points)
    ensures 0 <= j < 4
    ensures MatchHomographyPoints(points, scale, 2018).value.source[j]
      == ClockwiseLocations(points)[SpecialIndex(points).value]
    ensures j == 2 <==> SpecialIndex(points).value in {0, 2}
  {
    var k := SpecialIndex(points).value;
    var cw := ClockwiseLocations(points);
    var source := MatchHomographyPoints(points, scale, 2018).value.source;
    assert source == Roll(cw, Shift(AsWritten, k)) by {
      CanonicalSource(points, scale, AsWritten, k, cw);
    }
    SlotAsWrittenAt(cw, k, source, j);
  }

  lemma SlotAsWrittenAt(cw: seq<Point>, k: nat, source: seq<Point>, j: int)
    requires |cw| == 4 && k < 4 && source == Roll(cw, Shift(AsWritten, k))
    requires j == (2 * k + 2) % 4
    ensures 0 <= j < 4 && source[j] == cw[k]
    ensures j == 2 <==> k in {0, 2}
  {
    RollLands(cw, Shift(AsWritten, k), k, j);
  }

  /** With the intended roll the special marker always ends at index 2. */
  lemma SpecialMarkerSlotCorrected(points: seq<Detection>, scale: real)
    requires MatchHomographyPointsCorrected(points, scale, 2018).Ok?
    ensures |points| == 4 && SpecialIndex(points).Some?
    ensures ClockwisePolarities(points)[SpecialIndex(points).value] == SpecialPolarity(points)
    ensures MatchHomographyPointsCorrected(points, scale, 2018).value.source[2]
      == ClockwiseLocations(points)[SpecialIndex(points).value]
  {
    var k := SpecialIndex(points).value;
    var cw := ClockwiseLocations(points);
    CanonicalSource(points, scale, Intended, k, cw);
    var shift := Shift(Intended, k);
    RollLands(cw, shift, k, 2);
  }

  /** When all four markers share one polarity there is no special marker and
      the lookup fails. */
  lemma UniformPolarityRejected(points: seq<Detection>, scale: real)
    requires |points| == 4
    requires forall i :: 0 <= i < 4 ==> points[i].polarity == points[0].polarity
    ensures MatchHomographyPoints(points, scale, 2018) == Err(NoSpecialMarker)
  {
    CountTrueOfFour(Polarities(points));
  }

  /** Whether the clockwise order visits every one of the four points. */
  predicate VisitsAll(points: seq<Detection>)
    requires |points| == 4
  {
    forall v :: 0 <= v < 4 ==> v in ArgClockwiseOrder(Locations(points))
  }

  /** A 3-1 split: three bright markers select side 0 and make the dark one
      special; three dark markers select side 1 and make the bright one
      special. When the clockwise order visits every point, the lookup
      succeeds and finds the odd marker. */
  lemma ThreeOneSplit(points: seq<Detection>, scale: real, odd: nat)
    requires |points| == 4 && odd < 4 && VisitsAll(points)
    requires forall i :: 0 <= i < 4 && i != odd ==> points[i].polarity != points[odd].polarity
    ensures ImageSide(points) == (if points[odd].polarity then 1 else 0)
    ensures SpecialPolarity(points) == points[odd].polarity
    ensures MatchHomographyPoints(points, scale, 2018).Ok?
    ensures ClockwiseLocations(points)[SpecialIndex(points).value] == Point(points[odd].x, points[odd].y)
  {
    CountTrueOfFour(Polarities(points));
    var order := ArgClockwiseOrder(Locations(points));
    assert odd in order;
    var j :| 0 <= j < 4 && order[j] == odd;
    assert ClockwisePolarities(points)[j] == SpecialPolarity(points);
    var r := SpecialIndex(points).value;
    assert points[order[r]].polarity == points[odd].polarity;
    assert order[r] == odd;
  }

  /** A 2-2 split is not rejected: side 1 is chosen, the special polarity is
      bright, and the special marker is the first bright one in clockwise
      order. */
  lemma TwoTwoSplit(points: seq<Detection>, scale: real)
    requires |points| == 4 && VisitsAll(points)
    requires CountTrue(Polarities(points)) == 2
    ensures ImageSide(points) == 1 && SpecialPolarity(points)
    ensures MatchHomographyPoints(points, scale, 2018).Ok?
    ensures ClockwisePolarities(points)[SpecialIndex(points).value]
    ensures forall j :: 0 <= j < SpecialIndex(points).value ==> !ClockwisePolarities(points)[j]
  {
    CountTrueOfFour(Polarities(points));
    var order := ArgClockwiseOrder(Locations(points));
    var b :| 0 <= b < 4 && points[b].polarity;
    assert b in order;
    var j :| 0 <= j < 4 && order[j] == b;
    assert ClockwisePolarities(points)[j];
  }

  /** A square seen upright with the dark marker at the top-right corner. */
  const UprightSquare: seq<Detection> :=
    [Detection(0.0, 0.0, true, 1.0), Detection(10.0, 0.0, false, 1.0),
     Detection(10.0, 10.0, true, 1.0), Detection(0.0, 10.0, true, 1.0)]

  const UprightCorners: seq<Point> :=
    [Point(0.0, 0.0), Point(10.0, 0.0), Point(10.0, 10.0), Point(0.0, 10.0)]

  lemma UprightSquareLocations()
    ensures Locations(UprightSquare) == UprightCorners
    ensures IsRectangle(UprightCorners, 0.0, 0.0, 10.0, 10.0)
  {
    assert UprightCorners[0] == Point(0.0, 0.0);
    assert UprightCorners[1] == Point(10.0, 0.0);
    assert UprightCorners[2] == Point(10.0, 10.0);
    assert UprightCorners[3] == Point(0.0, 10.0);
  }

  lemma UprightSquareOrder()
    ensures ArgClockwiseOrder(Locations(UprightSquare)) == [0, 1, 2, 3]
  {
    UprightSquareLocations();
    ClockwiseOrderOfRectangle(UprightCorners, 0.0, 0.0, 10.0, 10.0);
  }

  lemma UprightSquareClockwise()
    ensures ClockwiseLocations(UprightSquare) == UprightCorners
    ensures ClockwisePolarities(UprightSquare) == [true, false, true, true]
  {
    UprightSquareOrder();
  }

  lemma UprightSquareSpecial()
    ensures ImageSide(UprightSquare) == 0
    ensures SpecialIndex(UprightSquare) == Some(1)
  {
    UprightSquareClockwise();
    CountTrueOfFour(Polarities(UprightSquare));
  }

  /** The upright corners rolled by 3 and by 1. */
  lemma UprightRolls()
    ensures Roll(UprightCorners, 3)[0] == Point(10.0, 0.0)
    ensures Roll(UprightCorners, 3)[2] == Point(0.0, 10.0)
    ensures Roll(UprightCorners, 1)[2] == Point(10.0, 0.0)
  {
    assert |UprightCorners| == 4;
    RollSlot(UprightCorners, 3, 0, 1);
    RollSlot(UprightCorners, 3, 2, 3);
    RollSlot(UprightCorners, 1, 2, 1);
  }

  /** In the upright square three bright markers select side 0 and the dark
      marker is clockwise position 1; the roll as written moves the clockwise
      list by 3, which puts the dark marker first instead of third. */
  lemma MisplacedSpecialMarkerExample()
    ensures MatchHomographyPoints(UprightSquare, 1.0, 2018).Ok?
    ensures MatchHomographyPoints(UprightSquare, 1.0, 2018).value.source[0] == Point(10.0, 0.0)
    ensures MatchHomographyPoints(UprightSquare, 1.0, 2018).value.source[2] == Point(0.0, 10.0)
  {
    UprightSquareSpecial();
    UprightSquareClockwise();
    CanonicalSource(UprightSquare, 1.0, AsWritten, 1, UprightCorners);
    assert Shift(AsWritten, 1) == 3;
    var source := Roll(UprightCorners, 3);
    assert MatchHomographyPoints(UprightSquare, 1.0, 2018).value.source == source;
    UprightRolls();
  }

  /** The intended roll moves the same clockwise list by 1 and puts the dark
      marker third. */
  lemma CorrectedSpecialMarkerExample()
    ensures MatchHomographyPointsCorrected(UprightSquare, 1.0, 2018).Ok?
    ensures MatchHomographyPointsCorrected(UprightSquare, 1.0, 2018).value.source[2] == Point(10.0, 0.0)
  {
    UprightSquareSpecial();
    UprightSquareClockwise();
    CanonicalSource(UprightSquare, 1.0, Intended, 1, UprightCorners);
    assert Shift(Intended, 1) == 1;
    UprightRolls();
  }

  /** A square turned by 45 degrees, its corners on the axes, with three
      bright markers and a dark one on the left. */
  const Diamond: seq<Detection> :=
    [Detection(0.0, -1.0, true, 1.0), Detection(1.0, 0.0, true, 1.0),
     Detection(0.0, 1.0, true, 1.0), Detection(-1.0, 0.0, false, 1.0)]

  const DiamondCorners: seq<Point> :=
    [Point(0.0, -1.0), Point(1.0, 0.0), Point(0.0, 1.0), Point(-1.0, 0.0)]

  lemma DiamondLocations()
    ensures Locations(Diamond) == DiamondCorners
    ensures Sums(DiamondCorners) == [-1.0, 1.0, 1.0, -1.0]
    ensures Diffs(DiamondCorners) == [-1.0, -1.0, 1.0, 1.0]
  {
    assert DiamondCorners[0] == Point(0.0, -1.0);
    assert DiamondCorners[1] == Point(1.0, 0.0);
    assert DiamondCorners[2] == Point(0.0, 1.0);
    assert DiamondCorners[3] == Point(-1.0, 0.0);
  }

  /** For the turned square `x + y` and `y - x` tie in pairs, the first
      occurrence wins every tie, and index 3 is never chosen: the "clockwise
      order" repeats index 0 and leaves one point out. */
  lemma DiamondOrder()
    ensures ArgClockwiseOrder(Locations(Diamond)) == [0, 0, 1, 2]
    ensures !VisitsAll(Diamond)
  {
    DiamondLocations();
    var s := Sums(DiamondCorners);
    var d := Diffs(DiamondCorners);
    var o := ArgClockwiseOrder(DiamondCorners);
    FirstMinUnique(s, o[0], 0);
    FirstMinUnique(d, o[1], 0);
    FirstMaxUnique(s, o[2], 1);
    FirstMaxUnique(d, o[3], 2);
    assert o == [0, 0, 1, 2];
    assert 3 !in o;
  }

  /** The dark marker of the turned square is the special one, but the
      clockwise order never visits it, so the `FirstIndexOf` lookup
      (`np.argwhere(...)[0]`) finds no special marker although the markers
      form a 3-1 split. */
  lemma DiamondRejected(scale: real)
    ensures ImageSide(Diamond) == 0 && !SpecialPolarity(Diamond)
    ensures ClockwisePolarities(Diamond) == [true, true, true, true]
    ensures MatchHomographyPoints(Diamond, scale, 2018) == Err(NoSpecialMarker)
  {
    DiamondOrder();
    CountTrueOfFour(Polarities(Diamond));
    assert ClockwisePolarities(Diamond) == [true, true, true, true];
  }
}
