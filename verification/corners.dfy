/** The region arithmetic of `locate_markers_in_corners`: four search regions
    anchored at the image corners, and detections shifted from region
    coordinates back into image coordinates. The search inside a region
    (`locate_markers` on the sub-image) is a parameter. */
module Corners {
  import opened Results
  import opened Fiducial

  /** Python's `int(v)` on a float: truncation toward zero. */
  function Trunc(v: real): (t: int)
    ensures v >= 0.0 ==> t as real <= v < t as real + 1.0
    ensures v < 0.0 ==> t as real - 1.0 < v <= t as real
  {
    if v >= 0.0 then v.Floor else -((-v).Floor)
  }

  /** A rectangle of the image: top-left anchor and size, in pixels. */
  datatype Region = Region(left: int, top: int, width: int, height: int)

  /** `int(n * ratio)`: the side of a corner region along an image side of
      `n` pixels. For `0 < ratio <= 1` it lies in `[0, n]` and does not
      exceed the exact share `n * ratio`. */
  function Share(n: nat, ratio: real): (s: int)
    ensures s == Trunc(n as real * ratio)
    ensures 0.0 < ratio <= 1.0 ==> 0 <= s <= n && s as real <= n as real * ratio
  {
    if 0.0 < ratio <= 1.0 then
      ShareBounds(n as real, ratio);
      TruncWithin(n as real * ratio, n);
      Trunc(n as real * ratio)
    else
      Trunc(n as real * ratio)
  }

  /** The four search regions of an `h` by `w` image, in the order top-left,
      top-right, bottom-left, bottom-right. Each is `int(w * ratio)` wide and
      `int(h * ratio)` high, and touches its own corner of the image. */
  function CornerRegions(h: nat, w: nat, ratio: real): (regions: seq<Region>)
    ensures |regions| == 4
    ensures forall i :: 0 <= i < 4 ==>
      regions[i].width == Share(w, ratio) && regions[i].height == Share(h, ratio)
    ensures regions[0].left == 0 && regions[0].top == 0
    ensures regions[1].left + regions[1].width == w && regions[1].top == 0
    ensures regions[2].left == 0 && regions[2].top + regions[2].height == h
    ensures regions[3].left + regions[3].width == w && regions[3].top + regions[3].height == h
  {
    var cw := Share(w, ratio);
    var ch := Share(h, ratio);
    [Region(0, 0, cw, ch), Region(w - cw, 0, cw, ch), Region(0, h - ch, cw, ch), Region(w - cw, h - ch, cw, ch)]
  }

  /** `x_ += x; y_ += y`: a detection in region coordinates moved into image
      coordinates. */
  function Offset(d: Detection, r: Region): (e: Detection)
    ensures e.x - d.x == r.left as real && e.y - d.y == r.top as real
    ensures e.polarity == d.polarity && e.score == d.score
  {
    Detection(d.x + r.left as real, d.y + r.top as real, d.polarity, d.score)
  }

  /** The loop of `locate_markers_in_corners` over `regions`: the first
      detection of every region, offset by its anchor; an empty result in
      any region raises. */
  function FirstDetections(regions: seq<Region>, search: Region -> seq<Detection>)
    : (r: Result<seq<Detection>>)
    ensures r.Ok? <==> forall i :: 0 <= i < |regions| ==> |search(regions[i])| > 0
    ensures r.Err? ==> r.error == NoDetectionInRegion
    ensures r.Ok? ==> |r.value| == |regions|
    ensures r.Ok? ==> forall i :: 0 <= i < |regions| ==>
      r.value[i] == Offset(search(regions[i])[0], regions[i])
  {
    if |regions| == 0 then Ok([])
    else
      var found := search(regions[0]);
      if |found| == 0 then Err(NoDetectionInRegion)
      else
        match FirstDetections(regions[1..], search)
        case Err(e) => Err(e)
        case Ok(rest) => Ok([Offset(found[0], regions[0])] + rest)
  }

  /** `locate_markers_in_corners` on an `h` by `w` single-channel image, where
      `search(region)` stands for `locate_markers(..., n_markers=1)` on that
      region and reports positions relative to the region. */
  function LocateMarkersInCorners(h: nat, w: nat, ratio: real := 0.25, search: Region -> seq<Detection>)
    : (r: Result<seq<Detection>>)
    ensures r.Ok? <==> forall i :: 0 <= i < 4 ==> |search(CornerRegions(h, w, ratio)[i])| > 0
    ensures r.Err? ==> r.error == NoDetectionInRegion
    ensures r.Ok? ==> |r.value| == 4
    ensures r.Ok? ==> forall i :: 0 <= i < 4 ==>
      var region := CornerRegions(h, w, ratio)[i];
      r.value[i] == Offset(search(region)[0], region)
  {
    FirstDetections(CornerRegions(h, w, ratio), search)
  }

  /** For `0 < ratio <= 1` every region lies inside the image, and no region
      is larger than a `ratio` share of the image. */
  lemma RegionsInsideImage(h: nat, w: nat, ratio: real)
    requires 0.0 < ratio <= 1.0
    ensures forall i :: 0 <= i < 4 ==>
      var r := CornerRegions(h, w, ratio)[i];
      && 0 <= r.left && r.left + r.width <= w
      && 0 <= r.top && r.top + r.height <= h
      && 0 <= r.width && r.width as real <= w as real * ratio
      && 0 <= r.height && r.height as real <= h as real * ratio
  {
    var regions := CornerRegions(h, w, ratio);
    var cw := Share(w, ratio);
    var ch := Share(h, ratio);
    assert forall i :: 0 <= i < 4 ==> regions[i].width == cw && regions[i].height == ch;
  }

  lemma ShareBounds(a: real, ratio: real)
    requires 0.0 <= a && 0.0 < ratio <= 1.0
    ensures 0.0 <= a * ratio <= a
  {
    assert a - a * ratio == a * (1.0 - ratio);
  }

  /** Truncating a value in `[0, n]` gives an integer in `[0, n]` that does
      not exceed the value. */
  lemma TruncWithin(v: real, n: int)
    requires 0.0 <= v <= n as real
    ensures 0 <= Trunc(v) <= n && Trunc(v) as real <= v
  {
  }
}
