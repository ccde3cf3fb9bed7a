/** The ranking tail of `locate_markers`: local maxima of the score surface
    are turned into `(score, x, y)` tuples, sorted in descending tuple order,
    cut to the first `n_markers`, and reported in original-image pixels.
    Finding the maxima and classifying polarity are parameters. */
module Ranking {
  import opened Fiducial

  /** A local maximum of the score surface at column `x`, row `y`. */
  datatype Peak = Peak(x: int, y: int, value: real)

  /** The tuple `(convs[y, x] / (rotation_steps * steps), x, y)`. */
  datatype Candidate = Candidate(score: real, x: int, y: int)

  /** The number of scale/rotation hypotheses, `rotation_steps * steps`. */
  const HypothesisCount: real := 9.0

  /** Python's `<` on `(score, x, y)` tuples: lexicographic. */
  predicate Below(a: Candidate, b: Candidate)
  {
    a.score < b.score || (a.score == b.score && (a.x < b.x || (a.x == b.x && a.y < b.y)))
  }

  predicate AtMost(a: Candidate, b: Candidate)
  {
    a == b || Below(a, b)
  }

  /** What `sorted(..., reverse=True)` produces: no element exceeds an earlier one. */
  predicate Descending(s: seq<Candidate>)
  {
    forall i, j :: 0 <= i < j < |s| ==> AtMost(s[j], s[i])
  }

  predicate Bounds(s: seq<Candidate>, top: Candidate)
  {
    forall e :: e in s ==> AtMost(e, top)
  }

  lemma ConsDescending(a: Candidate, t: seq<Candidate>)
    requires Descending(t) && Bounds(t, a)
    ensures Descending([a] + t)
  {
    var r := [a] + t;
    forall i, j | 0 <= i < j < |r|
      ensures AtMost(r[j], r[i])
    {
      assert r[j] == t[j - 1];
      if i > 0 {
        assert r[i] == t[i - 1];
      } else {
        assert t[j - 1] in t;
      }
    }
  }

  /** A bound on every element carries over to a permutation. */
  lemma BoundsPermutation(s: seq<Candidate>, t: seq<Candidate>, top: Candidate)
    requires Bounds(s, top) && multiset(s) == multiset(t)
    ensures Bounds(t, top)
  {
    forall e | e in t
      ensures AtMost(e, top)
    {
      assert e in multiset(t);
      assert e in multiset(s);
    }
  }

  /** Insertion into a descending list. */
  function Insert(c: Candidate, s: seq<Candidate>): (r: seq<Candidate>)
    requires Descending(s)
    ensures |r| == |s| + 1
    ensures Descending(r)
    ensures multiset(r) == multiset(s) + multiset{c}
  {
    if |s| == 0 then [c]
    else if AtMost(s[0], c) then
      assert Bounds(s, c) by {
        forall e | e in s
          ensures AtMost(e, c)
        {
          var i :| 0 <= i < |s| && s[i] == e;
          assert AtMost(s[i], s[0]);
        }
      }
      ConsDescending(c, s);
      [c] + s
    else
      var t := Insert(c, s[1..]);
      assert Bounds(s[1..] + [c], s[0]) by {
        forall e | e in s[1..] + [c]
          ensures AtMost(e, s[0])
        {
          if e != c {
            var i :| 0 <= i < |s[1..]| && s[1..][i] == e;
            assert AtMost(s[i + 1], s[0]);
          }
        }
      }
      BoundsPermutation(s[1..] + [c], t, s[0]);
      ConsDescending(s[0], t);
      assert s == [s[0]] + s[1..];
      [s[0]] + t
  }

  /** `sorted(s, reverse=True)`: the elements of `s` in descending tuple order. */
  function SortDescending(s: seq<Candidate>): (r: seq<Candidate>)
    ensures |r| == |s|
    ensures Descending(r)
    ensures multiset(r) == multiset(s)
  {
    if |s| == 0 then []
    else
      assert s == [s[0]] + s[1..];
      Insert(s[0], SortDescending(s[1..]))
  }

  /** Whether Python's `s[:n]` keeps index `i` of a list of length `len`: a
      non-negative stop counts from the front, a negative one from the end. */
  predicate SliceKeeps(len: nat, n: int, i: nat)
  {
    if n >= 0 then i < n else i < len + n
  }

  /** The length of Python's slice `s[:n]` for a list of length `len`: the
      slice keeps exactly the indices below it. */
  function SliceLength(len: nat, n: int): (m: nat)
    ensures m <= len
    ensures forall i: nat :: i < len ==> (i < m <==> SliceKeeps(len, n, i))
  {
    if n >= 0 then (if n < len then n else len)
    else (if len + n > 0 then len + n else 0)
  }

  /** `(convs[y, x] / (rotation_steps * steps), x, y)` for every peak: the
      response averaged over the hypotheses, kept at the same pixel. */
  function Candidates(peaks: seq<Peak>): (c: seq<Candidate>)
    ensures |c| == |peaks|
    ensures forall i :: 0 <= i < |peaks| ==>
      c[i].score * HypothesisCount == peaks[i].value && c[i].x == peaks[i].x && c[i].y == peaks[i].y
  {
    seq(|peaks|, i requires 0 <= i < |peaks| =>
      Candidate(peaks[i].value / HypothesisCount, peaks[i].x, peaks[i].y))
  }

  /** `sorted(extrema, reverse=True)[:n_markers]`. */
  function TopCandidates(peaks: seq<Peak>, nMarkers: int): (top: seq<Candidate>)
    ensures |top| == SliceLength(|peaks|, nMarkers)
    ensures Descending(top)
  {
    var sorted := SortDescending(Candidates(peaks));
    sorted[..SliceLength(|peaks|, nMarkers)]
  }

  /** One result tuple `(x / rescale, y / rescale, marker_type, score)`;
      `polarity` stands for the sign test on the window around the peak. */
  function Report(c: Candidate, rescale: real, polarity: (int, int) -> bool): (d: Detection)
    requires rescale != 0.0
    ensures d.x * rescale == c.x as real && d.y * rescale == c.y as real
    ensures d.polarity == polarity(c.x, c.y) && d.score == c.score
  {
    Detection(c.x as real / rescale, c.y as real / rescale, polarity(c.x, c.y), c.score)
  }

  /** The ranking tail of `locate_markers`: as many results as the slice keeps,
      scores never increasing, result `i` reporting the `i`-th best candidate. */
  function RankPeaks(peaks: seq<Peak>, nMarkers: int, rescale: real, polarity: (int, int) -> bool)
    : (r: seq<Detection>)
    requires rescale != 0.0
    ensures |r| == SliceLength(|peaks|, nMarkers)
    ensures forall i, j :: 0 <= i < j < |r| ==> r[j].score <= r[i].score
    ensures forall i :: 0 <= i < |r| ==>
      r[i] == Report(TopCandidates(peaks, nMarkers)[i], rescale, polarity)
  {
    var top := TopCandidates(peaks, nMarkers);
    seq(|top|, i requires 0 <= i < |top| => Report(top[i], rescale, polarity))
  }
}
