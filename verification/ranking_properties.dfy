/** What the ranking keeps and in which order. */
module RankingProperties {
  import opened Ranking

  /** Python's tuple `<` on candidates is a strict total order: irreflexive,
      asymmetric, transitive, and any two distinct candidates are ordered. */
  lemma BelowStrictTotal(a: Candidate, b: Candidate, c: Candidate)
    ensures !Below(a, a)
    ensures !(Below(a, b) && Below(b, a))
    ensures Below(a, b) && Below(b, c) ==> Below(a, c)
    ensures a == b || Below(a, b) || Below(b, a)
  {
  }

  /** `s[:n]` keeps a prefix: with index `i` it keeps every earlier index;
      a stop at or beyond the length keeps everything, and a negative stop
      at or below minus the length keeps nothing. */
  lemma SliceKeepsPrefix(len: nat, n: int)
    ensures forall i: nat, j: nat :: j <= i && SliceKeeps(len, n, i) ==> SliceKeeps(len, n, j)
    ensures n >= len ==> forall i: nat :: i < len ==> SliceKeeps(len, n, i)
    ensures n + len <= 0 ==> forall i: nat :: !SliceKeeps(len, n, i)
  {
  }

  /** Two candidates that each rank at most as high as the other are equal:
      tuple comparison never ties distinct candidates. */
  lemma AtMostAntisymmetric(a: Candidate, b: Candidate)
    requires AtMost(a, b) && AtMost(b, a)
    ensures a == b
  {
  }

  /** The head of a descending list ranks at least as high as every element. */
  lemma HeadIsGreatest(s: seq<Candidate>, x: Candidate)
    requires Descending(s) && x in multiset(s)
    ensures |s| > 0 && AtMost(x, s[0])
  {
    assert x in s;
    var j :| 0 <= j < |s| && s[j] == x;
    if j > 0 {
      assert AtMost(s[j], s[0]);
    }
  }

  /** There is only one descending arrangement of a multiset of candidates,
      so the result of the sort does not depend on the sorting algorithm. */
  lemma {:induction false} DescendingUnique(a: seq<Candidate>, b: seq<Candidate>)
    requires Descending(a) && Descending(b)
    requires multiset(a) == multiset(b)
    ensures a == b
    decreases |a|
  {
    if |a| == 0 {
      assert |b| == |multiset(b)| == 0;
    } else {
      HeadIsGreatest(b, a[0]);
      HeadIsGreatest(a, b[0]);
      AtMostAntisymmetric(a[0], b[0]);
      assert a == [a[0]] + a[1..];
      assert b == [b[0]] + b[1..];
      assert multiset(a) == multiset{a[0]} + multiset(a[1..]);
      assert multiset(b) == multiset{b[0]} + multiset(b[1..]);
      assert multiset(a[1..]) == multiset(a) - multiset{a[0]};
      assert multiset(b[1..]) == multiset(b) - multiset{b[0]};
      DescendingUnique(a[1..], b[1..]);
    }
  }

  /** The sorted candidates that the slice drops. */
  function Dropped(peaks: seq<Peak>, nMarkers: int): seq<Candidate>
  {
    SortDescending(Candidates(peaks))[SliceLength(|peaks|, nMarkers)..]
  }

  /** In a descending list, nothing after position `m` ranks above anything before it. */
  lemma PrefixDominates(s: seq<Candidate>, m: nat)
    requires Descending(s) && m <= |s|
    ensures forall c, i :: c in s[m..] && 0 <= i < m ==> AtMost(c, s[i])
  {
    forall c, i | c in s[m..] && 0 <= i < m
      ensures AtMost(c, s[i])
    {
      var j :| 0 <= j < |s[m..]| && s[m..][j] == c;
      assert s[m + j] == c;
    }
  }

  /** The kept and dropped candidates together are exactly the peaks'
      candidates, and no dropped candidate ranks above a kept one. */
  lemma TopCandidatesAreBest(peaks: seq<Peak>, nMarkers: int)
    ensures multiset(TopCandidates(peaks, nMarkers)) + multiset(Dropped(peaks, nMarkers))
              == multiset(Candidates(peaks))
    ensures forall c, i :: c in Dropped(peaks, nMarkers) && 0 <= i < |TopCandidates(peaks, nMarkers)| ==>
              AtMost(c, TopCandidates(peaks, nMarkers)[i])
  {
    var sorted := SortDescending(Candidates(peaks));
    var m := SliceLength(|peaks|, nMarkers);
    assert sorted == sorted[..m] + sorted[m..];
    PrefixDominates(sorted, m);
  }

  /** With `n_markers` at least the number of peaks, every peak is reported. */
  lemma AllPeaksKept(peaks: seq<Peak>, nMarkers: int)
    requires nMarkers >= |peaks|
    ensures multiset(TopCandidates(peaks, nMarkers)) == multiset(Candidates(peaks))
  {
    var sorted := SortDescending(Candidates(peaks));
    assert sorted[..|peaks|] == sorted;
  }

  /** Any descending arrangement of the peaks' candidates, cut by the same
      slice, gives the same markers as the model's insertion sort. */
  lemma TopCandidatesOfAnySort(peaks: seq<Peak>, nMarkers: int, sorted: seq<Candidate>)
    requires Descending(sorted) && multiset(sorted) == multiset(Candidates(peaks))
    ensures |sorted| == |peaks|
    ensures TopCandidates(peaks, nMarkers) == sorted[..SliceLength(|peaks|, nMarkers)]
  {
    DescendingUnique(sorted, SortDescending(Candidates(peaks)));
  }
}
