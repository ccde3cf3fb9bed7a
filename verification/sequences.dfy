/** Cyclic rotation (`np.roll`) and summation over sequences, with the
    modular-arithmetic facts they rest on. */
module Sequences {

  /** The quotient and remainder of `m` by a positive `n` are the unique pair
      with `m == k * n + b` and `0 <= b < n`. */
  lemma DivModUnique(m: int, n: int, k: int, b: int)
    requires n > 0 && 0 <= b < n && m == k * n + b
    ensures m / n == k && m % n == b
  {
    var d := k - m / n;
    assert d * n == m % n - b;
    if d >= 1 {
      MulAtLeast(d, n);
    } else if d <= -1 {
      MulAtLeast(-d, n);
    }
  }

  lemma MulAtLeast(d: int, n: int)
    requires d >= 1 && n > 0
    ensures d * n >= n
  {
    assert d * n == (d - 1) * n + n;
  }

  /** Reducing the first summand modulo `n` does not change the sum's residue. */
  lemma ModOfSum(x: int, y: int, n: int)
    requires n > 0
    ensures (x % n + y) % n == (x + y) % n
  {
    var q := x / n;
    var b := (x + y) % n;
    var k := (x + y) / n;
    assert x % n + y == (k - q) * n + b;
    DivModUnique(x % n + y, n, k - q, b);
  }

  /** `np.roll(a, shift)` along its only axis: a rearrangement of `a`, whose
      placement `RollMoves` states. */
  function Roll<T>(a: seq<T>, shift: int): (r: seq<T>)
    ensures |r| == |a|
    ensures multiset(r) == multiset(a)
  {
    if |a| == 0 then []
    else
      var r := seq(|a|, j requires 0 <= j < |a| => a[(j - shift) % |a|]);
      RotationSplit(a, shift, r);
      r
  }

  /** A sequence read `shift` places back, cyclically, is the last
      `shift mod |a|` elements followed by the rest, so it holds the same
      elements. */
  lemma RotationSplit<T>(a: seq<T>, shift: int, r: seq<T>)
    requires |a| > 0 && |r| == |a|
    requires forall j :: 0 <= j < |a| ==> r[j] == a[(j - shift) % |a|]
    ensures r == a[|a| - shift % |a|..] + a[..|a| - shift % |a|]
    ensures multiset(r) == multiset(a)
  {
    var n := |a|;
    var t := shift % n;
    var q := shift / n;
    var u := a[n - t..] + a[..n - t];
    forall j | 0 <= j < n
      ensures r[j] == u[j]
    {
      assert shift == q * n + t;
      if j < t {
        assert j - shift == (-q - 1) * n + (j - t + n);
        DivModUnique(j - shift, n, -q - 1, j - t + n);
      } else {
        assert j - shift == (-q) * n + (j - t);
        DivModUnique(j - shift, n, -q, j - t);
      }
    }
    assert r == u;
    assert a == a[..n - t] + a[n - t..];
  }

  /** The defining property of `np.roll`: the element at index `i` moves to
      index `(i + shift) mod |a|`. */
  lemma RollMoves<T>(a: seq<T>, shift: int)
    ensures forall i :: 0 <= i < |a| ==> Roll(a, shift)[(i + shift) % |a|] == a[i]
  {
    forall i | 0 <= i < |a|
      ensures Roll(a, shift)[(i + shift) % |a|] == a[i]
    {
      ModOfSum(i + shift, -shift, |a|);
      DivModUnique(i, |a|, 0, i);
    }
  }

  /** Index `j` of a roll reads index `(j - shift) mod |a|` of the original. */
  lemma RollAt<T>(a: seq<T>, shift: int, j: int)
    requires 0 <= j < |a|
    ensures Roll(a, shift)[j] == a[(j - shift) % |a|]
  {
  }

  /** `RollAt` with the source index named. */
  lemma RollSlot<T>(a: seq<T>, shift: int, j: int, i: int)
    requires 0 <= j < |a| && i == (j - shift) % |a|
    ensures Roll(a, shift)[j] == a[i]
  {
  }

  /** Index `i` lands at index `j` when `j` is `i + shift` reduced modulo `|a|`. */
  lemma RollLands<T>(a: seq<T>, shift: int, i: int, j: int)
    requires 0 <= i < |a| && j == (i + shift) % |a|
    ensures Roll(a, shift)[j] == a[i]
  {
    ModOfSum(i + shift, -shift, |a|);
    DivModUnique(i, |a|, 0, i);
  }

  /** Every index of a roll reads back `shift` places, cyclically. */
  lemma RollReads<T>(a: seq<T>, shift: int, r: seq<T>)
    requires r == Roll(a, shift)
    ensures |r| == |a|
    ensures forall j :: 0 <= j < |r| ==> r[j] == a[(j - shift) % |a|]
  {
  }

  lemma RollComposeAt<T>(a: seq<T>, s: int, t: int, u: int, j: int)
    requires 0 <= j < |a| && u == s + t
    ensures Roll(Roll(a, s), t)[j] == Roll(a, u)[j]
  {
    var n := |a|;
    var b := Roll(a, s);
    var k := (j - t) % n;
    var i := (j - u) % n;
    ModOfSum(j - t, -s, n);
    assert (k - s) % n == i;
    RollAt(b, t, j);
    RollAt(a, s, k);
    RollAt(a, u, j);
  }

  /** Two sequences that agree at every index are equal. */
  lemma SameElements<T>(c: seq<T>, d: seq<T>)
    requires |c| == |d|
    requires forall j :: 0 <= j < |c| ==> c[j] == d[j]
    ensures c == d
  {
  }

  /** Rolling by `s` and then by `t` is rolling by `s + t`. */
  lemma RollCompose<T>(a: seq<T>, s: int, t: int)
    ensures Roll(Roll(a, s), t) == Roll(a, s + t)
  {
    var u := s + t;
    RollComposeEvery(a, s, t, u);
    SameElements(Roll(Roll(a, s), t), Roll(a, u));
  }

  lemma RollComposeEvery<T>(a: seq<T>, s: int, t: int, u: int)
    requires u == s + t
    ensures forall j :: 0 <= j < |a| ==> Roll(Roll(a, s), t)[j] == Roll(a, u)[j]
  {
    forall j | 0 <= j < |a|
      ensures Roll(Roll(a, s), t)[j] == Roll(a, u)[j]
    {
      RollComposeAt(a, s, t, u, j);
    }
  }

  /** Rolling by zero changes nothing. */
  lemma RollZero<T>(a: seq<T>)
    ensures Roll(a, 0) == a
  {
    var b := Roll(a, 0);
    forall j | 0 <= j < |a|
      ensures b[j] == a[j]
    {
      RollAt(a, 0, j);
      DivModUnique(j, |a|, 0, j);
    }
    assert b == a;
  }

  /** Rolling by `s` and then by `-s` restores the sequence. */
  lemma RollCancel<T>(a: seq<T>, s: int)
    ensures Roll(Roll(a, s), -s) == a
  {
    var c := Roll(Roll(a, s), -s);
    RollCompose(a, s, -s);
    assert c == Roll(a, s + -s);
    assert s + -s == 0;
    RollZero(a);
  }

  /** A roll is a split-and-swap: the last `shift mod |a|` elements come first. */
  lemma RollSplit<T>(a: seq<T>, shift: int)
    requires |a| > 0
    ensures Roll(a, shift) == a[|a| - shift % |a|..] + a[..|a| - shift % |a|]
  {
    RotationSplit(a, shift, Roll(a, shift));
  }

  /** `np.sum` of an integer sequence. */
  function Sum(s: seq<int>): int
  {
    if |s| == 0 then 0 else s[0] + Sum(s[1..])
  }

  lemma {:induction false} SumConcat(x: seq<int>, y: seq<int>)
    ensures Sum(x + y) == Sum(x) + Sum(y)
  {
    if |x| == 0 {
      assert x + y == y;
    } else {
      assert (x + y)[1..] == x[1..] + y;
      SumConcat(x[1..], y);
    }
  }

  /** Swapping the two halves of a split leaves the total unchanged. */
  lemma SwapSum(a: seq<int>, c: int)
    requires 0 <= c <= |a|
    ensures Sum(a[c..] + a[..c]) == Sum(a)
  {
    SumConcat(a[c..], a[..c]);
    SumConcat(a[..c], a[c..]);
    assert a[..c] + a[c..] == a;
  }

  /** The total of a sequence does not depend on how far it has been rolled. */
  lemma RollSum(a: seq<int>, shift: int)
    ensures Sum(Roll(a, shift)) == Sum(a)
  {
    if |a| > 0 {
      RollSplit(a, shift);
      SwapSum(a, |a| - shift % |a|);
    }
  }

  /** Over 0/1 entries, `np.sum` counts the ones, so it lies between 0 and
      the length. */
  lemma {:induction false} SumOfBits(s: seq<int>)
    requires forall i :: 0 <= i < |s| ==> s[i] == 0 || s[i] == 1
    ensures Sum(s) == multiset(s)[1]
    ensures 0 <= Sum(s) <= |s|
  {
    if |s| > 0 {
      assert s == [s[0]] + s[1..];
      assert multiset(s) == multiset{s[0]} + multiset(s[1..]);
      SumOfBits(s[1..]);
    }
  }
}
