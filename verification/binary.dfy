/** Fixed-width binary numbers as sequences of 0/1 integers, most significant
    bit first, and the two ways the codec folds them back into integers. */
module Binary {
  import opened Sequences

  function Pow2(k: nat): (p: nat)
    ensures p >= 1
  {
    if k == 0 then 1 else 2 * Pow2(k - 1)
  }

  predicate IsBit(v: int)
  {
    v == 0 || v == 1
  }

  predicate IsBits(b: seq<int>)
  {
    forall i :: 0 <= i < |b| ==> IsBit(b[i])
  }

  /** A prefix of a 0/1 digit string is one too. */
  lemma PrefixBits(b: seq<int>, n: nat)
    requires IsBits(b) && n <= |b|
    ensures IsBits(b[..n])
  {
    forall i | 0 <= i < n
      ensures IsBit(b[..n][i])
    {
      assert b[..n][i] == b[i];
    }
  }

  /** The `k` low bits of `n`, most significant first. Bit `i` is set exactly
      when `2 ** (k - 1 - i) & n` is nonzero; for a negative `n` this reads
      the two's-complement bits, which floor division reproduces. */
  function BitsOf(n: int, k: nat): (r: seq<int>)
    ensures |r| == k && IsBits(r)
    ensures ParseBinary(r) == n % Pow2(k)
  {
    var r := seq(k, i requires 0 <= i < k => (n / Pow2(k - 1 - i)) % 2);
    DigitsValue(n, k, r);
    r
  }

  /** `int(''.join(str(c) for c in b), 2)`: Horner's rule over the digits. */
  function ParseBinary(b: seq<int>): (v: int)
    ensures IsBits(b) ==> 0 <= v < Pow2(|b|)
  {
    if |b| == 0 then 0 else 2 * ParseBinary(b[..|b| - 1]) + b[|b| - 1]
  }

  /** `np.sum(2 ** np.array(range(|b|))[::-1] * b)`: each digit times its weight. */
  function WeightedSum(b: seq<int>): (v: int)
    ensures IsBits(b) ==> 0 <= v < Pow2(|b|)
  {
    if |b| == 0 then 0 else b[0] * Pow2(|b| - 1) + WeightedSum(b[1..])
  }

  /** Bit `i` of a `k`-bit reading of `n` is bit `i` of the `k - 1`-bit
      reading of `n / 2`, as long as it is not the last one. */
  lemma HalveBit(n: int, k: nat, i: nat)
    requires i < k
    ensures (n / Pow2(k - i)) % 2 == ((n / 2) / Pow2(k - 1 - i)) % 2
  {
    var p := Pow2(k - 1 - i);
    assert Pow2(k - i) == 2 * p;
    HalveDecomp(n, p);
  }

  /** Digits taken from `n` by repeated halving, most significant first, read
      back as `n` modulo `2^k`. */
  lemma {:induction false} DigitsValue(n: int, k: nat, r: seq<int>)
    requires |r| == k
    requires forall i :: 0 <= i < k ==> r[i] == (n / Pow2(k - 1 - i)) % 2
    ensures ParseBinary(r) == n % Pow2(k)
    decreases k
  {
    if k > 0 {
      var c := r[..k - 1];
      forall i | 0 <= i < k - 1
        ensures c[i] == ((n / 2) / Pow2(k - 2 - i)) % 2
      {
        HalveBit(n, k - 1, i);
      }
      DigitsValue(n / 2, k - 1, c);
      assert Pow2(0) == 1;
      assert r[k - 1] == (n / 1) % 2;
      HalveDecomp(n, Pow2(k - 1));
    }
  }

  /** Halving splits division and remainder by `2 * p` into a division and a
      remainder by `p` and the dropped low bit. */
  lemma HalveDecomp(n: int, p: int)
    requires p > 0
    ensures (n / 2) / p == n / (2 * p)
    ensures n % (2 * p) == 2 * ((n / 2) % p) + n % 2
  {
    var q := n / 2;
    var a := q / p;
    var c := q % p;
    assert n == a * (2 * p) + (2 * c + n % 2);
    DivModUnique(n, 2 * p, a, 2 * c + n % 2);
  }

  /** Taking one more bit appends the low bit to the bits of `n / 2`. */
  lemma BitsOfSnoc(n: int, k: nat)
    ensures BitsOf(n, k + 1) == BitsOf(n / 2, k) + [n % 2]
  {
    var l := BitsOf(n, k + 1);
    var r := BitsOf(n / 2, k) + [n % 2];
    forall i | 0 <= i < k + 1
      ensures l[i] == r[i]
    {
      if i < k {
        HalveBit(n, k, i);
        assert l[i] == (n / Pow2(k - i)) % 2;
        assert r[i] == ((n / 2) / Pow2(k - 1 - i)) % 2;
      } else {
        assert Pow2(0) == 1;
        assert l[i] == (n / 1) % 2;
      }
    }
    assert l == r;
  }

  /** Dropping the leading bit leaves the `k - 1` low bits. */
  lemma BitsOfTail(n: int, k: nat)
    requires k > 0
    ensures BitsOf(n, k)[1..] == BitsOf(n, k - 1)
  {
  }

  /** Reading a 0/1 digit string and taking its bits again restores it. */
  lemma {:induction false} BitsOfParse(b: seq<int>)
    requires IsBits(b)
    ensures BitsOf(ParseBinary(b), |b|) == b
  {
    if |b| > 0 {
      var k := |b| - 1;
      var c := b[..k];
      var n := ParseBinary(b);
      BitsOfParse(c);
      DivModUnique(n, 2, ParseBinary(c), b[k]);
      BitsOfSnoc(n, k);
      assert b == c + [b[k]];
    }
  }

  /** Bits of `n` depend only on `n` modulo `2^k`. */
  lemma BitsOfMod(n: int, k: nat)
    ensures BitsOf(n, k) == BitsOf(n % Pow2(k), k)
  {
    BitsOfParse(BitsOf(n, k));
  }

  lemma {:induction false} WeightedSumSnoc(b: seq<int>, v: int)
    ensures WeightedSum(b + [v]) == 2 * WeightedSum(b) + v
  {
    if |b| > 0 {
      var c := b + [v];
      var p := Pow2(|b| - 1);
      assert c[0] == b[0] && c[1..] == b[1..] + [v];
      assert Pow2(|c| - 1) == 2 * p;
      assert b[0] * (2 * p) == 2 * (b[0] * p);
      WeightedSumSnoc(b[1..], v);
    } else {
      assert b + [v] == [v];
    }
  }

  /** The weighted sum and Horner's rule agree on every digit string. */
  lemma {:induction false} WeightedSumIsParse(b: seq<int>)
    ensures WeightedSum(b) == ParseBinary(b)
  {
    if |b| > 0 {
      var c := b[..|b| - 1];
      WeightedSumIsParse(c);
      WeightedSumSnoc(c, b[|b| - 1]);
      assert b == c + [b[|b| - 1]];
    }
  }
}
