/** Round trips and layout facts of the `BeesbookID` codec. */
module IdsProperties {
  import opened Results
  import opened Sequences
  import opened Binary
  import opened Ids

  /** `as_dec_12(from_dec_12(n)) == n` on the 12-bit range. */
  lemma Dec12RoundTrip(n: int)
    requires 0 <= n < 4096
    ensures FromDec12(n).Ok? && AsDec12(FromDec12(n).value) == n
  {
    DivModUnique(n, 4096, 0, n);
  }

  /** `_dec_to_bin(as_dec_12(b)) == b`: decoding the number of a tag gives
      back its bits, so every tag is reached by `from_dec_12`. */
  lemma Dec12Inverse(id: BeesbookID)
    ensures FromDec12(AsDec12(id)) == Ok(id)
  {
    BitsOfParse(id.binary12);
  }

  /** `as_bin_9(from_bin_9(b)) == b`. */
  lemma Bin9RoundTrip(b: Bits12)
    ensures AsBin9(FromBin9(b)) == b
  {
    RollCancel(b, -3);
  }

  /** `from_bin_9(as_bin_9(id))` is the same tag. */
  lemma Bin9Inverse(id: BeesbookID)
    ensures FromBin9(AsBin9(id)) == id
  {
    RollCancel(id.binary12, 3);
  }

  /** Rolling the twelve bits of `m` back by one and dropping the last entry
      leaves the eleven low bits of `m`. */
  lemma RolledLowBits(m: int)
    ensures Roll(BitsOf(m, 12), -1)[..11] == BitsOf(m, 11)
  {
    var bits := BitsOf(m, 12);
    var rolled := Roll(bits, -1);
    forall j | 0 <= j < 11
      ensures rolled[j] == bits[j + 1]
    {
      RollAt(bits, -1, j);
      DivModUnique(j + 1, 12, 0, j + 1);
    }
    BitsOfTail(m, 12);
  }

  /** The bin_9 bits `from_ferwar` builds: the eleven low bits of the reduced
      value followed by the parity bit. */
  lemma FromFerwarBin9(n: int, inverse: bool, m: int)
    requires n < 6144
    requires inverse == (n >= 2048) && m == if inverse then n - 2048 else n
    ensures FromFerwar(n).Ok?
    ensures AsBin9(FromFerwar(n).value) == BitsOf(m, 11) + [ParityBit(BitsOf(m, 11), inverse)]
  {
    var bits := BitsOf(m, 12);
    var data := BitsOf(m, 11);
    var bin9: Bits12 := data + [ParityBit(data, inverse)];
    assert FromFerwar(n) == Ok(FromBin9(bin9)) by {
      assert DecToBin(m) == Ok(bits);
      RolledLowBits(m);
    }
    assert AsBin9(FromBin9(bin9)) == bin9 by {
      Bin9RoundTrip(bin9);
    }
  }

  /** Appending the parity bit makes the total parity odd exactly when it was
      inverted. */
  lemma AppendedParity(data: seq<int>, inverse: bool)
    ensures Sum(data + [ParityBit(data, inverse)]) % 2 == if inverse then 1 else 0
  {
    var p := ParityBit(data, inverse);
    SumConcat(data, [p]);
    assert Sum([p]) == p;
  }

  /** The parity of the bits `from_ferwar` writes is odd exactly when the
      parity bit was inverted. */
  lemma FromFerwarParity(n: int, inverse: bool, m: int)
    requires n < 6144
    requires inverse == (n >= 2048) && m == if inverse then n - 2048 else n
    ensures FromFerwar(n).Ok?
    ensures Sum(AsBin9(FromFerwar(n).value)) % 2 == if inverse then 1 else 0
  {
    FromFerwarBin9(n, inverse, m);
    AppendedParity(BitsOf(m, 11), inverse);
  }

  /** For `0 <= n < 4096`, `from_ferwar(n)` reads, from 9 o'clock, the eleven
      bits of `n mod 2048` followed by a bit that makes the parity of all
      twelve bits even exactly when `n < 2048`. */
  lemma FerwarLayout(n: int)
    requires 0 <= n < 4096
    ensures FromFerwar(n).Ok?
    ensures AsBin9(FromFerwar(n).value)[..11] == BitsOf(n % 2048, 11)
    ensures Sum(AsBin9(FromFerwar(n).value)) % 2 == 0 <==> n < 2048
  {
    var inverse := n >= 2048;
    var m := if inverse then n - 2048 else n;
    FromFerwarBin9(n, inverse, m);
    FromFerwarParity(n, inverse, m);
    DivModUnique(n, 2048, if inverse then 1 else 0, m);
  }

  /** `as_ferwar` of a tag laid out as eleven data bits of `m` and a parity
      bit is `m`, plus 2048 when the parity bit was inverted. */
  lemma AsFerwarOfLayout(x: BeesbookID, m: int, inverse: bool)
    requires 0 <= m < 2048
    requires AsBin9(x) == BitsOf(m, 11) + [ParityBit(BitsOf(m, 11), inverse)]
    ensures AsFerwar(x) == if inverse then m + 2048 else m
  {
    LayoutFields(AsBin9(x), m, inverse);
  }

  lemma LayoutFields(bin9: seq<int>, m: int, inverse: bool)
    requires 0 <= m < 2048
    requires bin9 == BitsOf(m, 11) + [ParityBit(BitsOf(m, 11), inverse)]
    ensures ParseBinary(bin9[..11]) == m
    ensures (Sum(bin9[..11]) % 2 != bin9[11]) == inverse
  {
    var data := BitsOf(m, 11);
    assert bin9[..11] == data;
    DivModUnique(m, 2048, 0, m);
  }

  /** `as_ferwar(from_ferwar(n)) == n` for every `0 <= n < 4096`. */
  lemma FerwarRoundTrip(n: int)
    requires 0 <= n < 4096
    ensures FromFerwar(n).Ok? && AsFerwar(FromFerwar(n).value) == n
  {
    var inverse := n >= 2048;
    var m := if inverse then n - 2048 else n;
    FromFerwarBin9(n, inverse, m);
    AsFerwarOfLayout(FromFerwar(n).value, m, inverse);
  }

  /** Tags are determined by their bits read from 9 o'clock. */
  lemma AsBin9Injective(x: BeesbookID, y: BeesbookID)
    requires AsBin9(x) == AsBin9(y)
    ensures x == y
  {
    Bin9Inverse(x);
    Bin9Inverse(y);
  }

  /** The twelfth bit is the parity bit of the first eleven, inverted exactly
      when it disagrees with their parity. */
  lemma ParityRebuild(c: seq<int>)
    requires |c| == 12 && IsBits(c)
    ensures c == c[..11] + [ParityBit(c[..11], Sum(c[..11]) % 2 != c[11])]
  {
    assert c == c[..11] + [c[11]];
  }

  /** `from_ferwar(as_ferwar(id))` is the same tag: ferwar numbers name tags
      one to one. */
  lemma FerwarInverse(id: BeesbookID)
    ensures FromFerwar(AsFerwar(id)) == Ok(id)
  {
    var c := AsBin9(id);
    var data := c[..11];
    var inverse := Sum(data) % 2 != c[11];
    AsFerwarFields(id);
    FromFerwarBin9(AsFerwar(id), inverse, ParseBinary(data));
    BitsOfParse(data);
    ParityRebuild(c);
    AsBin9Injective(FromFerwar(AsFerwar(id)).value, id);
  }

  /** `as_ferwar` splits into the value of the first eleven bin_9 bits and
      the inversion flag. */
  lemma AsFerwarFields(id: BeesbookID)
    ensures
      var data := AsBin9(id)[..11];
      && IsBits(data) && 0 <= ParseBinary(data) < 2048
      && AsFerwar(id) == if Sum(data) % 2 != AsBin9(id)[11] then ParseBinary(data) + 2048 else ParseBinary(data)
  {
    Bin9Fields(id, AsBin9(id));
  }

  /** Values in `[4096, 6144)` pass the assertion of `_dec_to_bin` after the
      subtraction of 2048 and lose their top bit: they name the same tag as
      the value 2048 lower. */
  lemma FerwarAboveRange(n: int)
    requires 4096 <= n < 6144
    ensures FromFerwar(n).Ok? && FromFerwar(n) == FromFerwar(n - 2048)
  {
    var k := n - 2048;
    var m := k - 2048;
    FromFerwarBin9(n, true, k);
    FromFerwarBin9(k, true, m);
    HighBitDropped(m, k);
    var x := FromFerwar(n).value;
    var y := FromFerwar(k).value;
    assert AsBin9(x) == AsBin9(y);
    AsBin9Injective(x, y);
  }

  /** Eleven bits cannot see the value 2048. */
  lemma HighBitDropped(m: int, k: int)
    requires 0 <= m < 2048 && k == m + 2048
    ensures BitsOf(k, 11) == BitsOf(m, 11)
  {
    BitsOfMod(k, 11);
    DivModUnique(k, 2048, 1, m);
  }
}
