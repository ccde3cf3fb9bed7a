/** The `BeesbookID` codec: one 12-bit tag code and its four representations.
    - bin_12 / bb_binary: the bits read clockwise from the 12 o'clock position;
    - bin_9: the same ring read from the 9 o'clock position, i.e. bin_12 rolled by 3;
    - dec_12: the bin_12 bits as an unsigned number, most significant bit first;
    - ferwar / dec_9: the first 11 bin_9 bits as a number, plus 2048 when the
      twelfth bin_9 bit makes the parity of all twelve bits odd. */
module Ids {
  import opened Results
  import opened Sequences
  import opened Binary

  /** Twelve 0/1 values, as every representation of a tag code holds. */
  type Bits12 = b: seq<int> | |b| == 12 && IsBits(b)
    witness [0, 0, 0, 0, 0, 0, 0, 0, 0, 0, 0, 0]

  /** A tag code, stored in bin_12 order. */
  datatype BeesbookID = BeesbookID(binary12: Bits12)

  /** Rolling keeps every entry a bit. */
  lemma RollBits(b: seq<int>, shift: int)
    requires IsBits(b)
    ensures IsBits(Roll(b, shift))
  {
    forall j | 0 <= j < |b|
      ensures IsBit(Roll(b, shift)[j])
    {
      RollAt(b, shift, j);
    }
  }

  /** `_dec_to_bin`: the twelve low bits of `n`, most significant first; an
      `n` of 4096 or more fails the assertion. A negative `n` passes the
      assertion and yields its two's-complement low bits. */
  function DecToBin(n: int): (r: Result<Bits12>)
    ensures r.Ok? <==> n < 4096
    ensures r.Ok? ==> ParseBinary(r.value) == n % 4096
  {
    if n < 4096 then
      Ok(BitsOf(n, 12))
    else
      Err(AssertionFailed)
  }

  /** `from_bin_12`: the bits are the bin_12 code as given. */
  function FromBin12(b: Bits12): (id: BeesbookID)
    ensures id.binary12 == b
  {
    BeesbookID(b)
  }

  /** `from_bb_binary`: bb_binary is the bin_12 order, kept as given, so it
      builds the same tag as `from_bin_12`. */
  function FromBbBinary(b: Bits12): (id: BeesbookID)
    ensures id.binary12 == b && id == FromBin12(b)
  {
    BeesbookID(b)
  }

  /** `as_bb_binary`: the stored bin_12 bits, unchanged. */
  function AsBbBinary(id: BeesbookID): (b: Bits12)
    ensures FromBbBinary(b) == id
  {
    id.binary12
  }

  /** `from_bin_9`: the 12 o'clock reading starts three bits into the
      9 o'clock reading and wraps around to its first three bits. */
  function FromBin9(b: Bits12): (id: BeesbookID)
    ensures id.binary12 == b[3..] + b[..3]
  {
    RollBits(b, -3);
    RollSplit(b, -3);
    BeesbookID(Roll(b, -3))
  }

  /** `as_bin_9`: the 9 o'clock reading starts with the last three bits of
      the 12 o'clock reading; `from_bin_9` undoes it. */
  function AsBin9(id: BeesbookID): (b: Bits12)
    ensures b == id.binary12[9..] + id.binary12[..9]
    ensures FromBin9(b) == id
  {
    var x := id.binary12;
    RollBits(x, 3);
    RollSplit(x, 3);
    RollCancel(x, 3);
    Roll(x, 3)
  }

  /** `as_dec_12`: the bin_12 bits as a number in `[0, 4096)`, read most
      significant bit first. */
  function AsDec12(id: BeesbookID): (r: int)
    ensures 0 <= r < 4096
    ensures r == ParseBinary(id.binary12)
  {
    WeightedSumIsParse(id.binary12);
    WeightedSum(id.binary12)
  }

  /** `from_dec_12`: the tag whose bin_12 bits are `_dec_to_bin(n)`. */
  function FromDec12(n: int): (r: Result<BeesbookID>)
    ensures r.Ok? <==> n < 4096
    ensures r.Ok? ==> ParseBinary(r.value.binary12) == n % 4096
  {
    match DecToBin(n)
    case Err(e) => Err(e)
    case Ok(bits) => Ok(BeesbookID(bits))
  }

  /** The parity bit `from_ferwar` writes after the eleven data bits. */
  function ParityBit(data: seq<int>, inverse: bool): (p: int)
    ensures IsBit(p)
    ensures (Sum(data) + p) % 2 == (if inverse then 1 else 0)
  {
    var parity := Sum(data) % 2;
    if inverse then 1 - parity else parity
  }

  /** `from_ferwar`: ids of 2048 and above lose 2048 and get the inverted
      parity bit. The remaining value passes through `_dec_to_bin`, whose
      leading bit is rotated to the end and overwritten by the parity bit;
      the result is read as bin_9. Only a value of 6144 or more is refused,
      by the assertion inside `_dec_to_bin`. */
  function FromFerwar(n: int): (r: Result<BeesbookID>)
    ensures r.Ok? <==> n < 6144
  {
    var inverse := n >= 2048;
    var m := if inverse then n - 2048 else n;
    match DecToBin(m)
    case Err(e) => Err(e)
    case Ok(bits) =>
      RollBits(bits, -1);
      var rolled := Roll(bits, -1);
      var bin9 := rolled[..11] + [ParityBit(rolled[..11], inverse)];
      Ok(FromBin9(bin9))
  }

  /** `from_dec_9`: dec_9 is the ferwar representation under another name. */
  function FromDec9(n: int): (r: Result<BeesbookID>)
    ensures r.Ok? <==> n < 6144
    ensures r == FromFerwar(n)
  {
    FromFerwar(n)
  }

  /** The twelfth bit disagrees with the parity of the first eleven exactly
      when the parity of all twelve is odd. */
  lemma ParitySplit(b: seq<int>)
    requires |b| == 12 && IsBits(b)
    ensures (Sum(b[..11]) % 2 != b[11]) <==> Sum(b) % 2 == 1
  {
    SumConcat(b[..11], [b[11]]);
    assert b == b[..11] + [b[11]];
    assert Sum([b[11]]) == b[11];
  }

  /** `as_ferwar`: the first eleven bin_9 bits as a number, plus 2048 when the
      twelfth bit disagrees with their parity. The result lies in
      `[0, 4096)`, and it is 2048 or more exactly when the parity of all
      twelve bits is odd. */
  function AsFerwar(id: BeesbookID): (r: int)
    ensures 0 <= r < 4096
    ensures r >= 2048 <==> Sum(id.binary12) % 2 == 1
  {
    var bin9 := AsBin9(id);
    Bin9Fields(id, bin9);
    var low := ParseBinary(bin9[..11]);
    if Sum(bin9[..11]) % 2 != bin9[11] then low + 2048 else low
  }

  /** The first eleven bin_9 bits read as a number below 2048, and the
      twelfth disagrees with their parity exactly when the parity of the
      whole tag is odd. */
  lemma Bin9Fields(id: BeesbookID, bin9: Bits12)
    requires bin9 == AsBin9(id)
    ensures IsBits(bin9[..11]) && 0 <= ParseBinary(bin9[..11]) < 2048
    ensures (Sum(bin9[..11]) % 2 != bin9[11]) <==> Sum(id.binary12) % 2 == 1
  {
    ElevenBits(bin9);
    Bin9Sum(id, bin9);
    ParitySplit(bin9);
  }

  /** The first eleven of twelve 0/1 values read as a number below 2048. */
  lemma ElevenBits(c: seq<int>)
    requires |c| == 12 && IsBits(c)
    ensures IsBits(c[..11]) && 0 <= ParseBinary(c[..11]) < 2048
  {
    PrefixBits(c, 11);
  }

  /** The bin_9 reading has the same number of set bits as the tag. */
  lemma Bin9Sum(id: BeesbookID, bin9: Bits12)
    requires bin9 == AsBin9(id)
    ensures Sum(bin9) == Sum(id.binary12)
  {
    SwapSum(id.binary12, 9);
  }

  /** `as_dec_9`: dec_9 is the ferwar representation under another name. */
  function AsDec9(id: BeesbookID): (r: int)
    ensures 0 <= r < 4096
    ensures r == AsFerwar(id)
  {
    AsFerwar(id)
  }

  /** One row of `batch_bb_binary_to_ferwar`: roll the row by 3, read the
      first eleven bits, add 2048 when the sum of all twelve bits is odd.
      This agrees with `as_ferwar` on the same bits. */
  function BatchRowToFerwar(row: Bits12): (r: int)
    ensures r == AsFerwar(BeesbookID(row))
  {
    var adjusted := Roll(row, 3);
    var low := ParseBinary(adjusted[..11]);
    RollBits(row, 3);
    ParitySplit(adjusted);
    if Sum(adjusted) % 2 == 1 then low + 2048 else low
  }

  /** `batch_bb_binary_to_ferwar`: converts every row, and row `i` of the
      result is what `as_ferwar` returns for row `i`. */
  function BatchBbBinaryToFerwar(ids: seq<Bits12>): (r: seq<int>)
    ensures |r| == |ids|
    ensures forall i :: 0 <= i < |ids| ==> r[i] == AsFerwar(BeesbookID(ids[i]))
  {
    seq(|ids|, i requires 0 <= i < |ids| => BatchRowToFerwar(ids[i]))
  }
}
