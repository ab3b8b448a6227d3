/** Most-significant-bit-first piece bitfields (`bitfieldContainsPiece` and
    `updateBitfield`, which the disk layer and the utility module define
    identically). Piece i lives in byte i / 8, at bit 7 - i % 8. */
module Bitfields {
  import opened Bytes

  /** `1 << (8 - r - 1)` for a bit position r within a byte. */
  function BitMask(r: nat): bv8
    requires r < 8
  {
    (1 as bv8) << (7 - r)
  }

  /** `1 << (8 - i % 8 - 1)`. */
  function Mask(i: nat): bv8 {
    BitMask(i % 8)
  }

  /** True iff the byte that holds piece i exists. A negative index never
      addresses a bit: `~~(i / 8)` is 0 or negative and the shift of a
      negative remainder lands above bit 7. */
  predicate InRange(bf: seq<byte>, i: int) {
    0 <= i && i / 8 < |bf|
  }

  /** `bitfieldContainsPiece(bf, i)`. An index past the end reads `undefined`,
      and `undefined & mask` is 0. */
  predicate ContainsPiece(bf: seq<byte>, i: int) {
    InRange(bf, i) && (bf[i / 8] as bv8) & Mask(i) != 0
  }

  /** The buffer `updateBitfield(bf, i)` leaves behind. Out-of-range stores on
      a typed array are ignored, and for a negative index above -8 the set
      bit falls outside the byte. */
  function SetPiece(bf: seq<byte>, i: int): (r: seq<byte>)
    ensures |r| == |bf|
    ensures forall k :: 0 <= k < |bf| && (!InRange(bf, i) || k != i / 8) ==> r[k] == bf[k]
  {
    if InRange(bf, i) then bf[i / 8 := ((bf[i / 8] as bv8) | Mask(i)) as int] else bf
  }

  lemma MaskBits(x: bv8, i: nat, j: nat)
    requires i / 8 == j / 8
    ensures (x | Mask(i)) & Mask(j) != 0 <==> i == j || x & Mask(j) != 0
    ensures x & Mask(i) != 0 ==> x | Mask(i) == x
  {
    SameByteSameBit(i, j);
    BitMaskBits(x, i % 8, j % 8);
  }

  lemma SameByteSameBit(i: nat, j: nat)
    requires i / 8 == j / 8
    ensures i == j <==> i % 8 == j % 8
  {
    assert i == 8 * (i / 8) + i % 8 && j == 8 * (j / 8) + j % 8;
  }

  lemma BitMaskBits(x: bv8, r: nat, s: nat)
    requires r < 8 && s < 8
    ensures (x | BitMask(r)) & BitMask(s) != 0 <==> r == s || x & BitMask(s) != 0
    ensures x & BitMask(r) != 0 ==> x | BitMask(r) == x
  {
  }

  lemma ByteRoundTrip(x: bv8)
    ensures 0 <= x as int < 256
    ensures (x as int) as bv8 == x
  {
  }

  /** The byte holding piece i after `SetPiece`, seen as bits. */
  lemma SetPieceByte(bf: seq<byte>, i: int)
    requires InRange(bf, i)
    ensures SetPiece(bf, i)[i / 8] as bv8 == (bf[i / 8] as bv8) | Mask(i)
  {
    ByteRoundTrip((bf[i / 8] as bv8) | Mask(i));
  }

  /** Setting piece i makes exactly piece i (when addressable) newly present
      and leaves every other piece as it was. */
  lemma ContainsPieceOfSetPiece(bf: seq<byte>, i: int, j: int)
    ensures ContainsPiece(SetPiece(bf, i), j) <==> ContainsPiece(bf, j) || (j == i && InRange(bf, i))
  {
    if InRange(bf, i) && InRange(bf, j) && i / 8 == j / 8 {
      SetPieceSameByte(bf, i, j);
    } else {
      SetPieceOtherByte(bf, i, j);
    }
  }

  lemma SetPieceSameByte(bf: seq<byte>, i: int, j: int)
    requires InRange(bf, i) && InRange(bf, j) && i / 8 == j / 8
    ensures ContainsPiece(SetPiece(bf, i), j) <==> ContainsPiece(bf, j) || j == i
  {
    var b := SetPiece(bf, i);
    var x := bf[i / 8] as bv8;
    SetPieceByte(bf, i);
    assert b[j / 8] as bv8 == x | Mask(i);
    MaskBits(x, i, j);
    assert ContainsPiece(b, j) == ((x | Mask(i)) & Mask(j) != 0);
    assert ContainsPiece(bf, j) == (x & Mask(j) != 0);
  }

  lemma SetPieceOtherByte(bf: seq<byte>, i: int, j: int)
    requires !(InRange(bf, i) && InRange(bf, j) && i / 8 == j / 8)
    ensures ContainsPiece(SetPiece(bf, i), j) <==> ContainsPiece(bf, j)
    ensures !(j == i && InRange(bf, i))
  {
    var b := SetPiece(bf, i);
    if InRange(bf, j) {
      assert b[j / 8] == bf[j / 8];
    }
  }

  /** `updateBitfield` is idempotent. */
  lemma SetPieceIdempotent(bf: seq<byte>, i: int)
    ensures SetPiece(SetPiece(bf, i), i) == SetPiece(bf, i)
  {
    if InRange(bf, i) {
      var b := SetPiece(bf, i);
      SetPieceByte(bf, i);
      OrTwice(bf[i / 8] as bv8, Mask(i));
      ByteRoundTrip(b[i / 8] as bv8);
      SetPieceNoop(b, i);
    }
  }

  lemma OrTwice(x: bv8, m: bv8)
    ensures (x | m) | m == x | m
  {
  }

  /** Setting a bit that is already set changes nothing. */
  lemma SetPieceNoop(b: seq<byte>, i: int)
    requires InRange(b, i)
    requires ((b[i / 8] as bv8) | Mask(i)) as int == b[i / 8]
    ensures SetPiece(b, i) == b
  {
    assert b[i / 8 := b[i / 8]] == b;
  }

  /** `updateBitfield(bitfield, pieceIndex)`: ORs the piece's bit into the
      buffer in place. */
  method UpdateBitfield(bf: array<byte>, i: int)
    modifies bf
    ensures bf[..] == SetPiece(old(bf[..]), i)
  {
    if 0 <= i && i / 8 < bf.Length {
      bf[i / 8] := ((bf[i / 8] as bv8) | Mask(i)) as int;
    }
  }

  /** `(nbPieces >> 3) + ((nbPieces & 0x7) != 0 ? 1 : 0)`: bytes for n pieces. */
  function BitfieldLength(n: nat): (r: nat)
    ensures 8 * r >= n && 8 * (r - 1) < n
  {
    n / 8 + (if n % 8 != 0 then 1 else 0)
  }

  /** The buffer after marking pieces 0..k-1 of `verified` into `bf`. */
  function MarkAll(bf: seq<byte>, verified: seq<bool>, k: nat): (r: seq<byte>)
    requires k <= |verified|
    ensures |r| == |bf|
  {
    if k == 0 then bf
    else
      var b := MarkAll(bf, verified, k - 1);
      if verified[k - 1] then SetPiece(b, k - 1) else b
  }

  /** The bitfield announcing exactly the verified pieces. */
  function Packed(verified: seq<bool>): (r: seq<byte>)
    ensures |r| == BitfieldLength(|verified|)
  {
    MarkAll(Zeros(BitfieldLength(|verified|)), verified, |verified|)
  }

  lemma {:induction false} ContainsPieceOfMarkAll(bf: seq<byte>, verified: seq<bool>, k: nat, j: int)
    requires k <= |verified|
    requires 8 * |bf| >= k
    ensures ContainsPiece(MarkAll(bf, verified, k), j) <==> ContainsPiece(bf, j) || (0 <= j < k && verified[j])
  {
    if k > 0 {
      ContainsPieceOfMarkAll(bf, verified, k - 1, j);
      MarkStep(bf, verified, k, j);
    }
  }

  /** Marking piece k - 1 adds exactly that piece when it verified. */
  lemma MarkStep(bf: seq<byte>, verified: seq<bool>, k: nat, j: int)
    requires 0 < k <= |verified|
    requires 8 * |bf| >= k
    ensures ContainsPiece(MarkAll(bf, verified, k), j) <==>
      ContainsPiece(MarkAll(bf, verified, k - 1), j) || (j == k - 1 && verified[k - 1])
  {
    var b := MarkAll(bf, verified, k - 1);
    if verified[k - 1] {
      assert MarkAll(bf, verified, k) == SetPiece(b, k - 1);
      ContainsPieceOfSetPiece(b, k - 1, j);
      LastIndexInRange(b, k);
    } else {
      assert MarkAll(bf, verified, k) == b;
    }
  }

  lemma LastIndexInRange(b: seq<byte>, k: nat)
    requires 0 < k <= 8 * |b|
    ensures InRange(b, k - 1)
  {
  }

  lemma ZerosContainNothing(n: nat, j: int)
    ensures !ContainsPiece(Zeros(n), j)
  {
    if InRange(Zeros(n), j) {
      assert Zeros(n)[j / 8] == 0;
      assert (0 as bv8) & Mask(j) == 0;
    }
  }

  /** Bit i of the packed bitfield is set iff piece i verified; the padding
      bits of the last byte are 0. */
  lemma ContainsPieceOfPacked(verified: seq<bool>, j: int)
    ensures ContainsPiece(Packed(verified), j) <==> 0 <= j < |verified| && verified[j]
  {
    var n := |verified|;
    ContainsPieceOfMarkAll(Zeros(BitfieldLength(n)), verified, n, j);
    ZerosContainNothing(BitfieldLength(n), j);
  }

  /** The per-piece OR of `getBitfield`, `(v ? 0x80 : 0) >> (i & 0x7)`,
      marks the same bit as `updateBitfield`. */
  lemma ShiftedMarkIsMask(v: bool, i: nat)
    ensures ((if v then 0x80 else 0) as bv8) >> (i % 8) == if v then Mask(i) else 0
  {
    var r := i % 8;
    assert r < 8;
  }

  /** `x | ((v ? 0x80 : 0) >> (i & 0x7))`, the byte one turn of the
      `getBitfield` loop stores. */
  function MarkedByte(x: byte, v: bool, i: nat): byte {
    ((x as bv8) | (((if v then 0x80 else 0) as bv8) >> (i % 8))) as int
  }

  /** Every byte reads back as itself through its bits. It holds for the
      buffers `getBitfield` builds, whose bytes are all 0 or the result of a
      bit operation, and keeps the proofs clear of the costly int-to-bits
      direction of the conversion. */
  predicate Canonical(b: seq<byte>) {
    forall k :: 0 <= k < |b| ==> (b[k] as bv8) as int == b[k]
  }

  lemma CanonicalZeros(n: nat)
    ensures Canonical(Zeros(n))
  {
    assert (0 as bv8) as int == 0;
  }

  lemma CanonicalSetPiece(b: seq<byte>, i: int)
    requires Canonical(b)
    ensures Canonical(SetPiece(b, i))
  {
    if InRange(b, i) {
      ByteRoundTrip((b[i / 8] as bv8) | Mask(i));
    }
  }

  lemma {:induction false} CanonicalMarkAll(bf: seq<byte>, verified: seq<bool>, k: nat)
    requires k <= |verified| && Canonical(bf)
    ensures Canonical(MarkAll(bf, verified, k))
  {
    if k > 0 {
      CanonicalMarkAll(bf, verified, k - 1);
      CanonicalSetPiece(MarkAll(bf, verified, k - 1), k - 1);
    }
  }

  /** The stored byte is the byte with piece i's mask or-ed in when it
      verified, and the byte itself otherwise. */
  lemma MarkedByteIs(x: byte, v: bool, i: nat)
    requires (x as bv8) as int == x
    ensures MarkedByte(x, v, i) == if v then ((x as bv8) | Mask(i)) as int else x
  {
    ShiftedMarkIsMask(v, i);
    if !v {
      assert (x as bv8) | 0 == x as bv8;
    }
  }

  /** That turn marks piece i exactly when it verified. */
  lemma MarkOne(b: seq<byte>, v: bool, i: nat)
    requires InRange(b, i) && Canonical(b)
    ensures b[i / 8 := MarkedByte(b[i / 8], v, i)] == if v then SetPiece(b, i) else b
  {
    MarkedByteIs(b[i / 8], v, i);
    if !v {
      assert b[i / 8 := b[i / 8]] == b;
    }
  }

  /** One turn of the `getBitfield` loop on the zeroed buffer takes the
      marks of pieces 0..i-1 to those of pieces 0..i. */
  lemma MarkTurn(verified: seq<bool>, i: nat)
    requires i < |verified|
    ensures var b := MarkAll(Zeros(BitfieldLength(|verified|)), verified, i);
      && InRange(b, i)
      && b[i / 8 := MarkedByte(b[i / 8], verified[i], i)] == MarkAll(Zeros(BitfieldLength(|verified|)), verified, i + 1)
  {
    var z := Zeros(BitfieldLength(|verified|));
    var b := MarkAll(z, verified, i);
    LastIndexInRange(b, i + 1);
    CanonicalZeros(BitfieldLength(|verified|));
    CanonicalMarkAll(z, verified, i);
    MarkOne(b, verified[i], i);
  }
}
