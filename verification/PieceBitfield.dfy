/**
 The bitfield of BEP 3, section "peer messages": bytes and masks as a
 representation of the set of pieces a peer advertises.
 */
module PieceBitfield {
  import opened ByteStrings

  type Bits = seq<bv8>

  /** The bit of the piece at position k of a byte, counted from the high end. */
  function Mask(k: nat): bv8
    requires k < 8
  {
    match k
    case 0 => 0x80
    case 1 => 0x40
    case 2 => 0x20
    case 3 => 0x10
    case 4 => 0x08
    case 5 => 0x04
    case 6 => 0x02
    case 7 => 0x01
  }

  /** The spare low bits of a last byte that holds remainder pieces. */
  function PaddingMask(remainder: nat): bv8
    requires 0 < remainder < 8
  {
    match remainder
    case 1 => 0x7F
    case 2 => 0x3F
    case 3 => 0x1F
    case 4 => 0x0F
    case 5 => 0x07
    case 6 => 0x03
    case 7 => 0x01
  }

  /** The tables are the shift expressions with which the program computes its masks. */
  lemma {:induction false} MasksAreShifts(k: nat)
    requires k < 8
    ensures Mask(k) == (0x80 as bv8) >> k
    ensures k > 0 ==> PaddingMask(k) == ((1 as bv8) << (8 - k)) - 1
  {
    match k
    case 0 =>
    case 1 =>
    case 2 =>
    case 3 =>
    case 4 =>
    case 5 =>
    case 6 =>
    case 7 =>
  }

  function BitfieldLength(pieceCount: nat): nat {
    (pieceCount + 7) / 8
  }

  predicate TestBit(b: bv8, k: nat)
    requires k < 8
  {
    b & Mask(k) != 0
  }

  /** The byte-and-mask test for piece i; bits beyond the end count as clear. */
  predicate HasPiece(bits: Bits, i: nat) {
    i / 8 < |bits| && TestBit(bits[i / 8], i % 8)
  }

  /** The pieces a bitfield advertises. */
  ghost function PieceSet(bits: Bits, pieceCount: nat): set<nat> {
    set i: nat | i < pieceCount && HasPiece(bits, i)
  }

  ghost predicate SpareBitsClear(bits: Bits, pieceCount: nat) {
    forall i: nat | i >= pieceCount :: !HasPiece(bits, i)
  }

  /** A bitfield for pieceCount pieces. */
  ghost predicate IsBitfield(bits: Bits, pieceCount: nat) {
    |bits| == BitfieldLength(pieceCount) && SpareBitsClear(bits, pieceCount)
  }

  lemma {:induction false} LengthOfBitfield(bits: Bits, pieceCount: nat)
    ensures IsBitfield(bits, pieceCount) ==> |bits| == BitfieldLength(pieceCount)
  {
  }

  function ToBits(payload: Bytes): (r: Bits)
    ensures |r| == |payload|
    ensures forall i | 0 <= i < |r| :: r[i] == payload[i] as bv8
  {
    seq(|payload|, i requires 0 <= i < |payload| => payload[i] as bv8)
  }

  function SetPiece(bits: Bits, i: nat): Bits
    requires i / 8 < |bits|
  {
    bits[i / 8 := bits[i / 8] | Mask(i % 8)]
  }

  lemma {:induction false} OrMask(b: bv8, j: nat, k: nat)
    requires j < 8 && k < 8
    ensures TestBit(b | Mask(j), k) <==> j == k || TestBit(b, k)
  {
    MasksDisjoint(j, k);
    var x, m, n := b, Mask(j), Mask(k);
    assert (x | m) & n == (x & n) | (m & n);
  }

  lemma {:induction false} MasksDisjoint(j: nat, k: nat)
    requires j < 8 && k < 8
    ensures (Mask(j) & Mask(k) != 0) <==> j == k
  {
  }

  /** Setting the bit of piece i adds exactly that piece. */
  lemma {:induction false} SetPieceAdds(bits: Bits, i: nat, pieceCount: nat)
    requires IsBitfield(bits, pieceCount) && i < pieceCount
    ensures i / 8 < |bits|
    ensures IsBitfield(SetPiece(bits, i), pieceCount)
    ensures PieceSet(SetPiece(bits, i), pieceCount) == PieceSet(bits, pieceCount) + {i}
  {
    forall k: nat
      ensures HasPiece(SetPiece(bits, i), k) <==> k == i || HasPiece(bits, k)
    {
      if k / 8 == i / 8 {
        OrMask(bits[i / 8], i % 8, k % 8);
      }
    }
  }

  lemma {:induction false} NoPieces(bits: Bits, pieceCount: nat)
    requires |bits| == BitfieldLength(pieceCount) && forall i | 0 <= i < |bits| :: bits[i] == 0
    ensures IsBitfield(bits, pieceCount) && PieceSet(bits, pieceCount) == {}
  {
    forall i: nat
      ensures !HasPiece(bits, i)
    {
      if i / 8 < |bits| {
        assert 0 & Mask(i % 8) == 0;
      }
    }
  }

  lemma {:induction false} PaddingBits(b: bv8, remainder: nat)
    requires 0 < remainder < 8
    ensures PaddingMask(remainder) & b == 0 <==> forall k | remainder <= k < 8 :: !TestBit(b, k)
  {
    if PaddingMask(remainder) & b == 0 {
      forall k | remainder <= k < 8
        ensures !TestBit(b, k)
      {
        assert Mask(k) & PaddingMask(remainder) == Mask(k);
        assert b & Mask(k) == b & (Mask(k) & PaddingMask(remainder)) == (PaddingMask(remainder) & b) & Mask(k);
      }
    } else if forall k | remainder <= k < 8 :: !TestBit(b, k) {
      PaddingIsMasks(b, remainder);
    }
  }

  lemma {:induction false} PaddingIsMasks(b: bv8, remainder: nat)
    requires 0 < remainder < 8
    requires forall k | remainder <= k < 8 :: !TestBit(b, k)
    ensures PaddingMask(remainder) & b == 0
  {
    assert !TestBit(b, 7);
    assert remainder <= 6 ==> !TestBit(b, 6);
    assert remainder <= 5 ==> !TestBit(b, 5);
    assert remainder <= 4 ==> !TestBit(b, 4);
    assert remainder <= 3 ==> !TestBit(b, 3);
    assert remainder <= 2 ==> !TestBit(b, 2);
    assert remainder <= 1 ==> !TestBit(b, 1);
  }

  /** The program's check of the last byte alone is the check that no spare bit is set. */
  lemma {:induction false} PaddingCheck(bits: Bits, pieceCount: nat)
    requires |bits| == BitfieldLength(pieceCount) && pieceCount > 0
    ensures IsBitfield(bits, pieceCount) <==>
            pieceCount % 8 == 0 || PaddingMask(pieceCount % 8) & bits[|bits| - 1] == 0
  {
    var remainder, last := pieceCount % 8, |bits| - 1;
    if remainder != 0 {
      PaddingBits(bits[last], remainder);
      assert last == pieceCount / 8;
      if PaddingMask(remainder) & bits[last] == 0 {
        forall i: nat | i >= pieceCount
          ensures !HasPiece(bits, i)
        {
        }
      } else {
        var k: nat :| remainder <= k < 8 && TestBit(bits[last], k);
        var i := 8 * last + k;
        assert i / 8 == last && i % 8 == k;
        assert HasPiece(bits, i);
      }
    }
  }

  /** Every set of pieces has a bitfield. */
  lemma {:induction false} BitfieldOf(pieces: set<nat>, pieceCount: nat) returns (bits: Bits)
    requires forall i | i in pieces :: i < pieceCount
    ensures IsBitfield(bits, pieceCount) && PieceSet(bits, pieceCount) == pieces
    decreases pieces
  {
    hide HasPiece, SpareBitsClear;
    if pieces == {} {
      bits := seq(BitfieldLength(pieceCount), _ => 0);
      NoPieces(bits, pieceCount);
    } else {
      var i :| i in pieces;
      var others := BitfieldOf(pieces - {i}, pieceCount);
      SetPieceAdds(others, i, pieceCount);
      bits := SetPiece(others, i);
    }
  }

  lemma {:induction false} PayloadOf(bits: Bits) returns (payload: Bytes)
    ensures ToBits(payload) == bits
  {
    payload := seq(|bits|, i requires 0 <= i < |bits| => bits[i] as int);
  }
}
