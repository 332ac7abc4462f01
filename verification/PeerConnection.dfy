/**
 What is known about the current peer: whether it chokes us, whether we told it of
 our interest, and its bitfield, a heap array that comes into being with the first
 HAVE or BITFIELD.
 */
module PeerConnection {
  import opened ByteStrings
  import opened Faults
  import opened WireFraming
  import opened PieceBitfield
  import opened DownloadProtocol

  class Peer {
    const pieceCount: nat
    var bitfield: array?<bv8>
    var chokingUs: bool
    var weAreInterested: bool

    ghost function Footprint(): set<object>
      reads this
    {
      {this} + if bitfield == null then {} else {bitfield}
    }

    ghost predicate Valid()
      reads Footprint()
    {
      pieceCount > 0 && (bitfield != null ==> IsBitfield(bitfield[..], pieceCount))
    }

    ghost function Advertised(): Option<set<nat>>
      reads Footprint()
    {
      if bitfield == null then None else Some(PieceSet(bitfield[..], pieceCount))
    }

    ghost function View(): Connection
      reads Footprint()
    {
      Connection(Advertised(), chokingUs, weAreInterested)
    }

    constructor (pieceCount: nat)
      requires pieceCount > 0
      ensures Valid() && View() == Connection(None, true, false)
      ensures this.pieceCount == pieceCount && fresh(Footprint())
    {
      this.pieceCount := pieceCount;
      bitfield, chokingUs, weAreInterested := null, true, false;
    }

    /** HAVE: adds one piece, in a new zeroed bitfield if there is none yet. */
    method UpdateBitfield(payload: Bytes, os: OperatingSystem) returns (ok: bool, ghost granted: bool)
      requires Valid() && |payload| == 4
      modifies Footprint(), os
      ensures Valid() && fresh(Footprint() - old(Footprint()))
      ensures ok <==> Value32(payload) < pieceCount && (old(bitfield) != null || granted)
      ensures os.Faults() <= old(os.Faults()) && (!granted ==> os.Faults() < old(os.Faults()))
      ensures View() == if !ok then old(View())
                        else old(View()).(advertised := Some(
                               (if old(bitfield) == null then {} else old(Advertised()).value) + {Value32(payload)}))
    {
      hide PieceSet, SpareBitsClear, FaultsIn, Value32, Mask;
      granted := true;
      var piece := Value32(payload);
      if piece >= pieceCount {
        return false, true;
      }
      var length := BitfieldLength(pieceCount);
      if bitfield != null && bitfield.Length != length {
        return false, true;
      }
      if bitfield == null {
        var memory := os.Ask();
        if !memory.Granted? {
          return false, false;
        }
        bitfield := new bv8[length](_ => 0);
        NoPieces(bitfield[..], pieceCount);
      }
      ghost var before := bitfield[..];
      SetPieceAdds(before, piece, pieceCount);
      bitfield[piece / 8] := bitfield[piece / 8] | Mask(piece % 8);
      assert bitfield[..] == SetPiece(before, piece);
      return true, true;
    }

    /** BITFIELD: accepted once, before any other news of pieces, with the right length and clear spare bits. */
    method ApplyBitfield(payload: Bytes, os: OperatingSystem) returns (ok: bool, ghost granted: bool)
      requires Valid()
      modifies this`bitfield, os
      ensures Valid() && fresh(Footprint() - old(Footprint()))
      ensures ok <==> old(bitfield) == null && AdvertisedBy(payload, pieceCount).Some? && granted
      ensures os.Faults() <= old(os.Faults()) && (!granted ==> os.Faults() < old(os.Faults()))
      ensures View() == if ok then old(View()).(advertised := AdvertisedBy(payload, pieceCount)) else old(View())
    {
      hide PieceSet, IsBitfield, FaultsIn, PaddingMask, First, Later, ToBits;
      granted := true;
      if bitfield != null {
        return false, true;
      }
      var expected := BitfieldLength(pieceCount);
      LengthOfBitfield(ToBits(payload), pieceCount);
      if |payload| != expected {
        return false, true;
      }
      var bits := ToBits(payload);
      PaddingCheck(bits, pieceCount);
      var remainder := pieceCount % 8;
      if remainder != 0 {
        if PaddingMask(remainder) & bits[|payload| - 1] != 0 {
          return false, true;
        }
      }
      var memory := os.Ask();
      if !memory.Granted? {
        return false, false;
      }
      bitfield := new bv8[|bits|](i requires 0 <= i < |bits| => bits[i]);
      assert bitfield[..] == bits;
      return true, true;
    }

    /** Whether the piece is not advertised; true also if its byte is out of range, which never happens. */
    method Lacks(piece: nat) returns (r: bool)
      requires Valid() && piece < pieceCount && bitfield != null
      ensures r <==> piece !in Advertised().value
    {
      var byteIndex, bit := piece / 8, piece % 8;
      if byteIndex >= bitfield.Length {
        return true;
      }
      return bitfield[byteIndex] & Mask(bit) == 0;
    }
  }
}
