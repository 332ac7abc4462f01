/**
 The wire format in literal bytes: the order of the bytes of a number, the layout of
 a message, which messages there are, and the bits of a bitfield.
 */
module WireLaws {
  import opened ByteStrings
  import opened BencodeGrammar
  import opened WireFraming
  import opened PieceBitfield
  import opened DownloadProtocol

  // ----- numbers -----

  /** Numbers compare as the four-byte strings they are sent as: the highest byte comes first. */
  lemma {:induction false} NumbersCompareAsBytes(a: Bytes, b: Bytes)
    requires |a| == 4 && |b| == 4
    ensures Less(a, b) <==> Value32(a) < Value32(b)
  {
    FourBytesCompare(a, b);
    if a[0] != b[0] {
      HighByteDecides(a, b);
    } else if a[1] != b[1] {
      SecondByteDecides(a, b);
    }
  }

  lemma {:induction false} FourBytesCompare(a: Bytes, b: Bytes)
    requires |a| == 4 && |b| == 4
    ensures Less(a, b) <==>
            || a[0] < b[0]
            || (a[0] == b[0] && (a[1] < b[1]
                                 || (a[1] == b[1] && (a[2] < b[2] || (a[2] == b[2] && a[3] < b[3])))))
  {
    assert Less(a[1..][1..][1..], b[1..][1..][1..]) <==> a[3] < b[3];
    assert Less(a[1..][1..], b[1..][1..]) <==> a[2] < b[2] || (a[2] == b[2] && a[3] < b[3]);
  }

  lemma {:induction false} HighByteDecides(a: Bytes, b: Bytes)
    requires |a| == 4 && |b| == 4
    ensures a[0] < b[0] ==> Value32(a) < Value32(b)
    ensures b[0] < a[0] ==> Value32(b) < Value32(a)
  {
  }

  lemma {:induction false} SecondByteDecides(a: Bytes, b: Bytes)
    requires |a| == 4 && |b| == 4 && a[0] == b[0]
    ensures a[1] < b[1] ==> Value32(a) < Value32(b)
    ensures b[1] < a[1] ==> Value32(b) < Value32(a)
  {
  }

  /** The last byte counts ones; with the order that fixes every number. */
  lemma {:induction false} LastByteCountsOnes(x: Byte)
    ensures Value32([0, 0, 0, x]) == x && BigEndian(x) == [0, 0, 0, x]
    ensures Value32([255, 255, 255, 255]) == 0xFFFF_FFFF
  {
  }

  // ----- messages -----

  /** A message is its length, its identifier and its payload; the length counts the identifier. */
  lemma {:induction false} MessageLayout(m: Message)
    requires IsMessage(m)
    ensures m.KeepAlive? ==> Encode(m) == [0, 0, 0, 0]
    ensures m.Message? ==>
              && |Encode(m)| == 5 + |m.payload|
              && Value32(Encode(m)[..4]) == |Encode(m)| - 4
              && Encode(m)[4] == m.id && Encode(m)[5..] == m.payload
  {
    hide BigEndian, Value32;
    LastByteCountsOnes(0);
    if m.Message? {
      BigEndianValue(1 + |m.payload|);
      assert Encode(m)[..4] == BigEndian(1 + |m.payload|);
    }
  }

  /** The identifiers of BEP 3, and the length each of them has. */
  lemma {:induction false} MessageTable(id: Byte, payload: Bytes)
    ensures CHOKE == 0 && UNCHOKE == 1 && INTERESTED == 2 && NOT_INTERESTED == 3 && HAVE == 4 && BITFIELD == 5
    ensures REQUEST == 6 && PIECE == 7 && CANCEL == 8
    ensures IsMessage(Message(id, payload)) <==>
            || (0 <= id <= 3 && payload == [])
            || (id == 4 && |payload| == 4)
            || (id == 5 && |payload| <= 1048576)
            || ((id == 6 || id == 8) && |payload| == 12)
            || (id == 7 && 8 <= |payload| <= 8 + 16384)
  {
  }

  /** The bytes sent to tell a peer of our interest. */
  lemma {:induction false} InterestedInBytes()
    ensures Encode(INTERESTED_MESSAGE) == [0, 0, 0, 1, 2]
  {
    LastByteCountsOnes(1);
  }

  /** A request in bytes: thirteen bytes follow; identifier 6; piece, offset and length. */
  lemma {:induction false} RequestInBytes(index: nat, begin: nat, length: nat)
    requires index <= UINT32_MAX && begin <= UINT32_MAX && length <= UINT32_MAX
    ensures var bytes := Encode(RequestMessage(index, begin, length));
            && |bytes| == 17 && bytes[..5] == [0, 0, 0, 13, 6]
            && Value32(bytes[5..9]) == index && Value32(bytes[9..13]) == begin && Value32(bytes[13..]) == length
  {
    hide BigEndian, Value32;
    LastByteCountsOnes(13);
    BigEndianValue(index);
    BigEndianValue(begin);
    BigEndianValue(length);
    var bytes := Encode(RequestMessage(index, begin, length));
    assert bytes == [0, 0, 0, 13] + [6] + (BigEndian(index) + BigEndian(begin) + BigEndian(length));
    assert bytes[5..9] == BigEndian(index) && bytes[9..13] == BigEndian(begin) && bytes[13..] == BigEndian(length);
  }

  /** A stream of short messages, read as it stands: keep-alive, UNCHOKE, HAVE 258, and a CHOKE that is cut off. */
  lemma {:induction false} StreamInBytes()
    ensures var stream: Bytes := [0, 0, 0, 0] + [0, 0, 0, 1, 1] + [0, 0, 0, 5, 4, 0, 0, 1, 2] + [0, 0, 0, 1];
            && DecodeAll(stream) == [KeepAlive, Message(UNCHOKE, []), Message(HAVE, [0, 0, 1, 2])]
            && Leftover(stream) == [0, 0, 0, 1] && Value32([0, 0, 1, 2]) == 258
  {
    hide DecodeAll, Leftover, Value32, BigEndian, Encode, IsMessage, Decode, EncodeAll;
    var have := Message(HAVE, [0, 0, 1, 2]);
    var ms := [KeepAlive, Message(UNCHOKE, []), have];
    ShortMessages();
    CutOff();
    assert forall m | m in ms :: IsMessage(m);
    DecodeAllConcat(ms, [0, 0, 0, 1]);
    ThreeEncoded(KeepAlive, Message(UNCHOKE, []), have);
  }

  lemma {:induction false} ThreeEncoded(a: Message, b: Message, c: Message)
    requires IsMessage(a) && IsMessage(b) && IsMessage(c)
    ensures EncodeAll([a, b, c]) == Encode(a) + Encode(b) + Encode(c)
  {
    hide Encode, IsMessage;
    assert [a, b, c][1..] == [b, c] && [b, c][1..] == [c] && [c][1..] == [];
    assert EncodeAll([c]) == Encode(c) + [] == Encode(c);
    assert EncodeAll([b, c]) == Encode(b) + Encode(c);
  }

  lemma {:induction false} ShortMessages()
    ensures IsMessage(KeepAlive) && Encode(KeepAlive) == [0, 0, 0, 0]
    ensures IsMessage(Message(UNCHOKE, [])) && Encode(Message(UNCHOKE, [])) == [0, 0, 0, 1, 1]
    ensures IsMessage(Message(HAVE, [0, 0, 1, 2]))
    ensures Encode(Message(HAVE, [0, 0, 1, 2])) == [0, 0, 0, 5, 4, 0, 0, 1, 2]
    ensures Value32([0, 0, 1, 2]) == 258
  {
    LastByteCountsOnes(0);
    LastByteCountsOnes(1);
    LastByteCountsOnes(5);
  }

  lemma {:induction false} CutOff()
    ensures DecodeAll([0, 0, 0, 1]) == [] && Leftover([0, 0, 0, 1]) == [0, 0, 0, 1]
  {
    assert Value32([0, 0, 0, 1]) == 1;
    assert [0, 0, 0, 1][..4] == [0, 0, 0, 1] && [0, 0, 0, 1][4..] == [];
    assert Decode([0, 0, 0, 1]).Undecodable?;
  }

  // ----- bitfields -----

  /** Byte q of a bitfield stands for the pieces 8 q to 8 q + 7, from its high bit to its low bit. */
  lemma {:induction false} BitfieldLayout(bits: Bits, q: nat, r: nat)
    requires r < 8
    ensures HasPiece(bits, 8 * q + r) <==> q < |bits| && bits[q] & ((0x80 as bv8) >> r) != 0
  {
    assert (8 * q + r) / 8 == q && (8 * q + r) % 8 == r;
    MasksAreShifts(r);
  }

  /** A bitfield is acceptable exactly if it has as many bytes as the pieces need, and no bit beyond the last piece. */
  lemma {:induction false} AcceptableBitfields(payload: Bytes, pieceCount: nat)
    ensures AdvertisedBy(payload, pieceCount).Some? <==>
            && 8 * |payload| - 8 < pieceCount <= 8 * |payload|
            && forall q: nat, r: nat | q < |payload| && r < 8 && 8 * q + r >= pieceCount ::
                 (payload[q] as bv8) & Mask(r) == 0
  {
    hide Mask, PieceSet;
    var bits := ToBits(payload);
    if AdvertisedBy(payload, pieceCount).Some? {
      forall q: nat, r: nat | q < |payload| && r < 8 && 8 * q + r >= pieceCount
        ensures (payload[q] as bv8) & Mask(r) == 0
      {
        assert !HasPiece(bits, 8 * q + r);
        assert (8 * q + r) / 8 == q && (8 * q + r) % 8 == r;
      }
    } else if 8 * |payload| - 8 < pieceCount <= 8 * |payload| {
      var i: nat :| i >= pieceCount && HasPiece(bits, i);
      assert (payload[i / 8] as bv8) & Mask(i % 8) != 0 && 8 * (i / 8) + i % 8 == i;
    }
  }

  /** The bitfield of one byte that announces the pieces 0 and 2 of three. */
  lemma {:induction false} BitfieldInBytes()
    ensures AdvertisedBy([160], 3) == Some({0, 2})
  {
    var bits := ToBits([160]);
    assert bits[0] == 0xA0;
    forall i: nat
      ensures HasPiece(bits, i) <==> i == 0 || i == 2
    {
      if i < 8 {
        OneByte(i);
      }
    }
    assert PieceSet(bits, 3) == {0, 2};
  }

  lemma {:induction false} OneByte(r: nat)
    requires r < 8
    ensures TestBit(0xA0, r) <==> r == 0 || r == 2
  {
  }
}
