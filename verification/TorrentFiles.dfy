/**
 Torrent files as other programs write them: BEP 3 spelled out in text, without the
 grammar. What is written this way is what the program reads, and keys are accepted
 exactly in lexicographic order.
 */
module TorrentFiles {
  import opened ByteStrings
  import opened BencodeGrammar
  import opened BencodeObject
  import opened BencodeScan
  import opened BencodeProperties
  import opened TorrentMetadata
  import opened DownloadProtocol
  import opened Loco

  // ----- writing -----

  /** A byte string: its length, a colon, its bytes. */
  function StringText(content: Bytes): Bytes {
    Decimal(|content|) + Text(":") + content
  }

  function IntegerText(n: int): Bytes {
    Text("i") + (if n < 0 then Text("-") + Decimal(-n) else Decimal(n)) + Text("e")
  }

  function InfoText(name: Bytes, length: int, pieceLength: int, table: Bytes): Bytes {
    Text("d")
    + (Text("6:length") + IntegerText(length)
       + Text("4:name") + StringText(name)
       + Text("12:piece length") + IntegerText(pieceLength)
       + Text("6:pieces") + StringText(table))
    + Text("e")
  }

  function TorrentText(announce: Bytes, name: Bytes, length: int, pieceLength: int, table: Bytes): Bytes {
    Text("d")
    + (Text("8:announce") + StringText(announce)
       + Text("4:info") + InfoText(name, length, pieceLength, table))
    + Text("e")
  }

  // ----- the terms of such texts -----

  function StringTerm(content: Bytes): (t: Term)
    ensures WellFormed(t)
  {
    Str(Decimal(|content|), content)
  }

  lemma {:induction false} StringSpelledOut(content: Bytes)
    ensures Print(StringTerm(content)) == StringText(content)
    ensures PrintStr(Decimal(|content|), content) == StringText(content)
  {
    hide Decimal;
    assert Text(":") == [COLON];
    assert Decimal(|content|) + [COLON] + content == Decimal(|content|) + ([COLON] + content);
  }

  /** Integers are read exactly within 64 bits, and written in decimal with a minus sign if negative. */
  lemma {:induction false} IntegerSpelledOut(n: int)
    ensures Print(Int(n)) == IntegerText(n)
    ensures WellFormed(Int(n)) <==> -0x8000_0000_0000_0000 <= n <= 0x7FFF_FFFF_FFFF_FFFF
  {
    hide Decimal;
    assert Text("i") == [LETTER_I] && Text("-") == [MINUS] && Text("e") == [LETTER_E];
    var d := Decimal(Abs(n));
    assert [LETTER_I] + ([MINUS] + (d + [LETTER_E])) == [LETTER_I] + ([MINUS] + d) + [LETTER_E];
    assert [LETTER_I] + (d + [LETTER_E]) == [LETTER_I] + d + [LETTER_E];
  }

  function KeyEntry(key: Bytes, value: Term): Entry {
    Entry(Decimal(|key|), key, value)
  }

  lemma {:induction false} EntrySpelledOut(key: Bytes, value: Term)
    ensures PrintEntry(KeyEntry(key, value)) == StringText(key) + Print(value)
    ensures WellFormedEntry(KeyEntry(key, value)) <==> WellFormed(value)
  {
    hide Decimal, Print, WellFormed;
    StringSpelledOut(key);
  }

  lemma {:induction false} EntriesSpelledOut(e: Entry, es: seq<Entry>)
    ensures PrintEntries([e]) == PrintEntry(e)
    ensures PrintEntries([e] + es) == PrintEntry(e) + PrintEntries(es)
  {
    hide PrintEntry;
    assert [e][1..] == [] && ([e] + es)[1..] == es;
    assert PrintEntry(e) + [] == PrintEntry(e);
  }

  lemma {:induction false} DictSpelledOut(es: seq<Entry>)
    ensures Print(Dict(es)) == Text("d") + PrintEntries(es) + Text("e")
    ensures forall ts :: Print(List(ts)) == Text("l") + PrintItems(ts) + Text("e")
  {
    hide PrintEntries, PrintItems;
    assert Text("d") == [LETTER_D] && Text("e") == [LETTER_E] && Text("l") == [LETTER_L];
    assert [LETTER_D] + (PrintEntries(es) + [LETTER_E]) == [LETTER_D] + PrintEntries(es) + [LETTER_E];
    forall ts
      ensures Print(List(ts)) == Text("l") + PrintItems(ts) + Text("e")
    {
      assert [LETTER_L] + (PrintItems(ts) + [LETTER_E]) == [LETTER_L] + PrintItems(ts) + [LETTER_E];
    }
  }

  // ----- the order of keys -----

  function TwoKeysText(a: Bytes, b: Bytes): Bytes {
    Text("d") + (StringText(a) + Text("i0e") + (StringText(b) + Text("i0e"))) + Text("e")
  }

  lemma {:induction false} ZeroSpelledOut()
    ensures Print(Int(0)) == Text("i0e") && WellFormed(Int(0))
  {
    assert Decimal(0) == [ZERO];
  }

  lemma {:induction false} TwoKeysPrinted(a: Bytes, b: Bytes)
    ensures var e, f := KeyEntry(a, Int(0)), KeyEntry(b, Int(0));
            && Print(Dict([e, f])) == TwoKeysText(a, b)
            && WellFormedEntry(e) && WellFormedEntry(f)
            && PrintEntry(e) == StringText(a) + Text("i0e") && PrintEntry(f) == StringText(b) + Text("i0e")
            && PrintEntries([e, f]) == PrintEntry(e) + PrintEntry(f)
            && PrintEntries([e]) == PrintEntry(e)
  {
    hide StringText, Print, PrintEntries, PrintEntry, WellFormedEntry, WellFormed, KeyEntry, Text;
    var e, f := KeyEntry(a, Int(0)), KeyEntry(b, Int(0));
    ZeroSpelledOut();
    EntrySpelledOut(a, Int(0));
    EntrySpelledOut(b, Int(0));
    EntriesSpelledOut(e, [f]);
    EntriesSpelledOut(f, []);
    assert [e] + [f] == [e, f];
    DictSpelledOut([e, f]);
  }

  /** a comes first: it is a proper prefix of b, or has the smaller byte where the two first differ. */
  ghost predicate ComesFirst(a: Bytes, b: Bytes) {
    a < b || exists k: nat | k < |a| && k < |b| :: a[..k] == b[..k] && a[k] < b[k]
  }

  lemma {:induction false} TwoKeysPlaced(a: Bytes, b: Bytes)
    ensures var data, next := TwoKeysText(a, b), 1 + |StringText(a) + Text("i0e")|;
            && |data| > 0 && data[0] == LETTER_D && Has(data, 0, data)
            && Has(data, 1, StringText(a) + Text("i0e")) && Has(data, next, StringText(b))
            && next < |data| && IsDigit(data[next])
  {
    hide Decimal, Text;
    var data, first, second := TwoKeysText(a, b), StringText(a) + Text("i0e"), StringText(b) + Text("i0e");
    assert Text("d") == [LETTER_D];
    HasAll(data);
    HasConcat(data, 0, Text("d") + (first + second), Text("e"));
    HasConcat(data, 0, Text("d"), first + second);
    HasConcat(data, 1, first, second);
    HasConcat(data, 1 + |first|, StringText(b), Text("i0e"));
    HasAt(data, 1 + |first|, StringText(b), 0);
    assert StringText(b)[0] == Decimal(|b|)[0];
    HasAt(data, 0, Text("d"), 0);
  }

  lemma {:induction false} HasAll(data: Bytes)
    ensures Has(data, 0, data)
  {
    assert data[0..|data|] == data;
  }

  /** A dictionary with two keys is read exactly when the first comes first. */
  lemma {:induction false} KeysAreReadInOrder(a: Bytes, b: Bytes)
    ensures Recognised(TwoKeysText(a, b), 0).Some? <==> ComesFirst(a, b)
  {
    hide StringText, Print, PrintEntries, PrintEntry, WellFormedEntry, Has, Less, Text, Decimal, TwoKeysText,
      NoEntryAfter, NoDict, Recognised;
    var data, e, f := TwoKeysText(a, b), KeyEntry(a, Int(0)), KeyEntry(b, Int(0));
    var next := 1 + |PrintEntry(e)|;
    TwoKeysPrinted(a, b);
    TwoKeysPlaced(a, b);
    LessIsLexicographic(a, b);
    StringSpelledOut(b);
    if ComesFirst(a, b) {
      TwoAscending(e, f);
      RecognisedExactly(data, data, 0, Dict([e, f]));
    } else {
      NoEntryByOrderOrValue(data, next, [e], Decimal(|b|), b);
      DigitIsNotE(data[next]);
      OneIsWellFormed(e);
      NoDictByEntries(data, 0, [e]);
      NoTermByKind(data, 0);
      NothingRecognised(data, 0);
    }
  }

  lemma {:induction false} TwoAscending(e: Entry, f: Entry)
    requires WellFormedEntry(e) && WellFormedEntry(f) && Less(e.key, f.key)
    ensures WellFormed(Dict([e, f]))
  {
    hide WellFormedEntry, Less;
  }

  lemma {:induction false} OneIsWellFormed(e: Entry)
    requires WellFormedEntry(e)
    ensures WellFormedEntries([e])
  {
  }

  lemma {:induction false} DigitIsNotE(b: Byte)
    requires IsDigit(b)
    ensures b != LETTER_E && b != LETTER_D
  {
  }

  lemma {:induction false} NothingRecognised(data: Bytes, pos: nat)
    requires NoTerm(data, pos)
    ensures Recognised(data, pos).None?
  {
  }

  /** The dictionary of BEP 3, read as it stands there. */
  lemma {:induction false} CowAndSpam()
    ensures var cow := KeyEntry(Text("cow"), StringTerm(Text("moo")));
            var spam := KeyEntry(Text("spam"), StringTerm(Text("eggs")));
            Recognised(Text("d3:cow3:moo4:spam4:eggse"), 0) == Some(Dict([cow, spam]))
  {
    var cow, spam := KeyEntry(Text("cow"), StringTerm(Text("moo"))), KeyEntry(Text("spam"), StringTerm(Text("eggs")));
    var data, t := Text("d3:cow3:moo4:spam4:eggse"), Dict([cow, spam]);
    CowAndSpamPrinted();
    assert Less(cow.key, spam.key);
    TwoAscending(cow, spam);
    HasAll(data);
    RecognisedExactly(data, data, 0, t);
  }

  lemma {:induction false} SmallDecimals(n: nat)
    ensures n < 10 ==> Decimal(n) == [48 + n]
    ensures Decimal(12) == [49, 50]
  {
  }

  lemma {:induction false} CowPrinted()
    ensures PrintEntry(KeyEntry(Text("cow"), StringTerm(Text("moo")))) == Text("3:cow3:moo")
    ensures WellFormedEntry(KeyEntry(Text("cow"), StringTerm(Text("moo"))))
  {
    hide Decimal, PrintEntry, WellFormedEntry, Print, WellFormed, KeyEntry, StringTerm;
    SmallDecimals(3);
    EntrySpelledOut(Text("cow"), StringTerm(Text("moo")));
    StringSpelledOut(Text("moo"));
  }

  lemma {:induction false} SpamPrinted()
    ensures PrintEntry(KeyEntry(Text("spam"), StringTerm(Text("eggs")))) == Text("4:spam4:eggs")
    ensures WellFormedEntry(KeyEntry(Text("spam"), StringTerm(Text("eggs"))))
  {
    hide Decimal, PrintEntry, WellFormedEntry, Print, WellFormed, KeyEntry, StringTerm;
    SmallDecimals(4);
    EntrySpelledOut(Text("spam"), StringTerm(Text("eggs")));
    StringSpelledOut(Text("eggs"));
  }

  lemma {:induction false} CowAndSpamText()
    ensures Text("d") + (Text("3:cow3:moo") + Text("4:spam4:eggs")) + Text("e") == Text("d3:cow3:moo4:spam4:eggse")
  {
  }

  lemma {:induction false} CowAndSpamPrinted()
    ensures var cow := KeyEntry(Text("cow"), StringTerm(Text("moo")));
            var spam := KeyEntry(Text("spam"), StringTerm(Text("eggs")));
            && Print(Dict([cow, spam])) == Text("d3:cow3:moo4:spam4:eggse")
            && WellFormedEntry(cow) && WellFormedEntry(spam)
  {
    hide Decimal, PrintEntry, PrintEntries, Print, KeyEntry, StringTerm, Text, WellFormedEntry;
    var cow, spam := KeyEntry(Text("cow"), StringTerm(Text("moo"))), KeyEntry(Text("spam"), StringTerm(Text("eggs")));
    CowPrinted();
    SpamPrinted();
    EntriesSpelledOut(cow, [spam]);
    EntriesSpelledOut(spam, []);
    assert [cow] + [spam] == [cow, spam];
    DictSpelledOut([cow, spam]);
    CowAndSpamText();
  }

  // ----- torrents -----

  function InfoTerm(name: Bytes, length: int, pieceLength: int, table: Bytes): Term {
    Dict([KeyEntry(Text("length"), Int(length)), KeyEntry(Text("name"), StringTerm(name)),
          KeyEntry(Text("piece length"), Int(pieceLength)), KeyEntry(Text("pieces"), StringTerm(table))])
  }

  function TorrentTerm(announce: Bytes, name: Bytes, length: int, pieceLength: int, table: Bytes): Term {
    Dict([KeyEntry(Text("announce"), StringTerm(announce)),
          KeyEntry(Text("info"), InfoTerm(name, length, pieceLength, table))])
  }

  lemma {:induction false} OuterKeysSpelledOut()
    ensures ANNOUNCE == Text("announce") && StringText(ANNOUNCE) == Text("8:announce")
    ensures INFO == Text("info") && StringText(INFO) == Text("4:info")
  {
    hide Decimal;
    SmallDecimals(8);
    SmallDecimals(4);
  }

  lemma {:induction false} ShortKeysSpelledOut()
    ensures NAME == Text("name") && StringText(NAME) == Text("4:name")
    ensures LENGTH == Text("length") && StringText(LENGTH) == Text("6:length")
    ensures PIECES == Text("pieces") && StringText(PIECES) == Text("6:pieces")
  {
    hide Decimal;
    SmallDecimals(4);
    SmallDecimals(6);
  }

  lemma {:induction false} PieceLengthSpelledOut()
    ensures PIECE_LENGTH == Text("piece length") && StringText(PIECE_LENGTH) == Text("12:piece length")
  {
    hide Decimal;
    SmallDecimals(0);
  }

  lemma {:induction false} KeysAscend()
    ensures Less(LENGTH, NAME) && Less(NAME, PIECE_LENGTH) && Less(ANNOUNCE, INFO)
    ensures Less(PIECE_LENGTH, PIECES)
  {
    LessIsLexicographic(PIECE_LENGTH, PIECES);
    assert PIECE_LENGTH[..5] == PIECES[..5] && PIECE_LENGTH[5] < PIECES[5];
  }

  lemma {:induction false} FourEntries(e: Entry, f: Entry, g: Entry, h: Entry)
    ensures PrintEntries([e, f, g, h]) == PrintEntry(e) + (PrintEntry(f) + (PrintEntry(g) + PrintEntry(h)))
  {
    hide PrintEntry;
    EntriesSpelledOut(h, []);
    EntriesSpelledOut(g, [h]);
    EntriesSpelledOut(f, [g, h]);
    EntriesSpelledOut(e, [f, g, h]);
    assert [g] + [h] == [g, h] && [f] + [g, h] == [f, g, h] && [e] + [f, g, h] == [e, f, g, h];
  }

  lemma {:induction false} InfoPrinted(name: Bytes, length: int, pieceLength: int, table: Bytes)
    ensures Print(InfoTerm(name, length, pieceLength, table)) == InfoText(name, length, pieceLength, table)
  {
    hide PrintEntries, PrintEntry, Print, Text, KeyEntry, StringTerm, StringText, IntegerText, Decimal;
    ShortKeysSpelledOut();
    PieceLengthSpelledOut();
    var e, f := KeyEntry(LENGTH, Int(length)), KeyEntry(NAME, StringTerm(name));
    var g, h := KeyEntry(PIECE_LENGTH, Int(pieceLength)), KeyEntry(PIECES, StringTerm(table));
    EntrySpelledOut(LENGTH, Int(length));
    IntegerSpelledOut(length);
    EntrySpelledOut(NAME, StringTerm(name));
    StringSpelledOut(name);
    EntrySpelledOut(PIECE_LENGTH, Int(pieceLength));
    IntegerSpelledOut(pieceLength);
    EntrySpelledOut(PIECES, StringTerm(table));
    StringSpelledOut(table);
    FourEntries(e, f, g, h);
    DictSpelledOut([e, f, g, h]);
    EightParts(Text("6:length"), IntegerText(length), Text("4:name"), StringText(name),
               Text("12:piece length"), IntegerText(pieceLength), Text("6:pieces"), StringText(table));
  }

  lemma {:induction false} EightParts(a: Bytes, b: Bytes, c: Bytes, d: Bytes, e: Bytes, f: Bytes, g: Bytes, h: Bytes)
    ensures a + b + (c + d + (e + f + (g + h))) == a + b + c + d + e + f + g + h
  {
  }

  lemma {:induction false} InfoWellFormed(name: Bytes, length: int, pieceLength: int, table: Bytes)
    ensures WellFormed(InfoTerm(name, length, pieceLength, table)) <==>
            WellFormed(Int(length)) && WellFormed(Int(pieceLength))
  {
    hide Text, KeyEntry, Less, Decimal, WellFormedEntry;
    ShortKeysSpelledOut();
    PieceLengthSpelledOut();
    KeysAscend();
    EntrySpelledOut(LENGTH, Int(length));
    EntrySpelledOut(NAME, StringTerm(name));
    EntrySpelledOut(PIECE_LENGTH, Int(pieceLength));
    EntrySpelledOut(PIECES, StringTerm(table));
    KeyOfEntry(LENGTH, Int(length));
    KeyOfEntry(NAME, StringTerm(name));
    KeyOfEntry(PIECE_LENGTH, Int(pieceLength));
    KeyOfEntry(PIECES, StringTerm(table));
    var es := InfoTerm(name, length, pieceLength, table).entries;
    assert WellFormedEntry(es[0]) <==> WellFormed(Int(length));
    assert WellFormedEntry(es[2]) <==> WellFormed(Int(pieceLength));
  }

  lemma {:induction false} KeyOfEntry(key: Bytes, value: Term)
    ensures KeyEntry(key, value).key == key && KeyEntry(key, value).value == value
  {
  }

  lemma {:induction false} InfoAscends(name: Bytes, length: int, pieceLength: int, table: Bytes)
    ensures Ascending(InfoTerm(name, length, pieceLength, table).entries)
  {
    hide Text, KeyEntry, Less, Decimal;
    ShortKeysSpelledOut();
    PieceLengthSpelledOut();
    KeysAscend();
    KeyOfEntry(LENGTH, Int(length));
    KeyOfEntry(NAME, StringTerm(name));
    KeyOfEntry(PIECE_LENGTH, Int(pieceLength));
    KeyOfEntry(PIECES, StringTerm(table));
  }

  lemma {:induction false} GetAt(t: Term, i: nat, key: Bytes, value: Term)
    requires t.Dict? && Ascending(t.entries) && i < |t.entries| && t.entries[i] == KeyEntry(key, value)
    ensures Get(t, key, TermKind(value)) == Some(value)
  {
    hide DictMap, Ascending;
    DictMapAt(t.entries, i);
  }

  lemma {:induction false} InfoHolds(name: Bytes, length: int, pieceLength: int, table: Bytes)
    ensures var info := InfoTerm(name, length, pieceLength, table);
            && Get(info, NAME, StringKind) == Some(StringTerm(name))
            && Get(info, LENGTH, IntegerKind) == Some(Int(length))
            && Get(info, PIECE_LENGTH, IntegerKind) == Some(Int(pieceLength))
            && Get(info, PIECES, StringKind) == Some(StringTerm(table))
  {
    hide Text, Get, Decimal, Ascending, KeyEntry;
    ShortKeysSpelledOut();
    PieceLengthSpelledOut();
    InfoAscends(name, length, pieceLength, table);
    var info := InfoTerm(name, length, pieceLength, table);
    GetAt(info, 0, LENGTH, Int(length));
    GetAt(info, 1, NAME, StringTerm(name));
    GetAt(info, 2, PIECE_LENGTH, Int(pieceLength));
    GetAt(info, 3, PIECES, StringTerm(table));
  }

  lemma {:induction false} TorrentEntries(announce: Bytes, info: Term)
    ensures var t := Dict([KeyEntry(Text("announce"), StringTerm(announce)), KeyEntry(Text("info"), info)]);
            && (WellFormed(t) <==> WellFormed(info))
            && Print(t)
               == Text("d") + (Text("8:announce") + StringText(announce) + Text("4:info") + Print(info)) + Text("e")
            && Get(t, ANNOUNCE, StringKind) == Some(StringTerm(announce))
            && Get(t, INFO, TermKind(info)) == Some(info)
  {
    hide Text, KeyEntry, Less, Decimal, WellFormedEntry, PrintEntries, PrintEntry, Print, StringText, Get;
    OuterKeysSpelledOut();
    KeysAscend();
    var e, f := KeyEntry(ANNOUNCE, StringTerm(announce)), KeyEntry(INFO, info);
    EntrySpelledOut(ANNOUNCE, StringTerm(announce));
    StringSpelledOut(announce);
    EntrySpelledOut(INFO, info);
    KeyOfEntry(ANNOUNCE, StringTerm(announce));
    KeyOfEntry(INFO, info);
    EntriesSpelledOut(e, [f]);
    EntriesSpelledOut(f, []);
    assert [e] + [f] == [e, f];
    DictSpelledOut([e, f]);
    FourParts(Text("8:announce"), StringText(announce), Text("4:info"), Print(info));
    var t := Dict([e, f]);
    assert t.entries[1] == f;
    GetAt(t, 0, ANNOUNCE, StringTerm(announce));
    GetAt(t, 1, INFO, info);
  }

  lemma {:induction false} FourParts(a: Bytes, b: Bytes, c: Bytes, d: Bytes)
    ensures a + b + (c + d) == a + b + c + d
  {
  }

  lemma {:induction false} TorrentPrinted(announce: Bytes, name: Bytes, length: int, pieceLength: int, table: Bytes)
    ensures var t := TorrentTerm(announce, name, length, pieceLength, table);
            var info := InfoTerm(name, length, pieceLength, table);
            && Print(t) == TorrentText(announce, name, length, pieceLength, table)
            && (WellFormed(t) <==> WellFormed(Int(length)) && WellFormed(Int(pieceLength)))
            && Get(t, ANNOUNCE, StringKind) == Some(StringTerm(announce)) && Get(t, INFO, DictionaryKind) == Some(info)
  {
    hide Text, KeyEntry, Decimal, Print, StringText, Get, WellFormed, InfoText;
    TorrentEntries(announce, InfoTerm(name, length, pieceLength, table));
    InfoPrinted(name, length, pieceLength, table);
    InfoWellFormed(name, length, pieceLength, table);
  }

  /**
   A torrent file written as BEP 3 says, whatever follows it, is read exactly if its
   length is not negative, its piece length is positive and its piece table consists
   of digests of 20 bytes; and then as the values it was written from.
   */
  lemma {:induction false} WrittenTorrentIsRead(announce: Bytes, name: Bytes, length: int, pieceLength: int,
      table: Bytes, rest: Bytes)
    requires -0x8000_0000_0000_0000 <= length <= 0x7FFF_FFFF_FFFF_FFFF
    requires -0x8000_0000_0000_0000 <= pieceLength <= 0x7FFF_FFFF_FFFF_FFFF
    ensures var data := TorrentText(announce, name, length, pieceLength, table) + rest;
            var t := TorrentTerm(announce, name, length, pieceLength, table);
            && (HoldsTorrent(data, t) <==> length >= 0 && pieceLength > 0 && |table| % 20 == 0)
            && (forall u | HoldsTorrent(data, u) :: u == t)
            && (IsTorrent(t) ==>
                  && TorrentFrom(t).pieces == table && TorrentFrom(t).length == length
                  && TorrentFrom(t).pieceLength == pieceLength
                  && Get(t, ANNOUNCE, StringKind) == Some(StringTerm(announce))
                  && Get(t, INFO, DictionaryKind) == Some(InfoTerm(name, length, pieceLength, table)))
  {
    hide Text, KeyEntry, Print, StringText, Get, WellFormed, TorrentText, TorrentTerm, InfoTerm, Has;
    var text := TorrentText(announce, name, length, pieceLength, table);
    var t := TorrentTerm(announce, name, length, pieceLength, table);
    IntegerSpelledOut(length);
    IntegerSpelledOut(pieceLength);
    TorrentPrinted(announce, name, length, pieceLength, table);
    InfoHolds(name, length, pieceLength, table);
    HasStart(text, rest);
    forall u | HoldsTorrent(text + rest, u)
      ensures u == t
    {
      PrefixFree(text + rest, 0, t, u);
    }
  }

  /** What is extracted from such a file, and what is hashed, are the values it was written from. */
  lemma {:induction false} WrittenInfoIsExtracted(data: Bytes, i: TorrentInfo, name: Bytes, length: int,
      pieceLength: int, table: Bytes)
    requires DescribesInfo(data, i, InfoTerm(name, length, pieceLength, table))
    ensures i.length == length && i.pieceLength == pieceLength
    ensures i.name.offset + i.name.length <= |data| && SegmentBytes(data, i.name) == name
    ensures i.pieces.offset + i.pieces.length <= |data| && SegmentBytes(data, i.pieces) == table
    ensures InfoBytes(data, i) == Some(InfoText(name, length, pieceLength, table))
  {
    hide Text, KeyEntry, Print, Get, InfoText, InfoTerm, Has;
    InfoHolds(name, length, pieceLength, table);
    InfoPrinted(name, length, pieceLength, table);
    InfoHashInput(data, i, InfoTerm(name, length, pieceLength, table));
  }
}
