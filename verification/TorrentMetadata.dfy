/**
 Reading a parsed torrent: lookups in sorted dictionaries, the checked fields of
 the info dictionary, and the span that is hashed into the info-hash.
 */
module TorrentMetadata {
  import opened ByteStrings
  import opened BencodeGrammar
  import opened BencodeObject
  import opened BencodeParser
  import opened Heap

  const ANNOUNCE: Bytes := [97, 110, 110, 111, 117, 110, 99, 101]
  const INFO: Bytes := [105, 110, 102, 111]
  const NAME: Bytes := [110, 97, 109, 101]
  const LENGTH: Bytes := [108, 101, 110, 103, 116, 104]
  const PIECE_LENGTH: Bytes := [112, 105, 101, 99, 101, 32, 108, 101, 110, 103, 116, 104]
  const PIECES: Bytes := [112, 105, 101, 99, 101, 115]

  /** o was parsed from data, as the term t. */
  ghost predicate Parsed(data: Bytes, o: Object, t: Term) {
    WellFormed(t) && Has(data, o.startOffset, Print(t)) && Represents(o, t, o.startOffset)
  }

  /** A dictionary as a finite map from keys to values. */
  ghost function DictMap(es: seq<Entry>): map<Bytes, Term> {
    if es == [] then map[]
    else DictMap(es[..|es| - 1])[es[|es| - 1].key := es[|es| - 1].value]
  }

  ghost function TermKind(t: Term): Kind {
    match t
    case Int(_) => IntegerKind
    case Str(_, _) => StringKind
    case List(_) => ListKind
    case Dict(_) => DictionaryKind
  }

  /** Finite-map lookup followed by a check of the value's type. */
  ghost function Get(t: Term, key: Bytes, kind: Kind): Option<Term> {
    if t.Dict? && key in DictMap(t.entries) && TermKind(DictMap(t.entries)[key]) == kind
    then Some(DictMap(t.entries)[key])
    else None
  }

  lemma {:induction false} DictMapAt(es: seq<Entry>, i: nat)
    requires Ascending(es) && i < |es|
    ensures es[i].key in DictMap(es) && DictMap(es)[es[i].key] == es[i].value
  {
    hide Less;
    if i < |es| - 1 {
      var front := es[..|es| - 1];
      assert Ascending(front) by {
        forall j | 0 < j < |front|
          ensures Less(front[j - 1].key, front[j].key)
        {
          assert Less(es[j - 1].key, es[j].key);
        }
      }
      DictMapAt(front, i);
      AscendingIsGlobal(es, i, |es| - 1);
    }
  }

  lemma {:induction false} DictMapKey(es: seq<Entry>, key: Bytes) returns (i: nat)
    requires key in DictMap(es)
    ensures i < |es| && es[i].key == key
  {
    if es[|es| - 1].key == key {
      i := |es| - 1;
    } else {
      i := DictMapKey(es[..|es| - 1], key);
    }
  }

  lemma {:induction false} ParsedKind(data: Bytes, o: Object, t: Term)
    requires Parsed(data, o, t)
    ensures KindOf(o.payload) == TermKind(t)
    ensures t.Int? ==> o.payload.n == t.n
    ensures t.Str? ==>
              && o.payload.segment.offset + o.payload.segment.length <= |data|
              && SegmentBytes(data, o.payload.segment) == t.content
  {
    match t
    case Str(digits, content) => HasStr(data, o.startOffset, digits, content);
    case _ =>
  }

  lemma {:induction false} ParsedField(data: Bytes, o: Object, t: Term, i: nat)
    requires Parsed(data, o, t) && t.Dict? && i < |t.entries|
    ensures o.payload.Dictionary? && |o.payload.fields| == |t.entries| && Ascending(t.entries)
    ensures var key := o.payload.fields[i].key;
            key.offset + key.length <= |data| && SegmentBytes(data, key) == t.entries[i].key
    ensures Parsed(data, o.payload.fields[i].value, t.entries[i].value)
  {
    hide Has, Represents, PrintEntries, RepresentsFields;
    var at := o.startOffset;
    RepresentsDict(o, t.entries, at);
    HasBody(data, at, LETTER_D, PrintEntries(t.entries));
    KeyBytes(data, o.payload.fields, t.entries, at + 1, i);
    FieldPlaced(data, o.payload.fields, t.entries, at, i);
    FieldsCount(o.payload.fields, t.entries, at + 1);
  }

  lemma {:induction false} FieldsCount(fields: seq<Field>, es: seq<Entry>, at: nat)
    requires RepresentsFields(fields, es, at)
    ensures |fields| == |es|
  {
  }

  /**
   The linear search for the first entry with this key and a value of this type
   agrees with the finite map: skipping a value of the wrong type never finds another.
   */
  method FindEntry(data: Bytes, root: Object, key: Bytes, kind: Kind, ghost t: Term) returns (r: Option<Object>)
    requires Parsed(data, root, t)
    ensures r.Some? <==> Get(t, key, kind).Some?
    ensures r.Some? ==> Parsed(data, r.value, Get(t, key, kind).value) && KindOf(r.value.payload) == kind
  {
    hide Parsed, DictMap, Ascending, WellFormed, Represents, Print;
    ParsedKind(data, root, t);
    if KindOf(root.payload) != DictionaryKind {
      return None;
    }
    var fields := root.payload.fields;
    ghost var es := t.entries;
    if |es| > 0 {
      ParsedField(data, root, t, 0);
    } else {
      EmptyDictionary(data, root, t);
    }
    var i := 0;
    while i < |fields|
      invariant 0 <= i <= |fields| == |es|
      invariant forall j | 0 <= j < i :: !(es[j].key == key && TermKind(es[j].value) == kind)
    {
      ParsedField(data, root, t, i);
      ParsedKind(data, fields[i].value, es[i].value);
      if fields[i].key.length == |key| && SegmentBytes(data, fields[i].key) == key
         && KindOf(fields[i].value.payload) == kind {
        DictMapAt(es, i);
        return Some(fields[i].value);
      }
      i := i + 1;
    }
    if key in DictMap(es) {
      var k := DictMapKey(es, key);
      ParsedField(data, root, t, k);
      DictMapAt(es, k);
    }
    return None;
  }

  lemma {:induction false} EmptyDictionary(data: Bytes, o: Object, t: Term)
    requires Parsed(data, o, t) && t.Dict? && t.entries == []
    ensures o.payload.Dictionary? && o.payload.fields == [] && DictMap(t.entries) == map[]
  {
  }

  // ----- the fields a download needs -----

  datatype TorrentInfo = TorrentInfo(
    name: Segment, length: int, pieceLength: int, pieces: Segment, infoStart: nat, infoLength: nat)

  datatype Metadata = Metadata(announce: Segment, info: TorrentInfo)

  /** What the info dictionary must contain. */
  ghost predicate IsInfo(info: Term) {
    && Get(info, NAME, StringKind).Some?
    && Get(info, LENGTH, IntegerKind).Some? && Get(info, LENGTH, IntegerKind).value.n >= 0
    && Get(info, PIECE_LENGTH, IntegerKind).Some? && Get(info, PIECE_LENGTH, IntegerKind).value.n > 0
    && Get(info, PIECES, StringKind).Some? && |Get(info, PIECES, StringKind).value.content| % 20 == 0
  }

  ghost predicate HoldsString(data: Bytes, s: Segment, t: Option<Term>) {
    && t.Some? && t.value.Str?
    && s.offset + s.length <= |data| && SegmentBytes(data, s) == t.value.content
  }

  /** The extracted record says what the info dictionary says, and its span is the encoding of that dictionary. */
  ghost predicate DescribesInfo(data: Bytes, i: TorrentInfo, info: Term) {
    && HoldsString(data, i.name, Get(info, NAME, StringKind))
    && HoldsString(data, i.pieces, Get(info, PIECES, StringKind)) && i.pieces.length % 20 == 0
    && Get(info, LENGTH, IntegerKind) == Some(Int(i.length)) && i.length >= 0
    && Get(info, PIECE_LENGTH, IntegerKind) == Some(Int(i.pieceLength)) && i.pieceLength > 0
    && Has(data, i.infoStart, Print(info)) && i.infoLength == |Print(info)|
  }

  method FindNumber(data: Bytes, info: Object, key: Bytes, least: int, ghost t: Term) returns (r: Option<int>)
    requires Parsed(data, info, t)
    ensures r.Some? <==> Get(t, key, IntegerKind).Some? && Get(t, key, IntegerKind).value.n >= least
    ensures r.Some? ==> Get(t, key, IntegerKind) == Some(Int(r.value)) && r.value >= least
  {
    hide Parsed, DictMap;
    var o := FindEntry(data, info, key, IntegerKind, t);
    if o.None? {
      return None;
    }
    ParsedKind(data, o.value, Get(t, key, IntegerKind).value);
    if o.value.payload.n < least {
      return None;
    }
    return Some(o.value.payload.n);
  }

  method FindString(data: Bytes, root: Object, key: Bytes, ghost t: Term) returns (r: Option<Segment>)
    requires Parsed(data, root, t)
    ensures r.Some? <==> Get(t, key, StringKind).Some?
    ensures r.Some? ==> HoldsString(data, r.value, Get(t, key, StringKind))
  {
    hide Parsed, DictMap;
    var o := FindEntry(data, root, key, StringKind, t);
    if o.None? {
      return None;
    }
    ParsedKind(data, o.value, Get(t, key, StringKind).value);
    return Some(o.value.payload.segment);
  }

  method ExtractInfo(data: Bytes, root: Object, ghost t: Term) returns (r: Option<TorrentInfo>)
    requires Parsed(data, root, t)
    ensures r.Some? <==> Get(t, INFO, DictionaryKind).Some? && IsInfo(Get(t, INFO, DictionaryKind).value)
    ensures r.Some? ==> DescribesInfo(data, r.value, Get(t, INFO, DictionaryKind).value)
  {
    hide DictMap, Get;
    var info := FindEntry(data, root, INFO, DictionaryKind, t);
    if info.None? {
      return None;
    }
    ghost var u := Get(t, INFO, DictionaryKind).value;
    var name := FindString(data, info.value, NAME, u);
    var length := FindNumber(data, info.value, LENGTH, 0, u);
    var pieceLength := FindNumber(data, info.value, PIECE_LENGTH, 1, u);
    var pieces := FindString(data, info.value, PIECES, u);
    if name.None? || length.None? || pieceLength.None? || pieces.None? || pieces.value.length % 20 != 0 {
      return None;
    }
    RepresentsSpan(info.value, u, info.value.startOffset);
    return Some(TorrentInfo(name.value, length.value, pieceLength.value, pieces.value,
                            info.value.startOffset, info.value.encodedLength));
  }

  /** t is a dictionary with an announce string and a usable info dictionary. */
  ghost predicate IsTorrent(t: Term) {
    && Get(t, ANNOUNCE, StringKind).Some?
    && Get(t, INFO, DictionaryKind).Some? && IsInfo(Get(t, INFO, DictionaryKind).value)
  }

  method Extract(data: Bytes, root: Object, ghost t: Term) returns (r: Option<Metadata>)
    requires Parsed(data, root, t)
    ensures r.Some? <==> IsTorrent(t)
    ensures r.Some? ==>
              && HoldsString(data, r.value.announce, Get(t, ANNOUNCE, StringKind))
              && DescribesInfo(data, r.value.info, Get(t, INFO, DictionaryKind).value)
  {
    hide Parsed, DictMap, Get, IsInfo, DescribesInfo, HoldsString;
    if KindOf(root.payload) != DictionaryKind {
      NotADictionary(data, root, t);
      return None;
    }
    var announce := FindString(data, root, ANNOUNCE, t);
    if announce.None? {
      return None;
    }
    var info := ExtractInfo(data, root, t);
    if info.None? {
      return None;
    }
    return Some(Metadata(announce.value, info.value));
  }

  lemma {:induction false} NotADictionary(data: Bytes, o: Object, t: Term)
    requires Parsed(data, o, t) && KindOf(o.payload) != DictionaryKind
    ensures Get(t, ANNOUNCE, StringKind).None?
  {
    ParsedKind(data, o, t);
  }

  /** The bytes handed to the hash, behind the two range checks made before hashing. */
  function InfoBytes(data: Bytes, i: TorrentInfo): Option<Bytes> {
    if i.infoStart > |data| then None
    else if i.infoLength > |data| - i.infoStart then None
    else Some(data[i.infoStart..i.infoStart + i.infoLength])
  }

  /** The range checks never fire, and what is hashed is the encoding of the info dictionary, byte for byte. */
  lemma {:induction false} InfoHashInput(data: Bytes, i: TorrentInfo, info: Term)
    requires DescribesInfo(data, i, info)
    ensures InfoBytes(data, i) == Some(Print(info))
  {
  }

  // ----- from the file to the hash -----

  /** The file begins with the bencoding of a torrent. */
  ghost predicate HoldsTorrent(data: Bytes, t: Term) {
    WellFormed(t) && Has(data, 0, Print(t)) && IsTorrent(t)
  }

  /**
   Parse the file, extract the metadata, and take the bytes to hash. Unless an
   allocation is refused, this succeeds exactly for files that begin with a torrent,
   and what is hashed is then the encoding of the value of its info key. The parsed
   root, which the metadata points into, is the caller's to free.
   */
  method LoadTorrent(data: Bytes, heap: Allocator)
    returns (r: Option<Metadata>, root: Object, hashed: Bytes, ghost t: Term)
    requires |data| <= SIZE_MAX && heap.Valid()
    modifies heap
    ensures r.Some? ==>
              && HoldsTorrent(data, t)
              && HoldsString(data, r.value.announce, Get(t, ANNOUNCE, StringKind))
              && DescribesInfo(data, r.value.info, Get(t, INFO, DictionaryKind).value)
    ensures r.Some? ==> hashed == Print(Get(t, INFO, DictionaryKind).value)
    ensures r.Some? ==> Represents(root, t, 0) && heap.live == old(heap.live) + Blocks(root)
    ensures r.None? ==>
              || heap.Refusals() < old(heap.Refusals())
              || forall u :: !HoldsTorrent(data, u)
    ensures heap.Valid() && (r.None? ==> heap.live == old(heap.live))
  {
    hide Print, Has, WellFormed, Represents, IsInfo, Get, DescribesInfo, Blocks, HoldsString;
    r, root, hashed := None, Object(Invalid, 0, 0), [];
    var parser := new Parser(data);
    var parsed;
    parsed, t := parser.ParseBuffer(heap);
    if parsed.None? {
      return;
    }
    root := parsed.value;
    forall u | HoldsTorrent(data, u)
      ensures u == t
    {
      PrefixFree(data, 0, t, u);
    }
    RepresentsSpan(root, t, 0);
    var metadata := Extract(data, root, t);
    if metadata.None? {
      root := heap.FreeObject(root);
      return;
    }
    InfoHashInput(data, metadata.value.info, Get(t, INFO, DictionaryKind).value);
    hashed := InfoBytes(data, metadata.value.info).value;
    r := metadata;
  }
}
