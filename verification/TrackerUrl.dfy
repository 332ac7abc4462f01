/**
 The announce URL: its capacity is summed from the lengths of its parts, filled in
 place, and must come out exactly full. A reader that splits the query and undoes
 the percent-encoding of RFC 3986, section 2.1, recovers every parameter.
 */
module TrackerUrl {
  import opened ByteStrings
  import opened Faults

  const QUESTION_MARK: Byte := 63
  const AMPERSAND: Byte := 38
  const EQUALS: Byte := 61
  const PERCENT: Byte := 37

  const INFO_HASH: Bytes := [105, 110, 102, 111, 95, 104, 97, 115, 104]
  const PEER_ID: Bytes := [112, 101, 101, 114, 95, 105, 100]
  const PORT: Bytes := [112, 111, 114, 116]
  const UPLOADED: Bytes := [117, 112, 108, 111, 97, 100, 101, 100]
  const DOWNLOADED: Bytes := [100, 111, 119, 110, 108, 111, 97, 100, 101, 100]
  const LEFT: Bytes := [108, 101, 102, 116]
  const COMPACT: Bytes := [99, 111, 109, 112, 97, 99, 116]
  const EVENT: Bytes := [101, 118, 101, 110, 116]

  const STARTED: Bytes := [115, 116, 97, 114, 116, 101, 100]
  const COMPLETED: Bytes := [99, 111, 109, 112, 108, 101, 116, 101, 100]
  const STOPPED: Bytes := [115, 116, 111, 112, 112, 101, 100]

  // Lengths of "?info_hash=&peer_id=&port=&uploaded=&downloaded=&left=&compact=1", without and with "&event=".
  const STATIC_LENGTH: nat := 64
  const STATIC_LENGTH_WITH_EVENT: nat := 71

  datatype Event = NoEvent | Started | Completed | Stopped

  datatype TrackerRequest = TrackerRequest(
    infoHash: Bytes, peerId: Bytes, port: nat, uploaded: nat, downloaded: nat, left: nat, compact: bool, event: Event)

  datatype Parameter = Parameter(name: Bytes, value: Bytes)

  function EventValue(e: Event): Bytes {
    match e
    case NoEvent => []
    case Started => STARTED
    case Completed => COMPLETED
    case Stopped => STOPPED
  }

  function CompactValue(compact: bool): Bytes {
    if compact then [ZERO + 1] else [ZERO]
  }

  /** What the tracker is to be told, in order. */
  function Parameters(r: TrackerRequest): seq<Parameter> {
    [Parameter(INFO_HASH, r.infoHash), Parameter(PEER_ID, r.peerId), Parameter(PORT, Decimal(r.port)),
     Parameter(UPLOADED, Decimal(r.uploaded)), Parameter(DOWNLOADED, Decimal(r.downloaded)),
     Parameter(LEFT, Decimal(r.left)), Parameter(COMPACT, CompactValue(r.compact))]
    + if r.event.NoEvent? then [] else [Parameter(EVENT, EventValue(r.event))]
  }

  // ----- percent-encoding -----

  /** The unreserved characters of RFC 3986, section 2.3. */
  predicate IsUnreserved(b: Byte) {
    IsDigit(b) || 65 <= b <= 90 || 97 <= b <= 122 || b == 45 || b == 46 || b == 95 || b == 126
  }

  function HexDigit(d: nat): Byte
    requires d < 16
  {
    if d < 10 then ZERO + d else 55 + d
  }

  function HexValue(b: Byte): int {
    if IsDigit(b) then b - ZERO else b - 55
  }

  function EscapeByte(b: Byte): Bytes {
    if IsUnreserved(b) then [b] else [PERCENT, HexDigit(b / 16), HexDigit(b % 16)]
  }

  /** curl_easy_escape: everything but unreserved characters is percent-encoded. */
  function Escape(bs: Bytes): Bytes {
    if bs == [] then [] else EscapeByte(bs[0]) + Escape(bs[1..])
  }

  function Unescape(bs: Bytes): seq<int> {
    if bs == [] then []
    else if bs[0] == PERCENT && |bs| >= 3 then [16 * HexValue(bs[1]) + HexValue(bs[2])] + Unescape(bs[3..])
    else [bs[0]] + Unescape(bs[1..])
  }

  lemma {:induction false} HexRoundTrip(b: Byte)
    ensures 16 * HexValue(HexDigit(b / 16)) + HexValue(HexDigit(b % 16)) == b
  {
    assert b == 16 * (b / 16) + b % 16;
  }

  lemma {:induction false} UnescapeEscaped(bs: Bytes)
    ensures Unescape(Escape(bs)) == bs
  {
    if bs != [] {
      UnescapeEscaped(bs[1..]);
      HexRoundTrip(bs[0]);
      var first, rest := EscapeByte(bs[0]), Escape(bs[1..]);
      assert (first + rest)[|first|..] == rest;
    }
  }

  /** Escaped text contains neither of the query's separators. */
  lemma {:induction false} EscapedIsClean(bs: Bytes)
    ensures AMPERSAND !in Escape(bs) && EQUALS !in Escape(bs)
  {
    if bs != [] {
      EscapedIsClean(bs[1..]);
    }
  }

  /** Digits need no escaping. */
  lemma {:induction false} EscapeUnreserved(bs: Bytes)
    requires forall i | 0 <= i < |bs| :: IsUnreserved(bs[i])
    ensures Escape(bs) == bs
  {
    if bs != [] {
      EscapeUnreserved(bs[1..]);
      assert bs == [bs[0]] + bs[1..];
    }
  }

  lemma {:induction false} EscapeDecimal(n: nat)
    ensures Escape(Decimal(n)) == Decimal(n)
  {
    EscapeUnreserved(Decimal(n));
  }

  /** Unreserved characters stand for themselves; of any other byte the two hexadecimal digits follow a percent sign. */
  lemma {:induction false} EscapeSpelledOut(b: Byte)
    ensures IsUnreserved(b) <==>
            || 'A' as int <= b <= 'Z' as int || 'a' as int <= b <= 'z' as int || '0' as int <= b <= '9' as int
            || b == '-' as int || b == '.' as int || b == '_' as int || b == '~' as int
    ensures var hex := "0123456789ABCDEF";
            Escape([b]) == if IsUnreserved(b) then [b] else ['%' as int, hex[b / 16] as int, hex[b % 16] as int]
  {
    assert [b][1..] == [] && Escape([]) == [];
    HexSpelledOut(b / 16);
    HexSpelledOut(b % 16);
  }

  lemma {:induction false} HexSpelledOut(d: nat)
    requires d < 16
    ensures "0123456789ABCDEF"[d] as int == HexDigit(d)
  {
  }

  lemma {:induction false} Associative(a: Bytes, b: Bytes, c: Bytes)
    ensures a + (b + c) == a + b + c
  {
  }

  lemma {:induction false} EscapeConcat(a: Bytes, b: Bytes)
    ensures Escape(a + b) == Escape(a) + Escape(b)
  {
    hide EscapeByte;
    if a == [] {
      assert a + b == b;
    } else {
      EscapeConcat(a[1..], b);
      var first, rest, last := EscapeByte(a[0]), Escape(a[1..]), Escape(b);
      assert (a + b)[0] == a[0] && (a + b)[1..] == a[1..] + b;
      Associative(first, rest, last);
    }
  }

  // ----- queries -----

  function Assignment(p: Parameter): Bytes {
    p.name + [EQUALS] + Escape(p.value)
  }

  function Query(ps: seq<Parameter>): Bytes {
    if ps == [] then []
    else if |ps| == 1 then Assignment(ps[0])
    else Assignment(ps[0]) + [AMPERSAND] + Query(ps[1..])
  }

  function IndexOf(bs: Bytes, b: Byte): (i: nat)
    ensures i <= |bs|
  {
    if bs == [] || bs[0] == b then 0 else 1 + IndexOf(bs[1..], b)
  }

  /** Splits at the first '=' and decodes what follows it. */
  function ReadAssignment(bs: Bytes): (Bytes, seq<int>) {
    var i := IndexOf(bs, EQUALS);
    (bs[..i], if i < |bs| then Unescape(bs[i + 1..]) else [])
  }

  /** Splits at every '&'. */
  function ReadQuery(bs: Bytes): seq<(Bytes, seq<int>)>
    decreases |bs|
  {
    var i := IndexOf(bs, AMPERSAND);
    [ReadAssignment(bs[..i])] + if i < |bs| then ReadQuery(bs[i + 1..]) else []
  }

  lemma {:induction false} IndexOfFirst(a: Bytes, b: Byte, rest: Bytes)
    requires b !in a
    ensures IndexOf(a + [b] + rest, b) == |a| && IndexOf(a, b) == |a|
  {
    if a != [] {
      assert (a + [b] + rest)[1..] == a[1..] + [b] + rest;
      IndexOfFirst(a[1..], b, rest);
    }
  }

  predicate IsCleanName(name: Bytes) {
    AMPERSAND !in name && EQUALS !in name
  }

  lemma {:induction false} ReadAssigned(p: Parameter)
    requires IsCleanName(p.name)
    ensures AMPERSAND !in Assignment(p)
    ensures ReadAssignment(Assignment(p)) == (p.name, p.value)
  {
    hide Escape, Unescape;
    EscapedIsClean(p.value);
    UnescapeEscaped(p.value);
    IndexOfFirst(p.name, EQUALS, Escape(p.value));
    var bs := Assignment(p);
    assert bs[..|p.name|] == p.name && bs[|p.name| + 1..] == Escape(p.value);
  }

  ghost predicate AreRead(ps: seq<Parameter>, read: seq<(Bytes, seq<int>)>) {
    |read| == |ps| && forall i | 0 <= i < |ps| :: read[i] == (ps[i].name, ps[i].value)
  }

  /** Reading a query gives back the parameters it was built from. */
  lemma {:induction false} ReadQueryOf(ps: seq<Parameter>)
    requires ps != [] && forall i | 0 <= i < |ps| :: IsCleanName(ps[i].name)
    ensures AreRead(ps, ReadQuery(Query(ps)))
  {
    hide Assignment, ReadAssignment, IsCleanName;
    var first := Assignment(ps[0]);
    ReadAssigned(ps[0]);
    if |ps| == 1 {
      IndexOfFirst(first, AMPERSAND, []);
      assert first[..|first|] == first;
    } else {
      var rest := Query(ps[1..]);
      IndexOfFirst(first, AMPERSAND, rest);
      var bs := first + [AMPERSAND] + rest;
      assert bs[..|first|] == first && bs[|first| + 1..] == rest;
      ReadQueryOf(ps[1..]);
    }
  }

  lemma {:induction false} QueryAppend(ps: seq<Parameter>, p: Parameter)
    requires ps != []
    ensures Query(ps + [p]) == Query(ps) + [AMPERSAND] + Assignment(p)
  {
    hide Assignment;
    var all := ps + [p];
    if |ps| == 1 {
      assert all[1..] == [p];
    } else {
      assert all[0] == ps[0] && all[1..] == ps[1..] + [p];
      QueryAppend(ps[1..], p);
    }
  }

  /** The tracker reads back exactly what the request says. */
  lemma {:induction false} RequestIsRecovered(r: TrackerRequest)
    ensures AreRead(Parameters(r), ReadQuery(Query(Parameters(r))))
  {
    hide Query, ReadQuery, Decimal, AreRead, IsCleanName;
    var ps := Parameters(r);
    NamesAreClean();
    ReadQueryOf(ps);
  }

  /** A reader finds in the query what the request says, under the names of the tracker protocol, and nothing else. */
  ghost predicate Tells(query: Bytes, r: TrackerRequest) {
    var read := ReadQuery(query);
    && |read| == (if r.event.NoEvent? then 7 else 8)
    && (Text("info_hash"), r.infoHash) in read
    && (Text("peer_id"), r.peerId) in read
    && (Text("port"), Decimal(r.port)) in read
    && (Text("uploaded"), Decimal(r.uploaded)) in read
    && (Text("downloaded"), Decimal(r.downloaded)) in read
    && (Text("left"), Decimal(r.left)) in read
    && (Text("compact"), Text(if r.compact then "1" else "0")) in read
    && match r.event
       case NoEvent => true
       case Started => (Text("event"), Text("started")) in read
       case Completed => (Text("event"), Text("completed")) in read
       case Stopped => (Text("event"), Text("stopped")) in read
  }

  lemma {:induction false} NamesSpelledOut()
    ensures INFO_HASH == Text("info_hash") && PEER_ID == Text("peer_id") && PORT == Text("port")
    ensures UPLOADED == Text("uploaded") && DOWNLOADED == Text("downloaded") && LEFT == Text("left")
    ensures COMPACT == Text("compact") && EVENT == Text("event")
    ensures STARTED == Text("started") && COMPLETED == Text("completed") && STOPPED == Text("stopped")
    ensures CompactValue(true) == Text("1") && CompactValue(false) == Text("0")
  {
  }

  lemma {:induction false} QueryTells(r: TrackerRequest)
    ensures Tells(Query(Parameters(r)), r)
  {
    hide Query, ReadQuery, Decimal, Text;
    RequestIsRecovered(r);
    NamesSpelledOut();
    var ps, read := Parameters(r), ReadQuery(Query(Parameters(r)));
    assert read[0] == (ps[0].name, ps[0].value) && read[1] == (ps[1].name, ps[1].value);
    assert read[2] == (ps[2].name, ps[2].value) && read[3] == (ps[3].name, ps[3].value);
    assert read[4] == (ps[4].name, ps[4].value) && read[5] == (ps[5].name, ps[5].value);
    assert read[6] == (ps[6].name, ps[6].value);
    if !r.event.NoEvent? {
      assert read[7] == (ps[7].name, ps[7].value);
    }
  }

  /** The query, spelled out. */
  function QueryText(r: TrackerRequest): Bytes {
    Text("info_hash=") + Escape(r.infoHash) + Text("&peer_id=") + Escape(r.peerId)
    + Text("&port=") + Decimal(r.port) + Text("&uploaded=") + Decimal(r.uploaded)
    + Text("&downloaded=") + Decimal(r.downloaded) + Text("&left=") + Decimal(r.left)
    + Text("&compact=") + Text(if r.compact then "1" else "0")
  }

  function EventText(e: Event): Bytes {
    match e
    case NoEvent => []
    case Started => Text("&event=started")
    case Completed => Text("&event=completed")
    case Stopped => Text("&event=stopped")
  }

  function AnnounceUrl(announce: Bytes, r: TrackerRequest): Bytes {
    announce + Text(if QUESTION_MARK in announce then "&" else "?") + (QueryText(r) + EventText(r.event))
  }

  lemma {:induction false} NamesAreClean()
    ensures IsCleanName(INFO_HASH) && IsCleanName(PEER_ID) && IsCleanName(PORT) && IsCleanName(UPLOADED)
    ensures IsCleanName(DOWNLOADED) && IsCleanName(LEFT) && IsCleanName(COMPACT) && IsCleanName(EVENT)
  {
  }

  // ----- building the URL -----

  /** Appends a prefix and a value if both still fit. */
  method AddQueryParameter(url: array<Byte>, prefix: Bytes, value: Bytes, position: nat)
    returns (ok: bool, newPosition: nat)
    modifies url
    ensures ok <==> position + |prefix| + |value| <= url.Length
    ensures ok ==> newPosition == position + |prefix| + |value|
    ensures ok ==> url[..newPosition] == old(url[..position]) + prefix + value
    ensures !ok ==> newPosition == position
  {
    if position > url.Length {
      return false, position;
    }
    var remaining := url.Length - position;
    if |prefix| > remaining {
      return false, position;
    }
    remaining := remaining - |prefix|;
    if |value| > remaining {
      return false, position;
    }
    Store(url, position, prefix);
    Store(url, position + |prefix|, value);
    return true, position + |prefix| + |value|;
  }

  /** A length increased by another, unless that exceeds size_t. */
  function SafelyIncreased(length: Option<nat>, extra: nat): Option<nat> {
    if length.None? || length.value > SIZE_MAX - extra then None else Some(length.value + extra)
  }

  /** The bytes needed for the URL and its terminator, summed part by part. */
  function UrlCapacity(announceLength: nat, r: TrackerRequest): Option<nat> {
    var capacity := SafelyIncreased(Some(1), announceLength);
    var capacity := SafelyIncreased(capacity, |Escape(r.infoHash)|);
    var capacity := SafelyIncreased(capacity, |Escape(r.peerId)|);
    var capacity := SafelyIncreased(capacity, |Decimal(r.port)|);
    var capacity := SafelyIncreased(capacity, |Decimal(r.uploaded)|);
    var capacity := SafelyIncreased(capacity, |Decimal(r.downloaded)|);
    var capacity := SafelyIncreased(capacity, |Decimal(r.left)|);
    var capacity := SafelyIncreased(capacity, if r.event.NoEvent? then STATIC_LENGTH else STATIC_LENGTH_WITH_EVENT);
    SafelyIncreased(capacity, |EventValue(r.event)|)
  }

  /** Escaping changes nothing in the values the program formats itself. */
  lemma {:induction false} PlainValues(r: TrackerRequest)
    ensures Escape(Decimal(r.port)) == Decimal(r.port) && Escape(Decimal(r.uploaded)) == Decimal(r.uploaded)
    ensures Escape(Decimal(r.downloaded)) == Decimal(r.downloaded) && Escape(Decimal(r.left)) == Decimal(r.left)
    ensures Escape(CompactValue(r.compact)) == CompactValue(r.compact)
    ensures Escape(EventValue(r.event)) == EventValue(r.event)
  {
    hide Escape, Decimal;
    EscapeDecimal(r.port);
    EscapeDecimal(r.uploaded);
    EscapeDecimal(r.downloaded);
    EscapeDecimal(r.left);
    EscapeUnreserved(CompactValue(r.compact));
    EscapeUnreserved(EventValue(r.event));
  }

  /** One more parameter after those already in the query. */
  method AddNext(url: array<Byte>, ghost head: Bytes, ghost ps: seq<Parameter>, name: Bytes, value: Bytes,
                 ghost raw: Bytes, position: nat)
    returns (ok: bool, newPosition: nat)
    requires position <= url.Length && url[..position] == head + Query(ps) && ps != []
    requires value == Escape(raw)
    modifies url
    ensures ok <==> position + 2 + |name| + |value| <= url.Length
    ensures newPosition == if ok then position + 2 + |name| + |value| else position
    ensures ok ==> url[..newPosition] == head + Query(ps + [Parameter(name, raw)])
  {
    hide Query, Escape;
    QueryAppend(ps, Parameter(name, raw));
    ok, newPosition := AddQueryParameter(url, [AMPERSAND] + name + [EQUALS], value, position);
  }

  /** The parameters that say who asks for what. */
  function Identity(r: TrackerRequest): seq<Parameter> {
    [Parameter(INFO_HASH, r.infoHash), Parameter(PEER_ID, r.peerId), Parameter(PORT, Decimal(r.port))]
  }

  /** These and the three byte counters. */
  function Counters(r: TrackerRequest): seq<Parameter> {
    Identity(r) + [Parameter(UPLOADED, Decimal(r.uploaded)), Parameter(DOWNLOADED, Decimal(r.downloaded)),
                   Parameter(LEFT, Decimal(r.left))]
  }

  /** The parameters, each only if all before it fitted. */
  method FillQuery(url: array<Byte>, r: TrackerRequest, start: nat, ghost head: Bytes) returns (ok: bool, position: nat)
    requires start <= url.Length && url[..start] == head
    modifies url
    ensures ok <==> start + |Query(Parameters(r))| <= url.Length
    ensures ok ==> position == start + |Query(Parameters(r))| && url[..position] == head + Query(Parameters(r))
  {
    hide Query, Identity, Counters, Parameters;
    QueryLength(r);
    ok, position := FillIdentity(url, r, start, head);
    if ok {
      ok, position := FillCounters(url, r, position, head);
    }
    if ok {
      ok, position := FillModes(url, r, position, head);
    }
  }

  method FillIdentity(url: array<Byte>, r: TrackerRequest, start: nat, ghost head: Bytes)
    returns (ok: bool, position: nat)
    requires start <= url.Length && url[..start] == head
    modifies url
    ensures ok <==> start + |Query(Identity(r))| <= url.Length
    ensures ok ==> position == start + |Query(Identity(r))| && url[..position] == head + Query(Identity(r))
  {
    hide Query, Escape, Decimal;
    PlainValues(r);
    QueryLength(r);
    ghost var ps := [Parameter(INFO_HASH, r.infoHash)];
    FirstParameter(r.infoHash);
    ok, position := AddQueryParameter(url, INFO_HASH + [EQUALS], Escape(r.infoHash), start);
    if ok {
      ok, position := AddNext(url, head, ps, PEER_ID, Escape(r.peerId), r.peerId, position);
      ps := ps + [Parameter(PEER_ID, r.peerId)];
    }
    if ok {
      ok, position := AddNext(url, head, ps, PORT, Decimal(r.port), Decimal(r.port), position);
      ps := ps + [Parameter(PORT, Decimal(r.port))];
      assert ps == Identity(r);
    }
  }

  method FillCounters(url: array<Byte>, r: TrackerRequest, start: nat, ghost head: Bytes)
    returns (ok: bool, position: nat)
    requires start <= url.Length && url[..start] == head + Query(Identity(r))
    modifies url
    ensures ok <==> start + |Query(Counters(r))| - |Query(Identity(r))| <= url.Length
    ensures ok ==> position == start + |Query(Counters(r))| - |Query(Identity(r))|
    ensures ok ==> url[..position] == head + Query(Counters(r))
  {
    hide Query, Escape, Decimal;
    PlainValues(r);
    QueryLength(r);
    ghost var ps := Identity(r);
    ok, position := AddNext(url, head, ps, UPLOADED, Decimal(r.uploaded), Decimal(r.uploaded), start);
    ps := ps + [Parameter(UPLOADED, Decimal(r.uploaded))];
    if ok {
      ok, position := AddNext(url, head, ps, DOWNLOADED, Decimal(r.downloaded), Decimal(r.downloaded), position);
      ps := ps + [Parameter(DOWNLOADED, Decimal(r.downloaded))];
    }
    if ok {
      ok, position := AddNext(url, head, ps, LEFT, Decimal(r.left), Decimal(r.left), position);
      ps := ps + [Parameter(LEFT, Decimal(r.left))];
      assert ps == Counters(r);
    }
  }

  method FillModes(url: array<Byte>, r: TrackerRequest, start: nat, ghost head: Bytes)
    returns (ok: bool, position: nat)
    requires start <= url.Length && url[..start] == head + Query(Counters(r))
    modifies url
    ensures ok <==> start + |Query(Parameters(r))| - |Query(Counters(r))| <= url.Length
    ensures ok ==> position == start + |Query(Parameters(r))| - |Query(Counters(r))|
    ensures ok ==> url[..position] == head + Query(Parameters(r))
  {
    hide Query, Escape, Decimal;
    PlainValues(r);
    QueryLength(r);
    ghost var ps := Counters(r);
    ok, position := AddNext(url, head, ps, COMPACT, CompactValue(r.compact), CompactValue(r.compact), start);
    ps := ps + [Parameter(COMPACT, CompactValue(r.compact))];
    if ok && !r.event.NoEvent? {
      ok, position := AddNext(url, head, ps, EVENT, EventValue(r.event), EventValue(r.event), position);
      ps := ps + [Parameter(EVENT, EventValue(r.event))];
    }
    if ok {
      assert ps == Parameters(r);
    }
  }

  lemma {:induction false} FirstParameter(infoHash: Bytes)
    ensures Query([Parameter(INFO_HASH, infoHash)]) == INFO_HASH + [EQUALS] + Escape(infoHash)
  {
  }

  lemma {:induction false} QueryLengthAppend(ps: seq<Parameter>, p: Parameter)
    requires ps != []
    ensures |Query(ps + [p])| == |Query(ps)| + 2 + |p.name| + |Escape(p.value)|
  {
    hide Query, Escape;
    QueryAppend(ps, p);
  }

  lemma {:induction false} QueryLength(r: TrackerRequest)
    ensures |Query(Parameters(r))|
            == |Escape(r.infoHash)| + |Escape(r.peerId)| + |Decimal(r.port)| + |Decimal(r.uploaded)|
               + |Decimal(r.downloaded)| + |Decimal(r.left)| + |EventValue(r.event)|
               + (if r.event.NoEvent? then STATIC_LENGTH else STATIC_LENGTH_WITH_EVENT) - 1
    ensures |Query(Identity(r))| == |Escape(r.infoHash)| + |Escape(r.peerId)| + |Decimal(r.port)| + 25
    ensures |Query(Counters(r))|
            == |Query(Identity(r))| + |Decimal(r.uploaded)| + |Decimal(r.downloaded)| + |Decimal(r.left)| + 28
    ensures |Query(Counters(r))| <= |Query(Parameters(r))|
  {
    hide Query, Escape, Decimal;
    PlainValues(r);
    var ps := [Parameter(INFO_HASH, r.infoHash)];
    FirstParameter(r.infoHash);
    QueryLengthAppend(ps, Parameter(PEER_ID, r.peerId));
    ps := ps + [Parameter(PEER_ID, r.peerId)];
    QueryLengthAppend(ps, Parameter(PORT, Decimal(r.port)));
    ps := ps + [Parameter(PORT, Decimal(r.port))];
    assert ps == Identity(r);
    QueryLengthAppend(ps, Parameter(UPLOADED, Decimal(r.uploaded)));
    ps := ps + [Parameter(UPLOADED, Decimal(r.uploaded))];
    QueryLengthAppend(ps, Parameter(DOWNLOADED, Decimal(r.downloaded)));
    ps := ps + [Parameter(DOWNLOADED, Decimal(r.downloaded))];
    QueryLengthAppend(ps, Parameter(LEFT, Decimal(r.left)));
    ps := ps + [Parameter(LEFT, Decimal(r.left))];
    assert ps == Counters(r);
    QueryLengthAppend(ps, Parameter(COMPACT, CompactValue(r.compact)));
    ps := ps + [Parameter(COMPACT, CompactValue(r.compact))];
    if !r.event.NoEvent? {
      QueryLengthAppend(ps, Parameter(EVENT, EventValue(r.event)));
      ps := ps + [Parameter(EVENT, EventValue(r.event))];
    }
    assert ps == Parameters(r);
  }

  lemma {:induction false} CapacityIsExact(announceLength: nat, r: TrackerRequest)
    ensures var needed := announceLength + 1 + |Query(Parameters(r))| + 1;
            UrlCapacity(announceLength, r) == if needed <= SIZE_MAX then Some(needed) else None
  {
    hide Query, Escape, Decimal, Parameters;
    QueryLength(r);
  }

  /** '&' if the announce URL already has a query, and '?' otherwise. */
  function Separator(announce: Bytes): Byte {
    if QUESTION_MARK in announce then AMPERSAND else QUESTION_MARK
  }

  lemma {:induction false} PrefixesSpelledOut()
    ensures Text("info_hash=") == INFO_HASH + [EQUALS] && Text("&peer_id=") == [AMPERSAND] + PEER_ID + [EQUALS]
    ensures Text("&port=") == [AMPERSAND] + PORT + [EQUALS]
    ensures Text("&uploaded=") == [AMPERSAND] + UPLOADED + [EQUALS]
    ensures Text("&downloaded=") == [AMPERSAND] + DOWNLOADED + [EQUALS]
    ensures Text("&left=") == [AMPERSAND] + LEFT + [EQUALS]
    ensures Text("&compact=") == [AMPERSAND] + COMPACT + [EQUALS]
  {
  }

  lemma {:induction false} EventsSpelledOut()
    ensures Text("&event=started") == [AMPERSAND] + EVENT + [EQUALS] + STARTED
    ensures Text("&event=completed") == [AMPERSAND] + EVENT + [EQUALS] + COMPLETED
    ensures Text("&event=stopped") == [AMPERSAND] + EVENT + [EQUALS] + STOPPED
    ensures Text("?") == [QUESTION_MARK] && Text("&") == [AMPERSAND]
  {
  }

  lemma {:induction false} AppendSpelledOut(ps: seq<Parameter>, name: Bytes, value: Bytes, prefix: Bytes)
    requires ps != [] && prefix == [AMPERSAND] + name + [EQUALS]
    ensures Query(ps + [Parameter(name, value)]) == Query(ps) + prefix + Escape(value)
  {
    hide Query, Escape;
    QueryAppend(ps, Parameter(name, value));
    var query, escaped := Query(ps), Escape(value);
    assert query + [AMPERSAND] + (name + [EQUALS] + escaped) == query + ([AMPERSAND] + name + [EQUALS]) + escaped;
  }

  lemma {:induction false} IdentitySpelledOut(r: TrackerRequest)
    ensures Query(Counters(r)) ==
            Text("info_hash=") + Escape(r.infoHash) + Text("&peer_id=") + Escape(r.peerId)
            + Text("&port=") + Decimal(r.port) + Text("&uploaded=") + Decimal(r.uploaded)
            + Text("&downloaded=") + Decimal(r.downloaded) + Text("&left=") + Decimal(r.left)
  {
    hide Query, Escape, Decimal, Text;
    PlainValues(r);
    PrefixesSpelledOut();
    var ps := [Parameter(INFO_HASH, r.infoHash)];
    FirstParameter(r.infoHash);
    AppendSpelledOut(ps, PEER_ID, r.peerId, Text("&peer_id="));
    ps := ps + [Parameter(PEER_ID, r.peerId)];
    AppendSpelledOut(ps, PORT, Decimal(r.port), Text("&port="));
    ps := ps + [Parameter(PORT, Decimal(r.port))];
    AppendSpelledOut(ps, UPLOADED, Decimal(r.uploaded), Text("&uploaded="));
    ps := ps + [Parameter(UPLOADED, Decimal(r.uploaded))];
    AppendSpelledOut(ps, DOWNLOADED, Decimal(r.downloaded), Text("&downloaded="));
    ps := ps + [Parameter(DOWNLOADED, Decimal(r.downloaded))];
    AppendSpelledOut(ps, LEFT, Decimal(r.left), Text("&left="));
    ps := ps + [Parameter(LEFT, Decimal(r.left))];
    assert ps == Counters(r);
  }

  lemma {:induction false} ModesSpelledOut(r: TrackerRequest)
    ensures Query(Counters(r) + [Parameter(COMPACT, CompactValue(r.compact))]) == QueryText(r)
  {
    hide Query, Escape, Decimal, Text, Counters;
    PlainValues(r);
    PrefixesSpelledOut();
    NamesSpelledOut();
    IdentitySpelledOut(r);
    CountersAreSome(r);
    AppendSpelledOut(Counters(r), COMPACT, CompactValue(r.compact), Text("&compact="));
  }

  lemma {:induction false} CountersAreSome(r: TrackerRequest)
    ensures Counters(r) != []
    ensures Parameters(r) == Counters(r) + [Parameter(COMPACT, CompactValue(r.compact))]
                             + if r.event.NoEvent? then [] else [Parameter(EVENT, EventValue(r.event))]
  {
    hide Decimal;
  }

  lemma {:induction false} QuerySpelledOut(r: TrackerRequest)
    ensures Query(Parameters(r)) == QueryText(r) + EventText(r.event)
  {
    hide Query, Escape, Decimal, Text, Counters, QueryText, Parameters;
    PlainValues(r);
    ModesSpelledOut(r);
    CountersAreSome(r);
    EventsSpelledOut();
    var ps := Counters(r) + [Parameter(COMPACT, CompactValue(r.compact))];
    if r.event.NoEvent? {
      assert ps + [] == ps;
    } else {
      var prefix := [AMPERSAND] + EVENT + [EQUALS];
      AppendSpelledOut(ps, EVENT, EventValue(r.event), prefix);
      Associative(Query(ps), prefix, EventValue(r.event));
    }
  }

  lemma {:induction false} UrlSpelledOut(announce: Bytes, r: TrackerRequest)
    ensures announce + [Separator(announce)] + Query(Parameters(r)) == AnnounceUrl(announce, r)
  {
    hide Query, Text, QueryText, EventText, Parameters;
    EventsSpelledOut();
    QuerySpelledOut(r);
  }

  /**
   The whole URL: unless the announce string is empty, the length exceeds size_t or
   memory is refused, the buffer comes out exactly full.
   */
  method BuildTrackerUrl(announce: Bytes, r: TrackerRequest, os: OperatingSystem) returns (url: Option<array<Byte>>)
    modifies os
    ensures url.Some? ==> url.value[..] == announce + [Separator(announce)] + Query(Parameters(r)) + [0]
    ensures url.Some? ==>
              var end := url.value.Length - 1;
              && |announce| < end && Tells(url.value[|announce| + 1..end], r)
              && url.value[..end] == AnnounceUrl(announce, r)
    ensures url.None? ==>
              || announce == [] || |announce| + 1 + |Query(Parameters(r))| + 1 > SIZE_MAX
              || os.Faults() < old(os.Faults())
  {
    hide Query, Parameters, UrlCapacity, Tells, AnnounceUrl;
    url := None;
    if announce == [] {
      return None;
    }
    var capacity := UrlCapacity(|announce|, r);
    CapacityIsExact(|announce|, r);
    if capacity.None? {
      return None;
    }
    var memory := os.Ask();
    if !memory.Granted? {
      return None;
    }
    var buffer := new Byte[capacity.value](_ => 0);
    Store(buffer, 0, announce);
    var position := |announce|;
    assert buffer[..position] == announce;
    var separator := if QUESTION_MARK !in announce then QUESTION_MARK else AMPERSAND;
    if position >= buffer.Length {
      return;
    }
    buffer[position] := separator;
    position := position + 1;
    ghost var head := announce + [Separator(announce)];
    assert buffer[..position] == head;
    var ok;
    ok, position := FillQuery(buffer, r, position, head);
    if !ok {
      return;
    }
    if position != capacity.value - 1 {
      return;
    }
    buffer[position] := 0;
    assert buffer[..] == buffer[..position] + [0];
    QueryTells(r);
    UrlSpelledOut(announce, r);
    assert buffer[..position] == head + Query(Parameters(r));
    assert buffer[|announce| + 1..position] == Query(Parameters(r));
    return Some(buffer);
  }
}
