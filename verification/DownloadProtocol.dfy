/**
 The download as an abstract state machine: one step per message of the current
 peer, with the bitfield as a set of pieces, the piece buffer as the bytes
 received, and every outcome of the environment (allocation, seek, write, send)
 as an input. The log records what crossed the connection.
 */
module DownloadProtocol {
  import opened ByteStrings
  import opened Faults
  import opened WireFraming
  import opened PieceBitfield

  const BLOCK_SIZE: nat := 16384
  const DIGEST_LENGTH: nat := 20

  // SHA-1 is not interpreted.
  type Digester = Bytes -> Bytes

  datatype Torrent = Torrent(pieces: Bytes, pieceLength: nat, length: nat) {

    function PieceCount(): nat {
      |pieces| / DIGEST_LENGTH
    }

    /** Where piece j begins in the file; the end of the file for j == PieceCount(). */
    function Boundary(j: nat): nat {
      if j >= PieceCount() then length else Offset(j)
    }

    function Offset(j: nat): nat {
      if j == 0 then 0 else Offset(j - 1) + pieceLength
    }

    /** The piece table covers the file: all pieces but the last are full, and the last is not empty. */
    ghost predicate Consistent() {
      && |pieces| % DIGEST_LENGTH == 0 && PieceCount() >= 1
      && pieceLength >= 1
      && Offset(PieceCount() - 1) < length <= Offset(PieceCount())
      && |pieces| <= SIZE_MAX && pieceLength <= INT64_MAX && length <= INT64_MAX
    }

    function PieceSize(j: nat): int {
      Boundary(j + 1) - Boundary(j)
    }

    /** The j-th entry of the piece table. */
    function Digest(j: nat): Bytes
      requires j < PieceCount()
    {
      pieces[j * DIGEST_LENGTH..(j + 1) * DIGEST_LENGTH]
    }

    lemma {:induction false} OffsetIsProduct(j: nat)
      ensures Offset(j) == j * pieceLength
    {
      if j > 0 {
        OffsetIsProduct(j - 1);
        assert j * pieceLength == (j - 1) * pieceLength + pieceLength;
      }
    }

    lemma {:induction false} OffsetGrows(i: nat, j: nat)
      requires i <= j
      ensures Offset(i) <= Offset(j)
      decreases j
    {
      if i < j {
        OffsetGrows(i, j - 1);
      }
    }

    /** Sizes as the program computes them: full pieces, and the remainder of the file for the last. */
    lemma {:induction false} Sizes(j: nat)
      requires Consistent() && j < PieceCount()
      ensures PieceSize(j) == if j + 1 == PieceCount() then length - Offset(j) else pieceLength
      ensures 1 <= PieceSize(j) && 0 <= Boundary(j) < Boundary(j + 1) <= length
      ensures Boundary(j) == Offset(j) && Boundary(0) == 0
    {
      OffsetGrows(j + 1, PieceCount());
      if j + 1 < PieceCount() {
        OffsetGrows(j + 1, PieceCount() - 1);
      }
    }
  }

  datatype Connection = Connection(advertised: Option<set<nat>>, choking: bool, interested: bool)

  datatype Action =
    | Opened
    | PeerChokes
    | PeerUnchokes
    | PeerHas(piece: nat)
    | PeerAdvertises(pieces: set<nat>)
    | BlockAccepted(piece: nat, begin: nat, block: Bytes)
    | InterestedSent
    | RequestSent(piece: nat, begin: nat, length: int)
    | PieceStored(piece: nat)
    | PieceRejected(piece: nat)
    | Closed

  datatype State = State(
    index: nat, received: Bytes, pending: bool, connection: Option<Connection>, file: Bytes, log: seq<Action>)

  // How the environment answers during the handling of one message.
  datatype Environment = Environment(
    bitfieldAllocated: bool, seekOk: bool, write: Outcome, interestedSent: bool, requestSent: bool)

  ghost const FINE: Environment := Environment(true, true, Granted, true, true)

  datatype Step = Step(state: State, active: bool)

  ghost const INITIAL: State := State(0, [], false, None, [], [])

  ghost function Complete(t: Torrent, s: State): bool {
    s.index >= t.PieceCount()
  }

  /** The length of the block asked for next. */
  ghost function RequestLength(t: Torrent, index: nat, received: nat): int {
    var remaining := t.PieceSize(index) - received;
    if remaining < BLOCK_SIZE then remaining else BLOCK_SIZE
  }

  ghost function Log(s: State, a: Action): State {
    s.(log := s.log + [a])
  }

  // ----- one message -----

  /** The set of pieces a BITFIELD payload stands for, if it is well formed. */
  ghost function AdvertisedBy(payload: Bytes, pieceCount: nat): Option<set<nat>> {
    if IsBitfield(ToBits(payload), pieceCount) then Some(PieceSet(ToBits(payload), pieceCount)) else None
  }

  ghost function OnHave(t: Torrent, s: State, c: Connection, piece: nat, env: Environment): Step {
    if piece >= t.PieceCount() || (c.advertised.None? && !env.bitfieldAllocated) then Step(s, false)
    else
      var before := if c.advertised.Some? then c.advertised.value else {};
      Step(Log(s.(connection := Some(c.(advertised := Some(before + {piece})))), PeerHas(piece)), true)
  }

  ghost function OnBitfield(t: Torrent, s: State, c: Connection, payload: Bytes, env: Environment): Step {
    var advertised := AdvertisedBy(payload, t.PieceCount());
    if c.advertised.Some? || advertised.None? || !env.bitfieldAllocated then Step(s, false)
    else Step(Log(s.(connection := Some(c.(advertised := advertised))), PeerAdvertises(advertised.value)), true)
  }

  /** A block is taken only if it answers the pending request exactly. */
  ghost function OnPiece(t: Torrent, s: State, payload: Bytes): Step
    requires |payload| >= 8
  {
    var piece, begin, block := Value32(payload[..4]), Value32(payload[4..8]), payload[8..];
    if || !s.pending || piece != s.index || begin != |s.received|
       || |block| != RequestLength(t, s.index, |s.received|)
    then Step(s, false)
    else Step(Log(s.(received := s.received + block, pending := false), BlockAccepted(piece, begin, block)), true)
  }

  ghost function Intake(t: Torrent, s: State, m: Message, env: Environment): Step
    requires s.connection.Some? && IsMessage(m) && m.Message?
  {
    var c := s.connection.value;
    if m.id == CHOKE then Step(Log(s.(connection := Some(c.(choking := true))), PeerChokes), true)
    else if m.id == UNCHOKE then Step(Log(s.(connection := Some(c.(choking := false))), PeerUnchokes), true)
    else if m.id == HAVE then OnHave(t, s, c, Value32(m.payload), env)
    else if m.id == BITFIELD then OnBitfield(t, s, c, m.payload, env)
    else if m.id == PIECE then OnPiece(t, s, m.payload)
    else Step(s, true)
  }

  /** Bytes written at a position; a gap before it would read as zeros. */
  function Write(file: Bytes, at: nat, bytes: Bytes): Bytes {
    if bytes == [] then file
    else
      var padded := if |file| < at then file + seq(at - |file|, _ => 0) else file;
      padded[..at] + bytes + if at + |bytes| < |padded| then padded[at + |bytes|..] else []
  }

  /** Once all bytes of the piece are there it is checked, written and counted. */
  ghost function Settle(t: Torrent, sha1: Digester, s: State, env: Environment): Step
    requires s.index < t.PieceCount()
  {
    if |s.received| != t.PieceSize(s.index) then Step(s, true)
    else if sha1(s.received) != t.Digest(s.index) then
      Step(Log(s.(received := [], pending := false), PieceRejected(s.index)), false)
    else if !env.seekOk then Step(s, false)
    else
      var written := Within(env.write, |s.received|);
      var file := Write(s.file, t.Boundary(s.index), s.received[..written]);
      if written < |s.received| then Step(s.(file := file), false)
      else
        var stored := s.(index := s.index + 1, received := [], pending := false, file := file);
        Step(Log(stored, PieceStored(s.index)), stored.index < t.PieceCount())
  }

  /** With a peer that has the piece: say we are interested, and ask for the next block when allowed to. */
  ghost function Advance(t: Torrent, s: State, env: Environment): Step
    requires s.connection.Some?
  {
    var c := s.connection.value;
    if c.advertised.None? then Step(s, true)
    else if s.index !in c.advertised.value then Step(s, false)
    else if !c.interested && !env.interestedSent then Step(s, false)
    else
      var s1 := if c.interested then s
                else Log(s.(connection := Some(c.(interested := true))), InterestedSent);
      if c.choking || s.pending then Step(s1, true)
      else if s.index > UINT32_MAX || |s.received| > UINT32_MAX || !env.requestSent then Step(s1, false)
      else
        var length := RequestLength(t, s.index, |s.received|);
        Step(Log(s1.(pending := true), RequestSent(s.index, |s.received|, length)), true)
  }

  ghost function Handle(t: Torrent, sha1: Digester, s: State, m: Message, env: Environment): Step
    requires s.connection.Some? && IsMessage(m) && s.index < t.PieceCount()
  {
    if m.KeepAlive? then Step(s, true)
    else
      var taken := Intake(t, s, m, env);
      if !taken.active then taken
      else
        var settled := Settle(t, sha1, taken.state, env);
        if !settled.active then settled else Advance(t, settled.state, env)
  }

  // ----- connections and whole runs -----

  datatype Delivery = Delivery(message: Message, env: Environment)

  // What becomes of one peer of the list: no usable connection, or these messages until the stream ends.
  datatype Session = Unreachable | Connected(deliveries: seq<Delivery>)

  ghost predicate IsSession(session: Session) {
    session.Connected? ==> AreMessages(session.deliveries)
  }

  ghost predicate AreMessages(ds: seq<Delivery>) {
    forall i | 0 <= i < |ds| :: IsMessage(ds[i].message)
  }

  ghost predicate AreSessions(sessions: seq<Session>) {
    forall i | 0 <= i < |sessions| :: IsSession(sessions[i])
  }

  ghost function Reset(s: State): State {
    s.(received := [], pending := false)
  }

  ghost function Open(s: State): State {
    Log(s.(connection := Some(Connection(None, true, false))), Opened)
  }

  ghost function Close(s: State): State {
    Log(Reset(s).(connection := None), Closed)
  }

  ghost function Serve(t: Torrent, sha1: Digester, s: State, ds: seq<Delivery>): State
    requires AreMessages(ds)
    decreases |ds|
  {
    if ds == [] || s.connection.None? || Complete(t, s) then s
    else
      var step := Handle(t, sha1, s, ds[0].message, ds[0].env);
      if step.active then Serve(t, sha1, step.state, ds[1..]) else step.state
  }

  ghost function RunSession(t: Torrent, sha1: Digester, s: State, session: Session): State
    requires IsSession(session)
  {
    match session
    case Unreachable => Reset(s)
    case Connected(ds) => Close(Serve(t, sha1, Open(s), ds))
  }

  ghost function Run(t: Torrent, sha1: Digester, s: State, sessions: seq<Session>): State
    requires AreSessions(sessions)
    decreases |sessions|
  {
    if sessions == [] || Complete(t, s) then s
    else Run(t, sha1, RunSession(t, sha1, s, sessions[0]), sessions[1..])
  }
}
