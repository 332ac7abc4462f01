/**
 What the log says was sent, as bytes: the encodings of the logged messages, and at
 most the beginning of one more whose sending failed. A budget bounds how many bytes
 a download on track can still send, whatever the peer does.
 */
module WireLog {
  import opened ByteStrings
  import opened WireFraming
  import opened DownloadProtocol
  import opened DownloadSafety
  import opened DownloadProgress

  /** What an action puts on the wire. */
  ghost function Wire(a: Action): Bytes {
    match a
    case InterestedSent => Encode(INTERESTED_MESSAGE)
    case RequestSent(piece, begin, length) =>
      if piece <= UINT32_MAX && begin <= UINT32_MAX && 0 <= length <= UINT32_MAX
      then Encode(RequestMessage(piece, begin, length)) else []
    case _ => []
  }

  ghost function WireAll(actions: seq<Action>): Bytes {
    if actions == [] then [] else WireAll(actions[..|actions| - 1]) + Wire(actions[|actions| - 1])
  }

  lemma {:induction false} WireAllConcat(a: seq<Action>, b: seq<Action>)
    ensures WireAll(a + b) == WireAll(a) + WireAll(b)
    decreases |b|
  {
    hide Wire;
    if b == [] {
      assert a + b == a;
    } else {
      var front := b[..|b| - 1];
      assert (a + b)[..|a + b| - 1] == a + front;
      WireAllConcat(a, front);
    }
  }

  lemma {:induction false} WireOfInterest()
    ensures Wire(InterestedSent) == Encode(INTERESTED_MESSAGE)
  {
  }

  lemma {:induction false} WireOfRequest(piece: nat, begin: nat, length: nat)
    requires piece <= UINT32_MAX && begin <= UINT32_MAX && length <= UINT32_MAX
    ensures Wire(RequestSent(piece, begin, length)) == Encode(RequestMessage(piece, begin, length))
  {
  }

  lemma {:induction false} NothingOnTheWire()
    ensures WireAll([]) == []
  {
  }

  lemma {:induction false} WireAllAppend(actions: seq<Action>, a: Action)
    ensures WireAll(actions + [a]) == WireAll(actions) + Wire(a)
  {
    assert (actions + [a])[..|actions|] == actions;
  }

  // ----- which phases send -----

  /** Each phase of a step consults only its own outcomes of the environment. */
  lemma {:induction false} PhasesReadTheirOwn(t: Torrent, sha1: Digester, s: State, m: Message,
      e: Environment, f: Environment)
    requires s.connection.Some? && IsMessage(m) && m.Message? && s.index < t.PieceCount()
    ensures e.bitfieldAllocated == f.bitfieldAllocated ==> Intake(t, s, m, e) == Intake(t, s, m, f)
    ensures e.seekOk == f.seekOk && e.write == f.write ==> Settle(t, sha1, s, e) == Settle(t, sha1, s, f)
    ensures e.interestedSent == f.interestedSent && e.requestSent == f.requestSent ==>
              Advance(t, s, e) == Advance(t, s, f)
  {
    hide Write, RequestLength, AdvertisedBy, Value32;
  }

  lemma {:induction false} IntakeIsSilent(t: Torrent, s: State, m: Message, env: Environment)
    requires s.connection.Some? && IsMessage(m) && m.Message?
    ensures var log := Intake(t, s, m, env).state.log;
            s.log <= log && WireAll(log[|s.log|..]) == []
  {
    hide RequestLength, AdvertisedBy, Value32, Wire;
    var log := Intake(t, s, m, env).state.log;
    if log == s.log {
      assert log[|s.log|..] == [];
    } else {
      OneSilentAction(s.log, log[|s.log|]);
    }
  }

  lemma {:induction false} SettleIsSilent(t: Torrent, sha1: Digester, s: State, env: Environment)
    requires s.index < t.PieceCount()
    ensures var log := Settle(t, sha1, s, env).state.log;
            s.log <= log && WireAll(log[|s.log|..]) == []
  {
    hide Write;
    var log := Settle(t, sha1, s, env).state.log;
    if log == s.log {
      assert log[|s.log|..] == [];
    } else {
      OneSilentAction(s.log, log[|s.log|]);
    }
  }

  lemma {:induction false} OneSilentAction(log: seq<Action>, a: Action)
    ensures !a.InterestedSent? && !a.RequestSent? ==> WireAll((log + [a])[|log|..]) == []
  {
    assert (log + [a])[|log|..] == [] + [a];
    WireAllAppend([], a);
    NothingOnTheWire();
  }

  // ----- log and line -----

  // One direction of a connection: the bytes sent so far, and what becomes of the next send calls.
  datatype Line = Line(sent: Bytes, departures: seq<Tick>)

  ghost function LineOf(socket: Socket): Line
    reads socket
  {
    Line(socket.outgoing, socket.departures)
  }

  /**
   What was sent between two moments: what the actions logged since say, and then at
   most the beginning of a message cut off, in which case a send call was due to fail.
   */
  ghost predicate Wired(from: Line, to: Line, log0: seq<Action>, log: seq<Action>, tail: Bytes, ok: bool) {
    && log0 <= log && IsCut(tail) && (ok ==> tail == [])
    && to.sent == from.sent + WireAll(log[|log0|..]) + tail
    && Sending(from.departures, to.departures, |to.sent| - |from.sent|, ok)
  }

  lemma {:induction false} WiredSilently(line: Line, log0: seq<Action>, log: seq<Action>)
    requires log0 <= log && WireAll(log[|log0|..]) == []
    ensures Wired(line, line, log0, log, [], true)
  {
    NothingIsCut();
    SendingNothing(line.departures);
    assert line.sent + [] + [] == line.sent;
  }

  lemma {:induction false} NoTail(from: Line, to: Line, log0: seq<Action>, log: seq<Action>, tail: Bytes)
    requires Wired(from, to, log0, log, tail, true)
    ensures tail == [] && log0 <= log
  {
  }

  lemma {:induction false} WiredNothing(line: Line, log: seq<Action>)
    ensures Wired(line, line, log, log, [], true)
  {
    NothingOnTheWire();
    assert log[|log|..] == [];
    WiredSilently(line, log, log);
  }

  lemma {:induction false} WiredMessage(from: Line, to: Line, log: seq<Action>, a: Action, m: Message,
      ok: bool, tail: Bytes)
    requires SentOrCut(m, from.sent, to.sent, ok, tail) && Wire(a) == Encode(m)
    requires Sending(from.departures, to.departures, |to.sent| - |from.sent|, ok)
    ensures Wired(from, to, log, if ok then log + [a] else log, tail, ok)
  {
    hide Wire, Encode, IsCut, Sending;
    if ok {
      assert (log + [a])[|log|..] == [] + [a];
      WireAllAppend([], a);
      NothingOnTheWire();
      assert from.sent + ([] + Encode(m)) + [] == from.sent + Encode(m);
    } else {
      assert log[|log|..] == [];
      assert from.sent + [] + tail == from.sent + tail;
    }
  }

  lemma {:induction false} WiredInParts(first: Line, second: Line, third: Line,
      log0: seq<Action>, log1: seq<Action>, log2: seq<Action>, tail: Bytes, ok: bool)
    requires Wired(first, second, log0, log1, [], true) && Wired(second, third, log1, log2, tail, ok)
    ensures Wired(first, third, log0, log2, tail, ok)
  {
    hide WireAll, IsCut, Sending;
    var part1, part2 := WireAll(log1[|log0|..]), WireAll(log2[|log1|..]);
    WireInParts(log0, log1, log2);
    assert first.sent + part1 + [] + part2 + tail == first.sent + (part1 + part2) + tail;
    SendingMore(first.departures, second.departures, third.departures,
                |second.sent| - |first.sent|, |third.sent| - |second.sent|, ok);
  }

  lemma {:induction false} WireInParts(log0: seq<Action>, log1: seq<Action>, log2: seq<Action>)
    requires log0 <= log1 <= log2
    ensures WireAll(log2[|log0|..]) == WireAll(log1[|log0|..]) + WireAll(log2[|log1|..])
  {
    hide WireAll;
    assert log2[|log0|..] == log1[|log0|..] + log2[|log1|..];
    WireAllConcat(log1[|log0|..], log2[|log1|..]);
  }

  // ----- how much there is to send -----

  const INTERESTED_MESSAGE_LENGTH: nat := 5

  /** The bytes still to be sent: interest, if not yet told, and a request for each missing block not yet asked for. */
  ghost function Budget(t: Torrent, s: State): int
    requires s.connection.Some?
  {
    (if s.connection.value.interested then 0 else INTERESTED_MESSAGE_LENGTH)
    + REQUEST_MESSAGE_LENGTH * (Remaining(t, s) - if s.pending then 1 else 0)
  }

  lemma {:induction false} OurLengths(index: nat, begin: nat, length: nat)
    requires index <= UINT32_MAX && begin <= UINT32_MAX && length <= UINT32_MAX
    ensures |Encode(INTERESTED_MESSAGE)| == INTERESTED_MESSAGE_LENGTH
    ensures |Encode(RequestMessage(index, begin, length))| == REQUEST_MESSAGE_LENGTH
  {
    hide BigEndian;
  }

  /** What is asked for is paid from the budget; when a send fails there is at least one message left in it. */
  lemma {:induction false} AdvancePays(t: Torrent, sha1: Digester, content: Bytes, s: State, env: Environment)
    requires OnTrack(t, sha1, content, s)
    ensures var step := Advance(t, s, env);
            && s.log <= step.state.log && step.state.connection.Some?
            && |WireAll(step.state.log[|s.log|..])| == Budget(t, s) - Budget(t, step.state)
            && (!step.active ==> Budget(t, step.state) >= REQUEST_MESSAGE_LENGTH)
            && (step.active ==> step == Advance(t, s, FINE))
  {
    hide IsContent, Inv, WireAll, Encode, RequestMessage, Wire, Remaining, BlocksIn;
    assert t.PieceSize(s.index) <= UINT32_MAX + 1;
    OnTrackNow(t, sha1, content, s);
    PendingKnows(t, sha1, content, s);
    var length := RequestLength(t, s.index, |s.received|);
    var request := RequestSent(s.index, |s.received|, length);
    OurLengths(s.index, |s.received|, length);
    WireOfInterest();
    WireOfRequest(s.index, |s.received|, length);
    NothingOnTheWire();
    assert s.log[|s.log|..] == [];
    WireOfOne(s.log, InterestedSent);
    WireOfOne(s.log, request);
    WireOfOne(s.log + [InterestedSent], request);
    WireInParts(s.log, s.log + [InterestedSent], s.log + [InterestedSent] + [request]);
    SameRemaining(t, s);
  }

  lemma {:induction false} PendingKnows(t: Torrent, sha1: Digester, content: Bytes, s: State)
    requires OnTrack(t, sha1, content, s)
    ensures s.pending ==> s.connection.value.advertised.Some? && s.connection.value.interested
  {
    hide IsContent, Verified;
  }

  lemma {:induction false} WireOfOne(log: seq<Action>, a: Action)
    ensures WireAll((log + [a])[|log|..]) == Wire(a)
  {
    assert (log + [a])[|log|..] == [] + [a];
    WireAllAppend([], a);
    NothingOnTheWire();
    assert [] + Wire(a) == Wire(a);
  }

  lemma {:induction false} SameRemaining(t: Torrent, s: State)
    ensures forall c, p, log :: Remaining(t, s.(connection := c, pending := p, log := log)) == Remaining(t, s)
  {
  }

  /** Up to where something is sent, taking in news or a block and storing a whole piece leave the budget unchanged. */
  lemma {:induction false} PhasesPayNothing(t: Torrent, sha1: Digester, content: Bytes, s: State, m: Message)
    requires OnTrack(t, sha1, content, s) && IsMessage(m) && m.Message? && Honest(t, content, s, m)
    ensures var taken := Intake(t, s, m, FINE);
            && taken.active && taken.state.connection.Some? && taken.state.index == s.index < t.PieceCount()
            && Budget(t, taken.state) == Budget(t, s)
            && var settled := Settle(t, sha1, taken.state, FINE);
               && settled.state.connection.Some? && Budget(t, settled.state) == Budget(t, s)
               && (settled.active ==> Underway(t, sha1, content, settled.state))
  {
    hide IsContent, Inv, AdvertisedBy, Value32, FitsWire, Write, BlocksIn, RequestLength, Settle, Remaining, Intake;
    OnTrackNow(t, sha1, content, s);
    IntakeKeeps(t, sha1, s, m, FINE);
    var taken := Intake(t, s, m, FINE).state;
    SettleKeeps(t, sha1, taken, FINE);
    if IsPiece(m) {
      BlockTaken(t, sha1, content, s, m);
      BlockPaid(t, sha1, content, s, m);
      SettleFine(t, sha1, content, taken);
      SettledUnderway(t, sha1, content, taken);
      SettlePaysNothing(t, sha1, content, taken);
    } else {
      NewsTaken(t, sha1, content, s, m);
      SettleFine(t, sha1, content, taken);
    }
  }

  lemma {:induction false} NewsTaken(t: Torrent, sha1: Digester, content: Bytes, s: State, m: Message)
    requires OnTrack(t, sha1, content, s) && IsMessage(m) && m.Message? && !IsPiece(m) && Honest(t, content, s, m)
    ensures var taken := Intake(t, s, m, FINE);
            && taken.active && Underway(t, sha1, content, taken.state) && taken.state.index == s.index
            && |taken.state.received| < t.PieceSize(s.index)
            && Budget(t, taken.state) == Budget(t, s)
  {
    hide IsContent, Inv, AdvertisedBy, Value32, FitsWire, BlocksIn;
    IntakeKeeps(t, sha1, s, m, FINE);
  }

  lemma {:induction false} BlockPaid(t: Torrent, sha1: Digester, content: Bytes, s: State, m: Message)
    requires OnTrack(t, sha1, content, s) && IsMessage(m) && IsPiece(m) && Answers(t, content, s, m.payload)
    ensures var taken := Intake(t, s, m, FINE).state;
            taken.connection.Some? && Budget(t, taken) == Budget(t, s)
  {
    hide IsContent, Inv, FitsWire, BlocksIn, RequestLength, Intake, BlocksFrom;
    OneBlockLess(t, s.index, |s.received|);
    BlockTaken(t, sha1, content, s, m);
    PendingNow(t, content, s, m);
  }

  lemma {:induction false} PendingNow(t: Torrent, content: Bytes, s: State, m: Message)
    requires IsMessage(m) && IsPiece(m) && Answers(t, content, s, m.payload)
    ensures s.pending
  {
  }

  lemma {:induction false} SettlePaysNothing(t: Torrent, sha1: Digester, content: Bytes, s: State)
    requires t.Consistent() && IsContent(t, sha1, content) && s.connection.Some? && !s.pending
    requires s.index < t.PieceCount() && |s.received| <= t.PieceSize(s.index)
    requires t.Boundary(s.index) + |s.received| <= t.length
    requires s.received == content[t.Boundary(s.index)..t.Boundary(s.index) + |s.received|]
    ensures var settled := Settle(t, sha1, s, FINE).state;
            settled.connection.Some? && Budget(t, settled) == Budget(t, s)
  {
    hide IsContent, Settle, BlocksIn;
    SettleFine(t, sha1, content, s);
    NothingMissing();
    if s.index + 1 < t.PieceCount() {
      MoreToCome(t, s.index + 1);
    }
    var settled := Settle(t, sha1, s, FINE).state;
    if Complete(t, settled) {
      NoneBeyondTheEnd(t, settled);
    }
  }

  lemma {:induction false} SettledUnderway(t: Torrent, sha1: Digester, content: Bytes, s: State)
    requires t.Consistent() && FitsWire(t) && IsContent(t, sha1, content) && Inv(t, sha1, s)
    requires s.index < t.PieceCount() && s.connection.Some?
    requires |s.received| <= t.PieceSize(s.index) && t.Boundary(s.index) + |s.received| <= t.length
    requires s.received == content[t.Boundary(s.index)..t.Boundary(s.index) + |s.received|]
    requires |s.received| < t.PieceSize(s.index) ==> |s.received| % BLOCK_SIZE == 0
    ensures var step := Settle(t, sha1, s, FINE);
            && (step.active ==> Underway(t, sha1, content, step.state))
  {
    hide IsContent, Inv, FitsWire, Settle;
    SettleKeeps(t, sha1, s, FINE);
    SettleFine(t, sha1, content, s);
    var step := Settle(t, sha1, s, FINE);
    if step.active && step.state.index != s.index {
      t.Sizes(step.state.index);
      ContentLength(t, sha1, content);
      assert content[t.Boundary(step.state.index)..t.Boundary(step.state.index)] == [];
    }
  }

  lemma {:induction false} StepIn(t: Torrent, sha1: Digester, s: State, m: Message, env: Environment)
    requires s.connection.Some? && IsMessage(m) && m.Message? && s.index < t.PieceCount()
    requires var taken := Intake(t, s, m, env);
             taken.active && taken.state.connection.Some? && taken.state.index < t.PieceCount()
    requires var settled := Settle(t, sha1, Intake(t, s, m, env).state, env);
             settled.active ==> settled.state.connection.Some?
    ensures var settled := Settle(t, sha1, Intake(t, s, m, env).state, env);
            Handle(t, sha1, s, m, env) == if settled.active then Advance(t, settled.state, env) else settled
  {
    hide Intake, Settle, Advance;
  }

  /**
   One message of an honest peer: what is sent is paid from the budget. With sends that
   may fail, the step is the same, or a message that the budget provides for was cut off.
   */
  lemma {:induction false} StepPays(t: Torrent, sha1: Digester, content: Bytes, s: State, m: Message, env: Environment)
    requires OnTrack(t, sha1, content, s) && IsMessage(m) && Honest(t, content, s, m)
    requires env.bitfieldAllocated && env.seekOk && env.write.Granted?
    ensures var step, fine := Handle(t, sha1, s, m, env), Handle(t, sha1, s, m, FINE);
            && s.log <= step.state.log && s.log <= fine.state.log && fine.state.connection.Some?
            && |WireAll(fine.state.log[|s.log|..])| == Budget(t, s) - Budget(t, fine.state)
            && (step == fine
                || |WireAll(step.state.log[|s.log|..])| + REQUEST_MESSAGE_LENGTH <= Budget(t, s))
  {
    hide Handle, Intake, Settle, Advance, OnTrack, Budget, WireAll, Honest, MayHaveCurrent;
    OnTrackNow(t, sha1, content, s);
    if m.KeepAlive? {
      KeepAliveStep(t, sha1, s, m, env);
      return;
    }
    var taken := Intake(t, s, m, FINE).state;
    PhasesPayNothing(t, sha1, content, s, m);
    var settled := Settle(t, sha1, taken, FINE);
    PhasesReadTheirOwn(t, sha1, s, m, env, FINE);
    PhasesReadTheirOwn(t, sha1, taken, m, env, FINE);
    StepIn(t, sha1, s, m, env);
    StepIn(t, sha1, s, m, FINE);
    IntakeIsSilent(t, s, m, FINE);
    SettleIsSilent(t, sha1, taken, FINE);
    WireInParts(s.log, taken.log, settled.state.log);
    if settled.active {
      NothingOnTheWire();
      if MayHaveCurrent(settled.state) {
        AssembleOnTrack(t, sha1, content, settled.state);
        AdvancePays(t, sha1, content, settled.state, env);
        AdvancePays(t, sha1, content, settled.state, FINE);
        WireInParts(s.log, settled.state.log, Advance(t, settled.state, env).state.log);
        WireInParts(s.log, settled.state.log, Advance(t, settled.state, FINE).state.log);
      } else {
        NotCurrent(t, settled.state, env);
        NotCurrent(t, settled.state, FINE);
      }
    }
  }

  lemma {:induction false} AssembleOnTrack(t: Torrent, sha1: Digester, content: Bytes, s: State)
    requires Underway(t, sha1, content, s) && MayHaveCurrent(s)
    ensures OnTrack(t, sha1, content, s)
  {
    hide Underway;
  }

  lemma {:induction false} KeepAliveStep(t: Torrent, sha1: Digester, s: State, m: Message, env: Environment)
    requires s.connection.Some? && m.KeepAlive? && s.index < t.PieceCount()
    ensures Handle(t, sha1, s, m, env) == Step(s, true) == Handle(t, sha1, s, m, FINE)
    ensures |WireAll(s.log[|s.log|..])| == 0
  {
    NothingOnTheWire();
    assert s.log[|s.log|..] == [];
  }
}
