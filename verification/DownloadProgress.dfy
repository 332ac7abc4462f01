/**
 When a download can finish. A peer that cooperates, however it orders and mixes its
 messages, completes it with exactly one PIECE message per missing block; news
 keeps a connection exactly when the current piece is among what it announces; and
 a torrent that does not fit the 32-bit fields of a request can never be completed
 by any peers at all.
 */
module DownloadProgress {
  import opened ByteStrings
  import opened WireFraming
  import opened PieceBitfield
  import opened DownloadProtocol
  import opened DownloadSafety

  /** Piece numbers and block offsets fit the fields of a REQUEST. */
  ghost predicate FitsWire(t: Torrent) {
    && t.PieceCount() <= UINT32_MAX + 1
    && forall j | 0 <= j < t.PieceCount() :: t.PieceSize(j) <= UINT32_MAX + 1
  }

  // ----- news -----

  ghost predicate IsPiece(m: Message) {
    m.Message? && m.id == PIECE
  }

  ghost predicate IsNews(m: Message) {
    m.Message? && (m.id == HAVE || m.id == BITFIELD)
  }

  /** What a peer is known to have after its news, or None if the news is not acceptable. */
  ghost function Announced(t: Torrent, c: Connection, m: Message): Option<set<nat>>
    requires IsMessage(m) && IsNews(m)
  {
    if m.id == BITFIELD then
      if c.advertised.Some? then None else AdvertisedBy(m.payload, t.PieceCount())
    else if Value32(m.payload) >= t.PieceCount() then None
    else Some((if c.advertised.Some? then c.advertised.value else {}) + {Value32(m.payload)})
  }

  /** Acceptable news after which the peer is known to have the current piece. */
  ghost predicate HasCurrent(t: Torrent, s: State, m: Message)
    requires IsMessage(m) && IsNews(m) && s.connection.Some?
  {
    var known := Announced(t, s.connection.value, m);
    known.Some? && s.index in known.value
  }

  /**
   News keeps the connection exactly when the current piece is in the set then
   advertised. In particular a peer whose first HAVE names another piece is
   dropped, whatever it would have announced next.
   */
  lemma {:induction false} NewsKeepsConnectionExactly(t: Torrent, sha1: Digester, s: State, m: Message,
      env: Environment)
    requires FitsWire(t) && s.connection.Some? && IsMessage(m) && IsNews(m)
    requires s.index < t.PieceCount() && |s.received| < t.PieceSize(s.index)
    ensures Handle(t, sha1, s, m, env).active ==> HasCurrent(t, s, m)
    ensures Handle(t, sha1, s, m, FINE).active <==> HasCurrent(t, s, m)
  {
    hide AdvertisedBy, Value32, Write, RequestLength;
    assert t.PieceSize(s.index) <= UINT32_MAX + 1;
  }

  ghost function HaveMessage(piece: nat): (m: Message)
    requires piece <= UINT32_MAX
    ensures IsMessage(m) && IsNews(m)
  {
    Message(HAVE, BigEndian(piece))
  }

  /** More log, without a request in what was added. */
  ghost predicate NoRequestSince(s: State, s': State) {
    s.log <= s'.log && forall k | |s.log| <= k < |s'.log| :: !s'.log[k].RequestSent?
  }

  /** A peer that announces its pieces from 0 upward is of no use once the first piece is there. */
  lemma {:induction false} AscendingAnnouncerIsDropped(t: Torrent, sha1: Digester, s: State, ds: seq<Delivery>)
    requires t.Consistent() && FitsWire(t) && Inv(t, sha1, s) && s.connection.None?
    requires 0 < s.index < t.PieceCount()
    requires AreMessages(ds) && ds != [] && ds[0].message == HaveMessage(0)
    ensures !Handle(t, sha1, Open(s), ds[0].message, ds[0].env).active
    ensures var s' := Serve(t, sha1, Open(s), ds);
            s'.index == s.index && s'.file == s.file && s'.received == s.received && NoRequestSince(s, s')
  {
    hide AdvertisedBy, Value32, Write, RequestLength, Verified;
    t.Sizes(s.index);
    BigEndianValue(0);
    assert {} + {0} == {0};
    NewsKeepsConnectionExactly(t, sha1, Open(s), HaveMessage(0), ds[0].env);
  }

  // ----- the blocks still missing -----

  function BlocksIn(size: int): nat {
    if size <= 0 then 0 else (size + BLOCK_SIZE - 1) / BLOCK_SIZE
  }

  /** The blocks of all pieces from piece j on. */
  ghost function BlocksFrom(t: Torrent, j: nat): nat
    decreases t.PieceCount() - j
  {
    if j >= t.PieceCount() then 0 else BlocksIn(t.PieceSize(j)) + BlocksFrom(t, j + 1)
  }

  /** The blocks missing in the current piece and in those after it. */
  ghost function Remaining(t: Torrent, s: State): nat {
    BlocksIn(t.PieceSize(s.index) - |s.received|) + BlocksFrom(t, s.index + 1)
  }

  lemma {:induction false} NoneBeyondTheEnd(t: Torrent, s: State)
    requires Complete(t, s)
    ensures Remaining(t, s) == 0
  {
  }

  /** The block asked for is the next of the missing ones. */
  lemma {:induction false} OneBlockLess(t: Torrent, index: nat, received: nat)
    requires index < t.PieceCount() && received < t.PieceSize(index)
    ensures BlocksIn(t.PieceSize(index) - received)
            == 1 + BlocksIn(t.PieceSize(index) - (received + RequestLength(t, index, received)))
    ensures received + RequestLength(t, index, received) <= t.PieceSize(index)
  {
  }

  lemma {:induction false} MoreToCome(t: Torrent, j: nat)
    requires t.Consistent() && j < t.PieceCount()
    ensures BlocksFrom(t, j) == BlocksIn(t.PieceSize(j)) + BlocksFrom(t, j + 1) && BlocksIn(t.PieceSize(j)) > 0
  {
    t.Sizes(j);
  }

  // ----- a cooperative peer -----

  /** Connected, in the middle of a piece, with what has arrived so far taken from the content. */
  ghost predicate Underway(t: Torrent, sha1: Digester, content: Bytes, s: State) {
    && t.Consistent() && FitsWire(t) && IsContent(t, sha1, content) && Inv(t, sha1, s)
    && s.index < t.PieceCount() && |s.received| < t.PieceSize(s.index) && |s.received| % BLOCK_SIZE == 0
    && t.Boundary(s.index) + |s.received| <= t.length
    && s.received == content[t.Boundary(s.index)..t.Boundary(s.index) + |s.received|]
    && s.connection.Some?
  }

  /** The peer has the current piece, or has not said yet what it has. */
  ghost predicate MayHaveCurrent(s: State)
    requires s.connection.Some?
  {
    s.connection.value.advertised.Some? ==> s.index in s.connection.value.advertised.value
  }

  ghost predicate OnTrack(t: Torrent, sha1: Digester, content: Bytes, s: State) {
    Underway(t, sha1, content, s) && MayHaveCurrent(s)
  }

  /** At a new connection the download is always on track. */
  lemma {:induction false} NewConnectionOnTrack(t: Torrent, sha1: Digester, content: Bytes, s: State)
    requires t.Consistent() && FitsWire(t) && IsContent(t, sha1, content)
    requires Inv(t, sha1, s) && s.connection.None? && !Complete(t, s)
    ensures OnTrack(t, sha1, content, Open(s))
  {
    hide Verified;
    t.Sizes(s.index);
    OpenCloseKeep(t, sha1, s);
    assert content[t.Boundary(s.index)..t.Boundary(s.index)] == [];
  }

  /** The payload answers the pending request with the content's bytes. */
  ghost predicate Answers(t: Torrent, content: Bytes, s: State, payload: Bytes)
    requires |payload| >= 8
  {
    var from, length := t.Boundary(s.index) + |s.received|, RequestLength(t, s.index, |s.received|);
    && s.pending
    && Value32(payload[..4]) == s.index && Value32(payload[4..8]) == |s.received|
    && 0 <= from <= from + length <= |content| && payload[8..] == content[from..from + length]
  }

  /** The block asked for is the last of its piece, and another piece follows. */
  ghost predicate Finishes(t: Torrent, s: State) {
    |s.received| + RequestLength(t, s.index, |s.received|) == t.PieceSize(s.index) && s.index + 1 < t.PieceCount()
  }

  /** A message of an honest peer: no HAVE or BITFIELD that is refused, PIECE only in answer to a request. */
  ghost predicate Honest(t: Torrent, content: Bytes, s: State, m: Message)
    requires IsMessage(m) && s.connection.Some?
  {
    && (IsNews(m) ==> Announced(t, s.connection.value, m).Some?)
    && (IsPiece(m) ==> Answers(t, content, s, m.payload))
  }

  /** A message of a cooperative peer: honest, and the peer is known to have the piece that is then current. */
  ghost predicate Helpful(t: Torrent, content: Bytes, s: State, m: Message)
    requires IsMessage(m) && s.connection.Some?
  {
    && Honest(t, content, s, m)
    && (IsNews(m) ==> HasCurrent(t, s, m))
    && (IsPiece(m) && Finishes(t, s) ==>
          s.connection.value.advertised.Some? && s.index + 1 in s.connection.value.advertised.value)
  }

  /** Every message until the connection ends is honest when it arrives, and nothing goes wrong on our side. */
  ghost predicate Obliges(t: Torrent, sha1: Digester, content: Bytes, s: State, ds: seq<Delivery>)
    requires AreMessages(ds)
    decreases |ds|
  {
    ds == [] || Complete(t, s) ||
    (&& s.connection.Some? && ds[0].env == FINE && Honest(t, content, s, ds[0].message)
     && var step := Handle(t, sha1, s, ds[0].message, FINE);
        step.active ==> Obliges(t, sha1, content, step.state, ds[1..]))
  }

  /** Until the download is complete every message is helpful when it arrives, and nothing goes wrong on our side. */
  ghost predicate Cooperates(t: Torrent, sha1: Digester, content: Bytes, s: State, ds: seq<Delivery>)
    requires AreMessages(ds)
    decreases |ds|
  {
    ds == [] || Complete(t, s) ||
    (&& s.connection.Some? && ds[0].env == FINE && Helpful(t, content, s, ds[0].message)
     && Cooperates(t, sha1, content, Handle(t, sha1, s, ds[0].message, FINE).state, ds[1..]))
  }

  ghost function PiecesIn(ds: seq<Delivery>): nat {
    if ds == [] then 0 else (if IsPiece(ds[0].message) then 1 else 0) + PiecesIn(ds[1..])
  }

  /** On track, and knowing what the peer has, the machine asks for a block as soon as it may. */
  lemma {:induction false} AdvanceOnTrack(t: Torrent, sha1: Digester, content: Bytes, s: State)
    requires OnTrack(t, sha1, content, s)
    ensures var step := Advance(t, s, FINE);
            && step.active && OnTrack(t, sha1, content, step.state)
            && step.state.index == s.index && step.state.received == s.received
            && step.state.connection.value.advertised == s.connection.value.advertised
            && (step.state.pending <==>
                  s.pending || (s.connection.value.advertised.Some? && !s.connection.value.choking))
  {
    hide IsContent, Inv;
    AdvanceKeeps(t, sha1, s, FINE);
    assert t.PieceSize(s.index) <= UINT32_MAX + 1;
  }

  /** A message that is not a block: the machine goes on, and asks for a block if it may, or drops the peer. */
  lemma {:induction false} NewsStep(t: Torrent, sha1: Digester, content: Bytes, s: State, m: Message)
    requires OnTrack(t, sha1, content, s) && IsMessage(m) && Honest(t, content, s, m) && !IsPiece(m)
    ensures var step := Handle(t, sha1, s, m, FINE);
            && Underway(t, sha1, content, step.state) && (step.active <==> MayHaveCurrent(step.state))
            && step.state.index == s.index && step.state.received == s.received
            && (s.pending ==> step.state.pending)
            && step.state.connection.value.advertised
               == (if IsNews(m) then Announced(t, s.connection.value, m) else s.connection.value.advertised)
            && (m.Message? && m.id == UNCHOKE && s.connection.value.advertised.Some? ==> step.state.pending)
  {
    hide IsContent, Inv, AdvertisedBy, Value32, Advance, FitsWire, Write;
    if m.Message? {
      IntakeKeeps(t, sha1, s, m, FINE);
      var taken := Intake(t, s, m, FINE);
      if MayHaveCurrent(taken.state) {
        AdvanceOnTrack(t, sha1, content, taken.state);
      } else {
        NotCurrent(t, taken.state, FINE);
      }
    }
  }

  lemma {:induction false} NotCurrent(t: Torrent, s: State, env: Environment)
    requires s.connection.Some? && !MayHaveCurrent(s)
    ensures Advance(t, s, env) == Step(s, false)
  {
  }

  /** The block asked for is taken in. */
  lemma {:induction false} BlockTaken(t: Torrent, sha1: Digester, content: Bytes, s: State, m: Message)
    requires OnTrack(t, sha1, content, s) && IsMessage(m) && IsPiece(m) && Answers(t, content, s, m.payload)
    ensures var step, length := Intake(t, s, m, FINE), RequestLength(t, s.index, |s.received|);
            var end := |s.received| + length;
            && step.active && !step.state.pending
            && step.state.index == s.index && step.state.connection == s.connection
            && |step.state.received| == end <= t.PieceSize(s.index)
            && t.Boundary(s.index) + end <= t.length
            && step.state.received == content[t.Boundary(s.index)..t.Boundary(s.index) + end]
            && (end < t.PieceSize(s.index) ==> end % BLOCK_SIZE == 0)
  {
    hide IsContent, Inv, Value32, FitsWire;
    t.Sizes(s.index);
    assert |content| == t.length by {
      ContentLength(t, sha1, content);
    }
  }

  lemma {:induction false} ContentLength(t: Torrent, sha1: Digester, content: Bytes)
    requires IsContent(t, sha1, content)
    ensures |content| == t.length
  {
  }

  /** With working writes a piece of the content is stored as soon as it is whole. */
  lemma {:induction false} SettleFine(t: Torrent, sha1: Digester, content: Bytes, s: State)
    requires t.Consistent() && IsContent(t, sha1, content)
    requires s.index < t.PieceCount() && |s.received| <= t.PieceSize(s.index)
    requires t.Boundary(s.index) + |s.received| <= t.length
    requires s.received == content[t.Boundary(s.index)..t.Boundary(s.index) + |s.received|]
    ensures var step := Settle(t, sha1, s, FINE);
            if |s.received| < t.PieceSize(s.index) then step == Step(s, true)
            else
              && step.state.index == s.index + 1 && step.state.received == [] && !step.state.pending
              && step.state.connection == s.connection
              && step.active == (s.index + 1 < t.PieceCount())
  {
    hide Write;
    t.Sizes(s.index);
    assert PieceVerified(t, sha1, content, s.index);
  }

  /** One block: the machine goes on to the next one, or has stored the last piece. */
  lemma {:induction false} BlockStep(t: Torrent, sha1: Digester, content: Bytes, s: State, m: Message)
    requires OnTrack(t, sha1, content, s) && IsMessage(m) && IsPiece(m) && Answers(t, content, s, m.payload)
    ensures var step := Handle(t, sha1, s, m, FINE);
            var end := |s.received| + RequestLength(t, s.index, |s.received|);
            && step.state.connection.Some?
            && step.state.connection.value.advertised == s.connection.value.advertised
            && if end < t.PieceSize(s.index) then
                 step.active && OnTrack(t, sha1, content, step.state)
                 && step.state.index == s.index && |step.state.received| == end
               else if s.index + 1 < t.PieceCount() then
                 Underway(t, sha1, content, step.state) && (step.active <==> MayHaveCurrent(step.state))
                 && step.state.index == s.index + 1 && step.state.received == []
               else !step.active && step.state.index == t.PieceCount() && step.state.received == []
  {
    hide Intake, Settle, Advance, Inv, IsContent, FitsWire, Write, RequestLength, Value32;
    BlockTaken(t, sha1, content, s, m);
    IntakeKeeps(t, sha1, s, m, FINE);
    var taken := Intake(t, s, m, FINE).state;
    SettleKeeps(t, sha1, taken, FINE);
    SettleFine(t, sha1, content, taken);
    var settled := Settle(t, sha1, taken, FINE);
    if settled.active {
      t.Sizes(settled.state.index);
      assert content[t.Boundary(settled.state.index)..t.Boundary(settled.state.index)] == [];
      if MayHaveCurrent(settled.state) {
        AdvanceOnTrack(t, sha1, content, settled.state);
      } else {
        NotCurrent(t, settled.state, FINE);
      }
    }
  }

  lemma {:induction false} BlockLeavesOneLess(t: Torrent, sha1: Digester, content: Bytes, s: State, m: Message)
    requires OnTrack(t, sha1, content, s) && IsMessage(m) && Honest(t, content, s, m) && IsPiece(m)
    ensures var step := Handle(t, sha1, s, m, FINE);
            && Remaining(t, step.state) == Remaining(t, s) - 1
            && step.state.connection.Some?
            && step.state.connection.value.advertised == s.connection.value.advertised
            && (step.state.index == s.index
                || (step.state.index == s.index + 1 && step.state.received == [] && s.pending))
            && (if Complete(t, step.state) then !step.active && Remaining(t, step.state) == 0
                else Underway(t, sha1, content, step.state) && (step.active <==> MayHaveCurrent(step.state)))
  {
    hide Handle, Inv, IsContent, FitsWire, Value32, BlocksIn, RequestLength;
    OneBlockLess(t, s.index, |s.received|);
    BlockStep(t, sha1, content, s, m);
    NothingMissing();
    var s' := Handle(t, sha1, s, m, FINE).state;
    if Complete(t, s') {
      NoneBeyondTheEnd(t, s');
    } else if s'.index != s.index {
      MoreToCome(t, s'.index);
    }
  }

  lemma {:induction false} NewsLeavesAll(t: Torrent, sha1: Digester, content: Bytes, s: State, m: Message)
    requires OnTrack(t, sha1, content, s) && IsMessage(m) && Honest(t, content, s, m) && !IsPiece(m)
    ensures var step := Handle(t, sha1, s, m, FINE);
            && Remaining(t, step.state) == Remaining(t, s)
            && step.state.connection.Some?
            && step.state.connection.value.advertised
               == (if IsNews(m) then Announced(t, s.connection.value, m) else s.connection.value.advertised)
            && step.state.index == s.index && !Complete(t, step.state)
            && Underway(t, sha1, content, step.state) && (step.active <==> MayHaveCurrent(step.state))
  {
    hide Handle, Inv, IsContent, FitsWire, Value32, BlocksIn, RequestLength, Announced;
    NewsStep(t, sha1, content, s, m);
  }

  /**
   One message of an honest peer. A block leaves exactly one block less to come; the
   connection ends when the download is complete or the piece now current is not
   among those the peer has announced, and otherwise goes on.
   */
  lemma {:induction false} HonestStep(t: Torrent, sha1: Digester, content: Bytes, s: State, m: Message)
    requires OnTrack(t, sha1, content, s) && IsMessage(m) && Honest(t, content, s, m)
    ensures var step := Handle(t, sha1, s, m, FINE);
            && Remaining(t, step.state) == Remaining(t, s) - (if IsPiece(m) then 1 else 0)
            && step.state.connection.Some?
            && step.state.connection.value.advertised
               == (if IsNews(m) then Announced(t, s.connection.value, m) else s.connection.value.advertised)
            && (step.state.index == s.index
                || (step.state.index == s.index + 1 && step.state.received == [] && s.pending))
            && (if Complete(t, step.state) then !step.active && Remaining(t, step.state) == 0
                else Underway(t, sha1, content, step.state) && (step.active <==> MayHaveCurrent(step.state)))
  {
    hide Handle, Underway, MayHaveCurrent, Honest, Remaining, Announced, Complete;
    if IsPiece(m) {
      BlockLeavesOneLess(t, sha1, content, s, m);
    } else {
      NewsLeavesAll(t, sha1, content, s, m);
    }
  }

  /** Each helpful message keeps the download on track until it is complete. */
  lemma {:induction false} CooperativeStep(t: Torrent, sha1: Digester, content: Bytes, s: State, m: Message)
    requires OnTrack(t, sha1, content, s) && IsMessage(m) && Helpful(t, content, s, m)
    ensures var step := Handle(t, sha1, s, m, FINE);
            && Remaining(t, step.state) == Remaining(t, s) - (if IsPiece(m) then 1 else 0)
            && (if Remaining(t, step.state) == 0 then !step.active && Complete(t, step.state)
                else step.active && OnTrack(t, sha1, content, step.state))
  {
    hide Handle, Underway, Honest, Remaining, RequestLength, Announced;
    OnTrackNow(t, sha1, content, s);
    HonestStep(t, sha1, content, s, m);
    var step := Handle(t, sha1, s, m, FINE);
    if !Complete(t, step.state) {
      StillMissing(t, sha1, content, step.state);
      StaysCurrent(t, sha1, content, s, m);
    }
  }

  lemma {:induction false} StaysCurrent(t: Torrent, sha1: Digester, content: Bytes, s: State, m: Message)
    requires OnTrack(t, sha1, content, s) && IsMessage(m) && Helpful(t, content, s, m)
    requires !Complete(t, Handle(t, sha1, s, m, FINE).state)
    ensures var s' := Handle(t, sha1, s, m, FINE).state;
            s'.connection.Some? && MayHaveCurrent(s')
  {
    hide Handle, Inv, IsContent, FitsWire, Value32, RequestLength, Answers;
    OneBlockLess(t, s.index, |s.received|);
    if IsPiece(m) {
      BlockStep(t, sha1, content, s, m);
    } else {
      NewsStep(t, sha1, content, s, m);
    }
  }

  lemma {:induction false} NothingMissing()
    ensures BlocksIn(0) == 0
  {
  }

  /**
   Progress: from any point on track, at any piece, a cooperative peer completes the
   download with exactly one PIECE message for each missing block, however these are
   mixed with other messages; with fewer the connection is still up and on track.
   */
  lemma {:induction false} CooperativePeerCompletes(t: Torrent, sha1: Digester, content: Bytes, s: State,
      ds: seq<Delivery>)
    requires OnTrack(t, sha1, content, s) && AreMessages(ds) && Cooperates(t, sha1, content, s, ds)
    ensures var s' := Serve(t, sha1, s, ds);
            && (Complete(t, s') <==> PiecesIn(ds) >= Remaining(t, s))
            && (!Complete(t, s') ==>
                  OnTrack(t, sha1, content, s') && Remaining(t, s') == Remaining(t, s) - PiecesIn(ds))
    decreases |ds|
  {
    hide Handle, OnTrack, Helpful, Remaining;
    OnTrackNow(t, sha1, content, s);
    if ds != [] {
      CooperativeStep(t, sha1, content, s, ds[0].message);
      var step := Handle(t, sha1, s, ds[0].message, FINE);
      if step.active {
        CooperativePeerCompletes(t, sha1, content, step.state, ds[1..]);
      }
    }
  }

  lemma {:induction false} StillMissing(t: Torrent, sha1: Digester, content: Bytes, s: State)
    requires Underway(t, sha1, content, s)
    ensures Remaining(t, s) > 0 && !Complete(t, s) && s.connection.Some?
  {
    hide IsContent, Inv, FitsWire;
  }

  lemma {:induction false} OnTrackNow(t: Torrent, sha1: Digester, content: Bytes, s: State)
    requires OnTrack(t, sha1, content, s)
    ensures Underway(t, sha1, content, s) && s.connection.Some? && MayHaveCurrent(s)
    ensures Remaining(t, s) > 0 && !Complete(t, s)
  {
    hide Underway, Remaining;
    StillMissing(t, sha1, content, s);
    UnderwayNow(t, sha1, content, s);
  }

  lemma {:induction false} UnderwayNow(t: Torrent, sha1: Digester, content: Bytes, s: State)
    requires Underway(t, sha1, content, s)
    ensures s.connection.Some?
  {
  }

  lemma {:induction false} CooperationObliges(t: Torrent, sha1: Digester, content: Bytes, s: State,
      ds: seq<Delivery>)
    requires AreMessages(ds) && Cooperates(t, sha1, content, s, ds)
    ensures Obliges(t, sha1, content, s, ds)
    decreases |ds|
  {
    hide Handle, Honest;
    if ds != [] && !Complete(t, s) {
      CooperationObliges(t, sha1, content, Handle(t, sha1, s, ds[0].message, FINE).state, ds[1..]);
    }
  }

  // ----- such peers exist -----

  ghost function PieceMessage(piece: nat, begin: nat, block: Bytes): (m: Message)
    requires piece <= UINT32_MAX && begin <= UINT32_MAX && |block| <= BLOCK_SIZE
    ensures IsMessage(m) && IsPiece(m)
  {
    Message(PIECE, BigEndian(piece) + BigEndian(begin) + block)
  }

  lemma {:induction false} PieceMessageParts(piece: nat, begin: nat, block: Bytes)
    requires piece <= UINT32_MAX && begin <= UINT32_MAX && |block| <= BLOCK_SIZE
    ensures var payload := PieceMessage(piece, begin, block).payload;
            Value32(payload[..4]) == piece && Value32(payload[4..8]) == begin && payload[8..] == block
  {
    hide Value32, BigEndian;
    BigEndianValue(piece);
    BigEndianValue(begin);
    var payload := PieceMessage(piece, begin, block).payload;
    assert payload[..4] == BigEndian(piece) && payload[4..8] == BigEndian(begin) && payload[8..] == block;
  }

  /** What the next helpful message still has to bring about before a block can be sent. */
  ghost function Obstacles(t: Torrent, s: State): nat
    requires s.connection.Some?
  {
    var known := s.connection.value.advertised;
    if known.None? then 3
    else if !s.pending then 2
    else if s.index + 1 < t.PieceCount() && s.index + 1 !in known.value then 1
    else 0
  }

  lemma {:induction false} HelpfulHave(t: Torrent, content: Bytes, s: State, piece: nat)
    requires FitsWire(t) && piece < t.PieceCount() && s.connection.Some?
    requires piece == s.index
             || (s.connection.value.advertised.Some? && s.index in s.connection.value.advertised.value)
    ensures var m := HaveMessage(piece);
            && Helpful(t, content, s, m)
            && Announced(t, s.connection.value, m).Some? && piece in Announced(t, s.connection.value, m).value
  {
    hide Value32, BigEndian, AdvertisedBy;
    BigEndianValue(piece);
  }

  lemma {:induction false} HonestBlock(t: Torrent, sha1: Digester, content: Bytes, s: State) returns (m: Message)
    requires OnTrack(t, sha1, content, s) && s.pending
    ensures IsMessage(m) && IsPiece(m) && !IsNews(m) && Honest(t, content, s, m)
    ensures Obstacles(t, s) == 0 ==> Helpful(t, content, s, m)
  {
    hide Value32, BigEndian, Verified, PieceMessage;
    t.Sizes(s.index);
    assert t.PieceSize(s.index) <= UINT32_MAX + 1;
    var from, length := t.Boundary(s.index) + |s.received|, RequestLength(t, s.index, |s.received|);
    var block := content[from..from + length];
    m := PieceMessage(s.index, |s.received|, block);
    PieceMessageParts(s.index, |s.received|, block);
  }

  /** From any point on track some peer can finish the download. */
  lemma {:induction false} SomePeerCompletes(t: Torrent, sha1: Digester, content: Bytes, s: State)
    returns (ds: seq<Delivery>)
    requires OnTrack(t, sha1, content, s)
    ensures AreMessages(ds) && Cooperates(t, sha1, content, s, ds) && PiecesIn(ds) == Remaining(t, s)
    decreases Remaining(t, s), Obstacles(t, s)
  {
    hide Handle, Inv, IsContent, Helpful, Remaining, Announced;
    var known, m := s.connection.value.advertised, Message(UNCHOKE, []);
    if known.None? {
      m := HaveMessage(s.index);
      HelpfulHave(t, content, s, s.index);
    } else if !s.pending {
      UnchokeIsHelpful(t, content, s);
    } else if s.index + 1 < t.PieceCount() && s.index + 1 !in known.value {
      m := HaveMessage(s.index + 1);
      HelpfulHave(t, content, s, s.index + 1);
    } else {
      m := HonestBlock(t, sha1, content, s);
    }
    if !IsPiece(m) {
      NewsStep(t, sha1, content, s, m);
    }
    CooperativeStep(t, sha1, content, s, m);
    OnTrackNow(t, sha1, content, s);
    var step := Handle(t, sha1, s, m, FINE);
    var rest: seq<Delivery> := [];
    if step.active {
      rest := SomePeerCompletes(t, sha1, content, step.state);
    }
    ds := [Delivery(m, FINE)] + rest;
  }

  lemma {:induction false} UnchokeIsHelpful(t: Torrent, content: Bytes, s: State)
    requires s.connection.Some?
    ensures IsMessage(Message(UNCHOKE, [])) && Helpful(t, content, s, Message(UNCHOKE, []))
  {
  }

  // ----- what no peer can make happen -----

  /** No piece so far was larger than a request can address, and the current one is not received beyond that. */
  ghost predicate Bounded(t: Torrent, s: State) {
    && s.index <= UINT32_MAX + 1
    && (s.index == UINT32_MAX + 1 ==> s.received == [] && !s.pending)
    && (forall j | 0 <= j < s.index && j < t.PieceCount() :: t.PieceSize(j) <= UINT32_MAX + 1)
    && (t.PieceSize(s.index) > UINT32_MAX + 1 ==>
          && |s.received| % BLOCK_SIZE == 0 && |s.received| <= UINT32_MAX + 1
          && (s.pending ==> |s.received| <= UINT32_MAX))
  }

  lemma {:induction false} IntakeBounded(t: Torrent, s: State, m: Message, env: Environment)
    requires Bounded(t, s) && s.connection.Some? && IsMessage(m) && m.Message?
    ensures Bounded(t, Intake(t, s, m, env).state)
  {
    hide AdvertisedBy, Value32;
  }

  lemma {:induction false} SettleBounded(t: Torrent, sha1: Digester, s: State, env: Environment)
    requires t.Consistent() && Bounded(t, s) && s.index < t.PieceCount()
    ensures Bounded(t, Settle(t, sha1, s, env).state)
  {
    hide Write;
    t.Sizes(s.index);
  }

  lemma {:induction false} AdvanceBounded(t: Torrent, s: State, env: Environment)
    requires Bounded(t, s) && s.connection.Some?
    ensures Bounded(t, Advance(t, s, env).state)
  {
  }

  lemma {:induction false} HandleBounded(t: Torrent, sha1: Digester, s: State, m: Message, env: Environment)
    requires t.Consistent() && Inv(t, sha1, s) && Bounded(t, s)
    requires s.connection.Some? && IsMessage(m) && s.index < t.PieceCount()
    ensures Bounded(t, Handle(t, sha1, s, m, env).state)
  {
    hide Bounded, Intake, Settle, Advance, Inv;
    if m.Message? {
      IntakeKeeps(t, sha1, s, m, env);
      IntakeBounded(t, s, m, env);
      var taken := Intake(t, s, m, env);
      if taken.active {
        SettleKeeps(t, sha1, taken.state, env);
        SettleBounded(t, sha1, taken.state, env);
        var settled := Settle(t, sha1, taken.state, env);
        if settled.active {
          AdvanceBounded(t, settled.state, env);
        }
      }
    }
  }

  lemma {:induction false} ServeBounded(t: Torrent, sha1: Digester, s: State, ds: seq<Delivery>)
    requires t.Consistent() && Inv(t, sha1, s) && Bounded(t, s) && AreMessages(ds)
    ensures Bounded(t, Serve(t, sha1, s, ds))
    decreases |ds|
  {
    hide Handle, Inv, Bounded, Extends;
    IndexInRange(t, sha1, s);
    if ds != [] && s.connection.Some? && !Complete(t, s) {
      HandleKeeps(t, sha1, s, ds[0].message, ds[0].env);
      HandleBounded(t, sha1, s, ds[0].message, ds[0].env);
      var step := Handle(t, sha1, s, ds[0].message, ds[0].env);
      if step.active {
        ServeBounded(t, sha1, step.state, ds[1..]);
      }
    }
  }

  lemma {:induction false} OpenCloseBounded(t: Torrent, s: State)
    requires Bounded(t, s)
    ensures Bounded(t, Open(s)) && Bounded(t, Close(s)) && Bounded(t, Reset(s))
  {
  }

  lemma {:induction false} RunBounded(t: Torrent, sha1: Digester, s: State, sessions: seq<Session>)
    requires t.Consistent() && Inv(t, sha1, s) && Bounded(t, s) && s.connection.None? && AreSessions(sessions)
    ensures Bounded(t, Run(t, sha1, s, sessions))
    decreases |sessions|
  {
    hide Inv, Bounded, Extends, Serve;
    if sessions != [] && !Complete(t, s) {
      assert IsSession(sessions[0]);
      OpenCloseBounded(t, s);
      OpenCloseKeep(t, sha1, s);
      RunSessionKeeps(t, sha1, s, sessions[0]);
      if sessions[0].Connected? {
        ServeBounded(t, sha1, Open(s), sessions[0].deliveries);
        OpenCloseBounded(t, Serve(t, sha1, Open(s), sessions[0].deliveries));
      }
      RunBounded(t, sha1, RunSession(t, sha1, s, sessions[0]), sessions[1..]);
    }
  }

  lemma {:induction false} CompleteMeansFits(t: Torrent, sha1: Digester, sessions: seq<Session>)
    requires t.Consistent() && AreSessions(sessions) && Complete(t, Run(t, sha1, INITIAL, sessions))
    ensures FitsWire(t)
  {
    hide Run;
    InitialInv(t, sha1);
    RunBounded(t, sha1, INITIAL, sessions);
    RunKeeps(t, sha1, INITIAL, sessions);
  }

  /** A torrent that has a content can be downloaded, by some peers, exactly when it fits the request fields. */
  lemma {:induction false} CompletableExactlyWhenItFits(t: Torrent, sha1: Digester, content: Bytes)
    requires t.Consistent() && IsContent(t, sha1, content)
    ensures (exists sessions :: AreSessions(sessions) && Complete(t, Run(t, sha1, INITIAL, sessions))) <==> FitsWire(t)
  {
    hide Serve, IsContent, Inv, OnTrack, Cooperates, Remaining;
    if FitsWire(t) {
      InitialInv(t, sha1);
      NewConnectionOnTrack(t, sha1, content, INITIAL);
      var ds := SomePeerCompletes(t, sha1, content, Open(INITIAL));
      CooperativePeerCompletes(t, sha1, content, Open(INITIAL), ds);
      var session := Connected(ds);
      var sessions := [session];
      assert RunSession(t, sha1, INITIAL, session).index >= t.PieceCount();
      assert sessions[1..] == [];
      assert AreSessions(sessions) && Complete(t, Run(t, sha1, INITIAL, sessions));
    } else {
      forall sessions | AreSessions(sessions)
        ensures !Complete(t, Run(t, sha1, INITIAL, sessions))
      {
        if Complete(t, Run(t, sha1, INITIAL, sessions)) {
          CompleteMeansFits(t, sha1, sessions);
        }
      }
    }
  }

  /** A consistent torrent that no peers can complete: one piece, one byte larger than a request can address. */
  lemma {:induction false} WidePieceDoesNotFit(table: Bytes)
    requires |table| == DIGEST_LENGTH
    ensures var t := Torrent(table, UINT32_MAX + 2, UINT32_MAX + 2);
            t.Consistent() && !FitsWire(t)
  {
    var t := Torrent(table, UINT32_MAX + 2, UINT32_MAX + 2);
    assert t.Offset(1) == t.Offset(0) + t.pieceLength;
    assert t.Consistent();
    t.Sizes(0);
  }

  /**
   Some BITFIELD message can advertise pieces of a torrent exactly when it has at most
   8388608 of them: with more, its bitfield exceeds the payload limit, and only HAVE is left.
   */
  lemma {:induction false} BitfieldsExactlyUpToTheLimit(pieceCount: nat)
    ensures (exists m ::
               IsMessage(m) && m.Message? && m.id == BITFIELD && AdvertisedBy(m.payload, pieceCount).Some?)
            <==> pieceCount <= 8 * MAX_PAYLOAD_LENGTH
  {
    if pieceCount <= 8 * MAX_PAYLOAD_LENGTH {
      var payload: Bytes := seq(BitfieldLength(pieceCount), _ => 0);
      NoPieces(ToBits(payload), pieceCount);
      var m := Message(BITFIELD, payload);
      assert IsMessage(m) && AdvertisedBy(m.payload, pieceCount).Some?;
    }
  }

  // ----- what a choke leaves behind -----

  lemma {:induction false} PendingStep(t: Torrent, sha1: Digester, s: State, m: Message, env: Environment)
    requires t.Consistent() && Inv(t, sha1, s) && s.pending && IsMessage(m) && !IsPiece(m) && s.index < t.PieceCount()
    ensures var s' := Handle(t, sha1, s, m, env).state;
            s'.pending && s'.index == s.index && s'.received == s.received && NoRequestSince(s, s')
  {
    hide Verified, AdvertisedBy, Value32, RequestLength, Write;
  }

  /**
   A pending request is never repeated or replaced: choking does not clear it, so until
   the block arrives the connection makes no further request, however often the peer
   chokes and unchokes.
   */
  lemma {:induction false} PendingRequestIsNotRepeated(t: Torrent, sha1: Digester, s: State, ds: seq<Delivery>)
    requires t.Consistent() && Inv(t, sha1, s) && s.pending && AreMessages(ds)
    requires forall i | 0 <= i < |ds| :: !IsPiece(ds[i].message)
    ensures var s' := Serve(t, sha1, s, ds);
            s'.pending && s'.index == s.index && s'.received == s.received && NoRequestSince(s, s')
    decreases |ds|
  {
    hide Handle, Inv, Extends;
    IndexInRange(t, sha1, s);
    if ds != [] && s.connection.Some? && !Complete(t, s) {
      HandleKeeps(t, sha1, s, ds[0].message, ds[0].env);
      PendingStep(t, sha1, s, ds[0].message, ds[0].env);
      var step := Handle(t, sha1, s, ds[0].message, ds[0].env);
      if step.active {
        PendingRequestIsNotRepeated(t, sha1, step.state, ds[1..]);
      }
    }
  }

  /** Two messages that keep the connection, and then the rest. */
  lemma {:induction false} ServeTwo(t: Torrent, sha1: Digester, s: State, a: Delivery, b: Delivery,
      rest: seq<Delivery>)
    requires IsMessage(a.message) && IsMessage(b.message) && AreMessages(rest)
    requires s.connection.Some? && !Complete(t, s)
    requires var one := Handle(t, sha1, s, a.message, a.env);
             && one.active && one.state.connection.Some? && !Complete(t, one.state)
             && Handle(t, sha1, one.state, b.message, b.env).active
    ensures AreMessages([a, b]) && AreMessages([a, b] + rest)
    ensures Serve(t, sha1, s, [a, b])
            == Handle(t, sha1, Handle(t, sha1, s, a.message, a.env).state, b.message, b.env).state
    ensures Serve(t, sha1, s, [a, b] + rest) == Serve(t, sha1, Serve(t, sha1, s, [a, b]), rest)
  {
    hide Handle;
    var one := Handle(t, sha1, s, a.message, a.env).state;
    ServeOne(t, sha1, one, b, []);
    ServeOne(t, sha1, one, b, rest);
    ServeOne(t, sha1, s, a, [b] + []);
    ServeOne(t, sha1, s, a, [b] + rest);
    assert [a] + ([b] + []) == [a, b] && [a] + ([b] + rest) == [a, b] + rest;
  }

  lemma {:induction false} ServeOne(t: Torrent, sha1: Digester, s: State, d: Delivery, rest: seq<Delivery>)
    requires IsMessage(d.message) && AreMessages(rest) && s.connection.Some? && !Complete(t, s)
    requires Handle(t, sha1, s, d.message, d.env).active
    ensures AreMessages([d] + rest)
    ensures Serve(t, sha1, s, [d] + rest) == Serve(t, sha1, Handle(t, sha1, s, d.message, d.env).state, rest)
  {
    hide Handle;
    assert ([d] + rest)[1..] == rest;
  }

  ghost const CHOKED: Delivery := Delivery(Message(CHOKE, []), FINE)
  ghost const UNCHOKED: Delivery := Delivery(Message(UNCHOKE, []), FINE)

  /**
   The exact condition: an unchoked connection to a peer known to have the piece makes
   the next request if and only if none is pending.
   */
  lemma {:induction false} UnchokeRequestsUnlessPending(t: Torrent, sha1: Digester, content: Bytes, s: State)
    requires OnTrack(t, sha1, content, s) && s.connection.value.advertised.Some?
    ensures IsMessage(UNCHOKED.message)
    ensures var step := Handle(t, sha1, s, UNCHOKED.message, FINE);
            step.active && step.state.pending && (NoRequestSince(s, step.state) <==> s.pending)
  {
    hide IsContent, Inv, RequestLength, Write;
    assert t.PieceSize(s.index) <= UINT32_MAX + 1;
    var step := Handle(t, sha1, s, UNCHOKED.message, FINE);
    if !s.pending {
      assert step.state.log[|step.state.log| - 1].RequestSent?;
    }
  }

  /** On a new connection HAVE for the current piece and UNCHOKE bring about the first request. */
  lemma {:induction false} FirstRequest(t: Torrent, sha1: Digester, content: Bytes, s: State, rest: seq<Delivery>)
    requires OnTrack(t, sha1, content, s) && s.connection.value.advertised.None? && AreMessages(rest)
    ensures s.index <= UINT32_MAX
    ensures var hello := [Delivery(HaveMessage(s.index), FINE), UNCHOKED];
            && AreMessages(hello) && AreMessages(hello + rest)
            && var w := Serve(t, sha1, s, hello);
               && Serve(t, sha1, s, hello + rest) == Serve(t, sha1, w, rest)
               && OnTrack(t, sha1, content, w) && w.pending && w.received == s.received
  {
    hide Handle, Inv, IsContent, Helpful, Serve, AreMessages;
    HelpfulHave(t, content, s, s.index);
    NewsStep(t, sha1, content, s, HaveMessage(s.index));
    var s1 := Handle(t, sha1, s, HaveMessage(s.index), FINE).state;
    UnchokeIsHelpful(t, content, s1);
    NewsStep(t, sha1, content, s1, UNCHOKED.message);
    ServeTwo(t, sha1, s, Delivery(HaveMessage(s.index), FINE), UNCHOKED, rest);
  }

  /** Choked and unchoked with a request pending, the connection is up and unchoked, and makes no request. */
  lemma {:induction false} ChokeKeepsPending(t: Torrent, sha1: Digester, content: Bytes, s: State)
    requires OnTrack(t, sha1, content, s) && s.pending
    ensures AreMessages([CHOKED, UNCHOKED])
    ensures var s' := Serve(t, sha1, s, [CHOKED, UNCHOKED]);
            && OnTrack(t, sha1, content, s') && s'.pending && !s'.connection.value.choking
            && s'.received == s.received && NoRequestSince(s, s')
  {
    hide Inv, IsContent, RequestLength, Write, FitsWire, Serve;
    HandleKeeps(t, sha1, s, CHOKED.message, FINE);
    var s1 := Handle(t, sha1, s, CHOKED.message, FINE).state;
    HandleKeeps(t, sha1, s1, UNCHOKED.message, FINE);
    ServeTwo(t, sha1, s, CHOKED, UNCHOKED, []);
  }

  /**
   A reachable state in which the download waits for good unless the peer answers a
   request it has choked: after HAVE, UNCHOKE, CHOKE, UNCHOKE the connection is up and
   unchoked, the peer has the piece, and nothing was requested since the first UNCHOKE.
   */
  lemma {:induction false} StrandedRequest(t: Torrent, sha1: Digester, content: Bytes)
    requires t.Consistent() && FitsWire(t) && IsContent(t, sha1, content)
    ensures var hello := [Delivery(HaveMessage(0), FINE), UNCHOKED];
            && AreMessages(hello) && AreMessages(hello + [CHOKED, UNCHOKED])
            && var before, after :=
                 Serve(t, sha1, Open(INITIAL), hello), Serve(t, sha1, Open(INITIAL), hello + [CHOKED, UNCHOKED]);
               && OnTrack(t, sha1, content, after) && after.pending && !after.connection.value.choking
               && after.received == [] && NoRequestSince(before, after)
  {
    hide Handle, Inv, IsContent, Serve, OnTrack, FitsWire, NoRequestSince;
    InitialInv(t, sha1);
    NewConnectionOnTrack(t, sha1, content, INITIAL);
    OnTrackNow(t, sha1, content, Open(INITIAL));
    FirstRequest(t, sha1, content, Open(INITIAL), [CHOKED, UNCHOKED]);
    var before := Serve(t, sha1, Open(INITIAL), [Delivery(HaveMessage(0), FINE), UNCHOKED]);
    ChokeKeepsPending(t, sha1, content, before);
  }
}
