/**
 The discipline of a connection, stated as a monitor that reads only the log. It
 knows nothing of the download's state; it rejects a log in which interest is sent
 twice, a request breaks the rules of the peer protocol, a block does not answer
 the outstanding request, or a bitfield comes too late.
 */
module DownloadTrace {
  import opened ByteStrings
  import opened WireFraming
  import opened DownloadProtocol
  import opened DownloadSafety

  datatype Request = Request(piece: nat, begin: nat, length: int)

  datatype Monitor = Monitor(
    open: bool,
    choking: bool,
    interested: bool,
    advertised: Option<set<nat>>,
    outstanding: Option<Request>,
    gathered: Bytes,  // the blocks accepted on this connection since the last piece was settled
    stored: nat)      // pieces stored so far

  ghost const FRESH: Monitor := Monitor(false, true, false, None, None, [], 0)

  /** The monitor after one more action, or None if the action breaks the discipline. */
  ghost function Watch(m: Monitor, a: Action): Option<Monitor> {
    match a
    case Opened =>
      if m.open then None else Some(Monitor(true, true, false, None, None, [], m.stored))
    case Closed =>
      if !m.open then None else Some(Monitor(false, true, false, None, None, [], m.stored))
    case PeerChokes => if !m.open then None else Some(m.(choking := true))
    case PeerUnchokes => if !m.open then None else Some(m.(choking := false))
    case PeerHas(piece) =>
      if !m.open then None
      else Some(m.(advertised := Some((if m.advertised.Some? then m.advertised.value else {}) + {piece})))
    case PeerAdvertises(pieces) =>
      if !m.open || m.advertised.Some? then None else Some(m.(advertised := Some(pieces)))
    case InterestedSent => if !m.open || m.interested then None else Some(m.(interested := true))
    case RequestSent(piece, begin, length) =>
      if || !m.open || !m.interested || m.choking || m.outstanding.Some?
         || m.advertised.None? || piece !in m.advertised.value
         || begin != |m.gathered| || !(0 < length <= BLOCK_SIZE)
         || piece != m.stored || piece > UINT32_MAX || begin > UINT32_MAX
      then None
      else Some(m.(outstanding := Some(Request(piece, begin, length))))
    case BlockAccepted(piece, begin, block) =>
      if !m.open || m.outstanding != Some(Request(piece, begin, |block|)) then None
      else Some(m.(outstanding := None, gathered := m.gathered + block))
    case PieceStored(piece) =>
      if !m.open || m.outstanding.Some? || piece != m.stored then None
      else Some(m.(gathered := [], stored := m.stored + 1))
    case PieceRejected(piece) =>
      if !m.open || m.outstanding.Some? then None else Some(m.(gathered := []))
  }

  ghost function WatchAll(log: seq<Action>): Option<Monitor> {
    if log == [] then Some(FRESH)
    else
      var before := WatchAll(log[..|log| - 1]);
      if before.None? then None else Watch(before.value, log[|log| - 1])
  }

  /** The monitor accepts the log and has reconstructed the state of the connection and of the piece from it. */
  ghost predicate Follows(t: Torrent, s: State) {
    var m := WatchAll(s.log);
    && m.Some?
    && m.value.open == s.connection.Some?
    && (s.connection.Some? ==>
          && s.connection.value.choking == m.value.choking
          && s.connection.value.interested == m.value.interested
          && s.connection.value.advertised == m.value.advertised)
    && m.value.gathered == s.received
    && m.value.stored == s.index
    && m.value.outstanding
       == if s.pending then Some(Request(s.index, |s.received|, RequestLength(t, s.index, |s.received|))) else None
  }

  lemma {:induction false} WatchLogged(s: State, a: Action)
    requires WatchAll(s.log).Some?
    ensures WatchAll(Log(s, a).log) == Watch(WatchAll(s.log).value, a)
  {
    assert (s.log + [a])[..|s.log|] == s.log;
  }

  lemma {:induction false} IntakeFollows(t: Torrent, s: State, m: Message, env: Environment)
    requires Follows(t, s) && s.connection.Some? && IsMessage(m) && m.Message?
    ensures Follows(t, Intake(t, s, m, env).state)
  {
    hide WatchAll, AdvertisedBy, Value32;
    var s' := Intake(t, s, m, env).state;
    if s'.log != s.log {
      WatchLogged(s.(log := s.log), s'.log[|s.log|]);
    }
  }

  lemma {:induction false} SettleFollows(t: Torrent, sha1: Digester, s: State, env: Environment)
    requires t.Consistent() && Inv(t, sha1, s) && Follows(t, s) && s.connection.Some? && s.index < t.PieceCount()
    ensures Follows(t, Settle(t, sha1, s, env).state)
  {
    hide WatchAll, Write, Verified;
    WatchStep(s, PieceStored(s.index));
    WatchStep(s, PieceRejected(s.index));
  }

  lemma {:induction false} WatchStep(s: State, a: Action)
    requires WatchAll(s.log).Some?
    ensures WatchAll(s.log + [a]) == Watch(WatchAll(s.log).value, a)
  {
    WatchLogged(s, a);
  }

  lemma {:induction false} AdvanceFollows(t: Torrent, sha1: Digester, s: State, env: Environment)
    requires t.Consistent() && Inv(t, sha1, s) && Follows(t, s) && s.connection.Some?
    requires |s.received| < t.PieceSize(s.index)
    ensures Follows(t, Advance(t, s, env).state)
  {
    hide WatchAll, Verified;
    var request := RequestSent(s.index, |s.received|, RequestLength(t, s.index, |s.received|));
    WatchStep(s, request);
    WatchStep(s, InterestedSent);
    var s1 := Log(s, InterestedSent);
    if WatchAll(s1.log).Some? {
      WatchStep(s1, request);
    }
  }

  lemma {:induction false} HandleFollows(t: Torrent, sha1: Digester, s: State, m: Message, env: Environment)
    requires t.Consistent() && Inv(t, sha1, s) && Follows(t, s)
    requires s.connection.Some? && IsMessage(m) && s.index < t.PieceCount()
    ensures Follows(t, Handle(t, sha1, s, m, env).state)
  {
    hide Intake, Settle, Advance, Inv, Follows;
    if m.Message? {
      IntakeKeeps(t, sha1, s, m, env);
      IntakeFollows(t, s, m, env);
      var taken := Intake(t, s, m, env);
      if taken.active {
        SettleKeeps(t, sha1, taken.state, env);
        SettleFollows(t, sha1, taken.state, env);
        var settled := Settle(t, sha1, taken.state, env);
        if settled.active {
          AdvanceFollows(t, sha1, settled.state, env);
        }
      }
    }
  }

  lemma {:induction false} ServeFollows(t: Torrent, sha1: Digester, s: State, ds: seq<Delivery>)
    requires t.Consistent() && Inv(t, sha1, s) && Follows(t, s) && AreMessages(ds)
    ensures Follows(t, Serve(t, sha1, s, ds))
    decreases |ds|
  {
    hide Handle, Inv, Extends, Follows;
    IndexInRange(t, sha1, s);
    if ds != [] && s.connection.Some? && !Complete(t, s) {
      HandleKeeps(t, sha1, s, ds[0].message, ds[0].env);
      HandleFollows(t, sha1, s, ds[0].message, ds[0].env);
      var step := Handle(t, sha1, s, ds[0].message, ds[0].env);
      if step.active {
        ServeFollows(t, sha1, step.state, ds[1..]);
      }
    }
  }

  lemma {:induction false} OpenCloseFollow(t: Torrent, sha1: Digester, s: State)
    requires Inv(t, sha1, s) && Follows(t, s)
    ensures s.connection.None? ==> Follows(t, Open(s)) && Follows(t, Reset(s))
    ensures s.connection.Some? ==> Follows(t, Close(s))
  {
    hide WatchAll, Verified;
    WatchStep(s, Opened);
    WatchStep(s, Closed);
  }

  lemma {:induction false} RunFollows(t: Torrent, sha1: Digester, s: State, sessions: seq<Session>)
    requires t.Consistent() && Inv(t, sha1, s) && Follows(t, s) && s.connection.None? && AreSessions(sessions)
    ensures Follows(t, Run(t, sha1, s, sessions))
    decreases |sessions|
  {
    hide Inv, Extends, Follows, Serve;
    if sessions != [] && !Complete(t, s) {
      assert IsSession(sessions[0]);
      OpenCloseFollow(t, sha1, s);
      OpenCloseKeep(t, sha1, s);
      RunSessionKeeps(t, sha1, s, sessions[0]);
      if sessions[0].Connected? {
        ServeKeeps(t, sha1, Open(s), sessions[0].deliveries);
        ServeFollows(t, sha1, Open(s), sessions[0].deliveries);
        var served := Serve(t, sha1, Open(s), sessions[0].deliveries);
        ServeStaysOpen(t, sha1, Open(s), sessions[0].deliveries);
        OpenCloseFollow(t, sha1, served);
      }
      RunFollows(t, sha1, RunSession(t, sha1, s, sessions[0]), sessions[1..]);
    }
  }

  lemma {:induction false} ServeStaysOpen(t: Torrent, sha1: Digester, s: State, ds: seq<Delivery>)
    requires t.Consistent() && Inv(t, sha1, s) && s.connection.Some? && AreMessages(ds)
    ensures Serve(t, sha1, s, ds).connection.Some?
    decreases |ds|
  {
    hide Handle, Inv, Extends;
    IndexInRange(t, sha1, s);
    if ds != [] && !Complete(t, s) {
      HandleKeeps(t, sha1, s, ds[0].message, ds[0].env);
      var step := Handle(t, sha1, s, ds[0].message, ds[0].env);
      if step.active {
        ServeStaysOpen(t, sha1, step.state, ds[1..]);
      }
    }
  }

  /**
   Connection discipline over whole runs: the log of any run, and of any further
   connection on top of it, is accepted by the monitor, and the bytes held for the
   current piece are exactly the blocks accepted on the current connection.
   */
  lemma {:induction false} WholeRunDiscipline(t: Torrent, sha1: Digester, sessions: seq<Session>, ds: seq<Delivery>)
    requires t.Consistent() && AreSessions(sessions) && AreMessages(ds)
    ensures Follows(t, Run(t, sha1, INITIAL, sessions))
    ensures Follows(t, Serve(t, sha1, Open(Run(t, sha1, INITIAL, sessions)), ds))
  {
    hide Run, Serve, Inv, Open;
    InitialInv(t, sha1);
    RunFollows(t, sha1, INITIAL, sessions);
    RunKeeps(t, sha1, INITIAL, sessions);
    var s := Run(t, sha1, INITIAL, sessions);
    OpenCloseKeep(t, sha1, s);
    OpenCloseFollow(t, sha1, s);
    ServeFollows(t, sha1, Open(s), ds);
  }
}
