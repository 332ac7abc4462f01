/**
 What the messages of a peer bring about, said of the messages themselves: which of
 them make us believe that we are choked and what the peer has, when interest and
 requests go out, and what becomes of a block and of a whole piece.
 */
module DownloadLaws {
  import opened ByteStrings
  import opened Faults
  import opened WireFraming
  import opened PieceBitfield
  import opened DownloadProtocol
  import opened DownloadSafety
  import opened DownloadProgress
  import opened HostSessions

  // ----- connections that are still up -----

  lemma {:induction false} ActiveNow(t: Torrent, sha1: Digester, s: State, ds: seq<Delivery>)
    requires t.Consistent() && Inv(t, sha1, s) && s.connection.Some? && !Complete(t, s)
    requires AreMessages(ds) && AllActive(t, sha1, s, ds)
    ensures var now := Serve(t, sha1, s, ds);
            Inv(t, sha1, now) && now.connection.Some? && !Complete(t, now)
    decreases |ds|
  {
    hide Handle, Inv, Extends;
    if ds != [] {
      HandleKeeps(t, sha1, s, ds[0].message, ds[0].env);
      ActiveNow(t, sha1, Handle(t, sha1, s, ds[0].message, ds[0].env).state, ds[1..]);
    }
  }

  lemma {:induction false} ActiveBefore(t: Torrent, sha1: Digester, s: State, ds: seq<Delivery>, k: nat)
    requires AreMessages(ds) && AllActive(t, sha1, s, ds) && k <= |ds|
    ensures AllActive(t, sha1, s, ds[..k])
    decreases k
  {
    hide Handle;
    if k > 0 {
      assert ds[..k][0] == ds[0] && ds[..k][1..] == ds[1..][..k - 1];
      ActiveBefore(t, sha1, Handle(t, sha1, s, ds[0].message, ds[0].env).state, ds[1..], k - 1);
    }
  }

  /** All messages but the last one kept the connection, so that the last one was taken too. */
  ghost predicate AllTaken(t: Torrent, sha1: Digester, s: State, ds: seq<Delivery>)
    requires AreMessages(ds)
  {
    ds == [] || AllActive(t, sha1, s, ds[..|ds| - 1])
  }

  lemma {:induction false} LastTaken(t: Torrent, sha1: Digester, s: State, ds: seq<Delivery>)
    requires t.Consistent() && Inv(t, sha1, s) && s.connection.Some? && !Complete(t, s)
    requires AreMessages(ds) && ds != [] && AllTaken(t, sha1, s, ds)
    ensures var front, d := ds[..|ds| - 1], ds[|ds| - 1];
            && AreMessages(front) && AllTaken(t, sha1, s, front)
            && var now := Serve(t, sha1, s, front);
               && Inv(t, sha1, now) && now.connection.Some? && !Complete(t, now)
               && Serve(t, sha1, s, ds) == Handle(t, sha1, now, d.message, d.env).state
  {
    hide Handle, Inv, Serve, AllActive;
    var front, d := ds[..|ds| - 1], ds[|ds| - 1];
    assert ds == front + [d];
    if front != [] {
      ActiveBefore(t, sha1, s, front, |front| - 1);
    }
    ActiveNow(t, sha1, s, front);
    ServeOneMore(t, sha1, s, front, d);
  }

  // ----- choking -----

  ghost predicate IsChoke(m: Message) {
    m.Message? && m.id == 0
  }

  ghost predicate IsUnchoke(m: Message) {
    m.Message? && m.id == 1
  }

  /** None of the messages is an UNCHOKE that no CHOKE has followed. */
  ghost predicate ChokedBy(ds: seq<Delivery>) {
    forall i | 0 <= i < |ds| && IsUnchoke(ds[i].message) :: exists j | i < j < |ds| :: IsChoke(ds[j].message)
  }

  /** Only the intake of a message changes what we know of the peer. */
  lemma {:induction false} RestKeepsPeer(t: Torrent, sha1: Digester, s: State, env: Environment)
    requires s.connection.Some? && s.index < t.PieceCount()
    ensures var settled := Settle(t, sha1, s, env);
            && settled.state.connection == s.connection
            && var after := Advance(t, settled.state, env).state.connection;
               && after.Some? && after.value.advertised == s.connection.value.advertised
               && after.value.choking == s.connection.value.choking
  {
    hide Write, RequestLength;
  }

  lemma {:induction false} IntakeChokes(t: Torrent, s: State, m: Message, env: Environment)
    requires s.connection.Some? && IsMessage(m) && m.Message?
    ensures var taken := Intake(t, s, m, env).state;
            && taken.connection.Some? && taken.index == s.index
            && taken.connection.value.choking == (IsChoke(m) || (s.connection.value.choking && !IsUnchoke(m)))
  {
    hide AdvertisedBy, Value32, RequestLength;
  }

  lemma {:induction false} ChokingStep(t: Torrent, sha1: Digester, s: State, m: Message, env: Environment)
    requires s.connection.Some? && IsMessage(m) && s.index < t.PieceCount()
    ensures var c := Handle(t, sha1, s, m, env).state.connection;
            c.Some? && c.value.choking == (IsChoke(m) || (s.connection.value.choking && !IsUnchoke(m)))
  {
    hide Intake, Settle, Advance;
    if m.Message? {
      IntakeChokes(t, s, m, env);
      RestKeepsPeer(t, sha1, Intake(t, s, m, env).state, env);
    }
  }

  lemma {:induction false} ChokedByOneMore(ds: seq<Delivery>, d: Delivery)
    ensures ChokedBy(ds + [d]) <==> IsChoke(d.message) || (ChokedBy(ds) && !IsUnchoke(d.message))
  {
    var all := ds + [d];
    assert forall i | 0 <= i < |ds| :: all[i] == ds[i];
    assert all[|ds|] == d;
    if IsChoke(d.message) {
      forall i | 0 <= i < |all| && IsUnchoke(all[i].message)
        ensures exists j | i < j < |all| :: IsChoke(all[j].message)
      {
        assert IsChoke(all[|ds|].message);
      }
    } else if ChokedBy(all) {
      forall i | 0 <= i < |ds| && IsUnchoke(ds[i].message)
        ensures exists j | i < j < |ds| :: IsChoke(ds[j].message)
      {
        assert IsUnchoke(all[i].message);
        var j :| i < j < |all| && IsChoke(all[j].message);
        assert ds[j] == all[j];
      }
    }
  }

  /** Whether we are choked is what the peer said last: choked at first, and after every CHOKE until an UNCHOKE. */
  lemma {:induction false} ChokingFollowsMessages(t: Torrent, sha1: Digester, s: State, ds: seq<Delivery>)
    requires t.Consistent() && Inv(t, sha1, s) && s.connection.None? && !Complete(t, s)
    requires AreMessages(ds) && AllTaken(t, sha1, Open(s), ds)
    ensures var c := Serve(t, sha1, Open(s), ds).connection;
            c.Some? && (c.value.choking <==> ChokedBy(ds))
    decreases |ds|
  {
    hide Handle, Inv, AllTaken, ChokedBy, AllActive;
    OpenCloseKeep(t, sha1, s);
    if ds == [] {
      NothingChokes();
    } else {
      var front, d := ds[..|ds| - 1], ds[|ds| - 1];
      LastTaken(t, sha1, Open(s), ds);
      ChokingFollowsMessages(t, sha1, s, front);
      ChokingStep(t, sha1, Serve(t, sha1, Open(s), front), d.message, d.env);
      assert ds == front + [d];
      ChokedByOneMore(front, d);
    }
  }

  lemma {:induction false} NothingChokes()
    ensures ChokedBy([])
  {
  }

  lemma {:induction false} QuietWhileChoked(t: Torrent, sha1: Digester, s: State, m: Message, env: Environment)
    requires s.connection.Some? && IsMessage(m) && m.Message? && s.connection.value.choking && !IsUnchoke(m)
    ensures var s' := Intake(t, s, m, env).state;
            NoRequestSince(s, s') && s'.connection.Some? && s'.connection.value.choking && s'.index == s.index
  {
    hide AdvertisedBy, Value32, RequestLength;
  }

  lemma {:induction false} SettleAsksNothing(t: Torrent, sha1: Digester, s: State, env: Environment)
    requires s.index < t.PieceCount()
    ensures var s' := Settle(t, sha1, s, env).state;
            NoRequestSince(s, s') && s'.connection == s.connection
  {
    hide Write;
  }

  lemma {:induction false} AdvanceAsksNothing(t: Torrent, s: State, env: Environment)
    requires s.connection.Some? && s.connection.value.choking
    ensures NoRequestSince(s, Advance(t, s, env).state)
  {
  }

  /** While we are choked nothing is requested, whatever arrives, until an UNCHOKE does. */
  lemma {:induction false} NoRequestWhileChoked(t: Torrent, sha1: Digester, s: State, m: Message, env: Environment)
    requires s.connection.Some? && IsMessage(m) && s.index < t.PieceCount()
    requires s.connection.value.choking && !IsUnchoke(m)
    ensures NoRequestSince(s, Handle(t, sha1, s, m, env).state)
  {
    hide Intake, Settle, Advance;
    if m.Message? {
      QuietWhileChoked(t, sha1, s, m, env);
      var taken := Intake(t, s, m, env).state;
      SettleAsksNothing(t, sha1, taken, env);
      AdvanceAsksNothing(t, Settle(t, sha1, taken, env).state, env);
    }
  }

  /** After messages that leave us choked, nothing is requested until an UNCHOKE arrives. */
  lemma {:induction false} ChokedPeerIsNotAsked(t: Torrent, sha1: Digester, s: State, ds: seq<Delivery>, d: Delivery)
    requires t.Consistent() && Inv(t, sha1, s) && s.connection.None? && !Complete(t, s)
    requires AreMessages(ds) && AllActive(t, sha1, Open(s), ds) && ChokedBy(ds)
    requires IsMessage(d.message) && !IsUnchoke(d.message)
    ensures AreMessages(ds + [d])
    ensures NoRequestSince(Serve(t, sha1, Open(s), ds), Serve(t, sha1, Open(s), ds + [d]))
  {
    hide Handle, Inv, Serve, AllActive, ChokedBy;
    OpenCloseKeep(t, sha1, s);
    if ds != [] {
      ActiveBefore(t, sha1, Open(s), ds, |ds| - 1);
    }
    ChokingFollowsMessages(t, sha1, s, ds);
    assert (ds + [d])[..|ds|] == ds;
    LastTaken(t, sha1, Open(s), ds + [d]);
    NoRequestWhileChoked(t, sha1, Serve(t, sha1, Open(s), ds), d.message, d.env);
  }

  // ----- what the peer has -----

  /** The message announces piece i. */
  ghost predicate Names(m: Message, i: nat)
    requires IsMessage(m)
  {
    m.Message? && ((m.id == 4 && Value32(m.payload) == i) || (m.id == 5 && HasPiece(ToBits(m.payload), i)))
  }

  ghost predicate AnyNames(ds: seq<Delivery>, i: nat)
    requires AreMessages(ds)
  {
    exists k | 0 <= k < |ds| :: Names(ds[k].message, i)
  }

  ghost predicate AnyNews(ds: seq<Delivery>) {
    exists k | 0 <= k < |ds| :: IsNews(ds[k].message)
  }

  lemma {:induction false} IntakeAdvertises(t: Torrent, s: State, m: Message, env: Environment)
    requires s.connection.Some? && IsMessage(m) && m.Message? && Intake(t, s, m, env).active
    ensures var before, after := s.connection.value.advertised, Intake(t, s, m, env).state.connection;
            && after.Some?
            && (after.value.advertised.Some? <==> before.Some? || IsNews(m))
            && Intake(t, s, m, env).state.index == s.index
            && forall i: nat :: Announces(after.value.advertised, i) <==> Announces(before, i) || Names(m, i)
  {
    hide Value32, RequestLength, HasPiece;
    if m.id == BITFIELD {
      SpareBitsName(m.payload, t.PieceCount());
    }
  }

  lemma {:induction false} SpareBitsName(payload: Bytes, pieceCount: nat)
    ensures var known := AdvertisedBy(payload, pieceCount);
            known.Some? ==> forall i: nat :: i in known.value <==> HasPiece(ToBits(payload), i)
  {
    hide HasPiece;
  }

  lemma {:induction false} AdvertisedStep(t: Torrent, sha1: Digester, s: State, m: Message, env: Environment)
    requires s.connection.Some? && IsMessage(m) && s.index < t.PieceCount()
    requires Handle(t, sha1, s, m, env).active
    ensures var before, after := s.connection.value.advertised, Handle(t, sha1, s, m, env).state.connection;
            && after.Some?
            && (after.value.advertised.Some? <==> before.Some? || IsNews(m))
            && forall i: nat :: Announces(after.value.advertised, i) <==> Announces(before, i) || Names(m, i)
  {
    hide Intake, Settle, Advance, Value32, HasPiece;
    if m.Message? {
      IntakeAdvertises(t, s, m, env);
      RestKeepsPeer(t, sha1, Intake(t, s, m, env).state, env);
    }
  }

  ghost predicate Announces(advertised: Option<set<nat>>, i: nat) {
    advertised.Some? && i in advertised.value
  }

  /** What the peer is taken to have is what its messages announced, piece by piece. */
  lemma {:induction false} AdvertisedFollowsMessages(t: Torrent, sha1: Digester, s: State, ds: seq<Delivery>)
    requires t.Consistent() && Inv(t, sha1, s) && s.connection.None? && !Complete(t, s)
    requires AreMessages(ds) && AllActive(t, sha1, Open(s), ds)
    ensures var c := Serve(t, sha1, Open(s), ds).connection;
            && c.Some? && (c.value.advertised.Some? <==> AnyNews(ds))
            && forall i: nat :: Announces(c.value.advertised, i) <==> AnyNames(ds, i)
    decreases |ds|
  {
    hide Handle, Inv, Names, AllActive;
    OpenCloseKeep(t, sha1, s);
    if ds != [] {
      var front, d := ds[..|ds| - 1], ds[|ds| - 1];
      ActiveBefore(t, sha1, Open(s), ds, |front|);
      LastTaken(t, sha1, Open(s), ds);
      LastIsActive(t, sha1, Open(s), ds);
      AdvertisedFollowsMessages(t, sha1, s, front);
      AdvertisedStep(t, sha1, Serve(t, sha1, Open(s), front), d.message, d.env);
      NewsOneMore(front, d);
      assert ds == front + [d];
    }
  }

  lemma {:induction false} LastIsActive(t: Torrent, sha1: Digester, s: State, ds: seq<Delivery>)
    requires t.Consistent() && Inv(t, sha1, s) && s.connection.Some? && !Complete(t, s)
    requires AreMessages(ds) && ds != [] && AllActive(t, sha1, s, ds)
    ensures var now, d := Serve(t, sha1, s, ds[..|ds| - 1]), ds[|ds| - 1];
            now.connection.Some? && !Complete(t, now) && Handle(t, sha1, now, d.message, d.env).active
  {
    hide Handle, Inv, Serve, AllActive;
    var front, d := ds[..|ds| - 1], ds[|ds| - 1];
    assert ds == front + [d];
    ActiveBefore(t, sha1, s, ds, |front|);
    ActiveNow(t, sha1, s, front);
    ServeOneMore(t, sha1, s, front, d);
  }

  lemma {:induction false} NewsOneMore(ds: seq<Delivery>, d: Delivery)
    requires AreMessages(ds) && IsMessage(d.message)
    ensures AreMessages(ds + [d])
    ensures AnyNews(ds + [d]) <==> AnyNews(ds) || IsNews(d.message)
    ensures forall i: nat :: AnyNames(ds + [d], i) <==> AnyNames(ds, i) || Names(d.message, i)
  {
    hide Names;
    var all := ds + [d];
    assert all[|ds|] == d && forall k | 0 <= k < |ds| :: all[k] == ds[k];
  }

  /** HAVE for a piece that does not exist, and a BITFIELD that comes late or is malformed, end the connection. */
  lemma {:induction false} BadNewsIsRefused(t: Torrent, sha1: Digester, s: State, m: Message, env: Environment)
    requires s.connection.Some? && IsMessage(m) && m.Message? && s.index < t.PieceCount()
    requires || (m.id == 4 && Value32(m.payload) >= t.PieceCount())
             || (m.id == 5 && (s.connection.value.advertised.Some? || AdvertisedBy(m.payload, t.PieceCount()).None?))
    ensures Handle(t, sha1, s, m, env) == Step(s, false)
  {
    hide AdvertisedBy, Value32;
  }

  // ----- interest and requests -----

  lemma {:induction false} KeepAliveChangesNothing(t: Torrent, sha1: Digester, s: State, env: Environment)
    requires s.connection.Some? && s.index < t.PieceCount()
    ensures Handle(t, sha1, s, KeepAlive, env) == Step(s, true)
  {
  }

  /** How many times an action was logged since. */
  ghost function Logged(before: seq<Action>, after: seq<Action>, a: Action): nat
    requires before <= after
  {
    multiset(after[|before|..])[a]
  }

  /**
   After any message but a keep-alive, on a connection that goes on: once the peer has
   said what it has, it has the current piece, has been told of our interest, exactly
   once, even while it chokes us, and unless it does a request is out.
   */
  lemma {:induction false} InterestIsTold(t: Torrent, sha1: Digester, s: State, m: Message, env: Environment)
    requires t.Consistent() && Inv(t, sha1, s) && s.connection.Some? && s.index < t.PieceCount()
    requires IsMessage(m) && m.Message? && Handle(t, sha1, s, m, env).active
    ensures var s' := Handle(t, sha1, s, m, env).state;
            && s.log <= s'.log && s'.connection.Some?
            && var before, c := s.connection.value, s'.connection.value;
               if c.advertised.Some? then
                 && s'.index in c.advertised.value && c.interested && (c.choking || s'.pending)
                 && Logged(s.log, s'.log, InterestedSent) == (if before.interested then 0 else 1)
               else c.interested == before.interested && Logged(s.log, s'.log, InterestedSent) == 0
  {
    hide Intake, Settle, Advance, Inv, Extends, Logged;
    IntakeKeeps(t, sha1, s, m, env);
    var taken := Intake(t, s, m, env).state;
    SettleKeeps(t, sha1, taken, env);
    var settled := Settle(t, sha1, taken, env).state;
    QuietIntake(t, s, m, env);
    QuietSettle(t, sha1, taken, env);
    AdvanceTells(t, settled, env);
    LoggedInParts(s.log, taken.log, settled.log, InterestedSent);
    LoggedInParts(s.log, settled.log, Advance(t, settled, env).state.log, InterestedSent);
  }

  lemma {:induction false} LoggedInParts(a: seq<Action>, b: seq<Action>, c: seq<Action>, action: Action)
    requires a <= b <= c
    ensures Logged(a, c, action) == Logged(a, b, action) + Logged(b, c, action)
  {
    assert c[|a|..] == b[|a|..] + c[|b|..];
  }

  lemma {:induction false} QuietIntake(t: Torrent, s: State, m: Message, env: Environment)
    requires s.connection.Some? && IsMessage(m) && m.Message?
    ensures var s' := Intake(t, s, m, env).state;
            && s.log <= s'.log && Logged(s.log, s'.log, InterestedSent) == 0 && s'.connection.Some?
            && s'.connection.value.interested == s.connection.value.interested
  {
    hide AdvertisedBy, Value32, RequestLength;
    var s' := Intake(t, s, m, env).state;
    if s'.log == s.log {
      assert s'.log[|s.log|..] == [];
    } else {
      assert s'.log[|s.log|..] == [s'.log[|s.log|]];
    }
  }

  lemma {:induction false} QuietSettle(t: Torrent, sha1: Digester, s: State, env: Environment)
    requires s.index < t.PieceCount()
    ensures var s' := Settle(t, sha1, s, env).state;
            s.log <= s'.log && Logged(s.log, s'.log, InterestedSent) == 0 && s'.connection == s.connection
  {
    hide Write;
    var s' := Settle(t, sha1, s, env).state;
    if s'.log == s.log {
      assert s'.log[|s.log|..] == [];
    } else {
      assert s'.log[|s.log|..] == [s'.log[|s.log|]];
    }
  }

  lemma {:induction false} AdvanceTells(t: Torrent, s: State, env: Environment)
    requires s.connection.Some? && Advance(t, s, env).active
    ensures var s' := Advance(t, s, env).state;
            && s.log <= s'.log && s'.connection.Some?
            && var before, c := s.connection.value, s'.connection.value;
               if c.advertised.Some? then
                 && s'.index in c.advertised.value && c.interested && (c.choking || s'.pending)
                 && Logged(s.log, s'.log, InterestedSent) == (if before.interested then 0 else 1)
               else c.interested == before.interested && Logged(s.log, s'.log, InterestedSent) == 0
  {
    hide RequestLength, Logged;
    var request := RequestSent(s.index, |s.received|, RequestLength(t, s.index, |s.received|));
    LoggedNothing(s.log, InterestedSent);
    LoggedOneMore(s.log, s.log, InterestedSent, InterestedSent);
    LoggedOneMore(s.log, s.log, request, InterestedSent);
    LoggedOneMore(s.log, s.log + [InterestedSent], request, InterestedSent);
  }

  lemma {:induction false} LoggedNothing(log: seq<Action>, a: Action)
    ensures Logged(log, log, a) == 0
  {
    assert log[|log|..] == [];
  }

  lemma {:induction false} LoggedOneMore(before: seq<Action>, after: seq<Action>, b: Action, a: Action)
    requires before <= after
    ensures before <= after + [b]
    ensures Logged(before, after + [b], a) == Logged(before, after, a) + if a == b then 1 else 0
  {
    assert (after + [b])[|before|..] == after[|before|..] + [b];
  }

  // ----- blocks and pieces -----

  /** The payload is a block for the current piece, at the place and of the length that was asked for last. */
  ghost predicate Asked(t: Torrent, s: State, payload: Bytes)
    requires |payload| >= 8
  {
    && s.pending
    && Value32(payload[..4]) == s.index && Value32(payload[4..8]) == |s.received|
    && |payload| - 8 == RequestLength(t, s.index, |s.received|)
  }

  /** A block that was not asked for ends the connection and changes nothing. */
  lemma {:induction false} UnaskedBlockIsRefused(t: Torrent, sha1: Digester, s: State, m: Message, env: Environment)
    requires s.connection.Some? && IsMessage(m) && IsPiece(m) && s.index < t.PieceCount() && !Asked(t, s, m.payload)
    ensures Handle(t, sha1, s, m, env) == Step(s, false)
  {
    hide Value32, RequestLength;
  }

  /** A block that was asked for joins those before it; as long as the piece is not whole nothing is written. */
  lemma {:induction false} AskedBlockIsKept(t: Torrent, sha1: Digester, s: State, m: Message, env: Environment)
    requires s.connection.Some? && IsMessage(m) && IsPiece(m) && s.index < t.PieceCount() && Asked(t, s, m.payload)
    requires |s.received| + |m.payload| - 8 != t.PieceSize(s.index)
    ensures var s' := Handle(t, sha1, s, m, env).state;
            s'.received == s.received + m.payload[8..] && s'.index == s.index && s'.file == s.file
  {
    hide Value32, RequestLength;
  }

  /** A whole piece with the wrong digest is forgotten, and ends the connection. */
  lemma {:induction false} WrongPieceEndsConnection(t: Torrent, sha1: Digester, s: State, m: Message,
      env: Environment)
    requires s.connection.Some? && IsMessage(m) && IsPiece(m) && s.index < t.PieceCount() && Asked(t, s, m.payload)
    requires |s.received| + |m.payload| - 8 == t.PieceSize(s.index)
    requires sha1(s.received + m.payload[8..]) != t.Digest(s.index)
    ensures var step := Handle(t, sha1, s, m, env);
            && !step.active && step.state.index == s.index && step.state.file == s.file
            && step.state.received == [] && !step.state.pending
  {
    hide Value32, RequestLength;
  }

  /** A whole piece with the right digest is counted exactly when it has been sought and written in full. */
  lemma {:induction false} RightPieceIsStored(t: Torrent, sha1: Digester, s: State, m: Message, env: Environment)
    requires t.Consistent() && Inv(t, sha1, s)
    requires s.connection.Some? && IsMessage(m) && IsPiece(m) && s.index < t.PieceCount() && Asked(t, s, m.payload)
    requires |s.received| + |m.payload| - 8 == t.PieceSize(s.index)
    requires sha1(s.received + m.payload[8..]) == t.Digest(s.index)
    ensures var step, piece := Handle(t, sha1, s, m, env), s.received + m.payload[8..];
            && (step.state.index == s.index + 1 <==> env.seekOk && Within(env.write, |piece|) == |piece|)
            && (step.state.index != s.index + 1 ==> !step.active && step.state.index == s.index)
            && (step.state.index == s.index + 1 ==>
                  && t.Boundary(s.index) + |piece| <= |step.state.file|
                  && step.state.file[t.Boundary(s.index)..t.Boundary(s.index) + |piece|] == piece
                  && step.state.received == [])
  {
    hide Value32, RequestLength, Write, Verified;
    t.Sizes(s.index);
    var piece := s.received + m.payload[8..];
    WriteEffect(s.file, t.Boundary(s.index), piece[..Within(env.write, |piece|)]);
    assert piece[..|piece|] == piece;
  }

  // ----- the layout of a torrent -----

  /** The piece table is its digests of 20 bytes, one after the other. */
  lemma {:induction false} DigestTable(t: Torrent, j: nat, k: nat)
    requires j < t.PieceCount() && k < 20
    ensures t.PieceCount() == |t.pieces| / 20
    ensures |t.Digest(j)| == 20 && 20 * j + k < |t.pieces| && t.Digest(j)[k] == t.pieces[20 * j + k]
  {
  }

  /** A request is for 16384 bytes, or for what is left of the piece; the last piece is what is left of the file. */
  lemma {:induction false} RequestsAreOfBlocks(t: Torrent, j: nat, received: nat)
    requires t.Consistent() && j < t.PieceCount()
    ensures t.Boundary(j) == j * t.pieceLength
    ensures t.PieceSize(j) == if j + 1 == t.PieceCount() then t.length - j * t.pieceLength else t.pieceLength
    ensures RequestLength(t, j, received)
            == if t.PieceSize(j) - received < 16384 then t.PieceSize(j) - received else 16384
  {
    t.Sizes(j);
    t.OffsetIsProduct(j);
  }
}
