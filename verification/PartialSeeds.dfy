/**
 Peers that have only some of the pieces. Each carries the download up to the first
 piece it lacks and is then dropped; several of them complete it exactly when their
 sets cover the pieces in the order in which the peers are tried.
 */
module PartialSeeds {
  import opened ByteStrings
  import opened WireFraming
  import opened PieceBitfield
  import opened DownloadProtocol
  import opened DownloadSafety
  import opened DownloadProgress
  import opened WireLog
  import opened HostSessions

  // ----- one peer -----

  /** Honest messages that announce exactly the pieces A, whenever they announce any. */
  ghost predicate Seeds(t: Torrent, sha1: Digester, content: Bytes, A: set<nat>, s: State, ds: seq<Delivery>)
    requires AreMessages(ds)
    decreases |ds|
  {
    ds == [] || Complete(t, s) ||
    (&& s.connection.Some? && ds[0].env == FINE && Honest(t, content, s, ds[0].message)
     && (IsNews(ds[0].message) ==> Announced(t, s.connection.value, ds[0].message) == Some(A))
     && var step := Handle(t, sha1, s, ds[0].message, FINE);
        step.active ==> Seeds(t, sha1, content, A, step.state, ds[1..]))
  }

  /** The first piece from j on that is not in A; the number of pieces if there is none. */
  ghost function FirstGap(t: Torrent, A: set<nat>, j: nat): nat
    decreases t.PieceCount() - j
  {
    if j >= t.PieceCount() || j !in A then j else FirstGap(t, A, j + 1)
  }

  ghost predicate Knows(s: State, A: set<nat>) {
    s.connection.Some? && (s.connection.value.advertised.Some? ==> s.connection.value.advertised.value == A)
  }

  lemma {:induction false} GapIsFirst(t: Torrent, A: set<nat>, j: nat)
    ensures FirstGap(t, A, j) >= j && (j <= t.PieceCount() ==> FirstGap(t, A, j) <= t.PieceCount())
    ensures forall i | j <= i < FirstGap(t, A, j) :: i in A && i < t.PieceCount()
    ensures FirstGap(t, A, j) < t.PieceCount() ==> FirstGap(t, A, j) !in A
    decreases t.PieceCount() - j
  {
    if j < t.PieceCount() && j in A {
      GapIsFirst(t, A, j + 1);
    }
  }

  lemma {:induction false} FewerFurtherOn(t: Torrent, i: nat, j: nat)
    requires i <= j
    ensures BlocksFrom(t, j) <= BlocksFrom(t, i)
    decreases j - i
  {
    if i < j {
      FewerFurtherOn(t, i + 1, j);
    }
  }

  lemma {:induction false} FewerOfPiece(size: int, received: nat)
    ensures BlocksIn(size - received) <= BlocksIn(size)
  {
  }

  /** The blocks needed to get from s to the end of the pieces before e, none if the gap is here. */
  ghost function BlocksTo(t: Torrent, s: State, e: nat): int {
    Remaining(t, s) - BlocksFrom(t, e)
  }

  lemma {:induction false} BlocksAhead(t: Torrent, sha1: Digester, content: Bytes, s: State, e: nat)
    requires Underway(t, sha1, content, s) && s.index <= e
    ensures BlocksTo(t, s, e) > 0 <==> s.index < e
  {
    hide Inv, IsContent, FitsWire, BlocksIn;
    if s.index < e {
      FewerFurtherOn(t, s.index + 1, e);
      OneBlockLess(t, s.index, |s.received|);
    } else {
      FewerOfPiece(t.PieceSize(s.index), |s.received|);
    }
  }

  /** One message: the machine reaches the gap and is through with the peer, or goes on towards it. */
  lemma {:induction false} SeedStep(t: Torrent, sha1: Digester, content: Bytes, A: set<nat>, s: State, m: Message)
    requires OnTrack(t, sha1, content, s) && Knows(s, A) && IsMessage(m) && Honest(t, content, s, m)
    requires IsNews(m) ==> Announced(t, s.connection.value, m) == Some(A)
    ensures var step, e := Handle(t, sha1, s, m, FINE), FirstGap(t, A, s.index);
            && s.index <= step.state.index <= e && FirstGap(t, A, step.state.index) == e
            && Remaining(t, step.state) == Remaining(t, s) - (if IsPiece(m) then 1 else 0)
            && (step.active ==> OnTrack(t, sha1, content, step.state) && Knows(step.state, A))
            && (!step.active ==> step.state.index == e && BlocksTo(t, step.state, e) <= 0)
  {
    hide Handle, Underway, Honest, Remaining, BlocksFrom, Announced;
    OnTrackNow(t, sha1, content, s);
    HonestStep(t, sha1, content, s, m);
    PendingKnows(t, sha1, content, s);
    GapIsFirst(t, A, s.index);
    var step := Handle(t, sha1, s, m, FINE);
    var e := FirstGap(t, A, s.index);
    if !Complete(t, step.state) {
      UnderwayNow(t, sha1, content, step.state);
      BlocksAhead(t, sha1, content, step.state, step.state.index);
    }
  }

  /**
   From any point on track a peer that announces exactly A carries the download to the
   first piece it lacks, or to the end, exactly when it sends all blocks up to there,
   and no further; with fewer the connection is up and on track.
   */
  lemma {:induction false} SeedStopsAtFirstGap(t: Torrent, sha1: Digester, content: Bytes, A: set<nat>, s: State,
      ds: seq<Delivery>)
    requires OnTrack(t, sha1, content, s) && Knows(s, A)
    requires AreMessages(ds) && Seeds(t, sha1, content, A, s, ds)
    ensures var s', e := Serve(t, sha1, s, ds), FirstGap(t, A, s.index);
            && s'.index <= e
            && (s'.index == e <==> PiecesIn(ds) >= BlocksTo(t, s, e))
            && (s'.index < e ==>
                  OnTrack(t, sha1, content, s') && BlocksTo(t, s', e) == BlocksTo(t, s, e) - PiecesIn(ds))
    decreases |ds|
  {
    hide Handle, Underway, MayHaveCurrent, Honest, Remaining, FirstGap, Announced, Knows;
    OnTrackNow(t, sha1, content, s);
    GapIsFirst(t, A, s.index);
    BlocksAhead(t, sha1, content, s, FirstGap(t, A, s.index));
    if ds != [] {
      SeedStep(t, sha1, content, A, s, ds[0].message);
      var step := Handle(t, sha1, s, ds[0].message, FINE);
      if step.active {
        SeedStopsAtFirstGap(t, sha1, content, A, step.state, ds[1..]);
      }
    }
  }

  lemma {:induction false} SeedsOblige(t: Torrent, sha1: Digester, content: Bytes, A: set<nat>, s: State,
      ds: seq<Delivery>)
    requires AreMessages(ds) && Seeds(t, sha1, content, A, s, ds)
    ensures Obliges(t, sha1, content, s, ds)
    decreases |ds|
  {
    hide Handle, Honest;
    if ds != [] && !Complete(t, s) {
      var step := Handle(t, sha1, s, ds[0].message, FINE);
      if step.active {
        SeedsOblige(t, sha1, content, A, step.state, ds[1..]);
      }
    }
  }

  /**
   A host that has the pieces A and, in state s, sends all blocks up to the first one it
   lacks, to whom our messages can be sent; an unreachable one has none.
   */
  ghost predicate SeedHost(t: Torrent, sha1: Digester, content: Bytes, A: set<nat>, s: State, host: Host)
    requires s.connection.Some?
  {
    match host
    case NoConnection => A == {}
    case Accepts(stream, _, _, departures) =>
      && Carries(departures, Budget(t, s))
      && (StreamIsMessagesAndLeftover(stream);
          var ds := Fine(DecodeAll(stream));
          && Seeds(t, sha1, content, A, s, ds)
          && PiecesIn(ds) >= BlocksTo(t, s, FirstGap(t, A, s.index)))
  }

  /** A session with such a host ends at the first piece it lacks. */
  lemma {:induction false} SeedSession(t: Torrent, sha1: Digester, content: Bytes, A: set<nat>, s: State,
      session: Session, host: Host, sent: Bytes)
    requires OnTrack(t, sha1, content, Open(s)) && SeedHost(t, sha1, content, A, Open(s), host)
    requires Matches(t, sha1, s, session, host, true, sent)
    ensures IsSession(session) && RunSession(t, sha1, s, session).index == FirstGap(t, A, s.index)
  {
    hide OnTrack, Seeds, Obliges, AllActive, Remaining, PiecesIn, DecodeAll, Carries, AllGranted, AllSent, Budget,
      Accounts, Serve, BlocksFrom;
    if host.Accepts? {
      StreamIsMessagesAndLeftover(host.stream);
      var all := Fine(DecodeAll(host.stream));
      SeedsOblige(t, sha1, content, A, Open(s), all);
      HonestSession(t, sha1, content, s, session.deliveries, host, sent);
      SeedStopsAtFirstGap(t, sha1, content, A, Open(s), all);
    }
  }

  /** The set A as news. */
  lemma {:induction false} NewsOf(t: Torrent, A: set<nat>, c: Connection) returns (m: Message)
    requires (forall i | i in A :: i < t.PieceCount()) && t.PieceCount() <= 8 * MAX_PAYLOAD_LENGTH
    requires c.advertised.None?
    ensures IsMessage(m) && IsNews(m) && Announced(t, c, m) == Some(A)
  {
    hide PieceSet, SpareBitsClear;
    var bits := BitfieldOf(A, t.PieceCount());
    var payload := PayloadOf(bits);
    m := Message(BITFIELD, payload);
  }

  /** A seed exists for every set of pieces that a bitfield can announce, from every point on track. */
  lemma {:induction false} SomePeerSeeds(t: Torrent, sha1: Digester, content: Bytes, A: set<nat>, s: State)
    returns (ds: seq<Delivery>)
    requires OnTrack(t, sha1, content, s) && Knows(s, A)
    requires (forall i | i in A :: i < t.PieceCount()) && t.PieceCount() <= 8 * MAX_PAYLOAD_LENGTH
    ensures AreMessages(ds) && Seeds(t, sha1, content, A, s, ds)
    ensures PiecesIn(ds) >= BlocksTo(t, s, FirstGap(t, A, s.index))
    decreases Remaining(t, s), if s.connection.value.advertised.None? then 2 else if !s.pending then 1 else 0
  {
    hide Handle, Underway, MayHaveCurrent, Honest, Remaining, FirstGap, Announced, BlocksFrom;
    OnTrackNow(t, sha1, content, s);
    var m := UNCHOKED.message;
    if s.connection.value.advertised.None? {
      m := NewsOf(t, A, s.connection.value);
    } else if s.pending {
      m := HonestBlock(t, sha1, content, s);
    }
    SimplyHonest(t, content, s, m);
    if !IsPiece(m) {
      NewsStep(t, sha1, content, s, m);
    }
    SeedStep(t, sha1, content, A, s, m);
    var step := Handle(t, sha1, s, m, FINE);
    var rest: seq<Delivery> := [];
    if step.active {
      rest := SomePeerSeeds(t, sha1, content, A, step.state);
    }
    ds := [Delivery(m, FINE)] + rest;
  }

  lemma {:induction false} SimplyHonest(t: Torrent, content: Bytes, s: State, m: Message)
    requires IsMessage(m) && s.connection.Some?
    ensures !IsPiece(m) && (IsNews(m) ==> Announced(t, s.connection.value, m).Some?) ==> Honest(t, content, s, m)
  {
  }

  // ----- several peers -----

  /** Where peers with these sets of pieces bring the download, one after the other. */
  ghost function Reach(t: Torrent, As: seq<set<nat>>): nat
    decreases |As|
  {
    if As == [] then 0 else FirstGap(t, As[|As| - 1], Reach(t, As[..|As| - 1]))
  }

  /** The pieces from one cut to the next are all in the set between them. */
  ghost predicate Cuts(t: Torrent, As: seq<set<nat>>, cuts: seq<nat>) {
    && |cuts| == |As| + 1 && cuts[0] == 0
    && forall i | 0 <= i < |As| :: cuts[i] <= cuts[i + 1] && forall j | cuts[i] <= j < cuts[i + 1] :: j in As[i]
  }

  /** The sets cover the pieces in order: the first so many are in the first set, the next in the second, and so on. */
  ghost predicate CoverInOrder(t: Torrent, As: seq<set<nat>>) {
    exists cuts :: Cuts(t, As, cuts) && cuts[|As|] == t.PieceCount()
  }

  lemma {:induction false} ReachInRange(t: Torrent, As: seq<set<nat>>)
    ensures Reach(t, As) <= t.PieceCount()
    decreases |As|
  {
    hide FirstGap;
    if As != [] {
      ReachInRange(t, As[..|As| - 1]);
      GapIsFirst(t, As[|As| - 1], Reach(t, As[..|As| - 1]));
    }
  }

  /** No division of the pieces among the peers gets further than taking from each as much as possible. */
  lemma {:induction false} ReachIsFurthest(t: Torrent, As: seq<set<nat>>, cuts: seq<nat>, k: nat)
    requires Cuts(t, As, cuts) && k <= |As| && cuts[k] <= t.PieceCount()
    ensures cuts[k] <= Reach(t, As[..k])
    decreases k
  {
    hide FirstGap;
    if k > 0 {
      assert cuts[k - 1] <= cuts[k];
      ReachIsFurthest(t, As, cuts, k - 1);
      assert As[..k][..k - 1] == As[..k - 1];
      var from := Reach(t, As[..k - 1]);
      GapIsFirst(t, As[k - 1], from);
    }
  }

  lemma {:induction false} ReachHasCuts(t: Torrent, As: seq<set<nat>>) returns (cuts: seq<nat>)
    ensures Cuts(t, As, cuts) && cuts[|As|] == Reach(t, As)
    decreases |As|
  {
    hide FirstGap;
    if As == [] {
      cuts := [0];
    } else {
      var k := |As| - 1;
      var front := ReachHasCuts(t, As[..k]);
      GapIsFirst(t, As[k], Reach(t, As[..k]));
      cuts := front + [Reach(t, As)];
      forall i | 0 <= i < |As|
        ensures cuts[i] <= cuts[i + 1] && forall j | cuts[i] <= j < cuts[i + 1] :: j in As[i]
      {
        if i < k {
          assert As[..k][i] == As[i];
        }
      }
    }
  }

  /** Peer after peer, the pieces are all reached exactly when the sets cover them in order. */
  lemma {:induction false} ReachesAllExactly(t: Torrent, As: seq<set<nat>>)
    ensures Reach(t, As) == t.PieceCount() <==> CoverInOrder(t, As)
  {
    hide Reach;
    ReachInRange(t, As);
    assert As[..|As|] == As;
    if CoverInOrder(t, As) {
      var cuts :| Cuts(t, As, cuts) && cuts[|As|] == t.PieceCount();
      ReachIsFurthest(t, As, cuts, |As|);
    }
    var furthest := ReachHasCuts(t, As);
  }

  lemma {:induction false} ReachStays(t: Torrent, As: seq<set<nat>>, k: nat)
    requires k <= |As| && Reach(t, As[..k]) == t.PieceCount()
    ensures Reach(t, As) == t.PieceCount()
    decreases |As| - k
  {
    if k == |As| {
      assert As[..k] == As;
    } else {
      assert As[..k + 1][..k] == As[..k];
      ReachStays(t, As, k + 1);
    }
  }

  /** The first k hosts are seeds, each in the state in which its turn comes, and nothing went wrong on our side. */
  ghost predicate AllSeed(t: Torrent, sha1: Digester, content: Bytes, As: seq<set<nat>>, hosts: seq<Host>,
      sessions: seq<Session>, clean: seq<bool>)
    requires AreSessions(sessions) && |sessions| <= |hosts| == |As| && |clean| == |sessions|
  {
    forall i | 0 <= i < |sessions| ::
      clean[i] && SeedHost(t, sha1, content, As[i], Open(Run(t, sha1, INITIAL, sessions[..i])), hosts[i])
  }

  lemma {:induction false} RunReaches(t: Torrent, sha1: Digester, content: Bytes, As: seq<set<nat>>,
      hosts: seq<Host>, sessions: seq<Session>, clean: seq<bool>, sent: seq<Bytes>, k: nat)
    requires t.Consistent() && FitsWire(t) && IsContent(t, sha1, content)
    requires RunsOver(t, sha1, INITIAL, hosts, sessions, clean, sent) && |As| == |hosts|
    requires AllSeed(t, sha1, content, As, hosts, sessions, clean) && k <= |sessions|
    ensures Run(t, sha1, INITIAL, sessions[..k]).index == Reach(t, As[..k])
    decreases k
  {
    hide Run, RunSession, Matches, SeedHost, OnTrack, FitsWire, IsContent, Inv, Open, FirstGap;
    if k == 0 {
      NothingRun(t, sha1);
      assert sessions[..0] == [];
    } else {
      var i := k - 1;
      RunReaches(t, sha1, content, As, hosts, sessions, clean, sent, i);
      var s := Run(t, sha1, INITIAL, sessions[..i]);
      assert sessions[..k] == sessions[..i] + [sessions[i]] && As[..k][..i] == As[..i];
      RunOneMore(t, sha1, INITIAL, sessions[..i], sessions[i]);
      InitialInv(t, sha1);
      RunKeeps(t, sha1, INITIAL, sessions[..i]);
      if Complete(t, s) {
        NoGapAtTheEnd(t, As[i], s.index);
      } else {
        NewConnectionOnTrack(t, sha1, content, s);
        assert Matches(t, sha1, s, sessions[i], hosts[i], clean[i], sent[i]);
        SeedSession(t, sha1, content, As[i], s, sessions[i], hosts[i], sent[i]);
      }
    }
  }

  lemma {:induction false} NothingRun(t: Torrent, sha1: Digester)
    ensures Run(t, sha1, INITIAL, []).index == 0
  {
  }

  lemma {:induction false} NoGapAtTheEnd(t: Torrent, A: set<nat>, j: nat)
    requires j >= t.PieceCount()
    ensures FirstGap(t, A, j) == j
  {
  }

  /**
   A run over partial seeds, with nothing going wrong on our side, completes if and only
   if their sets cover the pieces in the order in which they are tried.
   */
  lemma {:induction false} SeedsCompleteExactlyWhenTheyCover(t: Torrent, sha1: Digester, content: Bytes,
      As: seq<set<nat>>, hosts: seq<Host>, sessions: seq<Session>, clean: seq<bool>, sent: seq<Bytes>)
    requires t.Consistent() && FitsWire(t) && IsContent(t, sha1, content)
    requires RunsOver(t, sha1, INITIAL, hosts, sessions, clean, sent) && |As| == |hosts|
    requires AllSeed(t, sha1, content, As, hosts, sessions, clean)
    ensures Complete(t, Run(t, sha1, INITIAL, sessions)) <==> CoverInOrder(t, As)
  {
    hide Run, Matches, AllSeed, FitsWire, IsContent, Inv, Reach, CoverInOrder;
    var k := |sessions|;
    RunReaches(t, sha1, content, As, hosts, sessions, clean, sent, k);
    assert sessions[..k] == sessions;
    ReachesAllExactly(t, As);
    ReachInRange(t, As[..k]);
    if Complete(t, Run(t, sha1, INITIAL, sessions)) {
      ReachStays(t, As, k);
    } else {
      assert As[..k] == As;
    }
  }
}
