/**
 From byte streams to sessions of the machine: what a peer's stream and the way it
 is delivered say about the messages a connection takes, and what a cooperative
 stream therefore brings about.
 */
module HostSessions {
  import opened ByteStrings
  import opened WireFraming
  import opened DownloadProtocol
  import opened DownloadSafety
  import opened DownloadProgress
  import opened WireLog

  // A peer of the list: no connection or no handshake, or the bytes that arrive from it afterwards, in what
  // portions, how they end, and what becomes of what is sent to it.
  datatype Host =
    | NoConnection
    | Accepts(stream: Bytes, arrivals: seq<Arrival>, ending: Ending, departures: seq<Tick>)

  ghost function Messages(ds: seq<Delivery>): seq<Message> {
    if ds == [] then [] else Messages(ds[..|ds| - 1]) + [ds[|ds| - 1].message]
  }

  /** The allocations, seeks and writes of these steps were granted. */
  ghost predicate AllGranted(ds: seq<Delivery>) {
    forall i | 0 <= i < |ds| ::
      ds[i].env.bitfieldAllocated && ds[i].env.seekOk && ds[i].env.write.Granted?
  }

  /** Whatever these steps sent was sent in full. */
  ghost predicate AllSent(ds: seq<Delivery>) {
    forall i | 0 <= i < |ds| :: ds[i].env.interestedSent && ds[i].env.requestSent
  }

  lemma {:induction false} NoOutcomes()
    ensures AllGranted([]) && AllSent([]) && AreMessages([]) && Messages([]) == []
  {
  }

  lemma {:induction false} OneMoreOutcome(ds: seq<Delivery>, d: Delivery)
    ensures AllGranted(ds + [d]) <==>
            AllGranted(ds) && d.env.bitfieldAllocated && d.env.seekOk && d.env.write.Granted?
    ensures AllSent(ds + [d]) <==> AllSent(ds) && d.env.interestedSent && d.env.requestSent
    ensures AreMessages(ds + [d]) <==> AreMessages(ds) && IsMessage(d.message)
    ensures Messages(ds + [d]) == Messages(ds) + [d.message]
  {
    var all := ds + [d];
    assert all[|ds|] == d && all[..|ds|] == ds;
    assert forall i | 0 <= i < |ds| :: all[i] == ds[i];
  }

  /** No message of ds ends the connection. */
  ghost predicate AllActive(t: Torrent, sha1: Digester, s: State, ds: seq<Delivery>)
    requires AreMessages(ds)
    decreases |ds|
  {
    ds == [] ||
    (&& s.connection.Some? && !Complete(t, s)
     && var step := Handle(t, sha1, s, ds[0].message, ds[0].env);
        step.active && AllActive(t, sha1, step.state, ds[1..]))
  }

  /** The bytes sent are those of the actions logged; a last message may be cut off, once a send call is due to fail. */
  ghost predicate Accounts(sent: Bytes, departures: seq<Tick>, log0: seq<Action>, log: seq<Action>, ok: bool) {
    && log0 <= log
    && exists tail ::
         && IsCut(tail) && sent == WireAll(log[|log0|..]) + tail
         && if ok then tail == [] else Blocked(departures, |sent|)
  }

  lemma {:induction false} AccountsForLine(from: Line, to: Line, log0: seq<Action>, log: seq<Action>, tail: Bytes,
      ok: bool)
    requires Wired(from, to, log0, log, tail, ok) && from.sent == []
    ensures Accounts(to.sent, from.departures, log0, log, ok)
  {
    hide WireAll, IsCut;
    assert [] + WireAll(log[|log0|..]) + tail == WireAll(log[|log0|..]) + tail;
  }

  /** Only the last of the messages may have ended the connection, or have met with a send that failed. */
  ghost predicate EndsAtMostOnce(t: Torrent, sha1: Digester, s: State, ds: seq<Delivery>)
    requires AreMessages(ds)
  {
    && (ds != [] ==> AllActive(t, sha1, s, ds[..|ds| - 1]) && AllSent(ds[..|ds| - 1]))
    && (AllActive(t, sha1, s, ds) ==> AllSent(ds))
  }

  /**
   The session with a host, from state s: the messages taken are the first ones its
   stream decodes to, and what was sent to it is what the log says. All messages are
   taken unless one ended the connection. A send fails only when a send call was due
   to; clean means that no allocation, seek or write failed.
   */
  ghost predicate Matches(t: Torrent, sha1: Digester, s: State, session: Session, host: Host, clean: bool,
      sent: Bytes)
  {
    match host
    case NoConnection => session == Unreachable && sent == []
    case Accepts(stream, arrivals, ending, departures) =>
      && session.Connected? && AreMessages(session.deliveries)
      && var ds := session.deliveries;
         && Messages(ds) <= DecodeAll(stream)
         && EndsAtMostOnce(t, sha1, Open(s), ds)
         && (clean ==> AllGranted(ds))
         && (clean && AllActive(t, sha1, Open(s), ds) ==> Messages(ds) == DecodeAll(stream))
         && Accounts(sent, departures, Open(s).log, Serve(t, sha1, Open(s), ds).log, AllSent(ds))
  }

  /** The sessions of a run over the first hosts, one after the other, and what each of these was sent. */
  ghost predicate RunsSoFar(t: Torrent, sha1: Digester, s: State, hosts: seq<Host>, sessions: seq<Session>,
      clean: seq<bool>, sent: seq<Bytes>)
  {
    && AreSessions(sessions) && |clean| == |sent| == |sessions| <= |hosts|
    && forall i | 0 <= i < |sessions| ::
         Matches(t, sha1, Run(t, sha1, s, sessions[..i]), sessions[i], hosts[i], clean[i], sent[i])
  }

  /** A run over the hosts, tried in order until the download is complete. */
  ghost predicate RunsOver(t: Torrent, sha1: Digester, s: State, hosts: seq<Host>, sessions: seq<Session>,
      clean: seq<bool>, sent: seq<Bytes>)
  {
    && RunsSoFar(t, sha1, s, hosts, sessions, clean, sent)
    && (|sessions| < |hosts| ==> Complete(t, Run(t, sha1, s, sessions)))
  }

  lemma {:induction false} NoHostYet(t: Torrent, sha1: Digester, s: State, hosts: seq<Host>)
    ensures RunsSoFar(t, sha1, s, hosts, [], [], []) && Run(t, sha1, s, []) == s && Unclean([]) == 0
  {
  }

  lemma {:induction false} OneHostMore(t: Torrent, sha1: Digester, s: State, hosts: seq<Host>, sessions: seq<Session>,
      clean: seq<bool>, sent: seq<Bytes>, session: Session, isClean: bool, bytes: Bytes)
    requires RunsSoFar(t, sha1, s, hosts, sessions, clean, sent) && |sessions| < |hosts|
    requires IsSession(session) && !Complete(t, Run(t, sha1, s, sessions))
    requires Matches(t, sha1, Run(t, sha1, s, sessions), session, hosts[|sessions|], isClean, bytes)
    ensures RunsSoFar(t, sha1, s, hosts, sessions + [session], clean + [isClean], sent + [bytes])
    ensures Run(t, sha1, s, sessions + [session]) == RunSession(t, sha1, Run(t, sha1, s, sessions), session)
    ensures Unclean(clean + [isClean]) == Unclean(clean) + if isClean then 0 else 1
  {
    hide Matches, Run, RunSession;
    RunOneMore(t, sha1, s, sessions, session);
    assert (clean + [isClean])[..|clean|] == clean;
    var all := sessions + [session];
    forall i | 0 <= i < |all|
      ensures Matches(t, sha1, Run(t, sha1, s, all[..i]), all[i], hosts[i], (clean + [isClean])[i], (sent + [bytes])[i])
    {
      assert all[..i] == sessions[..i];
      if i == |sessions| {
        assert sessions[..i] == sessions;
      }
    }
  }

  /** How many sessions were not clean. */
  ghost function Unclean(clean: seq<bool>): nat {
    if clean == [] then 0 else Unclean(clean[..|clean| - 1]) + if clean[|clean| - 1] then 0 else 1
  }

  lemma {:induction false} NoneUnclean(clean: seq<bool>)
    requires Unclean(clean) == 0
    ensures forall i | 0 <= i < |clean| :: clean[i]
  {
    if clean != [] {
      NoneUnclean(clean[..|clean| - 1]);
    }
  }

  lemma {:induction false} NothingServed(t: Torrent, sha1: Digester, s: State)
    ensures Serve(t, sha1, s, []) == s && AllActive(t, sha1, s, [])
  {
  }

  lemma {:induction false} ServeOneMore(t: Torrent, sha1: Digester, s: State, ds: seq<Delivery>, d: Delivery)
    requires AreMessages(ds) && IsMessage(d.message) && AllActive(t, sha1, s, ds)
    requires var now := Serve(t, sha1, s, ds); now.connection.Some? && !Complete(t, now)
    ensures var step := Handle(t, sha1, Serve(t, sha1, s, ds), d.message, d.env);
            && Serve(t, sha1, s, ds + [d]) == step.state
            && (AllActive(t, sha1, s, ds + [d]) <==> step.active)
    decreases |ds|
  {
    hide Handle;
    var all := ds + [d];
    if ds == [] {
      assert all[0] == d && all[1..] == [];
    } else {
      assert all[0] == ds[0] && all[1..] == ds[1..] + [d];
      ServeOneMore(t, sha1, Handle(t, sha1, s, ds[0].message, ds[0].env).state, ds[1..], d);
    }
  }

  lemma {:induction false} RunOneMore(t: Torrent, sha1: Digester, s: State, sessions: seq<Session>, session: Session)
    requires AreSessions(sessions) && IsSession(session)
    ensures var now := Run(t, sha1, s, sessions);
            Run(t, sha1, s, sessions + [session]) == if Complete(t, now) then now else RunSession(t, sha1, now, session)
    decreases |sessions|
  {
    hide RunSession;
    var all := sessions + [session];
    if sessions == [] {
      assert all[0] == session && all[1..] == [];
    } else if !Complete(t, s) {
      assert all[0] == sessions[0] && all[1..] == sessions[1..] + [session];
      RunOneMore(t, sha1, RunSession(t, sha1, s, sessions[0]), sessions[1..], session);
    }
  }

  lemma {:induction false} NothingDecoded(stream: Bytes)
    requires Decode(stream).Undecodable?
    ensures DecodeAll(stream) == []
  {
  }

  /**
   The messages ds, taken from the front of stream, have brought the machine from s to
   now and left rest to be read; active says that none of them ended the connection.
   */
  ghost predicate Taken(t: Torrent, sha1: Digester, s: State, ds: seq<Delivery>, now: State, active: bool,
      stream: Bytes, rest: Bytes)
  {
    && AreMessages(ds) && now == Serve(t, sha1, s, ds) && (active <==> AllActive(t, sha1, s, ds))
    && EndsAtMostOnce(t, sha1, s, ds)
    && DecodeAll(stream) == Messages(ds) + DecodeAll(rest)
  }

  lemma {:induction false} TakenNothing(t: Torrent, sha1: Digester, s: State, stream: Bytes)
    ensures Taken(t, sha1, s, [], s, true, stream, stream)
  {
    hide Serve, AllActive, DecodeAll;
    NothingServed(t, sha1, s);
    NoOutcomes();
    assert DecodeAll(stream) == [] + DecodeAll(stream);
  }

  lemma {:induction false} TakenOneMore(t: Torrent, sha1: Digester, s: State, ds: seq<Delivery>, now: State,
      stream: Bytes, before: Bytes, d: Delivery, rest: Bytes)
    requires Taken(t, sha1, s, ds, now, true, stream, before) && Decode(before) == Decoded(d.message, rest)
    requires now.connection.Some? && !Complete(t, now) && IsMessage(d.message)
    requires Handle(t, sha1, now, d.message, d.env).active ==> d.env.interestedSent && d.env.requestSent
    ensures var step := Handle(t, sha1, now, d.message, d.env);
            Taken(t, sha1, s, ds + [d], step.state, step.active, stream, rest)
  {
    hide Serve, AllActive, DecodeAll, Messages, AreMessages, Handle, Decode, AllSent;
    DecodeStep(before);
    OneMoreOutcome(ds, d);
    assert (ds + [d])[..|ds|] == ds;
    ServeOneMore(t, sha1, s, ds, d);
    assert Messages(ds) + ([d.message] + DecodeAll(rest)) == Messages(ds + [d]) + DecodeAll(rest);
  }

  lemma {:induction false} TakenMeans(t: Torrent, sha1: Digester, s: State, ds: seq<Delivery>, now: State,
      active: bool, stream: Bytes, rest: Bytes)
    requires Taken(t, sha1, s, ds, now, active, stream, rest)
    ensures AreMessages(ds) && now == Serve(t, sha1, s, ds) && (active <==> AllActive(t, sha1, s, ds))
    ensures EndsAtMostOnce(t, sha1, s, ds) && Messages(ds) <= DecodeAll(stream)
    ensures Decode(rest).Undecodable? ==> Messages(ds) == DecodeAll(stream)
  {
    hide Serve, AllActive, DecodeAll, Messages, AreMessages, Decode;
    if Decode(rest).Undecodable? {
      NothingDecoded(rest);
    }
  }

  // ----- a host that cooperates -----

  /** Messages that meet with good outcomes only. */
  ghost function Fine(ms: seq<Message>): (ds: seq<Delivery>)
    requires forall m | m in ms :: IsMessage(m)
    ensures AreMessages(ds) && |ds| == |ms|
    ensures forall i | 0 <= i < |ds| :: ds[i] == Delivery(ms[i], FINE)
  {
    seq(|ms|, i requires 0 <= i < |ms| => Delivery(ms[i], FINE))
  }

  /**
   A stream that decodes to cooperative messages with all the blocks that are missing
   in s, from a peer that can be sent our interest and a request for each of them.
   */
  ghost predicate CooperativeHost(t: Torrent, sha1: Digester, content: Bytes, s: State, host: Host)
    requires s.connection.Some?
  {
    && host.Accepts? && Carries(host.departures, Budget(t, s))
    && (StreamIsMessagesAndLeftover(host.stream);
        var ds := Fine(DecodeAll(host.stream));
        Cooperates(t, sha1, content, s, ds) && PiecesIn(ds) >= Remaining(t, s))
  }

  lemma {:induction false} FineExactly(ds: seq<Delivery>, ms: seq<Message>)
    requires AllGranted(ds) && AllSent(ds) && Messages(ds) <= ms && forall m | m in ms :: IsMessage(m)
    ensures |ds| <= |ms| && ds == Fine(ms)[..|ds|]
    decreases |ds|
  {
    if ds != [] {
      var front, last := ds[..|ds| - 1], ds[|ds| - 1];
      assert Messages(front) <= Messages(ds);
      FineExactly(front, ms);
      MessagesLength(ds);
      assert Messages(ds)[|ds| - 1] == last.message == ms[|ds| - 1];
      assert last == Fine(ms)[|ds| - 1];
      assert ds == front + [last];
    }
  }

  lemma {:induction false} MessagesLength(ds: seq<Delivery>)
    ensures |Messages(ds)| == |ds|
    decreases |ds|
  {
    if ds != [] {
      MessagesLength(ds[..|ds| - 1]);
    }
  }

  /** As long as an honest peer's messages keep the connection, the download is on track and within its budget. */
  lemma {:induction false} ActivePrefix(t: Torrent, sha1: Digester, content: Bytes, s: State,
      ds: seq<Delivery>, k: nat)
    requires OnTrack(t, sha1, content, s) && AreMessages(ds) && Obliges(t, sha1, content, s, ds)
    requires k <= |ds| && AllActive(t, sha1, s, ds[..k])
    ensures var now := Serve(t, sha1, s, ds[..k]);
            && OnTrack(t, sha1, content, now) && Obliges(t, sha1, content, now, ds[k..])
            && Serve(t, sha1, s, ds) == Serve(t, sha1, now, ds[k..])
            && s.log <= now.log && s.connection.Some? && now.connection.Some?
            && |WireAll(now.log[|s.log|..])| == Budget(t, s) - Budget(t, now)
    decreases k
  {
    hide Handle, OnTrack, Honest, Budget, WireAll, Remaining;
    OnTrackNow(t, sha1, content, s);
    if k == 0 {
      assert ds[..0] == [] && ds[0..] == ds && s.log[|s.log|..] == [];
      NothingOnTheWire();
    } else {
      assert ds[..k][0] == ds[0] && ds[..k][1..] == ds[1..][..k - 1] && ds[k..] == ds[1..][k - 1..];
      StepPays(t, sha1, content, s, ds[0].message, FINE);
      StepOnTrack(t, sha1, content, s, ds[0].message);
      var s1 := Handle(t, sha1, s, ds[0].message, FINE).state;
      ActivePrefix(t, sha1, content, s1, ds[1..], k - 1);
      WireInParts(s.log, s1.log, Serve(t, sha1, s1, ds[1..][..k - 1]).log);
    }
  }

  lemma {:induction false} StepOnTrack(t: Torrent, sha1: Digester, content: Bytes, s: State, m: Message)
    requires OnTrack(t, sha1, content, s) && IsMessage(m) && Honest(t, content, s, m)
    ensures Handle(t, sha1, s, m, FINE).active ==> OnTrack(t, sha1, content, Handle(t, sha1, s, m, FINE).state)
  {
    hide Handle, Underway, Honest, MayHaveCurrent, Remaining;
    OnTrackNow(t, sha1, content, s);
    HonestStep(t, sha1, content, s, m);
  }

  lemma {:induction false} ServeNext(t: Torrent, sha1: Digester, s: State, ds: seq<Delivery>)
    requires AreMessages(ds) && ds != [] && s.connection.Some? && !Complete(t, s)
    ensures var step := Handle(t, sha1, s, ds[0].message, ds[0].env);
            !step.active || |ds| == 1 ==> Serve(t, sha1, s, ds) == step.state
  {
    hide Handle;
  }

  lemma {:induction false} NextHonest(t: Torrent, sha1: Digester, content: Bytes, s: State, ds: seq<Delivery>)
    requires AreMessages(ds) && Obliges(t, sha1, content, s, ds) && ds != [] && !Complete(t, s)
    ensures s.connection.Some? && ds[0].env == FINE && Honest(t, content, s, ds[0].message)
  {
    hide Honest;
  }

  lemma {:induction false} GoodEnvironment(ds: seq<Delivery>, d: Delivery)
    requires AllGranted(ds + [d])
    ensures AllGranted(ds) && d.env.bitfieldAllocated && d.env.seekOk && d.env.write.Granted?
    ensures AllSent(ds + [d]) ==> d.env == FINE
  {
    OneMoreOutcome(ds, d);
  }

  /** What of a last step that differs from the undisturbed one was sent lies within the budget. */
  lemma {:induction false} WithinBudget(t: Torrent, s: State, now: State, last: State, sent: Bytes,
      departures: seq<Tick>)
    requires s.connection.Some? && now.connection.Some? && s.log <= now.log <= last.log
    requires |WireAll(now.log[|s.log|..])| == Budget(t, s) - Budget(t, now)
    requires |WireAll(last.log[|now.log|..])| + REQUEST_MESSAGE_LENGTH <= Budget(t, now)
    requires Accounts(sent, departures, s.log, last.log, false)
    ensures !Carries(departures, Budget(t, s))
  {
    hide WireAll, Budget, IsCut, Stalls, GoodTicks;
    var tail :| IsCut(tail) && sent == WireAll(last.log[|s.log|..]) + tail && Blocked(departures, |sent|);
    CutIsShort(tail);
    WireInParts(s.log, now.log, last.log);
  }

  /**
   The session with an honest host: if nothing goes wrong on our side and what there is
   to send can be sent, its outcome is that of its whole stream, undisturbed.
   */
  lemma {:induction false} HonestSession(t: Torrent, sha1: Digester, content: Bytes, s: State,
      ds: seq<Delivery>, host: Host, sent: Bytes)
    requires OnTrack(t, sha1, content, Open(s))
    requires host.Accepts? && Carries(host.departures, Budget(t, Open(s)))
    requires Matches(t, sha1, s, Connected(ds), host, true, sent)
    requires forall m | m in DecodeAll(host.stream) :: IsMessage(m)
    requires Obliges(t, sha1, content, Open(s), Fine(DecodeAll(host.stream)))
    ensures AreMessages(ds)
    ensures Serve(t, sha1, Open(s), ds) == Serve(t, sha1, Open(s), Fine(DecodeAll(host.stream)))
  {
    hide Handle, OnTrack, Open, AllActive, Remaining, DecodeAll, Carries, AllGranted, AllSent, Honest, Obliges, Serve,
      Messages, Budget, WireAll, Accounts;
    OnTrackNow(t, sha1, content, Open(s));
    var s0, all := Open(s), Fine(DecodeAll(host.stream));
    if ds == [] {
      NothingServed(t, sha1, s0);
      MessagesLength(ds);
      assert ds == all;
      return;
    }
    var k, d := |ds| - 1, ds[|ds| - 1];
    var front := ds[..k];
    assert ds == front + [d];
    GoodEnvironment(front, d);
    OneMoreOutcome(front, d);
    FineExactly(front, DecodeAll(host.stream));
    MessagesLength(ds);
    assert all[k].message == d.message;
    ActivePrefix(t, sha1, content, s0, all, k);
    var now := Serve(t, sha1, s0, front);
    OnTrackNow(t, sha1, content, now);
    ServeOneMore(t, sha1, s0, front, d);
    NextHonest(t, sha1, content, now, all[k..]);
    StepPays(t, sha1, content, now, d.message, d.env);
    var step, fine := Handle(t, sha1, now, d.message, d.env), Handle(t, sha1, now, d.message, FINE);
    ServeNext(t, sha1, now, all[k..]);
    if step != fine {
      WithinBudget(t, s0, now, step.state, sent, host.departures);
    }
  }

  /** The session with a cooperative host completes the download when nothing goes wrong on our side. */
  lemma {:induction false} CooperativeSession(t: Torrent, sha1: Digester, content: Bytes, s: State,
      session: Session, host: Host, sent: Bytes)
    requires OnTrack(t, sha1, content, Open(s))
    requires CooperativeHost(t, sha1, content, Open(s), host)
    requires Matches(t, sha1, s, session, host, true, sent)
    ensures IsSession(session) && Complete(t, RunSession(t, sha1, s, session))
  {
    hide OnTrack, Open, Cooperates, Obliges, AllActive, Remaining, PiecesIn, DecodeAll, Carries, AllGranted, AllSent,
      Budget, Accounts, Serve;
    OnTrackNow(t, sha1, content, Open(s));
    StreamIsMessagesAndLeftover(host.stream);
    var all := Fine(DecodeAll(host.stream));
    CooperationObliges(t, sha1, content, Open(s), all);
    HonestSession(t, sha1, content, s, session.deliveries, host, sent);
    CooperativePeerCompletes(t, sha1, content, Open(s), all);
  }

  /** What is complete after the first sessions stays as it is. */
  lemma {:induction false} CompleteStays(t: Torrent, sha1: Digester, s: State, sessions: seq<Session>, k: nat)
    requires AreSessions(sessions) && k <= |sessions| && Complete(t, Run(t, sha1, s, sessions[..k]))
    ensures Run(t, sha1, s, sessions) == Run(t, sha1, s, sessions[..k])
    decreases |sessions| - k
  {
    hide Run, RunSession;
    if k == |sessions| {
      assert sessions[..k] == sessions;
    } else {
      assert sessions[..k + 1] == sessions[..k] + [sessions[k]];
      RunOneMore(t, sha1, s, sessions[..k], sessions[k]);
      CompleteStays(t, sha1, s, sessions, k + 1);
    }
  }

  /**
   End to end: a run over any hosts completes if one of them, at the piece the run
   has reached when its turn comes, delivers a cooperative stream with all missing
   blocks, and nothing goes wrong on our side.
   */
  lemma {:induction false} CooperativeHostCompletes(t: Torrent, sha1: Digester, content: Bytes, hosts: seq<Host>,
      sessions: seq<Session>, clean: seq<bool>, sent: seq<Bytes>, i: nat)
    requires t.Consistent() && FitsWire(t) && IsContent(t, sha1, content)
    requires RunsOver(t, sha1, INITIAL, hosts, sessions, clean, sent) && i < |hosts|
    requires i < |sessions| ==>
               clean[i] && CooperativeHost(t, sha1, content, Open(Run(t, sha1, INITIAL, sessions[..i])), hosts[i])
    ensures Complete(t, Run(t, sha1, INITIAL, sessions))
  {
    hide Run, RunSession, Matches, CooperativeHost, OnTrack, FitsWire, IsContent, Inv, Open;
    if i < |sessions| {
      var s := Run(t, sha1, INITIAL, sessions[..i]);
      if Complete(t, s) {
        CompleteStays(t, sha1, INITIAL, sessions, i);
      } else {
        InitialInv(t, sha1);
        RunKeeps(t, sha1, INITIAL, sessions[..i]);
        NewConnectionOnTrack(t, sha1, content, s);
        assert Matches(t, sha1, s, sessions[i], hosts[i], true, sent[i]);
        CooperativeSession(t, sha1, content, s, sessions[i], hosts[i], sent[i]);
        RunOneMore(t, sha1, INITIAL, sessions[..i], sessions[i]);
        assert sessions[..i] + [sessions[i]] == sessions[..i + 1];
        CompleteStays(t, sha1, INITIAL, sessions, i + 1);
      }
    }
  }
}
