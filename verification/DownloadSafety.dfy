/**
 What holds of the output file in every reachable state, whatever the peers send
 and however seeks, writes, sends and allocations turn out.
 */
module DownloadSafety {
  import opened ByteStrings
  import opened Faults
  import opened WireFraming
  import opened DownloadProtocol

  /** The first count pieces lie in the file at their places, whole, and with the digests of the piece table. */
  ghost predicate Verified(t: Torrent, sha1: Digester, file: Bytes, count: nat)
    requires count <= t.PieceCount()
  {
    forall j | 0 <= j < count :: PieceVerified(t, sha1, file, j)
  }

  ghost predicate PieceVerified(t: Torrent, sha1: Digester, file: Bytes, j: nat)
    requires j < t.PieceCount()
  {
    && t.Boundary(j) <= t.Boundary(j + 1) <= |file|
    && sha1(file[t.Boundary(j)..t.Boundary(j + 1)]) == t.Digest(j)
  }

  ghost predicate Inv(t: Torrent, sha1: Digester, s: State) {
    && s.index <= t.PieceCount()
    && Verified(t, sha1, s.file, s.index)
    && t.Boundary(s.index) <= |s.file| <= t.Boundary(s.index + 1)
    && |s.received| <= t.PieceSize(s.index)
    && (s.pending ==>
          && s.connection.Some? && s.connection.value.advertised.Some? && s.connection.value.interested
          && |s.received| < t.PieceSize(s.index))
    && (s.connection.None? ==> s.received == [] && !s.pending)
  }

  /** The invariant survives any news from the peer that does not withdraw its pieces. */
  lemma {:induction false} InvOfConnection(t: Torrent, sha1: Digester, s: State, c: Connection, log: seq<Action>)
    requires Inv(t, sha1, s) && s.connection.Some?
    requires s.connection.value.advertised.Some? ==> c.advertised.Some?
    requires s.connection.value.interested ==> c.interested
    ensures Inv(t, sha1, s.(connection := Some(c), log := log))
  {
    hide Verified;
  }

  lemma {:induction false} InvOfRequest(t: Torrent, sha1: Digester, s: State, log: seq<Action>)
    requires Inv(t, sha1, s) && s.connection.Some?
    requires s.connection.value.advertised.Some? && s.connection.value.interested
    requires |s.received| < t.PieceSize(s.index)
    ensures Inv(t, sha1, s.(pending := true, log := log))
  {
    hide Verified;
  }

  /** s' is at s or further, and has left the verified part of the file alone. */
  ghost predicate Extends(t: Torrent, s: State, s': State) {
    && s.index <= s'.index
    && t.Boundary(s.index) <= |s.file| && t.Boundary(s.index) <= |s'.file|
    && s'.file[..t.Boundary(s.index)] == s.file[..t.Boundary(s.index)]
  }

  lemma {:induction false} BoundaryGrows(t: Torrent, i: nat, j: nat)
    requires t.Consistent() && i <= j
    ensures t.Boundary(i) <= t.Boundary(j)
  {
    if j < t.PieceCount() {
      t.OffsetGrows(i, j);
    } else if i < t.PieceCount() {
      t.Sizes(i);
    }
  }

  lemma {:induction false} ExtendsTransitive(t: Torrent, a: State, b: State, c: State)
    requires t.Consistent() && Extends(t, a, b) && Extends(t, b, c)
    ensures Extends(t, a, c)
  {
    BoundaryGrows(t, a.index, b.index);
    var k := t.Boundary(a.index);
    assert c.file[..k] == c.file[..t.Boundary(b.index)][..k] == b.file[..k];
  }

  lemma {:induction false} VerifiedByPrefix(t: Torrent, sha1: Digester, file: Bytes, file': Bytes, count: nat)
    requires t.Consistent() && count <= t.PieceCount() && Verified(t, sha1, file, count)
    requires t.Boundary(count) <= |file| && t.Boundary(count) <= |file'|
    requires file'[..t.Boundary(count)] == file[..t.Boundary(count)]
    ensures Verified(t, sha1, file', count)
  {
    forall j | 0 <= j < count
      ensures PieceVerified(t, sha1, file', j)
    {
      assert PieceVerified(t, sha1, file, j);
      BoundaryGrows(t, j + 1, count);
      var from, to, k := t.Boundary(j), t.Boundary(j + 1), t.Boundary(count);
      assert file'[from..to] == file'[..k][from..to] == file[..k][from..to] == file[from..to];
    }
  }

  lemma {:induction false} WriteEffect(file: Bytes, at: nat, bytes: Bytes)
    requires at <= |file|
    ensures var r := Write(file, at, bytes);
            && |r| == (if |file| < at + |bytes| then at + |bytes| else |file|)
            && r[..at] == file[..at]
            && r[at..at + |bytes|] == bytes
  {
  }

  lemma {:induction false} IntakeKeeps(t: Torrent, sha1: Digester, s: State, m: Message, env: Environment)
    requires t.Consistent() && Inv(t, sha1, s) && s.connection.Some? && IsMessage(m) && m.Message?
    ensures var s' := Intake(t, s, m, env).state;
            Inv(t, sha1, s') && s'.connection.Some? && s'.index == s.index && s'.file == s.file
  {
    hide Verified, AdvertisedBy;
  }

  lemma {:induction false} SettleKeeps(t: Torrent, sha1: Digester, s: State, env: Environment)
    requires t.Consistent() && Inv(t, sha1, s) && s.connection.Some? && s.index < t.PieceCount()
    ensures var step := Settle(t, sha1, s, env);
            && Inv(t, sha1, step.state) && Extends(t, s, step.state)
            && step.state.connection == s.connection && step.state.index <= s.index + 1
            && (step.active ==> step.state.index < t.PieceCount())
            && (step.active ==> |step.state.received| < t.PieceSize(step.state.index))
  {
    hide Write, Verified;
    t.Sizes(s.index);
    var step := Settle(t, sha1, s, env);
    if |s.received| == t.PieceSize(s.index) && sha1(s.received) == t.Digest(s.index) && env.seekOk {
      var written := Within(env.write, |s.received|);
      var at := t.Boundary(s.index);
      WriteEffect(s.file, at, s.received[..written]);
      VerifiedByPrefix(t, sha1, s.file, step.state.file, s.index);
      if written == |s.received| {
        PieceNowVerified(t, sha1, s, step.state.file);
        if s.index + 1 < t.PieceCount() {
          t.Sizes(s.index + 1);
        }
      }
    }
  }

  /** A piece written in full after its digest was checked is verified in the file. */
  lemma {:induction false} PieceNowVerified(t: Torrent, sha1: Digester, s: State, file: Bytes)
    requires t.Consistent() && s.index < t.PieceCount()
    requires |s.received| == t.PieceSize(s.index) && sha1(s.received) == t.Digest(s.index)
    requires Verified(t, sha1, file, s.index)
    requires |file| >= t.Boundary(s.index + 1)
    requires file[t.Boundary(s.index)..t.Boundary(s.index) + |s.received|] == s.received[..|s.received|]
    ensures Verified(t, sha1, file, s.index + 1)
  {
    t.Sizes(s.index);
    assert s.received[..|s.received|] == s.received;
    assert PieceVerified(t, sha1, file, s.index);
  }

  lemma {:induction false} AdvanceKeeps(t: Torrent, sha1: Digester, s: State, env: Environment)
    requires t.Consistent() && Inv(t, sha1, s) && s.connection.Some?
    requires |s.received| < t.PieceSize(s.index)
    ensures var s' := Advance(t, s, env).state;
            Inv(t, sha1, s') && s'.connection.Some? && s'.index == s.index && s'.file == s.file
  {
    hide Verified;
  }

  /** One message: the invariant survives, and at most one piece, verified, is added. */
  lemma {:induction false} HandleKeeps(t: Torrent, sha1: Digester, s: State, m: Message, env: Environment)
    requires t.Consistent() && Inv(t, sha1, s) && s.connection.Some? && IsMessage(m) && s.index < t.PieceCount()
    ensures var step := Handle(t, sha1, s, m, env);
            && Inv(t, sha1, step.state) && Extends(t, s, step.state) && step.state.connection.Some?
            && step.state.index <= s.index + 1
            && (step.active ==> step.state.index < t.PieceCount())
  {
    hide Intake, Settle, Advance, Verified;
    if m.Message? {
      IntakeKeeps(t, sha1, s, m, env);
      var taken := Intake(t, s, m, env);
      if taken.active {
        SettleKeeps(t, sha1, taken.state, env);
        var settled := Settle(t, sha1, taken.state, env);
        if settled.active {
          AdvanceKeeps(t, sha1, settled.state, env);
        }
      }
    }
  }

  lemma {:induction false} ServeKeeps(t: Torrent, sha1: Digester, s: State, ds: seq<Delivery>)
    requires t.Consistent() && Inv(t, sha1, s) && AreMessages(ds)
    ensures Inv(t, sha1, Serve(t, sha1, s, ds)) && Extends(t, s, Serve(t, sha1, s, ds))
    decreases |ds|
  {
    hide Handle, Inv, Extends;
    ExtendsItself(t, sha1, s);
    IndexInRange(t, sha1, s);
    if ds != [] && s.connection.Some? && !Complete(t, s) {
      HandleKeeps(t, sha1, s, ds[0].message, ds[0].env);
      var step := Handle(t, sha1, s, ds[0].message, ds[0].env);
      if step.active {
        ServeKeeps(t, sha1, step.state, ds[1..]);
        ExtendsTransitive(t, s, step.state, Serve(t, sha1, step.state, ds[1..]));
      }
    }
  }

  lemma {:induction false} ExtendsItself(t: Torrent, sha1: Digester, s: State)
    requires Inv(t, sha1, s)
    ensures Extends(t, s, s)
  {
  }

  lemma {:induction false} IndexInRange(t: Torrent, sha1: Digester, s: State)
    requires Inv(t, sha1, s)
    ensures s.index <= t.PieceCount()
  {
  }

  lemma {:induction false} OpenCloseKeep(t: Torrent, sha1: Digester, s: State)
    requires t.Consistent() && Inv(t, sha1, s)
    ensures Inv(t, sha1, Open(s)) || s.connection.Some?
    ensures Inv(t, sha1, Close(s)) && Inv(t, sha1, Reset(s))
    ensures Extends(t, s, Open(s)) && Extends(t, s, Close(s)) && Extends(t, s, Reset(s))
  {
    hide Verified;
    BoundaryGrows(t, s.index, s.index + 1);
  }

  lemma {:induction false} RunSessionKeeps(t: Torrent, sha1: Digester, s: State, session: Session)
    requires t.Consistent() && Inv(t, sha1, s) && s.connection.None? && IsSession(session)
    ensures var s' := RunSession(t, sha1, s, session);
            Inv(t, sha1, s') && Extends(t, s, s') && s'.connection.None?
  {
    hide Inv, Extends, Serve;
    OpenCloseKeep(t, sha1, s);
    match session {
      case Unreachable =>
      case Connected(ds) =>
        ServeKeeps(t, sha1, Open(s), ds);
        var served := Serve(t, sha1, Open(s), ds);
        OpenCloseKeep(t, sha1, served);
        ExtendsTransitive(t, s, Open(s), served);
        ExtendsTransitive(t, s, served, Close(served));
    }
  }

  /** Between connections, from any state of a run to any later one. */
  lemma {:induction false} RunKeeps(t: Torrent, sha1: Digester, s: State, sessions: seq<Session>)
    requires t.Consistent() && Inv(t, sha1, s) && s.connection.None? && AreSessions(sessions)
    ensures var s' := Run(t, sha1, s, sessions);
            Inv(t, sha1, s') && Extends(t, s, s') && s'.connection.None?
    decreases |sessions|
  {
    hide Inv, Extends, RunSession;
    ExtendsItself(t, sha1, s);
    if sessions != [] && !Complete(t, s) {
      assert IsSession(sessions[0]);
      RunSessionKeeps(t, sha1, s, sessions[0]);
      var s1 := RunSession(t, sha1, s, sessions[0]);
      RunKeeps(t, sha1, s1, sessions[1..]);
      ExtendsTransitive(t, s, s1, Run(t, sha1, s1, sessions[1..]));
    }
  }

  lemma {:induction false} InitialInv(t: Torrent, sha1: Digester)
    requires t.Consistent()
    ensures Inv(t, sha1, INITIAL)
  {
    t.Sizes(0);
  }

  /**
   Whole-run file safety: after any peers, messages, dropped connections, digest
   mismatches, failed seeks and short writes, and after any messages ds of a further
   connection, all pieces before the current one are in the file, whole and
   verified, and the file never reaches past the current piece.
   */
  lemma {:induction false} WholeRunSafety(t: Torrent, sha1: Digester, sessions: seq<Session>, ds: seq<Delivery>)
    requires t.Consistent() && AreSessions(sessions) && AreMessages(ds)
    ensures SafeFile(t, sha1, Run(t, sha1, INITIAL, sessions))
    ensures SafeFile(t, sha1, Serve(t, sha1, Open(Run(t, sha1, INITIAL, sessions)), ds))
  {
    hide Serve, Run, Open, Verified;
    InitialInv(t, sha1);
    RunKeeps(t, sha1, INITIAL, sessions);
    var s := Run(t, sha1, INITIAL, sessions);
    OpenCloseKeep(t, sha1, s);
    ServeKeeps(t, sha1, Open(s), ds);
  }

  ghost predicate SafeFile(t: Torrent, sha1: Digester, s: State) {
    && s.index <= t.PieceCount()
    && Verified(t, sha1, s.file, s.index)
    && t.Boundary(s.index) <= |s.file| <= t.Boundary(s.index + 1)
  }

  /** The content whose pieces have the digests of the piece table. */
  ghost predicate IsContent(t: Torrent, sha1: Digester, content: Bytes) {
    |content| == t.length && Verified(t, sha1, content, t.PieceCount())
  }

  /** No other byte string of a piece's size shares that piece's digest. */
  ghost predicate CollisionFree(t: Torrent, sha1: Digester, content: Bytes)
    requires t.Consistent() && IsContent(t, sha1, content)
  {
    forall j, w: Bytes | 0 <= j < t.PieceCount() && |w| == t.PieceSize(j) && sha1(w) == t.Digest(j) ::
      w == PieceOf(t, content, j)
  }

  ghost function PieceOf(t: Torrent, content: Bytes, j: nat): Bytes
    requires t.Consistent() && |content| == t.length && j < t.PieceCount()
  {
    t.Sizes(j);
    content[t.Boundary(j)..t.Boundary(j + 1)]
  }

  /**
   Completion is correct: a run that completes leaves a file of exactly the
   torrent's length with every piece verified; without collisions it is the content,
   whichever peers supplied which pieces.
   */
  lemma {:induction false} CompletionIsCorrect(t: Torrent, sha1: Digester, sessions: seq<Session>, content: Bytes)
    requires t.Consistent() && AreSessions(sessions)
    requires Complete(t, Run(t, sha1, INITIAL, sessions))
    ensures var file := Run(t, sha1, INITIAL, sessions).file;
            && |file| == t.length && Verified(t, sha1, file, t.PieceCount())
            && (IsContent(t, sha1, content) && CollisionFree(t, sha1, content) ==> file == content)
  {
    hide Run, Verified, CollisionFree;
    WholeRunSafety(t, sha1, sessions, []);
    var file := Run(t, sha1, INITIAL, sessions).file;
    if IsContent(t, sha1, content) && CollisionFree(t, sha1, content) {
      SamePieces(t, sha1, file, content, t.PieceCount());
      assert file == file[..t.length] && content == content[..t.length];
    }
  }

  lemma {:induction false} SamePieces(t: Torrent, sha1: Digester, file: Bytes, content: Bytes, count: nat)
    requires t.Consistent() && IsContent(t, sha1, content) && CollisionFree(t, sha1, content)
    requires |file| == t.length && count <= t.PieceCount() && Verified(t, sha1, file, t.PieceCount())
    ensures t.Boundary(count) <= t.length
    ensures file[..t.Boundary(count)] == content[..t.Boundary(count)]
    decreases count
  {
    if count == 0 {
      t.Sizes(0);
    } else {
      var j := count - 1;
      SamePieces(t, sha1, file, content, j);
      t.Sizes(j);
      assert PieceVerified(t, sha1, file, j);
      var from, to := t.Boundary(j), t.Boundary(j + 1);
      assert file[from..to] == PieceOf(t, content, j);
      assert file[..to] == file[..from] + file[from..to];
      assert content[..to] == content[..from] + content[from..to];
    }
  }
}
