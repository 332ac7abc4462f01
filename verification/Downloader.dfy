/**
 The download as the program runs it: a piece buffer with counters, a bitfield of
 bytes, an output file with a position, and the guards against overflow. Abs maps
 this state to the abstract machine; every method does what the machine does,
 for the outcomes of the environment that it returns.
 */
module Downloader {
  import opened ByteStrings
  import opened Faults
  import opened WireFraming
  import opened PeerConnection
  import opened DownloadProtocol
  import opened DownloadSafety
  import opened DownloadProgress
  import opened WireLog
  import opened HostSessions

  class OutputFile {
    var content: Bytes
    var position: nat

    constructor ()
      ensures content == [] && position == 0
    {
      content, position := [], 0;
    }

    /** fseek: may fail, and then changes nothing. */
    method Seek(offset: nat, os: OperatingSystem) returns (ok: bool)
      modifies this, os
      ensures content == old(content)
      ensures position == if ok then offset else old(position)
      ensures os.Faults() <= old(os.Faults()) && (!ok ==> os.Faults() < old(os.Faults()))
    {
      var outcome := os.Ask();
      ok := outcome.Granted?;
      if ok {
        position := offset;
      }
    }

    /** fwrite: some prefix of the bytes, all of them unless something goes wrong, arrives at the position. */
    method WriteOut(bytes: Bytes, os: OperatingSystem) returns (written: nat, ghost outcome: Outcome)
      modifies this, os
      ensures written == Within(outcome, |bytes|)
      ensures content == Write(old(content), old(position), bytes[..written])
      ensures position == old(position) + written
      ensures os.Faults() <= old(os.Faults()) && (!outcome.Granted? ==> os.Faults() < old(os.Faults()))
    {
      var answer := os.Ask();
      outcome := answer;
      written := Within(answer, |bytes|);
      content := Write(content, position, bytes[..written]);
      position := position + written;
    }

    /** fclose: what is still in the stream's buffer is flushed; a failure means that the end of the file is lost. */
    method Close(os: OperatingSystem) returns (ok: bool, disk: Bytes, ghost outcome: Outcome)
      modifies os
      ensures disk == OnDisk(content, outcome)
      ensures ok <==> disk == content
      ensures os.Faults() <= old(os.Faults()) && (!outcome.Granted? ==> os.Faults() < old(os.Faults()))
    {
      var answer := os.Ask();
      outcome := answer;
      disk := OnDisk(content, answer);
      OnDiskExactly(content, answer);
      ok := |disk| == |content|;
    }
  }

  /** What of a file reaches the disk when it is closed. */
  function OnDisk(content: Bytes, outcome: Outcome): Bytes {
    content[..Within(outcome, |content|)]
  }

  lemma {:induction false} OnDiskExactly(content: Bytes, outcome: Outcome)
    ensures OnDisk(content, outcome) <= content
    ensures OnDisk(content, outcome) == content <==> |OnDisk(content, outcome)| == |content|
    ensures OnDisk(content, outcome) == content <==> outcome.Granted? || outcome.most >= |content|
  {
    assert content[..|content|] == content;
  }

  /** A completed download of which nothing is on the disk: every torrent that can be completed can be lost so. */
  lemma {:induction false} CompletedButLost(t: Torrent, sha1: Digester, content: Bytes)
    requires t.Consistent() && FitsWire(t) && IsContent(t, sha1, content)
    ensures exists sessions ::
              && AreSessions(sessions)
              && var s := Run(t, sha1, INITIAL, sessions);
                 Complete(t, s) && OnDisk(s.file, Limited(0)) == [] != s.file
  {
    hide Run, FitsWire, IsContent, CollisionFree, Verified;
    CompletableExactlyWhenItFits(t, sha1, content);
    var sessions :| AreSessions(sessions) && Complete(t, Run(t, sha1, INITIAL, sessions));
    CompletionIsCorrect(t, sha1, sessions, content);
    t.Sizes(t.PieceCount() - 1);
    assert Run(t, sha1, INITIAL, sessions).file != [];
  }

  lemma {:induction false} ProductGrows(k: nat, a: nat, b: nat)
    requires a <= b
    ensures k * a <= k * b
  {
    if k > 0 {
      ProductGrows(k - 1, a, b);
      assert k * a == (k - 1) * a + a && k * b == (k - 1) * b + b;
    }
  }

  lemma {:induction false} NoOverflow(k: nat, size: nat, limit: nat)
    requires k > 0 && k * size <= limit
    ensures size <= limit / k
  {
    var q := limit / k;
    assert limit < k * (q + 1) by {
      assert limit == k * q + limit % k;
    }
    if size > q {
      ProductGrows(k, q + 1, size);
    }
  }

  // ----- offsets, digests and sizes, behind the guards against overflow -----

  /** The entry of the piece table for piece j. */
  function PieceDigest(t: Torrent, j: nat): Option<Bytes> {
    var at := j * DIGEST_LENGTH;
    if at > |t.pieces| - DIGEST_LENGTH then None else Some(t.pieces[at..at + DIGEST_LENGTH])
  }

  /** The file offset of piece j, if it fits size_t and the long of fseek. */
  function PieceOffset(t: Torrent, j: nat): Option<nat> {
    if j != 0 && t.pieceLength > SIZE_MAX / j then None
    else if j * t.pieceLength > INT64_MAX then None
    else Some(j * t.pieceLength)
  }

  /** The size of piece j after a piece of the given size. */
  function NextPieceSize(t: Torrent, j: nat, size: nat): Option<nat>
    requires j < t.PieceCount()
  {
    var last := t.PieceCount() - 1;
    if j != last then Some(size)
    else if last != 0 && t.pieceLength > SIZE_MAX / last then None
    else if t.pieceLength * last > t.length then None
    else Some(t.length - t.pieceLength * last)
  }

  /** With consistent metadata the guards never fire, and what they guard is the layout of the file. */
  lemma {:induction false} GuardsNeverFire(t: Torrent, j: nat)
    requires t.Consistent() && j < t.PieceCount()
    ensures PieceDigest(t, j) == Some(t.Digest(j))
    ensures PieceOffset(t, j) == Some(t.Boundary(j))
    ensures NextPieceSize(t, j, t.pieceLength) == Some(t.PieceSize(j))
  {
    hide PieceOffset, NextPieceSize;
    OffsetGuard(t, j);
    SizeGuard(t, j);
  }

  lemma {:induction false} OffsetGuard(t: Torrent, j: nat)
    requires t.Consistent() && j < t.PieceCount()
    ensures PieceOffset(t, j) == Some(t.Boundary(j))
  {
    var product := j * t.pieceLength;
    t.Sizes(j);
    t.OffsetIsProduct(j);
    assert product == t.Boundary(j) < t.length <= INT64_MAX;
    if j != 0 {
      NoOverflow(j, t.pieceLength, SIZE_MAX);
    }
  }

  lemma {:induction false} SizeGuard(t: Torrent, j: nat)
    requires t.Consistent() && j < t.PieceCount()
    ensures NextPieceSize(t, j, t.pieceLength) == Some(t.PieceSize(j))
  {
    t.Sizes(j);
    if j + 1 == t.PieceCount() {
      t.OffsetIsProduct(j);
      var product := t.pieceLength * j;
      assert product == j * t.pieceLength == t.Boundary(j) < t.length <= INT64_MAX;
      if j != 0 {
        NoOverflow(j, t.pieceLength, SIZE_MAX);
      }
    }
  }

  /** The size set for the next piece is right, and it fits the buffer that held the last one. */
  lemma {:induction false} NextSize(t: Torrent, j: nat)
    requires t.Consistent() && j + 1 < t.PieceCount()
    ensures t.PieceSize(j) >= 0 && 0 <= t.PieceSize(j + 1) <= t.PieceSize(j)
    ensures NextPieceSize(t, j + 1, t.PieceSize(j)) == Some(t.PieceSize(j + 1))
  {
    hide NextPieceSize;
    t.Sizes(j);
    t.Sizes(j + 1);
    SizeGuard(t, j + 1);
  }

  class Download {
    const torrent: Torrent
    const sha1: Digester
    const pieceBuffer: array<Byte>
    const file: OutputFile
    const os: OperatingSystem

    var pieceIndex: nat
    var pieceSize: nat
    var bytesReceived: nat
    var requestPending: bool
    var requestedBegin: nat
    var requestedLength: nat

    var peer: Peer?  // the current connection
    var downloadComplete: bool

    ghost var log: seq<Action>

    ghost function Footprint(): set<object>
      reads this, peer
    {
      {this, pieceBuffer, file, os} + if peer == null then {} else peer.Footprint()
    }

    ghost function Abs(): State
      requires bytesReceived <= pieceBuffer.Length
      reads this, Footprint()
    {
      State(pieceIndex, pieceBuffer[..bytesReceived], requestPending,
            if peer == null then None else Some(peer.View()), file.content, log)
    }

    /** The fields agree with one another and represent a state of the machine that satisfies its invariant. */
    ghost predicate Valid()
      reads this, Footprint()
    {
      && torrent.Consistent()
      && bytesReceived <= pieceBuffer.Length
      && (pieceIndex < torrent.PieceCount() ==>
            pieceSize == torrent.PieceSize(pieceIndex) && pieceSize <= pieceBuffer.Length)
      && (requestPending ==>
            requestedBegin == bytesReceived && requestedLength == RequestLength(torrent, pieceIndex, bytesReceived))
      && (peer != null ==>
            && peer.pieceCount == torrent.PieceCount() && peer.Valid()
            && peer.Footprint() !! {this, pieceBuffer, file, os})
      && (downloadComplete <==> pieceIndex >= torrent.PieceCount())
      && Inv(torrent, sha1, Abs())
    }

    constructor (torrent: Torrent, sha1: Digester, file: OutputFile, os: OperatingSystem)
      requires torrent.Consistent() && file.content == []
      ensures Valid() && Abs() == INITIAL
      ensures this.torrent == torrent && this.sha1 == sha1 && this.file == file && this.os == os
      ensures fresh(Footprint() - {file, os})
    {
      var count := torrent.PieceCount();
      torrent.Sizes(0);
      InitialInv(torrent, sha1);
      var firstSize := if count == 1 then torrent.length else torrent.pieceLength;
      this.torrent, this.sha1, this.file, this.os := torrent, sha1, file, os;
      this.pieceBuffer := new Byte[firstSize](_ => 0);
      pieceIndex, pieceSize, bytesReceived := 0, firstSize, 0;
      requestPending, requestedBegin, requestedLength := false, 0, 0;
      peer, downloadComplete, log := null, false, [];
    }

    method ResetPieceState()
      modifies this`requestPending, this`requestedLength, this`requestedBegin, this`bytesReceived
      ensures !requestPending && requestedLength == 0 && requestedBegin == 0 && bytesReceived == 0
    {
      requestPending := false;
      requestedLength := 0;
      requestedBegin := 0;
      bytesReceived := 0;
    }

    // ----- one message -----

    /** PIECE: copied into the piece buffer if it is exactly the block that was asked for. */
    method ProcessPiece(payload: Bytes) returns (ok: bool)
      requires Valid() && peer != null && |payload| >= 8 && pieceIndex < torrent.PieceCount()
      modifies this`bytesReceived, this`requestPending, this`log, pieceBuffer
      ensures Valid()
      ensures Step(Abs(), ok) == OnPiece(torrent, old(Abs()), payload)
    {
      hide Value32, Verified;
      if !requestPending {
        return false;
      }
      var piece, begin := Value32(payload[..4]), Value32(payload[4..8]);
      var block := payload[8..];
      if piece != pieceIndex || begin != requestedBegin || |block| != requestedLength {
        return false;
      }
      if begin > pieceSize || |block| > pieceSize - begin {
        return false;
      }
      ghost var before := pieceBuffer[..bytesReceived];
      forall k | 0 <= k < |block| {
        pieceBuffer[begin + k] := block[k];
      }
      assert pieceBuffer[..bytesReceived + |block|] == before + block;
      bytesReceived := bytesReceived + |block|;
      requestPending := false;
      log := log + [BlockAccepted(piece, begin, block)];
      return true;
    }

    /** HAVE and BITFIELD: news of the pieces the peer has. */
    method TakeNews(m: Message) returns (ok: bool, ghost granted: bool)
      requires Valid() && peer != null && IsMessage(m) && IsNews(m) && pieceIndex < torrent.PieceCount()
      modifies this`log, peer.Footprint(), os
      ensures Valid() && fresh(Footprint() - old(Footprint()))
      ensures Step(Abs(), ok) == Intake(torrent, old(Abs()), m, Environment(granted, false, Granted, false, false))
      ensures os.Faults() <= old(os.Faults()) && (!granted ==> os.Faults() < old(os.Faults()))
    {
      hide Value32, AdvertisedBy, OnPiece, RequestLength, Inv, FaultsIn, Torrent.PieceCount;
      ghost var news := PeerHas(0);
      if m.id == HAVE {
        ok, granted := peer.UpdateBitfield(m.payload, os);
        news := PeerHas(Value32(m.payload));
      } else {
        ok, granted := peer.ApplyBitfield(m.payload, os);
        if ok {
          news := PeerAdvertises(AdvertisedBy(m.payload, torrent.PieceCount()).value);
        }
      }
      if ok {
        log := log + [news];
      }
      InvOfConnection(torrent, sha1, old(Abs()), Abs().connection.value, log);
    }

    /** The switch over message identifiers. */
    method TakeIn(m: Message) returns (ok: bool, ghost granted: bool)
      requires Valid() && peer != null && IsMessage(m) && m.Message? && pieceIndex < torrent.PieceCount()
      modifies this`bytesReceived, this`requestPending, this`log, pieceBuffer, peer.Footprint(), os
      ensures Valid() && fresh(Footprint() - old(Footprint()))
      ensures Step(Abs(), ok) == Intake(torrent, old(Abs()), m, Environment(granted, false, Granted, false, false))
      ensures os.Faults() <= old(os.Faults()) && (!granted ==> os.Faults() < old(os.Faults()))
    {
      hide Value32, AdvertisedBy, OnPiece, RequestLength, Inv, FaultsIn, Torrent.PieceCount;
      ok, granted := true, true;
      if m.id == PIECE {
        ok := ProcessPiece(m.payload);
        return;
      } else if m.id == HAVE || m.id == BITFIELD {
        ok, granted := TakeNews(m);
        return;
      } else if m.id == CHOKE {
        peer.chokingUs := true;
        log := log + [PeerChokes];
      } else if m.id == UNCHOKE {
        peer.chokingUs := false;
        log := log + [PeerUnchokes];
      } else {
        return;
      }
      InvOfConnection(torrent, sha1, old(Abs()), Abs().connection.value, log);
    }

    /** fseek to the place of the piece and fwrite all of it. */
    method WritePiece() returns (ok: bool, ghost seekOk: bool, ghost write: Outcome)
      requires Valid() && pieceIndex < torrent.PieceCount() && bytesReceived == pieceSize
      modifies file, os
      ensures ok <==> seekOk && Within(write, pieceSize) == pieceSize
      ensures file.content
              == if seekOk
                 then Write(old(file.content), torrent.Boundary(pieceIndex),
                            pieceBuffer[..pieceSize][..Within(write, pieceSize)])
                 else old(file.content)
      ensures os.Faults() <= old(os.Faults()) && (!seekOk || !write.Granted? ==> os.Faults() < old(os.Faults()))
    {
      hide Inv, Write, PieceOffset, RequestLength, FaultsIn, Torrent.PieceSize, Torrent.Boundary;
      GuardsNeverFire(torrent, pieceIndex);
      ok, seekOk, write := false, false, Granted;
      var offset := PieceOffset(torrent, pieceIndex);
      if offset.None? {
        return;
      }
      var sought := file.Seek(offset.value, os);
      seekOk := sought;
      if !sought {
        return;
      }
      var count;
      count, write := file.WriteOut(pieceBuffer[..pieceSize], os);
      return count == pieceSize, true, write;
    }

    /** The piece is written to its place; on success the counters move on, and the size of a last piece is set. */
    method StorePiece() returns (ok: bool, ghost seekOk: bool, ghost write: Outcome)
      requires Valid() && peer != null && pieceIndex < torrent.PieceCount() && bytesReceived == pieceSize
      requires sha1(pieceBuffer[..pieceSize]) == torrent.Digest(pieceIndex)
      modifies this`pieceIndex, this`pieceSize, this`bytesReceived, this`requestPending, this`requestedBegin,
        this`requestedLength, this`downloadComplete, this`log, file, os
      ensures Valid()
      ensures Step(Abs(), ok) == Settle(torrent, sha1, old(Abs()), Environment(false, seekOk, write, false, false))
      ensures os.Faults() <= old(os.Faults()) && (!seekOk || !write.Granted? ==> os.Faults() < old(os.Faults()))
    {
      hide Inv, Write, Extends, PieceOffset, NextPieceSize, RequestLength, FaultsIn, Torrent.PieceSize,
        Torrent.Boundary;
      ghost var s := Abs();
      ok, seekOk, write := WritePiece();
      SettleKeeps(torrent, sha1, s, Environment(false, seekOk, write, false, false));
      if !ok {
        return;
      }
      log := log + [PieceStored(pieceIndex)];
      pieceIndex := pieceIndex + 1;
      ResetPieceState();
      assert pieceBuffer[..0] == [];
      if pieceIndex >= torrent.PieceCount() {
        downloadComplete := true;
        return false, seekOk, write;
      }
      NextSize(torrent, pieceIndex - 1);
      var size := NextPieceSize(torrent, pieceIndex, pieceSize);
      if size.None? {
        return false, seekOk, write;
      }
      pieceSize := size.value;
    }

    /** Once the piece is whole: check its digest, and store it or forget it. */
    method FinishPiece() returns (ok: bool, ghost seekOk: bool, ghost write: Outcome)
      requires Valid() && peer != null && pieceIndex < torrent.PieceCount()
      modifies this`pieceIndex, this`pieceSize, this`bytesReceived, this`requestPending, this`requestedBegin,
        this`requestedLength, this`downloadComplete, this`log, file, os
      ensures Valid()
      ensures Step(Abs(), ok) == Settle(torrent, sha1, old(Abs()), Environment(false, seekOk, write, false, false))
      ensures os.Faults() <= old(os.Faults()) && (!seekOk || !write.Granted? ==> os.Faults() < old(os.Faults()))
    {
      hide Inv, Write, Extends, PieceDigest, FaultsIn;
      if bytesReceived != pieceSize {
        return true, true, Granted;
      }
      ghost var s := Abs();
      GuardsNeverFire(torrent, pieceIndex);
      ok, seekOk, write := false, true, Granted;
      var digest := PieceDigest(torrent, pieceIndex);
      if digest.None? {
        return;
      }
      if sha1(pieceBuffer[..pieceSize]) != digest.value {
        SettleKeeps(torrent, sha1, s, Environment(false, true, Granted, false, false));
        log := log + [PieceRejected(pieceIndex)];
        ResetPieceState();
        assert pieceBuffer[..0] == [];
        return false, true, Granted;
      }
      ok, seekOk, write := StorePiece();
    }

    /** Tells the peer of our interest if that has not been done on this connection. */
    method TellInterest(socket: Socket) returns (ok: bool, ghost tail: Bytes)
      requires Valid() && peer != null && peer.bitfield != null && socket !in Footprint()
      modifies this`log, peer`weAreInterested, socket`departures, socket`outgoing
      ensures Valid()
      ensures var s, c := old(Abs()), old(peer.View());
              Abs() == if ok && !c.interested
                       then Log(s.(connection := Some(c.(interested := true))), InterestedSent) else s
      ensures old(peer.weAreInterested) ==> ok
      ensures old(log) <= log
      ensures ok ==> peer.weAreInterested
      ensures Wired(old(LineOf(socket)), LineOf(socket), old(log), log, tail, ok)
    {
      hide Inv, Wire, RequestLength, Wired, Sending;
      WiredNothing(LineOf(socket), log);
      tail := [];
      if peer.weAreInterested {
        return true, [];
      }
      WireOfInterest();
      ok, tail := SendInterested(socket);
      WiredMessage(old(LineOf(socket)), LineOf(socket), log, InterestedSent, INTERESTED_MESSAGE, ok, tail);
      if !ok {
        return;
      }
      peer.weAreInterested := true;
      log := log + [InterestedSent];
      InvOfConnection(torrent, sha1, old(Abs()), Abs().connection.value, log);
    }

    /** Requests the next block, unless choked or still waiting for the last one. */
    method AskForBlock(socket: Socket) returns (ok: bool, ghost requestSent: bool, ghost tail: Bytes)
      requires Valid() && peer != null && peer.bitfield != null && pieceIndex < torrent.PieceCount()
      requires peer.weAreInterested && bytesReceived < pieceSize && socket !in Footprint()
      modifies this`requestPending, this`requestedBegin, this`requestedLength, this`log,
        socket`departures, socket`outgoing
      ensures Valid()
      ensures var s := old(Abs());
              Step(Abs(), ok)
              == if peer.chokingUs || s.pending then Step(s, true)
                 else if s.index > UINT32_MAX || |s.received| > UINT32_MAX || !requestSent then Step(s, false)
                 else
                   var length := RequestLength(torrent, s.index, |s.received|);
                   Step(Log(s.(pending := true), RequestSent(s.index, |s.received|, length)), true)
      ensures old(log) <= log
      ensures Wired(old(LineOf(socket)), LineOf(socket), old(log), log, tail, requestSent)
      ensures ok ==> requestSent
    {
      hide Inv, Wire, RequestMessage, Encode, Wired, Sending;
      requestSent, tail := true, [];
      ghost var s := Abs();
      WiredNothing(LineOf(socket), log);
      if peer.chokingUs || requestPending {
        return true, true, [];
      }
      var remaining := pieceSize - bytesReceived;
      var begin := bytesReceived;
      var length := BLOCK_SIZE;
      if remaining < BLOCK_SIZE {
        length := remaining;
      }
      if pieceIndex > UINT32_MAX || bytesReceived > UINT32_MAX {
        return false, true, [];
      }
      ghost var action, m := RequestSent(pieceIndex, begin, length), RequestMessage(pieceIndex, begin, length);
      WireOfRequest(pieceIndex, begin, length);
      ok, tail := SendRequest(socket, pieceIndex, begin, length);
      WiredMessage(old(LineOf(socket)), LineOf(socket), log, action, m, ok, tail);
      requestSent := ok;
      if !ok {
        return;
      }
      requestPending := true;
      requestedLength := length;
      requestedBegin := begin;
      log := log + [action];
      InvOfRequest(torrent, sha1, s, log);
    }

    /** With a peer that has the piece: tell it of our interest once, and request the next block if allowed to. */
    method RequestNext(socket: Socket)
      returns (ok: bool, ghost interestedSent: bool, ghost requestSent: bool, ghost tail: Bytes)
      requires Valid() && peer != null && pieceIndex < torrent.PieceCount() && bytesReceived < pieceSize
      requires socket !in Footprint()
      modifies this`requestPending, this`requestedBegin, this`requestedLength, this`log, peer`weAreInterested,
        socket`departures, socket`outgoing
      ensures Valid()
      ensures Step(Abs(), ok)
              == Advance(torrent, old(Abs()), Environment(false, false, Granted, interestedSent, requestSent))
      ensures old(log) <= log
      ensures Wired(old(LineOf(socket)), LineOf(socket), old(log), log, tail, interestedSent && requestSent)
      ensures ok ==> interestedSent && requestSent
    {
      hide Inv, Wired, RequestLength;
      ok, interestedSent, requestSent, tail := true, true, true, [];
      WiredNothing(LineOf(socket), log);
      if peer.bitfield == null {
        return;
      }
      var lacks := peer.Lacks(pieceIndex);
      if lacks {
        return false, true, true, [];
      }
      var told;
      told, tail := TellInterest(socket);
      interestedSent := told;
      if !told {
        return false, false, true, tail;
      }
      NoTail(old(LineOf(socket)), LineOf(socket), old(log), log, tail);
      ghost var log1, line1 := log, LineOf(socket);
      ok, requestSent, tail := AskForBlock(socket);
      WiredInParts(old(LineOf(socket)), line1, LineOf(socket), old(log), log1, log, tail, requestSent);
    }

    /**
     One round of the message loop. What was sent is what the log says was sent, and
     after a send that failed the beginning of one message; without a fault on our
     side all outcomes were good.
     */
    method HandleMessage(m: Message, socket: Socket)
      returns (active: bool, ghost env: Environment, ghost tail: Bytes)
      requires Valid() && peer != null && IsMessage(m) && pieceIndex < torrent.PieceCount() && socket !in Footprint()
      modifies Footprint(), socket`departures, socket`outgoing
      ensures Valid() && peer == old(peer) && fresh(Footprint() - old(Footprint()))
      ensures Step(Abs(), active) == Handle(torrent, sha1, old(Abs()), m, env)
      ensures Wired(old(LineOf(socket)), LineOf(socket), old(log), log, tail, env.interestedSent && env.requestSent)
      ensures active ==> env.interestedSent && env.requestSent
      ensures os.Faults() <= old(os.Faults())
      ensures os.Faults() == old(os.Faults()) ==> env.bitfieldAllocated && env.seekOk && env.write.Granted?
    {
      hide Intake, Settle, Advance, Inv, WireAll, RequestLength, Extends, Wired, FaultsIn;
      ghost var s, line := Abs(), LineOf(socket);
      env, tail := FINE, [];
      WiredNothing(line, log);
      if m.KeepAlive? {
        return true, env, [];
      }
      ghost var granted, seekOk, write, interestedSent, requestSent;
      active, granted := TakeIn(m);
      env := env.(bitfieldAllocated := granted);
      PhasesReadTheirOwn(torrent, sha1, s, m, env, Environment(granted, false, Granted, false, false));
      IntakeKeeps(torrent, sha1, s, m, env);
      IntakeIsSilent(torrent, s, m, env);
      WiredSilently(line, s.log, log);
      if !active {
        return;
      }
      ghost var s1 := Abs();
      active, seekOk, write := FinishPiece();
      env := env.(seekOk := seekOk, write := write);
      PhasesReadTheirOwn(torrent, sha1, s1, m, env, Environment(false, seekOk, write, false, false));
      PhasesReadTheirOwn(torrent, sha1, s, m, env, Environment(granted, false, Granted, false, false));
      SettleKeeps(torrent, sha1, s1, env);
      SettleIsSilent(torrent, sha1, s1, env);
      WiredSilently(line, s1.log, log);
      WiredInParts(line, line, line, s.log, s1.log, log, [], true);
      if !active {
        return;
      }
      ghost var s2 := Abs();
      active, interestedSent, requestSent, tail := RequestNext(socket);
      env := env.(interestedSent := interestedSent, requestSent := requestSent);
      PhasesReadTheirOwn(torrent, sha1, s, m, env, Environment(granted, false, Granted, false, false));
      PhasesReadTheirOwn(torrent, sha1, s1, m, env, Environment(false, seekOk, write, false, false));
      PhasesReadTheirOwn(torrent, sha1, s2, m, env, Environment(false, false, Granted, interestedSent, requestSent));
      WiredInParts(line, line, LineOf(socket), s.log, s2.log, log, tail, interestedSent && requestSent);
    }

    // ----- connections -----

    method OpenConnection()
      requires Valid() && peer == null
      modifies this`peer, this`log
      ensures Valid() && peer != null && fresh(peer.Footprint())
      ensures Abs() == Open(old(Abs()))
    {
      hide Verified, RequestLength;
      peer := new Peer(torrent.PieceCount());
      log := log + [Opened];
    }

    method CloseConnection()
      requires Valid() && peer != null
      modifies this`peer, this`log, this`requestPending, this`requestedLength, this`requestedBegin, this`bytesReceived
      ensures Valid() && peer == null
      ensures Abs() == Close(old(Abs()))
    {
      hide Inv;
      ghost var s := Abs();
      OpenCloseKeep(torrent, sha1, s);
      peer := null;
      ResetPieceState();
      log := log + [Closed];
      assert pieceBuffer[..0] == [];
    }

    /**
     The message loop of one connection. It takes the messages the byte stream
     decodes to, in order, until one of them ends the connection or none is left,
     and sends what its log says, message after message.
     */
    method ServeConnection(socket: Socket) returns (ghost ds: seq<Delivery>, ghost tail: Bytes)
      requires Valid() && peer != null && pieceIndex < torrent.PieceCount() && socket !in Footprint()
      modifies Footprint(), socket
      ensures Valid() && peer == old(peer) && fresh(Footprint() - old(Footprint()))
      ensures AreMessages(ds) && Abs() == Serve(torrent, sha1, old(Abs()), ds)
      ensures Messages(ds) <= DecodeAll(old(socket.incoming)) && EndsAtMostOnce(torrent, sha1, old(Abs()), ds)
      ensures os.Faults() == old(os.Faults()) && AllActive(torrent, sha1, old(Abs()), ds) ==>
                Messages(ds) == DecodeAll(old(socket.incoming))
      ensures Wired(old(LineOf(socket)), LineOf(socket), old(log), log, tail, AllSent(ds))
      ensures os.Faults() <= old(os.Faults()) && (os.Faults() == old(os.Faults()) ==> AllGranted(ds))
    {
      hide Handle, Inv, RequestLength, DecodeAll, Decode, Serve, AllActive, WireAll, Extends, Wired, EndsAtMostOnce,
        FaultsIn, AllGranted, AllSent, AreMessages, Messages, Verified, Taken, Torrent.PieceSize, Torrent.Digest;
      ghost var s, stream, line := Abs(), socket.incoming, LineOf(socket);
      ds, tail := [], [];
      var active := true;
      TakenNothing(torrent, sha1, s, stream);
      WiredNothing(line, log);
      NoOutcomes();
      while active
        invariant Valid() && peer == old(peer) && fresh(Footprint() - old(Footprint())) && socket !in Footprint()
        invariant peer != null && (active ==> pieceIndex < torrent.PieceCount())
        invariant Taken(torrent, sha1, s, ds, Abs(), active, stream, socket.incoming)
        invariant Wired(line, LineOf(socket), old(log), log, tail, AllSent(ds)) && (active ==> AllSent(ds))
        invariant os.Faults() <= old(os.Faults()) && (os.Faults() == old(os.Faults()) ==> AllGranted(ds))
        decreases |socket.incoming|, active
      {
        ghost var before, log1, line1 := socket.incoming, log, LineOf(socket);
        var received := ReceiveMessage(socket, os);
        if received.None? {
          TakenMeans(torrent, sha1, s, ds, Abs(), active, stream, before);
          return;
        }
        DecodedIsEncoded(before);
        HandleKeeps(torrent, sha1, Abs(), received.value, FINE);
        ghost var now := Abs();
        ghost var env;
        NoTail(line, line1, old(log), log1, tail);
        active, env, tail := HandleMessage(received.value, socket);
        HandleKeeps(torrent, sha1, now, received.value, env);
        WiredInParts(line, line1, LineOf(socket), old(log), log1, log, tail, env.interestedSent && env.requestSent);
        ghost var d := Delivery(received.value, env);
        TakenOneMore(torrent, sha1, s, ds, now, stream, before, d, socket.incoming);
        OneMoreOutcome(ds, d);
        ds := ds + [d];
      }
      TakenMeans(torrent, sha1, s, ds, Abs(), active, stream, socket.incoming);
    }

    /** The loop over the peers of the tracker's list. */
    method RunPeers(hosts: seq<Host>)
      returns (sent: seq<Bytes>, ghost sessions: seq<Session>, ghost clean: seq<bool>)
      requires Valid() && peer == null
      modifies Footprint()
      ensures Valid() && peer == null
      ensures RunsOver(torrent, sha1, old(Abs()), hosts, sessions, clean, sent)
      ensures Abs() == Run(torrent, sha1, old(Abs()), sessions)
      ensures os.Faults() + Unclean(clean) <= old(os.Faults())
    {
      hide Inv, Run, RunSession, Verified, Matches, FaultsIn, RunsSoFar, Unclean, Torrent.PieceSize;
      sent, sessions, clean := [], [], [];
      ghost var s := Abs();
      NoHostYet(torrent, sha1, s, hosts);
      var i := 0;
      while i < |hosts|
        invariant 0 <= i == |sessions| <= |hosts|
        invariant Valid() && peer == null && fresh(Footprint() - old(Footprint()))
        invariant RunsSoFar(torrent, sha1, s, hosts, sessions, clean, sent)
        invariant AreSessions(sessions) && Abs() == Run(torrent, sha1, s, sessions)
        invariant os.Faults() + Unclean(clean) <= old(os.Faults())
      {
        if downloadComplete {
          break;
        }
        var bytes;
        ghost var session, isClean;
        bytes, session, isClean := TryHost(hosts[i]);
        OneHostMore(torrent, sha1, s, hosts, sessions, clean, sent, session, isClean, bytes);
        sent, sessions, clean := sent + [bytes], sessions + [session], clean + [isClean];
        i := i + 1;
      }
    }

    /** One peer of the list: connect and shake hands if possible, and serve the connection until it ends. */
    method TryHost(host: Host) returns (sent: Bytes, ghost session: Session, ghost clean: bool)
      requires Valid() && peer == null && !downloadComplete
      modifies Footprint()
      ensures Valid() && peer == null && fresh(Footprint() - old(Footprint()))
      ensures IsSession(session) && Matches(torrent, sha1, old(Abs()), session, host, clean, sent)
      ensures Abs() == RunSession(torrent, sha1, old(Abs()), session)
      ensures os.Faults() <= old(os.Faults()) && (clean <==> os.Faults() == old(os.Faults()))
    {
      hide Inv, Serve, DecodeAll, FaultsIn, AllActive, AllSent, AllGranted, Wired, Accounts, EndsAtMostOnce;
      ghost var s := Abs();
      OpenCloseKeep(torrent, sha1, s);
      match host {
        case NoConnection =>
          ResetPieceState();
          assert pieceBuffer[..0] == [];
          return [], Unreachable, true;
        case Accepts(stream, arrivals, ending, departures) =>
          var socket := new Socket(stream, arrivals, ending, departures);
          OpenConnection();
          ghost var log0 := log;
          ghost var ds, tail := ServeConnection(socket);
          AccountsForLine(Line([], departures), LineOf(socket), log0, log, tail, AllSent(ds));
          CloseConnection();
          return socket.outgoing, Connected(ds), os.Faults() == old(os.Faults());
      }
    }
  }

  /**
   A download from an empty file over a list of peers. It succeeds only with a file
   of the right length whose pieces all have their digests, and without collisions
   that file is the content. If the first peer cooperates and nothing goes wrong on
   our side, it does succeed. What is on the disk in the end depends on how fclose turns
   out, at which the program does not look.
   */
  method DownloadTorrent(torrent: Torrent, sha1: Digester, hosts: seq<Host>, os: OperatingSystem,
      ghost content: Bytes)
    returns (complete: bool, file: Bytes, disk: Bytes, sent: seq<Bytes>, ghost closing: Outcome)
    requires torrent.Consistent()
    modifies os
    ensures complete ==> |file| == torrent.length && Verified(torrent, sha1, file, torrent.PieceCount())
    ensures complete && IsContent(torrent, sha1, content) && CollisionFree(torrent, sha1, content) ==> file == content
    ensures exists sessions, clean ::
              && RunsOver(torrent, sha1, INITIAL, hosts, sessions, clean, sent)
              && os.Faults() + Unclean(clean) <= old(os.Faults())
              && file == Run(torrent, sha1, INITIAL, sessions).file
              && (complete <==> Complete(torrent, Run(torrent, sha1, INITIAL, sessions)))
    ensures
      && old(os.Faults()) == 0 && FitsWire(torrent) && IsContent(torrent, sha1, content) && hosts != []
      && CooperativeHost(torrent, sha1, content, Open(INITIAL), hosts[0])
      ==> complete
    ensures disk == OnDisk(file, closing) && (old(os.Faults()) == 0 ==> closing.Granted?)
    ensures disk == file <==> closing.Granted? || closing.most >= |file|
    ensures os.Faults() <= old(os.Faults())
  {
    hide Run, Verified, Inv, CollisionFree, IsContent, Matches, CooperativeHost, FitsWire, FaultsIn, OnDisk;
    var output := new OutputFile();
    var download := new Download(torrent, sha1, output, os);
    ghost var sessions, clean;
    sent, sessions, clean := download.RunPeers(hosts);
    if download.downloadComplete {
      CompletionIsCorrect(torrent, sha1, sessions, content);
    }
    if old(os.Faults()) == 0 && FitsWire(torrent) && IsContent(torrent, sha1, content) && hosts != []
       && CooperativeHost(torrent, sha1, content, Open(INITIAL), hosts[0]) {
      NoSessions(torrent, sha1);
      NoneUnclean(clean);
      assert sessions[..0] == [];
      CooperativeHostCompletes(torrent, sha1, content, hosts, sessions, clean, sent, 0);
    }
    complete, file := download.downloadComplete, output.content;
    var ignored;
    ignored, disk, closing := output.Close(os);
    OnDiskExactly(file, closing);
  }

  lemma {:induction false} NoSessions(t: Torrent, sha1: Digester)
    ensures Run(t, sha1, INITIAL, []) == INITIAL
  {
  }
}
