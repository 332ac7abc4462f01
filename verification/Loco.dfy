/**
 The program from the bytes of the torrent file to the bytes on the disk. The
 tracker's answer in between is given as the list of peers.
 */
module Loco {
  import opened ByteStrings
  import opened BencodeGrammar
  import opened BencodeObject
  import opened Faults
  import opened Heap
  import opened TorrentMetadata
  import opened DownloadProtocol
  import opened DownloadSafety
  import opened DownloadProgress
  import opened HostSessions
  import opened Downloader

  /** The torrent an info dictionary describes. */
  ghost function TorrentIn(info: Term): Torrent
    requires IsInfo(info)
  {
    Torrent(Get(info, PIECES, StringKind).value.content,
            Get(info, PIECE_LENGTH, IntegerKind).value.n, Get(info, LENGTH, IntegerKind).value.n)
  }

  /** What the program takes out of the extracted metadata. */
  function TorrentOf(data: Bytes, i: TorrentInfo): Torrent
    requires i.pieces.offset + i.pieces.length <= |data| && i.pieceLength >= 0 && i.length >= 0
  {
    Torrent(SegmentBytes(data, i.pieces), i.pieceLength, i.length)
  }

  /** As many pieces as the length calls for. */
  ghost predicate LengthsAgree(t: Torrent) {
    var n := t.PieceCount();
    n >= 1 && (n - 1) * t.pieceLength < t.length <= n * t.pieceLength
  }

  /** What is looked up in a well-formed dictionary is well formed. */
  lemma {:induction false} GetIsWellFormed(t: Term, key: Bytes, kind: Kind)
    requires WellFormed(t) && Get(t, key, kind).Some?
    ensures WellFormed(Get(t, key, kind).value)
  {
    hide DictMap, Ascending;
    var i := DictMapKey(t.entries, key);
    DictMapAt(t.entries, i);
    assert WellFormedEntry(t.entries[i]);
  }

  /**
   The record of a parsed torrent yields the torrent of its info dictionary, and of
   what a download assumes only the agreement of the lengths is left to check.
   */
  lemma {:induction false} TorrentOfInfo(data: Bytes, i: TorrentInfo, info: Term)
    requires |data| <= SIZE_MAX && WellFormed(info) && IsInfo(info) && DescribesInfo(data, i, info)
    ensures TorrentOf(data, i) == TorrentIn(info)
    ensures TorrentIn(info).Consistent() <==> LengthsAgree(TorrentIn(info))
  {
    hide Get, WellFormed;
    GetIsWellFormed(info, LENGTH, IntegerKind);
    GetIsWellFormed(info, PIECE_LENGTH, IntegerKind);
    var t := TorrentIn(info);
    FitsInt64(Get(info, LENGTH, IntegerKind).value);
    FitsInt64(Get(info, PIECE_LENGTH, IntegerKind).value);
    if t.PieceCount() >= 1 {
      t.OffsetIsProduct(t.PieceCount());
      t.OffsetIsProduct(t.PieceCount() - 1);
    }
  }

  lemma {:induction false} FitsInt64(t: Term)
    requires WellFormed(t) && t.Int?
    ensures t.n <= INT64_MAX
  {
  }

  /** The torrent of a file that begins with one. */
  ghost function TorrentFrom(t: Term): Torrent
    requires IsTorrent(t)
  {
    TorrentIn(Get(t, INFO, DictionaryKind).value)
  }

  /** A torrent in the file, if there is one, has no pieces or as many as its length calls for. */
  ghost predicate SoundFile(data: Bytes) {
    forall t | HoldsTorrent(data, t) :: TorrentFrom(t).PieceCount() == 0 || LengthsAgree(TorrentFrom(t))
  }

  /** The file that a finished download has produced. */
  ghost predicate Delivered(t: Torrent, sha1: Digester, content: Bytes, file: Bytes) {
    && t.Consistent() && |file| == t.length && Verified(t, sha1, file, t.PieceCount())
    && (IsContent(t, sha1, content) && CollisionFree(t, sha1, content) ==> file == content)
  }

  /**
   Load the torrent, run the download over the peers, close the file, free the
   parsed torrent. No download is started only if memory is refused or the file holds
   no torrent, or one without pieces. Otherwise it is a run over the peers, in order,
   until it is complete; completion means the file of that torrent, which is on the disk
   exactly when fclose flushes all of it.
   */
  method DownloadFromFile(data: Bytes, sha1: Digester, hosts: seq<Host>, heap: Allocator, os: OperatingSystem,
      ghost content: Bytes)
    returns (started: bool, complete: bool, disk: Bytes, sent: seq<Bytes>,
             ghost file: Bytes, ghost closing: Outcome, ghost t: Term)
    requires |data| <= SIZE_MAX && heap.Valid() && SoundFile(data)
    modifies heap, os
    ensures heap.Valid() && heap.live == old(heap.live)
    ensures started ==> HoldsTorrent(data, t) && TorrentFrom(t).Consistent()
    ensures complete ==> started && Delivered(TorrentFrom(t), sha1, content, file)
    ensures started ==> exists sessions, clean ::
              && RunsOver(TorrentFrom(t), sha1, INITIAL, hosts, sessions, clean, sent)
              && os.Faults() + Unclean(clean) <= old(os.Faults())
              && file == Run(TorrentFrom(t), sha1, INITIAL, sessions).file
              && (complete <==> Complete(TorrentFrom(t), Run(TorrentFrom(t), sha1, INITIAL, sessions)))
    ensures disk == OnDisk(file, closing) && (old(os.Faults()) == 0 ==> closing.Granted?)
    ensures disk == file <==> closing.Granted? || closing.most >= |file|
    ensures !started ==>
              || heap.Refusals() < old(heap.Refusals())
              || forall u | HoldsTorrent(data, u) :: TorrentFrom(u).PieceCount() == 0
    ensures
      && started && old(os.Faults()) == 0 && FitsWire(TorrentFrom(t)) && IsContent(TorrentFrom(t), sha1, content)
      && hosts != [] && CooperativeHost(TorrentFrom(t), sha1, content, Open(INITIAL), hosts[0])
      ==> complete
  {
    hide IsInfo, Get, DescribesInfo, WellFormed, Print, Has, Represents, Blocks, FitsWire, IsContent,
      CollisionFree, CooperativeHost, Verified, FaultsIn, Run, Matches, RunsOver, Unclean, OnDisk;
    started, complete, disk, sent, file, closing := false, false, [], [], [], Granted;
    OnDiskExactly([], Granted);
    var metadata, root, hashed;
    metadata, root, hashed, t := LoadTorrent(data, heap);
    if metadata.None? {
      return;
    }
    ghost var info := Get(t, INFO, DictionaryKind).value;
    GetIsWellFormed(t, INFO, DictionaryKind);
    InRange(data, metadata.value.info, info);
    TorrentOfInfo(data, metadata.value.info, info);
    var torrent := TorrentOf(data, metadata.value.info);
    if torrent.PieceCount() == 0 {
      root := heap.FreeObject(root);
      OneTorrent(data, t);
      return;
    }
    started := true;
    complete, file, disk, sent, closing := DownloadTorrent(torrent, sha1, hosts, os, content);
    root := heap.FreeObject(root);
  }

  lemma {:induction false} InRange(data: Bytes, i: TorrentInfo, info: Term)
    requires DescribesInfo(data, i, info)
    ensures i.pieces.offset + i.pieces.length <= |data| && i.pieceLength >= 0 && i.length >= 0
  {
  }

  lemma {:induction false} OneTorrent(data: Bytes, t: Term)
    requires HoldsTorrent(data, t)
    ensures forall u | HoldsTorrent(data, u) :: u == t
  {
    forall u | HoldsTorrent(data, u)
      ensures u == t
    {
      PrefixFree(data, 0, t, u);
    }
  }
}
