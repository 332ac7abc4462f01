# loco: verified model

A Dafny model of `loco`, a single-peer BitTorrent v1 downloader. It covers the path from
the bytes of a `.torrent` file to the bytes of the finished download:

- **The bencode parser.** A grammar of derivation trees (`BencodeGrammar`) says what bencode is; nothing
  in it parses. `BencodeParser.Parser` is the recursive-descent parser over a mutable cursor, with its
  64-bit guards, doubling arrays, key-order check and rollback, working against a heap that may refuse any
  request (`Heap`). Its methods are proved against the grammar directly: a result is the one term that
  starts at the cursor, and a failure without a refused allocation means that no term starts there. The
  parser's own limits (64-bit integers, arrays that fit `size_t`) are limits of the grammar.
- **Its consumers.** Lookup in sorted dictionaries as finite-map lookup, the info dictionary and its span
  (`TorrentMetadata`), the tracker's response (`TrackerResponse`) and the announce URL (`TrackerUrl`).
- **The wire.** Messages, and the receive and send loops over a socket that delivers and accepts bytes in
  arbitrary pieces (`WireFraming`); what the log of a download means in bytes (`WireLog`).
- **The download.** `DownloadProtocol` is an abstract machine with one step per message; its bitfield is a set,
  its piece buffer a byte string. `Downloader.Download` and `PeerConnection.Peer` are the program's own state
  (buffer and counters, bitfield bytes and masks, output file with a position, overflow guards), and every
  method is proved to do what the machine does. Safety, the discipline of each connection, and progress are
  then proved about the machine, for every list of peers and every sequence of messages, and carried over to the
  byte streams of peers (`HostSessions`), including peers that have only some of the pieces (`PartialSeeds`).

- **Outside references.** What the definitions mean is tied to things stated without them: torrent files spelled out in
  text (`TorrentFiles`), the wire in literal bytes (`WireLaws`), the URL in text (`TrackerUrl`), and what a
  download does said of the peer's messages alone (`DownloadLaws`).

How the parts connect: `TorrentMetadata.LoadTorrent` runs from file bytes to hashed bytes;
`Downloader.DownloadTorrent` runs from an empty file over a list of peers, each given as the raw bytes it sends
and the way the operating system hands them over (`HostSessions.Host`), to a finished file;
`Loco.DownloadFromFile` runs the two, from the bytes of the torrent file to the bytes on the disk.

Conventions. SHA-1 is an arbitrary function on byte strings. Every outcome of the environment is an input. A schedule
says which allocations, seeks, writes and closes are not granted (`Faults`); a method that reports such a failure has
used up a fault of it. A socket holds the bytes that `recv` delivers before it reports the end of the stream or an
error, in portions and with interruptions given by one schedule, and a second schedule for `send`; a send fails only
when the failing call of that schedule can have come, counted in bytes sent (`Blocked`). So nothing that happens to a
connection after the last message matters. The outcomes of a step are returned as ghost results, so that the machine's
step is determined. Offsets into the input stand for pointers. `hide` statements keep proof contexts small and change no
meaning; automatic induction is switched off, so an inductive lemma calls itself where it needs the smaller case.

Consistent metadata is assumed for the download (`Torrent.Consistent`): at least one piece, a positive piece
length, and (n-1) * piece_length < length <= n * piece_length. The program does not check this.

Findings, where the program does something a reader might not expect:

- String lengths may have leading zeros (`04:spam` is accepted, `LeadingZeroIsAccepted`); integers may not. The grammar
  keeps the digits of each length, and `ReencodeParsed` says that encoding a parsed object again reproduces the
  input exactly when no length has a leading zero.
- The torrent file may have bytes after its dictionary; a tracker response may not.
- A list of more than 2^58 items, or a dictionary of more than 2^57 entries, is refused however much memory there is
  (`LimitsAreExact`): the doubled array would not fit `size_t`.
- News ends a connection exactly when the current piece is not in the set then advertised
  (`NewsKeepsConnectionExactly`). A peer that announces its pieces one HAVE at a time must therefore name the current
  piece first: one that starts with HAVE 0 is dropped once piece 0 is there (`AscendingAnnouncerIsDropped`).
- A download can be completed by some peers exactly when all pieces are at most 2^32 bytes and there are at most
  2^32 of them (`CompletableExactlyWhenItFits`); the guard on the request fields makes every other torrent
  unfinishable, such as the one of `WidePieceDoesNotFit`.
- A BITFIELD message can advertise pieces of a torrent exactly when it has at most 8388608 of them; with more, its
  payload exceeds the limit and only HAVE is left (`BitfieldsExactlyUpToTheLimit`).
- Choking does not clear a pending request, and a pending request is never repeated
  (`PendingRequestIsNotRepeated`). After HAVE, UNCHOKE, CHOKE, UNCHOKE the connection is up and unchoked and waits for
  a block the peer need not send (`StrandedRequest`). Exactly then: an UNCHOKE from a peer that has the piece brings
  about a request if and only if none is pending (`UnchokeRequestsUnlessPending`).
- A peer is dropped at the first piece it lacks, and tried only once. Peers with parts of the pieces complete a download
  exactly when their sets cover the pieces in the order in which they are tried (`SeedsCompleteExactlyWhenTheyCover`);
  the same peers in another order may not.
- The result of `fclose` is ignored, so "Complete!" can be printed over a file that is not on the disk. The disk holds
  the finished file exactly when `fclose` flushes as many bytes as the file has (`DownloadTorrent`);
  `CompletedButLost` is a completed download of which nothing is there.

## Model

| member | source | states |
|---|---|---|
| ByteStrings.NumeralLength | src/bencode_parser.c:123-142 | A digit string is at least as long as the decimal of its value, and equally long exactly when it has no superfluous leading zero |
| ByteStrings.NumeralIsPositional | src/bencode_parser.c:123-142 | A numeral is read in decimal, its first digit the highest |
| BencodeGrammar.PrefixFree | src/bencode_parser.c:683-765 | Two well-formed terms printed at the same place of any input are the same term: recognition is unambiguous |
| BencodeGrammar.LessIsLexicographic | src/bencode_parser.c:573-598 | The order of keys: the first byte in which two keys differ decides, the smaller one first, and a proper prefix comes before the longer key |
| BencodeGrammar.AscendingIsGlobal | src/bencode_parser.c:573-598 | Comparing each key with its predecessor only gives a global strict order and pairwise distinct keys |
| BencodeScan.NoStrByRun | src/bencode_parser.c:108-151 | Each way the length scan gives up (end of input, no digit, no colon, overflow, too few bytes) excludes every string of the grammar there |
| BencodeScan.NoIntByRun | src/bencode_parser.c:243-336 | Each way the integer scan gives up (end of input, sign and zero rules, magnitude beyond int64, stray byte) excludes every integer of the grammar there |
| BencodeScan.NoListByItems | src/bencode_parser.c:384-450 | If neither an e nor an item follows the items read, no list at all starts where the l was |
| BencodeScan.NoListByCount | src/bencode_parser.c:398-437 | Once as many items are read as an array can hold, a list that goes on is none of the grammar |
| BencodeScan.NoDictByEntries | src/bencode_parser.c:560-667 | If neither an e nor an entry with a greater key follows the entries read, no dictionary at all starts where the d was |
| BencodeScan.NoDictByCount | src/bencode_parser.c:612-657 | The same for the entries of a dictionary |
| BencodeParser.InOrderIsLess | src/bencode_parser.c:573-598 | memcmp over the shorter length plus the two tests on its sign decide that lexicographic order exactly |
| BencodeParser.GuardIsExact | src/bencode_parser.c:127-134 | The division in the overflow guard rejects a further digit exactly when the value would exceed the limit |
| BencodeParser.Parser.DetermineStringLength | src/bencode_parser.c:97-152 | Returns the value of the digit run before a colon without 64-bit wrap, or restores the cursor when no string of the grammar starts there |
| BencodeParser.Parser.ParseString | src/bencode_parser.c:200-235 | Succeeds exactly when a string of the grammar starts at the cursor, with the segment of its content, and stops right after it |
| BencodeParser.Parser.ReadMagnitude | src/bencode_parser.c:282-314 | The digit loop stays within 64 bits, yields the canonical magnitude of the run, and gives up only when no int64 starts there |
| BencodeParser.Parser.ParseInteger | src/bencode_parser.c:237-337 | Succeeds exactly on the canonical decimal of an int64, returning that value |
| BencodeParser.Parser.AddItem | src/bencode_parser.c:397-441 | Appends to the doubling array with the right capacity; fails only on refusal or at the largest capacity, and then releases the item, the list and its array |
| BencodeParser.Parser.ParseItem | src/bencode_parser.c:386-441 | One round of the list loop: extends the items read by the item that follows, or shows that no list starts here |
| BencodeParser.Parser.ParseList | src/bencode_parser.c:344-471 | Recognises exactly the lists of the grammar; failure restores cursor and heap |
| BencodeParser.Parser.KeyInOrder | src/bencode_parser.c:573-598 | The check on recorded segments decides whether the key is greater than its predecessor |
| BencodeParser.Parser.AddField | src/bencode_parser.c:612-657 | Appends an entry to the doubling array with the right capacity; fails only on refusal or at the largest capacity, and then releases everything |
| BencodeParser.Parser.ParseField | src/bencode_parser.c:562-657 | One round of the dictionary loop: extends the entries read by the entry that follows, or shows that no dictionary starts here |
| BencodeParser.Parser.ParseDict | src/bencode_parser.c:523-681 | Recognises exactly the dictionaries of the grammar, keys strictly increasing; failure restores cursor and heap |
| BencodeParser.Parser.ParseBuffer | src/bencode_parser.c:683-765 | Exact recognition: success with the unique term, its spans and exactly its blocks added to the heap; failure leaves cursor and heap alone and, unless an allocation was refused, means no term starts at the cursor |
| Heap.LimitsAreExact | src/bencode_parser.c:400-417 | For a capacity reached by doubling, the guards on the size in bytes fire exactly from 2^58 list items and 2^57 dictionary entries on |
| Heap.Allocator.Grow | src/bencode_parser.c:398-437 | Doubles an array behind the size_t guards; it fails exactly when the guard for this element size fires or the request is refused |
| Heap.Allocator.FreeObject | src/bencode_parser.c:473-515 | Releases every block reachable from the object once, nothing else, and invalidates it |
| BencodeObject.ChildPlaced | src/bencode_parser.c:759-762 | A child's span lies strictly inside its parent's and holds exactly the child's encoding |
| BencodeObject.SpanLocality | src/bencode_parser.c:759-762 | The same for a node at any depth |
| BencodeProperties.RecognisedExactly | src/bencode_parser.c:683-765 | The recognised term is a function of its own bytes: nothing after them matters |
| BencodeProperties.ParseAfterPrint | src/bencode_parser.c:683-765 | Round trip: parsing the encoding of any well-formed term followed by any suffix returns that term and leaves exactly the suffix |
| BencodeProperties.PrintAfterParse | src/bencode_parser.c:97-152 | Spelling every string length of a term canonically never lengthens its encoding, and leaves it as it is exactly when no length had a leading zero |
| BencodeProperties.ValueOfParsed | src/bencode_parser.c:683-765 | The value read off a parsed object's own payloads and segments is the term it was read from, with canonical lengths |
| BencodeProperties.ReencodeParsed | src/bencode_parser.c:683-765 | Encoding a parsed object again never takes more bytes than were consumed, and gives the very bytes consumed exactly when no length had a leading zero |
| BencodeProperties.LeadingZeroIsAccepted | src/bencode_parser.c:123-142 | 04:spam is recognised as a string of four bytes and is longer than the encoding of its value |
| BencodeProperties.ReparseSpan | src/bencode_parser.c:759-762 | Parsing the recorded span of any node on its own gives the same subtree at offset 0 and uses up the slice |
| BencodeProperties.ParseThenFree | src/bencode_parser.c:473-515 | Parsing any input and freeing the result leaves the live blocks as they were, whichever requests were refused |
| BencodeProperties.ItemSpansTile | src/bencode_parser.c:384-463 | The items of a list follow one another without gap between its l and its e |
| BencodeProperties.FieldSpansTile | src/bencode_parser.c:560-680 | The keys and values of a dictionary, with the lengths of the keys, follow one another without gap between its d and its e |
| BencodeProperties.TreeIsSmall | src/bencode_parser.c:397-441 | At most one node and one nesting level per two bytes consumed, and fewer array slots than bytes |
| BencodeProperties.CapacityIsLeast | src/bencode_parser.c:410-415 | A capacity reached by doubling is the least power of two that holds the elements |
| TorrentMetadata.DictMapAt | src/torrent_metadata.c:16-36 | With ascending keys every entry is the finite map's entry for its key |
| TorrentMetadata.FindEntry | src/torrent_metadata.c:6-38 | First match by key and type equals finite-map lookup followed by a type check |
| TorrentMetadata.FindNumber | src/torrent_metadata.c:137-171 | Finds the integer under a key exactly when it is there and at least the bound |
| TorrentMetadata.ExtractInfo | src/torrent_metadata.c:70-108 | Succeeds exactly when the info dictionary has the four fields with their checks; the record holds their values and the dictionary's span |
| TorrentMetadata.Extract | src/torrent_metadata.c:40-68 | Succeeds exactly when announce and a usable info dictionary are present, with their values |
| TorrentMetadata.InfoHashInput | src/main.c:78-99 | The two range checks never fire and the bytes to hash are the encoding of the info dictionary |
| TorrentMetadata.LoadTorrent | src/main.c:47-105 | From the file's bytes: succeeds exactly for files that begin with a torrent (unless memory is refused), with its announce string and info fields, hashes exactly the encoding of the value of info, and owns exactly the parsed tree |
| TorrentFiles.KeysAreReadInOrder | src/bencode_parser.c:573-598 | A dictionary spelled out in text with two keys is recognised exactly when the first key comes first |
| TorrentFiles.CowAndSpam | src/bencode_parser.c:523-681 | d3:cow3:moo4:spam4:eggse is recognised, with its two entries |
| TorrentFiles.IntegerSpelledOut | src/bencode_parser.c:237-337 | Integers are i, the decimal with a minus sign if negative, e; they are well formed exactly within 64 bits |
| TorrentFiles.WrittenTorrentIsRead | src/torrent_metadata.c:40-108 | A torrent file spelled out in text, with anything after it, is a torrent exactly if its length is not negative, its piece length positive and its table a multiple of 20 bytes; it then has those values, and is the only reading |
| TorrentFiles.WrittenInfoIsExtracted | src/torrent_metadata.c:70-108 | The extracted record of such a file has the values it was written from, and the bytes to hash are the text of its info dictionary |
| TrackerResponse.ParseResponse | src/tracker.c:682-716 | Accepts exactly the inputs that are one whole dictionary, and otherwise leaves the heap as it was |
| TrackerResponse.ResponsesAreWhole | src/tracker.c:682-716 | The encoding of any well-formed dictionary is a response; no other term's is, and nothing may follow it |
| TrackerResponse.FindInterval | src/tracker.c:272-286 | Finds the integer that the response maps interval to |
| TrackerResponse.FindPeers | src/tracker.c:288-313 | Finds what a dictionary maps peers to, if a string or a list, whichever type is tried first, and nothing in anything else |
| TrackerUrl.UnescapeEscaped | src/tracker.c:472-481 | Percent-decoding undoes percent-encoding for every byte string |
| TrackerUrl.EscapeSpelledOut | src/tracker.c:472-481 | Letters, digits and - . _ ~ stand for themselves, any other byte becomes % and its two upper-case hexadecimal digits |
| TrackerUrl.EscapeConcat | src/tracker.c:472-481 | Escaping works byte by byte |
| TrackerUrl.AddQueryParameter | src/tracker.c:416-444 | Appends prefix and value exactly when both fit, and moves the position accordingly |
| TrackerUrl.CapacityIsExact | src/tracker.c:564-600 | The capacity summed from the parts and the static text is the length of the URL plus its terminator, or the sum exceeds size_t |
| TrackerUrl.BuildTrackerUrl | src/tracker.c:456-680 | Unless announce is empty, size_t is exceeded or memory refused, the buffer is filled exactly with the URL as spelled out in text and a terminator, and a reader of its query finds every field of the request under its name |
| TrackerUrl.UrlSpelledOut | src/tracker.c:611-663 | The URL is announce, ? or &, and the texts info_hash=, &peer_id=, &port=, &uploaded=, &downloaded=, &left=, &compact= and &event= with the fields they name |
| TrackerUrl.QueryTells | src/tracker.c:620-663 | Reading the query back gives each field of the request under its literal name, and nothing else |
| TrackerUrl.RequestIsRecovered | src/tracker.c:611-663 | Splitting the query at & and = and percent-decoding recovers every field of the request |
| WireFraming.ValueBigEndian | src/peer_connection.c:475-481 | Reading four bytes as a big-endian number loses nothing |
| WireLaws.NumbersCompareAsBytes | src/peer_connection.c:475-481 | Numbers compare as their four bytes do: the highest byte is sent first |
| WireLaws.LastByteCountsOnes | src/peer_connection.c:35-53 | 0 0 0 x is the number x, and 255 255 255 255 the largest |
| WireLaws.MessageLayout | src/peer_connection.c:438-580 | A message is its length, one byte of identifier and the payload; the length counts the identifier; keep-alive is four zero bytes |
| WireLaws.MessageTable | src/peer_connection.c:257-281 | Which identifiers there are, and which payload lengths each may have, in numbers |
| WireLaws.StreamInBytes | src/peer_connection.c:438-580 | A literal stream of three messages and a message cut off is read as it stands |
| WireFraming.DecodeEncoded | src/peer_connection.c:438-580 | The encoding of a valid message in front of any bytes is read back as that message, leaving those bytes |
| WireFraming.DecodedIsEncoded | src/peer_connection.c:520-532 | Only encodings of valid messages are accepted |
| WireFraming.DecodeAllEncoded | src/peer_connection.c:438-580 | A concatenation of valid messages is read back as that list of messages, with nothing left over |
| WireFraming.StreamIsMessagesAndLeftover | src/peer_connection.c:438-580 | Every byte stream is the encodings of the messages read from it followed by what is left over, at which reading fails |
| WireFraming.ReceiveExactly | src/peer_connection.c:455-473 | However recv cuts what arrives and whichever calls are interrupted, the loop delivers exactly the next bytes, and fails exactly when fewer arrive before the end or an error |
| WireFraming.ReceiveMessage | src/peer_connection.c:438-580 | The message read is a function of the bytes that arrive alone; reading fails only where they do not decode or the payload's memory is refused |
| WireFraming.AppendUint32 | src/peer_connection.c:283-310 | Writes the four bytes after the offset if they fit, and leaves the rest alone |
| WireFraming.SendAll | src/peer_connection.c:363-386 | Success means all bytes were sent in order, failure that only a proper prefix was and that a call which accepts nothing had come |
| WireFraming.SendRequest | src/peer_connection.c:311-387 | Success puts exactly the encoding of the REQUEST message on the wire, failure a proper prefix of it |
| WireFraming.SendInterested | src/peer_connection.c:389-436 | The same for the INTERESTED message |
| WireLaws.InterestedInBytes | src/peer_connection.c:389-409 | INTERESTED is the bytes 0 0 0 1 2 |
| WireLaws.RequestInBytes | src/peer_connection.c:311-361 | REQUEST is 0 0 0 13 6 and three numbers: piece, offset, length |
| WireFraming.RequestRoundTrip | src/peer_connection.c:311-361 | The reader decodes those 17 bytes to the same index, begin and length |
| PieceBitfield.MasksAreShifts | src/peer_connection.c:668-670 | The bit masks are the program's shift expressions |
| WireLaws.BitfieldLayout | src/peer_connection.c:668-670 | Piece 8 q + r is the bit 0x80 >> r of byte q |
| WireLaws.AcceptableBitfields | src/peer_connection.c:676-719 | A BITFIELD payload is acceptable exactly if it has the bytes the pieces need and no bit set beyond the last piece |
| WireLaws.BitfieldInBytes | src/peer_connection.c:676-719 | The byte 160 announces the pieces 0 and 2 of three |
| PieceBitfield.SetPieceAdds | src/peer_connection.c:668-671 | Setting the bit of piece i adds exactly i to the set and keeps the spare bits clear |
| PieceBitfield.PaddingCheck | src/peer_connection.c:694-705 | The mask test on the last byte holds exactly when no bit beyond the last piece is set |
| PeerConnection.Peer.UpdateBitfield | src/peer_connection.c:619-674 | HAVE adds exactly the announced piece to the advertised set, or is refused for a piece that does not exist |
| PeerConnection.Peer.ApplyBitfield | src/peer_connection.c:676-719 | BITFIELD is accepted exactly when none is known yet, its length is right and its spare bits are clear, and then says which pieces are advertised |
| PeerConnection.Peer.Lacks | src/main.c:516-528 | The byte-and-mask test is false exactly for the advertised pieces |
| DownloadSafety.HandleKeeps | src/main.c:345-577 | One message keeps the invariant, leaves the verified part of the file alone and adds at most one piece |
| DownloadSafety.RunKeeps | src/main.c:292-584 | From any state between connections, no later connection disturbs a verified piece |
| DownloadSafety.WholeRunSafety | src/main.c:292-584 | After any peers and messages, also in the middle of a connection, every piece before the current one lies in the file, whole, at its place, with its digest, and the file does not reach past the current piece |
| DownloadSafety.CompletionIsCorrect | src/main.c:417-507 | A completed run leaves a file of exactly the torrent's length with every piece verified; without collisions it is the content |
| DownloadTrace.HandleFollows | src/main.c:345-577 | The monitor that sees only the log accepts each step and reconstructs connection, pending request and received bytes |
| DownloadTrace.WholeRunDiscipline | src/main.c:292-584 | On every connection: interest sent once and before requests; each request unchoked, for an advertised current piece, at the received length, one outstanding at most; a block accepted only in answer to it; a bitfield only first; the buffer is the concatenation of the accepted blocks |
| DownloadLaws.ChokingFollowsMessages | src/main.c:363-368 | On a connection we are choked exactly while every UNCHOKE among the messages taken has been followed by a CHOKE |
| DownloadLaws.ChokedPeerIsNotAsked | src/main.c:544-546 | After such messages nothing is requested until an UNCHOKE arrives, whatever else does |
| DownloadLaws.AdvertisedFollowsMessages | src/main.c:373-398 | The peer is taken to have exactly the pieces its HAVE and BITFIELD messages named |
| DownloadLaws.BadNewsIsRefused | src/main.c:373-398 | HAVE for a piece that does not exist and a late or malformed BITFIELD end the connection and change nothing |
| DownloadLaws.InterestIsTold | src/main.c:509-576 | After any message but a keep-alive that keeps the connection: once the peer has said what it has, it has the current piece, it has been told of our interest exactly once, choking or not, and unless it chokes us a request is out |
| DownloadLaws.KeepAliveChangesNothing | src/main.c:357-359 | A keep-alive changes nothing and sends nothing |
| DownloadLaws.UnaskedBlockIsRefused | src/peer_connection.c:721-763 | A PIECE message that is not the block asked for ends the connection and changes nothing |
| DownloadLaws.AskedBlockIsKept | src/peer_connection.c:721-763 | The block asked for joins those before it, and nothing is written before the piece is whole |
| DownloadLaws.WrongPieceEndsConnection | src/main.c:437-441 | A whole piece with the wrong digest is forgotten, the file is left alone and the connection ends |
| DownloadLaws.RightPieceIsStored | src/main.c:443-483 | A whole piece with the right digest is counted exactly when it was sought and written in full, and then lies in the file at its place |
| DownloadLaws.DigestTable | src/main.c:421-430 | The digest of piece j is bytes 20 j to 20 j + 19 of the table |
| DownloadLaws.RequestsAreOfBlocks | src/main.c:549-556 | Piece j begins at j times the piece length, the last one is what is left of the file, and a request is for 16384 bytes or what is left of the piece |
| DownloadProgress.NewsKeepsConnectionExactly | src/main.c:373-528 | After HAVE or BITFIELD the connection goes on exactly when the news is acceptable and the current piece is in the set then advertised |
| DownloadProgress.AscendingAnnouncerIsDropped | src/main.c:524-528 | Past piece 0, a peer whose first message is HAVE 0 loses the connection with that message, and nothing is requested or stored |
| DownloadProgress.HonestStep | src/main.c:345-577 | One message of a peer that sends no refused news and blocks only in answer to requests: a block leaves exactly one block less to come; the connection ends exactly when the download is complete or the piece now current is not among those announced |
| DownloadProgress.CooperativeStep | src/main.c:345-577 | If the peer also is known to have the piece that is then current, the connection goes on until the download is complete |
| DownloadProgress.CooperativePeerCompletes | src/main.c:345-577 | From any point on track, at any piece, such messages in any order, choking included, complete the download exactly when they include one PIECE message for each missing block (the sum of ceil(size/16384)); with fewer the connection is up and on track |
| DownloadProgress.SomePeerCompletes | src/main.c:345-577 | From any point on track there are such messages with all the missing blocks |
| DownloadProgress.CompletableExactlyWhenItFits | src/main.c:558-562 | Some run over some peers completes if and only if piece count and piece sizes are at most 2^32 |
| DownloadProgress.WidePieceDoesNotFit | src/main.c:558-562 | A piece of 2^32 + 1 bytes is consistent metadata and cannot be requested |
| DownloadProgress.BitfieldsExactlyUpToTheLimit | src/peer_connection.c:526-532 | Some acceptable BITFIELD message exists for a torrent exactly when it has at most 8388608 pieces |
| DownloadProgress.PendingRequestIsNotRepeated | src/main.c:363-368 | While a request is pending, no messages other than PIECE make the connection send another |
| DownloadProgress.StrandedRequest | src/main.c:363-368 | After HAVE, UNCHOKE, CHOKE, UNCHOKE on a first connection the request is pending, the peer unchoked, and nothing was requested since the first UNCHOKE |
| DownloadProgress.UnchokeRequestsUnlessPending | src/main.c:544-575 | UNCHOKE from a peer known to have the current piece keeps the connection and brings about a request exactly when none is pending |
| WireLog.StepPays | src/main.c:535-575 | What one message makes the program send is paid from a budget of one INTERESTED and one REQUEST per missing block; a send that fails leaves its message unpaid |
| HostSessions.HonestSession | src/main.c:340-577 | The session with a host that sends honest messages, and to which the budget can be sent, has the outcome of its whole byte stream undisturbed, whatever happens to the connection later |
| HostSessions.CooperativeSession | src/main.c:340-577 | A peer whose byte stream decodes to cooperative messages with all missing blocks, and to which the budget can be sent, completes the download when no allocation, seek or write fails |
| HostSessions.CooperativeHostCompletes | src/main.c:292-584 | End to end: a run over any peers is complete if one of them, at the piece reached when its turn comes, delivers such a stream |
| PartialSeeds.SeedStopsAtFirstGap | src/main.c:509-528 | From any point on track a peer that announces exactly the pieces A carries the download to the first piece it lacks, or the end, and no further, exactly when it sends all blocks up to there |
| PartialSeeds.SomePeerSeeds | src/main.c:386-398 | For every set of pieces that a bitfield can announce there is such a peer |
| PartialSeeds.ReachesAllExactly | src/main.c:292-584 | Going from peer to peer, each to its first gap, reaches the end exactly when the pieces can be cut into consecutive parts, one in each set, in order |
| PartialSeeds.SeedsCompleteExactlyWhenTheyCover | src/main.c:292-584 | A run over such peers completes if and only if their sets cover the pieces in the order in which they are tried |
| Downloader.GuardsNeverFire | src/main.c:421-456 | With consistent metadata the overflow guards never fire, and what they guard is the piece's digest, offset and size |
| Downloader.OutputFile.WriteOut | src/main.c:462-468 | fwrite puts some prefix of the bytes at the position and nothing elsewhere; all of them unless a fault was due |
| Downloader.OutputFile.Close | src/main.c:587 | What is on the disk after fclose is what it flushed of the file, and all of it exactly when fclose succeeds |
| Downloader.CompletedButLost | src/main.c:586-599 | For every torrent that can be completed there is a completed download of which nothing is on the disk |
| Downloader.Download.constructor | src/main.c:258-284 | The program starts in the machine's initial state, with a buffer that holds the first piece |
| Downloader.Download.ProcessPiece | src/peer_connection.c:721-763 | A block is copied into the buffer exactly when it answers the pending request; anything else changes nothing and ends the connection |
| Downloader.Download.TakeNews | src/main.c:373-398 | HAVE and BITFIELD change bytes and masks as they change the machine's set of pieces |
| Downloader.Download.TakeIn | src/main.c:361-415 | Bytes and masks refine sets: choke flags, advertised pieces and accepted blocks change as in the machine's intake, whichever allocation fails |
| Downloader.Download.WritePiece | src/main.c:443-468 | The piece goes to its boundary in the file, as far as fseek and fwrite let it |
| Downloader.Download.StorePiece | src/main.c:443-506 | A piece with the right digest is written at its boundary and counted only if seek and write succeed in full; the next size is set; on any failure the piece is not counted |
| Downloader.Download.FinishPiece | src/main.c:417-507 | Nothing happens before the piece is whole; then a wrong digest forgets it and ends the connection, a right one leads to the store |
| Downloader.Download.TellInterest | src/main.c:535-542 | Interest is sent at most once per connection; its bytes are on the wire when it is recorded, and only the beginning of them when the send fails |
| Downloader.Download.AskForBlock | src/main.c:544-575 | The next block is requested exactly when unchoked, none is pending and the fields fit; its bytes are on the wire when it is recorded, and only the beginning of them when the send fails |
| Downloader.Download.RequestNext | src/main.c:509-576 | Without a bitfield it waits, a missing piece ends the connection, and otherwise interest and request follow the machine; what was sent is the bytes of what was logged and, after a failed send, the beginning of one message |
| Downloader.Download.HandleMessage | src/main.c:345-577 | One round of the message loop is one step of the machine; what was sent is what the log says and, when a send call was due to fail, the beginning of one message, which ends the connection; without faults allocations, seeks and writes succeed |
| Downloader.Download.ServeConnection | src/main.c:340-577 | The message loop takes the messages the raw byte stream decodes to, in order, and is a run of the machine on them; nothing decodable is left unless a message ended the connection or memory was refused; all it sent is what its log says, up to one last message cut off when a send call was due to fail |
| Downloader.Download.CloseConnection | src/main.c:579-583 | Clean-up forgets the partial piece and the peer and keeps file and piece count |
| Downloader.Download.TryHost | src/main.c:292-344 | The session with one peer is a session of the machine that takes all its stream decodes to, unless a message ends it or a call fails, and what the peer was sent is what the session's log says |
| Downloader.Download.RunPeers | src/main.c:292-584 | The loop over peers is a run of the machine over their sessions, tried in order until complete, with what each was sent; at most as many sessions are affected by faults as there were faults |
| Downloader.DownloadTorrent | src/main.c:246-601 | From an empty file: success only with a file of the right length and all pieces verified, equal to the content if digests do not collide; a run over the peers in order until complete, with what each was sent; success if the first peer cooperates and nothing fails; the disk holds the file exactly when fclose flushes all of it |
| Loco.TorrentOfInfo | src/main.c:208-237 | What the program takes from the extracted metadata is the torrent of the info dictionary, consistent exactly when there is a piece and the lengths agree |
| Loco.DownloadFromFile | src/main.c:40-602 | From the torrent file to the disk: a download starts unless memory is refused, no torrent is there or it has no pieces; it is a run over the peers in order until complete, and completion means the file of that torrent; all parsed memory is freed |

## Left out

- Command line, file reading, progress output and the program's exit code: user interface.
- Opening the output file and allocating the piece buffer at the start: the model begins after both succeeded.
- Opening sockets, polling and connecting: operating-system plumbing; a peer is unreachable or delivers bytes.
- The handshake and compact or listed peer decoding: straightforward field copying; a failed handshake counts as an unreachable peer.
- The HTTP transfer, SHA-1 and random peer ids: foreign code. curl_easy_escape is modelled as percent-encoding of everything but unreserved characters.
- Appending response chunks to a buffer: straightforward.
- The length checks after snprintf in the URL builder, and its branch for an unknown event number: decimal text of a bounded integer always fits, and the event is an enumeration here.
- Checks for NULL arguments, and the test that an outgoing message struct was cleared: the model uses non-null types and returns messages as values.
- Buffered output: a write reaches the stream at once, and what a failed fclose loses is the end of the file; a failed flush inside fseek counts as a failed seek.
- Metadata whose piece count does not match length and piece length: excluded by Torrent.Consistent.
- The branches after the list loop that release a list not followed by e: the loop ends only at an e.
- The C stack: the parser and the release of a tree recurse once per nesting level without a limit, so an input of very many l or d bytes exhausts the stack; the model's recursion is unbounded, and TreeIsSmall bounds the depth of successful results only.
- Element types and pointers: arrays of objects are sequences with a capacity and a block number, so writing through a stale pointer is not expressible; freeing twice is.
