# Verified model of IcedComm-I2P

IcedComm-I2P is a peer-to-peer messenger over I2P with an offline mailbox server
(the deaddrop). These Dafny modules model its stateful cores and prove what they
are for. `dafny verify dfyconfig.toml` checks everything.

| module | what it models |
|---|---|
| `History`, `GroupDelivery` | the event log of messages: windowed dedup, acknowledgements, compaction |
| `HistoryOctets` | the log file as octets, and appends that are cut short |
| `RateLimiter`, `DropLimits` | the limit on puts per drop, and what it is charged for |
| `DropTraffic` | the connections of a drop in time: accept loop, handlers side by side, the lock of the limiter |
| `ProofOfWork` | the work on stored blobs: material, search, check |
| `BlobStore` | the blob directory, one file-system step at a time under any interleaving |
| `WriteOnce`, `BlobSurvival` | when a stored blob is replaced or removed under interleaving, exactly, and what reads answer |
| `StoreRefinement` | the agreement of uninterrupted steps with the sequential server |
| `DropServer`, `DropClient` | requests and replies as octets, the server one request at a time, the client over several drops, end to end |
| `Protocol`, `LiveStream` | frames, resynchronisation, the line reader and the live queue |
| `OfflineState` | the offline state file, written and read |
| `ContactRename` | renaming a contact with undo, under failures and stops |
| `Vault` | opening and closing the encrypted vault, under failures and stops |
| `Rendezvous`, `Addresses` | the handshake that authorises a first call, and the addresses it binds |
| `SamRuntime` | cancellation and shutdown of the SAM runtime |
| `Octets`, `Text`, `Hex`, `Wrappers` | big-endian numbers, text primitives, hexadecimal, option and result |
| `Encoding` | texts and a cipher that meet the laws assumed of JSON, archives and encryption |

## How the model is stated

- An octet string is a `string` with one character per octet; that octets are
  below 256 is a hypothesis (`IsOctets`) where it matters.
- Hash, cipher, MAC, Diffie-Hellman, archive and JSON are function values with
  the laws used stated as hypotheses, and both sets of laws are shown to be met by
  something (`Vault.IdealIsMet`, `Rendezvous.IdealIsMet`). A hash is collision-free
  only where a lemma says so, and only for the keys of that run. Random values are
  arguments.
- A file system is a map. For the server a name leads to an inode, so open files
  survive renames and removals. For the rename and the vault each call works,
  fails, or is the last before a stop, as a plan numbered by calls says; a ghost
  trace holds every state.
- Clocks are arguments. Where a result needs ordered clocks it says so.
- Code that updates state is a class whose methods are proved against functions;
  runs of whole programs are loops over arbitrary scripts of operations, and what
  they leave and return is tied to a function of the script.

Some statements one might expect are false of the code. Each has the input that
breaks it and the exact condition under which it holds:

- Write-once under concurrent puts (`WriteOnce.BothStore`): among the requests that
  have looked for a blob it holds iff none is past its look while the blob is there,
  and no two are (`WriteOnce.WriteOnceIff`).
- A stored blob stays to the end of its time to live: iff at the moment no removal
  is pending and no request is past its look (`BlobSurvival.SurvivesIff`).
- A close of the vault that succeeds keeps the newest tree: iff the plaintext at
  the call was that tree (`Vault.VaultStore.FsEncrypt`); a second close after a
  removal that failed half-way loses it (`Vault.CloseTwice`).
- Closing the runtime cancels every live token: iff none was forgotten by clearing
  the shutdown state too early (`SamRuntime.CloseCancelsIff`,
  `SamRuntime.EarlyClearForgets`).
- A rename changes only the name in the metadata: iff the tunnel settings were in
  range, because loading resets the others (`ContactRename.OnlyNameChangesIff`,
  `ContactRename.RenameWithoutHops`; src/storage.rs:765-772).
- A blob that a put has stored is reported as stored: iff the reply comes back
  (`DropClient.StoresIff`, `DropClient.PutOneStatus`).
- A contact that was renamed can be renamed again: iff no white space stood before
  the reserved prefix in the new name (`ContactRename.NewNameAllowedIff`,
  `ContactRename.SpacedPrefixSlips`; src/storage.rs:862-877 looks before trimming).
- An appended history event is read back: iff the file was empty or ended in a
  newline, which an append that stops half-way does not leave
  (`HistoryOctets.ReadBackIff`, `HistoryOctets.BothLost`).

Two single functions have limits that the program never comes near:

- The limiter of a drop, alone, keeps its limit only for clock values that come in
  order (`RateLimiter.OrderIsNeeded`). The accept loop of the server pauses a second
  after every connection, so the limiter is asked with at most 76 clock values of
  any 60 seconds: the limit is kept, and never met, in whatever order calls get the
  lock (`DropTraffic.AsksPerMinute`, `DropTraffic.NeverRefused`).
- The transcript tells callers apart exactly up to lengths of 32 bits
  (`Rendezvous.TellsApartIff`). An address of the program has 60 characters
  (`Rendezvous.AddressTranscripts`).

## Model

| member | source | states |
|---|---|---|
| `History.CompactionInvisible` | src/history.rs:176-190 | loading a compacted log followed by any later lines gives the records of the uncompacted log followed by the same lines |
| `History.AnyCompactionsInvisible` | src/history.rs:148-190 | the same after any run of appends and compactions, in any order and number |
| `History.ReplayOfCompact` | src/history.rs:176-190 | a window with distinct keys, within the bound, written out as messages replays to itself |
| `History.ReplayKeepsFits` | src/history.rs:61-103 | every replayed window is within the bound, has pairwise distinct keys and no overlong text |
| `History.WindowRefinesHistory` | src/history.rs:55-109 | the bounded window with its key set is the last N records of a history that evicts nothing and accepts a message iff none of the last N accepted has its direction, id and sender up to case |
| `History.DeliveriesOnlyAcknowledge` | src/history.rs:97-103 | which messages are accepted, and all their fields but the acknowledgement ones, do not depend on the delivery lines |
| `History.DeliveryInWindow` | src/history.rs:192-199 | an acknowledgement reaches the same record whether it is looked for in the window or in the whole history |
| `History.KeyInjective` | src/history.rs:222-233 | two records have the same key string iff they agree on direction, id and sender up to ASCII case |
| `History.OnlyThisVersionCounts` | src/history.rs:66-100 | lines that are no event and events of another format version change nothing, wherever they stand |
| `History.ReplayWindow.Accept` | src/history.rs:78-96 | a message line changes deque and key set to one replay step, and the set stays exactly the keys of the deque |
| `History.ReplayWindow.Evict` | src/history.rs:88-95 | eviction leaves the last N records and exactly their keys |
| `History.ReplayWindow.Deliver` | src/history.rs:192-220 | only the newest own record with the id is changed, and no key changes |
| `History.Load` | src/history.rs:55-109 | the reading loop returns the replay of the lines |
| `History.HistoryFile.AppendEvent` | src/history.rs:148-174 | the file gains the event and is compacted exactly when it exceeds its byte bound; without compactions it would hold the old lines and the event |
| `History.HistoryFile.AppendMessage` | src/history.rs:111-123 | refused exactly for an overlong text, and then nothing changes |
| `History.HistoryFile.LoadRecords` | src/history.rs:55-109 | whatever was compacted, loading gives the replay of everything ever appended |
| `HistoryOctets.ReadBackIff` | src/history.rs:148-174 | an appended event is read back after all that was there iff the file was empty or ended in a newline; on a torn file neither the torn text nor the event behind it is in the log |
| `HistoryOctets.StoppedAppend` | src/history.rs:155-166 | an append that stops leaves such a file iff it wrote nothing or everything |
| `HistoryOctets.BothLost` | src/history.rs:61-75 | two events in a row, the first cut short: neither is loaded |
| `HistoryOctets.WholeAppendsRead` | src/history.rs:148-174 | whole appends are all read back, in order |
| `HistoryOctets.CarriageReturnIgnored` | src/history.rs:61-75 | an event line ended by carriage return and newline reads as the event |
| `GroupDelivery.DeliveredIffEveryoneAcked` | src/history.rs:201-216 | after any acknowledgements by peers a record is delivered iff someone was expected, nobody twice up to case, and everyone acknowledged |
| `GroupDelivery.ReceivedExactly` | src/history.rs:201-214 | the received list is, without case twins and in lower case, exactly the expected members heard from |
| `GroupDelivery.AckOrderIrrelevant` | src/history.rs:192-220 | reordering or repeating acknowledgements changes neither delivery nor who was received |
| `GroupDelivery.MixedRun` | src/history.rs:192-220 | any run of acknowledgements, with and without peers, changes only the two acknowledgement fields; the received are the expected members named, once each; delivered iff the last had no peer, or someone was expected, nobody twice, and everyone has been named |
| `GroupDelivery.ReplayOfAcks` | src/history.rs:97-103 | on any window, a run of acknowledgement lines of one id reaches the newest own record with that id and no other |
| `GroupDelivery.RecordTakesAcks` | src/history.rs:192-220 | in any log, whatever lines come between: while a record is the newest own one with its id it takes exactly the acknowledgements for that id, in order |
| `GroupDelivery.DeliveredInLog` | src/history.rs:55-109 | so in any log: the record that stays the newest own one and in the window is loaded as accepted but for the acknowledgements, and delivered iff the last of them had no peer, or someone was expected, nobody twice up to case, and everyone acknowledged |
| `GroupDelivery.PlainDeliveryInLog` | src/history.rs:217-219 | the delivery of a conversation of two, which names no peer, leaves the record delivered and who was received as it was, in any log and after any other acknowledgements |
| `RateLimiter.AdmittedIffBelowLimit` | SERVER/src/main.rs:207-225 | with ordered clocks a put is admitted iff fewer than 500 earlier admissions lie in the closed window ending now |
| `RateLimiter.DequeRefinesCount` | SERVER/src/main.rs:207-225 | the pruned deque lets through exactly what the count over all admissions would |
| `RateLimiter.NeverTooMany` | SERVER/src/main.rs:207-225 | no closed 60-second interval ever holds more than 500 admissions |
| `RateLimiter.AnyInversionBreaks` | SERVER/src/main.rs:207-225 | for the limiter alone: however small the step back, a call that brings an earlier time than the one before can be admission 501 of a 60-second interval |
| `RateLimiter.OrderIsNeeded` | SERVER/src/main.rs:207-225 | for the limiter alone: two calls keep the limit after every ordered past iff the second does not bring an earlier time |
| `RateLimiter.PutTimes.AllowPut` | SERVER/src/main.rs:207-225 | prune, count and record on one drop; false for an unknown drop; other drops unchanged |
| `DropLimits.TimesAreCharges` | SERVER/src/main.rs:546-587 | the limiter is charged by every well-formed put head, whatever becomes of the blob |
| `DropLimits.FewStoresPerMinute` | SERVER/src/main.rs:579-618 | whatever octets its connections send, of the puts charged in any closed 60 seconds at most 500 store a blob (ordered clocks) |
| `DropTraffic.StoresPerMinute` | SERVER/src/main.rs:800-872 | with the accept loop that pauses a second after every connection, handlers side by side, and uploads and file writes of any duration: at most 93 blobs are stored in any closed 60 seconds |
| `DropTraffic.StoresReached` | SERVER/src/main.rs:691-708 | a run of the accept loop and its handlers that stores exactly that many |
| `DropTraffic.AsksPerMinute` | SERVER/src/main.rs:505-587 | the limiter is asked with at most 76 clock values of any closed 60 seconds, so the limit of 500 is kept, in whatever order calls get the lock |
| `DropTraffic.AsksReached` | SERVER/src/main.rs:505-508 | a run that asks exactly that often |
| `DropTraffic.NeverRefused` | SERVER/src/main.rs:207-225 | in every reachable state the limiter has room, whatever clock value a call brings and however long it waited for the lock |
| `ProofOfWork.LeadingZerosIsSmall` | src/deaddrop.rs:187-205 | the octet-and-mask test holds iff the digest as a big-endian number is below 2^(8*len - bits) |
| `ProofOfWork.SameTest` | SERVER/src/main.rs:323-341 | the server test is the client test at 20 bits |
| `ProofOfWork.EnoughBitsPass` | SERVER/src/main.rs:323-341 | a digest that passes the client at 20 bits or more passes the server |
| `ProofOfWork.FindPowCounter` | src/deaddrop.rs:207-235 | the search ends when some counter passes and returns the least one that does |
| `ProofOfWork.TryCounter` | src/deaddrop.rs:222-231 | one turn hashes the same material the server hashes |
| `ProofOfWork.ServerAcceptsFound` | SERVER/src/main.rs:343-347 | a counter the client found is accepted by the server for the same key and blob |
| `ProofOfWork.PowMaterial` | SERVER/src/main.rs:309-321 | the buffer the server fills is the five fields joined by bars |
| `ProofOfWork.MaterialInjective` | SERVER/src/main.rs:301-321 | equal material means equal key, blob and counter, even when the blob holds separators and digits |
| `ProofOfWork.KeyCheckNeeded` | SERVER/src/main.rs:301-307 | without the key check it would not: two different requests with the same material |
| `BlobStore.StepKeepsInv` | SERVER/src/main.rs:356-389 | every file-system step of any client or of the collector keeps: blob names lead to whole submitted blobs nobody writes to, temporary files to one writer each |
| `BlobStore.RenameKeepsInv` | SERVER/src/main.rs:369-388 | the rename publishes a file only when all of the blob has been written |
| `BlobStore.ReadKeepsInv` | SERVER/src/main.rs:652-655 | a reader with the file open gets one blob to its end, whatever happens to the name |
| `BlobStore.RunKeepsInv` | SERVER/src/main.rs:434-664 | so every state of every interleaving, also after a restart on a directory with stale temporary files |
| `BlobStore.AnswersAreSubmittedBlobs` | SERVER/src/main.rs:536-664 | in every interleaving whatever a handler answers a get with is, in full, the blob of one request that passed the size and work checks under that key |
| `BlobStore.EveryAnswerMeans` | SERVER/src/main.rs:606-661 | in every interleaving, when a handler gets to its answer: OK to a put means its blob is now under its name; EXISTS that one was there; MISS that none was or that it was found too old; OK to a get that an open file was read to its end; a put that could not store has made no file appear, and a get whose file is gone ends without an answer |
| `BlobStore.FailureCleansUp` | SERVER/src/main.rs:369-388 | every call of a put that fails leads to the clean-up and stores nothing |
| `BlobStore.NeverStuck` | SERVER/src/main.rs:498-671 | until a handler is idle it has a step that moves it |
| `BlobStore.OlderIff` | SERVER/src/main.rs:482-487 | a file is too old exactly from two weeks and one second after its time on, and never when its time is in the future |
| `WriteOnce.NeverReplaced` | SERVER/src/main.rs:608-616 | in every interleaving in which no two requests are at any time between look and rename for one digest, no step replaces a stored blob |
| `WriteOnce.WriteOnceIff` | SERVER/src/main.rs:356-389 | from any state that meets the invariant: the requests that have looked can never replace the blob of a digest iff none is past its look while the blob is there and no two are |
| `WriteOnce.BothStore` | SERVER/src/main.rs:608-616 | wherever two handlers are idle and a blob is not there, two puts for it can both be told OK, the second replacing the first |
| `BlobSurvival.SurvivesIff` | SERVER/src/main.rs:434-480 | a stored blob stays the same file to the end of its time to live, however everything goes on, iff now no read or collection has decided to remove it and no put is past its look |
| `BlobSurvival.PutThenGet` | SERVER/src/main.rs:606-655 | put, then get, under interleaving: once a put has stored, with no removal pending and no other put past its look, every read that looks from then on within the time to live answers that blob if it answers |
| `BlobSurvival.OpenedGetAnswers` | SERVER/src/main.rs:652-655 | a read that has opened the file answers it in full, also after the time to live and whatever becomes of the name |
| `StoreRefinement.PutRefines` | SERVER/src/main.rs:606-618 | the steps of a put without interruption, its writes cut anyhow, do to the files, and answer, what the sequential server does; only when the temporary name is taken nothing is stored and nothing answered |
| `StoreRefinement.GetHitRefines` | SERVER/src/main.rs:631-661 | the same for a get that finds a blob within its time to live |
| `StoreRefinement.GetMissRefines` | SERVER/src/main.rs:631-650 | the same for a get that misses or removes an expired blob |
| `StoreRefinement.CollectionRefines` | SERVER/src/main.rs:434-480 | the same for a walk of the collector over all blob files |
| `DropServer.DropServer.HandleClient` | SERVER/src/main.rs:498-671 | the handler, on the octets of a connection, is the request parser and the answers the lemmas are about; other drops of the process keep their limits |
| `DropServer.DropServer.Put` | SERVER/src/main.rs:579-618 | limit, body, work, existence, store: in this order |
| `DropServer.DropServer.WalkAndGc` | SERVER/src/main.rs:434-480 | the walk removes exactly the expired files and counts them |
| `DropServer.ServeKeeps` | SERVER/src/main.rs:498-671 | whatever a connection sends, a stored blob that has not expired stays as it is |
| `DropServer.PutKeeps` | SERVER/src/main.rs:536-618 | a put removes nothing, expired or not |
| `DropServer.ParsesIff` | SERVER/src/main.rs:513-577 | which command lines are which request, exactly, for any line: length, words, key, numbers and the size limit |
| `DropServer.AnswersMean` | SERVER/src/main.rs:536-664 | to any octets of a connection: OK iff limit, body and work admit the blob and nothing is stored; EXISTS iff they do and something is; MISS leaves nothing there; data is what is stored, in time; ERR and silence change no file |
| `DropServer.ServeKeepsSmall` | SERVER/src/main.rs:569-577 | whatever connections send, no stored blob is ever above the size limit |
| `DropServer.HexIsKey` | SERVER/src/main.rs:301-307 | the keys of the program, hexadecimal digests, pass the key check |
| `DropServer.PutRequestParses` | src/deaddrop.rs:390-398 | what the client writes for a put is, for the server, the same key, size, counter and blob; above the size limit it is refused |
| `DropServer.GetRequestParses` | src/deaddrop.rs:591-595 | what the client writes for a get is, for the server, a get of that key |
| `DropServer.PutRepliesRead` | src/deaddrop.rs:400-453 | the client tells the answers OK, EXISTS, ERR and silence apart |
| `DropServer.PutReplyIff` | src/deaddrop.rs:400-453 | any reply but the two words for a store and a find counts as a failure |
| `DropServer.GetReplyReads` | src/deaddrop.rs:597-635 | the reply to a get reads back as exactly the stored data, whatever octets it holds |
| `DropServer.GetRepliesRead` | src/deaddrop.rs:597-621 | MISS, ERR and silence give the client no data, and are told apart |
| `DropServer.FoundIff` | src/deaddrop.rs:597-645 | a reply gives data iff its header is OK and a size, and then exactly so many octets |
| `DropClient.PutThenGet` | src/deaddrop.rs:492-694 | if a put reports a store on some drops, then whatever anyone sends those servers between, during and after the visits, a get within the time to live returns the blob from each of them that is still listed and reachable |
| `DropClient.StoredWhereReported` | src/deaddrop.rs:512-559 | every drop that reports a store holds the blob after all tasks have run, whatever others sent meanwhile within the time to live |
| `DropClient.StoresAreReported` | src/deaddrop.rs:512-559 | the converse: a drop on which a visit stored, and whose reply came back, is reported under OK |
| `DropClient.PutOneStatus` | src/deaddrop.rs:330-453 | a put on one drop is a store, or a find, iff the drop is reachable, limit and work admit it, its reply comes back, and nothing, or something, is stored under the key |
| `DropClient.StoresIff` | src/deaddrop.rs:330-398 | a visit puts the blob on the drop iff the drop admits it and nothing is stored, whether or not the reply comes back |
| `DropClient.CompletionOrderIrrelevant` | src/deaddrop.rs:534-566 | status and reported drops do not depend on the order in which the tasks end |
| `DropClient.CollectPuts` | src/deaddrop.rs:534-566 | the loop over finished tasks: OK iff some task stored, EXISTS iff none did and some found; then exactly the drops with that outcome are reported, as often as they had it; else nothing |
| `DropClient.GetsKeep` | SERVER/src/main.rs:405-480 | any connections and collections within the time to live, our gets among them, leave a stored blob in place |
| `DropClient.GetFinds` | src/deaddrop.rs:583-694 | a get meets a held blob on every listed and reachable drop, whatever others do between its visits |
| `DropClient.GetOneMeans` | src/deaddrop.rs:583-645 | a get of one drop gives the blob it holds in time, else nothing |
| `DropClient.GetsAreHeld` | src/deaddrop.rs:583-694 | nothing else is ever returned: what a get gives for a drop, the drop held in time under the key when it was visited |
| `DropClient.CollectGets` | src/deaddrop.rs:583-694 | the loop over the drops, one after the other, while others go on |
| `Protocol.Encode` | src/protocol.rs:99-112 | the buffer is the wire form of the frame; refused exactly above the size limit |
| `Protocol.DecodeEncode` | src/protocol.rs:99-146 | decoding undoes encoding |
| `Protocol.EncodeDecode` | src/protocol.rs:114-146 | octets that are accepted are the one encoding of the frame they decode to |
| `Protocol.TypeByteBijective` | src/protocol.rs:26-71 | type octets and types correspond one to one |
| `Protocol.MagicAfterJunk` | src/protocol.rs:152-171 | junk without a magic cannot complete one with the frame behind it |
| `Protocol.ReadsPastJunk` | src/protocol.rs:148-204 | after such junk the reader returns the next frame and leaves exactly what follows |
| `Protocol.ReadsEveryFrame` | src/protocol.rs:148-204 | any run of junk-separated frames is read back in order |
| `Protocol.ReadIgnoresLater` | src/protocol.rs:148-204 | octets that arrive later change nothing about a frame that is complete |
| `Protocol.DecodeIffReadWhole` | src/protocol.rs:114-204 | on octets that start with the magic, the codec accepts iff the stream reader takes everything |
| `Protocol.HeaderRefusedIff` | src/protocol.rs:173-196 | a header is refused exactly for another version, an octet that stands for no type, or a size above the limit, each by its own error |
| `Protocol.DecodeRefusedIff` | src/protocol.rs:114-146 | and octets exactly for too few of them, another magic, a refused header, or another length than the header says |
| `Protocol.Reader.SkipPastMagic` | src/protocol.rs:152-171 | the octet loop with its four-octet buffer stops right behind the first magic |
| `Protocol.Reader.ReadFrom` | src/protocol.rs:148-204 | the reader method returns and leaves what the stream function says, errors included |
| `LiveStream.BufferedSource.ReadLine` | src/sam.rs:684-721 | for every chunking: the text before the first newline, trimmed, and every later octet left for the frame reader; it fails only for end of file, the last poll failing, a cancellation, or bad text, looks for a cancellation before every wait, and loses nothing when it fails |
| `LiveStream.BufferedSource.TakeLine` | src/sam.rs:704-712 | one turn moves the buffer to the line, or the part before a newline, and loses nothing |
| `LiveStream.HandOverLosesNothing` | src/sam.rs:548-552 | what follows the answer line reads back as the frames that were sent |
| `LiveStream.PartReadsOrWaits` | src/sam.rs:594-605 | a reader with part of the stream takes the first frame whole or waits; it never sees a refused header |
| `LiveStream.ReadsIffWhole` | src/sam.rs:594-605 | a read completes exactly when all octets of the first unread frame have arrived |
| `LiveStream.LiveConnection.ReaderTurn` | src/sam.rs:591-608 | a turn queues the first unread frame iff all its octets have arrived; else it changes nothing, but for closing when the stream is cut and nothing is in flight |
| `LiveStream.LiveConnection.TryRecv` | src/sam.rs:667-669 | the application takes the oldest queued frame |
| `LiveStream.LiveConnection.PeerSends` | src/sam.rs:655-665 | a whole frame enters the pipe |
| `LiveStream.LiveConnection.ValidIsLossless` | src/sam.rs:591-669 | popped then queued is a prefix of sent, and before a cut the frames in the pipe are all that is missing |
| `LiveStream.LiveConnection.Drain` | src/sam.rs:591-669 | liveness: on a connection neither cut nor closed, once all has arrived, turns and receives give every frame that was sent |
| `LiveStream.StaysOpen` | src/sam.rs:591-609 | in every script without a cut or a close the connection stays open, whatever turns fall between the fragments |
| `LiveStream.AllIsReceived` | src/sam.rs:591-669 | liveness, for every such script: when the rest has arrived, enough turns and receives give the application exactly what was sent |
| `LiveStream.ClosesOnlyAtTheEnd` | src/sam.rs:603-608 | without a close of the application the connection closes only after a cut, with nothing in flight and no whole frame left to read |
| `LiveStream.BreakIsNoticed` | src/sam.rs:603-608 | after a cut, when the rest has arrived, it closes after as many turns as frames are left and one more |
| `LiveStream.ClosedForGood` | src/sam.rs:620-645 | once closed nothing more is queued, in any continuation, and what was queued can still be received |
| `LiveStream.RunConnection` | src/sam.rs:581-669 | in every run of sends, arrivals in any fragments, reader turns, receives, cuts and closes: the final state, the frames sent and the frames received are those of the script, nothing is lost or reordered, and without a cut or a close the connection is open |
| `OfflineState.SaveLoad` | src/storage.rs:993-1160 | the text saved for a state loads as exactly that state |
| `OfflineState.AnyOrderParses` | src/storage.rs:995-1083 | the saved lines in any order, repeated or mixed with blank or unknown-key lines, load as the same state |
| `OfflineState.SavedLineTakesField` | src/storage.rs:1008-1082 | a saved line sets its own field and no other |
| `OfflineState.ConsumedParses` | src/storage.rs:1033-1040 | a list of numbers, the empty one included, prints and parses back |
| `OfflineState.MissingParses` | src/storage.rs:1049-1062 | so do the nested records of missing indexes |
| `OfflineState.SkippedParses` | src/storage.rs:1063-1075 | so do the nested records of skipped indexes |
| `OfflineState.LoadedInRange` | src/storage.rs:993-1085 | whatever text the file holds, the state that is loaded has every field in the range of its type |
| `OfflineState.BadValue` | src/storage.rs:1008-1082 | a value that is no secret or no number leaves its field as it was; only the highest index becomes none |
| `OfflineState.BadEntrySkipped` | src/storage.rs:1033-1075 | an entry of a list that does not parse is skipped and the others stay |
| `OfflineState.ExtraPartsIgnored` | src/storage.rs:1049-1075 | parts behind those of an entry are not looked at |
| `OfflineState.UnendedLineCounts` | src/storage.rs:995-999 | the last line counts also without a newline |
| `OfflineState.EmptyFileLoads` | src/storage.rs:226-239 | without a line for it a field has its default |
| `OfflineState.Save` | src/storage.rs:1100-1160 | the line-by-line writer makes that text |
| `OfflineState.Load` | src/storage.rs:993-1085 | the line-by-line reader is the parser the round trip is about |
| `ContactRename.RenameContact` | src/storage.rs:646-732 | it succeeds iff both names are allowed and either they are the same and the metadata loads, or the checks pass, the metadata can be printed, the ten calls work and the new place is free; each refusal happens under its own condition and touches nothing; whatever fails and wherever the program stops, the contact is whole in exactly one of its three places with its metadata; when every call after the first that fails works, a failure leaves it as it was, and without a trace unless the atomic write was cut short |
| `ContactRename.CarryOut` | src/storage.rs:684-731 | the same for the part after the checks |
| `ContactRename.Stage` | src/storage.rs:685-692 | moved aside and hidden iff both calls work; else undone when the calls after the first failing one work |
| `ContactRename.Complete` | src/storage.rs:694-731 | the eight calls from the staging directory to the new place, or undone in the same way |
| `ContactRename.WriteNewMeta` | src/storage.rs:905-923 | the atomic write leaves at most one stray file of the new name |
| `ContactRename.RollBack` | src/storage.rs:704-728 | when the calls of the undo work, the old directory has its old metadata and all other files again, and none of the new metadata |
| `ContactRename.MoveToNewName` | src/storage.rs:723-731 | the last rename, which works iff the call does and the place is free, and the clean-up; else undone |
| `ContactRename.FinishedLoads` | src/storage.rs:694-774 | afterwards the contact loads under the new name as the metadata it had, and not under the old one |
| `ContactRename.OnlyNameChangesIff` | src/storage.rs:765-772 | the metadata written is the metadata stored with the new name iff its tunnel settings were in range |
| `ContactRename.NormalizedIff` | src/storage.rs:765-774 | loading gives tunnel settings in range and changes exactly those that were not |
| `ContactRename.RenameWithoutHops` | src/storage.rs:646-772 | a rename, run: the contact stored without hops has two afterwards |
| `ContactRename.SpecialNamesDiffer` | src/storage.rs:687-695 | the four file names of a rename never coincide for valid names |
| `ContactRename.SafeKeepsApart` | src/storage.rs:656-664 | contacts whose names differ in more than case stay so in every state a rename leaves the disk in |
| `ContactRename.TakenIffOther` | src/storage.rs:656-664 | a name counts as taken exactly when another contact has it, case aside, so a contact can change the case of its own |
| `ContactRename.ValidNamesStayInside` | src/storage.rs:833-860 | the files of an allowed name lie in the directory itself, and the name is none of the reserved ones |
| `ContactRename.NewNameAllowedIff` | src/storage.rs:862-877 | the new name is one that contacts may have iff no white space stood before the reserved prefix |
| `ContactRename.SpacedPrefixSlips` | src/storage.rs:646-654 | such a name |
| `Vault.RunSessions` | src/vault.rs:47-107 | in any run of sessions in which closing follows a successful opening, with any failures and stops: the newest tree, the last edit that was written, is at every step whole in the plaintext directory or what the vault decrypts to; when nothing fails and each session opens with the passphrase of the last, every session opens, writes and closes |
| `Vault.VaultStore.FsEncrypt` | src/vault.rs:47-77 | closing over any plaintext: it succeeds iff the passphrase is not blank, the directory is there, the key derives and its seven calls work; until the vault is replaced nothing is lost, after success the vault opens to exactly that plaintext, so it has the newest tree iff the plaintext was the newest tree; over the plaintext of an opening every step is safe |
| `Vault.VaultStore.FsDecrypt` | src/vault.rs:79-107 | it succeeds iff the passphrase is not blank, nothing is in the way, the vault opens to a store and its two calls work; it never changes the vault, leaves alone what it refuses, and when it succeeds restores exactly the tree last sealed |
| `Vault.SealingAnotherTreeLoses` | src/vault.rs:60-75 | a vault gives the newest tree under some passphrase iff that is the tree that was sealed |
| `Vault.CloseTwice` | src/vault.rs:66-76 | the run that loses data: a close whose removal fails half-way, and a second close over what was left |
| `Vault.IdealIsMet` | src/vault.rs:200-277 | there are ciphers, archives and headers that meet all the laws assumed here |
| `Vault.PayloadRoundTrip` | src/vault.rs:200-277 | a sealed payload opens to itself under its passphrase, and under another to itself or not at all |
| `Vault.UnframeFramed` | src/vault.rs:231-250 | header and body are found again behind magic and length |
| `Vault.OpenedHeader` | src/vault.rs:231-277 | whatever file opens names this format, version and these algorithms, and has a nonce of the right length |
| `Vault.CutFileRefused` | src/vault.rs:231-250 | a file cut short before its ciphertext is refused |
| `Rendezvous.HandshakeCompletes` | src/rendezvous.rs:159-364 | honest parties within the clock skew, every step before expiry: all five steps succeed with the same secret and expiry on both sides |
| `Rendezvous.AnswerHonest` | src/rendezvous.rs:189-243 | an honest request is answered iff it is not too far in the future and not expired |
| `Rendezvous.OpenHonest` | src/rendezvous.rs:246-293 | its answer is opened exactly until the access expires |
| `Rendezvous.AuthHonest` | src/rendezvous.rs:295-364 | a proof with the shared secret is made and accepted exactly until expiry |
| `Rendezvous.IssuedLifetime` | src/rendezvous.rs:198-242 | for any text: the access outlives neither 15 minutes from the answer nor the request, no far-future request is answered, and none of another format or with fields of another length |
| `Rendezvous.OpenedLifetime` | src/rendezvous.rs:246-293 | for any text: an opened access never outlives the request, is not over yet, and is what a payload for this request carries |
| `Rendezvous.RefusedUnread` | src/rendezvous.rs:246-330 | texts above 16 KiB are not looked into, and after its expiry a request takes no answer |
| `Rendezvous.TranscriptInjective` | src/rendezvous.rs:387-424 | transcripts are equal iff request, nonce, caller and receiver are, addresses up to case |
| `Rendezvous.HugeCallerCollides` | src/rendezvous.rs:421-424 | for every caller of more than 32 bits of length there are a receiver and another pair with the same transcript |
| `Rendezvous.TellsApartIff` | src/rendezvous.rs:387-424 | transcripts tell four values apart for all callers up to a length iff that length fits 32 bits |
| `Rendezvous.AddressTranscripts` | src/rendezvous.rs:387-424 | between addresses of the program a transcript fixes the request, the nonce and the digests of both destinations |
| `Addresses.AddressInjective` | src/sam.rs:566-576 | addresses are 60 characters long and equal up to case iff the digests are |
| `Addresses.AddressForm` | src/sam.rs:566-576 | letters, the digits 2 to 7, and the ending |
| `Rendezvous.AcceptedProofsWereMade` | src/rendezvous.rs:325-364 | under an unforgeable MAC an accepted proof was made for the same request, nonce, caller and receiver |
| `Rendezvous.KeyMaterialInjective` | src/rendezvous.rs:405-419 | key material is equal iff shared key, request id and request nonce are |
| `Rendezvous.OpenedAnswersWereForThisRequest` | src/rendezvous.rs:246-276 | an answer that opens was encrypted for this request |
| `Rendezvous.IdealIsMet` | src/rendezvous.rs:159-364 | there are primitives that meet all the laws assumed here |
| `Rendezvous.AuthTranscript` | src/rendezvous.rs:387-403 | the buffer filled field by field is the transcript |
| `Rendezvous.DeriveMaterial` | src/rendezvous.rs:405-414 | the buffer filled field by field is the key material |
| `SamRuntime.Run` | src/sam_runtime.rs:68-286 | in every run by one owner the runtime, every token and every answer of a shutdown are those of the book kept operation by operation; without an early clear every token held once closing has begun is cancelled |
| `SamRuntime.ShutsDownForGood` | src/sam_runtime.rs:68-75 | in every run that does not clear before closing: once closing has begun, every token still held is cancelled |
| `SamRuntime.ClosedForGood` | src/sam_runtime.rs:174-208 | once closing, for every continuation: no token is given out, none that was cancelled or dropped comes back, and every kind stays marked cancelled |
| `SamRuntime.CloseCancelsIff` | src/sam_runtime.rs:68-172 | closing cancels every live token iff none was forgotten |
| `SamRuntime.EarlyClearForgets` | src/sam_runtime.rs:262-286 | clearing before closing leaves a token live |
| `SamRuntime.ShutdownsAgree` | src/sam_runtime.rs:77-93 | until the next clear every shutdown gives the client of the first, and all streams registered so far |
| `SamRuntime.Runtime.Parts` | src/sam_runtime.rs:174-208 | nothing while closing, else the client and a new tracked token |
| `SamRuntime.Runtime.Cancel` | src/sam_runtime.rs:95-172 | exactly the tracked tokens of the kind that are still held are cancelled, and they stay tracked |
| `SamRuntime.Runtime.BeginClosing` | src/sam_runtime.rs:68-75 | nothing is handed out any more, exactly the tracked tokens still held are cancelled, every send task is aborted |
| `SamRuntime.Runtime.ShutdownParts` | src/sam_runtime.rs:77-93 | the client of the first shutdown since the last clear and all registered streams |
| `SamRuntime.Runtime.ClearShutdownState` | src/sam_runtime.rs:262-286 | streams, tokens and the closing client are forgotten |
| `SamRuntime.CancelTokens` | src/sam_runtime.rs:98-108 | the retain loop cancels and keeps exactly the tokens still held |

## Left out

- History.Load: the JSON of a line is not modelled; a line is an event or is skipped. Deleting a history is one removal.
- HistoryOctets.ReadBackIff: octets that are no UTF-8 are not told apart from other lines that are no event; that a torn text and an event behind it are no event is a hypothesis of the clause that says so.
- DropTraffic.StoresPerMinute: a handler that times out may stay until it leaves; connections turned away pause the loop like the others; errors of the accept loop only lengthen the pause.
- BlobSurvival.SurvivesIff: a temporary file of an earlier process under a name now in use, or one the collector removed under a writer, is excluded by hypothesis; so it is in `WriteOnce.WriteOnceIff` and `WriteOnce.BothStore`.
- BlobStore.AnswersAreSubmittedBlobs: the digests of the keys in the run are assumed to differ; a look or a read that fails for another reason than a missing file ends the connection.
- BlobStore.StepKeepsInv: directories of the digest prefixes and flushing to disk have no effect in the model.
- DropServer.DropServer.HandleClient: white space in request lines is ASCII white space, lines are not decoded as UTF-8; a time-out reads as the octets that arrived; the limit of 32 active clients per drop and the pause of the accept loop are in `DropTraffic` only.
- DropClient.PutThenGet: SAM sessions, retries, latencies and statistics are not modelled; at each visit a drop is reachable or not, and its reply comes back whole or not at all.
- ProofOfWork.FindPowCounter: that some counter passes is a hypothesis; without one the loop of the program does not end.
- LiveStream.LiveConnection.PeerSends: frames are written whole under the lock; a write that fails half-way is a cut of the stream.
- OfflineState.AnyOrderParses: white space is ASCII white space; the file name made from the peer address is not modelled.
- ContactRename.RenameContact: the file system is case-sensitive; creating the base layout before the checks is not modelled.
- Vault.VaultStore.FsDecrypt: the refusal of unsafe archive paths is not modelled, since archives here are those the program wrote; edits are assumed to keep the two top directories.
- Rendezvous.HandshakeCompletes: base64 and JSON are one reader and one writer per record; that the three texts fit 16 KiB is a hypothesis.
- SamRuntime.Run: one owner; clones share the tokens but not the closing flag. The handles of accept, connect and lookup tasks, which are only dropped, are not modelled.
- The GUI state machine (`src/app.rs`) is not part of this model; neither are receive windows, server ranking and the states an issued access goes through.
- `src/backup.rs`, `src/e2e.rs`, `src/group_invite.rs`: they repeat the shapes of vault and rendezvous, or are thin over libraries, and would add easier members only.
- Sockets, SAM commands, argument parsing, permissions and packaging.
