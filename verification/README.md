# iClaustron: verified models

Dafny models of six stateful parts of iClaustron, with proofs about them.
`dafny verify dfyconfig.toml` checks everything.

1. **Line-framed management protocol** (`Framing`, `ByteStream`, `Connection`,
   `ProtocolLines`, `EndToEnd`, `Decimal`). A connection object with two fixed
   buffers, over a socket that is an environment: scripts of receive and send
   events stand for every chunking, partial send, interrupt, time-out and error.
   The main theorems are `LinesInEqualLinesOut` and, with success of the sender
   proved from the script, `LinesAreDelivered`.
2. **Socket buffer page pool** (`PoolLayout`, `SockBufPool`, `PoolRuns`,
   `PoolMemory`, `PoolSteps`). The linked-list code is proved against operations
   on lists of pages; runs of those operations, which the methods carry out step
   by step, conserve pages, and no two callers share a byte of buffer
   (`RunsShareNoByte`).
3. **Poll set** (`PollSet`, `PollScan`, `PollUsers`). The sparse table of the
   epoll form and the compact one of the poll form, what the kernel was told,
   whole scans, and whose connection is reported (`ReportedIsLastAdded`).
4. **Bootstrap pipeline** (`Symbols`, `LexHash`, `KeywordHashes`, `BootLex`,
   `BootCommands`, `BootGrammar`, `BootPrint`, `BootHosts`, `BootSplit`,
   `BootFile`, `BootGenerate`, `BootContents`, `NodeIds`, `NodeRuns`,
   `NodeLimits`, `BootEffects`, `BootRun`, `CopyConfig`).
   Generator, command splitter, lexer with its hash-only keyword table, grammar,
   node id checks and the copying of config.ini. The theorem that spans all of
   them is `BootstrapOfGeneratedFile`; what the file says is `GeneratedFileSays`.
   Most of it holds for any keyword table without collisions; `KeywordHashes`
   shows that the search finds one.
5. **Base64** (`Base64`, `Base64Decode`), against sections 4 of RFC 4648 and 6.8
   of RFC 2045.
6. **Debug mutex tracker** (`MutexTracker`), as interleaved steps of threads.

Where the code does not do what it is meant to do, the model follows the code
and an if-and-only-if lemma says when the intended property holds:

- Returning more than one page to the pool loses pages: the reversed chain is
  spliced at the wrong end (`ReturnConservesIffSingle`; the intent is at
  include/ic_sock_buf.h:58-63).
- A failed receive leaves stale sizes in the connection (`ErrorKeepsStreamIff`,
  `TimeoutRepeatsLine`).
- An fd added to a poll set twice (`DuplicateAddRollsBackIff`,
  `DuplicateAddLosesReady`, `DuplicateOutlivesRemoval`, `CarriesFill`,
  `SecondAddReportsFirst`), or again after it was closed and not removed
  (`EntryOutlivesRegistration`).
- A pool grows by too little memory when the page size is within a descriptor of
  32 bits (`IncAllocatesEnoughIff`).
- Keys of the mutex tracker that coincide (`SafeIffInjective`,
  `NoFalseAlarmIffInjective`, `SourceKeyCollides`, `SourceKeySafeIff`).
- Identifiers whose hash meets a keyword are taken for it (`WordIsTakenByHash`,
  `HostsDecide`), and a host that holds a separator changes the command
  (`InjectedHost`). Such a host holds characters that the configuration reader
  refuses in a value (util/ic_config_reader.c:303-308), so it can not come from a
  configuration file; the host of `BlankHost` can.
- A PREPARE that is rejected behind its node id is recorded and never checked, so
  node ids can repeat without the flag (`RunsKeepDistinctIff`, `UniqueIff`,
  `OnlyRecordsIff`, `StrayTwice`, `BlankHost`).
- Behind a full list of data, file, replication or SQL servers the parser records
  nothing and the checks read the next array (`CheckIsRightIff`,
  `RunsBehindTheList`, `DuplicateBehindTheList`, `DistinctBehindTheList`).
- A number line of more than 127 characters is cut (`NumberLineReadsBack`).
- A return value that is never set can end the copying early
  (`EachOnceAlwaysIff`, `EachOnceIff`, `UnsetValueCanEndTheRun`).
- Servers other than data servers may not share a node id even in different
  clusters, so a configuration in which they do is generated but refused when
  its own file is executed (`BootstrapOfGeneratedFile`).

Methods carry the loops and in-place updates of the source and are proved to
compute a specification function or to keep a stated invariant; the lemmas are
about those functions.

## Model

| member | source | states |
|---|---|---|
| `Framing.FrameInjective` | comm/ic_protocol_support.c:254-320 | a list of CR-free lines is determined by its wire image |
| `Framing.FirstLineOfPrefix` | comm/ic_protocol_support.c:276-300 | a prefix of the wire that shows a CR shows the whole first line, and what follows is a prefix of the rest |
| `ByteStream.Read` | comm/ic_connection.c:1381-1444 | one read takes at most the room given off the front of the stream, or nothing on an error; interrupts are retried |
| `ByteStream.ReceiveConserves` | comm/ic_protocol_support.c:254-320 | on every network script a receive takes exactly one line and its CR off the stream, or takes no byte out of it |
| `ByteStream.ReceiveIsBounded` | comm/ic_protocol_support.c:276-318 | a receive makes at most as many successful reads as its buffer has free bytes; `RecWithCr` returns the number it made and ties it to this one |
| `ByteStream.ReceiveDecidedByStream` | comm/ic_protocol_support.c:276-318 | without faults the outcome depends on the bytes and not on their chunking: a line comes back exactly when a CR stands within the buffer size |
| `ByteStream.Write` | comm/ic_connection.c:1081-1208 | the write loop sends a prefix of the buffer, reports success exactly when it sent all of it, and goes on after a partial send; the rounds and seconds it counts |
| `ByteStream.WriteIsDecided` | comm/ic_connection.c:1081-1208 | what a write returns, read off the script alone: the first event that takes the last byte, is an error other than an interrupt, or is the last of the rounds allowed to expire |
| `ByteStream.WriteSucceedsIff` | comm/ic_connection.c:1081-1208 | a write succeeds exactly on the scripts in which, before all bytes are taken, no error but interrupts comes and fewer rounds expire than the seconds to try |
| `Connections.Connection.constructor` | comm/ic_connection.c:2004-2030 | a new connection has two empty buffers of the same size |
| `Connections.Connection.ReadConnection` | comm/ic_connection.c:1381-1444 | the bytes of one read are put at the offset and no other byte of the buffer changes; retries on interrupts |
| `Connections.Connection.RecWithCr` | comm/ic_protocol_support.c:254-320 | the sliding-buffer loop refines ReceiveLine: line, unread rest and environment on success; on an error the exact stale state it leaves; and the number of successful reads it made |
| `Connections.Connection.WaitAndRead` | comm/ic_connection.c:80-106 | one round of waiting and reading: time-out, read error, or a longer buffer from which the receive goes on |
| `Connections.Connection.StepBack` | comm/ic_protocol_support.c:236-242 | the line just read is in front of the unread bytes again |
| `Connections.Connection.WriteConnection` | comm/ic_connection.c:1081-1208 | the partial-write loop refines Write: result, script left, and exactly the bytes the socket took |
| `Connections.Connection.Flush` | comm/ic_connection.c:1210-1224 | the whole write buffer is handed to the socket and the buffer is empty afterwards, even on an error |
| `Connections.Connection.SendWithCr` | comm/ic_protocol_support.c:866-896 | a line and its CR are buffered behind what is pending, after a flush when they do not fit |
| `Connections.Connection.SendEmpty` | comm/ic_protocol_support.c:972-982 | an empty line, then a flush |
| `EndToEnd.SenderEmitsFrame` | comm/ic_protocol_support.c:866-896 | under every schedule of partial sends the bytes taken by the socket are a prefix of the frame of the lines, and with the pending bytes all of it unless an error occurred |
| `EndToEnd.ReceivedLinesAreSent` | comm/ic_protocol_support.c:254-320 | on every script the lines received from a prefix of a frame are the first lines of it, complete and in order |
| `EndToEnd.AllLinesArrive` | comm/ic_protocol_support.c:254-320 | if all bytes arrive without fault and the lines fit, all lines are received |
| `EndToEnd.LinesInEqualLinesOut` | comm/ic_protocol_support.c:866-982 | lines in equal lines out: for all lines, all partial sends and all chunkings, received lines are a prefix of those sent, and all of them when nothing failed |
| `EndToEnd.LinesAreBuffered` | comm/ic_protocol_support.c:866-896 | lines that fit the write buffer together are buffered as their frame and the socket is not used |
| `EndToEnd.SenderSucceeds` | comm/ic_protocol_support.c:866-982 | on every script of partial sends, none of them late, and interrupts, fewer than 998 in a row, all sends succeed |
| `EndToEnd.LinesAreDelivered` | comm/ic_protocol_support.c:866-982 | with nothing assumed of the sender but such a script: the sends succeed, the socket takes the whole frame, and received lines are the lines sent |
| `EndToEnd.LongLineIsAnError` | comm/ic_protocol_support.c:302-318 | a line that does not fit the buffer is an error and never a shorter line |
| `EndToEnd.FailureIsDecidedByScript` | comm/ic_protocol_support.c:268-318 | a receive fails exactly when no CR comes before the first fault of the network script, and has then seen exactly what came before |
| `EndToEnd.BytesAre` | comm/ic_protocol_support.c:276-300 | a failing receive has taken what the script delivers before its first failure, cut at the room there is |
| `EndToEnd.FailureHasCode` | comm/ic_protocol_support.c:268-318 | its code is that of the first failure of the script, or the one for a full buffer when that is full before |
| `EndToEnd.ErrorKeepsStreamIff` | comm/ic_protocol_support.c:268-318 | after a failed receive the connection still holds the whole stream exactly when the bytes delivered before the fault are as many as had been used up of the buffer |
| `EndToEnd.TimeoutRepeatsLine` | comm/ic_protocol_support.c:268-315 | in a buffer of any size, a time-out right after a line was used up makes the next receive return that line a second time |
| `EndToEnd.ReceiveLines` | comm/ic_protocol_support.c:254-320 | receives on a connection carry out the run of the receiver |
| `EndToEnd.PerformAll` | comm/ic_protocol_support.c:866-982 | sends on a connection carry out the run of the sender |
| `ProtocolLines.RecSimpleStr` | comm/ic_protocol_support.c:529-563 | the expected line is used up; any other is put back; the code says whether that was allowed |
| `ProtocolLines.RecNumber` | comm/ic_protocol_support.c:616-650 | a line that starts with the prefix and holds a number behind it is used up and the number returned unless too large; any other line is put back when the number is optional and refused when it is not |
| `ProtocolLines.RecString` | comm/ic_protocol_support.c:447-482 | the line is used up and what stands behind the prefix returned, or a protocol error for a line that does not start with the prefix and go on |
| `ProtocolLines.RecOptString` | comm/ic_protocol_support.c:406-434 | as the string receive, but an empty line is put back; any other line that does not start with the prefix is a protocol error |
| `ProtocolLines.AfterPrefixIff` | comm/ic_protocol_support.c:169-228 | a text is taken from a line exactly when the line is the prefix, a space and the text, or the prefix and directly behind it a text that is not empty and starts with no space |
| `ProtocolLines.NumberLineIff` | comm/ic_protocol_support.c:169-228 | a line is read as a number exactly when such a text is blanks, a sign and digits that stand for it, zero only as "0" |
| `ProtocolLines.OtherPrefix` | comm/ic_protocol_support.c:176-180 | a line that does not start with the prefix, or ends with it, is no number line and no string line |
| `ProtocolLines.PutBackIsReread` | comm/ic_protocol_support.c:236-242 | a line put back is the next line again, without any read |
| `ProtocolLines.AlternativesAreAChoice` | comm/ic_protocol_support.c:529-650 | optional receives tried in turn are a choice on the next line: exactly the first alternative that recognises it takes exactly one line, with an error code only for a number too large |
| `ProtocolLines.TryAlternatives` | comm/ic_protocol_support.c:529-650 | optional receives on a connection carry out that choice |
| `ProtocolLines.MismatchesKeepTheStream` | comm/ic_protocol_support.c:529-650 | alternatives that do not match leave every byte of the stream unread |
| `ProtocolLines.SendComposed` | comm/ic_protocol_support.c:926-945 | the strings are sent as one line, joined by single spaces |
| `ProtocolLines.NumberLineReadsBack` | comm/ic_protocol_support.c:906-916 | a number line is read back as its number exactly when it fits the 128-byte buffer |
| `ProtocolLines.StringLineReadsBack` | comm/ic_protocol_support.c:447-482 | a line made of a prefix and a string is read back as the string |
| `Decimals.DecimalReadsBack` | util/ic_string.c:1085-1105 | decimal text stands for the number it was printed from |
| `SockBufPool.SockBuf.constructor` | comm/ic_sock_buf.c:318-364 | a new pool has one segment, carved as below, and as many linked free pages as asked for |
| `SockBufPool.SockBuf.NewPages` | comm/ic_sock_buf.c:253-280 | the carved pages form a NULL-terminated list without repetitions, with addresses, buffers and links where `Carved` puts them |
| `SockBufPool.SockBuf.LowGetPage` | comm/ic_sock_buf.c:67-137 | on linked pages: a page of the local list, or a batch of the global list divided between caller and local list; both lists stay acyclic, terminated and disjoint |
| `SockBufPool.SockBuf.GetFromGlobal` | comm/ic_sock_buf.c:89-135 | a refill takes min(batch, free) pages off the front of the global list |
| `SockBufPool.SockBuf.GetPage` | comm/ic_sock_buf.c:28-65 | one page, or a page with a second page as its buffer; if the second is not to be had the first goes back; which buffer every page is left with |
| `SockBufPool.SockBuf.LinkBackwards` | comm/ic_sock_buf.c:174-228 | the loop of a return links all pages, each companion behind its page, in reverse order |
| `SockBufPool.SockBuf.ReturnPages` | comm/ic_sock_buf.c:174-233 | the free list afterwards: the page in front of the old list for a single page, exactly the first page for any longer chain; buffers of their own stay, borrowed ones are cleared but in a page that had a second one |
| `SockBufPool.SockBuf.IncSockBuf` | comm/ic_sock_buf.c:282-316 | a new segment, carved in the memory allocated, is put in front of the free list; without memory, or as a ninth, it is refused and nothing changes |
| `PoolRuns.RefillTakesMin` | comm/ic_sock_buf.c:89-135 | page handed out, new local list and remaining global list are, in order, the old global list; min(batch, free) pages leave it |
| `PoolRuns.GetPagesConserves` | comm/ic_sock_buf.c:28-137 | a get with or without companion neither loses nor duplicates a page |
| `PoolRuns.OnePlaceForEachPage` | comm/ic_sock_buf.c:28-233 | what conservation means: counted over global list, all local lists and callers, a page of the pool has exactly one place and another none |
| `PoolRuns.LocalListsAreApart` | comm/ic_sock_buf.c:28-137 | no local list holds a page twice, and no two lists share one |
| `PoolRuns.FreshPoolIsPartitioned` | comm/ic_sock_buf.c:318-364 | a new pool conserves its pages, with any number of threads |
| `PoolRuns.RunsKeepPartition` | comm/ic_sock_buf.c:28-316 | over every run of gets, single-page returns and growth, all pages are divided between global list, local lists and callers |
| `PoolSteps.GetStep` | comm/ic_sock_buf.c:28-137 | a get on a pool and any number of local lists carries out the step of the run: all lists stay linked and apart, and no list but the caller's own is touched |
| `PoolSteps.GetFreeStep` | comm/ic_sock_buf.c:28-137 | the same for a caller without a local list |
| `PoolSteps.ReturnStep` | comm/ic_sock_buf.c:174-233 | the same for the return of a single page by a caller that holds it |
| `PoolSteps.GrowStep` | comm/ic_sock_buf.c:282-316 | the same for growth: the new pages are in no place yet, and without memory or with eight segments nothing changes |
| `PoolSteps.CreateStep` | comm/ic_sock_buf.c:318-364 | a new pool and callers with empty lists are at the start of a run that satisfies all invariants |
| `PoolMemory.HeldShareNoByte` | comm/ic_sock_buf.c:28-65 | the buffer of a page a caller holds shares no byte with another page of the pool, other than the second page it consists of, nor with the buffer of that page |
| `PoolMemory.RunsKeepLaid` | comm/ic_sock_buf.c:28-316 | over every run, whatever the page size, pages lie apart, buffers of their own lie apart, and a borrowed buffer is in the held page or its second page, which serves no other |
| `PoolMemory.RunsShareNoByte` | comm/ic_sock_buf.c:28-316 | at every point of every run the buffers of two pages held by callers, neither the second page of the other, share no byte |
| `PoolMemory.SegmentIsLaid` | comm/ic_sock_buf.c:253-280 | pages and buffers of a segment lie inside it and apart from each other |
| `PoolMemory.FreshPoolIsLaid` | comm/ic_sock_buf.c:318-364 | a new pool satisfies these invariants |
| `PoolMemory.GotHasRoom` | comm/ic_sock_buf.c:28-65 | the page a get hands out has room for the size asked for up to one cache line: in itself up to 64 bytes, in a second page up to 128; otherwise its buffer is the one it had, of the full page size where pages have their own |
| `PoolRuns.ReturnConservesIffSingle` | comm/ic_sock_buf.c:174-233 | a return conserves pages exactly when it is of one page without a companion; otherwise all but the first page and the old list are lost |
| `PoolLayout.SetUpPages` | comm/ic_sock_buf.c:253-280 | where the carving loop puts each descriptor, buffer and link |
| `PoolLayout.PiecesAreDisjoint` | comm/ic_sock_buf.c:253-280 | no two descriptors or buffers of a segment overlap |
| `PoolLayout.PiecesFitIff` | comm/ic_sock_buf.c:253-280 | all pieces lie inside the segment exactly when it has pages * (page size + descriptor size) bytes |
| `PoolLayout.CreateAllocatesEnoughIff` | comm/ic_sock_buf.c:327-350 | the memory asked for at creation is enough exactly when the total is a 64-bit number |
| `PoolLayout.IncAllocatesEnoughIff` | comm/ic_sock_buf.c:282-300 | the memory asked for when growing is enough exactly when, in addition, the two sizes add up within 32 bits |
| `PoolLayout.GrowthCanAskForTooLittle` | comm/ic_sock_buf.c:282-300 | the page sizes for which growing asks for too little |
| `PollSets.PollSet.constructor` | comm/ic_poll_set.c:50-69 | an empty poll set satisfies every invariant |
| `PollSets.PollSet.AddMember` | comm/ic_poll_set.c:71-111 | a fresh connection in the first empty slot (the next one in a compact table), whatever the fd; full table and failed allocation change nothing; one entry per fd is kept exactly when the fd was not there |
| `PollSets.PollSet.RemoveMember` | comm/ic_poll_set.c:113-168 | the member leaves the table and, during a scan, the ready list; the compact table closes the gap with its last entry, the sparse one moves nothing |
| `PollSets.PollSet.GetNextConnection` | comm/ic_poll_set.c:170-188 | the last ready connection, a live member, or NULL and the end of the scan |
| `PollSets.PollSet.EpollAdd` | comm/ic_poll_set.c:209-235 | whatever epoll_ctl answers: after success the new entry has the fd and the user object given and the kernel names its slot, and one entry per fd is kept exactly when the fd was not in the table; what a refused registration leaves of table, ready list and kernel, everything as before when the fd was not registered |
| `PollSets.PollSet.Refuse` | comm/ic_poll_set.c:227-232 | taking the new entry out again, for any fd |
| `PollSets.PollSet.EpollRemove` | comm/ic_poll_set.c:237-280 | table, ready list and registration without the fd, or without one of its entries when it had two; with one entry per fd all other registrations still name their slots |
| `PollSets.PollSet.EpollCheck` | comm/ic_poll_set.c:282-329 | the ready list holds, in order, the connection of each fd the kernel reported |
| `PollSets.PollSet.PollAdd` | comm/ic_poll_set.c:769-783 | the new entry has the fd and the user object given; the pollfd array agrees with the compact table, fd by fd; one entry per fd is kept exactly when the fd was not there |
| `PollSets.PollSet.PollRemove` | comm/ic_poll_set.c:785-800 | the pollfd entry moves with the connection that closes the gap |
| `PollSets.PollSet.PollCheck` | comm/ic_poll_set.c:802-852 | a connection is ready exactly when its own pollfd entry was marked; a failed wait ends the scan with its code |
| `PollSets.VacatedFacts` | comm/ic_poll_set.c:143-168 | giving up a slot removes its connection and no other, and lowers the count of occupied slots by one |
| `PollSets.VacatedKeepsDiscipline` | comm/ic_poll_set.c:143-168 | compact tables stay prefixes, sparse entries stay in the slots they were given |
| `PollSets.FillKeepsAgreement` | comm/ic_poll_set.c:84-111 | filling an empty slot keeps every registered index right |
| `PollSets.VacatedKeepsAgreement` | comm/ic_poll_set.c:143-168 | so does giving up a slot of a sparse table |
| `PollSets.SelectedIff` | comm/ic_poll_set.c:802-829 | a table entry is selected exactly when its position is marked |
| `PollSets.DuplicateAddRollsBackIff` | comm/ic_poll_set.c:209-235 | a second add of a registered fd leaves table, ready list and kernel as before exactly when the first empty slot lies before its slot and it was not waiting in a scan; the kernel still names its slot exactly when the first of these holds |
| `PollSets.DuplicateAddLosesReady` | comm/ic_poll_set.c:125-142 | a second add during a scan takes the waiting connection from the ready list although it stays a member |
| `PollSets.DuplicateOutlivesRemoval` | comm/ic_poll_set.c:769-800 | in the poll form an fd added twice is still in the table after one removal |
| `PollSets.EntryOutlivesRegistration` | comm/ic_poll_set.c:209-266 | in the epoll form an fd whose registration was lost and that is added again keeps an entry after one removal, with no registration; it is the old one exactly when the new one was put before it |
| `PollScan.RemovalMatches` | comm/ic_poll_set.c:125-142 | removal acts on the ready list as the scan model says |
| `PollScan.RunsKeepAccount` | comm/ic_poll_set.c:113-188 | over every mix of reports, removals and additions, each fd ready at the check is exactly once waiting, reported or removed |
| `PollScan.ScanReportsReady` | comm/ic_poll_set.c:113-188 | waiting entries are live, none is reported twice, and at the end those reported are those ready at the check minus those removed before their turn |
| `PollScan.ScanAll` | comm/ic_poll_set.c:71-188 | a poll set carries out such a scan: its ready list, its members and the fds it reports are those of the run, and an addition fails exactly without memory or when the table is full |
| `PollUsers.ReportedIsLastAdded` | comm/ic_poll_set.c:71-188 | over any mix of additions, removals, checks and reports, every connection reported carries the user object of the last successful addition of its fd |
| `PollUsers.NextReport` | comm/ic_poll_set.c:170-188 | each report of a scan that is not used up hands out one connection, that of the last fd waiting |
| `PollUsers.CarriesFill` | comm/ic_poll_set.c:84-111 | a new entry keeps one user object per fd exactly when the fd was not there or was there with the same object |
| `PollUsers.SecondAddReportsFirst` | comm/ic_poll_set.c:769-829 | the poll form takes an fd twice, and a check then puts both entries in the ready list, the old user object reported last |
| `PollUsers.AddUser` | comm/ic_poll_set.c:71-111 | an addition of a new fd, in both forms, carries out the call of such a run |
| `PollUsers.RemoveUser` | comm/ic_poll_set.c:113-168 | so does a removal, in both forms |
| `PollUsers.CheckByEpoll` | comm/ic_poll_set.c:282-329 | so does a check in the epoll form |
| `PollUsers.CheckByPoll` | comm/ic_poll_set.c:802-852 | so does a check in the poll form; the fds found ready are those whose pollfd entries are marked |
| `PollUsers.ReportUser` | comm/ic_poll_set.c:170-188 | the connection handed out is the one the run reports, fd and user object |
| `MutexTracker.StepKeepsTracked` | port/ic_port.c:1817-1890 | every step of lock, unlock and condition wait keeps the table in line with the owners |
| `MutexTracker.SafeIffInjective` | port/ic_port.c:1817-1932 | under every interleaving no thread blocks on a mutex it owns, exactly when no two (mutex, thread) pairs share a key |
| `MutexTracker.ProperStepKeepsExact` | port/ic_port.c:1817-1932 | with proper calls a key is in the table exactly while its thread owns the mutex or is on its way in or out |
| `MutexTracker.NoFalseAlarmIffInjective` | port/ic_port.c:1817-1932 | a program that locks only unheld and releases only held mutexes is never aborted, exactly when no two pairs share a key |
| `MutexTracker.CollisionDeadlocks` | port/ic_port.c:1817-1890 | for any two pairs that share a key, a schedule that ends in a self-deadlock |
| `MutexTracker.SourceKeyCollides` | port/ic_port.c:1817-1840 | thread ids that differ only above 32 bits share all keys, so such a program has neither guarantee |
| `MutexTracker.SourceKeysMeetIff` | port/ic_port.c:1817-1840 | two keys coincide exactly when the low halves of the addresses do and the high halves do together with the thread ids |
| `MutexTracker.SourceKeySafeIff` | port/ic_port.c:1817-1840 | with all mutexes in one 4 GB region a program has both guarantees exactly when its thread ids differ outside the bits of the region |
| `MutexTracker.SourceKeySafeOnSmall` | port/ic_port.c:1817-1840 | with 32-bit mutex addresses and thread ids it has both |
| `Base64.EncodeTableIsAlphabet` | protocol/ic_base64.c:21-30 | the encode table is the alphabet of RFC 4648, section 4 |
| `Base64.DecodeTableIsInverse` | protocol/ic_base64.c:31-40 | the decode table gives the position of every character and marks all others |
| `Base64.Encode` | protocol/ic_base64.c:87-161 | the buffer is exactly the text broken into lines plus a NUL, and exactly as long as computed beforehand |
| `Base64.EncodedLength` | protocol/ic_base64.c:92-105 | 4 * ceil(n/3) characters plus one line break for each 19 groups begun |
| `Base64.SizeIsRightIff` | protocol/ic_base64.c:92-105 | the 32-bit computation of the size is right exactly when the size is a 32-bit number |
| `Base64Decode.DecodeGroup` | protocol/ic_base64.c:55-75 | a group is bad exactly when it has an unknown character or more than two pads; else its six-bit values |
| `Base64Decode.Decode` | protocol/ic_base64.c:42-85 | success exactly for the texts of the language that have room; length and bytes are then those of the six-bit regrouping |
| `Base64Decode.TextIsFaithful` | protocol/ic_base64.c:87-161 | the text of a byte string is in the language and regroups to it |
| `Base64Decode.RoundTrip` | protocol/ic_base64.c:42-161 | encode, remove line breaks, decode gives the input back, in a buffer of its size |
| `Base64Decode.LinesAreShort` | protocol/ic_base64.c:120-155 | no line has more than 76 characters and every line is ended |
| `Base64Decode.BreaksAreAt` | protocol/ic_base64.c:120-155 | a line break stands behind every 76 characters and at the end, and nowhere else |
| `Base64Decode.TextIsSameNumber` | protocol/ic_base64.c:107-155 | characters as six-bit digits, most significant first, make the same number as the bytes filled up with zero bytes |
| `Base64Decode.RegroupIsSameNumber` | protocol/ic_base64.c:42-85 | decoding keeps that number |
| `Symbols.FillTable` | util/ic_lex_support.c:64-82 | the table fails exactly when two symbols share a hash value; otherwise each symbol has its own slot and no other slot is used |
| `LexHash.FindHashFunction` | util/ic_lex_support.c:43-87 | the first of the 10000 parameter pairs that keeps the symbols apart, and failure exactly when none does |
| `KeywordHashes.KeywordsAreApart` | bootstrap/ic_boot_lex.c:30-54 | multiplier 1026 and divider 66 keep the 21 bootstrap keywords apart |
| `KeywordHashes.BootFindHashFunction` | bootstrap/ic_boot_lex.c:310-317 | the search for the bootstrap keywords does not fail and gives a table without collisions |
| `Symbols.WordIsTakenByHash` | util/ic_lex_support.c:89-132 | a word is an identifier exactly when its hash meets no symbol; every word that meets one is taken for it; case does not matter |
| `BootLex.KeywordIsFound` | bootstrap/ic_boot_lex.c:30-54 | with such a table every keyword is recognised, in upper or lower case |
| `BootLex.AddressIsDottedQuad` | bootstrap/ic_boot_lex.c:136-184 | counting dots and digits accepts exactly four dot-separated parts of one to three digits |
| `BootLex.NumberEndAndParts` | bootstrap/ic_boot_lex.c:136-171 | the digit loop finds the end of the word, its dots, and its shortest and longest run of digits |
| `BootLex.FoundNum` | util/ic_config_reader.c:88-141 | digits are converted in 64-bit arithmetic that wraps |
| `BootLex.SkipBlanks` | bootstrap/ic_boot_lex.c:117-125 | the position behind all blanks |
| `BootLex.BlanksAreSkipped` | bootstrap/ic_boot_lex.c:117-125 | spaces, tabs and newlines in front of a token do not change what is read |
| `BootLex.NameEnd` | bootstrap/ic_boot_lex.c:195-218 | the end of the longest identifier |
| `BootLex.Lexer.Next` | bootstrap/ic_boot_lex.c:98-281 | the next token of the specification, with the position moved behind it; on a lexical error the flag, end of input and the old position |
| `BootLex.Lexer.NextNumber` | bootstrap/ic_boot_lex.c:136-194 | numbers, addresses and their errors |
| `BootLex.Lexer.NextName` | bootstrap/ic_boot_lex.c:195-236 | keywords and identifiers and their errors; a word that is looked up has at most the 1024 characters its upper-case copy has room for |
| `BootCommands.PiecesAreLexed` | bootstrap/ic_boot_lex.c:98-281 | lexing undoes printing: words joined by spaces and equal signs come back as their tokens, in order |
| `BootGrammar.SentenceIsParsed` | bootstrap/ic_boot_parser.y:75-327 | every way the grammar allows to write a command is parsed as meant, with its defaults |
| `BootGrammar.ParsedIsSentence` | bootstrap/ic_boot_parser.y:75-327 | every token list that is parsed is one of those sentences |
| `BootSplit.CommandReader.GetLineFromFileContent` | bootstrap/ic_bootstrap.c:1991-2008 | the file pointer moves behind the next separator or to the end |
| `BootSplit.CommandReader.CopyDropping` | bootstrap/ic_bootstrap.c:2036-2044 | the text is appended to the buffer without its newlines |
| `BootSplit.DropIsExact` | bootstrap/ic_bootstrap.c:2036-2044 | newlines are what is dropped, and nothing else |
| `BootSplit.CommandReader.GetLine` | bootstrap/ic_bootstrap.c:2010-2104 | the buffered command reader refines the one-line specification, for any pending text: command, end of input, too long, or no final command |
| `BootSplit.ReadAll` | bootstrap/ic_bootstrap.c:2282-2299 | the loop of main gives the commands and the ending of the whole-file specification, although the parser writes into the buffer; it ends because bytes are used up |
| `BootSplit.SplitIsCutting` | bootstrap/ic_bootstrap.c:1991-2104 | repeated calls cut after each separator and drop newlines: each command once and in order up to the first empty or over-long one, an unterminated tail is an error |
| `BootSplit.CutUp` | bootstrap/ic_bootstrap.c:1991-2008 | every file is such a list of raw commands and a tail |
| `BootSplit.CommandsAreTheFile` | bootstrap/ic_bootstrap.c:1991-2104 | nothing is lost: the commands together are the file without newlines |
| `BootPrint.PrintedIsRead` | bootstrap/ic_bootstrap.c:74-360 | a printed command is lexed as the tokens printed and parsed as the command itself |
| `BootPrint.WordHostsDecide` | util/ic_lex_support.c:89-132 | a printed PREPARE whose hosts are words comes back when both are good and is rejected otherwise |
| `BootHosts.IdentifiersAreGood` | bootstrap/ic_boot_lex.c:98-281 | every identifier the lexer reports is a name that meets no keyword by hash, or an address |
| `BootHosts.HostsDecide` | bootstrap/ic_boot_lex.c:98-281 | for any strings as hosts, a printed PREPARE comes back as itself exactly when both hosts are good |
| `BootHosts.InjectedHost` | bootstrap/ic_boot_lex.c:98-281 | a host that holds a node id and a separator makes the command come back as a different PREPARE |
| `BootEffects.OnlyRecordsIff` | bootstrap/ic_boot_parser.y:176-196 | a rejected text has recorded a server exactly when its tokens start with a whole PREPARE and more follows, a further token or a lexical error |
| `BootEffects.RunFile` | bootstrap/ic_bootstrap.c:1963-1989 | splitting a file and acting on each command, executed or rejected, carries out the run of its actions; without the flag the recorded node ids are distinct exactly when every server recorded unchecked was clean |
| `BootEffects.ReadBackKeepsDistinct` | bootstrap/ic_bootstrap.c:1963-1989 | a file whose commands are all read back records none unchecked: without the flag its node ids are distinct, with no limits |
| `BootEffects.StrayIsRecorded` | bootstrap/ic_boot_lex.c:254-281 | a character that starts no word behind a complete PREPARE: the command is rejected and its server recorded |
| `BootEffects.StrayTwice` | bootstrap/ic_boot_lex.c:254-281 | the text with NODE_ID 1 and a question mark given twice: two file servers with node id 1 are recorded and no flag is raised |
| `BootEffects.BlankHost` | util/ic_config_reader.c:297-318 | a host with blanks, a node id and a slash, which a configuration may hold, makes the printed command record another server unchecked |
| `BootFile.FileIsSplit` | bootstrap/ic_bootstrap.c:1991-2104 | a file of printed commands is split into exactly their texts, then the input ends |
| `BootFile.FileRoundTrip` | bootstrap/ic_bootstrap.c:48-367 | print, split, lex, parse gives the commands printed, in order, and then end of input |
| `BootGenerate.WriteTable` | bootstrap/ic_bootstrap.c:75-135 | one command per server of a table, in node order, and the counters |
| `BootGenerate.WriteClusters` | bootstrap/ic_bootstrap.c:136-276 | the same for all clusters; it stops exactly at a cluster without data server |
| `BootGenerate.GenerateBootstrapFile` | bootstrap/ic_bootstrap.c:48-367 | which configurations are refused with which error, and the text of the file for all others |
| `BootGenerate.ShortHostsFit` | util/ic_config_reader.c:190-207 | a command fits the print buffer when its host names are shorter than a configuration line |
| `BootGenerate.ConfigurationFits` | util/ic_config_reader.c:190-207 | so do all commands of a configuration read from files |
| `BootGenerate.CommandsCountServers` | bootstrap/ic_bootstrap.c:75-268 | exactly one PREPARE for each server that belongs to a table, none for other nodes |
| `BootGenerate.GeneratedFileRoundTrip` | bootstrap/ic_bootstrap.c:48-367 | for every configuration with good host names and fitting commands the generated file is read back as the generated commands |
| `BootContents.PreparesIff` | bootstrap/ic_bootstrap.c:75-268 | a PREPARE is generated exactly when some table holds, at its node id, a server of that kind with that host, process controller host and port; its cluster id is the position of the table |
| `BootContents.PreparesInOrder` | bootstrap/ic_bootstrap.c:75-268 | the PREPAREs come table by table and node by node, none twice |
| `BootContents.FinalCommandsAre` | bootstrap/ic_bootstrap.c:302-360 | behind them the files are sent and the servers started, replication, file and SQL servers only when there are any |
| `BootContents.GenerateCodeIs` | bootstrap/ic_bootstrap.c:136-300 | which configurations are refused, with which error, in terms of the servers in the tables |
| `BootContents.PrepareTextIs` | bootstrap/ic_bootstrap.c:74-135 | a printed PREPARE, word for word |
| `BootContents.OtherTextIs` | bootstrap/ic_bootstrap.c:302-360 | the other printed commands, word for word |
| `BootContents.HostNamesComeBack` | bootstrap/ic_boot_lex.c:195-218 | every host name of letters, digits, dots, underscores and hyphens that starts with a letter and meets no keyword is read back |
| `BootContents.GeneratedFileSays` | bootstrap/ic_bootstrap.c:48-367 | of the commands read back from a generated file: a PREPARE is among them exactly when some table describes it, in table and node order, and in front of all other commands |
| `NodeIds.FindClash` | bootstrap/ic_bootstrap.c:369-493 | a check finds a clash exactly when there is one among the entries searched |
| `NodeIds.ParseData.CheckNodeId` | bootstrap/ic_bootstrap.c:369-569 | the check of one list as long as its counter says, the new entry left out of its own, and the exit flag |
| `NodeIds.ParseData.CheckAll` | bootstrap/ic_bootstrap.c:495-667 | the flag is raised exactly when the newest entry clashes with one in any of the six lists |
| `NodeIds.ParseData.RecordServer` | bootstrap/ic_boot_parser.y:112-196 | the parser's part: record while there is room and count in any case, also when the command is rejected afterwards |
| `NodeIds.ParseData.Prepare` | bootstrap/ic_boot_parser.y:112-238 | record and count, then check what stands at the end of the list, be it an entry of the next array |
| `NodeRuns.RunAll` | bootstrap/ic_bootstrap.c:1963-1989 | executing commands, and recording those that are rejected, until the flag is up carries out the run of the specification |
| `NodeRuns.RunsKeepDistinctIff` | bootstrap/ic_bootstrap.c:369-667 | after every run without the flag, whatever lies behind the arrays, no list is longer than its array, and the recorded node ids are distinct (data servers by cluster and node id) exactly when every server recorded without a check clashed with none recorded before |
| `NodeRuns.UniqueIff` | bootstrap/ic_bootstrap.c:369-667 | within the limits the same condition is one on the commands alone: no unchecked PREPARE clashes with a server recorded before it |
| `NodeRuns.StepIsRight` | bootstrap/ic_bootstrap.c:495-667 | with room in its list a server raises the flag exactly for a clash or a fifth of a grid kind, and is recorded otherwise |
| `NodeLimits.CheckIsRightIff` | bootstrap/ic_bootstrap.c:495-667 | a check is right for every server that may come next exactly when there is room in its list |
| `NodeRuns.FlagIff` | bootstrap/ic_bootstrap.c:369-667 | as long as there is room, the flag is raised exactly when an executed PREPARE clashes with a server recorded before it, checked or not, is the fifth of a grid kind, or EXIT is executed; otherwise all servers are recorded in order |
| `NodeRuns.ExecutedFlagIff` | bootstrap/ic_bootstrap.c:369-667 | when every command is executed, exactly when two servers of the run clash or a grid kind has more than four |
| `NodeRuns.ExecutedKeepDistinct` | bootstrap/ic_bootstrap.c:369-667 | then without the flag all recorded ids are distinct, with no limits at all |
| `NodeRuns.WithinLimitsHasRoom` | bootstrap/ic_boot_int.h:115-130 | runs with no more servers of a kind than its array holds have room as long as nothing clashes |
| `NodeLimits.RunsBehindTheList` | bootstrap/ic_boot_parser.y:132-196 | with a list full and none recorded behind it, the next server of its kind is never flagged and the one after it always |
| `NodeLimits.DuplicateBehindTheList` | bootstrap/ic_boot_parser.y:176-196 | a node id given a second time to file server 256 is not flagged |
| `NodeLimits.DistinctBehindTheList` | bootstrap/ic_boot_parser.y:176-196 | 257 file servers with different node ids are flagged |
| `BootRun.GeneratedAreFew` | bootstrap/ic_bootstrap.c:277-300 | the generator keeps to the limits that the run checks |
| `BootRun.DistinctIffNoCollision` | bootstrap/ic_bootstrap.c:369-667 | the servers of a configuration are distinct exactly when no two of its tables use a node id other than both for data servers |
| `BootRun.GeneratedHaveRoom` | bootstrap/ic_bootstrap.c:136-276 | in a generated file no list is full before a clash, if the data servers fit theirs |
| `BootRun.BootstrapOfGeneratedFile` | bootstrap/ic_bootstrap.c:2223-2299 | generate, split, lex, parse and prepare: the file is read back as generated, every command is executed, and with at most 12288 data servers the run raises the flag exactly when two tables collide |
| `CopyConfig.CheckForSame` | bootstrap/ic_bootstrap.c:829-862 | whether an earlier node, in cluster-then-node order, has the same process controller |
| `CopyConfig.ClusterCopy` | bootstrap/ic_bootstrap.c:869-892 | the new process controllers of a cluster, in order, up to the first failing send; the exact return value |
| `CopyConfig.CopyConfigIni` | bootstrap/ic_bootstrap.c:897-913 | the sends are the first occurrences in the tables visited, cut behind the first failure |
| `CopyConfig.SlotStandsAt` | bootstrap/ic_bootstrap.c:829-892 | the list of process controllers holds that of a node behind those of the nodes before it |
| `CopyConfig.PlacesAreSlots` | bootstrap/ic_bootstrap.c:829-892 | the places of that list are the nodes of the grid that have a process controller, each once, in cluster-then-node order |
| `CopyConfig.FirstOnlyIsExact` | bootstrap/ic_bootstrap.c:829-913 | first occurrences are exactly the process controllers of the grid, each once |
| `CopyConfig.FirstOnlyIsOrdered` | bootstrap/ic_bootstrap.c:829-913 | they are ordered by their first position |
| `CopyConfig.NeverTwice` | bootstrap/ic_bootstrap.c:869-913 | no run sends to a process controller twice, or out of order |
| `CopyConfig.EachOnceIff` | bootstrap/ic_bootstrap.c:869-913 | for given unset return values: if all sends succeed, every process controller gets the file exactly once, exactly when no table with a new one lies behind a table whose unset return value is an error |
| `CopyConfig.EachOnceAlwaysIff` | bootstrap/ic_bootstrap.c:869-913 | whatever the unset return values: if all sends succeed, every process controller always gets the file exactly once, exactly when no table with a new one lies behind a table that sends nothing |
| `CopyConfig.UnsetValueCanEndTheRun` | bootstrap/ic_bootstrap.c:869-913 | a concrete grid in which that happens |

## Left out

- Sockets, select, poll, epoll, connect, accept and SSL calls: parameters and event scripts. A receive script that runs out means that the peer has closed or nothing arrives in time, a send script that runs out that the socket takes everything.
- Send statistics, the vectored `send_msg` writer, and the generic linked-list macros.
- The kqueue and event-port forms of the poll set, the return code field of its connections, and freeing a poll set.
- The timed wait for a page (get_sock_buf_page_wait), and which thread wins a race for the pool mutex: each list operation is one step.
- Failed memory allocation, except when a poll set member is added and when a pool grows. Memory that is allocated overlaps none in use, which holds when enough was asked for (`CreateAllocatesEnoughIff`, `IncAllocatesEnoughIff`).
- What callers write into a buffer. A second page is overwritten by it; its descriptor is set up again when it is returned.
- Sizes of connection buffers beyond 32 bits.
- ProtocolLines.SendComposed: requires at least one string and text that fits the local buffer, because the source writes behind the buffer otherwise.
- `Base64Decode.Decode`: requires a length that is a multiple of four and two spare bytes in the destination, because the source reads and writes behind its buffers otherwise.
- BootLex.Lexer.Next: requires that a word to be looked up has at most 1024 characters, because the source overruns a buffer otherwise. The functions `LexOne` and `LexAll` read a longer word as any other.
- BootGenerate.GenerateBootstrapFile: requires every command to fit the print buffer, because the source writes bytes behind that buffer to the file otherwise; host names from configuration files are short enough (`ConfigurationFits`). Creating, writing and deleting the file can not fail in the model.
- BootGenerate.WriteTable: requires the same.
- BootGenerate.WriteClusters: requires the same.
- NodeIds.ParseData.Prepare: host names and ports are not recorded. What a read behind the array of SQL servers, the last, or behind those of grid servers finds is arbitrary, and may differ from one command to the next.
- NodeRuns.RunAll: SEND FILES and START are no part of a run; in the source they raise the exit flag when they fail.
- BootRun.BootstrapOfGeneratedFile: says nothing of the flag for more than 12288 data servers, where `RunsBehindTheList` and `CheckIsRightIff` say what goes wrong, and nothing of the flag for hosts that are not good, of which `BlankHost` is one.
- PollSets.PollSet.EpollAdd: requires one entry per fd; what a further add does while an fd has two entries is not stated. The epoll forms of removal and check allow two.
- PollSets.PollSet.PollCheck: requires one entry per fd.
- PollUsers.AddUser: requires an fd that is not a member; `CarriesFill` and `SecondAddReportsFirst` are about the others.
- BootEffects.RunFile: the tokens of a rejected command are read as far as the parser needs to find a complete PREPARE; what the generated parser prints, and where it stops otherwise, is not modelled.
- Base64.Encode: requires that the encoded size is a 32-bit number, because the size computed beforehand is too small otherwise (`SizeIsRightIff`).
- CopyConfig.CheckForSame: requires that no table has a node 0, because the source searches behind the table otherwise.
- CopyConfig.ClusterCopy: requires the same.
- CopyConfig.CopyConfigIni: requires the same. The contract speaks of the sends; the return value is stated for each cluster only.
- BootSplit.CommandReader.GetLine: after an error only the code is stated, since the program ends.
- The hash table under the mutex tracker, its memory and its own mutex: table operations are atomic steps.
- Executing SEND FILES and START commands, the Cluster Manager, the configuration reader, the NDB API, and command-line handling: no harder properties than those above.
- Signed numbers and the ok-or-error answer of the management protocol, the code of which tests a skipped sign and a pointer instead of its value.
