# socks5d in Dafny

socks5d is a SOCKS version 5 proxy: one event loop over `select()`, one state machine
per connection, a POP3 password sniffer and a small management service. This project
models its logic and proves what every run of it satisfies, whatever the peers, the
kernel, the resolver and the scheduler do.

| file | what it models |
|---|---|
| `Buffers.dfy`, `SocketsIO.dfy` | the linear byte buffer and its use with sockets |
| `Selectors.dfy` | the descriptor table of the selector and its derived data |
| `JobQueue.dfy` | resolver threads and the event loop sharing the list of finished jobs |
| `Users.dfy` | the credential table |
| `Handshake.dfy` | the messages of RFC 1928 (sections 3, 4 and 6) and RFC 1929 (section 2) |
| `Connections.dfy` | the handlers of one connection and the state machine engine, as functions |
| `Clients.dfy` | the same handlers in place, on buffers and a selector, proved to compute those functions |
| `Invariants.dfy`, `Preservation.dfy`, `Progress.dfy` | the joint invariant and the proof that each event keeps it |
| `Theorems.dfy`, `Finishing.dfy`, `Conversation.dfy`, `Attempts.dfy`, `Relay.dfy`, `Journeys.dfy` | what follows for single events and for whole runs |
| `Sniffers.dfy` | the POP3 sniffer, which `Clients.dfy` runs beside the relay |
| `Watching.dfy`, `TellingApart.dfy` | what the sniffer of a connection sees over a run of the relay, and when that is right |
| `MgmtLexer.dfy`, `MgmtCommands.dfy` | the scanner for management commands, and what each line means in literal bytes |
| `Mgmt.dfy`, `MgmtSessions.dfy`, `MgmtRuns.dfy` | management sessions: responses, the token gate, the commands that are interpreted, and two sessions that lose a response |

**How a connection is modelled.** `Connections.Conn` holds the state, the active ends, the
two buffers, the two slots of the selector, the addresses still to try and a history of
what happened. An event is something the selector dispatches, together with an `Env` that
gives every answer from outside: bytes arrived or end of file, bytes taken by `send()`,
`EAGAIN`, errors, new sockets, `SO_ERROR`, the resolver's list, the credential table at that
moment and the byte of memory behind the received ones. `Step` is the handler the table
selects, followed by `jump`; `abort()`, failed asserts and null dereferences in the handlers
are the result `Crash`. `Reachable` states are those that any sequence of such events leads
to from a new connection with a buffer size that the server admits (513 or more).

Dispatch looks at the interest a descriptor has at that moment, as the loop does; the mask
only matters to what `select()` is asked, so "an event that can be reported" (`Effective`)
needs both. Every dispatch of the program is therefore an event of the model.

**Results that say when the code does less than one might expect.**

- A message that shares its segment with the one before may leave the handshake reader
  without room; then the next read asks for zero bytes and the answer is taken for the end
  of the stream. `PipeliningStarvesTheHandshake` gives a run; `HandshakeHasRoom` shows that
  it takes a buffer that an earlier message left un-rewound, and never happens otherwise.
- The transferred-bytes counter is exact if and only if no send met `EAGAIN`
  (`TransferredIsExact`): the result -1 is subtracted from the size. `TransferredGoesWrong`
  gives a run.
- An attempt that cannot start, because there is no socket or `connect()` fails at once, ends
  all of it: the client is refused and the rest of the list is never tried. A refused client
  had every address tried if and only if no attempt before the one at the last address was
  kept from starting (`AttemptsDecide`, `RefusedAfterAllExactly`). `ListIsGivenUp` gives a run:
  a name with an IPv6 and an IPv4 address on a host without IPv6 routes.
- A connection ends with the first write that finds the client's buffer drained after the
  origin's end of stream. Bytes of the client that are still in the request buffer then are
  discarded without a failed send, and nothing else is: all of them were handed over if and
  only if that buffer was empty at that moment (`TeardownDiscards`). `BytesAreDiscarded` gives
  a run.
- Registering descriptor n in a table of exactly n slots indexes outside of it, and the other
  operations do so for any valid descriptor past the table; `OutOfBounds` is reported in
  exactly those cases (`Register`, `Unregister`, `ChangeInterest`). A table made for fewer than
  512 elements has such a descriptor (`RegisterPastTheTable`); the one that the proxy makes has
  1025 slots, one more than there are valid descriptors (`Create`).
- Credentials are compared as C strings: wire bytes that go on after a NUL authenticate too
  (`WireCredentials`); every stored pair has such relatives (`NulCarryingPair`).
- The response to `USERS` is measured before the names are appended and is dropped when the
  free space lies between the two lengths (`UsersMayBeLost`, `ResponseKeptExactly`). Over a
  session, all responses come in order if and only if no command dropped its own
  (`ResponsesInOrder`); `UsersIsDropped` gives a session in which one does.
- A session that quitted is closed by the write that sends all it has, with a response still
  pending if and only if the pending bytes did not fit, or the commands behind them needed
  more room than was left (`QuitDeliversExactly`). `QuitIsCutShort` gives a session of 130
  bytes whose response to `QUIT` is lost like this.
- A line that starts like the awaited POP3 keyword leaves the sniffer in another state for
  good (`SkippedExactly`, `SkippedBeforePass`). An argument of 40 bytes or more is not captured
  (`LongUserIsStuck`, `LongPassIsStuck`), and neither is any later argument, except that a line
  with an empty one completes the name or the pair with the first 39 bytes of the long one
  (`StuckStaysStuck`, `StuckPassStaysStuck`).
- The sniffer looks at all of the request buffer each time the client sends something, so
  bytes that were not yet written to the origin are sniffed again. That is right, whatever
  comes next, if and only if those bytes leave the parser as it is (`LookIsRightExactly`): if
  there are none, or, at the start of a line, if they are whole lines that do not begin like
  the awaited keyword. Then a run of the relay is one pass over the bytes that the client
  sent (`SniffingIsOnePass`). Otherwise it may not be: `SniffingIsCorrupted` gives a run in
  which the name of the login that is logged is not the one that was sent.
- A management session is closed by a send that is put off by `EAGAIN` as by one that fails, and
  by a read when 2048 bytes wait already (`ClosesExactly`).
- The sniffer drops what follows a complete pair in the same window. That makes no difference
  if and only if it consists of whole lines that do not begin like `USER`
  (`LookIsWholeExactly`); then every pair of a run is logged (`EveryPairIsLogged`). A second
  login in one segment is lost (`SecondLoginIsLost`).

Where code and documentation differ the model follows the code: the manual page speaks of up
to 10 users and the table holds 20; `MAX_USER_LEN` is 10 and names of 10 bytes are refused;
`enable_write` unmasks the client's descriptor twice and never the origin's, which changes
nothing because adding an interest also unmasks it.

## Model

| member | source | states |
|---|---|---|
| Buffers.FifoRefinement | src/buffer.c:11-103 | for every sequence of operations on a new buffer, bytes delivered followed by bytes held are exactly the bytes accepted, in order, and an empty buffer has its whole capacity free |
| Buffers.FullIsNotEmpty | src/buffer.c:57-68 | a full buffer of positive capacity holds something to read |
| Buffers.Buffer.constructor | src/buffer.c:17-22 | a new buffer over an array is empty and rewound |
| Buffers.Buffer.Append | src/buffer.c:49-55 | copying at the write pointer and advancing appends exactly those bytes |
| Buffers.Buffer.ReadAdv | src/buffer.c:57-68 | drops exactly that many bytes from the front, rewinds an emptied buffer, ignores negative counts and never writes the array |
| Buffers.Buffer.Read | src/buffer.c:70-80 | takes the first byte, or returns zero and changes nothing |
| Buffers.Buffer.Write | src/buffer.c:82-88 | appends a byte, or drops it if there is no room |
| Buffers.Buffer.Compact | src/buffer.c:90-103 | from any pointers in bounds, keeps the contents and moves them to the start of the array |
| SocketsIO.ZeroSizedReadLooksLikeEOF | src/socketsIO.c:10-21 | when bytes have arrived, a read is taken for end of file if and only if the buffer has no room |
| SocketsIO.EndOfFileExactly | include/clients.h:14 | whatever a read meets, it is taken for the end of the stream if and only if it failed for good, the stream is over, or bytes arrived and there is no room; never on EAGAIN |
| SocketsIO.ReceivedExactly | src/socketsIO.c:10-21 | the first bytes that arrived: all of them, or as many as there is room for, or 2048 |
| SocketsIO.SentExactly | src/socketsIO.c:24-32 | the first bytes of the buffer, as many as were taken; the rest stays, and an error changes nothing |
| SocketsIO.ReadFromSock | src/socketsIO.c:10-21 | appends the first bytes that arrived, at most the free space and at most 2048, and reports how many |
| SocketsIO.WriteToSock | src/socketsIO.c:24-32 | removes exactly the bytes that were sent and returns what is left, or -1 on any error with the buffer untouched |
| Selectors.NextCapacity | src/selector.c:172-188 | one more than the least power of two above n, capped at 1024: over n and at most 1025 for every n up to 1024 |
| Selectors.Selector.Create | src/selector.c:289-306 | fails exactly for more than 1024 elements or without memory; otherwise a consistent table of unused slots, 1025 of them when 1024 are asked for |
| Selectors.Selector.EnsureCapacity | src/selector.c:245-287 | success implies a slot for n, with old slots kept and new ones unused; the status for every case |
| Selectors.Selector.ItemsInit | src/selector.c:199-205 | new slots are unused and the derived data still agrees |
| Selectors.Selector.ItemsMaxFd | src/selector.c:210-222 | the largest used descriptor, or 0 |
| Selectors.Selector.UpdateFdSets | src/selector.c:224-238 | the descriptor is in each set exactly if the slot is used and interest and mask both have the operation |
| Selectors.Selector.Register | src/selector.c:334-376 | the new slot, all others kept, derived data equal to its recomputation; when each status occurs, out of bounds exactly at fd == number of slots |
| Selectors.Selector.Unregister | src/selector.c:378-412 | the slot becomes unused, all others kept, derived data equal to its recomputation |
| Selectors.Selector.ChangeInterest | src/selector.c:414-508 | the five interest operations: only that slot changes, derived data equal to its recomputation, and the two sets hold the descriptor after the change exactly as the operation says |
| Selectors.Selector.RegisterPastTheTable | src/selector.c:334-376 | registering the descriptor just past a new table is out of bounds if and only if fewer than 512 elements were asked for |
| Selectors.CapacityBelow | src/selector.c:172-188 | a table made for n ends before the last valid descriptor if and only if n is below 512 |
| Selectors.Changed | src/selector.c:433-451 | an unused slot never changes, and adding an interest always makes it effective |
| Selectors.InterestShows | src/selector.c:414-508 | in terms of what select is asked: masked and removed operations are left out, unmasked ones asked for exactly if there is interest, added ones always, and setting puts the interest in force under the mask; other descriptors keep their place |
| Selectors.MaxFdUnique | src/selector.c:139-140 | the recomputed maximum is unique, so the incremental one is it |
| JobQueue.NoNotificationLost | src/selector.c:561-610 | for every interleaving of any number of threads with the loop, each queued notification is pending or was examined exactly once; dispatched are exactly those whose descriptor was in use when examined, dropped exactly the others; nothing is lost by resetting the list |
| JobQueue.MutualKept | src/selector.c:600-603 | one party at a time is in the critical section, and what it read of the list is still true when it writes |
| JobQueue.AccountedKept | src/selector.c:567-580 | each step keeps pushed = examined + pending and examined = dispatched + dropped |
| Users.CredentialsAreTheAdded | src/users.c:28-55 | over every history of add_user calls, a pair authenticates exactly if one of the calls carried it and succeeded |
| Users.Table | src/users.c:5-46 | names stay unique, fields valid and the table within capacity |
| Users.WireCredentials | src/handshake.c:120-126 | authenticated wire bytes are the stored pair if and only if they contain no NUL |
| Users.NulCarryingPair | src/handshake.c:120-126 | any stored pair with a NUL and anything behind it in both fields authenticates without being stored |
| Users.AdmittedExactly | src/users.c:28-46 | a line adds a user if and only if it has a colon behind a new name of at most 9 bytes and before a password of at most 19, all printable without a colon, while there are fewer than 20 users |
| Users.CheckValid | src/users.c:8-16 | shorter than the maximum, printable and without colon, in both directions |
| Users.UserTable.CheckNewUser | src/users.c:18-26 | true exactly if no stored name equals it |
| Users.UserTable.AddUser | src/users.c:28-46 | succeeds exactly for an admissible pair with a new name, appends it, and cuts the argument at the colon |
| Users.UserTable.TryCredentials | src/users.c:48-55 | true exactly if the pair is stored |
| Handshake.GreetingRoundTrip | src/handshake.c:38-48 | decoding inverts the encoding of RFC 1928 section 3 for every length, whatever follows |
| Handshake.LoginRoundTrip | src/handshake.c:95-125 | decoding inverts the encoding of RFC 1929 section 2 for every length, whatever follows |
| Handshake.RequestRoundTrip | src/handshake.c:192-295 | decoding inverts the encoding of RFC 1928 section 4, in its literal numbers, for every address form and length |
| Handshake.RequestIgnores | src/handshake.c:192-221 | the version and the reserved byte of a request are never looked at |
| Handshake.GreetingStable | src/handshake.c:41-48 | no further byte changes a decision |
| Handshake.LoginStable | src/handshake.c:98-112 | no further byte and no byte behind the available ones changes a decision |
| Handshake.RequestStable | src/handshake.c:195-221 | no further byte changes a decision |
| Handshake.FragmentationIndependence | src/handshake.c:28-300 | however a message is cut, each reader's verdict and consumed length are those of the whole |
| Handshake.IncompleteIsShort | src/handshake.c:42-109 | an incomplete message is shorter than 513 bytes |
| Handshake.LongestMessageIsReached | src/handshake.c:99-109 | an incomplete message of 512 bytes exists |
| Handshake.SelectMethod | src/handshake.c:55-75 | the scan picks user and password exactly if users exist and it is offered, no authentication exactly if none exist and it is offered |
| Handshake.ReplyRoundTrip | src/handshake.c:139-170 | a reply has the layout of RFC 1928 section 6: a client that reads it recovers number, address and port |
| Handshake.CheckConnectionError | src/clients.c:320-339 | no error is reported as success |
| Invariants.CloseClientClosedForm | src/clients.c:117-173 | for every connection and argument the recursion equals one pass over the ends it cascades to, each descriptor unregistered at most once |
| Invariants.CloseClientEnds | src/clients.c:117-173 | ends are only removed, at least those asked for; DONE exactly if none is left; CLIENT_WRITE takes all, ORIGIN_WRITE takes CLIENT_READ |
| Preservation.ServerReplyFits | src/handshake.c:139-170 | before relaying, a whole reply always fits and is appended |
| Preservation.SimpleReplyFits | src/handshake.c:21-26 | before relaying, a two-byte reply always fits and is appended |
| Preservation.ReadableStates | src/clients.c:58-103 | interest in reading is only held in states with a read handler, on an end that is open |
| Preservation.WritableStates | src/clients.c:58-103 | interest in writing is only held in states with a write handler |
| Preservation.ReadAuthMethodKeeps | src/handshake.c:28-81 | the greeting reader does not abort and keeps the joint invariant |
| Preservation.ReadPlainAuthKeeps | src/handshake.c:83-137 | the login reader does not abort and keeps the joint invariant |
| Preservation.ReadProxyRequestKeeps | src/handshake.c:172-300 | the request reader does not abort and keeps the joint invariant |
| Preservation.TryConnectKeeps | src/clients.c:341-368 | a connection attempt does not abort and keeps the joint invariant |
| Preservation.CheckConnectionKeeps | src/clients.c:370-440 | the result of an attempt is handled without abort and keeps the joint invariant |
| Preservation.ProxyReadClientKeeps | src/clients.c:446-462 | reading from the client keeps the joint invariant |
| Preservation.ProxyReadOriginKeeps | src/clients.c:463-481 | reading from the origin keeps the joint invariant |
| Preservation.ProxyWriteClientKeeps | src/clients.c:494-511 | writing to the client keeps the joint invariant |
| Preservation.ProxyWriteOriginKeeps | src/clients.c:512-529 | writing to the origin keeps the joint invariant |
| Preservation.CloseSomeKeeps | src/clients.c:117-173 | closing ends other than CLIENT_WRITE leaves the rest relaying with its write ends awake |
| Preservation.CloseAllKeeps | src/clients.c:156-168 | closing CLIENT_WRITE ends the connection with both descriptors unregistered |
| Preservation.StepKeeps | src/stm.c:26-87 | every dispatched event finds a handler, none aborts, and the joint invariant holds again |
| Preservation.RunKeeps | src/stm.c:26-87 | the same for every sequence of events |
| Progress.StepFollows | src/clients.c:370-538 | histories only grow, ends never reopen once connected, and becoming connected is entering PROXY |
| Theorems.NoRunAborts | src/stm.c:36-87 | no run reaches an abort, an assert or a null dereference |
| Theorems.InterestHasHandler | src/selector.c:534-574 | in every reachable state each operation a descriptor is interested in has its handler |
| Theorems.BackPressureNeverWedges | src/clients.c:442-553 | a source is masked only while its buffer is full, a sink with work is never masked, and each open direction has an event that select can report |
| Theorems.BytesAreConserved | src/clients.c:442-538 | in every reachable state each direction's bytes are delivered in order or still buffered |
| Theorems.TransferredIsExact | src/clients.c:533-535 | the counter equals the bytes sent in PROXY if and only if no send met EAGAIN there |
| Journeys.TransferredGoesWrong | src/clients.c:533-535 | a reachable state in which the counter exceeds the bytes sent |
| Relay.RelayedIsSent | src/clients.c:533-535 | over every run in PROXY the count of relayed bytes grows by exactly the bytes sent in both directions |
| Relay.RelayedSinceConnected | src/clients.c:533-535 | in PROXY it is all that was sent since the origin answered, without the replies sent before |
| Theorems.OrderlyShutdown | src/clients.c:494-528 | DONE is losing CLIENT_WRITE; without a failed send to the client all that was for it was delivered; while the connection lives, the origin's write half is shut only after the client's end and a drained request buffer, or a failed send to the origin |
| Relay.ReadsClient | src/clients.c:446-462 | what a read event of the client does: with a full buffer nothing, and select is not asked again; at the end of the stream or on an error exactly the read end is closed; otherwise what arrived, if anything, waits for the origin |
| Relay.ReadsOrigin | src/clients.c:463-481 | the same for the origin |
| Relay.WritesOrigin | src/clients.c:512-535 | what a write event of the origin does: drained, the write end is closed if the client is done, and otherwise select is not asked again; an error closes it with the client's read end; otherwise the bytes taken leave the buffer and are counted |
| Relay.WritesClient | src/clients.c:494-535 | what a write event of the client does: drained, the connection is over if the origin is done, and otherwise select is not asked again; an error ends it; otherwise the bytes taken leave the buffer and are counted |
| Relay.TellsOrigin | src/clients.c:514-517 | with a drained buffer and a client that is done, the write shuts the origin's write half and leaves its read half open |
| Relay.HalfCloseReachesOrigin | src/clients.c:446-529 | from every reachable relay whose client still sends, its end of stream leads by events that select can report to the shutdown of the origin's write half, with every byte handed over and the origin's stream open |
| Finishing.TeardownDiscards | src/clients.c:494-507 | every run of a connected client to DONE has one last write to the client, failed or finding its buffer drained after the origin's end; all bytes of the client were handed over if and only if the request buffer was empty at that write |
| Finishing.StepIntoDone | src/clients.c:494-507 | the same for the step that enters DONE: the event, its outcome and what is discarded |
| Journeys.BytesAreDiscarded | src/clients.c:498-499 | a reachable end without a failed send in which bytes of the client were not handed over |
| Theorems.EndsAndDescriptors | src/clients.c:117-173 | any live end needs CLIENT_WRITE, CLIENT_READ needs ORIGIN_WRITE, each socket is closed exactly once and registered while it has an end |
| Theorems.EndsNeverReopen | src/clients.c:391 | once connected, no run reopens an end |
| Theorems.AtMostOneReply | src/clients.c:341-440 | at most one reply, last of the handshake bytes, success exactly if connected; on the wire it is version 5, a number that is 0 exactly if connected, 0, and address type 1 or 4 with an address and a port |
| Theorems.SuccessEntersProxy | src/clients.c:388-425 | the success reply comes exactly with the step that enters PROXY; after a failure reply no run enters it |
| Theorems.AttemptsFollowTheList | src/clients.c:426-433 | addresses are tried in list order without repetition, and the rest of the list measures progress |
| Theorems.AuthenticationGate | src/handshake.c:55-131 | with users declared at the greeting, no run reaches the request or later without credentials that the table held |
| Theorems.HandshakeHasRoom | src/socketsIO.c:10-21 | a waiting handshake reader has room unless an earlier message was pipelined with bytes behind it |
| Finishing.CanAlwaysFinish | src/clients.c:58-553 | from every reachable state some events that select can report end the connection with everything delivered: to the client all replies and all bytes of the origin, to a connected origin that takes them all bytes of the client |
| Finishing.PipeliningStarvesTheHandshake | src/handshake.c:91-93 | a run in which a well-formed pipelined login is cut off, whatever arrives next |
| Conversation.GreetingIsAnswered | src/handshake.c:28-81 | the state, the reply bytes, the number of users declared and the bytes left for every well-formed greeting |
| Conversation.LoginIsAnswered | src/handshake.c:83-137 | accepted exactly for version 1 and a stored pair, which is the login on record; reply bytes and bytes left |
| Conversation.RequestIsServed | src/handshake.c:172-300 | CONNECT to an address is attempted with that address, to a name is resolved with that name (as a C string) and port; other commands get the bytes of refusal 7, a failed allocation those of refusal 1 |
| Conversation.BadAddressIsRefused | src/handshake.c:192-212 | an address type other than 1, 3 and 4 gets the bytes of refusal 8, with nothing used up |
| Conversation.WaitsForMore | src/handshake.c:28-221 | a read that meets EAGAIN changes nothing while the message is incomplete |
| Conversation.StopsAtTheEnd | src/handshake.c:36-190 | at the end of the stream or on an error nothing more is read; only in the request state is there an answer, the bytes of refusal 7 |
| Journeys.HandshakeArrives | src/handshake.c:28-300 | a client whose greeting, login and request arrive cut in any way between any writes gets to CONNECTING with its address, or to RESOLVING with its name, with no byte left over |
| Journeys.Resolved | src/clients.c:308-312 | when the resolver is done, its whole list is what will be tried, none of it tried yet |
| Attempts.AttemptsDecide | src/clients.c:320-440 | for every list of addresses and every answer of the kernel: as long as attempts start and fail, the next address is tried; the first that answers is connected and reported with `05 00 00 01` or `05 00 00 04`, the bound address and the port; after the last, and without any, the reply carries the number of the reason; an attempt that cannot start ends it with the number for what socket or connect gave |
| Attempts.AttemptsEnd | src/clients.c:426-438 | after at most one report more than there are addresses the client is connected or refused |
| Attempts.RefusedAfterAllExactly | src/clients.c:361-367 | a refused client had every address tried if and only if no attempt before the one at the last address was kept from starting |
| Journeys.ListIsGivenUp | src/clients.c:361-363 | a reachable refusal with one of two addresses tried, after connect failed at once |
| Clients.Client.constructor | src/clients.c:208-254 | a new connection with empty buffers, registered for reading, other slots untouched |
| Clients.Client.EnableWrite | src/clients.c:540-553 | computes Connections.EnableWrite, other slots untouched |
| Clients.Client.CloseClient | src/clients.c:117-173 | terminates and computes Connections.CloseClient in place, other slots untouched |
| Clients.Client.SimpleReply | src/handshake.c:21-26 | computes Connections.SimpleReply in the client buffer |
| Clients.Client.ServerReply | src/handshake.c:139-170 | computes Connections.ServerReply in the client buffer |
| Clients.Client.ReadAuthMethod | src/handshake.c:28-81 | computes Connections.ReadAuthMethod in place, other slots untouched |
| Clients.Client.ReadPlainAuth | src/handshake.c:83-137 | computes Connections.ReadPlainAuth in place, other slots untouched |
| Clients.Client.ReadProxyRequest | src/handshake.c:172-300 | computes Connections.ReadProxyRequest in place, other slots untouched |
| Clients.Client.HandleFinishedResolution | src/clients.c:308-312 | computes Connections.HandleFinishedResolution |
| Clients.Client.TryConnect | src/clients.c:341-368 | computes Connections.TryConnect in place; besides its own only the new socket's slot changes |
| Clients.Client.OriginCheckConnection | src/clients.c:370-440 | computes Connections.OriginCheckConnection in place; a connection to an IPv4 address at port 110 gets a fresh parser if there is memory, no other report changes the parser |
| Clients.Client.HandleProxyRead | src/clients.c:442-487 | computes Connections.HandleProxyRead in place; the parser looks at the request buffer exactly after a read from the client that is no end of file, with sniffing on, and is unchanged otherwise |
| Clients.Client.Sniff | src/clients.c:458-462 | the parser becomes what pop3_parse makes of the whole request buffer and a complete pair is logged; nothing of the connection changes |
| Clients.Client.SniffResponse | src/clients.c:475-480 | a fresh parser is started exactly if there is none, the byte at the read pointer is a plus or a minus, and there is memory; nothing of the connection changes |
| Clients.Client.HandleProxyWrite | src/clients.c:489-538 | computes Connections.HandleProxyWrite in place |
| Clients.Client.Jump | src/stm.c:36-51 | changes state and runs the arrival action exactly if the state is a new one |
| Clients.Client.Handle | src/stm.c:53-87 | runs the table's handler and jumps, or reports the abort |
| Clients.Client.Dispatch | src/selector.c:534-574 | from the joint invariant one event does not abort, takes the modelled step of the connection and of its sniffer, restores the invariant and leaves other connections' slots alone; a parser that starts is fresh, and a connection to port 110 starts one if there is memory |
| Sniffers.ConsumeConcat | src/pop3_sniffer.c:75-98 | consecutive chunks equal one pass over their concatenation |
| Sniffers.OverlappingWindowsCorrupt | src/pop3_sniffer.c:101-107 | a window that repeats earlier bytes yields a wrong user name |
| Sniffers.SkippedExactly | src/pop3_sniffer.c:11-30 | a line is skipped without a trace if and only if it does not start with the keyword's first letter |
| Sniffers.SkippedBeforePass | src/pop3_sniffer.c:44-55 | the same while waiting for PASS |
| Sniffers.TracelessExactly | src/pop3_sniffer.c:11-98 | at the start of a line, bytes leave the parser as it was if and only if they are whole lines that do not start with the first letter of the awaited keyword |
| Sniffers.ResniffedExactly | src/pop3_sniffer.c:101-107 | bytes can be sniffed again before whatever comes next if and only if they leave the parser as it is |
| Sniffers.SniffsCredentials | src/pop3_sniffer.c:11-98 | skipped lines, then USER and PASS lines with arguments of at most 39 bytes, yield exactly those arguments, and exactly what follows them is left unread |
| Sniffers.LongUserIsStuck | src/pop3_sniffer.c:32-42 | an argument of 40 bytes or more is not captured; its first 39 bytes are kept and leave no room |
| Sniffers.StuckStaysStuck | src/pop3_sniffer.c:32-42 | from there a later USER line changes nothing if and only if it has an argument; one without completes the name with the 39 bytes |
| Sniffers.LongPassIsStuck | src/pop3_sniffer.c:57-67 | the same for a password of 40 bytes or more |
| Sniffers.StuckPassStaysStuck | src/pop3_sniffer.c:57-67 | from there a later PASS line changes nothing if and only if it has an argument; one without completes the pair with the 39 bytes |
| Sniffers.Feed | src/pop3_sniffer.c:11-67 | both cursors stay in bounds for every byte in every state |
| Sniffers.Sniffer.Init | src/pop3_sniffer.c:69-73 | a fresh parser |
| Sniffers.Sniffer.Step | src/pop3_sniffer.c:78-96 | computes Feed on the parser's arrays |
| Sniffers.Sniffer.ConsumeAll | src/pop3_sniffer.c:75-98 | the loop computes Consume of the whole window |
| Sniffers.Sniffer.Parse | src/pop3_sniffer.c:101-116 | reports a pair exactly if both parts are complete, starts over then, and leaves the request buffer unchanged |
| Watching.SniffingIsOnePass | src/clients.c:446-462 | for every run, if what is left in the request buffer is harmless whenever the sniffer looks, the parser is that of one pass over the bytes seen, however they were cut, up to a complete pair, which is the next one logged |
| Watching.EmptyIsHarmless | src/clients.c:458-462 | a run in which the sniffer always finds the buffer drained is harmless |
| Watching.LookIsRightExactly | src/clients.c:458-462 | the sniffer sees just the new byte, whichever single byte arrives, if and only if the bytes left in the request buffer leave the parser as it is, and then it sees just the new bytes of any read; at the start of a line if and only if the bytes left are traceless |
| TellingApart.OneByteShows | src/pop3_sniffer.c:11-98 | bytes that do not leave the parser as it is are shown to have been there by a single byte behind them |
| Watching.LookIsWholeExactly | src/pop3_sniffer.c:75-116 | a look finds every pair of its window if and only if what follows the first pair is traceless |
| Watching.EveryPairIsLogged | src/clients.c:446-462 | for every run with harmless leftovers and nothing but traceless bytes behind a pair in its read, the log is that of a sniffer that starts over behind each pair |
| Watching.SecondLoginIsLost | src/pop3_sniffer.c:75-116 | a run from a new connection in which the second of any two logins in one segment is not logged |
| Watching.SeenIsRead | src/clients.c:446-462 | with sniffing on, once connected, the bytes seen over a run are exactly the bytes read from the client |
| Watching.LoginIsLogged | src/clients.c:446-462 | a relayed POP3 login, given in literal bytes and cut in any way, is the next pair logged, if what is left over is harmless |
| Watching.SniffingIsCorrupted | src/clients.c:446-462 | a run from a new connection to port 110 in which a login sent in two parts is logged with another user name |
| MgmtLexer.Lex | lexer/mgmt_protocol.re:36-81 | incomplete exactly for live input; every other verdict uses up at least one byte |
| MgmtLexer.LongestThenFirst | lexer/mgmt_protocol.re:54-70 | the longest accepted prefix, then the earliest rule; with none, one byte is refused |
| MgmtLexer.LiveIsExtendable | lexer/mgmt_protocol.re:47-71 | more input is asked for exactly if some continuation completes a rule |
| MgmtLexer.VerdictIsStable | lexer/mgmt_protocol.re:36-81 | no further input changes a verdict |
| MgmtLexer.Gate | lexer/mgmt_protocol.re:54-62 | privileged commands are only recognised after the token, the token only before |
| MgmtCommands.EveryLine | lexer/mgmt_protocol.re:47-71 | in literal bytes, for all letter cases, blanks, arguments and following bytes: each of the ten commands is recognised with the length of its line; other lines that begin with one of seven words and a blank are wrong arguments, other printable lines unknown commands, and any other line loses its first byte |
| MgmtCommands.CommandLine | lexer/mgmt_protocol.re:52-64 | the same for one command |
| Mgmt.ResponseKeptExactly | src/mgmt.c:274-292 | a response is kept in order if and only if it spills or really fits |
| Mgmt.UsersMayBeLost | src/mgmt.c:208-220 | the USERS response is lost exactly when the free space lies between the tested and the real length |
| Mgmt.ResponsesInOrder | src/mgmt.c:117-162 | over every session, sent bytes, write buffer and pending buffer are the greeting and all responses in command order if and only if no command dropped its response, and something to send keeps the write interest |
| Mgmt.QuitDeliversExactly | src/mgmt.c:139-162 | over every session that quitted and is closed by sending all it has: everything was delivered if and only if no response was dropped and nothing stayed pending |
| Mgmt.ProcessSpillsExactly | src/mgmt.c:164-283 | interpreting the commands at hand leaves a response pending if and only if one of them needs more room than the ones before it left |
| MgmtRuns.QuitIsCutShort | src/mgmt.c:146-157 | a session from its greeting on that is closed with the response to QUIT pending |
| MgmtRuns.UsersIsDropped | src/mgmt.c:208-220 | a session from its greeting on in which the response to USERS is dropped |
| Mgmt.TokenGate | src/mgmt.c:164-198 | over every session no command runs while a response is pending, no privileged command runs before an accepted token, and the condition never reverts |
| MgmtSessions.CommandsAreThoseSent | src/mgmt.c:117-283 | over every session the commands interpreted, followed by those still to come, are the commands of all the bytes that arrived, however these were cut and whatever responses had to wait |
| MgmtSessions.FilledExactly | src/mgmt_protocol.c:17-35 | a read takes the first bytes that arrived, as many as fit into 2048 bytes of input |
| MgmtSessions.ClosesExactly | src/mgmt.c:117-162 | the events that close an open session, in both directions |
| MgmtSessions.IdleStopsAsking | src/mgmt.c:141-144 | with nothing to send a session is no longer asked about writing, and nothing else changes |
| Mgmt.MgmtClient.constructor | src/mgmt.c:79-115 | a new session with the greeting to send, unauthenticated |
| Mgmt.MgmtClient.WriteText | src/mgmt.c:285-292 | all of the text or nothing |
| Mgmt.MgmtClient.StoreResponse | src/mgmt.c:274-280 | a response goes to the pending buffer exactly if its tested length exceeds the free space |
| Mgmt.MgmtClient.ProcessMgmtClient | src/mgmt.c:164-283 | the loop terminates and computes Process |
| Mgmt.MgmtClient.HandleReadable | src/mgmt.c:117-131 | computes HandleRead: nothing is read while a response is pending |
| Mgmt.MgmtClient.Refill | src/mgmt.c:294-303 | all of the pending bytes or none move, and only then commands are interpreted again |
| Mgmt.MgmtClient.HandleWritable | src/mgmt.c:139-162 | computes HandleWrite |

## Left out

- Real sockets, `pselect`, signals, `getaddrinfo`, `fcntl` and `errno`: their answers are parameters of the events.
- Memory: `malloc` failure of the connection object, `free`, a connection freed while its resolver thread still runs, sockets left open after a failed `connect`, and reuse of a descriptor number while an old copy of it is still stored.
- Clients.Client.constructor: takes a valid, unregistered descriptor and successful allocation; the source ignores a failed registration of an accepted socket.
- Clients.Client.Sniff: the pairs given to `log_sniffer_info` are a history; the line that it writes is left out.
- Finishing.CanAlwaysFinish: counts on the resolver's notification; a failed `pthread_create` (src/clients.c:279) or a failed `malloc` in `selector_notify_block` (src/selector.c:591-595) leaves a connection in RESOLVING without one, and neither failure is modelled.
- Clients.Client.TryConnect: takes a new socket to be a descriptor that is not registered, as the kernel guarantees.
- A management read that meets `EAGAIN` while a command is incomplete: the generated scanner, called again without new bytes, takes them for the end of input and refuses one byte (src/mgmt_protocol.re.c:31-33); the model does nothing.
- Theorems.TransferredIsExact: the counter is unbounded; the wrap-around of `size_t` is not modelled.
- Progress of a client that pipelines whole handshake messages: what is left over is only looked at when more arrives.
- Selector handlers and attachments: the table keeps descriptors and interests; `handle_close` is only used by management sessions, where it ends the session.
- `selector_select` with its timeouts and error reporting, `selector_destroy`.
- The generated automaton of `src/mgmt_protocol.re.c`, and the argument tags of a command that is split over a refill: only verdicts are modelled, arguments enter through the reaction to a command.
- The wording of management responses: each is a text of bounded length; only that of `USERS` is laid out.
- Client counting and the statistics of `src/state.c`, logging, argument parsing, address printing, start-up in `src/proxy.c`, `src/netutils.c`, `src/util.c`.
- The management client under `client/`.
