# Verified model of the autobricks VPN server and its status, configuration and client loops

The project models the parts of the VPN whose correctness depends on several threads or several
programs agreeing, and proves what they promise for every input, every run and every
interleaving. `dafny verify dfyconfig.toml` checks all of it.

**The server** (`ServerMachine`) is a step system over the shared session table: the decrypt,
encrypt, UDP-write and control threads take their critical sections under the `sessions` mutex one
at a time, in any order. wolfSSL (`inject`, `read_status`, `write_status`, `handshake`), the TUN
device, the rate limiter's verdict, sockets and the clock are parameters of the steps and may
answer anything. `ServerInvariant` proves what every step keeps, `ServerTheorems`, `Uniqueness`
and `Oversleep` what holds in every run, `EstablishedCount` which steps can raise the number of
established sessions, `LimitExample` a run that exceeds `max_clients`, and
`ServerWorkers` writes the critical sections as the loops they are (retain, swap_remove, reversed
index lists, re-visited indices) and proves that each takes exactly its step.

What a step does is also told without the machine's own functions, from the answers of wolfSSL, the
octets and the clock: `TurnEffects` (one drain pass), `DatagramEffects` (one datagram and its
handshake), `TableEffects` (routing, failed writes, the control thread's section), `Permission` and
`Ipv4Header` (address ranges and header octets), `QueueContents` (whose packets a queue can hold),
and `Notices` (a change that watchers can see wakes the control thread).

**Sleeping** (`WakeUp`, `ClientDecrypt`): single lock, queue and notification operations of all
threads, interleaved; a worker never sleeps over work.

**Queues** (`Ledger`, `Queue`, `DrainQueues`, `InboundOrder`): the bounded FIFO with a reserved
front item, the drain loops over it, and the order in which datagrams reach wolfSSL.

**The rate limiter** (`RateLimiter`) answers as a complete history of attempts would.

**The status stream** (`StatusStream`, `StatusPublish`, `ActivityLog`): watcher buffers, the line
reader, the identity string, publication, and the console's activity log.

**Configuration and text** (`Text`, `Bits`, `Cidr`, `Bindings`, `Login`, `ServerIni`, `IniLines`,
`ReadBack`, `ServerConfig`): address and CIDR text, masks against intervals (section 3.1 of RFC 4632), client
bindings, the certificate's source-address policy, the login frame, and server.ini written by the
console and read by both programs.

**The client's timers and the echo reply** (`Liveness`, `EchoReply`): probes before a timeout, and
the checksum of section 1 of RFC 1071 over an Echo Reply of RFC 792.

Reading conventions: `Instant` is a nat in milliseconds; generations are nat and never wrap; time
stands still inside one critical section of `ServerMachine`. `serial`, `boundUnder`,
`retainedAfter`, event logs and ledgers are history. A packet is logged as written to the TUN
device when it is handed over, even if the device then fails.

## Where the code and its description part

- Established sessions can outnumber `max_clients`: a session that must still log in does not
  replace its predecessor. `LimitExample.LimitCanBeExceeded` is a run from start-up;
  `ServerTheorems.EstablishedLimitIff` says exactly when a completed handshake keeps the limit, and
  `EstablishedCount.OnlyHandshakesEstablish` that no other step can break it.
- A `WATCH` followed by a `DISCONNECT` in one batch can leave the new watcher with an outdated
  snapshot. `StatusPublish.StaleWatcher` is a control socket that handles such a batch;
  `StatusPublish.BatchUpToDateIff` says exactly for which batches all watchers are up to date, and
  `StatusPublish.ControlSocket.Process` that this is what the watchers of the socket show.
- The console accepts a password with the character U+0085, which the server's white-space split
  takes apart. `ServerIni.LoginSurvivesIff` is exact.
- The console accepts a client address with superfluous zeros, also the server's own (10.8.1.01 on
  a server at 10.8.1.1); the server does not understand it and rejects all bindings.
  `ServerConfig.ServerUnderstandsIff` is exact, `ServerConfig.OwnAddressAccepted` is the example.
- Saving or removing one client can change others. A line with a login and no password is
  rewritten with the password `undefined`; without a fingerprint the login is read as the
  fingerprint; and a line that begins with `[` and ends with `]` once the text after the password
  is gone opens another section, which hides the clients after it. `ReadBack.WrittenReadsIff` and
  the contracts of `SaveClient` and `RemoveClient` are exact over every file;
  `ServerConfig.PasswordInvented` saves a client to a file where it happens,
  `ReadBack.LoginMoves` and `ReadBack.LineOpensSection` are lines of the other two kinds.

## Model

| member | source | states |
|---|---|---|
| ServerTheorems.TableLimits | src/server/decrypt.rs:285-588 | In every state of every run: peers are distinct, at most max_pending sessions are not established and at most two of one source address, the table holds at most max_clients - 1 + max_pending sessions, established sessions have at most max_clients addresses; authenticated implies established, established iff fingerprint and time are set |
| ServerTheorems.SettledCount | src/server/decrypt.rs:550-582 | How many sessions are established after a handshake is accepted, by whether the server was full, whom the session replaces and whether it must log in |
| ServerTheorems.AdmittedIff | src/server/decrypt.rs:292-424 | A datagram of an unknown peer gets a session iff the peer is an unbanned IPv4 one with a verified cookie, the limiter allows it, and the established and per-address limits have room |
| ServerTheorems.AdmissionCost | src/server/decrypt.rs:366-424 | An admission changes nothing else while the pending table has room, else it costs exactly the least recently active pending session |
| ServerTheorems.NewestWins | src/server/decrypt.rs:534-582 | Where no login is required an accepted connection that is not turned away is the only established session at its address |
| ServerMachine.OldestPending | src/server/decrypt.rs:371-378 | The first pending session with the least activity time, if any is pending |
| ServerMachine.PickReceiver | src/server/encrypt.rs:129-137 | An authenticated session at the address with the greatest activity time, if there is one |
| ServerTheorems.EstablishedLimitIff | src/server/decrypt.rs:550-582 | A completed handshake keeps established <= max_clients iff the server was not full, nobody is replaced, or the address needs no login |
| EstablishedCount.OnlyHandshakesEstablish | src/server/decrypt.rs:454-588 | Of all threads' steps only a completed handshake raises the number of established sessions, by one, with a listed fingerprint, from an IPv4 peer, after both certificate checks; only one that must log in at an address still held by another session takes a full server over max_clients |
| LimitExample.LimitCanBeExceeded | src/server/decrypt.rs:555-569 | A run from start-up reaches more established sessions than max_clients |
| ServerTheorems.TunWritesAreAuthorised | src/server/decrypt.rs:148-205 | Every packet written to the TUN came from an IPv4 peer whose listed certificate passed the SAN and source checks and, where a login was required, with exactly one login frame encoding the configured credentials; its source is the session's address, and its destination is one host, or everybody or a group where the policy allows that |
| ServerTheorems.OneLoginPerSession | src/server/decrypt.rs:150-178 | In any run at most one login frame per session is ever considered |
| ServerTheorems.RoutingIsAuthorised | src/server/encrypt.rs:106-141 | A packet from the TUN is queued only for sessions let in that way: unicast only at its destination address, broadcast and multicast only where the policy permits |
| ServerTheorems.RetainIsExact | src/server/control.rs:391-413 | The retain of a reload leaves exactly the established sessions whose address has their fingerprint in the new bindings and the same login, or none, in the old and the new configuration |
| ServerTheorems.UnlistedOnlyInWindow | src/server/control.rs:376-447 | A session the newest configuration does not list was established after that configuration's retain by a decrypt thread that had not taken it |
| ServerTheorems.SurvivorsUnchanged | src/server/control.rs:391-413 | Across all configurations retained since a session was established its binding and login never changed |
| ServerTheorems.InboundOrderKept | src/server/decrypt.rs:218-453 | Per session, datagrams are injected in arrival order and at most once, a waiting one before every later one, and each arrival has exactly one fate |
| ServerTheorems.InjectedIsRead | src/server/decrypt.rs:131-453 | In every state of every run a session is marked for reading iff wolfSSL accepted a datagram, had data before one, returned plaintext or had to write first, and no later read of it came back empty, failed or wanted more |
| DatagramEffects.ArrivalFate | src/server/decrypt.rs:431-453 | What becomes of an arriving datagram by what waits already and wolfSSL's answer: dropped at 512, waiting, injected or refused |
| InboundOrder.ArriveOrdered | src/server/decrypt.rs:431-453 | An arriving datagram keeps that order: injected, waiting behind earlier ones, refused, or dropped at the limit |
| InboundOrder.RetryOrdered | src/server/decrypt.rs:218-230 | Retrying the waiting datagram keeps that order |
| TurnEffects.QueueAppends | src/server/encrypt.rs:75-77 | A queued packet is last, the others keep their order, and only the oldest of a full queue of 512 is lost |
| TurnEffects.ReplyTexts | src/lib.rs:191-194 | The replies and the login prefix are these texts behind the byte 0xFF |
| TurnEffects.RepliesStandApart | src/lib.rs:188-194 | No such frame is an IPv4 packet or a keepalive, and no two replies are equal |
| TurnEffects.TurnFields | src/server/decrypt.rs:131-217 | One turn from the record read: who is let in, what is logged and written to the TUN, when the activity time moves, when the server stops and the control thread is woken |
| TurnEffects.TurnReply | src/server/decrypt.rs:150-183 | AUTH_OK is queued iff the one login frame looked at encodes the configured credentials, else AUTH_FAILED; a keepalive is returned; otherwise the queue stays |
| TurnEffects.TurnInbound | src/server/decrypt.rs:206-230 | One read, then the waiting datagram is offered unless a login frame, a keepalive or a failed TUN write ended the turn; it leaves its place iff wolfSSL had room or refused it |
| TurnEffects.DrainEffects | src/server/decrypt.rs:131-235 | A drain pass gives a turn to exactly the established sessions with something to read or inject, in table order, up to the first failed TUN write |
| DatagramEffects.KnownPeer | src/server/decrypt.rs:279-453 | A datagram of a peer in the table belongs to that session and touches no other |
| DatagramEffects.NoHandshake | src/server/decrypt.rs:431-460 | It ends there if the session is established or wolfSSL refuses it |
| DatagramEffects.FreshSession | src/server/decrypt.rs:385-424 | The new session is last, pending, not let in, with empty queues and the time of its admission |
| DatagramEffects.NotAdmitted | src/server/decrypt.rs:292-424 | A datagram that gets no session removes exactly the address's pending sessions if it began a ban, stops the server if no further acceptor could be made, and else changes nothing |
| DatagramEffects.EstablishedIff | src/server/decrypt.rs:454-582 | A pending session is established iff the handshake is complete, the fingerprint is bound, the SAN check passes where it is required, the peer is IPv4, the source check passes, and the server is not full or another session holds the address; then its record, its log entry and AUTH_OK or AUTH_REQUIRED at the end of its queue |
| DatagramEffects.NotEstablished | src/server/decrypt.rs:454-588 | Otherwise an incomplete handshake only sets the retransmission time, and every other outcome removes this session and no other |
| TableEffects.RouteEffects | src/server/encrypt.rs:106-141 | Which sessions a packet from the TUN is appended to, by its destination octets, the policy and the activity times; every other session is visited by a broadcast or stays as it was |
| TableEffects.RouteLog | src/server/encrypt.rs:106-141 | The log names exactly those sessions |
| TableEffects.FlushEffects | src/server/encrypt.rs:79-83 | A visit takes packets off the front only, and moves the activity time iff one was sent |
| TableEffects.FailedWritesOnly | src/server/udp_write.rs:63-89 | Exactly the sessions whose write failed go |
| TableEffects.TickEffects | src/server/control.rs:337-375 | Who survives the control thread's section by command, retransmission answer, idleness and lifetime, and that only a due retransmission changes a survivor, to the new deadline wolfSSL named |
| QueueContents.OnlyOwnPackets | src/server/encrypt.rs:75-141 | In every state of every run a session's queue holds only the server's replies and packets routed to that session |
| Permission.PermittedIff | src/server/decrypt.rs:187-192 | The destination check by address ranges: the last address of the block or 255.255.255.255, 224.0.0.0 to 239.255.255.255, or one host |
| Ipv4Header.EncodedReads | src/lib.rs:1960-1977 | A packet built from any source, destination, options and payload of permitted lengths is read as exactly that pair |
| Ipv4Header.ReadIff | src/lib.rs:1960-1977 | A pair is read iff bytes 12 to 15 are the octets of the source, 16 to 19 those of the destination, and version and lengths agree |
| Notices.ChangesAreNoticed | src/server/session.rs:33-37 | No step of another thread changes what the watchers are shown without leaving a wake-up for the control thread |
| ServerInvariant.NextKeepsGood | src/server/decrypt.rs:131-588 | Every step of every thread keeps the table invariant and the justification of every logged event |
| ServerInvariant.RunsAreGood | src/server/decrypt.rs:131-588 | The invariant holds in every state of every run |
| Uniqueness.KeepLastExact | src/server/decrypt.rs:236-251 | The dedupe pass removes a session iff it is authenticated and a later authenticated session has its address |
| Uniqueness.RunsAreUnique | src/server/decrypt.rs:236-251 | From each dedupe pass to the next drain pass, whatever other threads do, each address has at most one authenticated session; without logins always |
| Uniqueness.OneAuthenticatedPerAddress | src/server/decrypt.rs:236-251 | The same, over pairs of sessions |
| Uniqueness.RoutingIsLookup | src/server/encrypt.rs:129-137 | While addresses are unique the scan for the latest activity equals a lookup in an address map |
| Uniqueness.WithoutLogins | src/server/decrypt.rs:348-582 | With no logins configured every established session is authenticated, one per address, at most max_clients of them |
| Oversleep.NeverOversleeps | src/server/control.rs:448-509 | While the control thread is blocked until W, no session's 300 s, 120 s or 10 s of idleness, lifetime or retransmission time ends before W, unless a wake-up is pending |
| Oversleep.NextWakeIsBound | src/server/control.rs:448-477 | The computed wake time is below every deadline and is the base time or one of the deadlines |
| Oversleep.ExpiryIsExact | src/server/control.rs:364-373 | The expiry pass keeps a session iff it has been idle for less than 300 s, 120 s before its login or 10 s before its handshake, and has not reached its lifetime |
| SessionTable.SwapRemoveIsRemoval | src/server/decrypt.rs:578 | swap_remove takes out exactly the element at the index |
| SessionTable.FilterIsRemoval | src/server/decrypt.rs:241-250 | retain keeps exactly the matching sessions |
| ServerWorkers.Server.constructor | src/server.rs:260-268 | The server starts in the machine's initial state |
| ServerWorkers.Server.DrainSession | src/server/decrypt.rs:131-230 | One session's turn in the drain pass: its whole new state |
| ServerWorkers.Server.DrainPass | src/server/decrypt.rs:131-235 | The loop takes exactly the drain step |
| ServerWorkers.Server.RetainUnseen | src/server/decrypt.rs:240-249 | Retaining first-seen addresses of the reversed table keeps the last session per address |
| ServerWorkers.Server.DedupePass | src/server/decrypt.rs:236-251 | reverse, retain, reverse takes exactly the dedupe step |
| ServerWorkers.Server.TakeUpdates | src/server/decrypt.rs:253-262 | After the receive loop decrypt holds the newest configuration sent |
| ServerWorkers.Server.AdmitNew | src/server/decrypt.rs:292-424 | Admission of an unknown peer: ban, cookie, rate limit, the three limits, eviction, the new record |
| ServerWorkers.Server.ReplaceDuplicates | src/server/decrypt.rs:568-582 | The swap_remove loop removes exactly the other established sessions at the address |
| ServerWorkers.Server.Handshake | src/server/decrypt.rs:454-588 | The handshake of a pending session takes exactly the handshake step |
| ServerWorkers.Server.Connect | src/server/decrypt.rs:534-582 | Establishing, the full check and the replacement |
| ServerWorkers.Server.ReceiveDatagram | src/server/decrypt.rs:279-588 | One datagram takes exactly the receive step |
| ServerWorkers.Server.FindReceiver | src/server/encrypt.rs:129-137 | The receiver of a unicast packet is the last one with the latest activity |
| ServerWorkers.Server.QueueForAll | src/server/encrypt.rs:119-127 | A broadcast is queued for every authenticated session |
| ServerWorkers.Server.Flush | src/server/encrypt.rs:79-83 | Every session's plaintext queue is visited once |
| ServerWorkers.Server.RoutePacket | src/server/encrypt.rs:106-141 | One packet from the TUN takes exactly the routing step |
| ServerWorkers.DrainIsVisit | src/server/encrypt.rs:45-73 | Draining a plaintext queue is a visit of the machine: as many packets gone, activity moved iff one was sent |
| ServerWorkers.Server.RemoveAll | src/server/udp_write.rs:87-89 | swap_remove from the highest collected index down deletes exactly the collected sessions |
| ServerWorkers.Server.RemoveFailed | src/server/udp_write.rs:63-89 | The pass removes exactly the sessions whose write failed |
| ServerWorkers.Server.Disconnect | src/server/control.rs:236-253 | Disconnect commands remove exactly the sessions at their addresses |
| ServerWorkers.Server.Retransmit | src/server/control.rs:344-363 | The index loop with swap_remove treats every session exactly once |
| ServerWorkers.Server.Tick | src/server/control.rs:337-375 | The control thread's section takes exactly the tick step |
| ServerWorkers.Server.Reload | src/server/control.rs:376-447 | A parsed configuration takes exactly the retain step, a rejected one changes nothing |
| ServerWorkers.Server.Send | src/server/control.rs:415-429 | The retained configuration is handed to decrypt |
| ServerWorkers.Server.Sleep | src/server/control.rs:448-477 | The control thread blocks until the least deadline or the base time |
| WakeUp.EncryptNeverMissesWork | src/server/encrypt.rs:104-168 | In any interleaving, for a sleeping encrypt worker: a notification counted since it looked is still to be delivered, or no packet waits, and plaintext only in a session for which the decrypt thread still owes its notification |
| WakeUp.UdpWriteNeverMissesWork | src/server/udp_write.rs:59-116 | In any interleaving, for a sleeping UDP-write worker: a notification counted since it looked is still to be delivered, or there is no ciphertext, or a thread that enqueued some still owes its notification |
| WakeUp.DecryptNeverMissesWork | src/server/decrypt.rs:131-278 | In any interleaving, for a sleeping decrypt worker: no session has input left; and a notification counted since it looked is still to be delivered, or no datagram waits, and a configuration only while the control thread still owes its notification |
| WakeUp.EncryptSleeps | src/server/encrypt.rs:151-167 | The encrypt worker does reach its sleep |
| WakeUp.UdpWriteSleeps | src/server/udp_write.rs:100-111 | The UDP-write worker does reach its sleep |
| WakeUp.DecryptSleeps | src/server/decrypt.rs:267-278 | The decrypt worker does reach its sleep |
| WakeUp.ApplyKeepsInv | src/base/queue.rs:113-155 | Every lock, queue and notification operation keeps the sleeping invariant |
| ClientDecrypt.InjectedInArrivalOrder | src/client/decrypt.rs:85-112 | Datagrams reach a successful inject in arrival order and at most once; each is injected, waiting, queued or dropped from a full queue |
| ClientDecrypt.NeverMissesDatagram | src/client/decrypt.rs:85-94 | A worker asleep on an empty queue has nothing queued, or a notification is on its way |
| ClientDecrypt.ReadsWhatItInjects | src/client/decrypt.rs:39-113 | In every run the drain flag is set iff an inject was accepted or found data and no read since came back empty; nothing is injected meanwhile, and the worker sleeps meanwhile only when wolfSSL has to write first; the accepted datagrams are the injected ones, one without room is kept |
| ClientDecrypt.GenerationCounts | src/client/decrypt.rs:63-69 | The progress signal counts the other threads' notifications and one for every time everything was read |
| ClientDecrypt.Worker.Iterate | src/client/decrypt.rs:41-113 | One operation of the loop is exactly one step |
| ClientDecrypt.Worker.ReadRecord | src/client/decrypt.rs:43-84 | The drain read |
| ClientDecrypt.Worker.TakeDatagram | src/client/decrypt.rs:85-94 | The waiting datagram, or the queue's oldest |
| ClientDecrypt.Worker.InjectDatagram | src/client/decrypt.rs:95-112 | Inject, keep for a retry, or stop |
| ClientDecrypt.Worker.Receive | src/client/udp_read.rs:102-113 | The push, which owes a notification |
| Ledger.QueueLedger | src/base/queue.rs:136-253 | For every sequence of operations: committed, reserved and queued items are in push order without repeats, at most capacity are queued, every pushed item has exactly one fate |
| Ledger.NothingAfterClose | src/base/queue.rs:243-253 | After close nothing is accepted, queued or handed out; only the reservation can still be committed or lost |
| Queue.Queue.constructor | src/base/queue.rs:82-95 | An empty open queue |
| Queue.Queue.Push | src/base/queue.rs:140-155 | Appends, dropping the oldest item of a full queue; a closed queue refuses |
| Queue.Queue.TryPeek | src/base/queue.rs:198-211 | Reserves the oldest item, or tells empty from closed |
| Queue.Queue.Commit | src/base/queue.rs:32-34 | Commits the reservation |
| Queue.Queue.Restore | src/base/queue.rs:37-53 | Puts the reservation back in front, dropping the newest item if producers filled the queue; not into a closed queue |
| Queue.Queue.TryPop | src/base/queue.rs:230-240 | Reserve and commit at once |
| Queue.Queue.Close | src/base/queue.rs:243-253 | Discards what is queued and bumps the generation once |
| DrainQueues.DrainRaw | src/server/encrypt.rs:50-73 | A packet leaves the queue as expired iff it is two seconds old when it is looked at, else as written or dropped by the answer; the first younger one to be tried again stays in front of all others |
| DrainQueues.DrainEncrypted | src/server/udp_write.rs:12-44 | The same for ciphertext: outdated iff two seconds old, sent iff younger and taken whole; a truncated datagram leaves and ends the pass, one that the socket refused stays in front and tells which result is returned |
| DrainQueues.RawPartition | src/server/encrypt.rs:50-73 | Sent, expired, dropped and remaining packets are together the old queue |
| DrainQueues.RawDeterministic | src/server/encrypt.rs:50-73 | The write results determine the outcome |
| RateLimiter.IpRateLimiter.constructor | src/lib.rs:233-240 | A limit of zero counts as one |
| RateLimiter.IpRateLimiter.Prune | src/lib.rs:250-256 | Expired attempts leave the front |
| RateLimiter.IpRateLimiter.CheckBan | src/lib.rs:242-258 | Banned iff the whole history says so |
| RateLimiter.IpRateLimiter.RecordAttempt | src/lib.rs:260-279 | The answer the whole history gives, whatever was pruned or purged before: banned iff within the ban time of an attempt that began a ban, else allowed iff this attempt stays below the limit among the allowed ones of the window since the last ban |
| RateLimiter.IpRateLimiter.Purge | src/lib.rs:281-293 | Forgetting addresses changes no later answer |
| RateLimiter.PrunedIsFresh | src/lib.rs:250-256 | Pruning a sorted deque keeps exactly the attempts inside the window, now and for every later time |
| RateLimiter.DecideExact | src/lib.rs:242-279 | The specified answer by the times of the earlier ones: until when a ban lasts, and which attempts count against the limit |
| RateLimiter.AtMostLimitPerWindow | src/lib.rs:260-279 | With bans at least as long as the window, at most limit - 1 attempts are allowed in any time span no longer than the window |
| RateLimiter.WindowBound | src/lib.rs:225-294 | The same for what a limiter has answered |
| StatusStream.Watcher.constructor | src/server/control.rs:52-59 | The first snapshot is pending |
| StatusStream.Watcher.EnqueueLatest | src/server/control.rs:61-68 | The frame in progress stays, of later snapshots only the newest is kept |
| StatusStream.Watcher.Flush | src/server/control.rs:70-89 | Under arbitrary partial writes the bytes sent stay whole frames plus a part of the current one; every write takes all it reports up to the end of its frame; it stops at a write that would block or fails, or with nothing left, and says which |
| StatusStream.SentIsPrefix | src/server/control.rs:70-89 | The bytes sent are a prefix of the chosen snapshots, all of them once drained |
| StatusStream.LineReader.Data | web/src/vpn-control.js:29-38 | The lines delivered are those of all text received, however it was cut into chunks |
| StatusStream.LinesAppend | web/src/vpn-control.js:26-38 | Reading in two parts is reading at once |
| StatusStream.LinesSplit | web/src/vpn-control.js:29-38 | A line is what stands before a newline, empty ones are skipped, and the rest waits |
| StatusStream.EndToEnd | src/server/control.rs:51-90 | The reader sees an in-order prefix of an in-order selection of the snapshots, ending with the newest once everything has arrived |
| StatusPublish.IdentityInjective | src/server/control.rs:520-532 | Identity strings are equal iff the authenticated (address, fingerprint, client IP) lists are |
| StatusPublish.LastFace | src/server/control.rs:520-532 | A session is part of the identity iff it is authenticated, by its address, fingerprint and client IP address |
| StatusPublish.FacesAppend | src/server/control.rs:520-532 | Sessions appear in table order |
| StatusPublish.ControlSocket.EnqueueAll | src/server/control.rs:262-268 | Every watcher is given this text last |
| StatusPublish.ControlSocket.FlushAll | src/server/control.rs:269 | Every watcher with a healthy connection stays, and one that stays has all its bytes out or its socket would block; the order and the newest snapshots stay |
| StatusPublish.ControlSocket.PublishIfChanged | src/server/control.rs:259-270 | The newest snapshot of each watcher left is that of this table if its identity changed, else what it was |
| StatusPublish.ControlSocket.HandleCommand | src/server/control.rs:217-257 | WATCH appends a watcher that is given the snapshot of the current table unless its connection fails, DISCONNECT removes the sessions at an address, nothing else changes |
| StatusPublish.ControlSocket.HandleAll | src/server/control.rs:160-215 | After all commands of a pass the watchers' newest snapshots are, in order, what they were and those of the table at each WATCH, less failed connections |
| StatusPublish.ControlSocket.Process | src/server/control.rs:160-270 | After a batch and its publication the last text given to each watcher is the snapshot of the table the commands left if the identity changed, else what it was or the snapshot of the table at a WATCH; with connections that do not fail, all are up to date iff the identity changed or no WATCH is followed by a DISCONNECT that hits a visible session |
| StatusPublish.BatchUpToDateIff | src/server/control.rs:160-270 | The same condition for what a batch leaves behind: the final identity differs from the one published last, or no WATCH at i is followed by a DISCONNECT at j whose address then holds an authenticated session |
| StatusPublish.WatchStaysIff | src/server/control.rs:217-257 | The watcher registered by command i shows the batch's final table iff no later DISCONNECT hits a visible session |
| StatusPublish.QuietBatch | src/server/control.rs:160-270 | A batch without DISCONNECT gives every new watcher the snapshot of the unchanged table |
| StatusPublish.StaleWatcher | src/server/control.rs:160-270 | A control socket that handles a batch and is left with a watcher whose last text shows a client that is gone |
| ActivityLog.SortIsStable | web/src/activity-log.js:50-51 | The sort is a permutation, newest first, equal times in order |
| ActivityLog.RecordMirrors | web/src/activity-log.js:49-52 | The stored log stays the first 100 entries of the untruncated log |
| ActivityLog.ReplayAlternates | web/src/activity-log.js:86-97 | Consecutive events of one address alternate between connected and disconnected |
| ActivityLog.ToMapLast | web/src/activity-log.js:79-82 | Of the sessions listed with one address the last one counts |
| ActivityLog.ActivityLog.constructor | web/src/activity-log.js:19-25 | At most 100 saved entries are loaded |
| ActivityLog.ActivityLog.Record | web/src/activity-log.js:49-52 | One more entry, of this kind and no other, sorted and truncated |
| ActivityLog.ActivityLog.RecordConnections | web/src/activity-log.js:87-91 | Exactly the new addresses are announced, each with its session of the new snapshot, and the log has these entries more |
| ActivityLog.ActivityLog.RecordDisconnections | web/src/activity-log.js:92-96 | Exactly the missing addresses are announced, each with its last known session, and the log has these entries more |
| ActivityLog.ActivityLog.HandleMessage | web/src/activity-log.js:69-98 | Replaying the events from the first snapshot gives exactly the current addresses; the log grows by these events, and at the first snapshot by a server start iff the socket file is another one |
| ActivityLog.ActivityLog.HandleClose | web/src/activity-log.js:100-110 | At the end of the stream the replay is empty, and the log has its events and one server stop more |
| Login.MatchesIffEncoding | src/server/decrypt.rs:7-18 | A frame is accepted iff it is the client's encoding of the expected credentials |
| Login.EncodeInjective | src/client/mod.rs:34-51 | Credentials the client accepts never share a frame |
| Liveness.ThreeProbesBeforeTimeout | src/client/mod.rs:571-605 | A timeout comes only after 23 s without activity and at least three probes in that silence, when three iterations and two stamping delays fit in a second, and one iteration and the delay with which an activity's time is stored take less than 20 s |
| Liveness.KeepaliveGap | src/client/mod.rs:571-605 | In every iteration that continues: the check comes at most the effective interval (while probing, the retry interval) and one iteration after the last push, a push then at most the stamping delay later, and at the end the last push is recent again |
| Liveness.IterationExact | src/client/mod.rs:571-605 | One iteration by the times it looks at: given up iff silent for 23 s; a probe iff silent for 20 s and none within the last second; a keepalive iff not silent that long and the last push is an interval ago |
| Liveness.EffectiveKeepaliveInterval | src/client/mod.rs:172-174 | The smaller of the configured interval and 20 s |
| Liveness.KeepaliveLoop.Iterate | src/client/mod.rs:571-605 | One iteration of the loop |
| EchoReply.FoldingIsOnesSum | src/server/tun_read.rs:116-125 | Summing first and folding the carries later is the one's complement sum |
| EchoReply.InternetChecksum | src/server/tun_read.rs:116-125 | The complement of the one's complement sum; the 32-bit sum cannot overflow for any IPv4 length |
| EchoReply.ChecksumCompletes | src/server/tun_read.rs:107-111 | Storing the checksum completes the sum to all ones |
| EchoReply.BuildReply | src/server/tun_read.rs:107-112 | The in-place edit changes type and checksum only |
| EchoReply.LocalEchoReply | src/server/tun_read.rs:87-113 | A reply iff, octet by octet, the packet is a complete unfragmented echo request from this address to itself; the reply differs in type and checksum only and its ICMP part sums to all ones |
| EchoReply.CheckReply | src/server/tun_read.rs:127-147 | Recomputing the checksum over the reply gives zero |
| Cidr.MembershipIsInterval | src/lib.rs:2090-2097 | The mask test is membership in [network, network + 2^(32 - prefix)) |
| Cidr.BroadcastIsLastOfBlock | src/lib.rs:1986-2000 | For every network text, also with host bits: broadcast is the limited broadcast or, below /32, the last address of the block that holds the network |
| Bits.MaskRounds | src/lib.rs:2076-2084 | Masking rounds down to a multiple of the block size |
| Bindings.CidrReads | src/lib.rs:2060-2088 | A printed block is parsed to the same block |
| Bindings.NormalizeIff | src/lib.rs:2099-2108 | A fingerprint is 64 hexadecimal digits of either case and becomes lower case |
| Bindings.NormalizeIgnoresColons | src/lib.rs:2099-2108 | Colons do not matter, wherever they are |
| Bindings.ValidateClientBindings | src/lib.rs:2110-2159 | Succeeds iff every entry is well formed, inside the interval, not the server, and addresses and normalised fingerprints are pairwise distinct; the result is injective and holds exactly the entries |
| Bindings.LookupIgnoresOrder | src/server/decrypt.rs:478-485 | The fingerprint lookup gives the same answer in every iteration order |
| Bindings.CertificateSourcePolicyAllows | src/lib.rs:22-48 | No policy allows every source, one well-formed policy exactly its interval, anything else is an error |
| Bindings.IssuedPolicyIsInterval | web/src/client-issuer.js:24-48 | Whatever CIDR the console accepts and prints, the server reads as the same interval |
| Text.DottedReads | src/lib.rs:2064-2066 | A printed address parses to itself |
| Text.ParsedPrints | src/lib.rs:2064-2066 | Only printed addresses parse |
| Text.DottedOctets | src/lib.rs:2064-2066 | The octets in decimal, the most significant first |
| ServerIni.PrintedReads | web/src/server-config.js:88-93 | A printed client line is read back as the same client |
| ServerIni.WrittenParts | web/src/server-config.js:123-137 | Whatever the clients, everything outside the client section survives in order, up to blank lines at the end |
| ReadBack.ClientsAsRead | web/src/server-config.js:12-93 | Whatever the file, no field of a client read from it can be split or trimmed further, and a password comes with a login |
| ReadBack.PrintedReadsAgain | web/src/server-config.js:88-129 | Which client is read from the line printed for any such client |
| ReadBack.AgainIff | web/src/server-config.js:88-129 | It is the same client iff a login comes with a password and a fingerprint |
| ReadBack.HeaderIff | web/src/server-config.js:8-129 | The printed line opens a section iff the address begins with '[' and the value ends with ']', with no ']' before |
| ReadBack.WrittenReadsAgain | web/src/server-config.js:4-137 | The console reads back the printed clients, one by one, up to the first line that opens a section |
| ReadBack.WrittenReadsIff | web/src/server-config.js:4-137 | It reads back the same clients, in any order or in the same order, iff every one has a login only with password and fingerprint and a line that opens no section |
| ReadBack.LoginMoves | web/src/server-config.js:88-129 | A line whose login is read back as the fingerprint and whose password as the login |
| ReadBack.LineOpensSection | web/src/server-config.js:8-129 | A client line that opens a section once it is rewritten |
| ServerIni.ParseIniEntries | src/lib.rs:2038-2058 | The server's line loop |
| ServerIni.ServerReadsWritten | src/lib.rs:2038-2058 | From a file with one client section the server reads exactly the pairs written |
| ServerIni.FieldsForServer | src/server.rs:112-133 | The server splits each value into fingerprint, login and password as written |
| ServerIni.LoginSurvivesIff | web/src/server-config.js:102-106 | A login the console accepts reaches the server unchanged iff the password has no U+0085 |
| ServerIni.NextLinePassword | web/src/server-config.js:104 | The console accepts such a password |
| IniLines.TrimAround | src/lib.rs:2043 | Trimming takes away exactly the white space around a text |
| IniLines.TokensAround | src/server.rs:112-133 | Splitting takes the words one after the other, however much white space separates them |
| IniLines.ConsolePair | web/src/server-config.js:17-25 | The console reads a line put together from key, equals sign and value, with any white space around them, as that pair |
| IniLines.ConsoleSkips | web/src/server-config.js:21-24 | A blank line, a comment and a line without equals sign give no pair |
| IniLines.ConsoleSection | web/src/server-config.js:4-10 | A name in brackets opens the client section iff it is "client" in any case, and ends the section before iff it is not empty and has no bracket |
| IniLines.ServerPair | src/lib.rs:2042-2055 | The server reads such a line as that pair while the section is active, up to the comment |
| IniLines.ServerSection | src/lib.rs:2047-2050 | A name in brackets makes the section active iff it is the section's name in this very case |
| IniLines.ServerSkips | src/lib.rs:2043-2052 | A blank line, a comment and a line without equals sign change nothing |
| ServerConfig.ConsoleInsideNetwork | web/src/server-config.js:55-67 | The accepted addresses are exactly those strictly inside the network that are not written as the server's |
| ServerConfig.JsAddressReads | web/src/server-config.js:48-53 | The console's reading of four numbers of one to three digits |
| ServerConfig.ServerUnderstandsIff | src/lib.rs:2110-2126 | The server reads an address the console accepts iff it is written without superfluous zeros; any other one makes it reject all bindings |
| ServerConfig.OwnAddressAccepted | web/src/server-config.js:55-67 | The server's own address with one zero more is accepted for a client, and not understood by the server |
| ServerConfig.ConfigFile.TakenElsewhere | web/src/server-config.js:99-101 | Whether another address has the fingerprint |
| ServerConfig.ConfigFile.SaveClient | web/src/server-config.js:95-111 | Exactly when it succeeds and which refusal it gives otherwise; a refusal changes nothing; afterwards the console reads the client as entered and every other client, each once, iff all the others survive; where the server reads the section as the console does, it takes exactly those bindings and logins |
| ServerConfig.ConfigFile.RemoveClient | web/src/server-config.js:113-121 | Exactly when it succeeds; a failure changes nothing; afterwards the console reads every other client, each once, iff all of them survive; the server takes exactly those where it reads the section as the console does |
| ServerConfig.PasswordInvented | web/src/server-config.js:95-137 | A file with one client without password, to which another client is saved: the console then reads the password "undefined" |
| ServerConfig.ReadLogins | src/server.rs:112-133 | The loop computes the logins of all entries, or fails on a malformed one |
| ServerConfig.LoginsOfWritten | src/server.rs:112-133 | From a written file the server takes exactly the clients' logins |
| ServerConfig.ServerTakesWritten | src/lib.rs:2038-2159 | From the written lines the server takes exactly the clients' addresses, normalised fingerprints and logins |
| ServerConfig.ServerTakesSorted | web/src/server-config.js:123-137 | The same whatever the order in which the clients are written |

## Left out

- wolfSSL, DTLS, certificates, OCSP and CRL: oracles with arbitrary results; a fingerprint is a text.
- TUN devices, sockets, poll, signals, routes, DNS, guards and syslog: system calls without further logic.
- src/linux, src/macos, src/windows and src/server/tun_write.rs: not part of the modules the programs declare.
- Packet counters, log texts and range checks of settings: each is settled by one branch.
- Wrap-around of 64-bit generations, mutex poisoning and the panic gate.
- Notifications that only cause an extra look are not fixed to their program points in `WakeUp`: any idle thread may notify at any time, which allows more behaviours than the code has. Closing queues and stopping workers are not part of `WakeUp`.
- `pop`, `peek` and `pop_timeout` of the queue wait on the condition variable; the model has their effect once an item is there (`TryPeek`, `TryPop`). The worker wrappers in src/base/worker.rs are not modelled, only `WorkerSignal`'s generations.
- The server's queues inside `ServerMachine` are sequences; that draining one is a step of the machine is `ServerWorkers.DrainIsVisit`. Aliasing between threads is the mutex's, not the model's.
- `AttemptState`, clients, frames and sessions are values; the original mutates their records in place inside the collections that hold them.
- The activity log's file is written without failure, and its entries' random identifiers are not modelled; `toISOString` texts are compared as the numbers they stand for.
- Text is a sequence of characters; server.ini is a sequence of lines without carriage returns. JavaScript's `toLowerCase` and Rust's `to_ascii_lowercase` agree on the ASCII letters modelled.
- The `[server]` section is given as `Settings` with a numeric network of prefix 1 to 32; the console's treatment of /0 is not described.
- `localeCompare` only orders the written client lines: any permutation is allowed.
- StatusPublish.ControlSocket.Process: commands that are incomplete, timed out or too long are not modelled, a batch is the list of complete commands; the text of a snapshot is a function of the table for the duration of one batch; its JSON form and the counters in it are not modelled.
- StatusPublish.BatchUpToDateIff: stated for watchers that were up to date before the batch and for fingerprints without ':' and '|', which hexadecimal ones never hold.
- ServerConfig.ConfigFile.SaveClient: what the server takes is stated for files in which both programs see the same one section, clients whose fields neither program splits or cuts ('#', U+0085), and distinct addresses.
- Liveness.ThreeProbesBeforeTimeout: the loop's first look comes within 20 s of the last activity.
- `WakeUp`'s slots count a session's queued plaintext, ciphertext and pending input; that they abstract the sessions of `ServerMachine` is by reading the code, not by a proof.
- RateLimiter.AtMostLimitPerWindow: only for bans at least as long as the window, as the server configures them.
- Express routes, browser code, PKI service, packaging and launchers: plumbing.
