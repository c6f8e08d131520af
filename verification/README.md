# A verified model of the At-Scale Debug server

This project models three parts of the repository and proves what they promise.

**The daemon** (`server/`). A fixed table of session slots is driven by accepts,
expiries, handshakes, messages, pin failures, idle timeouts and shutdown.

- `SessionTable` is the table as a value, with its invariant and its operations;
  `SessionTimeouts` is the arithmetic of the poll timeout, `IdleTimer` that of the
  idle timer. `Lockout` is the PAM handshake with its few timestamps, compared with
  the unbounded history of failures.
- `Session`, `Network`, `Lockout` and `Daemon` hold the code: classes and methods on
  mutable slots.
- `World` is the daemon's surroundings. Every accept, close, handle, authentication,
  target call, read, reply and idle event is written to a log, and each has a
  precondition saying that it is in order when it happens. `Protocol` says what that
  means for a whole log: `Safe` speaks only of which events come before which.
- `Behaviour` says what the daemon does as functions on its state: table, connected
  flag, log and handshakes, for one message, one round, a whole script of rounds.
  Every method of `Daemon.Server` is proved to do exactly that, and `Daemon.RunDaemon`
  returns exactly the log that the script determines, which is `Safe` and gives back
  everything that was accepted.
- `Runs` proves what this means over any number of rounds: who keeps the target, who is
  refused, which sessions are served, what becomes of expired ones, when a lockout is over.
  `Watching` proves whom the idle timer watches and when it disconnects an idle client,
  `Serving` what one message does, event by event, and `Arriving` who is let in.

The number of slots and of timestamps are symbolic.

**The JTAG test** (`jtag_test/`, `server/logging.c`). Byte buffers are read as
little-endian numbers (`Bytes`). `ByteShift` proves the in-place shifts to be
multiplication and division, `IrPacking` builds on it for the instruction command,
`HexText` for the hexadecimal printer and `ManualDump` for the two together.
`ScanChain` is the chain as a delay line clocked bit by bit, and `JtagChainTest`
proves discovery, expected data and validation against it.

**The TinySPP encoder** (`i3c_dbg_test/`). `TinySpp` has the encoder that writes
the buffer, and a decoder written from the packet layout alone.

## What the code does that its documentation does not say

- The attempt tracker counts an empty timestamp, 0, as a failure while the clock is
  below 60 s: `Lockout.EarlyFailureLocksOut` is an input, `Lockout.VerdictExact` the exact
  condition for agreeing with the documented rule.
- The handshake asks for the authenticated connection without a record to put it in and
  is always told that there is none, so it never responds BUSY and accepts valid
  credentials whoever is authenticated (`Lockout.PamAuthenticator.ClientHandshake`). A
  second client is refused later, by `session_auth_complete`
  (`Runs.SecondClientIsRefused`).
- `session_getfds` computes a timeout, but poll is always called with 10 ms. Pending data
  without a poll event is not served (`Runs.PendingIsNotServed`, `Runs.HolderServedExactly`).
- The idle timer looks only while the connected flag is set, and that flag is the daemon's,
  not the client's: every new client sets it, every attempt to deinitialise the target clears
  it, and authenticating does not touch it (`Watching.ConnectedExactly`). So a client is watched
  exactly when some client has arrived and no deinit has been attempted since
  (`Watching.WatchedExactly`). Out of sight is a client that takes over in the ordinary way,
  having connected before its predecessor failed or left (`Watching.HandoverUnwatched`), and one
  whose disconnection failed (`Watching.FailedDeinitUnwatches`). No idle timeout reaches it until
  another client arrives (`Watching.UnwatchedUntilArrival`, `Watching.IdleHolderTimesOut`).
- Accept comes before the expiry sweep, so a table full of expired sessions refuses a newcomer
  (`Runs.ExpiredStillTakeRoom`).
- The remaining time wraps in 32 bits about 25 days past a deadline
  (`SessionTimeouts.RemainingExact`, `SessionTimeouts.RemainingWraps`).
- A closed connection record must not be authenticated, since the lookup of -1 finds an
  unused slot (`SessionTable.AuthenticatingUnused`). The daemon never does that.
- Packing instructions overwrites a whole byte. Every width below 8 loses bits for some count
  and value (`IrPacking.PackedIsFieldsIffWide`, `IrPacking.NarrowWidthFails`);
  `IrPacking.PackedExactly` says for which.
- Discovery hands `find_pattern` a bit count as a byte count; and it miscounts when the
  pattern already occurs among the identification codes (`JtagChainTest.DiscoveryExact`,
  `JtagChainTest.MiscountedChain`).
- The size of the hexadecimal result is doubled in 32 bits. For buffers of 2 GB and more
  the digits leave the allocation unless they are few enough
  (`HexText.WritesStayInside`, `HexText.OverrunExample`). Bit counts within 7 of 2^32
  print an empty numeral (`HexText.LogShift`).
- The TinySPP count field has 7 bits but takes 8-bit counts (`TinySpp.CountField`), and
  the response decoder's index has 8 bits (`TinySpp.DecodedIsTail`). Its counter has 16 bits,
  so for sizes above 65539 it never ends (`TinySpp.CounterReachesSize`).

## Model

| member | source | states |
|---|---|---|
| `Daemon.RunDaemon` | server/asd_main.c:72-94 | for every configuration and every script the log of the whole run is the one that Behaviour determines, it is safe, nothing is left open, and every descriptor and TLS handle was given up as often as it was handed out |
| `Protocol.InOrderIsSafe` | server/asd_main.c:792-907 | a log whose every event was in order keeps the promises about all of them: accepts and closes, authentications, messages, reads, replies, initialisations, warnings and timeouts |
| `Arriving.AdmittedExactly` | server/session.c:162-197 | a client gets a session iff the network brings the connection about and some slot is not open: the first such slot, with a deadline 15 s from now; every other slot is as it was |
| `Arriving.AcceptedEvents` | server/ext_network.c:236-269 | what every accept makes visible, with handle and descriptor given up in this order when nothing comes of it |
| `Arriving.ArrivalHasSession` | server/asd_main.c:930-988 | a client that arrives in a round has its session when messages are looked at, iff the sweep comes within 15 s |
| `Arriving.FirstClientGetsIn` | server/asd_main.c:930-988 | whatever the rounds before it bring, the first client of a run gets the first slot |
| `Arriving.SilentUntilDeadline` | server/session.c:284-304 | a waiting client that stays silent keeps its session exactly until the sweep's clock reaches its deadline |
| `Arriving.NoAuthServedAtOnce` | server/asd_main.c:970-985 | without authentication a newcomer's message is looked at in the same round, and it gets the target |
| `Serving.MessageIsExchanged` | server/asd_main.c:705-736 | every admitted message is begun, gets exactly one reply per send and one read per read, in order and on its descriptor, and is ended |
| `Serving.ServiceEvents` | server/asd_main.c:1055-1075 | the events of an admitted message: joining, exchange, and if it fails deinit and close |
| `Serving.RefusalEvents` | server/asd_main.c:1118-1159 | the events of a message that is not admitted, including a failed init, and the close of its session |
| `Serving.HolderExactly` | server/asd_main.c:1118-1138 | the sender holds the target afterwards iff it did, or nobody did, init works and it is let in without authentication or by every condition of PAM's handshake; and the message is processed |
| `Serving.MalformedNeverHolds` | server/auth_pam.c:282-292 | oversized requests and newer versions never make their sender the holder, in any round |
| `Serving.HandshakesRecorded` | server/asd_main.c:1126-1130 | with PAM exactly the messages of clients that do not hold the target are handshakes |
| `Serving.PendingRemembered` | server/asd_main.c:1069-1074 | after a message its session has data pending iff the last read said so |
| `Serving.FirstComeFirstServed` | server/asd_main.c:1002-1014 | the first client in poll order whose message can succeed gets the target |
| `Serving.AllSucceedExactly` | server/asd_main.c:1002-1014 | a batch succeeds iff each message succeeds in its turn |
| `Serving.PinReplies` | server/asd_main.c:887-901 | what the target sends during pin events goes to the holder, one reply each, or nowhere |
| `Runs.StopsAtPollError` | server/asd_main.c:862-905 | the loop has ended iff some round found poll failing |
| `Runs.StaysThroughout` | server/asd_main.c:792-907 | over any number of rounds the client that holds the target keeps it iff no round contains an idle timeout or pin failure with a successful deinit, or a failing message of its own |
| `Runs.StaysThroughRound` | server/asd_main.c:801-905 | the same for one round |
| `Runs.StaysThroughBatch` | server/asd_main.c:990-1018 | the same for the messages of one poll |
| `Runs.RoundRefusesOthers` | server/session.c:347-379 | in a round that keeps the holder every other client that sends anything is disconnected |
| `Runs.SecondClientIsRefused` | server/session.c:347-379 | the same for the messages of one poll, whether or not the handshake succeeds |
| `Runs.PendingIsNotServed` | server/asd_main.c:1002-1014 | without a poll event no message of a session is processed and its slot stays as it is, pending flag included |
| `Runs.HolderServedExactly` | server/asd_main.c:990-1077 | a message of the client that holds the target is processed in a round iff poll marks its entry |
| `Runs.EventIsServed` | server/asd_main.c:1002-1014 | an event of any session that is admitted in its turn gets the message processed |
| `Runs.ExpiredNeverHolds` | server/session.c:284-304 | an unauthenticated client past its deadline at the sweep never holds the target afterwards, over any number of rounds, unless its number is given to a new client |
| `Runs.ExpiredStillTakeRoom` | server/asd_main.c:869-876 | a newcomer is refused when expired sessions fill the table, although the sweep then empties it |
| `Watching.ConnectedExactly` | server/asd_main.c:966-983 | after a round the connected flag is set iff it was set or a client arrived, and the round attempted no deinit |
| `Watching.WatchedExactly` | server/asd_main.c:792-907 | at every moment of a run the flag is set iff some client has arrived and no deinit was attempted since |
| `Watching.IdleHolderTimesOut` | server/asd_main.c:814-826 | an idle client that holds the target is timed out iff the timer is enabled, it is watched and the limit is exceeded; it is disconnected iff the deinit then succeeds |
| `Watching.IdleSinceActivity` | server/asd_main.c:814-826 | idle time is counted from the clock reading of the last round with events, or of the last idle timeout: a quiet round times out iff the timer is enabled and its clock is past the limit from there |
| `Watching.ActivityRestarts` | server/asd_main.c:878-883 | a round with events that leaves the flag set restarts the timer and clears the warning |
| `Watching.WarnedSinceActivity` | server/asd_main.c:776-780 | the warning is sent in the first quiet round past nine tenths of the limit, counted from there, and then only |
| `Watching.HandoverUnwatched` | server/asd_main.c:1293-1305 | an input: a client takes over after the holder's message failed, every deinit succeeds, and the flag is clear |
| `Watching.FailedDeinitUnwatches` | server/asd_main.c:909-928 | a timeout or pin failure whose deinit fails leaves the client authenticated and the connected flag clear |
| `Watching.UnwatchedUntilArrival` | server/asd_main.c:814-826 | while the flag is clear no round times out, over any number of rounds without a new client |
| `Watching.FailedDeinitEscapesTimeout` | server/asd_main.c:814-826 | after such a failed deinit no later round times the client out until another one arrives |
| `Runs.NewClientWaitsForLockouts` | server/asd_main.c:1118-1138 | with PAM a new client gets in only 60 s after every lockout verdict of the run |
| `Runs.RunOpenedBefore` | server/session.c:162-197 | at every moment of a run the deadlines lie at most 15 s past the clock |
| `Runs.RoundsInv` | server/asd_main.c:792-907 | every table of a run satisfies the table's invariant |
| `Runs.ServeEffect` | server/asd_main.c:1025-1077 | a message lets its sender hold the target or disconnects it, and changes no other session |
| `Daemon.Server.RequestLoop` | server/asd_main.c:792-907 | the loop does the rounds of the script up to the first poll error, keeping table, descriptors, target and authentication consistent |
| `Daemon.Server.RunRound` | server/asd_main.c:801-905 | one round leads exactly to the state, timer and warning flag that Behaviour gives; only a poll error stops the loop |
| `Daemon.Server.IdleCheck` | server/asd_main.c:814-826 | an idle timeout disconnects the authenticated client if the target can be deinitialised, and restarts the timer |
| `Daemon.Server.CheckIdleTimeout` | server/asd_main.c:765-790 | reports a timeout iff the true idle time exceeds the limit by 1 ms, or by less when the microseconds wrapped; the warning comes first and once |
| `Daemon.Server.PollRound` | server/asd_main.c:827-885 | the network part of a round, and the timer restarts iff there were events and someone is connected |
| `Daemon.Server.PollNetwork` | server/asd_main.c:827-876 | accept, expiry and messages in this order, and nothing without events |
| `Daemon.Server.FillPollFds` | server/asd_main.c:827-858 | with at most 15 pins all writes stay in the array, pins and clients lie in separate ranges holding exactly the reported pins and the open descriptors, and one entry is left |
| `Daemon.Server.PinEvents` | server/asd_main.c:887-901 | replies go to the authenticated client or nowhere, and a pin failure disconnects it |
| `Daemon.Server.Admit` | server/asd_main.c:942-970 | a connection gets a session iff the network accepts it and a slot is free; otherwise everything is given up again |
| `Daemon.Server.ProcessNewClient` | server/asd_main.c:930-988 | in no-auth mode an accepted client always has room and is appended behind the polled clients, marked as ready |
| `Daemon.Server.ProcessAllClientMessages` | server/asd_main.c:990-1018 | after the expiry sweep every ready client is served in poll order, whether or not others fail; the result is success iff each message succeeds in its turn |
| `Daemon.Server.ProcessClientMessage` | server/asd_main.c:1025-1077 | result, table, connected flag and log after a message, in every case; a vanished session changes nothing |
| `Daemon.Server.EnsureClientAuthenticated` | server/asd_main.c:1118-1159 | succeeds iff the session is authenticated already, or nobody is and handshake and init succeed; otherwise this session is closed, with the log and the connected flag of either case |
| `Daemon.Server.Authenticate` | server/asd_main.c:1126-1150 | the handshake, then authentication and initialisation, for each outcome |
| `Daemon.Server.ShakeHands` | server/asd_main.c:1128-1130 | the verdict of PAM's handshake after all earlier ones of the run, or success without authentication |
| `Daemon.Server.OnClientConnect` | server/asd_main.c:1161-1251 | init is attempted once, only in a state with no attempt since the last deinit |
| `Daemon.Server.OnClientDisconnect` | server/asd_main.c:1293-1351 | clears the connected flag and attempts deinit |
| `Daemon.Server.CloseConnection` | server/asd_main.c:909-928 | closes the authenticated session iff there is one and deinit succeeds |
| `Daemon.Server.SendOut` | server/asd_main.c:705-736 | a reply goes to the authenticated descriptor or nowhere |
| `Daemon.Server.ReadData` | server/asd_main.c:1079-1104 | a read uses the descriptor of the message being processed |
| `Daemon.Server.ProcessMsg` | server/asd_main.c:1061-1062 | the log of a message is its begin, its reads and replies in order on one descriptor, and its end |
| `Daemon.Server.Deinit` | server/asd_main.c:692-703 | shutdown closes every descriptor and frees every handle |
| `Protocol.Conserved` | server/ext_network.c:302-338 | a descriptor was accepted once more than closed while open, else equally often |
| `Protocol.HandlesConserved` | server/ext_tls.c:370-388 | the same for TLS handles |
| `Protocol.MessagesAreGuarded` | server/asd_main.c:1025-1077 | a message is processed only for the session authenticated last and not closed since, between a successful init and the next successful deinit |
| `Protocol.ReadsBelongToMessage` | server/asd_main.c:1079-1104 | every read lies within a message of its descriptor |
| `Protocol.RepliesGoToClient` | server/asd_main.c:705-736 | every reply goes to the authenticated descriptor, and within a message to the descriptor of that message |
| `Protocol.OneAuthenticationAtATime` | server/session.c:347-379 | between two authentications the first of the two sessions was closed |
| `Protocol.DeinitBetweenInits` | server/asd_main.c:1129-1155 | between two init attempts lies a deinit attempt |
| `Protocol.TimeoutIsWarned` | server/asd_main.c:776-787 | every idle timeout has its warning in the same idle period |
| `Protocol.OneWarningPerPeriod` | server/asd_main.c:776-780 | between two warnings the idle period was restarted |
| `SessionTable.ReachableTable` | server/session.c:67-379 | however accept, expiry, authentication, data and close interleave, the table keeps its invariant and at most one session is authenticated |
| `SessionTable.OpenedInv` | server/session.c:162-197 | opening adds exactly the new descriptor and handle and leaves the authentication |
| `SessionTable.ClosedResources` | server/session.c:205-227 | closing gives up exactly the slot's descriptor and handle |
| `SessionTable.SweptAt` | server/session.c:284-304 | the sweep closes exactly the expired unauthenticated slots and leaves all others as they were |
| `SessionTable.SweepExpires` | server/session.c:284-304 | right after a sweep no unauthenticated session is past its deadline |
| `SessionTable.AuthenticatingUnused` | server/session.c:347-379 | authenticating a closed record would mark an unused slot and break the invariant |
| `SessionTimeouts.LimitIsMinimum` | server/session.c:436-459 | the timeout is the least of the incoming limit and the remaining times of the waiting sessions, and is one of them |
| `SessionTimeouts.RemainingExact` | server/session.c:444-449 | the computed time is the true remaining time iff the millisecond count does not change sign in 32 bits |
| `SessionTimeouts.RemainingWraps` | server/session.c:444-449 | an input for which a long wait is reported long after the deadline |
| `SessionTimeouts.ShortTimeoutExactly` | server/session.c:427-476 | once all deadlines are at most 15 s away, the timeout is at most 15000 ms iff a session waits whose milliseconds do not wrap past that |
| `SessionTimeouts.ReachableOpenedBefore` | server/session.c:162-197 | in reachable tables all deadlines are at most 15 s away |
| `SessionTimeouts.OpenFdsExact` | server/session.c:438-468 | the descriptors returned are exactly the open ones |
| `SessionTimeouts.OpenFdsInOrder` | server/session.c:438-468 | they come in slot order |
| `SessionTimeouts.OpenFdsFull` | server/session.c:438-468 | they fill the array iff no slot is free |
| `Session.Sessions.constructor` | server/session.c:67-103 | ids equal indexes, every slot is unused, nobody is authenticated |
| `Session.Sessions.FindPrivate` | server/session.c:113-130 | the first slot with the descriptor, an unused one for -1 |
| `Session.Sessions.LookupConn` | server/session.c:139-152 | finds the slot iff the descriptor is open |
| `Session.Sessions.Open` | server/session.c:162-197 | succeeds iff a slot is free; takes over the record with its deadline; on failure nothing changes and the caller still owns the record |
| `Session.Sessions.ClosePrivate` | server/session.c:205-227 | an open slot is cleared and its descriptor and handle are released once; a closed one is only reset |
| `Session.Sessions.Close` | server/session.c:237-257 | succeeds iff the descriptor is open; the authenticated session is closed only after a deinit attempt or at shutdown |
| `Session.Sessions.CloseAll` | server/session.c:263-277 | no descriptor and no handle is left |
| `Session.Sessions.CloseExpiredUnauth` | server/session.c:284-304 | performs the sweep and keeps the authenticated session |
| `Session.Sessions.AlreadyAuthenticated` | server/session.c:313-337 | true iff the descriptor is the authenticated one |
| `Session.Sessions.AuthComplete` | server/session.c:347-379 | succeeds iff nobody is authenticated and the descriptor is in the table |
| `Session.Sessions.GetAuthenticatedConn` | server/session.c:389-413 | with a record it yields the authenticated connection iff there is one; without one it always fails |
| `Session.Sessions.GetFds` | server/session.c:427-476 | the open descriptors in slot order; timeout 0 if data is pending, otherwise the minimum, and exactly when it is at most 15000 ms |
| `Session.Sessions.SetDataPending` | server/session.c:487-509 | sets the flag of that session and nothing else |
| `Session.Sessions.GetDataPending` | server/session.c:520-542 | returns the flag of that session |
| `Network.AcceptConnection` | server/ext_network.c:236-269 | on success the caller owns the new descriptor and handle; on every failure nothing is left open, with the nested close done once |
| `Network.CloseClient` | server/ext_network.c:302-338 | an open record is released and cleared, a closed one is left alone |
| `Network.OnAcceptTls` | server/ext_tls.c:221-338 | which resources a TLS accept leaves with the record in each outcome; after a failed negotiation the record is closed |
| `Network.OnCloseClient` | server/ext_tls.c:370-388 | the handle is freed iff there is one and then forgotten |
| `Lockout.SlotsHoldRecentFailures` | server/auth_pam.c:215-266 | in every run the timestamps are, as a multiset, the most recent failures since the last success, padded with zeros |
| `Lockout.VerdictExact` | server/auth_pam.c:215-266 | the verdict equals the documented rule over the unbounded history iff the attempt is no failure, the clock has passed 60 s, or enough failures are recorded |
| `Lockout.EarlyFailureLocksOut` | server/auth_pam.c:215-266 | an input for which it does not |
| `Lockout.AcceptsExactly` | server/auth_pam.c:381-467 | a handshake succeeds iff the random source worked, 1 to 129 bytes of a version up to 0x30 came with nothing pending and no lockout, PAM agreed and the response was sent |
| `Lockout.RecordedExactly` | server/auth_pam.c:215-315 | which requests replace the oldest timestamp, which clear all and which leave none |
| `Lockout.MalformedIsRefused` | server/auth_pam.c:282-292 | an oversized or newer request is refused as a failure and recorded |
| `Lockout.LockoutExactly` | server/auth_pam.c:413-462 | a lockout is set or renewed iff data arrives during one, or a failure finds every timestamp in the period; it then lasts 60 s |
| `Lockout.AttemptsRefine` | server/auth_pam.c:381-467 | the tracker's part of a run of handshakes is a run of attempts |
| `Lockout.LockoutNeverShrinks` | server/auth_pam.c:381-467 | the end of the lockout never decreases |
| `Lockout.SuccessWaitsForLockouts` | server/auth_pam.c:381-467 | success comes only 60 s after every earlier lockout verdict |
| `Lockout.LockedDataRenews` | server/auth_pam.c:413-462 | data received while locked is refused and renews the full 60 s |
| `Lockout.GuessesAreThrottled` | server/auth_pam.c:381-467 | whenever a client's own request is examined, at most n failures since the last success lie in the period before it |
| `Lockout.PamAuthenticator.TrackAttempt` | server/auth_pam.c:215-266 | the scan over the array finds the oldest timestamp, replaces it and counts those in the period |
| `Lockout.PamAuthenticator.AuthenticateClient` | server/auth_pam.c:282-315 | oversized requests and newer versions are invalid data, everything is tracked |
| `Lockout.PamAuthenticator.ClientHandshake` | server/auth_pam.c:381-467 | verdict, response and new state for every combination of outcomes; never BUSY, and success whoever else is authenticated |
| `IdleTimer.WarningTimeExactly` | server/asd_main.c:800-800 | the warning time is nine tenths of the limit, rounded down |
| `IdleTimer.ExceededExactly` | server/asd_main.c:771-783 | with truncating division a limit is never exceeded at the limit, always 1 ms later, and in between iff the microseconds wrapped |
| `ByteShift.ShlNValue` | jtag_test/jtag_test.c:903-913 | k left shifts multiply by 2^k modulo 256^n |
| `ByteShift.ShrNValue` | jtag_test/jtag_test.c:915-925 | k right shifts divide by 2^k |
| `ByteShift.ShrNUndoesShlN` | jtag_test/jtag_test.c:903-925 | k right shifts undo k left shifts iff no set bit was lost |
| `ByteShift.ShrUndoesShl` | jtag_test/jtag_test.c:903-925 | one right shift undoes one left shift iff the top bit was clear |
| `ByteShift.ShlDoubles` | jtag_test/jtag_test.c:903-913 | shift_left is multiplication by 2 modulo 256^n |
| `ByteShift.ShrHalves` | jtag_test/jtag_test.c:915-925 | shift_right is division by 2, rounded down |
| `ByteShift.ShiftLeft` | jtag_test/jtag_test.c:903-913 | the loop with its carry shifts the first n bytes and leaves the rest |
| `ByteShift.ShiftRight` | jtag_test/jtag_test.c:915-925 | the same to the right |
| `IrPacking.PackedIsFieldsIffWide` | jtag_test/jtag_test.c:719-732 | the command is the sum of v * 2^(k*w) for every device count and value iff w is at least 8 |
| `IrPacking.PackedExactly` | jtag_test/jtag_test.c:719-732 | for every count, width and value the command is packed correctly iff the width is at least 8, or the shifted value leaves the overwritten byte clear and the topmost value fits the buffer |
| `IrPacking.NarrowWidthFails` | jtag_test/jtag_test.c:726-732 | two devices show the loss for every narrower width |
| `IrPacking.EveryDeviceReceives` | jtag_test/jtag_test.c:719-732 | the field of every device is v |
| `IrPacking.PackIr` | jtag_test/jtag_test.c:719-732 | the nested loop builds the command and its size never exceeds the 2048-byte buffer |
| `HexText.NumeralValue` | server/logging.c:210-236 | the numeral has 2n-1 or 2n digits and denotes the buffer modulo 2^bits |
| `HexText.NumeralLength` | server/logging.c:210-236 | it has 2n digits, one less iff the last byte is partial and the value is below 16 * 256^(n-1) |
| `HexText.NumeralIsHex` | server/logging.c:210-236 | it consists of hexadecimal digits only |
| `HexText.BufferToHex` | server/logging.c:210-236 | the numeral is written contiguously from index 0, everything behind it is unchanged, nothing is written outside |
| `HexText.WritesStayInside` | server/logging.c:242-270 | the digits and the terminator fit the allocation iff the buffer is below 2^31 bytes or at most its size minus 2^31 bytes are printed; one byte more fits without terminator iff the first digit is dropped |
| `HexText.OverrunExample` | server/logging.c:242-270 | an input for which 16 digits go into one byte |
| `HexText.LogShift` | server/logging.c:238-274 | for every bit count, length and content either the text denotes the buffer modulo 2^bits, with the bit count cut to the buffer, or, exactly without room, the allocation is overrun |
| `ManualDump.PrintRegisters` | jtag_test/jtag_test.c:848-864 | the text for device i denotes floor(TDO / 2^(i*d)) mod 2^d, the last text the 64 bits behind the devices |
| `ScanChain.CapturedIsDelayed` | jtag_test/jtag_test.c:509-512 | a chain of registers clocked bit by bit shows on TDO its codes followed by the data, and nothing else does |
| `JtagChainTest.FindPattern` | jtag_test/jtag_test.c:578-593 | the first match, or 0 when there is none |
| `JtagChainTest.Discover` | jtag_test/jtag_test.c:511-557 | succeeds iff the first match is neither at 0 nor beyond 16 devices, and then stores the words before it |
| `JtagChainTest.DiscoveryExact` | jtag_test/jtag_test.c:478-558 | on a healthy chain of k devices exactly k devices with their codes are reported iff the pattern does not occur earlier |
| `JtagChainTest.MiscountedChain` | jtag_test/jtag_test.c:478-558 | a chain of three devices of which one is reported |
| `JtagChainTest.HealthyVerdict` | jtag_test/jtag_test.c:806-876 | a healthy chain validates iff no error was injected below byte 128-4n |
| `JtagChainTest.ExpectedBytes` | jtag_test/jtag_test.c:806-826 | every byte of the expected data: codes, then the pattern without a gap, and for odd counts four zero bytes |
| `JtagChainTest.InjectedExactly` | jtag_test/jtag_test.c:662-678 | injection changes exactly bit 7 - bit mod 8 of the chosen byte |
| `JtagChainTest.FillPattern` | jtag_test/jtag_test.c:806-826 | in every iteration expected_data is the codes followed by the first 128-4n bytes of shift_in_data |
| `JtagChainTest.InjectError` | jtag_test/jtag_test.c:662-678 | flips one bit of the chosen byte, or nothing behind the end |
| `JtagChainTest.ValidateData` | jtag_test/jtag_test.c:680-707 | true iff the compared bytes are equal |
| `JtagChainTest.RunTest` | jtag_test/jtag_test.c:734-888 | what every iteration sends and how it judges; without count mode the first failure ends the test |
| `TinySpp.DecodeEncode` | i3c_dbg_test/i3c_dbg_test.c:1603-1681 | decoding from the layout gives back the command up to field widths, for every command |
| `TinySpp.HeaderRoundTrip` | i3c_dbg_test/i3c_dbg_test.h:109-126 | reading the twelve header bytes back gives every field cut to its width, both payload words included |
| `TinySpp.LongBytes` | i3c_dbg_test/i3c_dbg_test.c:1458-1508 | the twelve bytes of a long command |
| `TinySpp.ShortBytes` | i3c_dbg_test/i3c_dbg_test.c:1509-1601 | the four header bytes of every other command, with its count |
| `TinySpp.EncodingIsFaithful` | i3c_dbg_test/i3c_dbg_test.c:1603-1681 | two commands share an encoding iff they agree on the wire |
| `TinySpp.InRangeIsExact` | i3c_dbg_test/i3c_dbg_test.h:102-130 | no field is cut iff the command is in range |
| `TinySpp.OpcodeInFirstByte` | i3c_dbg_test/i3c_dbg_test.c:1458-1601 | the first byte tells the opcode |
| `TinySpp.EncodedLength` | i3c_dbg_test/i3c_dbg_test.c:1603-1681 | header plus fields plus data; fits 255 bytes iff there are at most 61 words, respectively 247 bytes |
| `TinySpp.CountField` | i3c_dbg_test/i3c_dbg_test.c:1458-1601 | the count equals the number of data bytes iff there are fewer than 128 |
| `TinySpp.GeneratePayload` | i3c_dbg_test/i3c_dbg_test.c:1603-1681 | the buffer holds the encoding, the rest is unchanged, and the 8-bit result is the length |
| `TinySpp.PacketCheckExactly` | i3c_dbg_test/i3c_dbg_test.c:1084-1100 | a response passes iff it has two bytes, echoes the opcode byte and reports no error |
| `TinySpp.ResponseFitsOneOpcode` | i3c_dbg_test/i3c_dbg_test.c:1084-1100 | no response passes the check for two opcodes |
| `TinySpp.DecodeRx` | i3c_dbg_test/i3c_dbg_test.c:1684-1701 | the output as copied with the 8-bit index, for every size up to 65539 |
| `TinySpp.CounterReachesSize` | i3c_dbg_test/i3c_dbg_test.c:1696-1699 | the 16-bit counter ever reaches the size, and the loop ends, iff the size is at most 65539 |
| `TinySpp.DecodedIsTail` | i3c_dbg_test/i3c_dbg_test.c:1684-1701 | the output is the packet without its header iff the packet has at most 256 bytes |

## Left out

- PAM, OpenSSL, sockets, poll, the journal and the clocks are outcomes in the script or parameters. Accept is taken to return a descriptor that is not open, and SSL_new a handle that is not live; an outcome that says otherwise counts as a failed accept.
- The target library is abstract: init, deinit and pin processing succeed or fail, and a message is a sequence of reads and replies. Reads happen only while a message is processed.
- Start-up failures, closing the listening socket, command-line parsing, usage text, signals and throughput figures.
- The loop runs for as many rounds as the script has; every longer run has such a beginning.
- Connection records are values in the slot array and `p_extconn` is the index of a slot, so the pointer's aliasing is the index's. The handler field of a plain TCP record, which the code leaves unset, is taken to be NULL.
- The conversion of the idle limit from minutes, which the code computes in int: the limit is any natural number of milliseconds. The factor 0.9 is taken over the reals.
- The patterns that `apply_pattern` generates: the theorems hold for every 8-byte pattern. The shifts of the instruction register and driver errors in `jtag_test`.
- `ASD_log_shift_to_from`, `ASD_log_buffer`, timestamps and stream names in `server/logging.c`.
- The flow of `i3c_dbg_test` apart from its encoder, check and decoder. Bytes and words there are bounded naturals; bit fields are cut by remainder and laid out from the low bit.
- `set_config_defaults`, `ext_tcp` and the API shims, which only copy fields or dispatch.
- Session.Sessions.AuthComplete: takes a descriptor that is not negative, as a closed record would mark an unused slot; every caller's record comes from a successful lookup.
- TinySpp.DecodeRx: takes sizes up to 65539, with which the loop ends; for larger ones the code does not return.
- JtagChainTest.FindPattern: assumes that the needle is not longer than the searched part, since the code's unsigned difference would wrap; its only caller satisfies this.
