/**
 What the daemon of asd_main.c does, as functions on its state. The state holds
 the session table, the connected flag, everything made visible so far and the
 handshakes that clients have tried. A script gives the outcomes that the
 sockets, the clients and the debug target produce, round by round.
 */
module Behaviour {
  import opened Basics
  import opened SessionTable
  import opened SessionTimeouts
  import opened Protocol
  import opened Network
  import opened Session
  import opened IdleTimer
  import Lockout

  const HOST_FD_INDEX: nat := 0
  const GPIO_FD_INDEX: nat := 1
  const NUM_GPIOS: nat := 14
  const NUM_DBUS_FDS: nat := 1
  const NUM_I3C_DEBUG_FDS: nat := 1

  /** MAX_FDS for a daemon with room for `sessions` sessions. */
  function MaxFds(sessions: nat): nat {
    GPIO_FD_INDEX + sessions + NUM_GPIOS + NUM_DBUS_FDS + NUM_I3C_DEBUG_FDS
  }

  /** The settings: TLS or plain TCP, no authentication or PAM, the idle timer, the failures before a lockout. */
  datatype Config = Config(tls: bool, noAuth: bool, idleEnabled: bool, idleTimeout: nat, maxFailures: pos)

  /** What the target does while it processes one message. */
  datatype Callback = ReadCall(received: int, pending: bool) | SendCall(sentAll: bool)

  /** The outcomes of one client message. */
  datatype Message = Message(handshake: Lockout.Handshake, initOk: bool, callbacks: seq<Callback>, processOk: bool,
    deinitOk: bool, closeOk: bool)

  datatype PollFd = PollFd(fd: int, pollin: bool)

  /** The outcomes of one round of the processing loop. */
  datatype Iteration = Iteration(
    now: TimeVal, idleDeinitOk: bool, restart: TimeVal,
    pins: Option<seq<int>>,               // descriptors reported by the target
    clock: nat -> int,                    // clock readings of session_getfds
    pollResult: int, ready: set<nat>,     // poll's result and the entries with data
    accept: AcceptOutcome, openTime: int,
    sweepClock: nat -> int,
    messages: nat -> Message,
    activity: TimeVal,
    pinReplies: seq<bool>, pinsOk: bool, pinDeinitOk: bool)

  datatype State = State(table: Table, connected: bool, log: seq<Event>, handshakes: seq<Lockout.Handshake>)
  {
    function Log(events: seq<Event>): State {
      this.(log := log + events)
    }
  }

  // ---- Closing ----

  /** session_close. */
  function Closing(s: State, fd: int): State {
    s.(table := Step(s.table, CloseOp(fd)), log := s.log + ClosingEvents(s.table, fd))
  }

  /** on_client_disconnect. */
  function TargetDown(s: State, deinitOk: bool): State {
    s.(connected := false, log := s.log + [TargetDeinit(deinitOk)])
  }

  /** close_connection: the authenticated session is closed if the target could be deinitialised. */
  function Disconnected(s: State, deinitOk: bool): State {
    match AuthFd(s.table)
    case None => s
    case Some(fd) => if deinitOk then Closing(TargetDown(s, true), fd) else TargetDown(s, false)
  }

  // ---- Messages ----

  /** The reads and replies of the first n callbacks, all on one descriptor. */
  function Traffic(fd: int, callbacks: seq<Callback>, n: nat): seq<Event>
    requires n <= |callbacks|
  {
    if n == 0 then []
    else Traffic(fd, callbacks, n - 1) + [if callbacks[n - 1].ReadCall? then Read(fd) else Reply(fd)]
  }

  /** Everything that one message makes visible. */
  function Exchange(fd: int, callbacks: seq<Callback>): seq<Event> {
    [ProcessBegin(fd)] + Traffic(fd, callbacks, |callbacks|) + [ProcessEnd(fd)]
  }

  /** Whether data is pending after the first n callbacks: the last read tells. */
  function PendingAfter(pending: bool, callbacks: seq<Callback>, n: nat): bool
    requires n <= |callbacks|
  {
    if n == 0 then pending
    else if callbacks[n - 1].ReadCall? then callbacks[n - 1].pending
    else PendingAfter(pending, callbacks, n - 1)
  }

  /** Whether the handshake of a message succeeds after those tried before. */
  predicate HandshakeOk(cfg: Config, s: State, m: Message) {
    cfg.noAuth || Lockout.Accepts(Lockout.After(cfg.maxFailures, s.handshakes), m.handshake)
  }

  /** Whether a message on this descriptor reaches the target. */
  predicate Admitted(cfg: Config, s: State, fd: int, m: Message) {
    AuthFd(s.table) == Some(fd) || (AuthFd(s.table).None? && HandshakeOk(cfg, s, m) && m.initOk)
  }

  function Shaken(cfg: Config, s: State, m: Message): State {
    if cfg.noAuth then s else s.(handshakes := s.handshakes + [m.handshake])
  }

  /** on_client_connect, and on_client_disconnect when it fails. */
  function TargetUp(s: State, m: Message): State {
    var tried := s.Log([TargetInit(m.initOk)]);
    if m.initOk then tried else TargetDown(tried, m.deinitOk)
  }

  /** session_auth_complete when nobody is authenticated yet, and the target's initialisation. */
  function Joined(s: State, fd: int, m: Message): State {
    TargetUp(s.(table := Step(s.table, AuthOp(fd)), log := s.log + [Authenticated(fd)]), m)
  }

  /** The handshake, and when nobody is authenticated yet the authentication and the target's initialisation. */
  function Joining(cfg: Config, s: State, fd: int, m: Message): State {
    var shaken := Shaken(cfg, s, m);
    if HandshakeOk(cfg, s, m) && AuthFd(s.table).None? then Joined(shaken, fd, m) else shaken
  }

  /** ensure_client_authenticated. */
  function Ensured(cfg: Config, s: State, fd: int, m: Message): State {
    if AuthFd(s.table) == Some(fd) then s
    else if Admitted(cfg, s, fd, m) then Joining(cfg, s, fd, m)
    else Closing(Joining(cfg, s, fd, m), fd)
  }

  /** The target processes a message; when that fails, the client is disconnected. */
  function Processed(s: State, fd: int, pending: bool, m: Message): State {
    var exchanged := s.Log(Exchange(fd, m.callbacks));
    if !m.processOk then Closing(TargetDown(exchanged, m.deinitOk), fd)
    else
      exchanged.(table := Step(s.table, PendingOp(fd, PendingAfter(pending, m.callbacks, |m.callbacks|))))
  }

  predicate PendingOf(t: Table, fd: int) {
    var i := Find(t.slots, fd);
    i != -1 && t.slots[i].dataPending
  }

  /** process_client_message once the session is found. */
  function ServedOpen(cfg: Config, s: State, fd: int, pending: bool, m: Message): State {
    var ensured := Ensured(cfg, s, fd, m);
    if Admitted(cfg, s, fd, m) then Processed(ensured, fd, pending, m) else ensured
  }

  /** process_client_message for a descriptor with data. */
  function Served(cfg: Config, s: State, fd: int, m: Message): State {
    if fd !in Fds(s.table) then s else ServedOpen(cfg, s, fd, PendingOf(s.table, fd), m)
  }

  predicate Succeeds(cfg: Config, s: State, fd: int, m: Message) {
    fd in Fds(s.table) && Admitted(cfg, s, fd, m) && m.processOk
  }

  /** The messages of the first n polled clients, in the order of the poll array. */
  function ServedAll(cfg: Config, s: State, polled: seq<PollFd>, messages: nat -> Message, n: nat): State
    requires n <= |polled|
  {
    if n == 0 then s
    else
      var before := ServedAll(cfg, s, polled, messages, n - 1);
      if polled[n - 1].pollin then Served(cfg, before, polled[n - 1].fd, messages(n - 1)) else before
  }

  /** Whether each of those messages succeeds when its turn comes. */
  predicate AllSucceed(cfg: Config, s: State, polled: seq<PollFd>, messages: nat -> Message, n: nat)
    requires n <= |polled|
  {
    n == 0 || (
      && AllSucceed(cfg, s, polled, messages, n - 1)
      && (polled[n - 1].pollin ==>
        Succeeds(cfg, ServedAll(cfg, s, polled, messages, n - 1), polled[n - 1].fd, messages(n - 1))))
  }

  // ---- Accepting and expiring ----

  /** The connection that a pending accept will turn into a session. */
  function Newcomer(cfg: Config, t: Table, o: AcceptOutcome): Option<Conn> {
    var a := Answer(Fds(t), Handles(t), o);
    if Accepts(cfg.tls, a) && Find(t.slots, UNUSED_SOCKET_FD) != -1 then Some(Granted(cfg.tls, a)) else None
  }

  /** process_new_client: a connection without a free slot is given up again. */
  function Admitting(cfg: Config, s: State, o: AcceptOutcome, now: int): State {
    var a := Answer(Fds(s.table), Handles(s.table), o);
    var answered := s.Log(AcceptEvents(cfg.tls, a));
    match Newcomer(cfg, s.table, o)
    case Some(conn) => answered.(table := Step(s.table, OpenOp(conn, now)), connected := true)
    case None => if Accepts(cfg.tls, a) then answered.Log(CloseEvents(Granted(cfg.tls, a))) else answered
  }

  /** session_close_expired_unauth. */
  function Expiring(s: State, clock: nat -> int): State {
    s.(table := Step(s.table, SweepOp(clock)), log := SweepLog(s.log, s.table, |s.table.slots|, clock))
  }

  // ---- Rounds ----

  /** The target's descriptors fit into the array that it fills. */
  predicate PinsFit(it: Iteration) {
    it.pins.Some? ==> |it.pins.value| <= NUM_GPIOS + NUM_DBUS_FDS
  }

  function NumGpios(it: Iteration): nat {
    if it.pins.Some? then |it.pins.value| else 0
  }

  function ClientIndex(it: Iteration): nat {
    GPIO_FD_INDEX + NumGpios(it)
  }

  /** The open descriptors as poll leaves them. */
  function Polled(fds: seq<int>, clientIndex: nat, ready: set<nat>): seq<PollFd> {
    seq(|fds|, i requires 0 <= i < |fds| => PollFd(fds[i], clientIndex + i in ready))
  }

  /** The client that this round accepts, if any. */
  function Arrival(cfg: Config, t: Table, it: Iteration): Option<Conn> {
    if HOST_FD_INDEX in it.ready then Newcomer(cfg, t, it.accept) else None
  }

  /** The clients whose messages are looked at: those polled and, without authentication, the newcomer. */
  function Attended(cfg: Config, t: Table, it: Iteration): seq<PollFd> {
    var arrival := Arrival(cfg, t, it);
    Polled(OpenFds(t.slots, |t.slots|), ClientIndex(it), it.ready) +
    if cfg.noAuth && arrival.Some? then [PollFd(arrival.value.sockfd, true)] else []
  }

  function Arrived(cfg: Config, s: State, it: Iteration): State {
    if HOST_FD_INDEX in it.ready then Admitting(cfg, s, it.accept, it.openTime) else s
  }

  /** The network events of one round: accept, expiry, messages. */
  function Networked(cfg: Config, s: State, it: Iteration): State {
    var attended := Attended(cfg, s.table, it);
    ServedAll(cfg, Expiring(Arrived(cfg, s, it), it.sweepClock), attended, it.messages, |attended|)
  }

  /** Replies that the target sends on its own, to the authenticated client or nowhere. */
  function Replied(s: State, n: nat): State {
    if n == 0 then s
    else
      var before := Replied(s, n - 1);
      match AuthFd(s.table)
      case None => before
      case Some(fd) => before.(log := before.log + [Reply(fd)])
  }

  /** The pin events of one round. */
  function Pinned(s: State, it: Iteration): State {
    if NumGpios(it) == 0 then s
    else
      var replied := Replied(s, |it.pinReplies|);
      if it.pinsOk then replied else Disconnected(replied, it.pinDeinitOk)
  }

  /** The state with the loop's own variables: when something last happened, and whether the warning was sent. */
  datatype Timed = Timed(state: State, last: TimeVal, warned: bool)

  predicate Watching(cfg: Config, d: Timed) {
    cfg.idleEnabled && d.state.connected
  }

  predicate TimesOut(cfg: Config, d: Timed, it: Iteration) {
    Watching(cfg, d) && ElapsedMs(d.last, it.now) > cfg.idleTimeout
  }

  predicate Warns(cfg: Config, d: Timed, it: Iteration) {
    Watching(cfg, d) && !d.warned && ElapsedMs(d.last, it.now) > WarningTime(cfg.idleTimeout)
  }

  function IdleWarned(cfg: Config, d: Timed, it: Iteration): Timed {
    if Warns(cfg, d, it) then d.(state := d.state.Log([IdleWarning]), warned := true) else d
  }

  /** The idle timer at the start of a round. */
  function IdleChecked(cfg: Config, d: Timed, it: Iteration): Timed {
    var warned := IdleWarned(cfg, d, it);
    if TimesOut(cfg, d, it) then
      Timed(Disconnected(warned.state.Log([IdleTimeout]), it.idleDeinitOk).Log([Activity]), it.restart, false)
    else warned
  }

  /** The network part of a round, with the restart of the idle timer. */
  function Attentive(cfg: Config, d: Timed, it: Iteration): Timed {
    if it.pollResult <= 0 then d
    else
      var s := Networked(cfg, d.state, it);
      if s.connected then Timed(s.Log([Activity]), it.activity, false) else d.(state := s)
  }

  /** One round of request_processing_loop. */
  function Round(cfg: Config, d: Timed, it: Iteration): Timed {
    var checked := IdleChecked(cfg, d, it);
    if TimesOut(cfg, d, it) || it.pollResult == -1 then checked
    else
      var served := Attentive(cfg, checked, it);
      served.(state := Pinned(served.state, it))
  }

  /** The loop ends only when poll fails. */
  predicate Stops(cfg: Config, d: Timed, it: Iteration) {
    !TimesOut(cfg, d, it) && it.pollResult == -1
  }

  /** The rounds of a script up to the first that stops the loop, and whether there was one. */
  function Rounds(cfg: Config, d: Timed, script: seq<Iteration>): (Timed, bool) {
    if script == [] then (d, false)
    else
      var (before, stopped) := Rounds(cfg, d, script[..|script| - 1]);
      var it := script[|script| - 1];
      if stopped then (before, true) else (Round(cfg, before, it), Stops(cfg, before, it))
  }

  /** deinit_asd_state. */
  function Deinited(s: State, deinitOk: bool): State {
    var t := s.table;
    s.(table := Step(t, CloseAllOp), log := EmptyLog(s.log + [Shutdown], t, |t.slots|) + [TargetDeinit(deinitOk)])
  }

  function Start(n: nat, start: TimeVal): Timed {
    Timed(State(Initial(n), false, [], []), start, false)
  }

  /** Everything that a run from start to shutdown makes visible. */
  function WholeLog(cfg: Config, n: nat, start: TimeVal, script: seq<Iteration>, deinitOk: bool): seq<Event> {
    Deinited(Rounds(cfg, Start(n, start), script).0.state, deinitOk).log
  }
}
