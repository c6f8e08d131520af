/**
 The daemon of asd_main.c as it runs: accepting, authenticating and serving
 clients, idle timeout, pin events and shutdown. Every step is proved to do what
 Behaviour says, and to write to the log only events that are in order.
 */
module Daemon {
  import opened Basics
  import opened SessionTable
  import opened SessionTimeouts
  import opened Protocol
  import opened World
  import opened Network
  import opened Session
  import opened IdleTimer
  import opened Behaviour
  import Lockout

  class Server {
    const cfg: Config
    const env: Environment
    const sessions: Sessions
    const pam: Lockout.PamAuthenticator
    var isConnected: bool
    var current: int          // the slot that p_extconn points into, -1 for NULL
    var dataPending: bool
    ghost var handshakes: seq<Lockout.Handshake>

    ghost function Now(): State
      reads this, sessions, sessions.slots, env
    {
      State(sessions.View(), isConnected, env.log, handshakes)
    }

    /** The authenticator has seen exactly the handshakes recorded. */
    ghost predicate Shaking()
      reads this, pam, pam.attempts
    {
      && pam.attempts.Length == cfg.maxFailures
      && pam.attempts as object != sessions.slots as object
      && pam.State() == Lockout.After(cfg.maxFailures, handshakes)
    }

    /** Between any two of the daemon's steps, the authenticator included. */
    ghost predicate Ready()
      reads this, sessions, sessions.slots, env, pam, pam.attempts
    {
      Settled() && Shaking()
    }

    /** The same apart from the authenticator. */
    ghost predicate Settled()
      reads this, sessions, sessions.slots, env
    {
      && sessions.env == env && sessions.Valid()
      && -1 <= current < sessions.slots.Length
      && env.monitor.busy.None? && !env.monitor.stopping
      && (env.monitor.auth.Some? ==> env.monitor.up)
      && (env.monitor.attempted ==> env.monitor.auth.Some?)
    }

    /** Settled but for one session, which may be authenticated without a working target and is closed next. */
    ghost predicate Rejecting(fd: int)
      reads this, sessions, sessions.slots, env
    {
      && sessions.env == env && sessions.Valid()
      && -1 <= current < sessions.slots.Length
      && env.monitor.busy.None? && !env.monitor.stopping
      && (env.monitor.auth == Some(fd) ==> !env.monitor.attempted)
      && (env.monitor.auth != Some(fd) ==>
        && (env.monitor.auth.Some? ==> env.monitor.up)
        && (env.monitor.attempted ==> env.monitor.auth.Some?))
    }

    constructor (n: nat, cfg: Config)
      ensures Ready() && fresh(env) && fresh(sessions) && fresh(sessions.slots) && fresh(pam) && fresh(pam.attempts)
      ensures this.cfg == cfg && Now() == State(Initial(n), false, [], []) && env.monitor == START
    {
      this.cfg := cfg;
      isConnected, current, dataPending, handshakes := false, -1, false, [];
      var e := new Environment();
      env := e;
      sessions := new Sessions(n, e);
      pam := new Lockout.PamAuthenticator(cfg.maxFailures);
    }

    /** on_client_disconnect. */
    method OnClientDisconnect(deinitOk: bool) returns (ok: bool)
      requires env.Valid() && env.monitor.busy.None?
      modifies this`isConnected, env
      ensures env.Valid() && env.monitor == Apply(old(env.monitor), TargetDeinit(deinitOk))
      ensures Now() == TargetDown(old(Now()), deinitOk) && ok == deinitOk
    {
      isConnected := false;
      env.Emit(TargetDeinit(deinitOk));
      ok := deinitOk;
    }

    /** on_client_connect: a missing bus configuration is not fatal, a failed init is. */
    method OnClientConnect(initOk: bool) returns (ok: bool)
      requires env.Valid() && Enabled(env.monitor, TargetInit(initOk))
      modifies env
      ensures env.Valid() && env.monitor == Apply(old(env.monitor), TargetInit(initOk)) && ok == initOk
      ensures Now() == old(Now()).Log([TargetInit(initOk)])
    {
      env.Emit(TargetInit(initOk));
      ok := initOk;
    }

    /** close_connection. */
    method CloseConnection(deinitOk: bool, closeOk: bool) returns (ok: bool)
      requires Settled()
      modifies this`isConnected, sessions, sessions.slots, env
      ensures Settled() && env.monitor.warned == old(env.monitor.warned)
      ensures Now() == Disconnected(old(Now()), deinitOk)
      ensures ok <==> AuthFd(old(Now()).table).None? || deinitOk
    {
      ok := true;
      var found, conn := sessions.GetAuthenticatedConn(true);
      if found {
        ok := OnClientDisconnect(deinitOk);
        if ok {
          var closed := sessions.Close(conn.sockfd, closeOk);
        }
      }
    }

    /** send_out_msg_on_socket: replies go to the authenticated client or nowhere. */
    method SendOut(sentAll: bool) returns (ok: bool)
      requires sessions.env == env && sessions.Valid()
      requires env.monitor.busy.Some? ==> env.monitor.busy == env.monitor.auth
      modifies env
      ensures sessions.Valid() && env.monitor == old(env.monitor)
      ensures ok <==> AuthFd(sessions.View()).Some? && sentAll
      ensures env.log == match AuthFd(sessions.View())
        case None => old(env.log)
        case Some(fd) => old(env.log) + [Reply(fd)]
    {
      var found, conn := sessions.GetAuthenticatedConn(true);
      ok := false;
      if found {
        env.Emit(Reply(conn.sockfd));
        ok := sentAll;
      }
    }

    /** read_data, called by the target while it processes a message. */
    method ReadData(received: int, pending: bool) returns (size: nat)
      requires env.Valid() && 0 <= current < sessions.slots.Length
      requires env.monitor.busy == Some(sessions.slots[current].conn.sockfd)
      modifies this`dataPending, env
      ensures env.Valid() && env.monitor == old(env.monitor)
      ensures env.log == old(env.log) + [Read(sessions.slots[current].conn.sockfd)]
      ensures size == (if received < 1 then 0 else received) && dataPending == pending
    {
      size := 0;
      if current != -1 {
        env.Emit(Read(sessions.slots[current].conn.sockfd));
        dataPending := pending;
        if received >= 1 {
          size := received;
        }
      }
    }

    /** One read or reply that the target asks for while it processes a message. */
    method Exchanged(c: Callback)
      requires sessions.env == env && sessions.Valid() && 0 <= current < sessions.slots.Length
      requires env.monitor.busy == env.monitor.auth == Some(sessions.slots[current].conn.sockfd)
      modifies this`dataPending, env
      ensures sessions.Valid() && env.monitor == old(env.monitor)
      ensures dataPending == if c.ReadCall? then c.pending else old(dataPending)
      ensures var fd := sessions.slots[current].conn.sockfd;
        env.log == old(env.log) + [if c.ReadCall? then Read(fd) else Reply(fd)]
    {
      match c
      case ReadCall(received, pending) => var size := ReadData(received, pending);
      case SendCall(sentAll) => var sent := SendOut(sentAll);
    }

    /** The target's processing of one message, with the reads and replies it asks for. */
    method ProcessMsg(m: Message) returns (ok: bool)
      requires Settled() && 0 <= current && AuthFd(sessions.View()) == Some(sessions.slots[current].conn.sockfd)
      modifies this`dataPending, env
      ensures Settled() && env.monitor == old(env.monitor) && ok == m.processOk
      ensures env.log == old(env.log) + Exchange(sessions.slots[current].conn.sockfd, m.callbacks)
      ensures dataPending == PendingAfter(old(dataPending), m.callbacks, |m.callbacks|)
    {
      var fd := sessions.slots[current].conn.sockfd;
      ghost var before, log := env.monitor, env.log;
      env.Emit(ProcessBegin(fd));
      for i := 0 to |m.callbacks|
        invariant sessions.Valid() && env.monitor == before.(busy := Some(fd))
        invariant env.log == log + [ProcessBegin(fd)] + Traffic(fd, m.callbacks, i)
        invariant dataPending == PendingAfter(old(dataPending), m.callbacks, i)
      {
        Exchanged(m.callbacks[i]);
      }
      env.Emit(ProcessEnd(fd));
      ok := m.processOk;
    }

    /** PAM's handshake, recorded. */
    method ShakePam(h: Lockout.Handshake) returns (ok: bool)
      requires Shaking() && sessions.Valid()
      modifies this`handshakes, pam, pam.attempts
      ensures Shaking() && handshakes == old(handshakes) + [h]
      ensures ok == Lockout.Accepts(Lockout.After(cfg.maxFailures, old(handshakes)), h)
    {
      Lockout.AfterSnoc(cfg.maxFailures, handshakes, h);
      var response;
      ok, response := pam.ClientHandshake(h, sessions);
      handshakes := handshakes + [h];
    }

    /** auth_client_handshake: no authentication, or PAM's handshake. */
    method ShakeHands(m: Message) returns (ok: bool)
      requires Ready()
      modifies this`handshakes, pam, pam.attempts
      ensures Ready()
      ensures Now() == Shaken(cfg, old(Now()), m) && ok == HandshakeOk(cfg, old(Now()), m)
    {
      ok := true;
      if !cfg.noAuth {
        ok := ShakePam(m.handshake);
      }
    }

    /** on_client_connect and, when it fails, on_client_disconnect. */
    method Connect(m: Message) returns (ok: bool)
      requires env.Valid() && Enabled(env.monitor, TargetInit(m.initOk)) && env.monitor.busy.None?
      modifies this`isConnected, env
      ensures env.Valid() && ok == m.initOk && Now() == TargetUp(old(Now()), m)
      ensures var was := old(env.monitor);
        env.monitor == was.(attempted := ok, up := ok || (was.up && !m.deinitOk))
    {
      ok := OnClientConnect(m.initOk);
      if !ok {
        var done := OnClientDisconnect(m.deinitOk);
      }
    }

    /** session_auth_complete, and the target's initialisation when it succeeds. */
    method Join(fd: int, m: Message) returns (ok: bool)
      requires Settled() && 0 <= current && fd in Fds(sessions.View()) && AuthFd(sessions.View()) != Some(fd)
      modifies this`isConnected, sessions, sessions.slots, env
      ensures env.monitor.warned == old(env.monitor.warned)
      ensures sessions.slots[current].conn == old(sessions.slots[current].conn)
      ensures Now() == if AuthFd(old(sessions.View())).None? then Joined(old(Now()), fd, m) else old(Now())
      ensures ok == (old(AuthFd(sessions.View())).None? && m.initOk)
      ensures if ok then Settled() && AuthFd(sessions.View()) == Some(fd) else Rejecting(fd)
    {
      ok := sessions.AuthComplete(fd);
      if ok {
        ok := Connect(m);
      }
    }

    /** The handshake of an unauthenticated connection, and what follows when it succeeds. */
    method Authenticate(fd: int, m: Message) returns (ok: bool)
      requires Ready() && 0 <= current && fd in Fds(sessions.View()) && AuthFd(sessions.View()) != Some(fd)
      modifies this`isConnected, this`handshakes, sessions, sessions.slots, env, pam, pam.attempts
      ensures Shaking() && env.monitor.warned == old(env.monitor.warned)
      ensures sessions.slots[current].conn == old(sessions.slots[current].conn)
      ensures ok == Admitted(cfg, old(Now()), fd, m) && Now() == Joining(cfg, old(Now()), fd, m)
      ensures if ok then Settled() && AuthFd(sessions.View()) == Some(fd) else Rejecting(fd)
    {
      ok := ShakeHands(m);
      if ok {
        ok := Join(fd, m);
      }
    }

    /** ensure_client_authenticated for the connection that p_extconn points to. */
    method EnsureClientAuthenticated(m: Message) returns (ok: bool)
      requires Ready() && 0 <= current && sessions.slots[current].Open()
      modifies this`isConnected, this`handshakes, sessions, sessions.slots, env, pam, pam.attempts
      ensures Ready() && env.monitor.warned == old(env.monitor.warned)
      ensures var fd := old(sessions.slots[current].conn.sockfd);
        && ok == Admitted(cfg, old(Now()), fd, m) && Now() == Ensured(cfg, old(Now()), fd, m)
        && (ok ==> sessions.slots[current].conn.sockfd == fd && AuthFd(sessions.View()) == Some(fd))
    {
      var fd := sessions.slots[current].conn.sockfd;
      ok := sessions.AlreadyAuthenticated(fd);
      if !ok {
        ok := Authenticate(fd, m);
        if !ok {
          Reject(m);
        }
      }
    }

    /** The client that p_extconn points to is closed after a failed handshake or a failed init. */
    method Reject(m: Message)
      requires 0 <= current < sessions.slots.Length && Rejecting(sessions.slots[current].conn.sockfd)
      modifies sessions, sessions.slots, env
      ensures Settled() && env.monitor.warned == old(env.monitor.warned)
      ensures Now() == Closing(old(Now()), old(sessions.slots[current].conn.sockfd))
    {
      var closed := sessions.Close(sessions.slots[current].conn.sockfd, m.closeOk);
    }

    /** The authenticated client that p_extconn points to is disconnected after a failed message. */
    method Drop(m: Message)
      requires Settled() && 0 <= current && AuthFd(sessions.View()) == Some(sessions.slots[current].conn.sockfd)
      modifies this`isConnected, sessions, sessions.slots, env
      ensures Settled() && env.monitor.warned == old(env.monitor.warned)
      ensures Now() == Closing(TargetDown(old(Now()), m.deinitOk), old(sessions.slots[current].conn.sockfd))
    {
      var done := OnClientDisconnect(m.deinitOk);
      var closed := sessions.Close(sessions.slots[current].conn.sockfd, m.closeOk);
    }

    /** A message of the authenticated client that p_extconn points to. */
    method ProcessAdmitted(m: Message) returns (ok: bool)
      requires Settled() && 0 <= current && AuthFd(sessions.View()) == Some(sessions.slots[current].conn.sockfd)
      modifies this`isConnected, this`dataPending, sessions, sessions.slots, env
      ensures Settled() && env.monitor.warned == old(env.monitor.warned) && ok == m.processOk
      ensures Now() == Processed(old(Now()), old(sessions.slots[current].conn.sockfd), old(dataPending), m)
    {
      ok := ProcessMsg(m);
      if !ok {
        Drop(m);
      } else {
        ok := sessions.SetDataPending(sessions.slots[current].conn.sockfd, dataPending);
      }
    }

    /** The part of process_client_message for a connection that has data. */
    method Serve(m: Message) returns (ok: bool)
      requires Ready() && 0 <= current && sessions.slots[current].Open()
      modifies this`isConnected, this`handshakes, this`dataPending, sessions, sessions.slots, env, pam, pam.attempts
      ensures Ready() && env.monitor.warned == old(env.monitor.warned)
      ensures var fd := old(sessions.slots[current].conn.sockfd);
        && ok == (Admitted(cfg, old(Now()), fd, m) && m.processOk)
        && Now() == ServedOpen(cfg, old(Now()), fd, old(dataPending), m)
    {
      ok := EnsureClientAuthenticated(m);
      if ok {
        ok := ProcessAdmitted(m);
      }
    }

    /** process_client_message. */
    method ProcessClientMessage(fd: int, pollin: bool, m: Message) returns (ok: bool)
      requires Ready()
      modifies this, sessions, sessions.slots, env, pam, pam.attempts
      ensures Ready() && env.monitor.warned == old(env.monitor.warned)
      ensures if pollin || PendingOf(old(Now()).table, fd) then
          ok == Succeeds(cfg, old(Now()), fd, m) && Now() == Served(cfg, old(Now()), fd, m)
        else
          ok == (fd in old(Fds(sessions.View()))) && Now() == old(Now())
    {
      dataPending := false;
      current := sessions.LookupConn(fd);
      ok := current != -1;
      if ok {
        ok, dataPending := sessions.GetDataPending(sessions.slots[current].conn.sockfd);
      }
      if ok && (dataPending || pollin) {
        ok := Serve(m);
      }
    }

    /** process_all_client_messages: a client whose message fails does not keep the others waiting. */
    method ProcessAllClientMessages(polled: seq<PollFd>, clock: nat -> int, messages: nat -> Message)
      returns (ok: bool)
      requires Ready()
      modifies this, sessions, sessions.slots, env, pam, pam.attempts
      ensures Ready() && env.monitor.warned == old(env.monitor.warned)
      ensures Now() == ServedAll(cfg, Expiring(old(Now()), clock), polled, messages, |polled|)
      ensures ok <==> AllSucceed(cfg, Expiring(old(Now()), clock), polled, messages, |polled|)
    {
      ok := true;
      sessions.CloseExpiredUnauth(clock);
      ghost var swept := Now();
      for i := 0 to |polled|
        invariant Ready() && env.monitor.warned == old(env.monitor.warned)
        invariant Now() == ServedAll(cfg, swept, polled, messages, i)
        invariant ok <==> AllSucceed(cfg, swept, polled, messages, i)
      {
        if polled[i].pollin {
          var clientOk := ProcessClientMessage(polled[i].fd, polled[i].pollin, messages(i));
          if !clientOk {
            ok := false;
          }
        }
      }
    }

    /** The part of process_new_client that accepts a connection and gives it a session. */
    method Admit(o: AcceptOutcome, now: int) returns (ok: bool, conn: Conn)
      requires Settled()
      modifies this`isConnected, sessions, sessions.slots, env
      ensures Settled() && env.monitor.warned == old(env.monitor.warned)
      ensures Now() == Admitting(cfg, old(Now()), o, now)
      ensures Newcomer(cfg, old(Now()).table, o) == if ok then Some(conn) else None
    {
      ok, conn := Accept(o);
      if ok {
        ok := Seat(conn, now);
      }
    }

    /** extnet_accept_connection on behalf of the daemon: on success it owns a record besides those in the table. */
    method Accept(o: AcceptOutcome) returns (ok: bool, conn: Conn)
      requires Settled()
      modifies env
      ensures env.Valid() && env.monitor.warned == old(env.monitor.warned)
      ensures var a := Answer(Fds(old(Now()).table), Handles(old(Now()).table), o);
        && ok == Accepts(cfg.tls, a) && (ok ==> conn == Granted(cfg.tls, a))
        && env.log == old(env.log) + AcceptEvents(cfg.tls, a)
      ensures if ok then Seating(conn) else Settled()
    {
      conn, ok := AcceptConnection(env, cfg.tls, Answer(env.monitor.open, env.monitor.handles, o));
    }

    /** Settled but for an accepted record that has no session yet. */
    ghost predicate Seating(conn: Conn)
      reads this, sessions, sessions.slots, env
    {
      && sessions.env == env && sessions.Holding(conn)
      && -1 <= current < sessions.slots.Length
      && env.monitor.busy.None? && !env.monitor.stopping
      && (env.monitor.auth.Some? ==> env.monitor.up)
      && (env.monitor.attempted ==> env.monitor.auth.Some?)
    }

    /** session_open for a new connection, which is given up when there is no free slot. */
    method Seat(conn: Conn, now: int) returns (ok: bool)
      requires Seating(conn)
      modifies this`isConnected, sessions, sessions.slots, env
      ensures Settled() && env.monitor.warned == old(env.monitor.warned)
      ensures ok == (Find(old(sessions.slots[..]), UNUSED_SOCKET_FD) != -1)
      ensures Now() == if ok then
          old(Now()).(table := Step(old(Now()).table, OpenOp(conn, now)), connected := true)
        else old(Now()).Log(CloseEvents(conn))
    {
      ok := sessions.Open(conn, now);
      if !ok {
        var after, closed := CloseClient(env, conn, true);
      } else {
        isConnected := true;
      }
    }

    /**
     process_new_client. In no-auth mode the new descriptor is appended to the
     polled clients; as session_open found a free slot, there is always room.
     */
    method ProcessNewClient(o: AcceptOutcome, now: int, pollFds: array<PollFd>, numClients: nat, clientIndex: nat)
      returns (ok: bool, clients: nat)
      requires Settled() && Apart(pollFds)
      requires pollFds.Length == MaxFds(sessions.slots.Length)
      requires GPIO_FD_INDEX <= clientIndex <= GPIO_FD_INDEX + NUM_GPIOS + NUM_DBUS_FDS
      requires numClients == |OpenFds(sessions.slots[..], sessions.slots.Length)|
      modifies this`isConnected, sessions, sessions.slots, env, pollFds
      ensures Settled() && env.monitor.warned == old(env.monitor.warned)
      ensures Now() == Admitting(cfg, old(Now()), o, now)
      ensures ok == Newcomer(cfg, old(Now()).table, o).Some?
      ensures clientIndex + clients <= pollFds.Length
      ensures pollFds[clientIndex..clientIndex + clients] == old(pollFds[clientIndex..clientIndex + numClients]) +
        if ok && cfg.noAuth then [PollFd(Newcomer(cfg, old(Now()).table, o).value.sockfd, true)] else []
    {
      RoomForNewcomer(cfg, sessions.View(), o);
      var conn: Conn;
      ok, conn := Admit(o, now);
      clients := numClients;
      if ok && cfg.noAuth {
        clients := StuffClient(pollFds, clientIndex, numClients, conn.sockfd);
        isConnected := true;
      }
    }

    /** If there is room, a descriptor is put behind the polled clients as if poll had marked it. */
    method StuffClient(pollFds: array<PollFd>, clientIndex: nat, numClients: nat, fd: int) returns (clients: nat)
      requires clientIndex + numClients <= pollFds.Length
      modifies pollFds
      ensures clients == numClients + if clientIndex + numClients < pollFds.Length then 1 else 0
      ensures clientIndex + clients <= pollFds.Length
      ensures pollFds[clientIndex..clientIndex + clients] ==
        old(pollFds[clientIndex..clientIndex + numClients]) + if clients > numClients then [PollFd(fd, true)] else []
    {
      clients := numClients;
      if clientIndex + clients < pollFds.Length {
        pollFds[clientIndex + clients] := PollFd(fd, true);
        clients := clients + 1;
      }
    }

    /** The poll array is an object of its own. */
    ghost predicate Apart(pollFds: array<PollFd>) {
      pollFds as object != sessions.slots as object && pollFds as object != pam.attempts as object
    }

    /** check_idle_timeout: first the warning, later the timeout. */
    method CheckIdleTimeout(last: TimeVal, now: TimeVal, warned: bool) returns (timedOut: bool, warnedNow: bool)
      requires env.Valid() && env.monitor.warned == warned
      modifies env
      ensures env.Valid() && env.monitor == old(env.monitor).(warned := warnedNow)
      ensures timedOut <==> ElapsedMs(last, now) > cfg.idleTimeout
      ensures last.Valid() && now.Valid() ==> (timedOut <==>
        ElapsedUs(last, now) > 1000 * cfg.idleTimeout &&
        (now.usec < last.usec || ElapsedUs(last, now) >= 1000 * (cfg.idleTimeout + 1)))
      ensures warnedNow <==> warned || ElapsedMs(last, now) > WarningTime(cfg.idleTimeout)
      ensures var log := if warnedNow && !warned then old(env.log) + [IdleWarning] else old(env.log);
        env.log == if timedOut then log + [IdleTimeout] else log
    {
      var elapsed := ElapsedMs(last, now);
      warnedNow := warned;
      if !warned && elapsed > WarningTime(cfg.idleTimeout) {
        env.Emit(IdleWarning);
        warnedNow := true;
      }
      timedOut := elapsed > cfg.idleTimeout;
      if timedOut {
        WarningBeforeTimeout(cfg.idleTimeout);
        env.Emit(IdleTimeout);
      }
      if last.Valid() && now.Valid() {
        ExceededExactly(last, now, cfg.idleTimeout);
      }
    }

    /** The descriptors are put into the array one after another. */
    method PutFds(pollFds: array<PollFd>, from: nat, fds: seq<int>)
      requires from + |fds| <= pollFds.Length
      modifies pollFds
      ensures forall i :: 0 <= i < |fds| ==> pollFds[from + i].fd == fds[i]
      ensures forall i :: 0 <= i < from ==> pollFds[i] == old(pollFds[i])
    {
      for i := 0 to |fds|
        invariant forall k :: 0 <= k < i ==> pollFds[from + k].fd == fds[k]
        invariant forall k :: 0 <= k < from ==> pollFds[k] == old(pollFds[k])
      {
        pollFds[from + i] := PollFd(fds[i], false);
      }
    }

    /** The part of request_processing_loop that fills the poll array: the pins, then the clients. */
    method FillPollFds(pollFds: array<PollFd>, pins: Option<seq<int>>, clock: nat -> int)
      returns (numGpios: nat, numClients: nat)
      requires Settled() && Apart(pollFds)
      requires pollFds.Length == MaxFds(sessions.slots.Length)
      requires pins.Some? ==> |pins.value| <= NUM_GPIOS + NUM_DBUS_FDS
      modifies pollFds
      ensures Settled() && pollFds[HOST_FD_INDEX] == old(pollFds[HOST_FD_INDEX])
      ensures numGpios == if pins.Some? then |pins.value| else 0
      ensures numClients == |OpenFds(sessions.slots[..], sessions.slots.Length)|
      ensures GPIO_FD_INDEX + numGpios + numClients < pollFds.Length
      ensures forall i :: 0 <= i < numGpios ==> pollFds[GPIO_FD_INDEX + i].fd == pins.value[i]
      ensures forall i :: 0 <= i < numClients ==>
        pollFds[GPIO_FD_INDEX + numGpios + i].fd == OpenFds(sessions.slots[..], sessions.slots.Length)[i]
    {
      numGpios := 0;
      if pins.Some? {
        numGpios := |pins.value|;
        PutFds(pollFds, GPIO_FD_INDEX, pins.value);
      }
      var fds, limit := sessions.GetFds(-1, clock);
      numClients := |fds|;
      PutFds(pollFds, GPIO_FD_INDEX + numGpios, fds);
    }

    /** poll: the kernel marks the entries that have data. */
    method Poll(pollFds: array<PollFd>, n: nat, ready: set<nat>)
      requires n <= pollFds.Length
      modifies pollFds
      ensures forall i :: 0 <= i < pollFds.Length ==>
        pollFds[i] == if i < n then PollFd(old(pollFds[i].fd), i in ready) else old(pollFds[i])
    {
      for i := 0 to n
        invariant forall k :: 0 <= k < pollFds.Length ==>
          pollFds[k] == if k < i then PollFd(old(pollFds[k].fd), k in ready) else old(pollFds[k])
      {
        pollFds[i] := PollFd(pollFds[i].fd, i in ready);
      }
    }

    /** poll on the filled array. */
    method PollClients(it: Iteration, pollFds: array<PollFd>, numClients: nat)
      requires Settled() && Apart(pollFds) && ClientIndex(it) + numClients <= pollFds.Length
      requires numClients == |OpenFds(sessions.slots[..], sessions.slots.Length)|
      requires forall i :: 0 <= i < numClients ==>
        pollFds[ClientIndex(it) + i].fd == OpenFds(sessions.slots[..], sessions.slots.Length)[i]
      modifies pollFds
      ensures Settled() && sessions.slots[..] == old(sessions.slots[..])
      ensures pollFds[HOST_FD_INDEX].pollin == (HOST_FD_INDEX in it.ready)
      ensures pollFds[ClientIndex(it)..ClientIndex(it) + numClients] ==
        Polled(OpenFds(sessions.slots[..], sessions.slots.Length), ClientIndex(it), it.ready)
    {
      Poll(pollFds, ClientIndex(it) + numClients, it.ready);
    }

    /** process_new_client after poll; the result is the part of the poll array that holds the clients. */
    method NewClients(it: Iteration, pollFds: array<PollFd>, numClients: nat) returns (polled: seq<PollFd>)
      requires Settled() && Apart(pollFds) && PinsFit(it)
      requires pollFds.Length == MaxFds(sessions.slots.Length)
      requires numClients == |OpenFds(sessions.slots[..], sessions.slots.Length)|
      requires pollFds[HOST_FD_INDEX].pollin == (HOST_FD_INDEX in it.ready)
      requires pollFds[ClientIndex(it)..ClientIndex(it) + numClients] ==
        Polled(OpenFds(sessions.slots[..], sessions.slots.Length), ClientIndex(it), it.ready)
      modifies this`isConnected, sessions, sessions.slots, env, pollFds
      ensures Settled() && env.monitor.warned == old(env.monitor.warned)
      ensures Now() == Arrived(cfg, old(Now()), it) && polled == Attended(cfg, old(Now()).table, it)
    {
      polled := pollFds[ClientIndex(it)..ClientIndex(it) + numClients];
      AttendedIs(cfg, sessions.View(), it, polled);
      if pollFds[HOST_FD_INDEX].pollin {
        var ok, clients := ProcessNewClient(it.accept, it.openTime, pollFds, numClients, ClientIndex(it));
        polled := pollFds[ClientIndex(it)..ClientIndex(it) + clients];
      }
    }

    /** The poll array is filled and polled, and what poll reports is served. */
    method PollNetwork(it: Iteration, pollFds: array<PollFd>) returns (numGpios: nat)
      requires Ready() && PinsFit(it) && Apart(pollFds)
      requires pollFds.Length == MaxFds(sessions.slots.Length)
      modifies this, sessions, sessions.slots, env, pam, pam.attempts, pollFds
      ensures Ready() && env.monitor.warned == old(env.monitor.warned) && numGpios == NumGpios(it)
      ensures Now() == if it.pollResult > 0 then Networked(cfg, old(Now()), it) else old(Now())
    {
      var numClients: nat;
      numGpios, numClients := FillPollFds(pollFds, it.pins, it.clock);
      if it.pollResult > 0 {
        PollClients(it, pollFds, numClients);
        var polled := NewClients(it, pollFds, numClients);
        var done := ProcessAllClientMessages(polled, it.sweepClock, it.messages);
      }
    }

    /** The pin events of one round: the target may send, and a failure disconnects the client. */
    method PinEvents(it: Iteration) returns (ok: bool)
      requires Settled() && NumGpios(it) > 0
      modifies this`isConnected, sessions, sessions.slots, env
      ensures Settled() && env.monitor.warned == old(env.monitor.warned) && ok == it.pinsOk
      ensures Now() == Pinned(old(Now()), it)
    {
      for i := 0 to |it.pinReplies|
        invariant Settled() && env.monitor == old(env.monitor)
        invariant Now() == Replied(old(Now()), i)
      {
        var sent := SendOut(it.pinReplies[i]);
      }
      ok := it.pinsOk;
      if !ok {
        var done := CloseConnection(it.pinDeinitOk, true);
      }
    }

    /** The idle timer at the start of a round: a timeout disconnects the client and restarts the timer. */
    method IdleCheck(it: Iteration, last: TimeVal, warned: bool)
      returns (timedOut: bool, lastNow: TimeVal, warnedNow: bool)
      requires Settled() && env.monitor.warned == warned
      modifies this`isConnected, sessions, sessions.slots, env
      ensures Settled() && env.monitor.warned == warnedNow
      ensures timedOut == TimesOut(cfg, Timed(old(Now()), last, warned), it)
      ensures Timed(Now(), lastNow, warnedNow) == IdleChecked(cfg, Timed(old(Now()), last, warned), it)
    {
      timedOut, lastNow, warnedNow := false, last, warned;
      if isConnected && cfg.idleEnabled {
        ghost var d := Timed(Now(), last, warned);
        timedOut, warnedNow := CheckIdleTimeout(last, it.now, warned);
        ghost var w := IdleWarned(cfg, d, it);
        assert timedOut == TimesOut(cfg, d, it) && warnedNow == w.warned;
        assert Now() == if timedOut then w.state.Log([IdleTimeout]) else w.state;
        if timedOut {
          var done := CloseConnection(it.idleDeinitOk, true);
          env.Emit(Activity);
          lastNow, warnedNow := it.restart, false;
        }
      }
    }

    /** The network part of a round, and the restart of the idle timer while someone is connected. */
    method PollRound(it: Iteration, pollFds: array<PollFd>, last: TimeVal, warned: bool)
      returns (ok: bool, numGpios: nat, lastNow: TimeVal, warnedNow: bool)
      requires Ready() && env.monitor.warned == warned && PinsFit(it) && Apart(pollFds)
      requires pollFds.Length == MaxFds(sessions.slots.Length)
      modifies this, sessions, sessions.slots, env, pam, pam.attempts, pollFds
      ensures Ready() && env.monitor.warned == warnedNow
      ensures ok == (it.pollResult != -1) && numGpios == NumGpios(it)
      ensures Timed(Now(), lastNow, warnedNow) == Attentive(cfg, Timed(old(Now()), last, warned), it)
    {
      lastNow, warnedNow := last, warned;
      numGpios := PollNetwork(it, pollFds);
      ok := it.pollResult != -1;
      if it.pollResult > 0 && isConnected {
        env.Emit(Activity);
        lastNow, warnedNow := it.activity, false;
      }
    }

    /** One round of request_processing_loop; it asks to stop only when poll fails. */
    method RunRound(it: Iteration, pollFds: array<PollFd>, last: TimeVal, warned: bool)
      returns (ok: bool, lastNow: TimeVal, warnedNow: bool)
      requires Ready() && env.monitor.warned == warned && PinsFit(it) && Apart(pollFds)
      requires pollFds.Length == MaxFds(sessions.slots.Length)
      modifies this, sessions, sessions.slots, env, pam, pam.attempts, pollFds
      ensures Ready() && env.monitor.warned == warnedNow
      ensures ok == !Stops(cfg, Timed(old(Now()), last, warned), it)
      ensures Timed(Now(), lastNow, warnedNow) == Round(cfg, Timed(old(Now()), last, warned), it)
    {
      var timedOut: bool;
      timedOut, lastNow, warnedNow := IdleCheck(it, last, warned);
      ok := true;
      if !timedOut {
        var numGpios: nat;
        ok, numGpios, lastNow, warnedNow := PollRound(it, pollFds, lastNow, warnedNow);
        if ok && numGpios > 0 {
          var pinsOk := PinEvents(it);
        }
      }
    }

    /** request_processing_loop for as many rounds as the script has, or until poll fails. */
    method RequestLoop(script: seq<Iteration>, start: TimeVal) returns (ok: bool)
      requires Ready() && !env.monitor.warned
      requires forall i :: 0 <= i < |script| ==> PinsFit(script[i])
      modifies this, sessions, sessions.slots, env, pam, pam.attempts
      ensures Ready()
      ensures var (after, stopped) := Rounds(cfg, Timed(old(Now()), start, false), script);
        Now() == after.state && ok == !stopped
    {
      var pollFds := new PollFd[MaxFds(sessions.slots.Length)](_ => PollFd(0, false));
      var last, warned := start, false;
      ghost var first := Timed(Now(), start, false);
      ok := true;
      var i := 0;
      while i < |script| && ok
        invariant i <= |script| && Ready() && env.monitor.warned == warned
        invariant (Timed(Now(), last, warned), !ok) == Rounds(cfg, first, script[..i])
      {
        assert script[..i + 1][..i] == script[..i];
        ok, last, warned := RunRound(script[i], pollFds, last, warned);
        i := i + 1;
      }
      StoppedForGood(cfg, first, script, i);
    }

    /** deinit_asd_state. */
    method Deinit(deinitOk: bool)
      requires Settled()
      modifies sessions, sessions.slots, env
      ensures env.Valid() && env.monitor.open == {} && env.monitor.handles == {}
      ensures Now() == Deinited(old(Now()), deinitOk)
      ensures deinitOk ==> !env.monitor.up
    {
      env.Emit(Shutdown);
      sessions.CloseAll();
      env.Emit(TargetDeinit(deinitOk));
    }
  }

  /** The clients attended to are those polled, and without authentication the newcomer. */
  lemma AttendedIs(cfg: Config, t: Table, it: Iteration, known: seq<PollFd>)
    requires known == Polled(OpenFds(t.slots, |t.slots|), ClientIndex(it), it.ready)
    ensures HOST_FD_INDEX !in it.ready ==> Attended(cfg, t, it) == known
    ensures HOST_FD_INDEX in it.ready ==>
      Attended(cfg, t, it) == known +
        if cfg.noAuth && Newcomer(cfg, t, it.accept).Some? then
          [PollFd(Newcomer(cfg, t, it.accept).value.sockfd, true)]
        else []
  {
  }

  /** A client that gets a session also gets a place in the poll array. */
  lemma RoomForNewcomer(cfg: Config, t: Table, o: AcceptOutcome)
    ensures Newcomer(cfg, t, o).Some? ==> |OpenFds(t.slots, |t.slots|)| < |t.slots|
  {
    OpenFdsFull(t.slots, |t.slots|);
  }

  /** Once the loop has stopped, the rest of the script plays no part. */
  lemma {:induction false} StoppedForGood(cfg: Config, d: Timed, script: seq<Iteration>, i: nat)
    requires i <= |script| && (i < |script| ==> Rounds(cfg, d, script[..i]).1)
    ensures Rounds(cfg, d, script) == Rounds(cfg, d, script[..i])
    decreases |script|
  {
    if i < |script| {
      var init := script[..|script| - 1];
      assert init[..i] == script[..i];
      StoppedForGood(cfg, d, init, i);
    } else {
      assert script[..i] == script;
    }
  }

  /**
   The daemon from start to shutdown. Its log is the one that Behaviour
   determines from the script. Whatever the sockets, the clients and the target
   answer, every event of it is as promised, and in the end every accepted
   descriptor has been closed and every TLS handle freed, once each time it was
   handed out.
   */
  method RunDaemon(n: nat, cfg: Config, start: TimeVal, script: seq<Iteration>, deinitOk: bool)
    returns (log: seq<Event>)
    requires forall i :: 0 <= i < |script| ==> PinsFit(script[i])
    ensures log == WholeLog(cfg, n, start, script, deinitOk)
    ensures Safe(log)
    ensures InOrder(log) && Replay(log).value.open == {} && Replay(log).value.handles == {}
    ensures forall fd :: Count(log, Accepted(fd)) == Count(log, Closed(fd))
    ensures forall h :: Count(log, HandleNew(h)) == Count(log, HandleFreed(h))
  {
    var server := new Server(n, cfg);
    var ok := server.RequestLoop(script, start);
    server.Deinit(deinitOk);
    log := server.env.log;
    InOrderIsSafe(log);
    forall fd
      ensures Count(log, Accepted(fd)) == Count(log, Closed(fd))
    {
      Conserved(log, fd);
    }
    forall h
      ensures Count(log, HandleNew(h)) == Count(log, HandleFreed(h))
    {
      HandlesConserved(log, h);
    }
  }
}
