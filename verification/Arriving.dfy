/**
 How clients get in: who is given a session, which one, for how long, and that
 the first client of a run gets one.
 */
module Arriving {
  import opened Basics
  import opened SessionTable
  import opened SessionTimeouts
  import opened Protocol
  import opened Network
  import opened Session
  import opened IdleTimer
  import opened Behaviour
  import opened Runs
  import opened Serving

  /** The network brings the connection about: plain TCP needs the descriptor only, TLS every step. */
  predicate Connects(cfg: Config, o: AcceptOutcome) {
    o.fd >= 0 && (cfg.tls ==> o.handle != 0 && o.setFdOk && o.timeoutOk && o.negotiated)
  }

  /** The first slot that is not open. */
  predicate FirstFree(t: Table, k: int) {
    0 <= k < |t.slots| && !t.slots[k].Open() && forall j :: 0 <= j < k ==> t.slots[j].Open()
  }

  /**
   A client gets a session exactly if the network brings the connection about and
   some slot is not open. It gets the first such slot, unauthenticated, with
   nothing pending and a deadline 15 s from now; every other slot is as it was.
   */
  lemma AdmittedExactly(cfg: Config, s: State, o: AcceptOutcome, now: int)
    requires Inv(s.table) && Fresh(Fds(s.table), Handles(s.table), o)
    ensures var t, u := s.table, Admitting(cfg, s, o, now).table;
      && |u.slots| == |t.slots|
      && (o.fd in Fds(u) <==> Connects(cfg, o) && exists k :: 0 <= k < |t.slots| && !t.slots[k].Open())
      && (o.fd !in Fds(u) ==> u == t)
      && (o.fd in Fds(u) ==> forall k :: FirstFree(t, k) ==>
           u.slots == t.slots[k := Slot(k, Conn(o.fd, if cfg.tls then o.handle else 0), now + 15, false, false)])
      && (Admitting(cfg, s, o, now).connected <==> s.connected || o.fd in Fds(u))
  {
    var t, i := s.table, Find(s.table.slots, UNUSED_SOCKET_FD);
    if Newcomer(cfg, t, o).Some? {
      OpenedInv(t, i, Newcomer(cfg, t, o).value, now);
      forall k | FirstFree(t, k)
        ensures k == i
      {
        assert t.slots[k].conn == CLOSED;
      }
    } else if exists k :: 0 <= k < |t.slots| && !t.slots[k].Open() {
      var k :| 0 <= k < |t.slots| && !t.slots[k].Open();
      assert t.slots[k].conn.sockfd == UNUSED_SOCKET_FD;
    }
  }

  /** What an accept makes visible: resources are announced as they come and given up in reverse. */
  lemma AcceptedEvents(cfg: Config, s: State, o: AcceptOutcome, now: int)
    requires Inv(s.table) && Fresh(Fds(s.table), Handles(s.table), o)
    ensures var added := if o.fd < 0 then []
        else if !cfg.tls || o.handle == 0 then
          (if o.fd in Fds(Admitting(cfg, s, o, now).table) then [Accepted(o.fd)] else [Accepted(o.fd), Closed(o.fd)])
        else if o.fd in Fds(Admitting(cfg, s, o, now).table) then [Accepted(o.fd), HandleNew(o.handle)]
        else [Accepted(o.fd), HandleNew(o.handle), HandleFreed(o.handle), Closed(o.fd)];
      Admitting(cfg, s, o, now).log == s.log + added
  {
    AdmittedExactly(cfg, s, o, now);
    if Newcomer(cfg, s.table, o).None? && Accepts(cfg.tls, o) {
      Append(s.log, AcceptEvents(cfg.tls, o), CloseEvents(Granted(cfg.tls, o)));
    }
  }

  /** What accept hands out while it is in use cannot happen, and counts as a failed accept. */
  lemma StaleIsRefused(cfg: Config, s: State, o: AcceptOutcome, now: int)
    requires !Fresh(Fds(s.table), Handles(s.table), o)
    ensures Admitting(cfg, s, o, now) == s.Log([])
  {
  }

  // ---- In a round ----

  lemma SweptFds(t: Table, clock: nat -> int, k: nat)
    requires Inv(t) && k < |t.slots| && t.slots[k].Open()
    ensures t.slots[k].conn.sockfd in Fds(Step(t, SweepOp(clock))) <==> !Expired(t.slots[k], clock(k))
  {
    SweepEffect(t, clock);
    if Expired(t.slots[k], clock(k)) {
      SweptOut(t, clock, k);
    } else {
      assert Step(t, SweepOp(clock)).slots[k] == t.slots[k];
    }
  }

  /** A client that arrives in a round has its session when messages are looked at, unless 15 s have passed already. */
  lemma ArrivalHasSession(cfg: Config, s: State, it: Iteration, k: nat)
    requires Inv(s.table) && Fresh(Fds(s.table), Handles(s.table), it.accept)
    requires HOST_FD_INDEX in it.ready && Connects(cfg, it.accept) && FirstFree(s.table, k)
    ensures var t := Expiring(Arrived(cfg, s, it), it.sweepClock).table;
      && Inv(t) && |t.slots| == |s.table.slots|
      && (it.accept.fd in Fds(t) <==> it.sweepClock(k) < it.openTime + 15)
      && (it.accept.fd in Fds(t) ==> t.slots[k].conn.sockfd == it.accept.fd)
  {
    var u := Arrived(cfg, s, it).table;
    AdmittedExactly(cfg, s, it.accept, it.openTime);
    AdmitEffect(cfg, s, it.accept, it.openTime);
    assert u.slots[k] ==
      Slot(k, Conn(it.accept.fd, if cfg.tls then it.accept.handle else 0), it.openTime + 15, false, false);
    SweptFds(u, it.sweepClock, k);
    SweepEffect(u, it.sweepClock);
  }

  /**
   A waiting client that stays silent keeps its session through a round exactly
   while the clock of the sweep is before its deadline.
   */
  lemma SilentUntilDeadline(cfg: Config, s: State, it: Iteration, k: nat)
    requires Inv(s.table) && k < |s.table.slots| && s.table.slots[k].Open() && !s.table.slots[k].authenticated
    requires NoEvent(s.table, it, s.table.slots[k].conn.sockfd)
    ensures s.table.slots[k].conn.sockfd in Fds(Networked(cfg, s, it).table) <==>
      it.sweepClock(k) < s.table.slots[k].authTimeout
  {
    if it.sweepClock(k) < s.table.slots[k].authTimeout {
      PendingIsNotServed(cfg, s, it, k);
      assert Networked(cfg, s, it).table.slots[k] == s.table.slots[k];
    } else {
      ExpiredIsGone(cfg, s, it, k);
    }
  }

  /** Without authentication a newcomer need not wait for poll: its message is looked at in the same round. */
  lemma NoAuthServedAtOnce(cfg: Config, s: State, it: Iteration, k: nat)
    requires Inv(s.table) && Fresh(Fds(s.table), Handles(s.table), it.accept)
    requires HOST_FD_INDEX in it.ready && Connects(cfg, it.accept) && FirstFree(s.table, k)
    requires it.sweepClock(k) < it.openTime + 15 && cfg.noAuth && AuthFd(s.table).None?
    requires var known := Known(s.table, it);
      && (forall i :: 0 <= i < |known| ==> !known[i].pollin)
      && it.messages(|known|).initOk && it.messages(|known|).processOk
    ensures AuthFd(Networked(cfg, s, it).table) == Some(it.accept.fd)
  {
    var n, attended := |Known(s.table, it)|, Attended(cfg, s.table, it);
    var swept := Expiring(Arrived(cfg, s, it), it.sweepClock);
    ArrivalHasSession(cfg, s, it, k);
    ArriveEffect(cfg, s, it);
    NewcomerAttended(cfg, s.table, it, k);
    NoneMarked(cfg, swept, attended, it.messages, n);
    LastServed(cfg, swept, attended, it.messages, n);
  }

  /** The sessions that poll looks at. */
  function Known(t: Table, it: Iteration): seq<PollFd> {
    Polled(OpenFds(t.slots, |t.slots|), ClientIndex(it), it.ready)
  }

  lemma NewcomerAttended(cfg: Config, t: Table, it: Iteration, k: nat)
    requires Inv(t) && Fresh(Fds(t), Handles(t), it.accept) && cfg.noAuth
    requires HOST_FD_INDEX in it.ready && Connects(cfg, it.accept) && FirstFree(t, k)
    ensures Attended(cfg, t, it) == Known(t, it) + [PollFd(it.accept.fd, true)]
  {
    assert t.slots[k].conn == CLOSED;
  }

  lemma LastServed(cfg: Config, s: State, polled: seq<PollFd>, messages: nat -> Message, n: nat)
    requires Inv(s.table) && AuthFd(s.table).None? && cfg.noAuth
    requires |polled| == n + 1 && polled[n].pollin && polled[n].fd in Fds(s.table)
    requires messages(n).initOk && messages(n).processOk && ServedAll(cfg, s, polled, messages, n) == s
    ensures AuthFd(ServedAll(cfg, s, polled, messages, n + 1).table) == Some(polled[n].fd)
  {
    ServeEffect(cfg, s, polled[n].fd, messages(n));
  }

  lemma {:induction false} NoneMarked(cfg: Config, s: State, polled: seq<PollFd>, messages: nat -> Message, n: nat)
    requires n <= |polled| && forall i :: 0 <= i < n ==> !polled[i].pollin
    ensures ServedAll(cfg, s, polled, messages, n) == s
  {
    if n > 0 {
      NoneMarked(cfg, s, polled, messages, n - 1);
    }
  }

  // ---- In a run ----

  /** The round accepts nobody: the host descriptor is not ready, or no connection comes about. */
  predicate AcceptsNobody(cfg: Config, it: Iteration) {
    it.pollResult <= 0 || HOST_FD_INDEX !in it.ready || !Connects(cfg, it.accept)
  }

  /** A daemon without clients. */
  predicate Idle(d: Timed, n: nat) {
    Inv(d.state.table) && |d.state.table.slots| == n && Fds(d.state.table) == {} && !d.state.connected
  }

  lemma NobodyComes(cfg: Config, d: Timed, it: Iteration, n: nat)
    requires Idle(d, n) && AcceptsNobody(cfg, it)
    ensures Idle(Round(cfg, d, it), n) && !TimesOut(cfg, d, it)
  {
    assert IdleChecked(cfg, d, it) == d;
    AuthIsOpen(d.state.table);
    if it.pollResult > 0 {
      NobodyInNetwork(cfg, d.state, it);
    }
    var served := Attentive(cfg, d, it).state;
    AuthIsOpen(served.table);
    ReplyEffect(served, |it.pinReplies|);
  }

  lemma NobodyInNetwork(cfg: Config, s: State, it: Iteration)
    requires Inv(s.table) && Fds(s.table) == {} && !s.connected && it.pollResult > 0 && AcceptsNobody(cfg, it)
    ensures var u := Networked(cfg, s, it);
      Inv(u.table) && Fds(u.table) == {} && !u.connected && |u.table.slots| == |s.table.slots|
  {
    var arrived, attended := Arrived(cfg, s, it), Attended(cfg, s.table, it);
    assert arrived.table == s.table && !arrived.connected;
    SweepEffect(s.table, it.sweepClock);
    NobodyServed(cfg, Expiring(arrived, it.sweepClock), attended, it.messages, |attended|);
  }

  lemma {:induction false} NobodyServed(cfg: Config, s: State, polled: seq<PollFd>, messages: nat -> Message, n: nat)
    requires Inv(s.table) && n <= |polled| && Fds(s.table) == {}
    ensures ServedAll(cfg, s, polled, messages, n) == s
  {
    if n > 0 {
      NobodyServed(cfg, s, polled, messages, n - 1);
    }
  }

  lemma {:induction false} NobodyYetInRun(cfg: Config, n: nat, start: TimeVal, script: seq<Iteration>, i: nat)
    requires i <= |script| && forall j :: 0 <= j < i ==> AcceptsNobody(cfg, script[j])
    ensures Idle(Before(cfg, Start(n, start), script, i), n)
  {
    var d := Start(n, start);
    if i == 0 {
      assert script[..0] == [];
      InitialInv(n);
    } else {
      NobodyYetInRun(cfg, n, start, script, i - 1);
      NextRound(cfg, d, script, i - 1);
      NobodyComes(cfg, Before(cfg, d, script, i - 1), script[i - 1], n);
    }
  }

  /**
   The first client of a run gets in: whatever the rounds before it bring, it has
   the first slot when the messages of its round are looked at.
   */
  lemma FirstClientGetsIn(cfg: Config, n: nat, start: TimeVal, script: seq<Iteration>, i: nat)
    requires n > 0 && i < |script| && Running(cfg, Start(n, start), script, i)
    requires forall j :: 0 <= j < i ==> AcceptsNobody(cfg, script[j])
    requires !AcceptsNobody(cfg, script[i]) && script[i].sweepClock(0) < script[i].openTime + 15
    ensures var d := Before(cfg, Start(n, start), script, i);
      var t := Expiring(Arrived(cfg, IdleChecked(cfg, d, script[i]).state, script[i]), script[i].sweepClock).table;
      !TimesOut(cfg, d, script[i]) && |t.slots| == n && t.slots[0].conn.sockfd == script[i].accept.fd
  {
    var d := Before(cfg, Start(n, start), script, i);
    NobodyYetInRun(cfg, n, start, script, i);
    var s := IdleChecked(cfg, d, script[i]).state;
    EmptyIsFresh(s.table, script[i].accept);
    ArrivalHasSession(cfg, s, script[i], 0);
  }

  lemma EmptyIsFresh(t: Table, o: AcceptOutcome)
    requires Inv(t) && Fds(t) == {} && |t.slots| > 0 && o.fd >= 0
    ensures FirstFree(t, 0)
    ensures Handles(t) == {} && Fresh(Fds(t), Handles(t), o)
  {
    OpenIsListed(t);
  }

  lemma OpenIsListed(t: Table)
    ensures forall k :: 0 <= k < |t.slots| && t.slots[k].Open() ==> t.slots[k].conn.sockfd in Fds(t)
  {
  }
}
