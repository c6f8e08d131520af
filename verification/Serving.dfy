/**
 What one message does, spelled out: the events it appends, who holds the target
 afterwards and why, what is remembered, and whose turn comes first.
 */
module Serving {
  import opened Basics
  import opened SessionTable
  import opened Protocol
  import opened Network
  import opened Session
  import opened Behaviour
  import opened Runs
  import Lockout

  // ---- The events of a message ----

  /** One event per callback, in order, on the descriptor of the message. */
  lemma {:induction false} TrafficExactly(fd: int, callbacks: seq<Callback>, n: nat)
    requires n <= |callbacks|
    ensures |Traffic(fd, callbacks, n)| == n
    ensures forall k :: 0 <= k < n ==>
      Traffic(fd, callbacks, n)[k] == if callbacks[k].SendCall? then Reply(fd) else Read(fd)
  {
    if n > 0 {
      TrafficExactly(fd, callbacks, n - 1);
    }
  }

  /** From event `at` on, the log is the exchange of this message. */
  predicate ExchangeAt(log: seq<Event>, at: nat, fd: int, callbacks: seq<Callback>) {
    && at + |callbacks| + 2 <= |log|
    && log[at] == ProcessBegin(fd)
    && (forall k :: 0 <= k < |callbacks| ==>
      log[at + 1 + k] == if callbacks[k].SendCall? then Reply(fd) else Read(fd))
    && log[at + 1 + |callbacks|] == ProcessEnd(fd)
  }

  /** The record of an open descriptor. */
  function Record(t: Table, fd: int): Conn
    requires fd in Fds(t)
  {
    t.slots[Find(t.slots, fd)].conn
  }

  lemma RecordAfterAuth(t: Table, fd: int)
    requires Inv(t) && fd in Fds(t) && AuthFd(t).None?
    ensures ClosingEvents(Step(t, AuthOp(fd)), fd) == ClosingEvents(t, fd)
  {
    var u := Step(t, AuthOp(fd));
    var i, j := Find(t.slots, fd), Find(u.slots, fd);
    assert forall k :: 0 <= k < |t.slots| ==> u.slots[k].conn == t.slots[k].conn;
    assert i == j;
  }

  /** Giving up a session: its handle, if it has one, and then its descriptor. */
  function Farewell(c: Conn): seq<Event> {
    if c.handle != 0 then [HandleFreed(c.handle), Closed(c.sockfd)] else [Closed(c.sockfd)]
  }

  lemma FarewellIsClosing(t: Table, fd: int)
    requires fd in Fds(t)
    ensures ClosingEvents(t, fd) == Farewell(Record(t, fd)) && Record(t, fd).sockfd == fd
  {
  }

  /** What joining adds: nothing for the holder or after a failed handshake. */
  function Greeting(cfg: Config, s: State, fd: int, m: Message): seq<Event> {
    if AuthFd(s.table).Some? || !HandshakeOk(cfg, s, m) then []
    else if m.initOk then [Authenticated(fd), TargetInit(true)]
    else [Authenticated(fd), TargetInit(false), TargetDeinit(m.deinitOk)]
  }

  lemma JoinEvents(cfg: Config, s: State, fd: int, m: Message)
    requires AuthFd(s.table) != Some(fd)
    ensures Joining(cfg, s, fd, m).log == s.log + Greeting(cfg, s, fd, m)
  {
    if HandshakeOk(cfg, s, m) && AuthFd(s.table).None? {
      var authed := s.log + [Authenticated(fd)];
      Append(s.log, [Authenticated(fd)], [TargetInit(m.initOk)]);
      if !m.initOk {
        Append(s.log, [Authenticated(fd), TargetInit(false)], [TargetDeinit(m.deinitOk)]);
      }
    }
  }

  lemma Append(a: seq<Event>, b: seq<Event>, c: seq<Event>)
    ensures a + b + c == a + (b + c)
  {
  }

  /** A message that does not reach the target: the greeting, and the end of the session. */
  lemma RefusalEvents(cfg: Config, s: State, fd: int, m: Message)
    requires Inv(s.table) && fd in Fds(s.table) && !Admitted(cfg, s, fd, m)
    ensures Served(cfg, s, fd, m).log == s.log + Greeting(cfg, s, fd, m) + Farewell(Record(s.table, fd))
  {
    JoinEvents(cfg, s, fd, m);
    FarewellIsClosing(s.table, fd);
    if AuthFd(s.table).None? {
      RecordAfterAuth(s.table, fd);
    }
  }

  /** A message that reaches the target: the greeting, the exchange, and if it fails the deinit and the end. */
  lemma ServiceEvents(cfg: Config, s: State, fd: int, m: Message)
    requires Inv(s.table) && fd in Fds(s.table) && Admitted(cfg, s, fd, m)
    ensures var log := s.log + Greeting(cfg, s, fd, m) + Exchange(fd, m.callbacks);
      Served(cfg, s, fd, m).log ==
        if m.processOk then log else log + [TargetDeinit(m.deinitOk)] + Farewell(Record(s.table, fd))
  {
    FarewellIsClosing(s.table, fd);
    if AuthFd(s.table) == Some(fd) {
      assert s.log + [] == s.log;
    } else {
      JoinEvents(cfg, s, fd, m);
      RecordAfterAuth(s.table, fd);
    }
  }

  lemma ExchangeFound(before: seq<Event>, fd: int, callbacks: seq<Callback>, after: seq<Event>)
    ensures ExchangeAt(before + Exchange(fd, callbacks) + after, |before|, fd, callbacks)
  {
    var log := before + Exchange(fd, callbacks) + after;
    TrafficExactly(fd, callbacks, |callbacks|);
    var traffic := Traffic(fd, callbacks, |callbacks|);
    assert log[|before|] == ProcessBegin(fd);
    forall k | 0 <= k < |callbacks|
      ensures log[|before| + 1 + k] == if callbacks[k].SendCall? then Reply(fd) else Read(fd)
    {
      assert log[|before| + 1 + k] == traffic[k];
    }
  }

  /**
   Every admitted message is exchanged in full: right after the greeting its
   begin, then exactly one reply for every send and one read for every read that
   the target asks for, in this order and on the sender's descriptor, then its end.
   */
  lemma MessageIsExchanged(cfg: Config, s: State, fd: int, m: Message)
    requires Inv(s.table) && fd in Fds(s.table) && Admitted(cfg, s, fd, m)
    ensures ExchangeAt(Served(cfg, s, fd, m).log, |s.log| + if AuthFd(s.table).None? then 2 else 0, fd, m.callbacks)
  {
    var rest := AfterExchange(cfg, s, fd, m);
    ExchangeFound(s.log + Greeting(cfg, s, fd, m), fd, m.callbacks, rest);
    GreetingLength(cfg, s, fd, m);
  }

  lemma AfterExchange(cfg: Config, s: State, fd: int, m: Message) returns (rest: seq<Event>)
    requires Inv(s.table) && fd in Fds(s.table) && Admitted(cfg, s, fd, m)
    ensures Served(cfg, s, fd, m).log == s.log + Greeting(cfg, s, fd, m) + Exchange(fd, m.callbacks) + rest
  {
    var log := s.log + Greeting(cfg, s, fd, m) + Exchange(fd, m.callbacks);
    ServiceEvents(cfg, s, fd, m);
    if m.processOk {
      rest := [];
      assert log + rest == log;
    } else {
      rest := [TargetDeinit(m.deinitOk)] + Farewell(Record(s.table, fd));
      Append(log, [TargetDeinit(m.deinitOk)], Farewell(Record(s.table, fd)));
    }
  }

  lemma GreetingLength(cfg: Config, s: State, fd: int, m: Message)
    requires Admitted(cfg, s, fd, m)
    ensures |Greeting(cfg, s, fd, m)| == if AuthFd(s.table).None? then 2 else 0
  {
  }

  // ---- Who holds the target, and why ----

  /** When PAM's handshake lets a client in, after the handshakes before it. */
  predicate PamLetsIn(n: pos, handshakes: seq<Lockout.Handshake>, h: Lockout.Handshake) {
    && h.randomOk && 0 < h.received <= 129 && h.version <= 0x30 && !h.pending
    && h.checkTime >= Lockout.After(n, handshakes).lockedUntil && h.pam.AuthOk? && h.sent
  }

  /** After a message its sender holds the target exactly if it did or is let in, and the message is processed. */
  lemma HolderExactly(cfg: Config, s: State, fd: int, m: Message)
    requires Inv(s.table)
    ensures AuthFd(Served(cfg, s, fd, m).table) == Some(fd) <==>
      && fd in Fds(s.table) && m.processOk
      && (AuthFd(s.table) == Some(fd) || (
           && AuthFd(s.table).None? && m.initOk
           && (cfg.noAuth || PamLetsIn(cfg.maxFailures, s.handshakes, m.handshake))))
  {
    ServeEffect(cfg, s, fd, m);
    AuthIsOpen(s.table);
    Lockout.AcceptsExactly(Lockout.After(cfg.maxFailures, s.handshakes), m.handshake);
  }

  /** With PAM every message of a client that does not hold the target is a handshake, and no other message is. */
  lemma HandshakesRecorded(cfg: Config, s: State, fd: int, m: Message)
    ensures Served(cfg, s, fd, m).handshakes == s.handshakes +
      if !cfg.noAuth && fd in Fds(s.table) && AuthFd(s.table) != Some(fd) then [m.handshake] else []
  {
  }

  /** All messages of this descriptor are oversized or of a newer version. */
  predicate OnlyMalformed(polled: seq<PollFd>, messages: nat -> Message, n: nat, fd: int)
    requires n <= |polled|
  {
    forall i :: 0 <= i < n && polled[i] == PollFd(fd, true) ==> !Lockout.WellFormed(messages(i).handshake)
  }

  lemma MalformedMessage(cfg: Config, s: State, from: int, m: Message, fd: int)
    requires Inv(s.table) && !cfg.noAuth && AuthFd(s.table) != Some(fd)
    requires from == fd ==> !Lockout.WellFormed(m.handshake)
    ensures AuthFd(Served(cfg, s, from, m).table) != Some(fd)
  {
    HolderExactly(cfg, s, from, m);
    ServeEffect(cfg, s, from, m);
  }

  lemma {:induction false} MalformedBatch(cfg: Config, s: State, polled: seq<PollFd>, messages: nat -> Message, n: nat,
                                          fd: int)
    requires Inv(s.table) && n <= |polled| && !cfg.noAuth && AuthFd(s.table) != Some(fd)
    requires OnlyMalformed(polled, messages, n, fd)
    ensures AuthFd(ServedAll(cfg, s, polled, messages, n).table) != Some(fd)
  {
    if n > 0 {
      MalformedBatch(cfg, s, polled, messages, n - 1, fd);
      if polled[n - 1].pollin {
        ServeAllKeeps(cfg, s, polled, messages, n - 1);
        MalformedMessage(cfg, ServedAll(cfg, s, polled, messages, n - 1), polled[n - 1].fd, messages(n - 1), fd);
      } else {
        assert ServedAll(cfg, s, polled, messages, n) == ServedAll(cfg, s, polled, messages, n - 1);
      }
    }
  }

  /** Malformed requests never make their sender the holder of the target, in any round. */
  lemma MalformedNeverHolds(cfg: Config, d: Timed, it: Iteration, fd: int)
    requires Inv(d.state.table) && !cfg.noAuth && AuthFd(d.state.table) != Some(fd)
    requires var attended := Attended(cfg, d.state.table, it);
      OnlyMalformed(attended, it.messages, |attended|, fd)
    ensures AuthFd(Round(cfg, d, it).state.table) != Some(fd)
  {
    IdleEffect(cfg, d, it);
    var checked := IdleChecked(cfg, d, it);
    if !TimesOut(cfg, d, it) && it.pollResult != -1 {
      var swept := Expiring(Arrived(cfg, checked.state, it), it.sweepClock);
      var attended := Attended(cfg, d.state.table, it);
      ArriveEffect(cfg, checked.state, it);
      MalformedBatch(cfg, swept, attended, it.messages, |attended|, fd);
      NetworkInv(cfg, checked.state, it);
      PinEffect(Attentive(cfg, checked, it).state, it);
    }
  }

  // ---- What is remembered ----

  lemma {:induction false} PendingExactly(pending: bool, callbacks: seq<Callback>, n: nat, k: nat)
    requires n <= |callbacks| && k <= n
    requires forall j :: k <= j < n ==> callbacks[j].SendCall?
    ensures PendingAfter(pending, callbacks, n) ==
      if k == 0 then pending
      else if callbacks[k - 1].ReadCall? then callbacks[k - 1].pending
      else PendingAfter(pending, callbacks, k - 1)
    decreases n
  {
    if k < n {
      PendingExactly(pending, callbacks, n - 1, k);
    }
  }

  /** The last read of a message, as the number of callbacks up to it; 0 when there is none. */
  predicate LastRead(callbacks: seq<Callback>, k: nat) {
    && k <= |callbacks| && (k > 0 ==> callbacks[k - 1].ReadCall?)
    && forall j :: k <= j < |callbacks| ==> callbacks[j].SendCall?
  }

  lemma ProcessPending(s: State, fd: int, pending: bool, m: Message, i: nat)
    requires Inv(s.table) && i < |s.table.slots| && s.table.slots[i].conn.sockfd == fd >= 0 && m.processOk
    ensures |Processed(s, fd, pending, m).table.slots| == |s.table.slots|
    ensures Processed(s, fd, pending, m).table.slots[i].dataPending ==
      PendingAfter(pending, m.callbacks, |m.callbacks|)
  {
    OwnSlot(s.table, i);
  }

  lemma EnsureKeepsConn(cfg: Config, s: State, fd: int, m: Message, i: nat)
    requires Inv(s.table) && i < |s.table.slots| && s.table.slots[i].conn.sockfd == fd >= 0
    requires Admitted(cfg, s, fd, m)
    ensures Inv(Ensured(cfg, s, fd, m).table) && |Ensured(cfg, s, fd, m).table.slots| == |s.table.slots|
    ensures Ensured(cfg, s, fd, m).table.slots[i].conn == s.table.slots[i].conn
  {
    assert fd in Fds(s.table);
    EnsureEffect(cfg, s, fd, m);
  }

  /** After a successful message its session has data pending exactly if the last read said so. */
  lemma PendingRemembered(cfg: Config, s: State, fd: int, m: Message, i: nat, k: nat)
    requires Inv(s.table) && i < |s.table.slots| && s.table.slots[i].conn.sockfd == fd >= 0
    requires Succeeds(cfg, s, fd, m) && LastRead(m.callbacks, k)
    ensures |Served(cfg, s, fd, m).table.slots| == |s.table.slots|
    ensures Served(cfg, s, fd, m).table.slots[i].dataPending ==
      if k == 0 then s.table.slots[i].dataPending else m.callbacks[k - 1].pending
  {
    OwnSlot(s.table, i);
    EnsureKeepsConn(cfg, s, fd, m, i);
    ProcessPending(Ensured(cfg, s, fd, m), fd, s.table.slots[i].dataPending, m, i);
    PendingExactly(s.table.slots[i].dataPending, m.callbacks, |m.callbacks|, k);
  }

  /** Success of a batch means success of each message in its turn. */
  lemma {:induction false} AllSucceedExactly(cfg: Config, s: State, polled: seq<PollFd>, messages: nat -> Message,
                                             n: nat)
    requires n <= |polled|
    ensures AllSucceed(cfg, s, polled, messages, n) <==>
      forall i :: 0 <= i < n && polled[i].pollin ==>
        Succeeds(cfg, ServedAll(cfg, s, polled, messages, i), polled[i].fd, messages(i))
  {
    if n > 0 {
      AllSucceedExactly(cfg, s, polled, messages, n - 1);
    }
  }

  // ---- Whose turn comes first ----

  lemma {:induction false} NobodyYet(cfg: Config, s: State, polled: seq<PollFd>, messages: nat -> Message, n: nat)
    requires Inv(s.table) && AuthFd(s.table).None? && n <= |polled|
    requires forall j :: 0 <= j < n && polled[j].pollin ==> !messages(j).processOk || !messages(j).initOk
    ensures AuthFd(ServedAll(cfg, s, polled, messages, n).table).None?
  {
    if n > 0 {
      NobodyYet(cfg, s, polled, messages, n - 1);
      ServeAllKeeps(cfg, s, polled, messages, n - 1);
      ServeEffect(cfg, ServedAll(cfg, s, polled, messages, n - 1), polled[n - 1].fd, messages(n - 1));
    }
  }

  lemma {:induction false} HoldsFrom(cfg: Config, s: State, polled: seq<PollFd>, messages: nat -> Message, i: nat,
                                     n: nat, fd: int)
    requires Inv(s.table) && i <= n <= |polled| && AuthFd(ServedAll(cfg, s, polled, messages, i).table) == Some(fd)
    requires forall j :: i <= j < n && polled[j] == PollFd(fd, true) ==> messages(j).processOk
    ensures AuthFd(ServedAll(cfg, s, polled, messages, n).table) == Some(fd)
    decreases n
  {
    if i < n {
      HoldsFrom(cfg, s, polled, messages, i, n - 1, fd);
      ServeAllKeeps(cfg, s, polled, messages, n - 1);
      OneMessage(cfg, ServedAll(cfg, s, polled, messages, n - 1), polled[n - 1].fd, messages(n - 1), fd);
    }
  }

  /**
   First come, first served: with nobody on the target, the first client in poll
   order whose message can succeed gets it, and later ones do not take it away.
   */
  lemma FirstComeFirstServed(cfg: Config, s: State, polled: seq<PollFd>, messages: nat -> Message, i: nat)
    requires Inv(s.table) && AuthFd(s.table).None? && i < |polled| && polled[i].pollin
    requires forall j :: 0 <= j < i && polled[j].pollin ==> !messages(j).processOk || !messages(j).initOk
    requires Succeeds(cfg, ServedAll(cfg, s, polled, messages, i), polled[i].fd, messages(i))
    requires forall j :: i < j < |polled| && polled[j] == polled[i] ==> messages(j).processOk
    ensures AuthFd(ServedAll(cfg, s, polled, messages, |polled|).table) == Some(polled[i].fd)
  {
    var before := ServedAll(cfg, s, polled, messages, i);
    NobodyYet(cfg, s, polled, messages, i);
    ServeAllKeeps(cfg, s, polled, messages, i);
    ServeEffect(cfg, before, polled[i].fd, messages(i));
    HoldsFrom(cfg, s, polled, messages, i + 1, |polled|, polled[i].fd);
  }

  /** What the target sends during its pin events goes to the holder, one reply each, or nowhere. */
  lemma {:induction false} PinReplies(s: State, n: nat)
    ensures Replied(s, n).log == s.log +
      if AuthFd(s.table).Some? then Repeat(n, Reply(AuthFd(s.table).value)) else []
  {
    if n > 0 {
      PinReplies(s, n - 1);
      if AuthFd(s.table).Some? {
        var r := Reply(AuthFd(s.table).value);
        assert Repeat(n, r) == Repeat(n - 1, r) + [r];
        Append(s.log, Repeat(n - 1, r), [r]);
      }
    }
  }
}
