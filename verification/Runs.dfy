/**
 Properties of the daemon's runs: who stays connected, who is refused, what the
 idle timer watches, which sessions are looked at, and when a lockout is over.
 They are stated about the behaviour that the code of Daemon is proved to have.
 */
module Runs {
  import opened Basics
  import opened SessionTable
  import opened SessionTimeouts
  import opened Protocol
  import opened Network
  import opened Session
  import opened IdleTimer
  import opened Behaviour
  import Lockout

  // ---- What one operation does to the clients ----

  /** Sessions of other descriptors are exactly as they were. */
  predicate OthersKept(t: Table, u: Table, fd: int) {
    && |u.slots| == |t.slots|
    && forall k :: 0 <= k < |t.slots| && t.slots[k].conn.sockfd != fd ==> u.slots[k] == t.slots[k]
  }

  lemma CloseEffect(t: Table, fd: int)
    requires Inv(t)
    ensures var u := Step(t, CloseOp(fd));
      && Inv(u) && Fds(u) == Fds(t) - {fd} && OthersKept(t, u, fd)
      && AuthFd(u) == if AuthFd(t) == Some(fd) then None else AuthFd(t)
  {
    var i := Find(t.slots, fd);
    if fd != UNUSED_SOCKET_FD && i != -1 {
      ClosedInv(t, i);
      ClosedResources(t, i);
    }
  }

  lemma AuthEffect(t: Table, fd: int)
    requires Inv(t) && fd in Fds(t) && AuthFd(t).None?
    ensures var u := Step(t, AuthOp(fd));
      Inv(u) && Fds(u) == Fds(t) && OthersKept(t, u, fd) && AuthFd(u) == Some(fd)
  {
    AuthedInv(t, Find(t.slots, fd));
  }

  lemma PendingEffect(t: Table, fd: int, pending: bool)
    requires Inv(t)
    ensures var u := Step(t, PendingOp(fd, pending));
      Inv(u) && Fds(u) == Fds(t) && OthersKept(t, u, fd) && AuthFd(u) == AuthFd(t)
  {
    var i := Find(t.slots, fd);
    if i != -1 {
      PendingInv(t, i, pending);
    }
  }

  lemma SweepEffect(t: Table, clock: nat -> int)
    requires Inv(t)
    ensures var u := Step(t, SweepOp(clock));
      && Inv(u) && AuthFd(u) == AuthFd(t) && Fds(u) <= Fds(t) && |u.slots| == |t.slots|
      && forall k :: 0 <= k < |t.slots| ==> u.slots[k] == SweptSlot(t.slots[k], clock(k))
  {
    SweptAt(t, |t.slots|, clock);
  }

  /** Accepting a client disturbs no session that is open. */
  lemma AdmitEffect(cfg: Config, s: State, o: AcceptOutcome, now: int)
    requires Inv(s.table)
    ensures var t, u := s.table, Admitting(cfg, s, o, now).table;
      && Inv(u) && AuthFd(u) == AuthFd(t) && |u.slots| == |t.slots|
      && Fds(u) == Fds(t) + (if Newcomer(cfg, t, o).Some? then {Newcomer(cfg, t, o).value.sockfd} else {})
      && (forall k :: 0 <= k < |t.slots| && t.slots[k].Open() ==> u.slots[k] == t.slots[k])
      && (Newcomer(cfg, t, o).Some? ==> Newcomer(cfg, t, o).value.sockfd !in Fds(t))
  {
    var i := Find(s.table.slots, UNUSED_SOCKET_FD);
    if Newcomer(cfg, s.table, o).Some? {
      OpenedInv(s.table, i, Newcomer(cfg, s.table, o).value, now);
    }
  }

  /** ensure_client_authenticated lets the client in, or closes its session and no other. */
  lemma EnsureEffect(cfg: Config, s: State, fd: int, m: Message)
    requires Inv(s.table) && fd in Fds(s.table)
    ensures var t, u := s.table, Ensured(cfg, s, fd, m).table;
      && Inv(u) && OthersKept(t, u, fd)
      && Fds(u) == (if Admitted(cfg, s, fd, m) then Fds(t) else Fds(t) - {fd})
      && AuthFd(u) == (if Admitted(cfg, s, fd, m) then Some(fd) else AuthFd(t))
  {
    if AuthFd(s.table) != Some(fd) {
      if HandshakeOk(cfg, s, m) && AuthFd(s.table).None? {
        AuthEffect(s.table, fd);
      }
      if !Admitted(cfg, s, fd, m) {
        CloseEffect(Joining(cfg, s, fd, m).table, fd);
      }
    }
  }

  /** One message lets its sender hold the target, or disconnects it, and touches nobody else. */
  lemma ServeEffect(cfg: Config, s: State, fd: int, m: Message)
    requires Inv(s.table)
    ensures var t, u := s.table, Served(cfg, s, fd, m).table;
      && Inv(u) && OthersKept(t, u, fd)
      && Fds(u) == (if Succeeds(cfg, s, fd, m) then Fds(t) else Fds(t) - {fd})
      && AuthFd(u) == (if Succeeds(cfg, s, fd, m) then Some(fd)
           else if AuthFd(t) == Some(fd) then None else AuthFd(t))
  {
    if fd in Fds(s.table) {
      EnsureEffect(cfg, s, fd, m);
      var u := Ensured(cfg, s, fd, m).table;
      if Admitted(cfg, s, fd, m) {
        CloseEffect(u, fd);
        PendingEffect(u, fd, PendingAfter(PendingOf(s.table, fd), m.callbacks, |m.callbacks|));
      }
    } else {
      AuthIsOpen(s.table);
    }
  }

  lemma AuthIsOpen(t: Table)
    requires Inv(t)
    ensures AuthFd(t).Some? ==> AuthFd(t).value in Fds(t)
  {
  }

  // ---- A batch of messages ----

  lemma {:induction false} ServeAllKeeps(cfg: Config, s: State, polled: seq<PollFd>, messages: nat -> Message, n: nat)
    requires Inv(s.table) && n <= |polled|
    ensures Inv(ServedAll(cfg, s, polled, messages, n).table)
    ensures Fds(ServedAll(cfg, s, polled, messages, n).table) <= Fds(s.table)
  {
    if n > 0 {
      ServeAllKeeps(cfg, s, polled, messages, n - 1);
      ServeEffect(cfg, ServedAll(cfg, s, polled, messages, n - 1), polled[n - 1].fd, messages(n - 1));
    }
  }

  /** The authenticated client's own messages in a batch all succeed. */
  predicate OwnSucceed(polled: seq<PollFd>, messages: nat -> Message, n: nat, fd: int)
    requires n <= |polled|
  {
    forall i :: 0 <= i < n && polled[i] == PollFd(fd, true) ==> messages(i).processOk
  }

  /** One message, as the client that holds the target sees it. */
  lemma OneMessage(cfg: Config, s: State, from: int, m: Message, fd: int)
    requires Inv(s.table)
    ensures var t, u := s.table, Served(cfg, s, from, m).table;
      && Fds(u) <= Fds(t)
      && (fd !in Fds(t) ==> AuthFd(u) != Some(fd))
      && (AuthFd(t) == Some(fd) ==>
        && (from != fd || m.processOk ==> AuthFd(u) == Some(fd))
        && (from == fd && !m.processOk ==> fd !in Fds(u) && AuthFd(u) != Some(fd))
        && (from != fd ==> from !in Fds(u)))
  {
    ServeEffect(cfg, s, from, m);
    AuthIsOpen(s.table);
    AuthIsOpen(Served(cfg, s, from, m).table);
  }

  /** Whatever other clients send, the authenticated client stays exactly while its own messages succeed. */
  lemma {:induction false} StaysThroughBatch(cfg: Config, s: State, polled: seq<PollFd>, messages: nat -> Message,
                                             n: nat, fd: int)
    requires Inv(s.table) && n <= |polled| && AuthFd(s.table) == Some(fd)
    ensures AuthFd(ServedAll(cfg, s, polled, messages, n).table) == Some(fd) <==> OwnSucceed(polled, messages, n, fd)
    ensures !OwnSucceed(polled, messages, n, fd) ==> fd !in Fds(ServedAll(cfg, s, polled, messages, n).table)
  {
    if n > 0 {
      StaysThroughBatch(cfg, s, polled, messages, n - 1, fd);
      ServeAllKeeps(cfg, s, polled, messages, n - 1);
      OneMessage(cfg, ServedAll(cfg, s, polled, messages, n - 1), polled[n - 1].fd, messages(n - 1), fd);
    }
  }

  /**
   While a client holds the target, every other client that sends anything is
   disconnected, even when its handshake succeeds.
   */
  lemma {:induction false} SecondClientIsRefused(cfg: Config, s: State, polled: seq<PollFd>,
                                                 messages: nat -> Message, n: nat, fd: int, i: nat)
    requires Inv(s.table) && i < n <= |polled| && AuthFd(s.table) == Some(fd)
    requires OwnSucceed(polled, messages, n, fd) && polled[i].pollin && polled[i].fd != fd
    ensures polled[i].fd !in Fds(ServedAll(cfg, s, polled, messages, n).table)
  {
    StaysThroughBatch(cfg, s, polled, messages, n - 1, fd);
    ServeAllKeeps(cfg, s, polled, messages, n - 1);
    OneMessage(cfg, ServedAll(cfg, s, polled, messages, n - 1), polled[n - 1].fd, messages(n - 1), fd);
    if i < n - 1 {
      SecondClientIsRefused(cfg, s, polled, messages, n - 1, fd, i);
    }
  }

  /** Nobody sent anything on the descriptor. */
  predicate Silent(polled: seq<PollFd>, n: nat, fd: int)
    requires n <= |polled|
  {
    forall i :: 0 <= i < n ==> polled[i] != PollFd(fd, true)
  }

  /** A session without a poll event is not changed by the messages, whether or not data is pending in it. */
  lemma {:induction false} SilentIsSkipped(cfg: Config, s: State, polled: seq<PollFd>, messages: nat -> Message,
                                           n: nat, k: nat)
    requires Inv(s.table) && n <= |polled| && k < |s.table.slots|
    requires Silent(polled, n, s.table.slots[k].conn.sockfd)
    ensures |ServedAll(cfg, s, polled, messages, n).table.slots| == |s.table.slots|
    ensures ServedAll(cfg, s, polled, messages, n).table.slots[k] == s.table.slots[k]
  {
    if n > 0 {
      SilentIsSkipped(cfg, s, polled, messages, n - 1, k);
      ServeAllKeeps(cfg, s, polled, messages, n - 1);
      ServeEffect(cfg, ServedAll(cfg, s, polled, messages, n - 1), polled[n - 1].fd, messages(n - 1));
    }
  }

  // ---- A round ----

  /** The round gives a new client a session. */
  predicate Arrives(cfg: Config, d: Timed, it: Iteration) {
    !TimesOut(cfg, d, it) && it.pollResult > 0 && Arrival(cfg, d.state.table, it).Some?
  }

  lemma DisconnectEffect(s: State, deinitOk: bool)
    requires Inv(s.table)
    ensures var u := Disconnected(s, deinitOk);
      && Inv(u.table) && Fds(u.table) <= Fds(s.table)
      && (deinitOk ==> AuthFd(u.table).None?) && (!deinitOk ==> u.table == s.table)
      && (AuthFd(s.table).Some? ==> !u.connected) && (u.connected ==> s.connected)
  {
    if AuthFd(s.table).Some? {
      CloseEffect(s.table, AuthFd(s.table).value);
    }
  }

  lemma {:induction false} ReplyEffect(s: State, n: nat)
    ensures Replied(s, n) == s.(log := Replied(s, n).log)
  {
    if n > 0 {
      ReplyEffect(s, n - 1);
    }
  }

  lemma PinEffect(s: State, it: Iteration)
    requires Inv(s.table)
    ensures var u := Pinned(s, it);
      && Inv(u.table) && Fds(u.table) <= Fds(s.table) && (u.connected ==> s.connected)
      && (if NumGpios(it) > 0 && !it.pinsOk && it.pinDeinitOk then AuthFd(u.table).None?
          else u.table == s.table)
  {
    ReplyEffect(s, |it.pinReplies|);
    DisconnectEffect(Replied(s, |it.pinReplies|), it.pinDeinitOk);
  }

  lemma ArriveEffect(cfg: Config, s: State, it: Iteration)
    requires Inv(s.table)
    ensures var t, u := s.table, Expiring(Arrived(cfg, s, it), it.sweepClock).table;
      && Inv(u) && AuthFd(u) == AuthFd(t) && |u.slots| == |t.slots|
      && (forall k :: 0 <= k < |t.slots| && t.slots[k].Open() ==>
           u.slots[k] == SweptSlot(t.slots[k], it.sweepClock(k)))
  {
    if HOST_FD_INDEX in it.ready {
      AdmitEffect(cfg, s, it.accept, it.openTime);
    }
    SweepEffect(Arrived(cfg, s, it).table, it.sweepClock);
  }

  lemma NetworkInv(cfg: Config, s: State, it: Iteration)
    requires Inv(s.table)
    ensures Inv(Networked(cfg, s, it).table)
  {
    ArriveEffect(cfg, s, it);
    var attended := Attended(cfg, s.table, it);
    ServeAllKeeps(cfg, Expiring(Arrived(cfg, s, it), it.sweepClock), attended, it.messages, |attended|);
  }

  lemma IdleEffect(cfg: Config, d: Timed, it: Iteration)
    requires Inv(d.state.table)
    ensures var u := IdleChecked(cfg, d, it).state;
      && Inv(u.table) && Fds(u.table) <= Fds(d.state.table) && (u.connected ==> d.state.connected)
      && (if TimesOut(cfg, d, it) then
            (if it.idleDeinitOk then AuthFd(u.table).None? else u.table == d.state.table)
          else u.table == d.state.table && u.connected == d.state.connected)
  {
    if TimesOut(cfg, d, it) {
      DisconnectEffect(IdleWarned(cfg, d, it).state.Log([IdleTimeout]), it.idleDeinitOk);
    }
  }

  /** Every table of a run satisfies the table's invariant. */
  lemma RoundInv(cfg: Config, d: Timed, it: Iteration)
    requires Inv(d.state.table)
    ensures Inv(Round(cfg, d, it).state.table)
  {
    IdleEffect(cfg, d, it);
    var checked := IdleChecked(cfg, d, it);
    NetworkInv(cfg, checked.state, it);
    PinEffect(Attentive(cfg, checked, it).state, it);
  }

  lemma {:induction false} RoundsInv(cfg: Config, d: Timed, script: seq<Iteration>)
    requires Inv(d.state.table)
    ensures Inv(Rounds(cfg, d, script).0.state.table)
    decreases |script|
  {
    if script != [] {
      var init := script[..|script| - 1];
      RoundsInv(cfg, d, init);
      RoundInv(cfg, Rounds(cfg, d, init).0, script[|script| - 1]);
    }
  }

  /**
   What a round must not contain for the authenticated client to stay: an idle
   timeout or a pin failure with a successful deinit, or a failing message of
   its own. Nothing that other clients do is mentioned.
   */
  predicate Keeps(cfg: Config, d: Timed, it: Iteration, fd: int) {
    if TimesOut(cfg, d, it) then !it.idleDeinitOk
    else
      it.pollResult == -1 || (
        && (it.pollResult > 0 ==>
          var attended := Attended(cfg, d.state.table, it);
          OwnSucceed(attended, it.messages, |attended|, fd))
        && !(NumGpios(it) > 0 && !it.pinsOk && it.pinDeinitOk))
  }

  lemma StaysThroughRound(cfg: Config, d: Timed, it: Iteration, fd: int)
    requires Inv(d.state.table) && AuthFd(d.state.table) == Some(fd)
    ensures AuthFd(Round(cfg, d, it).state.table) == Some(fd) <==> Keeps(cfg, d, it, fd)
  {
    IdleEffect(cfg, d, it);
    var checked := IdleChecked(cfg, d, it);
    if !TimesOut(cfg, d, it) && it.pollResult != -1 {
      if it.pollResult > 0 {
        StaysThroughNetwork(cfg, checked.state, it, fd);
      }
      NetworkInv(cfg, checked.state, it);
      PinEffect(Attentive(cfg, checked, it).state, it);
    }
  }

  lemma StaysThroughNetwork(cfg: Config, s: State, it: Iteration, fd: int)
    requires Inv(s.table) && AuthFd(s.table) == Some(fd)
    ensures var attended := Attended(cfg, s.table, it);
      AuthFd(Networked(cfg, s, it).table) == Some(fd) <==> OwnSucceed(attended, it.messages, |attended|, fd)
  {
    ArriveEffect(cfg, s, it);
    var attended := Attended(cfg, s.table, it);
    StaysThroughBatch(cfg, Expiring(Arrived(cfg, s, it), it.sweepClock), attended, it.messages, |attended|, fd);
  }

  // ---- Runs ----

  /** The loop's state before round i of a script. */
  function Before(cfg: Config, d: Timed, script: seq<Iteration>, i: nat): Timed
    requires i <= |script|
  {
    Rounds(cfg, d, script[..i]).0
  }

  predicate Running(cfg: Config, d: Timed, script: seq<Iteration>, i: nat)
    requires i <= |script|
  {
    !Rounds(cfg, d, script[..i]).1
  }

  lemma NextRound(cfg: Config, d: Timed, script: seq<Iteration>, i: nat)
    requires i < |script|
    ensures Before(cfg, d, script, i + 1) ==
      if Running(cfg, d, script, i) then Round(cfg, Before(cfg, d, script, i), script[i])
      else Before(cfg, d, script, i)
  {
    assert script[..i + 1][..i] == script[..i];
  }

  lemma RunningEarlier(cfg: Config, d: Timed, script: seq<Iteration>, i: nat)
    requires i < |script| && Running(cfg, d, script, i + 1)
    ensures Running(cfg, d, script, i)
  {
    assert script[..i + 1][..i] == script[..i];
  }

  /** The loop has ended exactly if some round that took place found poll failing. */
  lemma {:induction false} StopsAtPollError(cfg: Config, d: Timed, script: seq<Iteration>, n: nat)
    requires n <= |script|
    ensures !Running(cfg, d, script, n) <==> exists i :: 0 <= i < n && PollFails(cfg, d, script, i)
  {
    if n == 0 {
      assert script[..0] == [];
    } else {
      StopsAtPollError(cfg, d, script, n - 1);
      StopsNext(cfg, d, script, n - 1);
    }
  }

  /** Round i takes place, is not ended by an idle timeout, and poll reports an error in it. */
  predicate PollFails(cfg: Config, d: Timed, script: seq<Iteration>, i: nat)
    requires i < |script|
  {
    && Running(cfg, d, script, i) && script[i].pollResult == -1
    && !TimesOut(cfg, Before(cfg, d, script, i), script[i])
  }

  lemma StopsNext(cfg: Config, d: Timed, script: seq<Iteration>, i: nat)
    requires i < |script|
    ensures Running(cfg, d, script, i + 1) <==> Running(cfg, d, script, i) && !PollFails(cfg, d, script, i)
  {
    assert script[..i + 1][..i] == script[..i];
  }

  /** The client holds the target before round i. */
  predicate Holds(cfg: Config, d: Timed, script: seq<Iteration>, fd: int, i: nat)
    requires i <= |script|
  {
    AuthFd(Before(cfg, d, script, i).state.table) == Some(fd)
  }

  /** Round i, if it takes place, is one that keeps the client. */
  predicate Kept(cfg: Config, d: Timed, script: seq<Iteration>, fd: int, i: nat)
    requires i < |script|
  {
    Running(cfg, d, script, i) ==> Keeps(cfg, Before(cfg, d, script, i), script[i], fd)
  }

  lemma HoldsOn(cfg: Config, d: Timed, script: seq<Iteration>, fd: int, i: nat)
    requires Inv(d.state.table) && i < |script| && Holds(cfg, d, script, fd, i)
    ensures Holds(cfg, d, script, fd, i + 1) <==> Kept(cfg, d, script, fd, i)
  {
    NextRound(cfg, d, script, i);
    RoundsInv(cfg, d, script[..i]);
    StaysThroughRound(cfg, Before(cfg, d, script, i), script[i], fd);
  }

  predicate HoldsUpTo(cfg: Config, d: Timed, script: seq<Iteration>, fd: int, n: nat)
    requires n <= |script|
  {
    forall i :: 0 <= i <= n ==> Holds(cfg, d, script, fd, i)
  }

  predicate KeptUpTo(cfg: Config, d: Timed, script: seq<Iteration>, fd: int, n: nat)
    requires n <= |script|
  {
    forall i :: 0 <= i < n ==> Kept(cfg, d, script, fd, i)
  }

  /**
   Over any number of rounds, a client that holds the target keeps it throughout
   exactly when every round that takes place is one that keeps it.
   */
  lemma {:induction false} StaysThroughout(cfg: Config, d: Timed, script: seq<Iteration>, fd: int, n: nat)
    requires Inv(d.state.table) && AuthFd(d.state.table) == Some(fd) && n <= |script|
    ensures HoldsUpTo(cfg, d, script, fd, n) <==> KeptUpTo(cfg, d, script, fd, n)
  {
    if n == 0 {
      assert script[..0] == [];
    } else {
      var m := n - 1;
      StaysThroughout(cfg, d, script, fd, m);
      assert HoldsUpTo(cfg, d, script, fd, n) <==>
        HoldsUpTo(cfg, d, script, fd, m) && Holds(cfg, d, script, fd, m + 1);
      assert KeptUpTo(cfg, d, script, fd, n) <==>
        KeptUpTo(cfg, d, script, fd, m) && Kept(cfg, d, script, fd, m);
      if HoldsUpTo(cfg, d, script, fd, m) {
        HoldsOn(cfg, d, script, fd, m);
      }
    }
  }

  // ---- The second client, the silent client ----

  /** In a round that keeps the holder of the target, everyone else who sends anything is disconnected. */
  lemma RoundRefusesOthers(cfg: Config, d: Timed, it: Iteration, fd: int, i: nat)
    requires Inv(d.state.table) && AuthFd(d.state.table) == Some(fd) && Keeps(cfg, d, it, fd)
    requires !TimesOut(cfg, d, it) && it.pollResult > 0
    requires i < |Attended(cfg, d.state.table, it)| && Attended(cfg, d.state.table, it)[i].pollin
    requires Attended(cfg, d.state.table, it)[i].fd != fd
    ensures Attended(cfg, d.state.table, it)[i].fd !in Fds(Round(cfg, d, it).state.table)
  {
    IdleEffect(cfg, d, it);
    var s, attended := IdleChecked(cfg, d, it).state, Attended(cfg, d.state.table, it);
    ArriveEffect(cfg, s, it);
    SecondClientIsRefused(cfg, Expiring(Arrived(cfg, s, it), it.sweepClock), attended, it.messages, |attended|, fd, i);
    NetworkInv(cfg, s, it);
    PinEffect(Attentive(cfg, IdleChecked(cfg, d, it), it).state, it);
    ReplyEffect(Networked(cfg, s, it), |it.pinReplies|);
  }

  /** No open descriptor equal to this one has its entry marked by poll. */
  predicate NoEvent(t: Table, it: Iteration, fd: int) {
    forall i :: 0 <= i < |OpenFds(t.slots, |t.slots|)| && OpenFds(t.slots, |t.slots|)[i] == fd ==>
      ClientIndex(it) + i !in it.ready
  }

  lemma NoEventIsSilent(cfg: Config, t: Table, it: Iteration, fd: int)
    requires Inv(t) && fd in Fds(t) && NoEvent(t, it, fd)
    ensures Silent(Attended(cfg, t, it), |Attended(cfg, t, it)|, fd)
  {
    var arrival := Arrival(cfg, t, it);
    if arrival.Some? {
      assert Newcomer(cfg, t, it.accept).value.sockfd !in Fds(t);
    }
  }

  /** The log has grown, by no message of this descriptor. */
  predicate Unserved(before: seq<Event>, after: seq<Event>, fd: int) {
    && |before| <= |after| && after[..|before|] == before
    && forall j :: |before| <= j < |after| ==> after[j] != ProcessBegin(fd)
  }

  lemma UnservedTrans(a: seq<Event>, b: seq<Event>, c: seq<Event>, fd: int)
    requires Unserved(a, b, fd) && Unserved(b, c, fd)
    ensures Unserved(a, c, fd)
  {
    assert c[..|a|] == c[..|b|][..|a|];
    forall j | |a| <= j < |c| ensures c[j] != ProcessBegin(fd) {
      if j < |b| {
        assert c[j] == c[..|b|][j];
      }
    }
  }

  lemma {:induction false} TrafficBeginsNothing(fd: int, callbacks: seq<Callback>, n: nat)
    requires n <= |callbacks|
    ensures forall j :: 0 <= j < |Traffic(fd, callbacks, n)| ==> !Traffic(fd, callbacks, n)[j].ProcessBegin?
  {
    if n > 0 {
      TrafficBeginsNothing(fd, callbacks, n - 1);
    }
  }

  lemma Grown(log: seq<Event>, events: seq<Event>, fd: int)
    requires forall j :: 0 <= j < |events| ==> events[j] != ProcessBegin(fd)
    ensures Unserved(log, log + events, fd)
  {
  }

  lemma CloseUnserved(s: State, from: int, fd: int)
    ensures Unserved(s.log, Closing(s, from).log, fd)
  {
    Grown(s.log, ClosingEvents(s.table, from), fd);
  }

  lemma JoinUnserved(s: State, from: int, m: Message, fd: int)
    ensures Unserved(s.log, Joined(s, from, m).log, fd)
  {
    var authed := s.log + [Authenticated(from)];
    var tried := authed + [TargetInit(m.initOk)];
    Grown(s.log, [Authenticated(from)], fd);
    Grown(authed, [TargetInit(m.initOk)], fd);
    UnservedTrans(s.log, authed, tried, fd);
    if !m.initOk {
      Grown(tried, [TargetDeinit(m.deinitOk)], fd);
      UnservedTrans(s.log, tried, tried + [TargetDeinit(m.deinitOk)], fd);
    }
  }

  lemma EnsureUnserved(cfg: Config, s: State, from: int, m: Message, fd: int)
    ensures Unserved(s.log, Ensured(cfg, s, from, m).log, fd)
  {
    var joining := Joining(cfg, s, from, m);
    JoinUnserved(Shaken(cfg, s, m), from, m, fd);
    Grown(s.log, [], fd);
    CloseUnserved(joining, from, fd);
    UnservedTrans(s.log, joining.log, Closing(joining, from).log, fd);
  }

  lemma ProcessUnserved(s: State, from: int, pending: bool, m: Message, fd: int)
    requires from != fd
    ensures Unserved(s.log, Processed(s, from, pending, m).log, fd)
  {
    var exchanged := s.Log(Exchange(from, m.callbacks));
    var down := TargetDown(exchanged, m.deinitOk);
    TrafficBeginsNothing(from, m.callbacks, |m.callbacks|);
    Grown(s.log, Exchange(from, m.callbacks), fd);
    Grown(exchanged.log, [TargetDeinit(m.deinitOk)], fd);
    UnservedTrans(s.log, exchanged.log, down.log, fd);
    CloseUnserved(down, from, fd);
    UnservedTrans(s.log, down.log, Closing(down, from).log, fd);
  }

  lemma ServeUnserved(cfg: Config, s: State, from: int, m: Message, fd: int)
    requires from != fd
    ensures Unserved(s.log, Served(cfg, s, from, m).log, fd)
  {
    var ensured, pending := Ensured(cfg, s, from, m), PendingOf(s.table, from);
    EnsureUnserved(cfg, s, from, m, fd);
    ProcessUnserved(ensured, from, pending, m, fd);
    UnservedTrans(s.log, ensured.log, Processed(ensured, from, pending, m).log, fd);
    Grown(s.log, [], fd);
  }

  lemma {:induction false} ServeAllUnserved(cfg: Config, s: State, polled: seq<PollFd>, messages: nat -> Message,
                                            n: nat, fd: int)
    requires n <= |polled| && Silent(polled, n, fd)
    ensures Unserved(s.log, ServedAll(cfg, s, polled, messages, n).log, fd)
  {
    if n > 0 {
      var before := ServedAll(cfg, s, polled, messages, n - 1);
      ServeAllUnserved(cfg, s, polled, messages, n - 1, fd);
      if polled[n - 1].pollin {
        ServeUnserved(cfg, before, polled[n - 1].fd, messages(n - 1), fd);
        UnservedTrans(s.log, before.log, ServedAll(cfg, s, polled, messages, n).log, fd);
      }
    }
  }

  lemma {:induction false} SweepUnserved(log: seq<Event>, t: Table, n: nat, clock: nat -> int, fd: int)
    requires n <= |t.slots|
    ensures Unserved(log, SweepLog(log, t, n, clock), fd)
  {
    if n > 0 {
      SweepUnserved(log, t, n - 1, clock, fd);
      UnservedTrans(log, SweepLog(log, t, n - 1, clock), SweepLog(log, t, n, clock), fd);
    }
  }

  lemma AdmitUnserved(cfg: Config, s: State, o: AcceptOutcome, now: int, fd: int)
    ensures Unserved(s.log, Admitting(cfg, s, o, now).log, fd)
  {
    var a := Answer(Fds(s.table), Handles(s.table), o);
    var answered := s.log + AcceptEvents(cfg.tls, a);
    var closing := CloseEvents(Granted(cfg.tls, a));
    Grown(s.log, AcceptEvents(cfg.tls, a), fd);
    Grown(answered, closing, fd);
    UnservedTrans(s.log, answered, answered + closing, fd);
  }

  lemma ArriveUnserved(cfg: Config, s: State, it: Iteration, fd: int)
    ensures Unserved(s.log, Expiring(Arrived(cfg, s, it), it.sweepClock).log, fd)
  {
    var arrived := Arrived(cfg, s, it);
    AdmitUnserved(cfg, s, it.accept, it.openTime, fd);
    Grown(s.log, [], fd);
    SweepUnserved(arrived.log, arrived.table, |arrived.table.slots|, it.sweepClock, fd);
    UnservedTrans(s.log, arrived.log, Expiring(arrived, it.sweepClock).log, fd);
  }

  /**
   Pending data alone does not get a session served: in the network part of a
   round no message of a descriptor without a poll event is processed, and its
   session keeps its whole slot, the pending flag included, unless the expiry
   sweep closes it.
   */
  lemma PendingIsNotServed(cfg: Config, s: State, it: Iteration, k: nat)
    requires Inv(s.table) && k < |s.table.slots| && s.table.slots[k].Open()
    requires NoEvent(s.table, it, s.table.slots[k].conn.sockfd)
    requires !Expired(s.table.slots[k], it.sweepClock(k))
    ensures |Networked(cfg, s, it).table.slots| == |s.table.slots|
    ensures Networked(cfg, s, it).table.slots[k] == s.table.slots[k]
    ensures Unserved(s.log, Networked(cfg, s, it).log, s.table.slots[k].conn.sockfd)
  {
    var fd, swept := s.table.slots[k].conn.sockfd, Expiring(Arrived(cfg, s, it), it.sweepClock);
    var attended := Attended(cfg, s.table, it);
    ArriveEffect(cfg, s, it);
    NoEventIsSilent(cfg, s.table, it, fd);
    SilentIsSkipped(cfg, swept, attended, it.messages, |attended|, k);
    ServeAllUnserved(cfg, swept, attended, it.messages, |attended|, fd);
    ArriveUnserved(cfg, s, it, fd);
    UnservedTrans(s.log, swept.log, Networked(cfg, s, it).log, fd);
  }

  /** The log has grown. */
  predicate Extends(before: seq<Event>, after: seq<Event>) {
    |before| <= |after| && after[..|before|] == before
  }

  lemma ExtendsTrans(a: seq<Event>, b: seq<Event>, c: seq<Event>)
    requires Extends(a, b) && Extends(b, c)
    ensures Extends(a, c)
  {
    assert c[..|a|] == c[..|b|][..|a|];
  }

  lemma BegunStaysBegun(a: seq<Event>, b: seq<Event>, c: seq<Event>, fd: int)
    requires Extends(a, b) && !Unserved(a, b, fd) && Extends(b, c)
    ensures !Unserved(a, c, fd)
  {
    var j :| |a| <= j < |b| && b[j] == ProcessBegin(fd);
    assert c[j] == c[..|b|][j];
  }

  lemma BegunLater(a: seq<Event>, b: seq<Event>, c: seq<Event>, fd: int)
    requires Extends(a, b) && Extends(b, c) && !Unserved(b, c, fd)
    ensures !Unserved(a, c, fd)
  {
    var j :| |b| <= j < |c| && c[j] == ProcessBegin(fd);
  }

  /** A message that is admitted is processed. */
  lemma AdmittedIsServed(cfg: Config, s: State, fd: int, m: Message)
    requires fd in Fds(s.table) && Admitted(cfg, s, fd, m)
    ensures Extends(s.log, Served(cfg, s, fd, m).log) && !Unserved(s.log, Served(cfg, s, fd, m).log, fd)
  {
    var ensured, pending := Ensured(cfg, s, fd, m), PendingOf(s.table, fd);
    var processed := Processed(ensured, fd, pending, m);
    EnsureUnserved(cfg, s, fd, m, fd);
    ProcessUnserved(ensured, fd, pending, m, fd + 1);
    var exchanged := ensured.log + Exchange(fd, m.callbacks);
    assert exchanged[|ensured.log|] == ProcessBegin(fd);
    ProcessKeepsExchange(ensured, fd, pending, m);
    assert processed.log[|ensured.log|] == processed.log[..|exchanged|][|ensured.log|];
    BegunLater(s.log, ensured.log, processed.log, fd);
    UnservedTrans(s.log, ensured.log, ensured.log, fd);
    assert Extends(s.log, processed.log) by {
      EnsureUnserved(cfg, s, fd, m, fd + 1);
      UnservedTrans(s.log, ensured.log, processed.log, fd + 1);
    }
  }

  lemma ProcessKeepsExchange(s: State, fd: int, pending: bool, m: Message)
    ensures Extends(s.log + Exchange(fd, m.callbacks), Processed(s, fd, pending, m).log)
  {
    var exchanged := s.Log(Exchange(fd, m.callbacks));
    var down := TargetDown(exchanged, m.deinitOk);
    Grown(exchanged.log, [TargetDeinit(m.deinitOk)], fd);
    CloseUnserved(down, fd, fd);
    UnservedTrans(exchanged.log, down.log, Closing(down, fd).log, fd);
  }

  lemma ServeExtends(cfg: Config, s: State, from: int, m: Message)
    ensures Extends(s.log, Served(cfg, s, from, m).log)
  {
    ServeUnserved(cfg, s, from, m, from + 1);
  }

  lemma {:induction false} ServeAllExtends(cfg: Config, s: State, polled: seq<PollFd>, messages: nat -> Message, n: nat)
    requires n <= |polled|
    ensures Extends(s.log, ServedAll(cfg, s, polled, messages, n).log)
  {
    if n > 0 {
      var before := ServedAll(cfg, s, polled, messages, n - 1);
      ServeAllExtends(cfg, s, polled, messages, n - 1);
      if polled[n - 1].pollin {
        var after := Served(cfg, before, polled[n - 1].fd, messages(n - 1));
        ServeExtends(cfg, before, polled[n - 1].fd, messages(n - 1));
        ExtendsTrans(s.log, before.log, after.log);
      }
    }
  }

  /** An event of a session that is admitted when its turn comes gets the message processed. */
  lemma {:induction false} EventIsServed(cfg: Config, s: State, polled: seq<PollFd>, messages: nat -> Message, n: nat,
                                         i: nat)
    requires i < n <= |polled| && polled[i].pollin
    requires var before := ServedAll(cfg, s, polled, messages, i);
      polled[i].fd in Fds(before.table) && Admitted(cfg, before, polled[i].fd, messages(i))
    ensures !Unserved(s.log, ServedAll(cfg, s, polled, messages, n).log, polled[i].fd)
    decreases n
  {
    var before := ServedAll(cfg, s, polled, messages, n - 1);
    ServeAllExtends(cfg, s, polled, messages, n - 1);
    if i == n - 1 {
      AdmittedIsServed(cfg, before, polled[i].fd, messages(i));
      BegunLater(s.log, before.log, ServedAll(cfg, s, polled, messages, n).log, polled[i].fd);
    } else {
      EventIsServed(cfg, s, polled, messages, n - 1, i);
      if polled[n - 1].pollin {
        ServeExtends(cfg, before, polled[n - 1].fd, messages(n - 1));
        BegunStaysBegun(s.log, before.log, ServedAll(cfg, s, polled, messages, n).log, polled[i].fd);
      }
    }
  }

  lemma {:induction false} HolderIsServed(cfg: Config, s: State, polled: seq<PollFd>, messages: nat -> Message, n: nat,
                                          fd: int)
    requires Inv(s.table) && AuthFd(s.table) == Some(fd) && n <= |polled|
    requires !Silent(polled, n, fd)
    ensures !Unserved(s.log, ServedAll(cfg, s, polled, messages, n).log, fd)
  {
    if Silent(polled, n - 1, fd) {
      var before := ServedAll(cfg, s, polled, messages, n - 1);
      StaysThroughBatch(cfg, s, polled, messages, n - 1, fd);
      ServeAllKeeps(cfg, s, polled, messages, n - 1);
      AuthIsOpen(before.table);
      EventIsServed(cfg, s, polled, messages, n, n - 1);
    } else {
      HolderIsServed(cfg, s, polled, messages, n - 1, fd);
      ServeAllExtends(cfg, s, polled, messages, n - 1);
      if polled[n - 1].pollin {
        var before := ServedAll(cfg, s, polled, messages, n - 1);
        ServeExtends(cfg, before, polled[n - 1].fd, messages(n - 1));
        BegunStaysBegun(s.log, before.log, ServedAll(cfg, s, polled, messages, n).log, fd);
      }
    }
  }

  /** A message of the client that holds the target is processed in a round exactly when poll marks its entry. */
  lemma HolderServedExactly(cfg: Config, s: State, it: Iteration, fd: int)
    requires Inv(s.table) && AuthFd(s.table) == Some(fd)
    ensures Unserved(s.log, Networked(cfg, s, it).log, fd) <==> NoEvent(s.table, it, fd)
  {
    var attended, swept := Attended(cfg, s.table, it), Expiring(Arrived(cfg, s, it), it.sweepClock);
    ArriveEffect(cfg, s, it);
    ArriveUnserved(cfg, s, it, fd);
    AuthIsOpen(s.table);
    if NoEvent(s.table, it, fd) {
      NoEventIsSilent(cfg, s.table, it, fd);
      ServeAllUnserved(cfg, swept, attended, it.messages, |attended|, fd);
      UnservedTrans(s.log, swept.log, Networked(cfg, s, it).log, fd);
    } else {
      EventIsAttended(cfg, s.table, it, fd);
      HolderIsServed(cfg, swept, attended, it.messages, |attended|, fd);
      ServeAllExtends(cfg, swept, attended, it.messages, |attended|);
      BegunLater(s.log, swept.log, Networked(cfg, s, it).log, fd);
    }
  }

  lemma EventIsAttended(cfg: Config, t: Table, it: Iteration, fd: int)
    requires !NoEvent(t, it, fd)
    ensures !Silent(Attended(cfg, t, it), |Attended(cfg, t, it)|, fd)
  {
    var fds := OpenFds(t.slots, |t.slots|);
    var i :| 0 <= i < |fds| && fds[i] == fd && ClientIndex(it) + i in it.ready;
    assert Attended(cfg, t, it)[i] == PollFd(fd, true);
  }

  // ---- Expired sessions ----

  /** A session past its deadline at the sweep is gone before any message is looked at. */
  lemma ExpiredIsGone(cfg: Config, s: State, it: Iteration, k: nat)
    requires Inv(s.table) && k < |s.table.slots| && Expired(s.table.slots[k], it.sweepClock(k))
    ensures s.table.slots[k].conn.sockfd !in Fds(Networked(cfg, s, it).table)
  {
    var arrived := Arrived(cfg, s, it);
    if HOST_FD_INDEX in it.ready {
      AdmitEffect(cfg, s, it.accept, it.openTime);
    }
    assert arrived.table.slots[k] == s.table.slots[k];
    SweptOut(arrived.table, it.sweepClock, k);
    var attended := Attended(cfg, s.table, it);
    ServeAllKeeps(cfg, Expiring(arrived, it.sweepClock), attended, it.messages, |attended|);
  }

  lemma SweptOut(t: Table, clock: nat -> int, k: nat)
    requires Inv(t) && k < |t.slots| && Expired(t.slots[k], clock(k))
    ensures Inv(Step(t, SweepOp(clock))) && t.slots[k].conn.sockfd !in Fds(Step(t, SweepOp(clock)))
  {
    var u := Step(t, SweepOp(clock));
    SweepEffect(t, clock);
    forall j | 0 <= j < |u.slots| && u.slots[j].Open()
      ensures u.slots[j].conn.sockfd != t.slots[k].conn.sockfd
    {
      assert u.slots[j] == SweptSlot(t.slots[j], clock(j));
    }
  }

  lemma NetworkOpens(cfg: Config, s: State, it: Iteration)
    requires Inv(s.table)
    ensures Inv(Networked(cfg, s, it).table)
    ensures Fds(Networked(cfg, s, it).table) <=
      Fds(s.table) + if Arrival(cfg, s.table, it).Some? then {Arrival(cfg, s.table, it).value.sockfd} else {}
  {
    var arrived := Arrived(cfg, s, it);
    if HOST_FD_INDEX in it.ready {
      AdmitEffect(cfg, s, it.accept, it.openTime);
    }
    SweepEffect(arrived.table, it.sweepClock);
    var attended := Attended(cfg, s.table, it);
    ServeAllKeeps(cfg, Expiring(arrived, it.sweepClock), attended, it.messages, |attended|);
  }

  /** A round opens no descriptor but that of a client which arrives in it. */
  lemma RoundOpens(cfg: Config, d: Timed, it: Iteration, fd: int)
    requires Inv(d.state.table) && fd !in Fds(d.state.table)
    requires Arrives(cfg, d, it) ==> Arrival(cfg, d.state.table, it).value.sockfd != fd
    ensures fd !in Fds(Round(cfg, d, it).state.table)
  {
    var checked := IdleChecked(cfg, d, it);
    IdleEffect(cfg, d, it);
    NetworkOpens(cfg, checked.state, it);
    PinEffect(Attentive(cfg, checked, it).state, it);
  }

  /** Round i, if it takes place, gives the descriptor number to no new client. */
  predicate NotGivenTo(cfg: Config, d: Timed, script: seq<Iteration>, fd: int, i: nat)
    requires i < |script|
  {
    var before := Before(cfg, d, script, i);
    Running(cfg, d, script, i) && Arrives(cfg, before, script[i]) ==>
      Arrival(cfg, before.state.table, script[i]).value.sockfd != fd
  }

  lemma GoneOneRound(cfg: Config, d: Timed, script: seq<Iteration>, fd: int, i: nat)
    requires Inv(d.state.table) && i < |script| && fd !in Fds(Before(cfg, d, script, i).state.table)
    requires NotGivenTo(cfg, d, script, fd, i)
    ensures fd !in Fds(Before(cfg, d, script, i + 1).state.table)
  {
    NextRound(cfg, d, script, i);
    RoundsInv(cfg, d, script[..i]);
    if Running(cfg, d, script, i) {
      RoundOpens(cfg, Before(cfg, d, script, i), script[i], fd);
    }
  }

  /** A closed descriptor stays closed for as long as no new client gets the same number. */
  lemma {:induction false} GoneStaysGone(cfg: Config, d: Timed, script: seq<Iteration>, fd: int, n: nat)
    requires Inv(d.state.table) && fd !in Fds(d.state.table) && n <= |script|
    requires forall i :: 0 <= i < n ==> NotGivenTo(cfg, d, script, fd, i)
    ensures fd !in Fds(Before(cfg, d, script, n).state.table)
  {
    if n == 0 {
      assert script[..0] == [];
    } else {
      GoneStaysGone(cfg, d, script, fd, n - 1);
      GoneOneRound(cfg, d, script, fd, n - 1);
    }
  }

  /**
   An unauthenticated client past its deadline at the sweep of a round never
   holds the target afterwards, over any number of rounds, unless its descriptor
   number is given to a new client.
   */
  lemma ExpiredNeverHolds(cfg: Config, d: Timed, it: Iteration, k: nat, script: seq<Iteration>, n: nat)
    requires Inv(d.state.table) && k < |d.state.table.slots| && Expired(d.state.table.slots[k], it.sweepClock(k))
    requires !TimesOut(cfg, d, it) && it.pollResult > 0 && n <= |script|
    requires forall i :: 0 <= i < n ==>
      NotGivenTo(cfg, Round(cfg, d, it), script, d.state.table.slots[k].conn.sockfd, i)
    ensures AuthFd(Before(cfg, Round(cfg, d, it), script, n).state.table) != Some(d.state.table.slots[k].conn.sockfd)
  {
    var checked := IdleChecked(cfg, d, it);
    IdleEffect(cfg, d, it);
    ExpiredIsGone(cfg, checked.state, it, k);
    NetworkInv(cfg, checked.state, it);
    PinEffect(Attentive(cfg, checked, it).state, it);
    RoundInv(cfg, d, it);
    GoneStaysGone(cfg, Round(cfg, d, it), script, d.state.table.slots[k].conn.sockfd, n);
    RoundsInv(cfg, Round(cfg, d, it), script[..n]);
    AuthIsOpen(Before(cfg, Round(cfg, d, it), script, n).state.table);
  }

  /** Accept comes before the sweep: a full table refuses the newcomer even when the sweep then empties the table. */
  lemma ExpiredStillTakeRoom(cfg: Config, s: State, it: Iteration)
    requires Inv(s.table) && HOST_FD_INDEX in it.ready
    requires forall k :: 0 <= k < |s.table.slots| ==> Expired(s.table.slots[k], it.sweepClock(k))
    ensures Arrival(cfg, s.table, it).None? && Fds(Expiring(Arrived(cfg, s, it), it.sweepClock).table) == {}
  {
    AdmitEffect(cfg, s, it.accept, it.openTime);
    SweepEffect(Arrived(cfg, s, it).table, it.sweepClock);
  }

  // ---- Lockouts and deadlines in a run ----

  /**
   With PAM, a message brings in a new client only when every lockout verdict of
   any earlier handshake of the run is at least 60 s old.
   */
  lemma NewClientWaitsForLockouts(cfg: Config, s: State, fd: int, m: Message, i: nat)
    requires !cfg.noAuth && AuthFd(s.table).None? && Admitted(cfg, s, fd, m)
    requires Lockout.InOrder(s.handshakes + [m.handshake]) && i < |s.handshakes|
    requires Lockout.Verdict(Lockout.After(cfg.maxFailures, s.handshakes[..i]), s.handshakes[i]).LockedOut?
    ensures m.handshake.checkTime >= s.handshakes[i].lockTime + Lockout.LOCKOUT_SECS
  {
    var run := s.handshakes + [m.handshake];
    assert run[..i] == s.handshakes[..i] && run[..|s.handshakes|] == s.handshakes;
    Lockout.SuccessWaitsForLockouts(cfg.maxFailures, run, i, |s.handshakes|);
  }

  lemma EnsureDeadlines(cfg: Config, s: State, fd: int, m: Message, now: int)
    requires Inv(s.table) && fd in Fds(s.table) && DeadlinesBy(s.table, now + SESSION_AUTH_EXPIRE_TIMEOUT)
    ensures DeadlinesBy(Ensured(cfg, s, fd, m).table, now + SESSION_AUTH_EXPIRE_TIMEOUT)
  {
    if AuthFd(s.table).None? {
      AuthEffect(s.table, fd);
      DeadlinesStep(s.table, AuthOp(fd), now);
    }
    DeadlinesStep(Joining(cfg, s, fd, m).table, CloseOp(fd), now);
  }

  lemma ServeDeadlines(cfg: Config, s: State, fd: int, m: Message, now: int)
    requires Inv(s.table) && DeadlinesBy(s.table, now + SESSION_AUTH_EXPIRE_TIMEOUT)
    ensures DeadlinesBy(Served(cfg, s, fd, m).table, now + SESSION_AUTH_EXPIRE_TIMEOUT)
  {
    if fd in Fds(s.table) {
      EnsureEffect(cfg, s, fd, m);
      EnsureDeadlines(cfg, s, fd, m, now);
      var u := Ensured(cfg, s, fd, m).table;
      DeadlinesStep(u, CloseOp(fd), now);
      DeadlinesStep(u, PendingOp(fd, PendingAfter(PendingOf(s.table, fd), m.callbacks, |m.callbacks|)), now);
    }
  }

  lemma {:induction false} ServeAllDeadlines(cfg: Config, s: State, polled: seq<PollFd>, messages: nat -> Message,
                                             n: nat, now: int)
    requires Inv(s.table) && n <= |polled| && DeadlinesBy(s.table, now + SESSION_AUTH_EXPIRE_TIMEOUT)
    ensures DeadlinesBy(ServedAll(cfg, s, polled, messages, n).table, now + SESSION_AUTH_EXPIRE_TIMEOUT)
  {
    if n > 0 {
      var before := ServedAll(cfg, s, polled, messages, n - 1);
      ServeAllDeadlines(cfg, s, polled, messages, n - 1, now);
      if polled[n - 1].pollin {
        ServeAllKeeps(cfg, s, polled, messages, n - 1);
        ServeDeadlines(cfg, before, polled[n - 1].fd, messages(n - 1), now);
      } else {
        assert ServedAll(cfg, s, polled, messages, n) == before;
      }
    }
  }

  lemma DisconnectDeadlines(s: State, deinitOk: bool, latest: int)
    requires Inv(s.table) && DeadlinesBy(s.table, latest)
    ensures DeadlinesBy(Disconnected(s, deinitOk).table, latest)
  {
  }

  lemma NetworkDeadlines(cfg: Config, s: State, it: Iteration, now: int)
    requires Inv(s.table) && DeadlinesBy(s.table, now + SESSION_AUTH_EXPIRE_TIMEOUT) && it.openTime <= now
    ensures DeadlinesBy(Networked(cfg, s, it).table, now + SESSION_AUTH_EXPIRE_TIMEOUT)
  {
    var latest := now + SESSION_AUTH_EXPIRE_TIMEOUT;
    var arrived := Arrived(cfg, s, it);
    if HOST_FD_INDEX in it.ready {
      AdmitEffect(cfg, s, it.accept, it.openTime);
    }
    assert DeadlinesBy(arrived.table, latest);
    DeadlinesSwept(arrived.table, it.sweepClock, latest);
    ArriveEffect(cfg, s, it);
    var attended := Attended(cfg, s.table, it);
    ServeAllDeadlines(cfg, Expiring(arrived, it.sweepClock), attended, it.messages, |attended|, now);
  }

  lemma RoundDeadlines(cfg: Config, d: Timed, it: Iteration, now: int)
    requires Inv(d.state.table) && DeadlinesBy(d.state.table, now + SESSION_AUTH_EXPIRE_TIMEOUT) && it.openTime <= now
    ensures DeadlinesBy(Round(cfg, d, it).state.table, now + SESSION_AUTH_EXPIRE_TIMEOUT)
  {
    var latest := now + SESSION_AUTH_EXPIRE_TIMEOUT;
    IdleEffect(cfg, d, it);
    if TimesOut(cfg, d, it) {
      DisconnectDeadlines(IdleWarned(cfg, d, it).state.Log([IdleTimeout]), it.idleDeinitOk, latest);
    } else if it.pollResult != -1 {
      var checked := IdleChecked(cfg, d, it);
      NetworkInv(cfg, checked.state, it);
      NetworkDeadlines(cfg, checked.state, it, now);
      var served := Attentive(cfg, checked, it).state;
      ReplyEffect(served, |it.pinReplies|);
      DisconnectDeadlines(Replied(served, |it.pinReplies|), it.pinDeinitOk, latest);
    }
  }

  /**
   At every moment of a run the deadlines lie at most 15 s past the clock, which
   is what the 15 s bound on the timeout of session_getfds assumes.
   */
  lemma RunOpenedBefore(cfg: Config, n: nat, start: TimeVal, script: seq<Iteration>, now: int, clock: nat -> int)
    requires forall i :: 0 <= i < |script| ==> script[i].openTime <= now
    requires forall k :: now <= clock(k)
    ensures OpenedBefore(Rounds(cfg, Start(n, start), script).0.state.table.slots, clock)
  {
    RunDeadlines(cfg, n, start, script, now);
  }

  lemma {:induction false} RunDeadlines(cfg: Config, n: nat, start: TimeVal, script: seq<Iteration>, now: int)
    requires forall i :: 0 <= i < |script| ==> script[i].openTime <= now
    ensures Inv(Rounds(cfg, Start(n, start), script).0.state.table)
    ensures DeadlinesBy(Rounds(cfg, Start(n, start), script).0.state.table, now + SESSION_AUTH_EXPIRE_TIMEOUT)
    decreases |script|
  {
    InitialInv(n);
    RoundsInv(cfg, Start(n, start), script);
    if script != [] {
      var init := script[..|script| - 1];
      RunDeadlines(cfg, n, start, init, now);
      RoundDeadlines(cfg, Rounds(cfg, Start(n, start), init).0, script[|script| - 1], now);
    }
  }
}
