/**
 Whom the idle timer watches. It looks only while the connected flag is set, and
 that flag belongs to the daemon, not to the client that holds the target: every
 new client sets it and every attempt to deinitialise the target clears it.
 */
module Watching {
  import opened Basics
  import opened SessionTable
  import opened Protocol
  import opened Network
  import opened Session
  import opened IdleTimer
  import opened Behaviour
  import opened Runs

  function Deinits(log: seq<Event>): nat {
    if log == [] then 0
    else Deinits(log[..|log| - 1]) + if log[|log| - 1].TargetDeinit? then 1 else 0
  }

  /** The target's deinitialisation was attempted at or after event `from`. */
  predicate DeinitSince(log: seq<Event>, from: nat) {
    exists j :: from <= j < |log| && log[j].TargetDeinit?
  }

  lemma {:induction false} DeinitsAppend(a: seq<Event>, b: seq<Event>)
    ensures Deinits(a + b) == Deinits(a) + Deinits(b)
    decreases |b|
  {
    if b == [] {
      assert a + b == a;
    } else {
      var init := b[..|b| - 1];
      DeinitsAppend(a, init);
      assert (a + b)[..|a + b| - 1] == a + init;
    }
  }

  lemma {:induction false} NoDeinits(log: seq<Event>)
    ensures Deinits(log) == 0 <==> forall j :: 0 <= j < |log| ==> !log[j].TargetDeinit?
  {
    if log != [] {
      var init := log[..|log| - 1];
      NoDeinits(init);
      assert forall j :: 0 <= j < |init| ==> init[j] == log[j];
    }
  }

  lemma DeinitsCount(before: seq<Event>, after: seq<Event>)
    requires Extends(before, after)
    ensures Deinits(before) <= Deinits(after)
    ensures Deinits(after) == Deinits(before) <==> !DeinitSince(after, |before|)
  {
    var added := after[|before|..];
    assert after == before + added;
    DeinitsAppend(before, added);
    NoDeinits(added);
    assert forall j :: |before| <= j < |after| ==> after[j] == added[j - |before|];
    if forall j :: 0 <= j < |added| ==> !added[j].TargetDeinit? {
    } else {
      var j :| 0 <= j < |added| && added[j].TargetDeinit?;
      assert after[|before| + j].TargetDeinit?;
    }
  }

  // ---- What each operation does to the flag ----

  /** The log has grown, and the flag is still set exactly if it was and no deinit was attempted. */
  predicate Follows(s: State, u: State) {
    && Extends(s.log, u.log) && Deinits(s.log) <= Deinits(u.log)
    && (u.connected <==> s.connected && Deinits(u.log) == Deinits(s.log))
  }

  lemma FollowsTrans(s: State, u: State, v: State)
    requires Follows(s, u) && Follows(u, v)
    ensures Follows(s, v)
  {
    ExtendsTrans(s.log, u.log, v.log);
  }

  /** Events other than deinit attempts leave the flag as it is. */
  lemma LogFollows(s: State, u: State, events: seq<Event>)
    requires u.connected == s.connected && u.log == s.log + events
    requires forall j :: 0 <= j < |events| ==> !events[j].TargetDeinit?
    ensures Follows(s, u) && Deinits(u.log) == Deinits(s.log)
  {
    DeinitsAppend(s.log, events);
    NoDeinits(events);
  }

  lemma DownFollows(s: State, deinitOk: bool)
    ensures Follows(s, TargetDown(s, deinitOk)) && Deinits(TargetDown(s, deinitOk).log) == Deinits(s.log) + 1
  {
    DeinitsAppend(s.log, [TargetDeinit(deinitOk)]);
    assert [TargetDeinit(deinitOk)][..0] == [];
  }

  lemma CloseFollows(s: State, fd: int)
    ensures Follows(s, Closing(s, fd))
  {
    LogFollows(s, Closing(s, fd), ClosingEvents(s.table, fd));
  }

  lemma JoinFollows(s: State, fd: int, m: Message)
    ensures Follows(s, Joined(s, fd, m))
  {
    var authed := s.(table := Step(s.table, AuthOp(fd)), log := s.log + [Authenticated(fd)]);
    var tried := authed.Log([TargetInit(m.initOk)]);
    LogFollows(s, authed, [Authenticated(fd)]);
    LogFollows(authed, tried, [TargetInit(m.initOk)]);
    FollowsTrans(s, authed, tried);
    DownFollows(tried, m.deinitOk);
    FollowsTrans(s, tried, TargetDown(tried, m.deinitOk));
  }

  lemma EnsureFollows(cfg: Config, s: State, fd: int, m: Message)
    ensures Follows(s, Ensured(cfg, s, fd, m))
  {
    var shaken, joining := Shaken(cfg, s, m), Joining(cfg, s, fd, m);
    LogFollows(s, s, []);
    LogFollows(s, shaken, []);
    JoinFollows(shaken, fd, m);
    FollowsTrans(s, shaken, Joined(shaken, fd, m));
    CloseFollows(joining, fd);
    FollowsTrans(s, joining, Closing(joining, fd));
  }

  lemma {:induction false} TrafficDeinitsNothing(fd: int, callbacks: seq<Callback>, n: nat)
    requires n <= |callbacks|
    ensures forall j :: 0 <= j < |Traffic(fd, callbacks, n)| ==> !Traffic(fd, callbacks, n)[j].TargetDeinit?
  {
    if n > 0 {
      TrafficDeinitsNothing(fd, callbacks, n - 1);
    }
  }

  lemma ProcessFollows(s: State, fd: int, pending: bool, m: Message)
    ensures Follows(s, Processed(s, fd, pending, m))
    ensures !m.processOk ==> !Processed(s, fd, pending, m).connected
  {
    var exchanged := s.Log(Exchange(fd, m.callbacks));
    var down := TargetDown(exchanged, m.deinitOk);
    TrafficDeinitsNothing(fd, m.callbacks, |m.callbacks|);
    if m.processOk {
      LogFollows(s, Processed(s, fd, pending, m), Exchange(fd, m.callbacks));
    } else {
      LogFollows(s, exchanged, Exchange(fd, m.callbacks));
      DownFollows(exchanged, m.deinitOk);
      FollowsTrans(s, exchanged, down);
      CloseFollows(down, fd);
      FollowsTrans(s, down, Closing(down, fd));
    }
  }

  lemma ServeFollows(cfg: Config, s: State, fd: int, m: Message)
    ensures Follows(s, Served(cfg, s, fd, m))
  {
    var ensured, pending := Ensured(cfg, s, fd, m), PendingOf(s.table, fd);
    LogFollows(s, s, []);
    EnsureFollows(cfg, s, fd, m);
    ProcessFollows(ensured, fd, pending, m);
    FollowsTrans(s, ensured, Processed(ensured, fd, pending, m));
  }

  lemma {:induction false} ServeAllFollows(cfg: Config, s: State, polled: seq<PollFd>, messages: nat -> Message, n: nat)
    requires n <= |polled|
    ensures Follows(s, ServedAll(cfg, s, polled, messages, n))
  {
    if n == 0 {
      LogFollows(s, s, []);
    } else {
      var before := ServedAll(cfg, s, polled, messages, n - 1);
      ServeAllFollows(cfg, s, polled, messages, n - 1);
      if polled[n - 1].pollin {
        ServeFollows(cfg, before, polled[n - 1].fd, messages(n - 1));
        FollowsTrans(s, before, Served(cfg, before, polled[n - 1].fd, messages(n - 1)));
      } else {
        assert ServedAll(cfg, s, polled, messages, n) == before;
      }
    }
  }

  lemma {:induction false} SweepFollows(s: State, t: Table, n: nat, clock: nat -> int)
    requires n <= |t.slots|
    ensures Follows(s, s.(log := SweepLog(s.log, t, n, clock)))
    ensures Deinits(SweepLog(s.log, t, n, clock)) == Deinits(s.log)
  {
    if n == 0 {
      LogFollows(s, s, []);
    } else {
      SweepFollows(s, t, n - 1, clock);
      var before := s.(log := SweepLog(s.log, t, n - 1, clock));
      var after := s.(log := SweepLog(s.log, t, n, clock));
      var slot := Swept(t, n - 1, clock).slots[n - 1];
      if Expired(slot, clock(n - 1)) {
        LogFollows(before, after, CloseEvents(slot.conn));
        FollowsTrans(s, before, after);
      }
    }
  }

  lemma AdmitDeinits(cfg: Config, s: State, o: AcceptOutcome, now: int)
    ensures var u := Admitting(cfg, s, o, now);
      && Extends(s.log, u.log) && Deinits(u.log) == Deinits(s.log)
      && (u.connected <==> s.connected || Newcomer(cfg, s.table, o).Some?)
  {
    var a := Answer(Fds(s.table), Handles(s.table), o);
    var answered := s.Log(AcceptEvents(cfg.tls, a));
    AcceptFollows(cfg, s, a);
    if Newcomer(cfg, s.table, o).None? && Accepts(cfg.tls, a) {
      var closed := answered.Log(CloseEvents(Granted(cfg.tls, a)));
      LogFollows(answered, closed, CloseEvents(Granted(cfg.tls, a)));
      FollowsTrans(s, answered, closed);
    }
  }

  lemma AcceptFollows(cfg: Config, s: State, a: AcceptOutcome)
    ensures var answered := s.Log(AcceptEvents(cfg.tls, a));
      Follows(s, answered) && Deinits(answered.log) == Deinits(s.log)
  {
    LogFollows(s, s.Log(AcceptEvents(cfg.tls, a)), AcceptEvents(cfg.tls, a));
  }

  /** Accept and expiry attempt no deinit, and a new client sets the flag. */
  lemma ArriveDeinits(cfg: Config, s: State, it: Iteration)
    ensures var u := Expiring(Arrived(cfg, s, it), it.sweepClock);
      && Extends(s.log, u.log) && Deinits(u.log) == Deinits(s.log)
      && (u.connected <==> s.connected || Arrival(cfg, s.table, it).Some?)
  {
    var arrived := Arrived(cfg, s, it);
    LogFollows(s, s, []);
    AdmitDeinits(cfg, s, it.accept, it.openTime);
    SweepFollows(arrived, arrived.table, |arrived.table.slots|, it.sweepClock);
    ExtendsTrans(s.log, arrived.log, Expiring(arrived, it.sweepClock).log);
  }

  lemma DisconnectFollows(s: State, deinitOk: bool)
    ensures Follows(s, Disconnected(s, deinitOk))
  {
    LogFollows(s, s, []);
    if AuthFd(s.table).Some? {
      var down := TargetDown(s, deinitOk);
      DownFollows(s, deinitOk);
      CloseFollows(down, AuthFd(s.table).value);
      FollowsTrans(s, down, Closing(down, AuthFd(s.table).value));
    }
  }

  lemma {:induction false} ReplyFollows(s: State, n: nat)
    ensures Follows(s, Replied(s, n))
  {
    if n == 0 {
      LogFollows(s, s, []);
    } else {
      var before := Replied(s, n - 1);
      ReplyFollows(s, n - 1);
      if AuthFd(s.table).Some? {
        LogFollows(before, Replied(s, n), [Reply(AuthFd(s.table).value)]);
        FollowsTrans(s, before, Replied(s, n));
      }
    }
  }

  lemma PinFollows(s: State, it: Iteration)
    ensures Follows(s, Pinned(s, it))
  {
    var replied := Replied(s, |it.pinReplies|);
    LogFollows(s, s, []);
    ReplyFollows(s, |it.pinReplies|);
    DisconnectFollows(replied, it.pinDeinitOk);
    FollowsTrans(s, replied, Disconnected(replied, it.pinDeinitOk));
  }

  lemma IdleFollows(cfg: Config, d: Timed, it: Iteration)
    ensures Follows(d.state, IdleChecked(cfg, d, it).state)
    ensures !TimesOut(cfg, d, it) ==> Deinits(IdleChecked(cfg, d, it).state.log) == Deinits(d.state.log)
  {
    var warned := IdleWarned(cfg, d, it).state;
    LogFollows(d.state, d.state, []);
    LogFollows(d.state, d.state.Log([IdleWarning]), [IdleWarning]);
    if TimesOut(cfg, d, it) {
      var late := warned.Log([IdleTimeout]);
      LogFollows(warned, late, [IdleTimeout]);
      FollowsTrans(d.state, warned, late);
      DisconnectFollows(late, it.idleDeinitOk);
      var gone := Disconnected(late, it.idleDeinitOk);
      FollowsTrans(d.state, late, gone);
      LogFollows(gone, gone.Log([Activity]), [Activity]);
      FollowsTrans(d.state, gone, gone.Log([Activity]));
    }
  }

  // ---- Rounds ----

  /** The flag after a round: set before it or by an arrival in it, and no deinit attempted since. */
  predicate RoundFollows(before: State, after: State, arrives: bool) {
    && Extends(before.log, after.log) && Deinits(before.log) <= Deinits(after.log)
    && (after.connected <==> (before.connected || arrives) && Deinits(after.log) == Deinits(before.log))
  }

  lemma NetworkFollows(cfg: Config, s: State, it: Iteration)
    ensures RoundFollows(s, Networked(cfg, s, it), Arrival(cfg, s.table, it).Some?)
  {
    var swept, attended := Expiring(Arrived(cfg, s, it), it.sweepClock), Attended(cfg, s.table, it);
    var u := Networked(cfg, s, it);
    ArriveDeinits(cfg, s, it);
    ServeAllFollows(cfg, swept, attended, it.messages, |attended|);
    assert u.log[..|s.log|] == u.log[..|swept.log|][..|s.log|];
  }

  lemma AttentiveFollows(cfg: Config, d: Timed, it: Iteration)
    ensures RoundFollows(d.state, Attentive(cfg, d, it).state,
      it.pollResult > 0 && Arrival(cfg, d.state.table, it).Some?)
  {
    LogFollows(d.state, d.state, []);
    if it.pollResult > 0 {
      var u := Networked(cfg, d.state, it);
      NetworkFollows(cfg, d.state, it);
      LogFollows(u, u.Log([Activity]), [Activity]);
      assert u.Log([Activity]).log[..|d.state.log|] == u.log[..|d.state.log|];
    }
  }

  lemma RoundFollowsTrans(s: State, t: State, u: State, v: State, arrives: bool)
    requires Follows(s, t) && Deinits(s.log) == Deinits(t.log) && RoundFollows(t, u, arrives) && Follows(u, v)
    ensures RoundFollows(s, v, arrives)
  {
    assert v.log[..|s.log|] == v.log[..|u.log|][..|t.log|][..|s.log|];
  }

  lemma RoundCounts(cfg: Config, d: Timed, it: Iteration)
    ensures RoundFollows(d.state, Round(cfg, d, it).state, Arrives(cfg, d, it))
  {
    var checked := IdleChecked(cfg, d, it);
    IdleFollows(cfg, d, it);
    if !TimesOut(cfg, d, it) && it.pollResult != -1 {
      var served := Attentive(cfg, checked, it).state;
      AttentiveFollows(cfg, checked, it);
      PinFollows(served, it);
      RoundFollowsTrans(d.state, checked.state, served, Pinned(served, it), Arrives(cfg, d, it));
    }
  }

  /**
   After a round the connected flag is set exactly when it was set before or a
   client arrived, and the round attempted no deinit.
   */
  lemma ConnectedExactly(cfg: Config, d: Timed, it: Iteration)
    ensures var log := Round(cfg, d, it).state.log;
      && Extends(d.state.log, log)
      && (Round(cfg, d, it).state.connected <==>
           (d.state.connected || Arrives(cfg, d, it)) && !DeinitSince(log, |d.state.log|))
  {
    RoundCounts(cfg, d, it);
    DeinitsCount(d.state.log, Round(cfg, d, it).state.log);
  }

  // ---- Runs ----

  /** Round i takes place and brings a new client, and until round n no deinit is attempted. */
  predicate WatchedFrom(cfg: Config, d: Timed, script: seq<Iteration>, i: nat, n: nat)
    requires i < n <= |script|
  {
    && Running(cfg, d, script, i) && Arrives(cfg, Before(cfg, d, script, i), script[i])
    && !DeinitSince(Before(cfg, d, script, n).state.log, |Before(cfg, d, script, i).state.log|)
  }

  /** The counting form of the same. */
  predicate CountedFrom(cfg: Config, d: Timed, script: seq<Iteration>, i: nat, n: nat)
    requires i < n <= |script|
  {
    && Running(cfg, d, script, i) && Arrives(cfg, Before(cfg, d, script, i), script[i])
    && Deinits(Before(cfg, d, script, n).state.log) == Deinits(Before(cfg, d, script, i).state.log)
  }

  lemma LogGrowsOnce(cfg: Config, d: Timed, script: seq<Iteration>, m: nat)
    requires m < |script|
    ensures Extends(Before(cfg, d, script, m).state.log, Before(cfg, d, script, m + 1).state.log)
    ensures Deinits(Before(cfg, d, script, m).state.log) <= Deinits(Before(cfg, d, script, m + 1).state.log)
  {
    NextRound(cfg, d, script, m);
    RoundCounts(cfg, Before(cfg, d, script, m), script[m]);
  }

  lemma {:induction false} LogGrows(cfg: Config, d: Timed, script: seq<Iteration>, i: nat, n: nat)
    requires i <= n <= |script|
    ensures Extends(Before(cfg, d, script, i).state.log, Before(cfg, d, script, n).state.log)
    ensures Deinits(Before(cfg, d, script, i).state.log) <= Deinits(Before(cfg, d, script, n).state.log)
  {
    if i < n {
      LogGrows(cfg, d, script, i, n - 1);
      LogGrowsOnce(cfg, d, script, n - 1);
      ExtendsTrans(Before(cfg, d, script, i).state.log, Before(cfg, d, script, n - 1).state.log,
        Before(cfg, d, script, n).state.log);
    }
  }

  predicate SameDeinits(cfg: Config, d: Timed, script: seq<Iteration>, i: nat, n: nat)
    requires i <= n <= |script|
  {
    Deinits(Before(cfg, d, script, n).state.log) == Deinits(Before(cfg, d, script, i).state.log)
  }

  lemma CountedOn(cfg: Config, d: Timed, script: seq<Iteration>, i: nat, m: nat)
    requires i < m < |script|
    ensures CountedFrom(cfg, d, script, i, m + 1) <==>
      CountedFrom(cfg, d, script, i, m) && SameDeinits(cfg, d, script, m, m + 1)
  {
    LogGrows(cfg, d, script, i, m);
    LogGrows(cfg, d, script, m, m + 1);
  }

  lemma FlagNext(cfg: Config, d: Timed, script: seq<Iteration>, m: nat)
    requires m < |script|
    ensures Before(cfg, d, script, m + 1).state.connected <==>
      (Before(cfg, d, script, m).state.connected && SameDeinits(cfg, d, script, m, m + 1)) ||
      CountedFrom(cfg, d, script, m, m + 1)
  {
    NextRound(cfg, d, script, m);
    RoundCounts(cfg, Before(cfg, d, script, m), script[m]);
  }

  lemma {:induction false} WatchedCounted(cfg: Config, d: Timed, script: seq<Iteration>, n: nat)
    requires !d.state.connected && n <= |script|
    ensures Before(cfg, d, script, n).state.connected <==> exists i :: 0 <= i < n && CountedFrom(cfg, d, script, i, n)
  {
    if n == 0 {
      assert script[..0] == [];
    } else {
      var m := n - 1;
      WatchedCounted(cfg, d, script, m);
      FlagNext(cfg, d, script, m);
      if i :| 0 <= i < m && CountedFrom(cfg, d, script, i, m) {
        CountedOn(cfg, d, script, i, m);
      }
      if i :| 0 <= i < m && CountedFrom(cfg, d, script, i, n) {
        CountedOn(cfg, d, script, i, m);
      }
    }
  }

  /**
   Over any number of rounds from the start, the flag is set, and so the idle
   timer watches, exactly when some client has arrived and no deinit has been
   attempted since.
   */
  lemma WatchedExactly(cfg: Config, slots: nat, start: TimeVal, script: seq<Iteration>, n: nat)
    requires n <= |script|
    ensures Before(cfg, Start(slots, start), script, n).state.connected <==>
      exists i :: 0 <= i < n && WatchedFrom(cfg, Start(slots, start), script, i, n)
  {
    var d := Start(slots, start);
    WatchedCounted(cfg, d, script, n);
    forall i | 0 <= i < n
      ensures WatchedFrom(cfg, d, script, i, n) <==> CountedFrom(cfg, d, script, i, n)
    {
      LogGrows(cfg, d, script, i, n);
      DeinitsCount(Before(cfg, d, script, i).state.log, Before(cfg, d, script, n).state.log);
    }
  }

  // ---- The idle holder ----

  /** Nothing happens in the round: no poll event and no pin failure. */
  predicate Quiet(it: Iteration) {
    it.pollResult == 0 && (NumGpios(it) > 0 ==> it.pinsOk)
  }

  lemma QuietRound(cfg: Config, d: Timed, it: Iteration)
    requires Quiet(it) && !TimesOut(cfg, d, it)
    ensures var e := Round(cfg, d, it);
      e.state.table == d.state.table && e.state.connected == d.state.connected && e.last == d.last
  {
    ReplyEffect(IdleChecked(cfg, d, it).state, |it.pinReplies|);
  }

  lemma {:induction false} QuietRounds(cfg: Config, d: Timed, script: seq<Iteration>, m: nat, n: nat)
    requires m <= n <= |script|
    requires forall i :: m <= i < n ==>
      Quiet(script[i]) && ElapsedMs(Before(cfg, d, script, m).last, script[i].now) <= cfg.idleTimeout
    ensures var e, f := Before(cfg, d, script, m), Before(cfg, d, script, n);
      f.state.table == e.state.table && f.state.connected == e.state.connected && f.last == e.last
  {
    if m < n {
      QuietRounds(cfg, d, script, m, n - 1);
      NextRound(cfg, d, script, n - 1);
      if Running(cfg, d, script, n - 1) {
        QuietRound(cfg, Before(cfg, d, script, n - 1), script[n - 1]);
      }
    }
  }

  /**
   Exactly when an idle client loses the target. From round m on nothing happens,
   and no round before n exceeds the limit. In round n the client is timed out iff
   the timer is enabled, some client had arrived before round m with no deinit
   attempted since, and the limit is exceeded; and it is disconnected iff moreover
   the deinit then succeeds.
   */
  lemma IdleHolderTimesOut(cfg: Config, slots: nat, start: TimeVal, script: seq<Iteration>, m: nat, n: nat, fd: int)
    requires m <= n < |script| && Running(cfg, Start(slots, start), script, n)
    requires AuthFd(Before(cfg, Start(slots, start), script, m).state.table) == Some(fd)
    requires forall i :: m <= i < n ==>
      Quiet(script[i]) &&
      ElapsedMs(Before(cfg, Start(slots, start), script, m).last, script[i].now) <= cfg.idleTimeout
    requires Quiet(script[n])
    ensures var d := Start(slots, start);
      var due := cfg.idleEnabled && (exists i :: 0 <= i < m && WatchedFrom(cfg, d, script, i, m)) &&
        ElapsedMs(Before(cfg, d, script, m).last, script[n].now) > cfg.idleTimeout;
      && (TimesOut(cfg, Before(cfg, d, script, n), script[n]) <==> due)
      && (AuthFd(Before(cfg, d, script, n + 1).state.table) != Some(fd) <==> due && script[n].idleDeinitOk)
  {
    var d := Start(slots, start);
    QuietRounds(cfg, d, script, m, n);
    WatchedExactly(cfg, slots, start, script, m);
    NextRound(cfg, d, script, n);
    InitialInv(slots);
    RoundsInv(cfg, d, script[..n]);
    StaysThroughRound(cfg, Before(cfg, d, script, n), script[n], fd);
  }

  // ---- What the idle time is counted from ----

  /** A round with events that leaves the flag set restarts the timer at its own clock reading. */
  lemma ActivityRestarts(cfg: Config, d: Timed, it: Iteration)
    requires !TimesOut(cfg, d, it) && it.pollResult > 0 && Round(cfg, d, it).state.connected
    ensures Round(cfg, d, it).last == it.activity && !Round(cfg, d, it).warned
  {
    PinFollows(Attentive(cfg, IdleChecked(cfg, d, it), it).state, it);
  }

  /** The round takes place and restarts the timer at this clock reading. */
  predicate Restarts(cfg: Config, d: Timed, it: Iteration, reading: TimeVal) {
    if TimesOut(cfg, d, it) then reading == it.restart else it.pollResult > 0 && reading == it.activity
  }

  lemma RestartedAt(cfg: Config, d: Timed, it: Iteration, reading: TimeVal)
    requires Restarts(cfg, d, it, reading) && Round(cfg, d, it).state.connected
    ensures Round(cfg, d, it).last == reading && !Round(cfg, d, it).warned
  {
    if !TimesOut(cfg, d, it) {
      ActivityRestarts(cfg, d, it);
    }
  }

  /**
   The idle time is counted from the last activity, in the script's own readings.
   Round i had events, or timed out, and left the flag set; since then nothing
   happened and no round exceeded the limit. Then round n times out iff the timer
   is enabled and its clock is past the limit counted from round i's reading.
   */
  lemma IdleSinceActivity(cfg: Config, d: Timed, script: seq<Iteration>, i: nat, n: nat, reading: TimeVal)
    requires i < n < |script| && Running(cfg, d, script, i) && Running(cfg, d, script, n)
    requires Restarts(cfg, Before(cfg, d, script, i), script[i], reading)
    requires Before(cfg, d, script, i + 1).state.connected
    requires forall k :: i < k < n ==> Quiet(script[k]) && ElapsedMs(reading, script[k].now) <= cfg.idleTimeout
    ensures TimesOut(cfg, Before(cfg, d, script, n), script[n]) <==>
      cfg.idleEnabled && ElapsedMs(reading, script[n].now) > cfg.idleTimeout
  {
    NextRound(cfg, d, script, i);
    RestartedAt(cfg, Before(cfg, d, script, i), script[i], reading);
    QuietRounds(cfg, d, script, i + 1, n);
  }

  /** Whether the warning is out after a quiet round: it was, or the round's clock is past the warning time. */
  lemma QuietWarning(cfg: Config, d: Timed, it: Iteration)
    requires Quiet(it) && !TimesOut(cfg, d, it) && d.state.connected && cfg.idleEnabled
    ensures Round(cfg, d, it).warned <==> d.warned || ElapsedMs(d.last, it.now) > WarningTime(cfg.idleTimeout)
  {
  }

  /** Some round from m to n is past the warning time, counted from this reading. */
  predicate PastWarning(cfg: Config, script: seq<Iteration>, reading: TimeVal, m: nat, n: nat)
    requires n <= |script|
  {
    exists k :: m <= k < n && ElapsedMs(reading, script[k].now) > WarningTime(cfg.idleTimeout)
  }

  lemma PastWarningNext(cfg: Config, script: seq<Iteration>, reading: TimeVal, m: nat, n: nat)
    requires m <= n < |script|
    ensures PastWarning(cfg, script, reading, m, n + 1) <==>
      PastWarning(cfg, script, reading, m, n) ||
      ElapsedMs(reading, script[n].now) > WarningTime(cfg.idleTimeout)
  {
  }

  lemma {:induction false} QuietWarnings(cfg: Config, d: Timed, script: seq<Iteration>, m: nat, n: nat)
    requires m <= n < |script| && Running(cfg, d, script, n) && cfg.idleEnabled
    requires Before(cfg, d, script, m).state.connected && !Before(cfg, d, script, m).warned
    requires forall k :: m <= k < n ==>
      Quiet(script[k]) && ElapsedMs(Before(cfg, d, script, m).last, script[k].now) <= cfg.idleTimeout
    ensures Before(cfg, d, script, n).warned <==> PastWarning(cfg, script, Before(cfg, d, script, m).last, m, n)
  {
    if m < n {
      RunningEarlier(cfg, d, script, n - 1);
      QuietWarnings(cfg, d, script, m, n - 1);
      QuietRounds(cfg, d, script, m, n - 1);
      NextWarning(cfg, d, script, n - 1);
      PastWarningNext(cfg, script, Before(cfg, d, script, m).last, m, n - 1);
    }
  }

  lemma NextWarning(cfg: Config, d: Timed, script: seq<Iteration>, i: nat)
    requires i < |script| && Running(cfg, d, script, i) && cfg.idleEnabled
    requires Quiet(script[i]) && Before(cfg, d, script, i).state.connected
    requires ElapsedMs(Before(cfg, d, script, i).last, script[i].now) <= cfg.idleTimeout
    ensures Before(cfg, d, script, i + 1).warned <==>
      Before(cfg, d, script, i).warned ||
      ElapsedMs(Before(cfg, d, script, i).last, script[i].now) > WarningTime(cfg.idleTimeout)
  {
    NextRound(cfg, d, script, i);
    QuietWarning(cfg, Before(cfg, d, script, i), script[i]);
  }

  /** Under the same conditions the warning is sent in the first round past nine tenths of the limit, and then only. */
  lemma WarnedSinceActivity(cfg: Config, d: Timed, script: seq<Iteration>, i: nat, n: nat, reading: TimeVal)
    requires i < n < |script| && Running(cfg, d, script, i) && Running(cfg, d, script, n) && cfg.idleEnabled
    requires Restarts(cfg, Before(cfg, d, script, i), script[i], reading)
    requires Before(cfg, d, script, i + 1).state.connected
    requires forall k :: i < k < n ==> Quiet(script[k]) && ElapsedMs(reading, script[k].now) <= cfg.idleTimeout
    ensures Warns(cfg, Before(cfg, d, script, n), script[n]) <==>
      ElapsedMs(reading, script[n].now) > WarningTime(cfg.idleTimeout) &&
      !PastWarning(cfg, script, reading, i + 1, n)
  {
    NextRound(cfg, d, script, i);
    RestartedAt(cfg, Before(cfg, d, script, i), script[i], reading);
    QuietRounds(cfg, d, script, i + 1, n);
    QuietWarnings(cfg, d, script, i + 1, n);
  }

  // ---- How a holder comes to be out of sight ----

  /**
   One poll brings a failing message of the holder and valid credentials of
   another client, and every deinit succeeds: the other client holds the target
   and the flag is clear.
   */
  lemma HandoverUnwatched(cfg: Config, s: State, a: int, b: int, messages: nat -> Message)
    requires Inv(s.table) && AuthFd(s.table) == Some(a) && b in Fds(s.table) && a != b
    requires !messages(0).processOk && messages(1).initOk && messages(1).processOk
    requires HandshakeOk(cfg, Served(cfg, s, a, messages(0)), messages(1))
    ensures var u := ServedAll(cfg, s, [PollFd(a, true), PollFd(b, true)], messages, 2);
      AuthFd(u.table) == Some(b) && !u.connected
  {
    var polled, first := [PollFd(a, true), PollFd(b, true)], Served(cfg, s, a, messages(0));
    assert ServedAll(cfg, s, polled, messages, 0) == s;
    assert ServedAll(cfg, s, polled, messages, 1) == first;
    AuthIsOpen(s.table);
    ServeEffect(cfg, s, a, messages(0));
    ProcessFollows(s, a, PendingOf(s.table, a), messages(0));
    assert !first.connected;
    ServeEffect(cfg, first, b, messages(1));
    ServeFollows(cfg, first, b, messages(1));
  }

  /** A client out of sight is never timed out, for as long as no other client arrives. */
  lemma {:induction false} UnwatchedUntilArrival(cfg: Config, d: Timed, script: seq<Iteration>, n: nat)
    requires !d.state.connected && n <= |script|
    requires forall i :: 0 <= i < n && Running(cfg, d, script, i) ==>
      !Arrives(cfg, Before(cfg, d, script, i), script[i])
    ensures !Before(cfg, d, script, n).state.connected
    ensures n < |script| ==> !TimesOut(cfg, Before(cfg, d, script, n), script[n])
  {
    if n == 0 {
      assert script[..0] == [];
    } else {
      UnwatchedUntilArrival(cfg, d, script, n - 1);
      NextRound(cfg, d, script, n - 1);
      RoundCounts(cfg, Before(cfg, d, script, n - 1), script[n - 1]);
    }
  }

  /** The round tries to disconnect the client, after an idle timeout or a pin failure, and deinit fails. */
  predicate DeinitFails(cfg: Config, d: Timed, it: Iteration) {
    if TimesOut(cfg, d, it) then !it.idleDeinitOk
    else it.pollResult != -1 && NumGpios(it) > 0 && !it.pinsOk && !it.pinDeinitOk
  }

  /** Such a round leaves the client authenticated and out of the idle timer's sight. */
  lemma FailedDeinitUnwatches(cfg: Config, d: Timed, it: Iteration, fd: int)
    requires Inv(d.state.table) && AuthFd(d.state.table) == Some(fd)
    requires Keeps(cfg, d, it, fd) && DeinitFails(cfg, d, it)
    ensures AuthFd(Round(cfg, d, it).state.table) == Some(fd) && !Round(cfg, d, it).state.connected
  {
    StaysThroughRound(cfg, d, it, fd);
    IdleEffect(cfg, d, it);
    if !TimesOut(cfg, d, it) {
      var served := Attentive(cfg, IdleChecked(cfg, d, it), it).state;
      NetworkInv(cfg, IdleChecked(cfg, d, it).state, it);
      ReplyEffect(served, |it.pinReplies|);
      PinEffect(served, it);
    }
  }

  /** From then on, however much time passes, no round times the client out until another client arrives. */
  lemma FailedDeinitEscapesTimeout(cfg: Config, d: Timed, it: Iteration, script: seq<Iteration>, fd: int, n: nat)
    requires Inv(d.state.table) && AuthFd(d.state.table) == Some(fd)
    requires Keeps(cfg, d, it, fd) && DeinitFails(cfg, d, it) && n < |script|
    requires forall i :: 0 <= i < n && Running(cfg, Round(cfg, d, it), script, i) ==>
      !Arrives(cfg, Before(cfg, Round(cfg, d, it), script, i), script[i])
    ensures !TimesOut(cfg, Before(cfg, Round(cfg, d, it), script, n), script[n])
  {
    RoundInv(cfg, d, it);
    FailedDeinitUnwatches(cfg, d, it, fd);
    UnwatchedUntilArrival(cfg, Round(cfg, d, it), script, n);
  }
}
