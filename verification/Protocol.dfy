/**
 What an observer of the daemon sees: descriptors and TLS handles coming and
 going, authentications, target initialisation and messages, idle warnings. A
 monitor says which sequences of events are in order.
 */
module Protocol {
  import opened Basics
  import opened SessionTable

  datatype Event =
    | Accepted(fd: int)
    | Closed(fd: int)
    | HandleNew(handle: nat)
    | HandleFreed(handle: nat)
    | Authenticated(fd: int)
    | TargetInit(ok: bool)
    | TargetDeinit(ok: bool)
    | ProcessBegin(fd: int)
    | ProcessEnd(fd: int)
    | Read(fd: int)
    | Reply(fd: int)
    | IdleWarning
    | IdleTimeout
    | Activity
    | Shutdown

  datatype Monitor = Monitor(
    open: set<int>,        // descriptors accepted and not closed
    handles: set<nat>,     // TLS handles created and not freed
    auth: Option<int>,     // descriptor of the authenticated session
    up: bool,              // a successful init since the last successful deinit
    attempted: bool,       // an init attempt since the last deinit attempt
    busy: Option<int>,     // a target message is being processed for this descriptor
    warned: bool,          // the idle warning was sent in this idle period
    stopping: bool)

  const START: Monitor := Monitor({}, {}, None, false, false, None, false, false)

  /** When an event is in order. */
  predicate Enabled(m: Monitor, e: Event) {
    match e
    case Accepted(fd) => fd >= 0 && fd !in m.open && m.busy.None?
    case Closed(fd) => fd in m.open && m.busy.None? && (m.auth == Some(fd) && !m.stopping ==> !m.attempted)
    case HandleNew(h) => h != 0 && h !in m.handles
    case HandleFreed(h) => h in m.handles
    case Authenticated(fd) => fd in m.open && m.auth.None?
    case TargetInit(_) => m.auth.Some? && !m.attempted && !m.stopping
    case TargetDeinit(_) => m.busy.None?
    case ProcessBegin(fd) => m.auth == Some(fd) && fd in m.open && m.up && m.busy.None? && !m.stopping
    case ProcessEnd(fd) => m.busy == Some(fd)
    case Read(fd) => m.busy == Some(fd)
    case Reply(fd) => m.auth == Some(fd) && (m.busy.Some? ==> m.busy == Some(fd))
    case IdleWarning => !m.warned
    case IdleTimeout => m.warned
    case Activity => true
    case Shutdown => m.busy.None?
  }

  function Apply(m: Monitor, e: Event): Monitor {
    match e
    case Accepted(fd) => m.(open := m.open + {fd})
    case Closed(fd) => m.(open := m.open - {fd}, auth := if m.auth == Some(fd) then None else m.auth)
    case HandleNew(h) => m.(handles := m.handles + {h})
    case HandleFreed(h) => m.(handles := m.handles - {h})
    case Authenticated(fd) => m.(auth := Some(fd))
    case TargetInit(ok) => m.(attempted := true, up := m.up || ok)
    case TargetDeinit(ok) => m.(attempted := false, up := m.up && !ok)
    case ProcessBegin(fd) => m.(busy := Some(fd))
    case ProcessEnd(_) => m.(busy := None)
    case Read(_) => m
    case Reply(_) => m
    case IdleWarning => m.(warned := true)
    case IdleTimeout => m
    case Activity => m.(warned := false)
    case Shutdown => m.(stopping := true)
  }

  /** The monitor after a log that is in order throughout. */
  function Replay(log: seq<Event>): Option<Monitor> {
    if log == [] then Some(START)
    else
      var before := Replay(log[..|log| - 1]);
      if before.Some? && Enabled(before.value, log[|log| - 1]) then Some(Apply(before.value, log[|log| - 1]))
      else None
  }

  predicate InOrder(log: seq<Event>) { Replay(log).Some? }

  lemma ReplaySnoc(log: seq<Event>, e: Event)
    requires InOrder(log) && Enabled(Replay(log).value, e)
    ensures Replay(log + [e]) == Some(Apply(Replay(log).value, e))
  {
    assert (log + [e])[..|log|] == log;
  }

  /** Every prefix of a log in order is in order, and its next event was enabled there. */
  lemma {:induction false} PrefixInOrder(log: seq<Event>, i: nat)
    requires InOrder(log) && i <= |log|
    ensures InOrder(log[..i])
    ensures i < |log| ==>
      Enabled(Replay(log[..i]).value, log[i]) && Replay(log[..i + 1]) == Some(Apply(Replay(log[..i]).value, log[i]))
    decreases |log|
  {
    if i == |log| {
      assert log[..i] == log;
    } else {
      var init := log[..|log| - 1];
      PrefixInOrder(init, if i < |init| then i else |init|);
      assert log[..i] == init[..i];
      if i + 1 == |log| {
        assert log[..i + 1] == log;
      } else {
        assert log[..i + 1] == init[..i + 1];
      }
    }
  }

  function Count(log: seq<Event>, e: Event): nat {
    if log == [] then 0
    else Count(log[..|log| - 1], e) + if log[|log| - 1] == e then 1 else 0
  }

  /**
   Conservation: at every point a descriptor has been accepted exactly once more
   than closed while it is open, and equally often otherwise. No descriptor is
   closed twice and none is lost.
   */
  lemma {:induction false} Conserved(log: seq<Event>, fd: int)
    requires InOrder(log)
    ensures Count(log, Accepted(fd)) == Count(log, Closed(fd)) + if fd in Replay(log).value.open then 1 else 0
    decreases |log|
  {
    if log != [] {
      Conserved(log[..|log| - 1], fd);
    }
  }

  /** The same for TLS handles. */
  lemma {:induction false} HandlesConserved(log: seq<Event>, h: nat)
    requires InOrder(log)
    ensures Count(log, HandleNew(h)) == Count(log, HandleFreed(h)) + if h in Replay(log).value.handles then 1 else 0
    decreases |log|
  {
    if log != [] {
      HandlesConserved(log[..|log| - 1], h);
    }
  }

  /** Between two initialisation attempts lies a deinitialisation attempt. */
  lemma DeinitBetweenInits(log: seq<Event>, i: nat, j: nat)
    requires InOrder(log) && i < j < |log| && log[i].TargetInit? && log[j].TargetInit?
    ensures exists k :: i < k < j && log[k].TargetDeinit?
  {
    PrefixInOrder(log, i);
    PrefixInOrder(log, j);
    if forall k :: i < k < j ==> !log[k].TargetDeinit? {
      StaysAttempted(log, i + 1, j);
    }
  }

  lemma {:induction false} StaysAttempted(log: seq<Event>, i: nat, j: nat)
    requires InOrder(log) && i <= j <= |log|
    requires InOrder(log[..i]) && Replay(log[..i]).value.attempted
    requires forall k :: i <= k < j ==> !log[k].TargetDeinit?
    ensures InOrder(log[..j]) && Replay(log[..j]).value.attempted
    decreases j
  {
    if i < j {
      StaysAttempted(log, i, j - 1);
      PrefixInOrder(log, j - 1);
    }
  }

  /** The target is up only because of a successful init with no successful deinit since. */
  lemma {:induction false} UpSince(log: seq<Event>) returns (i: nat)
    requires InOrder(log) && Replay(log).value.up
    ensures i < |log| && log[i] == TargetInit(true)
    ensures forall k :: i < k < |log| ==> log[k] != TargetDeinit(true)
    decreases |log|
  {
    var init, last := log[..|log| - 1], log[|log| - 1];
    if last == TargetInit(true) {
      i := |log| - 1;
    } else {
      i := UpSince(init);
    }
  }

  /** A session is authenticated only because of its authentication with no close of it since. */
  lemma {:induction false} AuthSince(log: seq<Event>, fd: int) returns (i: nat)
    requires InOrder(log) && Replay(log).value.auth == Some(fd)
    ensures i < |log| && log[i] == Authenticated(fd)
    ensures forall k :: i < k < |log| ==> log[k] != Closed(fd) && !log[k].Authenticated?
    decreases |log|
  {
    var init, last := log[..|log| - 1], log[|log| - 1];
    if last == Authenticated(fd) {
      i := |log| - 1;
    } else {
      i := AuthSince(init, fd);
    }
  }

  /** Between two authentications the first of the two sessions was closed. */
  lemma OneAuthenticationAtATime(log: seq<Event>, i: nat, j: nat)
    requires InOrder(log) && i < j < |log| && log[i].Authenticated? && log[j].Authenticated?
    ensures exists k :: i < k < j && log[k] == Closed(log[i].fd)
  {
    PrefixInOrder(log, i);
    PrefixInOrder(log, j);
    if forall k :: i < k < j ==> log[k] != Closed(log[i].fd) {
      StaysAuthenticated(log, i + 1, j, log[i].fd);
    }
  }

  lemma {:induction false} StaysAuthenticated(log: seq<Event>, i: nat, j: nat, fd: int)
    requires InOrder(log) && i <= j <= |log|
    requires InOrder(log[..i]) && Replay(log[..i]).value.auth == Some(fd)
    requires forall k :: i <= k < j ==> log[k] != Closed(fd)
    ensures InOrder(log[..j]) && Replay(log[..j]).value.auth == Some(fd)
    decreases j
  {
    if i < j {
      StaysAuthenticated(log, i, j - 1, fd);
      PrefixInOrder(log, j - 1);
    }
  }

  /** Event i authenticated the descriptor, which was not closed nor another authenticated before event j. */
  predicate AuthenticatedFrom(log: seq<Event>, i: nat, j: nat, fd: int)
    requires i < j <= |log|
  {
    log[i] == Authenticated(fd) && forall k :: i < k < j ==> log[k] != Closed(fd) && !log[k].Authenticated?
  }

  /** Event i initialised the target, which was not successfully deinitialised before event j. */
  predicate UpFrom(log: seq<Event>, i: nat, j: nat)
    requires i < j <= |log|
  {
    log[i] == TargetInit(true) && forall k :: i < k < j ==> log[k] != TargetDeinit(true)
  }

  /** Event i began a message for the descriptor, which had not ended nor been closed before event j. */
  predicate MessageFrom(log: seq<Event>, i: nat, j: nat, fd: int)
    requires i < j <= |log|
  {
    log[i] == ProcessBegin(fd) &&
    forall k :: i < k < j ==> !log[k].ProcessEnd? && !log[k].ProcessBegin? && !log[k].Closed?
  }

  /**
   A target message is processed only for a session that was authenticated and
   not closed since, and only after a successful init with no successful deinit
   since.
   */
  lemma MessagesAreGuarded(log: seq<Event>, j: nat)
    requires InOrder(log) && j < |log| && log[j].ProcessBegin?
    ensures exists i :: 0 <= i < j && AuthenticatedFrom(log, i, j, log[j].fd)
    ensures exists i :: 0 <= i < j && UpFrom(log, i, j)
  {
    PrefixInOrder(log, j);
    var a := AuthSince(log[..j], log[j].fd);
    var b := UpSince(log[..j]);
    assert forall k :: 0 <= k < j ==> log[..j][k] == log[k];
    assert AuthenticatedFrom(log, a, j, log[j].fd) && UpFrom(log, b, j);
  }

  lemma {:induction false} BusySince(log: seq<Event>, fd: int) returns (i: nat)
    requires InOrder(log) && Replay(log).value.busy == Some(fd)
    ensures i < |log| && log[i] == ProcessBegin(fd)
    ensures forall k :: i < k < |log| ==> !log[k].ProcessEnd? && !log[k].ProcessBegin? && !log[k].Closed?
    decreases |log|
  {
    var init, last := log[..|log| - 1], log[|log| - 1];
    if last == ProcessBegin(fd) {
      i := |log| - 1;
    } else {
      i := BusySince(init, fd);
    }
  }

  /** A message that has begun and not ended is the one the target is busy with. */
  lemma {:induction false} StaysBusy(log: seq<Event>, i: nat, j: nat, fd: int)
    requires InOrder(log) && i < j <= |log| && MessageFrom(log, i, j, fd)
    ensures InOrder(log[..j]) && Replay(log[..j]).value.busy == Some(fd)
    decreases j
  {
    PrefixInOrder(log, j - 1);
    if i + 1 < j {
      StaysBusy(log, i, j - 1, fd);
    }
  }

  /** Reads happen only within a message, on its descriptor. */
  lemma ReadsBelongToMessage(log: seq<Event>, j: nat)
    requires InOrder(log) && j < |log| && log[j].Read?
    ensures exists i :: 0 <= i < j && MessageFrom(log, i, j, log[j].fd)
  {
    PrefixInOrder(log, j);
    var i := BusySince(log[..j], log[j].fd);
    assert forall k :: 0 <= k < j ==> log[..j][k] == log[k];
    assert MessageFrom(log, i, j, log[j].fd);
  }

  /** Replies go to the authenticated client; within a message that is the client that sent it. */
  lemma RepliesGoToClient(log: seq<Event>, j: nat)
    requires InOrder(log) && j < |log| && log[j].Reply?
    ensures exists i :: 0 <= i < j && AuthenticatedFrom(log, i, j, log[j].fd)
    ensures forall i, fd :: 0 <= i < j && MessageFrom(log, i, j, fd) ==> log[j].fd == fd
  {
    PrefixInOrder(log, j);
    var a := AuthSince(log[..j], log[j].fd);
    assert forall k :: 0 <= k < j ==> log[..j][k] == log[k];
    assert AuthenticatedFrom(log, a, j, log[j].fd);
    forall i, fd | 0 <= i < j && MessageFrom(log, i, j, fd)
      ensures log[j].fd == fd
    {
      StaysBusy(log, i, j, fd);
    }
  }

  lemma {:induction false} WarnedSince(log: seq<Event>) returns (i: nat)
    requires InOrder(log) && Replay(log).value.warned
    ensures i < |log| && log[i] == IdleWarning
    ensures forall k :: i < k < |log| ==> log[k] != Activity
    decreases |log|
  {
    var init, last := log[..|log| - 1], log[|log| - 1];
    if last == IdleWarning {
      i := |log| - 1;
    } else {
      i := WarnedSince(init);
    }
  }

  /** Every idle timeout has its warning before it in the same idle period. */
  lemma TimeoutIsWarned(log: seq<Event>, j: nat)
    requires InOrder(log) && j < |log| && log[j] == IdleTimeout
    ensures exists i :: 0 <= i < j && log[i] == IdleWarning && forall k :: i < k < j ==> log[k] != Activity
  {
    PrefixInOrder(log, j);
    var i := WarnedSince(log[..j]);
    assert forall k :: 0 <= k < j ==> log[..j][k] == log[k];
  }

  /** At most one warning per idle period: between two warnings the period was restarted. */
  lemma OneWarningPerPeriod(log: seq<Event>, i: nat, j: nat)
    requires InOrder(log) && i < j < |log| && log[i] == log[j] == IdleWarning
    ensures exists k :: i < k < j && log[k] == Activity
  {
    PrefixInOrder(log, i);
    PrefixInOrder(log, j);
    if forall k :: i < k < j ==> log[k] != Activity {
      StaysWarned(log, i + 1, j);
    }
  }

  lemma {:induction false} StaysWarned(log: seq<Event>, i: nat, j: nat)
    requires InOrder(log) && i <= j <= |log|
    requires InOrder(log[..i]) && Replay(log[..i]).value.warned
    requires forall k :: i <= k < j ==> log[k] != Activity
    ensures InOrder(log[..j]) && Replay(log[..j]).value.warned
    decreases j
  {
    if i < j {
      StaysWarned(log, i, j - 1);
      PrefixInOrder(log, j - 1);
    }
  }

  // ---- What it means for a whole run ----

  /** What is promised about event j of a run. */
  ghost predicate Promised(log: seq<Event>, j: nat)
    requires j < |log|
  {
    match log[j]
    case Accepted(fd) => Count(log[..j], Accepted(fd)) == Count(log[..j], Closed(fd))
    case Closed(fd) => Count(log[..j], Accepted(fd)) == Count(log[..j], Closed(fd)) + 1
    case HandleNew(h) => Count(log[..j], HandleNew(h)) == Count(log[..j], HandleFreed(h))
    case HandleFreed(h) => Count(log[..j], HandleNew(h)) == Count(log[..j], HandleFreed(h)) + 1
    case Authenticated(fd) =>
      && Count(log[..j], Accepted(fd)) == Count(log[..j], Closed(fd)) + 1
      && (forall i :: 0 <= i < j && log[i].Authenticated? ==> exists k :: i < k < j && log[k] == Closed(log[i].fd))
    case ProcessBegin(fd) =>
      && (exists i :: 0 <= i < j && AuthenticatedFrom(log, i, j, fd))
      && (exists i :: 0 <= i < j && UpFrom(log, i, j))
    case Read(fd) => exists i :: 0 <= i < j && MessageFrom(log, i, j, fd)
    case Reply(fd) =>
      && (exists i :: 0 <= i < j && AuthenticatedFrom(log, i, j, fd))
      && (forall i, g :: 0 <= i < j && MessageFrom(log, i, j, g) ==> fd == g)
    case TargetInit(_) =>
      forall i :: 0 <= i < j && log[i].TargetInit? ==> exists k :: i < k < j && log[k].TargetDeinit?
    case IdleWarning =>
      forall i :: 0 <= i < j && log[i] == IdleWarning ==> exists k :: i < k < j && log[k] == Activity
    case IdleTimeout =>
      exists i :: 0 <= i < j && log[i] == IdleWarning && forall k :: i < k < j ==> log[k] != Activity
    case _ => true
  }

  ghost predicate Safe(log: seq<Event>) {
    forall j :: 0 <= j < |log| ==> Promised(log, j)
  }

  /** A run that the monitor accepts keeps every promise, and the promises do not mention the monitor. */
  lemma InOrderIsSafe(log: seq<Event>)
    requires InOrder(log)
    ensures Safe(log)
  {
    forall j | 0 <= j < |log|
      ensures Promised(log, j)
    {
      EventPromised(log, j);
    }
  }

  lemma EventPromised(log: seq<Event>, j: nat)
    requires InOrder(log) && j < |log|
    ensures Promised(log, j)
  {
    PrefixInOrder(log, j);
    match log[j]
    case Accepted(fd) => Conserved(log[..j], fd);
    case Closed(fd) => Conserved(log[..j], fd);
    case HandleNew(h) => HandlesConserved(log[..j], h);
    case HandleFreed(h) => HandlesConserved(log[..j], h);
    case Authenticated(fd) =>
      Conserved(log[..j], fd);
      forall i | 0 <= i < j && log[i].Authenticated?
        ensures exists k :: i < k < j && log[k] == Closed(log[i].fd)
      {
        OneAuthenticationAtATime(log, i, j);
      }
    case ProcessBegin(_) => MessagesAreGuarded(log, j);
    case Read(_) => ReadsBelongToMessage(log, j);
    case Reply(_) => RepliesGoToClient(log, j);
    case TargetInit(_) =>
      forall i | 0 <= i < j && log[i].TargetInit?
        ensures exists k :: i < k < j && log[k].TargetDeinit?
      {
        DeinitBetweenInits(log, i, j);
      }
    case IdleWarning =>
      forall i | 0 <= i < j && log[i] == IdleWarning
        ensures exists k :: i < k < j && log[k] == Activity
      {
        OneWarningPerPeriod(log, i, j);
      }
    case IdleTimeout => TimeoutIsWarned(log, j);
    case _ =>
  }
}
