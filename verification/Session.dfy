/**
 The functions of session.c on the mutable slot array. Each is proved against
 the operation on table values and keeps the table in step with the
 descriptors, handles and authentication that the environment has seen.
 */
module Session {
  import opened Basics
  import opened SessionTable
  import opened SessionTimeouts
  import opened Protocol
  import opened World
  import opened Network

  function ExpiryLog(log: seq<Event>, s: Slot, now: int): seq<Event> {
    if Expired(s, now) then log + CloseEvents(s.conn) else log
  }

  /** The log after the sweep over the first n slots: each expired one is given up. */
  function SweepLog(log: seq<Event>, t: Table, n: nat, clock: nat -> int): seq<Event>
    requires n <= |t.slots|
  {
    if n == 0 then log
    else
      ExpiryLog(SweepLog(log, t, n - 1, clock), Swept(t, n - 1, clock).slots[n - 1], clock(n - 1))
  }

  /** The log after closing the first n slots. */
  function EmptyLog(log: seq<Event>, t: Table, n: nat): seq<Event>
    requires n <= |t.slots|
  {
    if n == 0 then log
    else
      var s, before := Emptied(t, n - 1).slots[n - 1], EmptyLog(log, t, n - 1);
      if s.Open() then before + CloseEvents(s.conn) else before
  }

  /** What session_close gives up. */
  function ClosingEvents(t: Table, fd: int): seq<Event> {
    var i := Find(t.slots, fd);
    if fd == UNUSED_SOCKET_FD || i == -1 then [] else CloseEvents(t.slots[i].conn)
  }

  class Sessions {
    const slots: array<Slot>
    const env: Environment
    var authenticatedId: int

    ghost function View(): Table
      reads this, slots
    {
      Table(slots[..], authenticatedId)
    }

    /** The table owns the environment's open descriptors and handles, except those of a record in flight. */
    ghost predicate Holding(conn: Conn)
      reads this, slots, env
    {
      && env.Valid() && Inv(View())
      && conn.sockfd >= 0 && conn.sockfd !in Fds(View()) && conn.handle !in Handles(View())
      && env.monitor.open == Fds(View()) + {conn.sockfd}
      && env.monitor.handles == Handles(View()) + ConnHandles(conn)
      && env.monitor.auth == AuthFd(View())
    }

    ghost predicate Valid()
      reads this, slots, env
    {
      && env.Valid() && Inv(View())
      && env.monitor.open == Fds(View())
      && env.monitor.handles == Handles(View())
      && env.monitor.auth == AuthFd(View())
    }

    /** The environment once the table has changed but the target and the timer have not. */
    ghost function Observed(m: Monitor): Monitor
      reads this, slots
    {
      m.(open := Fds(View()), handles := Handles(View()), auth := AuthFd(View()))
    }

    /** session_init. */
    constructor (n: nat, env: Environment)
      requires env.Valid() && env.monitor == START
      ensures Valid() && fresh(slots) && this.env == env && View() == Initial(n)
    {
      this.env := env;
      slots := new Slot[n](i => Slot(i, CLOSED, 0, false, false));
      authenticatedId := NO_SESSION_AUTHENTICATED;
      new;
      assert slots[..] == Initial(n).slots;
      InitialInv(n);
    }

    /** session_find_private: the slot with this descriptor, an unused one for -1; -1 when there is none. */
    method FindPrivate(fd: int) returns (i: int)
      ensures i == Find(slots[..], fd)
    {
      i := 0;
      while i < slots.Length
        invariant 0 <= i <= slots.Length
        invariant forall k :: 0 <= k < i ==> slots[k].conn.sockfd != fd
      {
        if slots[i].conn.sockfd == fd {
          return;
        }
        i := i + 1;
      }
      i := -1;
    }

    /** session_lookup_conn: the slot that the returned pointer points into. */
    method LookupConn(fd: int) returns (i: int)
      requires Valid()
      ensures if fd in Fds(View()) then 0 <= i < slots.Length && slots[i].conn.sockfd == fd && fd >= 0 else i == -1
    {
      i := FindPrivate(fd);
      if i != -1 && slots[i].conn.sockfd < 0 {
        i := -1;
      }
    }

    /** session_open. */
    method Open(conn: Conn, now: int) returns (ok: bool)
      requires Holding(conn)
      modifies this, slots
      ensures env.monitor == old(env.monitor)
      ensures ok <==> Find(old(slots[..]), UNUSED_SOCKET_FD) != -1
      ensures Fds(View()) == old(Fds(View())) + if ok then {conn.sockfd} else {}
      ensures AuthFd(View()) == old(AuthFd(View()))
      ensures if ok then Valid() && View() == Step(old(View()), OpenOp(conn, now))
        else Holding(conn) && View() == old(View())
    {
      var i := FindPrivate(UNUSED_SOCKET_FD);
      if i == -1 {
        ok := false;
      } else {
        ghost var t := View();
        OpenedInv(t, i, conn, now);
        slots[i] := slots[i].(conn := conn);
        slots[i] := slots[i].(authTimeout := SESSION_AUTH_EXPIRE_TIMEOUT + now, authenticated := false,
          dataPending := false);
        ok := true;
        assert View() == Opened(t, i, conn, now);
      }
    }

    /** Whether the environment is ready for the close of slot i. */
    ghost predicate Closable(i: int)
      requires 0 <= i < slots.Length
      reads this, slots, env
    {
      env.monitor.busy.None? && (authenticatedId == i && !env.monitor.stopping ==> !env.monitor.attempted)
    }

    /** session_close_private; a slot that is closed already is only reset. */
    method ClosePrivate(i: int, closeOk: bool)
      requires Valid() && 0 <= i < slots.Length && Closable(i)
      modifies this, slots, env
      ensures Valid() && View() == ClosedAt(old(View()), i)
      ensures env.monitor == if old(slots[i].Open()) then Released(old(env.monitor), old(slots[i].conn))
        else old(env.monitor)
      ensures env.log == old(env.log) + if old(slots[i].Open()) then CloseEvents(old(slots[i].conn)) else []
    {
      ghost var t := View();
      if slots[i].Open() {
        ClosedInv(t, i);
        ClosedResources(t, i);
      } else {
        ClosedAgain(t, i);
      }
      if slots[i].conn.sockfd >= 0 {
        var conn, ok := CloseClient(env, slots[i].conn, closeOk);
        slots[i] := slots[i].(conn := conn);
      }
      if slots[i].id == authenticatedId {
        authenticatedId := NO_SESSION_AUTHENTICATED;
      }
      slots[i] := slots[i].(authTimeout := 0, authenticated := false);
      assert View() == ClosedAt(t, i);
    }

    /** session_close with the descriptor that the caller's record holds now. */
    method Close(fd: int, closeOk: bool) returns (ok: bool)
      requires Valid() && env.monitor.busy.None?
      requires AuthFd(View()) == Some(fd) && !env.monitor.stopping ==> !env.monitor.attempted
      modifies this, slots, env
      ensures Valid() && View() == Step(old(View()), CloseOp(fd)) && ok == (fd in old(Fds(View())))
      ensures Fds(View()) == old(Fds(View())) - {fd}
      ensures AuthFd(View()) == if old(AuthFd(View())) == Some(fd) then None else old(AuthFd(View()))
      ensures env.monitor == Observed(old(env.monitor))
      ensures env.log == old(env.log) + ClosingEvents(old(View()), fd)
    {
      ok := false;
      if fd != UNUSED_SOCKET_FD {
        var i := FindPrivate(fd);
        if i != -1 {
          assert slots[i].Open();
          ClosedInv(View(), i);
          ClosedResources(View(), i);
          ClosePrivate(i, closeOk);
          ok := true;
        }
      }
    }

    /** session_already_authenticated. */
    method AlreadyAuthenticated(fd: int) returns (ok: bool)
      requires Valid()
      ensures ok <==> AuthFd(View()) == Some(fd)
    {
      ok := false;
      if fd >= 0 {
        var i := FindPrivate(fd);
        if i != -1 && slots[i].authenticated {
          ok := true;
        }
      }
    }

    /** session_auth_complete; the caller's record must not be a closed one. */
    method AuthComplete(fd: int) returns (ok: bool)
      requires Valid() && fd >= 0
      modifies this, slots, env
      ensures Valid() && View() == Step(old(View()), AuthOp(fd))
      ensures ok <==> old(authenticatedId) < 0 && fd in old(Fds(View()))
      ensures forall k :: 0 <= k < slots.Length ==> slots[k].conn == old(slots[k].conn)
      ensures AuthFd(View()) == if ok then Some(fd) else old(AuthFd(View()))
      ensures Fds(View()) == old(Fds(View())) && env.monitor == Observed(old(env.monitor))
      ensures env.log == old(env.log) + if ok then [Authenticated(fd)] else []
    {
      ok := false;
      if authenticatedId < 0 {
        var i := FindPrivate(fd);
        if i != -1 {
          ghost var t := View();
          AuthedInv(t, i);
          env.Emit(Authenticated(fd));
          authenticatedId := slots[i].id;
          slots[i] := slots[i].(authenticated := true);
          ok := true;
          assert View() == AuthedAt(t, i);
        }
      }
    }

    /** session_get_authenticated_conn; with a NULL record pointer it always reports an error. */
    method GetAuthenticatedConn(record: bool) returns (ok: bool, conn: Conn)
      requires Valid()
      ensures ok <==> record && AuthFd(View()).Some?
      ensures ok ==> AuthFd(View()) == Some(conn.sockfd)
    {
      ok, conn := false, CLOSED;
      if authenticatedId >= 0 {
        if record {
          conn := slots[authenticatedId].conn;
          ok := true;
        }
      }
    }

    /** session_set_data_pending and session_get_data_pending. */
    method SetDataPending(fd: int, pending: bool) returns (ok: bool)
      requires Valid()
      modifies slots
      ensures Valid() && View() == Step(old(View()), PendingOp(fd, pending))
      ensures ok <==> Find(old(slots[..]), fd) != -1
      ensures Fds(View()) == old(Fds(View())) && AuthFd(View()) == old(AuthFd(View()))
    {
      var i := FindPrivate(fd);
      if i == -1 {
        ok := false;
      } else {
        ghost var t := View();
        PendingInv(t, i, pending);
        slots[i] := slots[i].(dataPending := pending);
        ok := true;
        assert View() == WithPending(t, i, pending);
      }
    }

    method GetDataPending(fd: int) returns (ok: bool, pending: bool)
      ensures ok <==> Find(slots[..], fd) != -1
      ensures ok ==> pending == slots[Find(slots[..], fd)].dataPending
    {
      var i := FindPrivate(fd);
      ok, pending := i != -1, false;
      if ok {
        pending := slots[i].dataPending;
      }
    }

    /** One round of the sweep. */
    method SweepSlot(i: int, now: int)
      requires Valid() && env.monitor.busy.None? && 0 <= i < slots.Length
      modifies this, slots, env
      ensures Valid() && AuthFd(View()) == old(AuthFd(View()))
      ensures env.monitor == Observed(old(env.monitor))
      ensures View() == SweptOnce(old(View()), i, now) && env.log == ExpiryLog(old(env.log), old(slots[i]), now)
    {
      if slots[i].conn.sockfd >= 0 && !slots[i].authenticated && slots[i].authTimeout <= now {
        ClosedInv(View(), i);
        ClosedResources(View(), i);
        ClosePrivate(i, true);
      }
    }

    /** One round of session_close_all. */
    method EmptySlot(i: int)
      requires Valid() && env.monitor.busy.None? && env.monitor.stopping && 0 <= i < slots.Length
      modifies this, slots, env
      ensures Valid() && env.monitor == Observed(old(env.monitor))
      ensures View() == if old(slots[i].Open()) then ClosedAt(old(View()), i) else old(View())
      ensures env.log == if old(slots[i].Open()) then old(env.log) + CloseEvents(old(slots[i].conn)) else old(env.log)
    {
      if slots[i].conn.sockfd >= 0 {
        ClosedInv(View(), i);
        ClosedResources(View(), i);
        ClosePrivate(i, true);
      }
    }

    /** session_close_expired_unauth; the clock is read for each slot. */
    method CloseExpiredUnauth(clock: nat -> int)
      requires Valid() && env.monitor.busy.None?
      modifies this, slots, env
      ensures Valid() && View() == Step(old(View()), SweepOp(clock))
      ensures AuthFd(View()) == old(AuthFd(View()))
      ensures env.monitor == Observed(old(env.monitor))
      ensures env.log == SweepLog(old(env.log), old(View()), slots.Length, clock)
    {
      ghost var t, m := View(), env.monitor;
      for i := 0 to slots.Length
        invariant Valid() && View() == Swept(t, i, clock) && AuthFd(View()) == AuthFd(t)
        invariant env.monitor == Observed(m)
        invariant env.log == SweepLog(old(env.log), t, i, clock)
      {
        SweepSlot(i, clock(i));
      }
    }

    /** session_close_all. */
    method CloseAll()
      requires Valid() && env.monitor.busy.None? && env.monitor.stopping
      modifies this, slots, env
      ensures Valid() && View() == Step(old(View()), CloseAllOp)
      ensures Fds(View()) == {} && Handles(View()) == {}
      ensures env.monitor == Observed(old(env.monitor))
      ensures env.log == EmptyLog(old(env.log), old(View()), slots.Length)
    {
      ghost var t, m := View(), env.monitor;
      for i := 0 to slots.Length
        invariant Valid() && View() == Emptied(t, i)
        invariant env.monitor == Observed(m)
        invariant env.log == EmptyLog(old(env.log), t, i)
      {
        EmptySlot(i);
      }
      EmptiedAt(t, slots.Length);
    }

    /** session_getfds: the descriptors to poll and the timeout. */
    method GetFds(timeout: int, clock: nat -> int) returns (fds: seq<int>, limit: int)
      requires Valid()
      ensures fds == OpenFds(slots[..], slots.Length)
      ensures limit == if AnyPending(slots[..], slots.Length) then 0
        else Limit(slots[..], slots.Length, timeout, clock)
      ensures (exists k :: 0 <= k < slots.Length && slots[k].Open() && slots[k].dataPending) ==> limit == 0
      ensures timeout < 0 && OpenedBefore(slots[..], clock) ==> (0 <= limit <= 15000 <==>
        AnyPending(slots[..], slots.Length) ||
        exists k :: 0 <= k < slots.Length && Waiting(slots[k]) && ShortWait(slots[k].authTimeout, clock(k)))
    {
      if timeout < 0 && OpenedBefore(slots[..], clock) {
        ShortTimeoutExactly(slots[..], timeout, clock);
      }
      fds, limit := CollectFds(timeout, clock);
    }

    /** The loop of session_getfds. */
    method CollectFds(timeout: int, clock: nat -> int) returns (fds: seq<int>, limit: int)
      requires Valid()
      ensures fds == OpenFds(slots[..], slots.Length)
      ensures limit == if AnyPending(slots[..], slots.Length) then 0
        else Limit(slots[..], slots.Length, timeout, clock)
    {
      fds, limit := [], timeout;
      var zero := false;
      ghost var t := View();
      for i := 0 to slots.Length
        invariant fds == OpenFds(t.slots, i)
        invariant limit == Limit(t.slots, i, timeout, clock)
        invariant zero <==> AnyPending(t.slots, i)
      {
        if slots[i].conn.sockfd >= 0 {
          if !slots[i].authenticated {
            limit := Shorter(limit, slots[i].authTimeout, clock(i));
          }
          OwnSlot(t, i);
          var found, pending := GetDataPending(slots[i].conn.sockfd);
          if pending {
            zero := true;
          }
          fds := fds + [slots[i].conn.sockfd];
        }
      }
      if zero {
        limit := 0;
      }
    }

    /** The part of session_getfds that takes one waiting session into account. */
    method Shorter(limit: int, deadline: int, now: int) returns (r: int)
      ensures r == var remain := Remaining(deadline, now); if limit < 0 || remain < limit then remain else limit
    {
      var remain := Wrap32(1000 * (deadline - now));
      if remain < 0 {
        remain := 0;
      }
      r := limit;
      if limit < 0 || remain < limit {
        r := remain;
      }
    }
  }

  /** Looking a session up by its own descriptor finds the session itself. */
  lemma OwnSlot(t: Table, i: nat)
    requires Inv(t) && i < |t.slots| && t.slots[i].Open()
    ensures Find(t.slots, t.slots[i].conn.sockfd) == i
  {
  }
}
