/**
 The session table as a value: fixed slots for remote connections, of which at
 most one is authenticated. The number of slots is kept symbolic.
 */
module SessionTable {
  import opened Basics

  const UNUSED_SOCKET_FD: int := -1
  const NO_SESSION_AUTHENTICATED: int := -1
  const SESSION_AUTH_EXPIRE_TIMEOUT: int := 15

  /** A connection record: the descriptor and the TLS handle, 0 when there is none. */
  datatype Conn = Conn(sockfd: int, handle: nat)

  const CLOSED: Conn := Conn(UNUSED_SOCKET_FD, 0)

  datatype Slot = Slot(id: int, conn: Conn, authTimeout: int, authenticated: bool, dataPending: bool)
  {
    predicate Open() { conn.sockfd >= 0 }
  }

  datatype Table = Table(slots: seq<Slot>, authId: int)

  function Initial(n: nat): Table {
    Table(seq(n, i => Slot(i, CLOSED, 0, false, false)), NO_SESSION_AUTHENTICATED)
  }

  /** What every reachable table satisfies. */
  predicate Inv(t: Table) {
    && (forall i :: 0 <= i < |t.slots| ==> t.slots[i].id == i)
    && (forall i :: 0 <= i < |t.slots| ==> (t.slots[i].authenticated <==> t.authId == i))
    && (t.authId == NO_SESSION_AUTHENTICATED || (0 <= t.authId < |t.slots| && t.slots[t.authId].Open()))
    && (forall i :: 0 <= i < |t.slots| ==> t.slots[i].Open() || t.slots[i].conn == CLOSED)
    && (forall i, j :: 0 <= i < j < |t.slots| && t.slots[i].Open() ==>
      t.slots[i].conn.sockfd != t.slots[j].conn.sockfd)
    && (forall i, j :: 0 <= i < j < |t.slots| && t.slots[i].conn.handle != 0 ==>
      t.slots[i].conn.handle != t.slots[j].conn.handle)
  }

  function Fds(t: Table): set<int> {
    set i | 0 <= i < |t.slots| && t.slots[i].Open() :: t.slots[i].conn.sockfd
  }

  function Handles(t: Table): set<nat> {
    set i | 0 <= i < |t.slots| && t.slots[i].conn.handle != 0 :: t.slots[i].conn.handle
  }

  function ConnHandles(c: Conn): set<nat> {
    if c.handle == 0 then {} else {c.handle}
  }

  /** The descriptor of the authenticated session. */
  function AuthFd(t: Table): Option<int> {
    if 0 <= t.authId < |t.slots| then Some(t.slots[t.authId].conn.sockfd) else None
  }

  // ---- The operations ----

  /** The first slot with this descriptor, or -1. */
  function Find(slots: seq<Slot>, fd: int): (i: int)
    ensures i == -1 <==> forall k :: 0 <= k < |slots| ==> slots[k].conn.sockfd != fd
    ensures i != -1 ==> 0 <= i < |slots| && slots[i].conn.sockfd == fd
    ensures forall k :: 0 <= k < i ==> slots[k].conn.sockfd != fd
  {
    if slots == [] then -1
    else if slots[0].conn.sockfd == fd then 0
    else
      var i := Find(slots[1..], fd);
      assert forall k :: 0 < k < |slots| ==> slots[k] == slots[1..][k - 1];
      if i == -1 then -1 else i + 1
  }

  /** session_open when a slot is free. */
  function Opened(t: Table, i: nat, c: Conn, now: int): Table
    requires i < |t.slots|
  {
    t.(slots := t.slots[i := Slot(t.slots[i].id, c, SESSION_AUTH_EXPIRE_TIMEOUT + now, false, false)])
  }

  /** session_close_private: the record is cleared, and the authentication with it. */
  function ClosedAt(t: Table, i: nat): Table
    requires i < |t.slots|
  {
    Table(t.slots[i := t.slots[i].(conn := if t.slots[i].Open() then CLOSED else t.slots[i].conn,
                                   authTimeout := 0, authenticated := false)],
      if t.slots[i].id == t.authId then NO_SESSION_AUTHENTICATED else t.authId)
  }

  predicate Expired(s: Slot, now: int) {
    s.Open() && !s.authenticated && s.authTimeout <= now
  }

  /** The expiry sweep's look at one slot. */
  function SweptOnce(t: Table, i: nat, now: int): (r: Table)
    requires i < |t.slots|
    ensures |r.slots| == |t.slots|
  {
    if Expired(t.slots[i], now) then ClosedAt(t, i) else t
  }

  /** The expiry sweep over the first n slots; the clock is read once per slot. */
  function Swept(t: Table, n: nat, clock: nat -> int): (r: Table)
    requires n <= |t.slots|
    ensures |r.slots| == |t.slots|
  {
    if n == 0 then t
    else
      SweptOnce(Swept(t, n - 1, clock), n - 1, clock(n - 1))
  }

  /** Closing the first n slots that are open. */
  function Emptied(t: Table, n: nat): (r: Table)
    requires n <= |t.slots|
    ensures |r.slots| == |t.slots|
  {
    if n == 0 then t
    else
      var u := Emptied(t, n - 1);
      if u.slots[n - 1].Open() then ClosedAt(u, n - 1) else u
  }

  /** session_auth_complete when no session is authenticated yet. */
  function AuthedAt(t: Table, i: nat): Table
    requires i < |t.slots|
  {
    Table(t.slots[i := t.slots[i].(authenticated := true)], t.slots[i].id)
  }

  function WithPending(t: Table, i: nat, pending: bool): Table
    requires i < |t.slots|
  {
    t.(slots := t.slots[i := t.slots[i].(dataPending := pending)])
  }

  // ---- What each operation keeps ----

  lemma InitialInv(n: nat)
    ensures Inv(Initial(n)) && Fds(Initial(n)) == {} && Handles(Initial(n)) == {}
  {
  }

  lemma OpenedInv(t: Table, i: nat, c: Conn, now: int)
    requires Inv(t) && i < |t.slots| && !t.slots[i].Open()
    requires c.sockfd >= 0 && c.sockfd !in Fds(t) && c.handle !in Handles(t)
    ensures Inv(Opened(t, i, c, now))
    ensures Fds(Opened(t, i, c, now)) == Fds(t) + {c.sockfd}
    ensures Handles(Opened(t, i, c, now)) == Handles(t) + ConnHandles(c)
    ensures AuthFd(Opened(t, i, c, now)) == AuthFd(t)
  {
    var u := Opened(t, i, c, now);
    forall k | 0 <= k < |t.slots| && k != i
      ensures u.slots[k] == t.slots[k]
      ensures t.slots[k].Open() ==> t.slots[k].conn.sockfd in Fds(t) && t.slots[k].conn.sockfd in Fds(u)
      ensures t.slots[k].conn.handle != 0 ==>
        (t.slots[k].conn.handle in Handles(t) && t.slots[k].conn.handle in Handles(u))
    {
    }
    assert u.slots[i].conn == c;
  }

  lemma ClosedInv(t: Table, i: nat)
    requires Inv(t) && i < |t.slots| && t.slots[i].Open()
    ensures Inv(ClosedAt(t, i))
    ensures AuthFd(ClosedAt(t, i)) == if t.authId == i then None else AuthFd(t)
  {
  }

  /** Closing a slot that is closed already touches no resource and no authentication. */
  lemma ClosedAgain(t: Table, i: nat)
    requires Inv(t) && i < |t.slots| && !t.slots[i].Open()
    ensures var u := ClosedAt(t, i);
      Inv(u) && Fds(u) == Fds(t) && Handles(u) == Handles(t) && AuthFd(u) == AuthFd(t) && u.authId == t.authId
  {
    SameConns(t, ClosedAt(t, i));
  }

  /** An unused slot must not be authenticated: the lookup of -1 finds it, and the invariant is lost. */
  lemma AuthenticatingUnused(t: Table)
    requires Inv(t) && t.authId < 0 && Find(t.slots, UNUSED_SOCKET_FD) != -1
    ensures !Inv(Step(t, AuthOp(UNUSED_SOCKET_FD)))
  {
    var i := Find(t.slots, UNUSED_SOCKET_FD);
    assert Step(t, AuthOp(UNUSED_SOCKET_FD)).authId == i;
    assert !Step(t, AuthOp(UNUSED_SOCKET_FD)).slots[i].Open();
  }

  /** Closing a slot gives up exactly its descriptor and its handle. */
  lemma ClosedResources(t: Table, i: nat)
    requires Inv(t) && i < |t.slots| && t.slots[i].Open()
    ensures Fds(ClosedAt(t, i)) == Fds(t) - {t.slots[i].conn.sockfd} && t.slots[i].conn.sockfd in Fds(t)
    ensures Handles(ClosedAt(t, i)) == Handles(t) - ConnHandles(t.slots[i].conn)
    ensures ConnHandles(t.slots[i].conn) <= Handles(t)
  {
    var u := ClosedAt(t, i);
    forall k | 0 <= k < |t.slots| && k != i
      ensures u.slots[k] == t.slots[k]
      ensures t.slots[k].Open() ==> t.slots[k].conn.sockfd in Fds(t) && t.slots[k].conn.sockfd in Fds(u)
      ensures t.slots[k].conn.handle != 0 ==>
        (t.slots[k].conn.handle in Handles(t) && t.slots[k].conn.handle in Handles(u))
    {
    }
  }

  lemma AuthedInv(t: Table, i: nat)
    requires Inv(t) && i < |t.slots| && t.slots[i].Open() && t.authId < 0
    ensures Inv(AuthedAt(t, i)) && Fds(AuthedAt(t, i)) == Fds(t) && Handles(AuthedAt(t, i)) == Handles(t)
    ensures AuthFd(AuthedAt(t, i)) == Some(t.slots[i].conn.sockfd)
  {
    SameConns(t, AuthedAt(t, i));
  }

  lemma PendingInv(t: Table, i: nat, pending: bool)
    requires Inv(t) && i < |t.slots|
    ensures var u := WithPending(t, i, pending);
      Inv(u) && Fds(u) == Fds(t) && Handles(u) == Handles(t) && AuthFd(u) == AuthFd(t)
  {
    SameConns(t, WithPending(t, i, pending));
  }

  lemma SameConns(t: Table, u: Table)
    requires |t.slots| == |u.slots|
    requires forall k :: 0 <= k < |t.slots| ==> t.slots[k].conn == u.slots[k].conn
    ensures Fds(t) == Fds(u) && Handles(t) == Handles(u)
  {
  }

  /** A slot before and after the sweep has looked at it. */
  function SweptSlot(s: Slot, now: int): Slot {
    if Expired(s, now) then s.(conn := CLOSED, authTimeout := 0) else s
  }

  lemma SweepStep(u: Table, i: nat, now: int)
    requires Inv(u) && i < |u.slots|
    ensures var v := SweptOnce(u, i, now);
      Inv(v) && AuthFd(v) == AuthFd(u) && v.slots == u.slots[i := SweptSlot(u.slots[i], now)]
  {
    if Expired(u.slots[i], now) {
      ClosedInv(u, i);
    }
  }

  /** The sweep in one look: expired slots are closed, all others are as they were. */
  lemma {:induction false} SweptAt(t: Table, n: nat, clock: nat -> int)
    requires Inv(t) && n <= |t.slots|
    ensures Inv(Swept(t, n, clock)) && AuthFd(Swept(t, n, clock)) == AuthFd(t)
    ensures forall k :: 0 <= k < |t.slots| ==>
      Swept(t, n, clock).slots[k] == if k < n then SweptSlot(t.slots[k], clock(k)) else t.slots[k]
  {
    if n > 0 {
      SweptAt(t, n - 1, clock);
      var u := Swept(t, n - 1, clock);
      SweepStep(u, n - 1, clock(n - 1));
      assert Swept(t, n, clock).slots == u.slots[n - 1 := SweptSlot(t.slots[n - 1], clock(n - 1))];
    }
  }

  /** Right after a sweep no unauthenticated session is past its deadline. */
  lemma SweepExpires(t: Table, clock: nat -> int, k: nat)
    requires Inv(t) && k < |t.slots|
    ensures !Expired(Swept(t, |t.slots|, clock).slots[k], clock(k))
  {
    SweptAt(t, |t.slots|, clock);
  }

  lemma {:induction false} EmptiedAt(t: Table, n: nat)
    requires Inv(t) && n <= |t.slots|
    ensures Inv(Emptied(t, n))
    ensures forall k :: 0 <= k < |t.slots| ==>
      if k < n then !Emptied(t, n).slots[k].Open() else Emptied(t, n).slots[k] == t.slots[k]
  {
    if n > 0 {
      EmptiedAt(t, n - 1);
      if Emptied(t, n - 1).slots[n - 1].Open() {
        ClosedInv(Emptied(t, n - 1), n - 1);
      }
    }
  }

  // ---- Every reachable table ----

  datatype Op =
    | OpenOp(conn: Conn, now: int)
    | CloseOp(fd: int)
    | SweepOp(clock: nat -> int)
    | AuthOp(fd: int)
    | PendingOp(fd: int, pending: bool)
    | CloseAllOp

  /** Accept hands over descriptors and handles that are not in the table; callers authenticate open ones. */
  predicate Possible(t: Table, op: Op) {
    match op
    case OpenOp(c, _) => c.sockfd >= 0 && c.sockfd !in Fds(t) && c.handle !in Handles(t)
    case AuthOp(fd) => fd >= 0
    case _ => true
  }

  function Step(t: Table, op: Op): (r: Table)
    ensures |r.slots| == |t.slots|
  {
    match op
    case OpenOp(c, now) =>
      var i := Find(t.slots, UNUSED_SOCKET_FD);
      if i == -1 then t else Opened(t, i, c, now)
    case CloseOp(fd) =>
      var i := Find(t.slots, fd);
      if fd == UNUSED_SOCKET_FD || i == -1 then t else ClosedAt(t, i)
    case SweepOp(clock) => Swept(t, |t.slots|, clock)
    case AuthOp(fd) =>
      var i := Find(t.slots, fd);
      if t.authId >= 0 || i == -1 then t else AuthedAt(t, i)
    case PendingOp(fd, pending) =>
      var i := Find(t.slots, fd);
      if i == -1 then t else WithPending(t, i, pending)
    case CloseAllOp => Emptied(t, |t.slots|)
  }

  lemma StepInv(t: Table, op: Op)
    requires Inv(t) && Possible(t, op)
    ensures Inv(Step(t, op))
  {
    match op
    case OpenOp(c, now) =>
      var i := Find(t.slots, UNUSED_SOCKET_FD);
      if i != -1 { OpenedInv(t, i, c, now); }
    case CloseOp(fd) =>
      var i := Find(t.slots, fd);
      if fd != UNUSED_SOCKET_FD && i != -1 { ClosedInv(t, i); }
    case SweepOp(clock) => SweptAt(t, |t.slots|, clock);
    case AuthOp(fd) =>
      var i := Find(t.slots, fd);
      if t.authId < 0 && i != -1 { AuthedInv(t, i); }
    case PendingOp(fd, pending) =>
      var i := Find(t.slots, fd);
      if i != -1 { PendingInv(t, i, pending); }
    case CloseAllOp => EmptiedAt(t, |t.slots|);
  }

  function Run(n: nat, ops: seq<Op>): (r: Table)
    ensures |r.slots| == n
  {
    if ops == [] then Initial(n) else Step(Run(n, ops[..|ops| - 1]), ops[|ops| - 1])
  }

  predicate PossibleRun(n: nat, ops: seq<Op>) {
    ops == [] ||
    (PossibleRun(n, ops[..|ops| - 1]) && Possible(Run(n, ops[..|ops| - 1]), ops[|ops| - 1]))
  }

  /**
   However accepts, expiries, authentications, closes and shutdown interleave,
   the table keeps its invariant; in particular two sessions are never both
   authenticated.
   */
  lemma {:induction false} ReachableTable(n: nat, ops: seq<Op>)
    requires PossibleRun(n, ops)
    ensures Inv(Run(n, ops))
    ensures var slots := Run(n, ops).slots;
      forall i, j :: 0 <= i < n && 0 <= j < n && slots[i].authenticated && slots[j].authenticated ==> i == j
    decreases |ops|
  {
    if ops == [] {
      InitialInv(n);
    } else {
      ReachableTable(n, ops[..|ops| - 1]);
      StepInv(Run(n, ops[..|ops| - 1]), ops[|ops| - 1]);
    }
  }
}
