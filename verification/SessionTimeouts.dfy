/**
 session_getfds: which descriptors are polled and for how long, with the 32-bit
 arithmetic of the remaining times.
 */
module SessionTimeouts {
  import opened Basics
  import opened SessionTable

  const INT_MAX: int := 0x7fff_ffff

  /** The conversion to a 32-bit int. */
  function Wrap32(x: int): (r: int)
    ensures -INT_MAX - 1 <= r <= INT_MAX
    ensures -INT_MAX - 1 <= x <= INT_MAX ==> r == x
    ensures exists q :: x == r + q * U32
  {
    var m := x % U32;
    assert x == m + x / U32 * U32 == m - U32 + (x / U32 + 1) * U32;
    if m > INT_MAX then m - U32 else m
  }

  /** Milliseconds until the deadline as the code computes them. */
  function Remaining(deadline: int, now: int): int {
    var r := Wrap32(1000 * (deadline - now));
    if r < 0 then 0 else r
  }

  predicate Waiting(s: Slot) { s.Open() && !s.authenticated }

  /** The timeout after the first n slots. */
  function Limit(slots: seq<Slot>, n: nat, timeout: int, clock: nat -> int): int
    requires n <= |slots|
  {
    if n == 0 then timeout
    else
      var t := Limit(slots, n - 1, timeout, clock);
      var r := Remaining(slots[n - 1].authTimeout, clock(n - 1));
      if Waiting(slots[n - 1]) && (t < 0 || r < t) then r else t
  }

  predicate AnyPending(slots: seq<Slot>, n: nat)
    requires n <= |slots|
  {
    exists k :: 0 <= k < n && slots[k].Open() && slots[k].dataPending
  }

  /** The open descriptors among the first n slots, in slot order. */
  function OpenFds(slots: seq<Slot>, n: nat): (r: seq<int>)
    requires n <= |slots|
    ensures |r| <= n
  {
    if n == 0 then []
    else OpenFds(slots, n - 1) + if slots[n - 1].Open() then [slots[n - 1].conn.sockfd] else []
  }

  lemma {:induction false} OpenFdsExact(slots: seq<Slot>, n: nat, fd: int)
    requires n <= |slots|
    ensures fd in OpenFds(slots, n) <==> exists k :: 0 <= k < n && slots[k].Open() && slots[k].conn.sockfd == fd
  {
    if n > 0 {
      OpenFdsExact(slots, n - 1, fd);
    }
  }

  /** The descriptors fill their array only when no slot is free. */
  lemma {:induction false} OpenFdsFull(slots: seq<Slot>, n: nat)
    requires n <= |slots|
    ensures |OpenFds(slots, n)| == n <==> forall k :: 0 <= k < n ==> slots[k].Open()
  {
    if n > 0 {
      OpenFdsFull(slots, n - 1);
    }
  }

  /** The descriptors come in the order of their slots. */
  lemma {:induction false} OpenFdsInOrder(slots: seq<Slot>, n: nat, i: nat, k: nat)
    requires i < k < n <= |slots| && slots[i].Open() && slots[k].Open()
    ensures exists p, q ::
      && 0 <= p < q < |OpenFds(slots, n)|
      && OpenFds(slots, n)[p] == slots[i].conn.sockfd && OpenFds(slots, n)[q] == slots[k].conn.sockfd
  {
    var init := OpenFds(slots, n - 1);
    if k == n - 1 {
      OpenFdsExact(slots, n - 1, slots[i].conn.sockfd);
      var p :| 0 <= p < |init| && init[p] == slots[i].conn.sockfd;
      assert OpenFds(slots, n)[p] == slots[i].conn.sockfd && OpenFds(slots, n)[|init|] == slots[k].conn.sockfd;
    } else {
      OpenFdsInOrder(slots, n - 1, i, k);
      var p, q :| 0 <= p < q < |init| && init[p] == slots[i].conn.sockfd && init[q] == slots[k].conn.sockfd;
      assert OpenFds(slots, n)[p] == init[p] && OpenFds(slots, n)[q] == init[q];
    }
  }

  /**
   The timeout is the least of the incoming limit (unless that is negative,
   which means none) and the remaining times of the waiting sessions.
   */
  lemma {:induction false} LimitIsMinimum(slots: seq<Slot>, n: nat, timeout: int, clock: nat -> int)
    requires n <= |slots|
    ensures var t := Limit(slots, n, timeout, clock);
      && (timeout >= 0 ==> 0 <= t <= timeout)
      && (forall k :: 0 <= k < n && Waiting(slots[k]) ==> 0 <= t <= Remaining(slots[k].authTimeout, clock(k)))
      && (t == timeout || exists k :: 0 <= k < n && Waiting(slots[k]) && t == Remaining(slots[k].authTimeout, clock(k)))
  {
    if n > 0 {
      LimitIsMinimum(slots, n - 1, timeout, clock);
    }
  }

  /** The remaining time as it should be, cut at zero. */
  function TrueRemaining(deadline: int, now: int): int {
    if deadline <= now then 0 else 1000 * (deadline - now)
  }

  /** Whether the millisecond count survives the conversion, or at least stays negative. */
  predicate FitsInt(deadline: int, now: int) {
    if deadline > now then 1000 * (deadline - now) <= INT_MAX
    else 1000 * (now - deadline) % U32 <= INT_MAX + 1
  }

  /** The computed time is the true remaining time exactly when the product does not wrap to another sign. */
  lemma RemainingExact(deadline: int, now: int)
    ensures Remaining(deadline, now) == TrueRemaining(deadline, now) <==> FitsInt(deadline, now)
  {
    if deadline <= now {
      NegatedMod(1000 * (now - deadline));
    }
  }

  lemma NegatedMod(y: int)
    ensures -y % U32 == if y % U32 == 0 then 0 else U32 - y % U32
  {
    var q, r := y / U32, y % U32;
    if r == 0 {
      ModUnique(-y, -q, 0);
    } else {
      ModUnique(-y, -q - 1, U32 - r);
    }
  }

  lemma ModUnique(x: int, q: int, r: int)
    requires x == U32 * q + r && 0 <= r < U32
    ensures x % U32 == r
  {
    var d := q - x / U32;
    assert U32 * d == x % U32 - r;
    assert d == 0;
  }

  /** About 25 days past a deadline the product wraps and a long wait is reported instead of none. */
  lemma RemainingWraps()
    ensures Remaining(0, 2147484) == 2147483296
  {
    assert -2147484000 % U32 == 2147483296;
  }

  predicate DeadlinesBy(t: Table, latest: int) {
    forall k :: 0 <= k < |t.slots| && t.slots[k].Open() ==> t.slots[k].authTimeout <= latest
  }

  lemma DeadlinesStep(t: Table, op: Op, now: int)
    requires Inv(t) && DeadlinesBy(t, now + SESSION_AUTH_EXPIRE_TIMEOUT)
    requires op.OpenOp? ==> op.now <= now
    ensures DeadlinesBy(Step(t, op), now + SESSION_AUTH_EXPIRE_TIMEOUT)
  {
    match op
    case SweepOp(clock) => DeadlinesSwept(t, clock, now + SESSION_AUTH_EXPIRE_TIMEOUT);
    case CloseAllOp => EmptiedAt(t, |t.slots|);
    case _ =>
  }

  lemma DeadlinesSwept(t: Table, clock: nat -> int, latest: int)
    requires Inv(t) && DeadlinesBy(t, latest)
    ensures DeadlinesBy(Swept(t, |t.slots|, clock), latest)
  {
    SweptAt(t, |t.slots|, clock);
  }

  /** Deadlines in a reachable table are set from a clock reading made when the session was opened. */
  lemma {:induction false} ReachableDeadlines(n: nat, ops: seq<Op>, now: int)
    requires PossibleRun(n, ops)
    requires forall k :: 0 <= k < |ops| && ops[k].OpenOp? ==> ops[k].now <= now
    ensures DeadlinesBy(Run(n, ops), now + SESSION_AUTH_EXPIRE_TIMEOUT)
    decreases |ops|
  {
    if ops != [] {
      var init := ops[..|ops| - 1];
      ReachableDeadlines(n, init, now);
      ReachableTable(n, init);
      DeadlinesStep(Run(n, init), ops[|ops| - 1], now);
    }
  }

  /** Whether the low 32 bits of the milliseconds since a deadline stand for at most 15 s to go. */
  predicate ShortWait(deadline: int, now: int) {
    FitsInt(deadline, now) || 1000 * (now - deadline) % U32 >= U32 - 15000
  }

  /** Once at most 15 s are left, the computed time is at most 15 s exactly when nothing wraps past that. */
  lemma RemainingShort(deadline: int, now: int)
    requires deadline <= now + SESSION_AUTH_EXPIRE_TIMEOUT
    ensures Remaining(deadline, now) <= 15000 <==> ShortWait(deadline, now)
  {
    if deadline <= now {
      NegatedMod(1000 * (now - deadline));
    }
  }

  /** Every waiting session was opened at or before its clock reading. */
  predicate OpenedBefore(slots: seq<Slot>, clock: nat -> int) {
    forall k :: 0 <= k < |slots| && Waiting(slots[k]) ==>
      slots[k].authTimeout <= clock(k) + SESSION_AUTH_EXPIRE_TIMEOUT
  }

  /** With no incoming limit the timeout is at most 15 s exactly when a session waits whose time does not wrap. */
  lemma ShortTimeoutExactly(slots: seq<Slot>, timeout: int, clock: nat -> int)
    requires timeout < 0 && OpenedBefore(slots, clock)
    ensures 0 <= Limit(slots, |slots|, timeout, clock) <= 15000 <==>
      exists k :: 0 <= k < |slots| && Waiting(slots[k]) && ShortWait(slots[k].authTimeout, clock(k))
  {
    LimitIsMinimum(slots, |slots|, timeout, clock);
    forall k | 0 <= k < |slots| && Waiting(slots[k])
      ensures Remaining(slots[k].authTimeout, clock(k)) <= 15000 <==> ShortWait(slots[k].authTimeout, clock(k))
    {
      RemainingShort(slots[k].authTimeout, clock(k));
    }
  }

  /** Reachable tables meet the assumption: their deadlines were set from the same clock. */
  lemma ReachableOpenedBefore(n: nat, ops: seq<Op>, now: int, clock: nat -> int)
    requires PossibleRun(n, ops)
    requires forall j :: 0 <= j < |ops| && ops[j].OpenOp? ==> ops[j].now <= now
    requires forall k :: 0 <= k < n ==> now <= clock(k)
    ensures OpenedBefore(Run(n, ops).slots, clock)
  {
    ReachableDeadlines(n, ops, now);
  }
}
