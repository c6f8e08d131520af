/**
 Authentication attempts of the PAM handshake. A few timestamps stand in for the
 whole history of failures; too many failures within a period lock everyone out.
 The number of timestamps is kept symbolic.
 */
module Lockout {
  import opened Basics
  import Session

  const PERIOD_SECS: nat := 60
  const LOCKOUT_SECS: nat := 60
  const REQUEST_SIZE: nat := 129
  const AUTH_HDR_VERSION: nat := 0x30

  datatype AuthRet = AuthOk | SysErr | InvalidData | Unauthorized | LockedOut

  /** Verdicts that auth_track_attempt records as failures. */
  predicate Tracked(v: AuthRet) {
    v.Unauthorized? || v.InvalidData?
  }

  // ---- The tracker as the code runs it ----

  /** The first index of a smallest timestamp. */
  function Oldest(s: seq<int>): (i: nat)
    requires s != []
    ensures i < |s|
    ensures forall k :: 0 <= k < |s| ==> s[i] <= s[k]
    ensures forall k :: 0 <= k < i ==> s[i] < s[k]
  {
    if |s| == 1 then 0
    else
      var i := Oldest(s[..|s| - 1]);
      assert forall k :: 0 <= k < |s| - 1 ==> s[..|s| - 1][k] == s[k];
      if s[|s| - 1] < s[i] then |s| - 1 else i
  }

  /** How many timestamps lie within the period that ends now. */
  function InPeriod(s: seq<int>, now: int): (r: nat)
    ensures r <= |s|
  {
    if s == [] then 0
    else InPeriod(s[..|s| - 1], now) + if s[|s| - 1] > now - PERIOD_SECS then 1 else 0
  }

  /** auth_track_attempt: the timestamps afterwards and the verdict it returns. */
  function Track(slots: seq<int>, v: AuthRet, now: int): (r: (seq<int>, AuthRet))
    requires slots != []
    ensures |r.0| == |slots|
  {
    if v.AuthOk? then (Repeat(|slots|, 0), v)
    else if Tracked(v) then
      (slots[Oldest(slots) := now], if 1 + InPeriod(slots, now) > |slots| then LockedOut else v)
    else (slots, v)
  }

  // ---- The unbounded reference ----

  /** All failures since the last success, oldest first. */
  function Remember(history: seq<int>, v: AuthRet, now: int): seq<int> {
    if v.AuthOk? then [] else if Tracked(v) then history + [now] else history
  }

  /** The verdict that the documented rule gives: more than n failures in the period, this one included. */
  function Rule(history: seq<int>, n: nat, v: AuthRet, now: int): AuthRet {
    if Tracked(v) && 1 + InPeriod(history, now) > n then LockedOut else v
  }

  datatype Attempt = Attempt(verdict: AuthRet, time: int)

  /** Attempts made under a clock that starts at or after 0 and never goes back. */
  predicate Timely(run: seq<Attempt>) {
    && (forall i :: 0 <= i < |run| ==> 0 <= run[i].time)
    && (forall i, j :: 0 <= i < j < |run| ==> run[i].time <= run[j].time)
  }

  function Slots(n: nat, run: seq<Attempt>): (r: seq<int>)
    requires n > 0
    ensures |r| == n
  {
    if run == [] then Repeat(n, 0)
    else
      var last := run[|run| - 1];
      Track(Slots(n, run[..|run| - 1]), last.verdict, last.time).0
  }

  function History(run: seq<Attempt>): seq<int> {
    if run == [] then []
    else
      var last := run[|run| - 1];
      Remember(History(run[..|run| - 1]), last.verdict, last.time)
  }

  predicate Sorted(s: seq<int>) {
    forall i, j :: 0 <= i < j < |s| ==> s[i] <= s[j]
  }

  predicate Within(s: seq<int>, lo: int, hi: int) {
    forall i :: 0 <= i < |s| ==> lo <= s[i] <= hi
  }

  /** The n most recent entries of the history, with zeros in front when there are fewer. */
  function Recent(n: nat, history: seq<int>): (r: seq<int>)
    ensures |r| == n
  {
    (Repeat(n, 0) + history)[|history|..]
  }

  /** The timestamps are, in some order, the n most recent failures. */
  predicate Represents(slots: seq<int>, history: seq<int>) {
    multiset(slots) == multiset(Recent(|slots|, history))
  }

  lemma {:induction false} HistoryShape(run: seq<Attempt>, hi: int)
    requires Timely(run) && 0 <= hi && forall i :: 0 <= i < |run| ==> run[i].time <= hi
    ensures Sorted(History(run)) && Within(History(run), 0, hi)
    decreases |run|
  {
    if run != [] {
      HistoryShape(run[..|run| - 1], run[|run| - 1].time);
    }
  }

  lemma RecentShape(n: nat, history: seq<int>)
    requires Sorted(history) && forall i :: 0 <= i < |history| ==> 0 <= history[i]
    ensures Sorted(Recent(n, history))
  {
    var padded := Repeat(n, 0) + history;
    assert forall i, j :: 0 <= i < j < |padded| ==> padded[i] <= padded[j];
  }

  lemma RecentSnoc(n: nat, history: seq<int>, now: int)
    requires n > 0
    ensures Recent(n, history + [now]) == Recent(n, history)[1..] + [now]
  {
    assert Repeat(n, 0) + (history + [now]) == Repeat(n, 0) + history + [now];
  }

  lemma MultisetReplace(s: seq<int>, i: nat, v: int)
    requires i < |s|
    ensures multiset(s[i := v]) == multiset(s) - multiset{s[i]} + multiset{v}
  {
  }

  lemma MultisetTail(s: seq<int>, v: int)
    requires s != []
    ensures multiset(s[1..] + [v]) == multiset(s) - multiset{s[0]} + multiset{v}
  {
    assert s == [s[0]] + s[1..];
  }

  /** The smallest timestamp is the oldest of the recent failures. */
  lemma OldestIsFirst(slots: seq<int>, recent: seq<int>)
    requires slots != [] && multiset(slots) == multiset(recent) && Sorted(recent)
    ensures |recent| == |slots| && slots[Oldest(slots)] == recent[0]
  {
    assert |recent| == |multiset(recent)| == |slots|;
    assert recent[0] in multiset(slots);
    assert slots[Oldest(slots)] in multiset(recent);
  }

  /** One attempt keeps the timestamps in step with the unbounded history. */
  lemma TrackKeeps(slots: seq<int>, history: seq<int>, v: AuthRet, now: int)
    requires slots != [] && Represents(slots, history)
    requires Sorted(history) && Within(history, 0, now)
    ensures Represents(Track(slots, v, now).0, Remember(history, v, now))
  {
    var n := |slots|;
    if v.AuthOk? {
      assert Recent(n, []) == Repeat(n, 0);
    } else if Tracked(v) {
      var recent := Recent(n, history);
      RecentShape(n, history);
      OldestIsFirst(slots, recent);
      MultisetReplace(slots, Oldest(slots), now);
      MultisetTail(recent, now);
      RecentSnoc(n, history, now);
    }
  }

  /** In every run the timestamps are the n most recent failures since the last success. */
  lemma {:induction false} SlotsHoldRecentFailures(n: nat, run: seq<Attempt>)
    requires n > 0 && Timely(run)
    ensures Represents(Slots(n, run), History(run))
    decreases |run|
  {
    if run == [] {
      assert Recent(n, []) == Repeat(n, 0);
    } else {
      var init, last := run[..|run| - 1], run[|run| - 1];
      SlotsHoldRecentFailures(n, init);
      HistoryShape(init, last.time);
      TrackKeeps(Slots(n, init), History(init), last.verdict, last.time);
    }
  }

  /** A full count means that every timestamp lies in the period. */
  lemma {:induction false} AllInPeriod(s: seq<int>, now: int)
    ensures InPeriod(s, now) == |s| <==> forall i :: 0 <= i < |s| ==> s[i] > now - PERIOD_SECS
  {
    if s != [] {
      var init := s[..|s| - 1];
      AllInPeriod(init, now);
      assert forall i :: 0 <= i < |init| ==> init[i] == s[i];
    }
  }

  /** In a sorted history the period holds n entries exactly when it holds the n-th from the end. */
  lemma {:induction false} SortedInPeriod(s: seq<int>, n: nat, now: int)
    requires Sorted(s) && 0 < n <= |s|
    ensures InPeriod(s, now) >= n <==> s[|s| - n] > now - PERIOD_SECS
    decreases |s|
  {
    var init := s[..|s| - 1];
    if n > 1 {
      SortedInPeriod(init, n - 1, now);
    } else if s[|s| - 1] <= now - PERIOD_SECS {
      NoneInPeriod(s, now);
    }
  }

  lemma {:induction false} NoneInPeriod(s: seq<int>, now: int)
    requires forall i :: 0 <= i < |s| ==> s[i] <= now - PERIOD_SECS
    ensures InPeriod(s, now) == 0
  {
    if s != [] {
      NoneInPeriod(s[..|s| - 1], now);
    }
  }

  /** The tracker locks out exactly when the oldest of the recent failures is still in the period. */
  lemma LocksOnOldest(slots: seq<int>, history: seq<int>, now: int)
    requires slots != [] && Represents(slots, history)
    requires Sorted(history) && Within(history, 0, now)
    ensures 1 + InPeriod(slots, now) > |slots| <==> Recent(|slots|, history)[0] > now - PERIOD_SECS
  {
    var recent := Recent(|slots|, history);
    RecentShape(|slots|, history);
    AllInPeriod(slots, now);
    OldestIsFirst(slots, recent);
  }

  /**
   The verdict of the few timestamps is the verdict of the documented rule over
   the whole history exactly when the attempt is not a failure, the clock has
   passed the first period, or the history already fills the timestamps. (An
   empty timestamp reads 0, which lies in the period while the clock is below 60.)
   */
  lemma VerdictExact(n: nat, run: seq<Attempt>, v: AuthRet, now: int)
    requires n > 0 && Timely(run + [Attempt(v, now)])
    ensures Track(Slots(n, run), v, now).1 == Rule(History(run), n, v, now)
       <==> !Tracked(v) || now >= PERIOD_SECS || |History(run)| >= n
  {
    var all := run + [Attempt(v, now)];
    assert all[|run|].time == now && forall i :: 0 <= i < |run| ==> all[i] == run[i];
    assert Timely(run);
    var history := History(run);
    SlotsHoldRecentFailures(n, run);
    HistoryShape(run, now);
    LocksOnOldest(Slots(n, run), history, now);
    if |history| >= n {
      SortedInPeriod(history, n, now);
    }
  }

  /** Before the first minute the few timestamps lock out on the very first failure. */
  lemma EarlyFailureLocksOut()
    ensures Track(Slots(3, []), Unauthorized, 10).1 == LockedOut
    ensures Rule(History([]), 3, Unauthorized, 10) == Unauthorized
  {
    AllInPeriod(Slots(3, []), 10);
  }

  // ---- The handshake ----

  /** What the outside world answers during one handshake, and the clock as it is read. */
  datatype Handshake = Handshake(
    randomOk: bool,        // the random source delivered a throw-away password
    received: int,         // bytes received; not positive on error or disconnect
    pending: bool,         // more data is waiting behind the request
    version: nat,          // header version in the client's request
    pam: AuthRet,          // PAM's verdict on whichever password it is shown
    sent: bool,            // the response could be written
    checkTime: int, trackTime: int, lockTime: int)

  datatype Response = Success | SystemError | Busy | Failure

  datatype AuthState = AuthState(slots: seq<int>, lockedUntil: int)

  predicate PamVerdict(v: AuthRet) {
    v.AuthOk? || v.SysErr? || v.Unauthorized?
  }

  /** The client's own request is looked at, rather than a throw-away password or nothing at all. */
  predicate ExaminesClient(s: AuthState, h: Handshake) {
    h.randomOk && h.received > 0 && h.checkTime >= s.lockedUntil && !h.pending
  }

  /** Data arrives while locked: a throw-away password is checked in its place. */
  predicate ChecksDecoy(s: AuthState, h: Handshake) {
    h.randomOk && h.received > 0 && h.checkTime < s.lockedUntil
  }

  /** The verdict that is handed to the tracker, if the handshake gets that far. */
  function Examined(s: AuthState, h: Handshake): AuthRet {
    if ExaminesClient(s, h) && (h.received > REQUEST_SIZE || h.version > AUTH_HDR_VERSION) then InvalidData
    else h.pam
  }

  predicate ReachesTracker(s: AuthState, h: Handshake) {
    ExaminesClient(s, h) || ChecksDecoy(s, h)
  }

  /** The verdict before the response is sent. */
  function Verdict(s: AuthState, h: Handshake): AuthRet
    requires s.slots != []
  {
    if ChecksDecoy(s, h) then LockedOut
    else if ExaminesClient(s, h) then Track(s.slots, Examined(s, h), h.trackTime).1
    else InvalidData
  }

  function Next(s: AuthState, h: Handshake): (r: AuthState)
    requires s.slots != []
    ensures |r.slots| == |s.slots|
  {
    AuthState(
      if ReachesTracker(s, h) then Track(s.slots, Examined(s, h), h.trackTime).0 else s.slots,
      if Verdict(s, h).LockedOut? then h.lockTime + LOCKOUT_SECS else s.lockedUntil)
  }

  predicate Accepts(s: AuthState, h: Handshake)
    requires s.slots != []
  {
    Verdict(s, h).AuthOk? && h.sent
  }

  /** At most 129 bytes and a header version of at most 0x30. */
  predicate WellFormed(h: Handshake) {
    h.received <= 129 && h.version <= 0x30
  }

  /** When a handshake succeeds, in every state and for every outcome. */
  lemma AcceptsExactly(s: AuthState, h: Handshake)
    requires s.slots != []
    ensures Accepts(s, h) <==>
      h.randomOk && 0 < h.received <= 129 && h.version <= 0x30 && !h.pending && h.checkTime >= s.lockedUntil &&
      h.pam.AuthOk? && h.sent
  {
  }

  /**
   What a handshake leaves behind among the timestamps. A request that is looked
   at is judged by its form and then by PAM; during a lockout PAM judges a decoy,
   whatever the request was; otherwise nothing is recorded.
   */
  lemma RecordedExactly(s: AuthState, h: Handshake)
    requires s.slots != [] && PamVerdict(h.pam)
    ensures var slots := Next(s, h).slots;
      var failed := (ExaminesClient(s, h) && (!WellFormed(h) || h.pam.Unauthorized?)) ||
        (ChecksDecoy(s, h) && h.pam.Unauthorized?);
      var cleared := ((ExaminesClient(s, h) && WellFormed(h)) || ChecksDecoy(s, h)) && h.pam.AuthOk?;
      && (failed ==>
           exists k :: 0 <= k < |slots| && slots == s.slots[k := h.trackTime]
             && forall j :: 0 <= j < |slots| ==> s.slots[k] <= s.slots[j])
      && (cleared ==> forall j :: 0 <= j < |slots| ==> slots[j] == 0)
      && (!failed && !cleared ==> slots == s.slots)
  {
  }

  /** An oversized request or one with a newer version is refused as a failure, and recorded when it is looked at. */
  lemma MalformedIsRefused(s: AuthState, h: Handshake)
    requires s.slots != [] && ExaminesClient(s, h) && !WellFormed(h)
    ensures Verdict(s, h).InvalidData? || Verdict(s, h).LockedOut?
    ensures !Accepts(s, h) && h.trackTime in Next(s, h).slots
  {
    assert Next(s, h).slots[Oldest(s.slots)] == h.trackTime;
  }

  /** The lockout is renewed exactly by data during a lockout and by a failure that finds the timestamps full. */
  lemma LockoutExactly(s: AuthState, h: Handshake)
    requires s.slots != [] && PamVerdict(h.pam)
    ensures var full := forall j :: 0 <= j < |s.slots| ==> s.slots[j] > h.trackTime - 60;
      Verdict(s, h).LockedOut? <==>
        (h.randomOk && h.received > 0 && h.checkTime < s.lockedUntil) ||
        (ExaminesClient(s, h) && (!WellFormed(h) || h.pam.Unauthorized?) && full)
    ensures Next(s, h).lockedUntil == if Verdict(s, h).LockedOut? then h.lockTime + 60 else s.lockedUntil
  {
    AllInPeriod(s.slots, h.trackTime);
  }

  /** auth_pam.c's static state: the timestamps of recent failures and the end of the lockout. */
  class PamAuthenticator {
    const attempts: array<int>
    var lockedUntil: int

    ghost predicate Valid() reads this {
      attempts.Length > 0
    }

    ghost function State(): AuthState reads this, attempts {
      AuthState(attempts[..], lockedUntil)
    }

    constructor (n: nat)
      requires n > 0
      ensures Valid() && fresh(attempts)
      ensures State() == AuthState(Repeat(n, 0), 0)
    {
      attempts := new int[n](_ => 0);
      lockedUntil := 0;
      new;
      assert attempts[..] == Repeat(n, 0);
    }

    /** auth_track_attempt: one scan finds the oldest timestamp and counts those in the period. */
    method TrackAttempt(v: AuthRet, now: int) returns (r: AuthRet)
      requires Valid()
      modifies attempts
      ensures (attempts[..], r) == Track(old(attempts[..]), v, now)
    {
      r := v;
      ghost var was := attempts[..];
      if v.AuthOk? {
        for i := 0 to attempts.Length
          invariant forall k :: 0 <= k < i ==> attempts[k] == 0
        {
          attempts[i] := 0;
        }
        assert attempts[..] == Repeat(attempts.Length, 0);
      } else if v.Unauthorized? || v.InvalidData? {
        var invalid, oldest := 1, 0;
        for i := 0 to attempts.Length
          invariant attempts[..] == was
          invariant 0 <= oldest < attempts.Length && (i == 0 ==> oldest == 0)
          invariant i > 0 ==> oldest == Oldest(was[..i])
          invariant invalid == 1 + InPeriod(was[..i], now)
        {
          assert was[..i + 1][..i] == was[..i] && attempts[i] == was[i] && attempts[oldest] == was[oldest];
          if attempts[i] < attempts[oldest] {
            oldest := i;
          }
          if attempts[i] > now - PERIOD_SECS {
            invalid := invalid + 1;
          }
        }
        assert was[..attempts.Length] == was;
        attempts[oldest] := now;
        if invalid > attempts.Length {
          r := LockedOut;
        }
      }
    }

    /** authenticate_client: version and length first, then PAM, then the tracker. */
    method AuthenticateClient(received: int, version: nat, pam: AuthRet, now: int) returns (r: AuthRet)
      requires Valid()
      modifies attempts
      ensures (attempts[..], r) == Track(old(attempts[..]),
        if received > REQUEST_SIZE || version > AUTH_HDR_VERSION then InvalidData else pam, now)
    {
      var v := pam;
      if received > REQUEST_SIZE || version > AUTH_HDR_VERSION {
        v := InvalidData;
      }
      r := TrackAttempt(v, now);
    }

    /**
     authpam_client_handshake. It asks for the authenticated connection without a
     record to put it in, so the answer is always that there is none: no state of
     the sessions makes it respond Busy, and valid credentials are accepted even
     while another session is authenticated.
     */
    method ClientHandshake(h: Handshake, sessions: Session.Sessions) returns (ok: bool, response: Response)
      requires Valid() && sessions.Valid() && attempts as object != sessions.slots as object
      modifies this, attempts
      ensures Valid() && State() == Next(old(State()), h)
      ensures ok == Accepts(old(State()), h) && response != Busy
      ensures response == match Verdict(old(State()), h)
        case AuthOk => Success
        case SysErr => SystemError
        case _ => Failure
    {
      var ret: AuthRet;
      if !h.randomOk || h.received <= 0 {
        ret := InvalidData;
      } else if h.checkTime < lockedUntil {
        var ignored := AuthenticateClient(20, AUTH_HDR_VERSION, h.pam, h.trackTime);
        ret := LockedOut;
      } else if h.pending {
        ret := InvalidData;
      } else {
        ret := AuthenticateClient(h.received, h.version, h.pam, h.trackTime);
      }
      match ret {
        case AuthOk =>
          var current, conn := sessions.GetAuthenticatedConn(false);
          if !current {
            response := Success;
            if !h.sent {
              ret := SysErr;
            }
          } else {
            response := Busy;
            ret := Unauthorized;
          }
        case SysErr =>
          response := SystemError;
        case LockedOut =>
          lockedUntil := h.lockTime + LOCKOUT_SECS;
          response := Failure;
        case _ =>
          response := Failure;
      }
      ok := ret.AuthOk?;
    }
  }

  // ---- Runs of handshakes ----

  /** The clock is read in order, within a handshake and from one to the next, and starts at or after 0. */
  predicate InOrder(run: seq<Handshake>) {
    && (forall i :: 0 <= i < |run| ==>
      PamVerdict(run[i].pam) && 0 <= run[i].checkTime <= run[i].trackTime <= run[i].lockTime)
    && (forall i, j :: 0 <= i < j < |run| ==> run[i].lockTime <= run[j].checkTime)
  }

  function After(n: nat, run: seq<Handshake>): (s: AuthState)
    requires n > 0
    ensures |s.slots| == n
  {
    if run == [] then AuthState(Repeat(n, 0), 0)
    else Next(After(n, run[..|run| - 1]), run[|run| - 1])
  }

  /** The attempts that reached the tracker, in order. */
  function Attempts(n: nat, run: seq<Handshake>): seq<Attempt>
    requires n > 0
  {
    if run == [] then []
    else
      var init, h := run[..|run| - 1], run[|run| - 1];
      var s := After(n, init);
      Attempts(n, init) + if ReachesTracker(s, h) then [Attempt(Examined(s, h), h.trackTime)] else []
  }

  lemma {:induction false} AttemptsTimely(n: nat, run: seq<Handshake>)
    requires n > 0 && InOrder(run)
    ensures Timely(Attempts(n, run))
    ensures run != [] ==> forall i :: 0 <= i < |Attempts(n, run)| ==>
      Attempts(n, run)[i].time <= run[|run| - 1].lockTime
    decreases |run|
  {
    if run != [] {
      var init, h := run[..|run| - 1], run[|run| - 1];
      AttemptsTimely(n, init);
      if init != [] {
        assert run[|init| - 1].lockTime <= run[|init|].checkTime;
      }
    }
  }

  lemma AfterSnoc(n: nat, run: seq<Handshake>, h: Handshake)
    requires n > 0
    ensures After(n, run + [h]) == Next(After(n, run), h)
  {
    assert (run + [h])[..|run|] == run;
  }

  /** What one more handshake adds to the attempts. */
  lemma AttemptsStep(n: nat, init: seq<Handshake>, h: Handshake)
    requires n > 0
    ensures var s, past, all := After(n, init), Attempts(n, init), Attempts(n, init + [h]);
      if ReachesTracker(s, h) then
        Slots(n, all) == Track(Slots(n, past), Examined(s, h), h.trackTime).0
        && History(all) == Remember(History(past), Examined(s, h), h.trackTime)
      else all == past
    ensures After(n, init + [h]) == Next(After(n, init), h)
  {
    var run, s, past := init + [h], After(n, init), Attempts(n, init);
    assert run[..|run| - 1] == init;
    var all := past + [Attempt(Examined(s, h), h.trackTime)];
    assert all[..|all| - 1] == past;
  }

  /** The tracker's part of a run of handshakes is a run of attempts. */
  lemma {:induction false} AttemptsRefine(n: nat, run: seq<Handshake>)
    requires n > 0
    ensures After(n, run).slots == Slots(n, Attempts(n, run))
    decreases |run|
  {
    if run != [] {
      var init, h := run[..|run| - 1], run[|run| - 1];
      AttemptsRefine(n, init);
      AttemptsStep(n, init, h);
      assert run == init + [h];
    }
  }

  /** The end of the lockout never moves back. */
  lemma {:induction false} LockoutNeverShrinks(n: nat, run: seq<Handshake>, i: nat)
    requires n > 0 && InOrder(run) && i <= |run|
    ensures After(n, run[..i]).lockedUntil <= After(n, run).lockedUntil
    ensures run != [] ==> After(n, run).lockedUntil <= run[|run| - 1].lockTime + LOCKOUT_SECS
    decreases |run|
  {
    if run != [] {
      var init, h := run[..|run| - 1], run[|run| - 1];
      assert InOrder(init);
      LockoutNeverShrinks(n, init, if i < |run| then i else |init|);
      if i < |run| {
        assert run[..i] == init[..i];
      } else {
        assert run[..i] == run;
      }
    }
  }

  /** A handshake succeeds only when every earlier lockout verdict is at least the lockout time old. */
  lemma SuccessWaitsForLockouts(n: nat, run: seq<Handshake>, i: nat, j: nat)
    requires n > 0 && InOrder(run) && i < j < |run|
    requires Verdict(After(n, run[..i]), run[i]).LockedOut?
    requires Accepts(After(n, run[..j]), run[j])
    ensures run[j].checkTime >= run[i].lockTime + LOCKOUT_SECS
  {
    assert run[..i + 1][..i] == run[..i];
    LockoutNeverShrinks(n, run[..j], i + 1);
    assert run[..j][..i + 1] == run[..i + 1];
  }

  /** Data that arrives while locked renews the full lockout and is refused, whatever it contains. */
  lemma LockedDataRenews(s: AuthState, h: Handshake)
    requires s.slots != [] && ChecksDecoy(s, h)
    ensures Next(s, h).lockedUntil == h.lockTime + LOCKOUT_SECS && !Accepts(s, h)
  {
  }

  /** Below the start of a later period the count can only shrink. */
  lemma {:induction false} InPeriodShrinks(s: seq<int>, t: int, t': int)
    requires t <= t'
    ensures InPeriod(s, t') <= InPeriod(s, t)
  {
    if s != [] {
      InPeriodShrinks(s[..|s| - 1], t, t');
    }
  }

  /**
   Guessing is throttled: whenever a client's own request is examined, at most n
   failures since the last success (of clients and decoys together) lie in the
   period before it.
   */
  lemma {:induction false} GuessesAreThrottled(n: nat, run: seq<Handshake>, now: int)
    requires n > 0 && InOrder(run)
    requires run != [] ==> run[|run| - 1].lockTime <= now
    requires now >= After(n, run).lockedUntil
    ensures InPeriod(History(Attempts(n, run)), now) <= n
    decreases |run|
  {
    if run != [] {
      var init, h := run[..|run| - 1], run[|run| - 1];
      var s := After(n, init);
      assert InOrder(init);
      assert init != [] ==> init[|init| - 1].lockTime <= h.checkTime;
      if Verdict(s, h).LockedOut? {
        OldFailuresOnly(n, run, now);
      } else {
        GuessesAreThrottled(n, init, now);
        assert run == init + [h];
        GuessedOnce(n, init, h, now);
      }
    }
  }

  /** Once a lockout is over, every failure recorded before it is a whole period old. */
  lemma OldFailuresOnly(n: nat, run: seq<Handshake>, now: int)
    requires n > 0 && InOrder(run) && run != [] && run[|run| - 1].lockTime + LOCKOUT_SECS <= now
    ensures InPeriod(History(Attempts(n, run)), now) <= n
  {
    AttemptsTimely(n, run);
    HistoryShape(Attempts(n, run), run[|run| - 1].lockTime);
    NoneInPeriod(History(Attempts(n, run)), now);
  }

  /** One more handshake without a lockout verdict. */
  lemma GuessedOnce(n: nat, init: seq<Handshake>, h: Handshake, now: int)
    requires n > 0 && InOrder(init + [h]) && h.lockTime <= now
    requires !Verdict(After(n, init), h).LockedOut? && InPeriod(History(Attempts(n, init)), now) <= n
    ensures InPeriod(History(Attempts(n, init + [h])), now) <= n
  {
    var s, past := After(n, init), History(Attempts(n, init));
    AttemptsStep(n, init, h);
    if ReachesTracker(s, h) {
      if Tracked(Examined(s, h)) {
        NotLockedOut(n, init, h, now);
      }
      RememberedFew(past, Examined(s, h), h.trackTime, n, now);
    }
  }

  lemma RememberedFew(past: seq<int>, v: AuthRet, time: int, n: nat, now: int)
    requires InPeriod(past, now) <= n && (Tracked(v) ==> InPeriod(past + [time], now) <= n)
    ensures InPeriod(Remember(past, v, time), now) <= n
  {
  }

  /** A failure that did not lock out leaves at most n failures in the period. */
  lemma NotLockedOut(n: nat, init: seq<Handshake>, h: Handshake, now: int)
    requires n > 0 && InOrder(init + [h]) && h.lockTime <= now
    requires var s := After(n, init); ReachesTracker(s, h) && Tracked(Examined(s, h)) && !Verdict(s, h).LockedOut?
    ensures InPeriod(History(Attempts(n, init)) + [h.trackTime], now) <= n
  {
    var run := init + [h];
    var s, past, v := After(n, init), Attempts(n, init), Examined(After(n, init), h);
    assert run[..|run| - 1] == init;
    AttemptsTimely(n, run);
    AttemptsRefine(n, init);
    VerdictExact(n, past, v, h.trackTime);
    var history := History(past);
    assert 1 + InPeriod(history, h.trackTime) <= n by {
      assert Track(s.slots, v, h.trackTime).1 == Verdict(s, h);
    }
    InPeriodShrinks(history, h.trackTime, now);
    var longer := history + [h.trackTime];
    assert longer[..|longer| - 1] == history;
  }
}
