/** The gateway's DoIP client that reconnects with exponential backoff, over every sequence of calls. */
module ReconnectClient {
  import opened Words
  import Runs

  const INITIAL_BACKOFF := 1000
  const MAX_BACKOFF := 30000
  const KEEPALIVE_INTERVAL := 30000

  datatype ConnState = Disconnected | Connecting | Connected | Reconnecting

  datatype Client = Client(
    state: ConnState, isConnected: bool,
    reconnectCount: uint32, totalReconnects: uint32,
    backoff: uint32, lastAttempt: uint32, lastKeepalive: uint32)

  const INITIAL := Client(Disconnected, false, 0, 0, INITIAL_BACKOFF, 0, 0)

  /** `connects` is what a connection attempt would answer. */
  datatype Call = Start | Process(connects: bool) | Send | Receive | Reset | Cleanup

  /** A call and the true time in milliseconds at which it is made. */
  datatype Event = Event(call: Call, now: nat)

  /** Whether the call makes a connection attempt. */
  predicate Attempts(c: Client, e: Event) {
    && e.call.Process? && (c.state == Connecting || c.state == Reconnecting)
    && Sub32(Tick(e.now), c.lastAttempt) >= c.backoff
  }

  predicate Fails(c: Client, e: Event) { Attempts(c, e) && !e.call.connects }

  predicate Succeeds(c: Client, e: Event) { Attempts(c, e) && e.call.connects }

  function Doubled(backoff: uint32): uint32 {
    var twice := backoff * 2 % W32;
    if twice > MAX_BACKOFF then MAX_BACKOFF else twice
  }

  function Step(c: Client, e: Event): Client {
    match e.call
    case Start => if c.state == Connected then c else c.(state := Connecting, lastAttempt := Tick(e.now))
    case Process(connects) =>
      if Attempts(c, e) then
        if connects then
          c.(state := Connected, isConnected := true, reconnectCount := 0, backoff := INITIAL_BACKOFF,
             lastAttempt := Tick(e.now), lastKeepalive := Tick(e.now))
        else
          c.(state := Reconnecting, reconnectCount := (c.reconnectCount + 1) % W32,
             totalReconnects := (c.totalReconnects + 1) % W32, backoff := Doubled(c.backoff),
             lastAttempt := Tick(e.now))
      else if c.state == Connected && Sub32(Tick(e.now), c.lastKeepalive) > KEEPALIVE_INTERVAL then
        c.(lastKeepalive := Tick(e.now))
      else c
    case Send => c
    case Receive => c
    case Reset => c.(state := Reconnecting, isConnected := false, backoff := INITIAL_BACKOFF, lastAttempt := 0)
    case Cleanup => c.(isConnected := false)
  }

  // ---------------------------------------------------------------------------------------------
  // The code
  // ---------------------------------------------------------------------------------------------

  class ReconnectingClient {
    var state: ConnState
    var isConnected: bool
    var reconnectCount: uint32
    var totalReconnects: uint32
    var backoff: uint32
    var lastAttempt: uint32
    var lastKeepalive: uint32

    function Value(): Client
      reads this
    {
      Client(state, isConnected, reconnectCount, totalReconnects, backoff, lastAttempt, lastKeepalive)
    }

    constructor ()
      ensures Value() == INITIAL
    {
      state, isConnected := Disconnected, false;
      reconnectCount, totalReconnects, backoff := 0, 0, INITIAL_BACKOFF;
      lastAttempt, lastKeepalive := 0, 0;
    }

    method StartConnecting(now: nat)
      modifies this
      ensures Value() == Step(old(Value()), Event(Start, now))
    {
      if state == Connected { return; }
      state := Connecting;
      lastAttempt := Tick(now);
    }

    /** `connects` is the answer of the attempt, if one is made. 0: connected, -1: not started, -2: connecting. */
    method ProcessState(now: nat, connects: bool) returns (rc: int)
      modifies this
      ensures Value() == Step(old(Value()), Event(Process(connects), now))
      ensures rc == match state
                    case Disconnected => -1
                    case Connected => 0
                    case _ => -2
    {
      var current := Tick(now);
      if state == Disconnected {
        return -1;
      } else if state == Connecting || state == Reconnecting {
        if Sub32(current, lastAttempt) < backoff { return -2; }
        lastAttempt := current;
        if connects {
          state, isConnected, reconnectCount, backoff, lastKeepalive := Connected, true, 0, INITIAL_BACKOFF, current;
          return 0;
        }
        reconnectCount := (reconnectCount + 1) % W32;
        totalReconnects := (totalReconnects + 1) % W32;
        backoff := backoff * 2 % W32;
        if backoff > MAX_BACKOFF {
          backoff := MAX_BACKOFF;
        }
        state := Reconnecting;
        return -2;
      } else {
        if Sub32(current, lastKeepalive) > KEEPALIVE_INTERVAL {
          lastKeepalive := current;
        }
        return 0;
      }
    }

    method ForceReconnect()
      modifies this
      ensures forall now :: Value() == Step(old(Value()), Event(Reset, now))
    {
      isConnected := false;
      state, backoff, lastAttempt := Reconnecting, INITIAL_BACKOFF, 0;
    }

    method CleanUp()
      modifies this
      ensures forall now :: Value() == Step(old(Value()), Event(Cleanup, now))
    {
      isConnected := false;
    }
  }

  // ---------------------------------------------------------------------------------------------
  // Runs
  // ---------------------------------------------------------------------------------------------

  function ClientStep(run: nat -> Event): (nat, Client) -> Client {
    (i: nat, c: Client) => Step(c, run(i))
  }

  ghost function ClientAt(run: nat -> Event, n: nat): Client {
    Runs.At(ClientStep(run), INITIAL, n)
  }

  lemma Advance(run: nat -> Event, n: nat)
    ensures ClientAt(run, n + 1) == Step(ClientAt(run, n), run(n))
  {
    assert Runs.At(ClientStep(run), INITIAL, n + 1) == ClientStep(run)(n, ClientAt(run, n));
  }

  /** After every sequence of calls the connected flag implies the connected state. */
  lemma ConnectedFlagImpliesState(run: nat -> Event, n: nat)
    ensures ClientAt(run, n).isConnected ==> ClientAt(run, n).state == Connected
  {
    var inv := (c: Client) => c.isConnected ==> c.state == Connected;
    forall i: nat, c: Client | inv(c) ensures inv(ClientStep(run)(i, c)) {
      assert inv(Step(c, run(i)));
    }
    Runs.Invariant(ClientStep(run), inv, INITIAL, 0, n);
  }

  /** Call `i` cleans up a connected client, and no call from there up to `n` is a forced reconnection. */
  ghost predicate CutOffSince(run: nat -> Event, i: nat, n: nat) {
    && i < n && run(i).call.Cleanup? && ClientAt(run, i).state == Connected
    && forall j: nat :: i < j < n ==> !run(j).call.Reset?
  }

  ghost predicate CutOff(run: nat -> Event, n: nat) { exists i: nat :: CutOffSince(run, i, n) }

  lemma CutOffStep(run: nat -> Event, n: nat)
    ensures CutOff(run, n + 1)
       <==> (run(n).call.Cleanup? && ClientAt(run, n).state == Connected) || (CutOff(run, n) && !run(n).call.Reset?)
  {
    var next := n + 1;
    if i: nat :| CutOffSince(run, i, next) {
      assert i == n || CutOffSince(run, i, n);
    }
    if run(n).call.Cleanup? && ClientAt(run, n).state == Connected {
      assert CutOffSince(run, n, n + 1);
    }
    if i: nat :| CutOffSince(run, i, n) && !run(n).call.Reset? {
      assert CutOffSince(run, i, n + 1);
    }
  }

  /**
   * The state and the flag tell different stories exactly from a clean-up in the connected state until a forced
   * reconnection; meanwhile the state says connected.
   */
  lemma {:induction false} StateAndFlagDisagreeExactlyWhen(run: nat -> Event, n: nat)
    ensures var c := ClientAt(run, n); (c.state == Connected) != c.isConnected <==> CutOff(run, n)
    ensures CutOff(run, n) ==> ClientAt(run, n).state == Connected
  {
    if n > 0 {
      StateAndFlagDisagreeExactlyWhen(run, n - 1);
      CutOffStep(run, n - 1);
      Advance(run, n - 1);
      ConnectedFlagImpliesState(run, n - 1);
    }
  }

  /** A client that was cut off makes no attempt, started again or polled, until it is forced to reconnect. */
  lemma CutOffStaysIdle(run: nat -> Event, n: nat)
    requires CutOff(run, n)
    ensures !Attempts(ClientAt(run, n), run(n))
    ensures !run(n).call.Reset? ==> CutOff(run, n + 1) && !ClientAt(run, n + 1).isConnected
    ensures run(n).call.Start? ==> ClientAt(run, n + 1) == ClientAt(run, n)
  {
    StateAndFlagDisagreeExactlyWhen(run, n);
    StateAndFlagDisagreeExactlyWhen(run, n + 1);
    CutOffStep(run, n);
    Advance(run, n);
  }

  function Pow2(n: nat): nat { if n == 0 then 1 else 2 * Pow2(n - 1) }

  /** The backoff after `k` failures in a row. */
  function BackoffAfter(k: nat): nat {
    if 1000 * Pow2(k) < 30000 then 1000 * Pow2(k) else 30000
  }

  /** Failed attempts since the last success or reset, among the first `n` calls. */
  ghost function FailuresAt(run: nat -> Event, n: nat): nat {
    if n == 0 then 0
    else
      var c, e := ClientAt(run, n - 1), run(n - 1);
      if Fails(c, e) then FailuresAt(run, n - 1) + 1
      else if Succeeds(c, e) || e.call.Reset? then 0
      else FailuresAt(run, n - 1)
  }

  lemma BackoffDoubles(k: nat)
    ensures Doubled(BackoffAfter(k)) == BackoffAfter(k + 1)
  {
  }

  /** Closed form of the backoff, after every sequence of calls. */
  lemma {:induction false} BackoffClosedForm(run: nat -> Event, n: nat)
    ensures ClientAt(run, n).backoff == BackoffAfter(FailuresAt(run, n))
  {
    if n == 0 {
      assert Pow2(0) == 1;
    } else {
      BackoffClosedForm(run, n - 1);
      Advance(run, n - 1);
      BackoffDoubles(FailuresAt(run, n - 1));
      assert Pow2(0) == 1;
    }
  }

  // ---------------------------------------------------------------------------------------------
  // Timing of the attempts
  // ---------------------------------------------------------------------------------------------

  /** The sum of the first `k` backoffs. */
  function WaitBefore(k: nat): nat {
    if k == 0 then 0 else WaitBefore(k - 1) + BackoffAfter(k - 1)
  }

  /** At time `now` the `k`-th attempt after a start may be made. */
  predicate Due(start: nat, k: nat, now: nat) { start + WaitBefore(k) <= now }

  /** Connection attempts among the first `n` calls. */
  ghost function AttemptsBefore(run: nat -> Event, n: nat): nat {
    if n == 0 then 0 else AttemptsBefore(run, n - 1) + if Attempts(ClientAt(run, n - 1), run(n - 1)) then 1 else 0
  }

  predicate InOrder(run: nat -> Event, i: nat, j: nat) { run(i).now <= run(j).now }

  /** True time never runs backwards. */
  ghost predicate Timely(run: nat -> Event) {
    forall i: nat, j: nat :: i <= j ==> InOrder(run, i, j)
  }

  /**
   * `k` attempts after a start at time `start`, with no reset since: while not connected, all of them have failed and
   * the last attempt (or start) was made at a true time `last` no earlier than the backoffs demand.
   */
  predicate Waiting(c: Client, k: nat, start: nat, last: nat, now: nat) {
    && c.state != Disconnected
    && (c.state != Connected ==>
         && c.lastAttempt == Tick(last) && start + WaitBefore(k) <= last <= now
         && c.backoff == BackoffAfter(k))
  }

  lemma WaitingStep(c: Client, e: Event, k: nat, start: nat, last: nat, next: nat) returns (last': nat)
    requires Waiting(c, k, start, last, e.now) && !e.call.Reset? && e.now <= next
    ensures Waiting(Step(c, e), k + if Attempts(c, e) then 1 else 0, start, last', next)
  {
    last' := last;
    if Attempts(c, e) {
      WaitingAttempt(c, e, k, start, last);
      BackoffDoubles(k);
      last' := e.now;
    } else if e.call.Start? {
      last' := e.now;
    }
  }

  lemma WaitingAttempt(c: Client, e: Event, k: nat, start: nat, last: nat)
    requires Waiting(c, k, start, last, e.now) && Attempts(c, e)
    ensures Due(start, k + 1, e.now)
  {
    TickDifference(last, e.now);
    assert WaitBefore(k + 1) == WaitBefore(k) + BackoffAfter(k);
  }

  /** Right after the first start. */
  lemma FirstWait(run: nat -> Event, s: nat)
    requires run(s).call.Start? && forall i: nat :: i < s ==> !run(i).call.Start? && !run(i).call.Reset?
    requires run(s).now <= run(s + 1).now
    ensures Waiting(ClientAt(run, s + 1), AttemptsBefore(run, s + 1), run(s).now, run(s).now, run(s + 1).now)
  {
    NotStarted(run, s);
    Advance(run, s);
    assert Pow2(0) == 1;
  }

  lemma NextWait(run: nat -> Event, start: nat, last: nat, m: nat) returns (last': nat)
    requires Waiting(ClientAt(run, m), AttemptsBefore(run, m), start, last, run(m).now)
    requires !run(m).call.Reset? && run(m).now <= run(m + 1).now
    ensures Waiting(ClientAt(run, m + 1), AttemptsBefore(run, m + 1), start, last', run(m + 1).now)
  {
    Advance(run, m);
    last' := WaitingStep(ClientAt(run, m), run(m), AttemptsBefore(run, m), start, last, run(m + 1).now);
  }

  lemma Waited(run: nat -> Event, s: nat, n: nat) returns (last: nat)
    requires Timely(run) && s < n
    requires run(s).call.Start? && forall i: nat :: i < s ==> !run(i).call.Start?
    requires forall i: nat :: i < n ==> !run(i).call.Reset?
    ensures Waiting(ClientAt(run, n), AttemptsBefore(run, n), run(s).now, last, run(n).now)
  {
    assert InOrder(run, s, s + 1);
    FirstWait(run, s);
    last := run(s).now;
    for m: nat := s + 1 to n
      invariant Waiting(ClientAt(run, m), AttemptsBefore(run, m), run(s).now, last, run(m).now)
    {
      assert InOrder(run, m, m + 1);
      last := NextWait(run, run(s).now, last, m);
    }
  }

  /** Before the first start nothing happens. */
  lemma {:induction false} NotStarted(run: nat -> Event, n: nat)
    requires forall i: nat :: i < n ==> !run(i).call.Start? && !run(i).call.Reset?
    ensures ClientAt(run, n) == INITIAL && AttemptsBefore(run, n) == 0
  {
    if n > 0 {
      NotStarted(run, n - 1);
      Advance(run, n - 1);
    }
  }

  /**
   * Without resets, the k-th attempt comes no earlier than the first start plus the sum of the first k backoffs,
   * however often the client is polled or started again and however the 32-bit tick wraps.
   */
  lemma AttemptsAreSpaced(run: nat -> Event, s: nat, n: nat)
    requires Timely(run)
    requires run(s).call.Start? && forall i: nat :: i < s ==> !run(i).call.Start?
    requires forall i: nat :: i < n ==> !run(i).call.Reset?
    requires Attempts(ClientAt(run, n), run(n))
    ensures s < n && Due(run(s).now, AttemptsBefore(run, n) + 1, run(n).now)
  {
    NoAttemptBeforeStart(run, s, n);
    var last := Waited(run, s, n);
    WaitingAttempt(ClientAt(run, n), run(n), AttemptsBefore(run, n), run(s).now, last);
  }

  lemma NoAttemptBeforeStart(run: nat -> Event, s: nat, n: nat)
    requires forall i: nat :: i < s ==> !run(i).call.Start?
    requires forall i: nat :: i < n ==> !run(i).call.Reset?
    requires Attempts(ClientAt(run, n), run(n))
    ensures s < n
  {
    if n <= s { NotStarted(run, n); }
  }

  /** A forced reconnection retries at once exactly when the tick counter shows at least the initial backoff. */
  lemma ResetRetriesAtOnceExactlyWhen(c: Client, resetAt: nat, now: nat, connects: bool)
    ensures Attempts(Step(c, Event(Reset, resetAt)), Event(Process(connects), now)) <==> Tick(now) >= 1000
  {
  }

  // ---------------------------------------------------------------------------------------------
  // Attempts are made, and what they do
  // ---------------------------------------------------------------------------------------------

  /** Waiting for the next attempt, the last one (or start) having been made at true time `last`. */
  predicate WaitingSince(c: Client, last: nat) {
    (c.state == Connecting || c.state == Reconnecting) && c.lastAttempt == Tick(last)
  }

  /** A start of a client that is not connected, or an attempt that fails. */
  predicate BeginsWait(c: Client, e: Event) { (e.call.Start? && c.state != Connected) || Fails(c, e) }

  /** No start, no reset and no attempt. */
  predicate LeavesWaiting(c: Client, e: Event) { !e.call.Start? && !e.call.Reset? && !Attempts(c, e) }

  lemma WaitingStays(c: Client, e: Event, last: nat)
    requires WaitingSince(c, last) && LeavesWaiting(c, e)
    ensures WaitingSince(Step(c, e), last)
  {
  }

  lemma WaitingBegins(c: Client, e: Event)
    requires BeginsWait(c, e)
    ensures WaitingSince(Step(c, e), e.now)
  {
  }

  predicate Follows(client: nat -> Client, run: nat -> Event, k: nat) { client(k + 1) == Step(client(k), run(k)) }

  lemma {:induction false} WaitingAlong(client: nat -> Client, run: nat -> Event, i: nat, n: nat)
    requires i < n && BeginsWait(client(i), run(i)) && forall k: nat :: Follows(client, run, k)
    requires forall j: nat :: i < j < n ==> LeavesWaiting(client(j), run(j))
    ensures WaitingSince(client(n), run(i).now)
    decreases n
  {
    assert Follows(client, run, n - 1);
    if i == n - 1 {
      WaitingBegins(client(i), run(i));
    } else {
      WaitingAlong(client, run, i, n - 1);
      WaitingStays(client(n - 1), run(n - 1), run(i).now);
    }
  }

  /** From `last` to `now` at least `wait` ms of ticks have passed. */
  predicate Passed(last: nat, now: nat, wait: nat) { (now - last) % 0x1_0000_0000 >= wait }

  lemma DueByBackoff(c: Client, e: Event, last: nat, wait: nat)
    requires WaitingSince(c, last) && last <= e.now && e.call.Process? && wait == c.backoff
    ensures Attempts(c, e) <==> Passed(last, e.now, wait)
  {
    TickDifference(last, e.now);
  }

  ghost function ClientOf(run: nat -> Event): nat -> Client { (n: nat) => ClientAt(run, n) }

  /**
   * After a start or a failed attempt at step `i`, with `k` failures behind it, a poll attempts to connect exactly if
   * min(30000, 1000 * 2^k) ms of ticks have passed: so the first poll after that time does, until the tick comes round.
   */
  lemma PollAttemptsExactlyWhen(run: nat -> Event, i: nat, n: nat)
    requires Timely(run) && i < n && run(n).call.Process? && BeginsWait(ClientAt(run, i), run(i))
    requires forall j: nat :: i < j < n ==> LeavesWaiting(ClientAt(run, j), run(j))
    ensures Attempts(ClientAt(run, n), run(n)) <==> Passed(run(i).now, run(n).now, BackoffAfter(FailuresAt(run, n)))
  {
    var client := ClientOf(run);
    forall k: nat ensures Follows(client, run, k) { Advance(run, k); }
    assert InOrder(run, i, n);
    WaitingAlong(client, run, i, n);
    BackoffClosedForm(run, n);
    DueByBackoff(ClientAt(run, n), run(n), run(i).now, BackoffAfter(FailuresAt(run, n)));
  }

  /** What an attempt leaves behind: a connection and a fresh backoff, or a client that waits on. */
  lemma AttemptJudged(run: nat -> Event, n: nat)
    requires Attempts(ClientAt(run, n), run(n))
    ensures var c, d := ClientAt(run, n), ClientAt(run, n + 1);
            if run(n).call.connects then
              d.state == Connected && d.isConnected && d.backoff == 1000 && d.lastKeepalive == Tick(run(n).now)
            else
              d.state == Reconnecting && !d.isConnected && d.lastAttempt == Tick(run(n).now)
  {
    Advance(run, n);
    ConnectedFlagImpliesState(run, n);
  }

  /** Failed attempts among the first `n` calls, all of them and those since the last success. */
  ghost function AllFailures(run: nat -> Event, n: nat): nat {
    if n == 0 then 0 else AllFailures(run, n - 1) + if Fails(ClientAt(run, n - 1), run(n - 1)) then 1 else 0
  }

  ghost function FailuresSinceSuccess(run: nat -> Event, n: nat): nat {
    if n == 0 then 0
    else if Succeeds(ClientAt(run, n - 1), run(n - 1)) then 0
    else FailuresSinceSuccess(run, n - 1) + if Fails(ClientAt(run, n - 1), run(n - 1)) then 1 else 0
  }

  lemma OneMore(k: nat)
    ensures (k % 0x1_0000_0000 + 1) % 0x1_0000_0000 == (k + 1) % 0x1_0000_0000
  {
  }

  lemma FailureCounted(c: Client, e: Event, since: nat, all: nat)
    requires c.reconnectCount == since % 0x1_0000_0000 && c.totalReconnects == all % 0x1_0000_0000
    ensures var d, failed := Step(c, e), if Fails(c, e) then 1 else 0;
            && d.reconnectCount == (if Succeeds(c, e) then 0 else (since + failed) % 0x1_0000_0000)
            && d.totalReconnects == (all + failed) % 0x1_0000_0000
  {
    OneMore(since);
    OneMore(all);
  }

  /** The two counters: failures since the last success, resets or not, and all failures, modulo 2^32. */
  lemma {:induction false} CountersExactly(run: nat -> Event, n: nat)
    ensures ClientAt(run, n).reconnectCount == FailuresSinceSuccess(run, n) % 0x1_0000_0000
    ensures ClientAt(run, n).totalReconnects == AllFailures(run, n) % 0x1_0000_0000
  {
    if n > 0 {
      CountersExactly(run, n - 1);
      Advance(run, n - 1);
      FailureCounted(ClientAt(run, n - 1), run(n - 1), FailuresSinceSuccess(run, n - 1), AllFailures(run, n - 1));
    }
  }

  /** A poll of a connected client renews the keepalive stamp exactly if it is more than 30 s of ticks old. */
  lemma KeepaliveExactlyWhen(c: Client, e: Event)
    requires c.state == Connected && e.call.Process?
    ensures Step(c, e) == c.(lastKeepalive := if (e.now - c.lastKeepalive) % 0x1_0000_0000 > 30000 then Tick(e.now)
                                             else c.lastKeepalive)
  {
  }
}
