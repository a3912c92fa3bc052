/** Safety of the UDS server over every run of requests. */
module UdsRuns {
  import opened Words
  import opened Uds
  import Runs

  // ---------------------------------------------------------------------------------------------
  // One request
  // ---------------------------------------------------------------------------------------------

  predicate AnsweredNegatively(r: Reply) {
    r.response.Some? && r.response.value != [] && r.response.value[0] == NEGATIVE
  }

  /** Everything but the attempt counter and the lockout stamp. */
  predicate SameProtocolState(s: State, t: State) {
    t.(attempts := s.attempts, lockoutTime := s.lockoutTime) == s
  }

  /** Every response is `[sid + 0x40, ...]` of a served request or exactly `[0x7F, sid, nrc]`, within the capacity. */
  lemma ResponseShape(key: uint32 -> uint32, d: Device, req: seq<uint8>, p: Platform, cap: nat)
    ensures var r := Process(key, d, req, p, cap).response;
            r.Some? ==>
              && req != [] && 1 <= |r.value| <= cap
              && if r.value[0] == NEGATIVE then |r.value| == 3 && r.value[1] == req[0]
                 else r.value[0] == req[0] + POSITIVE_OFFSET && Service(key, d, req, p).verdict.Positive?
  {
  }

  ghost predicate NegativesAreInert(cap: nat) {
    forall key: uint32 -> uint32, d: Device, req: seq<uint8>, p: Platform ::
      AnsweredNegatively(Process(key, d, req, p, cap)) ==> SameProtocolState(d.st, Process(key, d, req, p, cap).dev.st)
  }

  /** A service that refuses changes nothing, and one with a long answer does not either. */
  lemma RefusedOrLongIsInert(key: uint32 -> uint32, d: Device, req: seq<uint8>, p: Platform)
    requires req != []
    ensures var o := Service(key, d, req, p);
            && (o.verdict.Positive? ==> req[0] != 0x3F)
            && (o.verdict.Negative? || |o.verdict.data| > 5 ==> SameProtocolState(d.st, o.dev.st))
  {
  }

  lemma NegativeIsInert(key: uint32 -> uint32, d: Device, req: seq<uint8>, p: Platform, cap: nat)
    requires cap >= 6 || cap < 3
    requires AnsweredNegatively(Process(key, d, req, p, cap))
    ensures SameProtocolState(d.st, Process(key, d, req, p, cap).dev.st)
  {
    var o := Service(key, d, req, p);
    assert Process(key, d, req, p, cap) == Reply(o.dev, Respond(req[0], o.verdict, cap));
    RefusedOrLongIsInert(key, d, req, p);
  }

  /** With room for 3 to 5 bytes, a seed request is refused after the stored seed has been replaced. */
  lemma SmallBufferCounterexample(key: uint32 -> uint32, flash: Flash, cap: nat)
    requires 3 <= cap < 6
    ensures var d := Device(INITIAL, flash);
            var r := Process(key, d, [SID_SECURITY_ACCESS, 1], Platform(0, 0, 7, true, []), cap);
            AnsweredNegatively(r) && !SameProtocolState(d.st, r.dev.st)
  {
  }

  /** A negative answer leaves the protocol state alone exactly when the response buffer is not 3 to 5 bytes long. */
  lemma NegativesAreInertExactlyWhen(cap: nat)
    ensures NegativesAreInert(cap) <==> cap >= 6 || cap < 3
  {
    if cap >= 6 || cap < 3 {
      forall key: uint32 -> uint32, d: Device, req: seq<uint8>, p: Platform
        | AnsweredNegatively(Process(key, d, req, p, cap))
        ensures SameProtocolState(d.st, Process(key, d, req, p, cap).dev.st)
      {
        NegativeIsInert(key, d, req, p, cap);
      }
    } else {
      SmallBufferCounterexample((s: uint32) => s, (k: uint32) => 0, cap);
    }
  }

  // ---------------------------------------------------------------------------------------------
  // What one request can do
  // ---------------------------------------------------------------------------------------------

  datatype Event = Event(req: seq<uint8>, platform: Platform, cap: nat)

  /** A server as a function value, so that runs are reasoned about without its body. */
  type Serve = (Device, Event) -> Reply

  /** The answer is positive and of service `sid`. */
  predicate Accepts(r: Reply, sid: uint8) {
    r.response.Some? && r.response.value != [] && r.response.value[0] == sid + POSITIVE_OFFSET
  }

  predicate EntersProgramming(e: Event, r: Reply) {
    Accepts(r, SID_SESSION_CONTROL) && |e.req| >= 2 && e.req[1] == 2
  }

  /** A key sent for the seed that the server has stored is accepted. */
  predicate AcceptsKey(key: uint32 -> uint32, d: Device, e: Event, r: Reply) {
    && Accepts(r, SID_SECURITY_ACCESS) && |e.req| >= 6 && e.req[1] == 2
    && BigEndian(e.req[2..6]) == key(d.st.seed)
  }

  predicate RejectsKey(r: Reply) {
    && r.response.Some? && |r.response.value| == 3
    && r.response.value[0] == NEGATIVE && r.response.value[1] == SID_SECURITY_ACCESS
    && r.response.value[2] in {NRC_INVALID_KEY, NRC_EXCEEDED_ATTEMPTS}
  }

  ghost predicate SessionRule(d: Device, e: Event, r: Reply) {
    if Accepts(r, SID_SESSION_CONTROL) then
      r.dev.st.session == Programming ==> EntersProgramming(e, r) && !r.dev.st.unlocked
    else r.dev.st.session == d.st.session
  }

  ghost predicate UnlockRule(key: uint32 -> uint32, d: Device, e: Event, r: Reply) {
    r.dev.st.unlocked && !d.st.unlocked ==> AcceptsKey(key, d, e, r)
  }

  ghost predicate DownloadRule(d: Device, e: Event, r: Reply) {
    && (Accepts(r, SID_REQUEST_DOWNLOAD) ==> d.st.session == Programming && d.st.unlocked)
    && (Accepts(r, SID_TRANSFER_EXIT) ==> !r.dev.st.active)
    && (r.dev.st.active && !Accepts(r, SID_REQUEST_DOWNLOAD) ==> d.st.active)
    && (!AttemptsWrite(d.st, e.req) ==> r.dev.flash == d.flash)
  }

  /** What the lockout sees of one request. */
  datatype Probe = Probe(attempts: uint8, lockoutTime: uint32, arrival: nat, stamp: nat, rejects: bool, accepts: bool)

  function ProbeOf(key: uint32 -> uint32, d: Device, e: Event, r: Reply): Probe {
    Probe(d.st.attempts, d.st.lockoutTime, e.platform.arrival, e.platform.stamp,
          RejectsKey(r), AcceptsKey(key, d, e, r))
  }

  /** The lockout has expired by the tick shown when the request is handled. */
  predicate Expired(p: Probe) {
    p.attempts >= MAX_ATTEMPTS && Sub32(Tick(p.arrival), p.lockoutTime) >= DELAY_MS
  }

  /** How one request moves the attempt counter and the lockout time. */
  predicate AttemptRule(p: Probe, attempts: uint8, lockoutTime: uint32) {
    var base := if Expired(p) then 0 else p.attempts;
    if p.rejects then
      && base < MAX_ATTEMPTS && attempts == base + 1
      && lockoutTime == (if attempts == MAX_ATTEMPTS then Tick(p.stamp) else p.lockoutTime)
    else
      && lockoutTime == p.lockoutTime
      && (if p.accepts then attempts == 0 else attempts == p.attempts || (Expired(p) && attempts == 0))
  }

  /** The rules every request with room for its answer obeys, whatever the state. */
  ghost predicate Rules(key: uint32 -> uint32, d: Device, e: Event, r: Reply) {
    e.cap >= 6 ==>
      && SessionRule(d, e, r) && UnlockRule(key, d, e, r) && DownloadRule(d, e, r)
      && AttemptRule(ProbeOf(key, d, e, r), r.dev.st.attempts, r.dev.st.lockoutTime)
  }

  function Server(key: uint32 -> uint32): Serve {
    (d: Device, e: Event) => Process(key, d, e.req, e.platform, e.cap)
  }

  ghost predicate Lawful(key: uint32 -> uint32, serve: Serve) {
    forall d, e :: Rules(key, d, e, serve(d, e))
  }

  lemma SessionLaw(key: uint32 -> uint32, d: Device, e: Event)
    requires e.cap >= 6
    ensures SessionRule(d, e, Server(key)(d, e)) && UnlockRule(key, d, e, Server(key)(d, e))
  {
  }

  lemma DownloadLaw(key: uint32 -> uint32, d: Device, e: Event)
    requires e.cap >= 6
    ensures DownloadRule(d, e, Server(key)(d, e))
  {
  }

  lemma AttemptLawElsewhere(key: uint32 -> uint32, d: Device, e: Event)
    requires e.cap >= 6 && (e.req == [] || e.req[0] != SID_SECURITY_ACCESS)
    ensures var r := Server(key)(d, e);
            !RejectsKey(r) && r.dev.st.attempts == d.st.attempts && r.dev.st.lockoutTime == d.st.lockoutTime
            && !AcceptsKey(key, d, e, r)
  {
  }

  lemma AttemptLaw(key: uint32 -> uint32, d: Device, e: Event)
    requires e.cap >= 6
    ensures var r := Server(key)(d, e); AttemptRule(ProbeOf(key, d, e, r), r.dev.st.attempts, r.dev.st.lockoutTime)
  {
    if e.req == [] || e.req[0] != SID_SECURITY_ACCESS {
      AttemptLawElsewhere(key, d, e);
    } else {
      var o := SecurityAccess(key, d, e.req, e.platform);
      assert Server(key)(d, e) == Reply(o.dev, Respond(e.req[0], o.verdict, e.cap));
    }
  }

  lemma ServerIsLawful(key: uint32 -> uint32)
    ensures Lawful(key, Server(key))
  {
    forall d, e ensures Rules(key, d, e, Server(key)(d, e)) {
      if e.cap >= 6 {
        SessionLaw(key, d, e);
        DownloadLaw(key, d, e);
        AttemptLaw(key, d, e);
      }
    }
  }

  // ---------------------------------------------------------------------------------------------
  // Runs
  // ---------------------------------------------------------------------------------------------

  /** The device before request `n`. */
  ghost function DeviceAt(serve: Serve, run: nat -> Event, d: Device, n: nat): Device {
    Runs.At((i: nat, c: Device) => serve(c, run(i)).dev, d, n)
  }

  ghost function ReplyAt(serve: Serve, run: nat -> Event, d: Device, n: nat): Reply {
    serve(DeviceAt(serve, run, d, n), run(n))
  }

  ghost predicate Roomy(run: nat -> Event) { forall i: nat :: run(i).cap >= 6 }

  /** The same requests with room for every answer but the VIN. */
  function Ample(run: nat -> Event): nat -> Event {
    (i: nat) => run(i).(cap := if run(i).cap < 6 then 6 else run(i).cap)
  }

  lemma AmpleIsRoomy(run: nat -> Event)
    ensures Roomy(Ample(run))
  {
  }

  /** What a request does to the device does not depend on the room for its answer. */
  ghost predicate CapacityBlind(serve: Serve) {
    forall d, e, cap: nat :: serve(d, e).dev == serve(d, e.(cap := cap)).dev
  }

  lemma ServerIsCapacityBlind(key: uint32 -> uint32)
    ensures CapacityBlind(Server(key))
  {
  }

  /** Every run takes the device through the states of the ample one, whose answers differ only where room was short. */
  lemma {:induction false} CapacityAffectsAnswersOnly(serve: Serve, run: nat -> Event, d: Device, n: nat)
    requires CapacityBlind(serve)
    ensures DeviceAt(serve, run, d, n) == DeviceAt(serve, Ample(run), d, n)
    ensures run(n).cap >= 6 ==> ReplyAt(serve, run, d, n) == ReplyAt(serve, Ample(run), d, n)
  {
    if n > 0 {
      CapacityAffectsAnswersOnly(serve, run, d, n - 1);
      Advance(serve, run, d, n - 1);
      Advance(serve, Ample(run), d, n - 1);
    }
  }

  lemma Advance(serve: Serve, run: nat -> Event, d: Device, n: nat)
    ensures DeviceAt(serve, run, d, n + 1) == ReplyAt(serve, run, d, n).dev
  {
    var step := (i: nat, c: Device) => serve(c, run(i)).dev;
    assert Runs.At(step, d, n + 1) == step(n, Runs.At(step, d, n));
  }

  lemma StepAt(key: uint32 -> uint32, serve: Serve, run: nat -> Event, d: Device, n: nat)
    requires Lawful(key, serve) && Roomy(run)
    ensures DeviceAt(serve, run, d, n + 1) == ReplyAt(serve, run, d, n).dev
    ensures Rules(key, DeviceAt(serve, run, d, n), run(n), ReplyAt(serve, run, d, n)) && run(n).cap >= 6
  {
    Advance(serve, run, d, n);
  }

  // ---------------------------------------------------------------------------------------------
  // Ordering: no flash write without session, key and download, in that order
  // ---------------------------------------------------------------------------------------------

  /** In the programming session, the last session change was its entry. */
  lemma {:induction false} EntryBefore(key: uint32 -> uint32, serve: Serve, run: nat -> Event, d: Device, n: nat)
    returns (s: nat)
    requires Lawful(key, serve) && Roomy(run) && d.st.session != Programming
    requires DeviceAt(serve, run, d, n).st.session == Programming
    ensures s < n && EntersProgramming(run(s), ReplyAt(serve, run, d, s))
    ensures !DeviceAt(serve, run, d, s + 1).st.unlocked
    ensures forall i: nat :: s < i < n ==> !Accepts(ReplyAt(serve, run, d, i), SID_SESSION_CONTROL)
    decreases n
  {
    StepAt(key, serve, run, d, n - 1);
    if Accepts(ReplyAt(serve, run, d, n - 1), SID_SESSION_CONTROL) {
      s := n - 1;
    } else {
      s := EntryBefore(key, serve, run, d, n - 1);
    }
  }

  lemma {:induction false} KeyBetween(key: uint32 -> uint32, serve: Serve, run: nat -> Event, d: Device,
                                      s: nat, n: nat)
    returns (k: nat)
    requires Lawful(key, serve) && Roomy(run) && s < n
    requires !DeviceAt(serve, run, d, s + 1).st.unlocked && DeviceAt(serve, run, d, n).st.unlocked
    ensures s < k < n && AcceptsKey(key, DeviceAt(serve, run, d, k), run(k), ReplyAt(serve, run, d, k))
    decreases n
  {
    StepAt(key, serve, run, d, n - 1);
    if DeviceAt(serve, run, d, n - 1).st.unlocked {
      k := KeyBetween(key, serve, run, d, s, n - 1);
    } else {
      k := n - 1;
    }
  }

  lemma {:induction false} DownloadBefore(key: uint32 -> uint32, serve: Serve, run: nat -> Event, d: Device, n: nat)
    returns (a: nat)
    requires Lawful(key, serve) && Roomy(run) && !d.st.active && DeviceAt(serve, run, d, n).st.active
    ensures a < n && Accepts(ReplyAt(serve, run, d, a), SID_REQUEST_DOWNLOAD)
    ensures forall i: nat :: a < i < n ==>
              && !Accepts(ReplyAt(serve, run, d, i), SID_REQUEST_DOWNLOAD)
              && !Accepts(ReplyAt(serve, run, d, i), SID_TRANSFER_EXIT)
    decreases n
  {
    StepAt(key, serve, run, d, n - 1);
    if Accepts(ReplyAt(serve, run, d, n - 1), SID_REQUEST_DOWNLOAD) {
      a := n - 1;
    } else {
      a := DownloadBefore(key, serve, run, d, n - 1);
    }
  }

  /**
   * In every run from power-up, an attempt to write flash at step `n` belongs to the latest download accepted (at `a`),
   * that one was accepted in the programming session after a key matching the stored seed (at `k`), that key
   * after the entry to that session (at `s`), and no session change succeeded between `s` and `a`.
   */
  lemma WriteOrdering(key: uint32 -> uint32, serve: Serve, run: nat -> Event, flash: Flash, n: nat)
    returns (s: nat, k: nat, a: nat)
    requires serve == Server(key)
    requires AttemptsWrite(DeviceAt(serve, run, Device(INITIAL, flash), n).st, run(n).req)
    ensures s < k < a < n
    ensures var d, ample := Device(INITIAL, flash), Ample(run);
            && EntersProgramming(run(s), ReplyAt(serve, ample, d, s))
            && (forall i: nat :: s < i < a ==> !Accepts(ReplyAt(serve, ample, d, i), SID_SESSION_CONTROL))
            && AcceptsKey(key, DeviceAt(serve, run, d, k), run(k), ReplyAt(serve, ample, d, k))
            && DeviceAt(serve, run, d, a).st.session == Programming
            && Accepts(ReplyAt(serve, ample, d, a), SID_REQUEST_DOWNLOAD)
            && forall i: nat :: a < i < n ==>
                 && !Accepts(ReplyAt(serve, ample, d, i), SID_REQUEST_DOWNLOAD)
                 && !Accepts(ReplyAt(serve, ample, d, i), SID_TRANSFER_EXIT)
  {
    var d := Device(INITIAL, flash);
    ServerIsLawful(key);
    ServerIsCapacityBlind(key);
    AmpleIsRoomy(run);
    CapacityAffectsAnswersOnly(serve, run, d, n);
    s, k, a := OrderingOf(key, serve, Ample(run), d, n);
    CapacityAffectsAnswersOnly(serve, run, d, k);
    CapacityAffectsAnswersOnly(serve, run, d, a);
  }

  lemma OrderingOf(key: uint32 -> uint32, serve: Serve, run: nat -> Event, d: Device, n: nat)
    returns (s: nat, k: nat, a: nat)
    requires Lawful(key, serve) && Roomy(run) && d.st.session != Programming && !d.st.active
    requires DeviceAt(serve, run, d, n).st.active
    ensures s < k < a < n
    ensures EntersProgramming(run(s), ReplyAt(serve, run, d, s))
    ensures forall i: nat :: s < i < a ==> !Accepts(ReplyAt(serve, run, d, i), SID_SESSION_CONTROL)
    ensures AcceptsKey(key, DeviceAt(serve, run, d, k), run(k), ReplyAt(serve, run, d, k))
    ensures DeviceAt(serve, run, d, a).st.session == Programming
    ensures Accepts(ReplyAt(serve, run, d, a), SID_REQUEST_DOWNLOAD)
    ensures forall i: nat :: a < i < n ==>
              && !Accepts(ReplyAt(serve, run, d, i), SID_REQUEST_DOWNLOAD)
              && !Accepts(ReplyAt(serve, run, d, i), SID_TRANSFER_EXIT)
  {
    a := DownloadBefore(key, serve, run, d, n);
    StepAt(key, serve, run, d, a);
    s := EntryBefore(key, serve, run, d, a);
    k := KeyBetween(key, serve, run, d, s, a);
  }

  // ---------------------------------------------------------------------------------------------
  // Lockout
  // ---------------------------------------------------------------------------------------------

  ghost function Probes(key: uint32 -> uint32, serve: Serve, run: nat -> Event, d: Device): nat -> Probe {
    (n: nat) => ProbeOf(key, DeviceAt(serve, run, d, n), run(n), ReplyAt(serve, run, d, n))
  }

  predicate RuleAt(probe: nat -> Probe, n: nat) {
    AttemptRule(probe(n), probe(n + 1).attempts, probe(n + 1).lockoutTime)
  }

  /** In every run of a lawful server the probes obey the attempt rule. */
  lemma ProbesObey(key: uint32 -> uint32, serve: Serve, run: nat -> Event, d: Device, n: nat)
    requires Lawful(key, serve) && Roomy(run)
    ensures RuleAt(Probes(key, serve, run, d), n)
  {
    StepAt(key, serve, run, d, n);
    var probe, r := Probes(key, serve, run, d), ReplyAt(serve, run, d, n);
    assert probe(n) == ProbeOf(key, DeviceAt(serve, run, d, n), run(n), r);
    assert probe(n + 1).attempts == r.dev.st.attempts && probe(n + 1).lockoutTime == r.dev.st.lockoutTime;
  }

  lemma {:induction false} AttemptsStayBounded(probe: nat -> Probe, n: nat)
    requires forall k: nat :: RuleAt(probe, k)
    requires probe(0).attempts <= 3
    ensures probe(n).attempts <= 3
  {
    if n > 0 {
      AttemptsStayBounded(probe, n - 1);
      assert RuleAt(probe, n - 1);
    }
  }

  /** In every run from power-up the attempt counter never exceeds three. */
  lemma AttemptsNeverExceedThree(key: uint32 -> uint32, run: nat -> Event, flash: Flash, n: nat)
    ensures DeviceAt(Server(key), run, Device(INITIAL, flash), n).st.attempts <= 3
  {
    var serve, d := Server(key), Device(INITIAL, flash);
    ServerIsLawful(key);
    ServerIsCapacityBlind(key);
    AmpleIsRoomy(run);
    CapacityAffectsAnswersOnly(serve, run, d, n);
    BoundedFrom(key, serve, Ample(run), d, n);
  }

  lemma BoundedFrom(key: uint32 -> uint32, serve: Serve, run: nat -> Event, d: Device, n: nat)
    requires Lawful(key, serve) && Roomy(run) && d.st.attempts <= 3
    ensures DeviceAt(serve, run, d, n).st.attempts <= 3
  {
    var probe := Probes(key, serve, run, d);
    forall k: nat ensures RuleAt(probe, k) { ProbesObey(key, serve, run, d, k); }
    AttemptsStayBounded(probe, n);
  }

  predicate InOrder(probe: nat -> Probe, i: nat, j: nat) {
    probe(i).arrival <= probe(i).stamp <= probe(j).arrival
  }

  /** True time never runs backwards, within a request or between requests. */
  ghost predicate Timely(probe: nat -> Probe) {
    forall i: nat, j: nat :: i < j ==> InOrder(probe, i, j)
  }

  ghost predicate NoKeyAccepted(probe: nat -> Probe, i: nat, j: nat) {
    forall k: nat :: i <= k < j ==> !probe(k).accepts
  }

  /** The number of keys rejected at steps `i` to `j - 1`. */
  function Rejections(probe: nat -> Probe, i: nat, j: nat): nat
    requires i <= j
    decreases j
  {
    if i == j then 0 else Rejections(probe, i, j - 1) + if probe(j - 1).rejects then 1 else 0
  }

  /**
   * `count` rejections, the first at time `start`, have led to `p`: `q` lockouts have expired since, each rejection is
   * accounted for by them and the counter, and `q` delays have really passed (by `stamp`, the true time of the
   * lockout, if locked out).
   */
  predicate Paced(p: Probe, count: nat, start: nat, q: nat, stamp: nat) {
    && p.attempts <= 3
    && count <= 3 * q + p.attempts
    && if p.attempts < 3 then start + DELAY_MS * q <= p.arrival
       else start + DELAY_MS * q <= stamp <= p.arrival && p.lockoutTime == Tick(stamp)
  }

  lemma PaceStep(p: Probe, next: Probe, count: nat, start: nat, q: nat, stamp: nat) returns (q': nat, stamp': nat)
    requires AttemptRule(p, next.attempts, next.lockoutTime) && !p.accepts
    requires p.arrival <= p.stamp <= next.arrival
    requires Paced(p, count, start, q, stamp)
    ensures Paced(next, count + if p.rejects then 1 else 0, start, q', stamp')
  {
    q', stamp' := q, stamp;
    if p.attempts == 3 {
      TickDifference(stamp, p.arrival);
      if next.attempts < 3 {
        q' := q + 1;
      }
    } else if next.attempts == 3 {
      stamp' := p.stamp;
    }
  }

  lemma Pace(probe: nat -> Probe, i: nat, n: nat) returns (q: nat, stamp: nat)
    requires forall k: nat :: RuleAt(probe, k)
    requires Timely(probe) && NoKeyAccepted(probe, i, n)
    requires i < n && probe(i).rejects
    ensures Paced(probe(n), Rejections(probe, i, n), probe(i).arrival, q, stamp)
  {
    assert RuleAt(probe, i) && InOrder(probe, i, i + 1) && Rejections(probe, i, i) == 0;
    q, stamp := 0, probe(i).stamp;
    for m: nat := i + 1 to n
      invariant Paced(probe(m), Rejections(probe, i, m), probe(i).arrival, q, stamp)
    {
      assert RuleAt(probe, m) && InOrder(probe, m, m + 1);
      q, stamp := PaceStep(probe(m), probe(m + 1), Rejections(probe, i, m), probe(i).arrival, q, stamp);
    }
  }

  /** The last rejection: what is left of the lockout has to expire first. */
  lemma PacedRejection(p: Probe, attempts: uint8, lockoutTime: uint32, count: nat, start: nat, q: nat, stamp: nat)
    requires AttemptRule(p, attempts, lockoutTime) && p.rejects
    requires Paced(p, count, start, q, stamp)
    ensures p.arrival - start >= DELAY_MS * (count / 3)
  {
    if p.attempts == 3 {
      TickDifference(stamp, p.arrival);
      assert count / 3 <= q + 1;
    } else {
      assert count / 3 <= q;
    }
  }

  /**
   * Rate bound: in every run, the `r` keys rejected from step `i` to step `j` (both rejections, no key accepted
   * between) take at least 10 seconds for every three of them after the first, whatever the 32-bit tick does.
   */
  lemma LockoutRate(
      key: uint32 -> uint32, serve: Serve, run: nat -> Event, d: Device, probe: nat -> Probe, i: nat, j: nat)
    requires serve == Server(key) && probe == Probes(key, serve, Ample(run), d)
    requires Timely(probe) && NoKeyAccepted(probe, i, j)
    requires i <= j && probe(i).rejects && probe(j).rejects
    ensures var r := Rejections(probe, i, j + 1);
            r >= 1 && probe(j).arrival - probe(i).arrival >= 10000 * ((r - 1) / 3)
  {
    ServerIsLawful(key);
    AmpleIsRoomy(run);
    forall k: nat ensures RuleAt(probe, k) { ProbesObey(key, serve, Ample(run), d, k); }
    RateOf(probe, i, j);
  }

  lemma RateOf(probe: nat -> Probe, i: nat, j: nat)
    requires forall k: nat :: RuleAt(probe, k)
    requires Timely(probe) && NoKeyAccepted(probe, i, j)
    requires i <= j && probe(i).rejects && probe(j).rejects
    ensures var r := Rejections(probe, i, j + 1);
            r >= 1 && probe(j).arrival - probe(i).arrival >= 10000 * ((r - 1) / 3)
  {
    if i == j {
      assert Rejections(probe, i, i) == 0;
    } else {
      var q, stamp := Pace(probe, i, j);
      assert RuleAt(probe, j);
      var next := probe(j + 1);
      PacedRejection(probe(j), next.attempts, next.lockoutTime, Rejections(probe, i, j), probe(i).arrival, q, stamp);
    }
  }
}
