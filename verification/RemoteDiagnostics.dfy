/** Sums over finite sets. */
module Sums {
  ghost function Sum<K(!new)>(keys: set<K>, f: K -> int): int
    decreases |keys|
  {
    if keys == {} then 0
    else
      var k :| k in keys;
      f(k) + Sum(keys - {k}, f)
  }

  /** Any element can be taken out. */
  lemma {:induction false} Remove<K(!new)>(keys: set<K>, k: K, f: K -> int)
    requires k in keys
    ensures Sum(keys, f) == f(k) + Sum(keys - {k}, f)
    decreases |keys|
  {
    var c :| c in keys && Sum(keys, f) == f(c) + Sum(keys - {c}, f);
    if c != k {
      Remove(keys - {c}, k, f);
      Remove(keys - {k}, c, f);
      assert keys - {c} - {k} == keys - {k} - {c};
    }
  }

  lemma {:induction false} Equal<K(!new)>(keys: set<K>, f: K -> int, g: K -> int)
    requires forall k :: k in keys ==> f(k) == g(k)
    ensures Sum(keys, f) == Sum(keys, g)
    decreases |keys|
  {
    if keys != {} {
      var k :| k in keys;
      Remove(keys, k, f);
      Remove(keys, k, g);
      Equal(keys - {k}, f, g);
    }
  }

  lemma {:induction false} Plus<K(!new)>(keys: set<K>, f: K -> int, g: K -> int, h: K -> int)
    requires forall k :: k in keys ==> f(k) == g(k) + h(k)
    ensures Sum(keys, f) == Sum(keys, g) + Sum(keys, h)
    decreases |keys|
  {
    if keys != {} {
      var k :| k in keys;
      Remove(keys, k, f);
      Remove(keys, k, g);
      Remove(keys, k, h);
      Plus(keys - {k}, f, g, h);
    }
  }

  /** A subset's size, as a sum over the whole set. */
  lemma {:induction false} Count<K(!new)>(keys: set<K>, part: set<K>, f: K -> int)
    requires part <= keys
    requires forall k :: k in keys ==> f(k) == if k in part then 1 else 0
    ensures Sum(keys, f) == |part|
    decreases |keys|
  {
    if keys != {} {
      var k :| k in keys;
      Remove(keys, k, f);
      Count(keys - {k}, part - {k}, f);
      if k !in part {
        assert part - {k} == part;
      }
    }
  }

  lemma {:induction false} Constant<K(!new)>(keys: set<K>, f: K -> int, c: int)
    requires forall k :: k in keys ==> f(k) == c
    ensures Sum(keys, f) == c * |keys|
    decreases |keys|
  {
    if keys != {} {
      var k :| k in keys;
      Remove(keys, k, f);
      Constant(keys - {k}, f, c);
    }
  }

  lemma {:induction false} AtMostThree<K(!new)>(keys: set<K>, f: K -> int)
    requires forall k :: k in keys ==> f(k) <= 3
    ensures Sum(keys, f) <= 3 * |keys|
    decreases |keys|
  {
    if keys != {} {
      var k :| k in keys;
      Remove(keys, k, f);
      AtMostThree(keys - {k}, f);
    }
  }

  /** Elements that count nothing can be left out. */
  lemma {:induction false} Restrict<K(!new)>(keys: set<K>, part: set<K>, f: K -> int)
    requires part <= keys
    requires forall k :: k in keys - part ==> f(k) == 0
    ensures Sum(keys, f) == Sum(part, f)
    decreases |keys|
  {
    if k :| k in keys && k !in part {
      Remove(keys, k, f);
      Restrict(keys - {k}, part, f);
    } else {
      assert keys == part;
    }
  }
}

/** The vehicle gateway's remote diagnostics handler: pending requests, retries and statistics over every run. */
module RemoteDiagnostics {
  import opened Words
  import Runs
  import Sums

  const TIMEOUT_MS := 5000
  const MAX_RETRIES: uint8 := 3

  /** The true time of the last (re)transmission is in milliseconds of a steady clock. */
  datatype Request = Request(ecu: string, service: uint8, data: seq<uint8>, timestamp: int, retries: uint8)

  type Pending = map<string, Request>

  predicate TimedOut(r: Request, now: int) { now - r.timestamp > TIMEOUT_MS }

  /** What one request becomes when pending requests are processed. */
  function Retried(r: Request, now: int): Request
    requires r.retries < MAX_RETRIES
  {
    r.(retries := r.retries + 1, timestamp := now)
  }

  function RetriedIds(p: Pending, now: int): set<string> {
    set id | id in p && TimedOut(p[id], now) && p[id].retries < MAX_RETRIES
  }

  function DroppedIds(p: Pending, now: int): set<string> {
    set id | id in p && TimedOut(p[id], now) && p[id].retries >= MAX_RETRIES
  }

  function Swept(p: Pending, now: int): Pending {
    map id | id in p.Keys - DroppedIds(p, now) :: if id in RetriedIds(p, now) then Retried(p[id], now) else p[id]
  }

  /** `responded` collects the request ids of the responses sent, each a failure. */
  datatype State = State(
    pending: Pending, routing: set<string>,
    total: nat, successful: nat, failed: nat, timeouts: nat, retries: nat,
    responded: multiset<string>)

  function Initial(routing: set<string>): State { State(map[], routing, 0, 0, 0, 0, 0, multiset{}) }

  function Register(s: State, ecu: string): State { s.(routing := s.routing + {ecu}) }

  function Submit(s: State, id: string, r: Request): State {
    if r.ecu in s.routing then
      s.(total := s.total + 1, pending := s.pending[id := r])
    else
      // The failure is counted by the response and again by the caller.
      s.(total := s.total + 1, pending := s.pending - {id}, failed := s.failed + 2,
         responded := s.responded + multiset{id})
  }

  function Sweep(s: State, now: int): State {
    var dropped := DroppedIds(s.pending, now);
    s.(pending := Swept(s.pending, now),
       retries := s.retries + |RetriedIds(s.pending, now)|,
       timeouts := s.timeouts + |dropped|,
       failed := s.failed + |dropped|,
       responded := s.responded + multiset(dropped))
  }

  /** The sweep when only the requests in `done` have been visited and nothing has been erased yet. */
  function HalfSwept(s: State, now: int, done: set<string>): State {
    var p := s.pending;
    var dropped := DroppedIds(p, now) * done;
    s.(pending := map id | id in p :: if id in RetriedIds(p, now) * done then Retried(p[id], now) else p[id],
       retries := s.retries + |RetriedIds(p, now) * done|,
       timeouts := s.timeouts + |dropped|,
       failed := s.failed + |dropped|,
       responded := s.responded + multiset(dropped))
  }

  lemma VisitRetried(s: State, now: int, done: set<string>, id: string)
    requires id in RetriedIds(s.pending, now) - done
    ensures var h := HalfSwept(s, now, done);
            HalfSwept(s, now, done + {id}) ==
              h.(pending := h.pending[id := Retried(s.pending[id], now)], retries := h.retries + 1)
  {
    var p := s.pending;
    assert RetriedIds(p, now) * (done + {id}) == RetriedIds(p, now) * done + {id};
    assert DroppedIds(p, now) * (done + {id}) == DroppedIds(p, now) * done;
  }

  lemma VisitDropped(s: State, now: int, done: set<string>, id: string)
    requires id in DroppedIds(s.pending, now) - done
    ensures var h := HalfSwept(s, now, done);
            HalfSwept(s, now, done + {id}) ==
              h.(timeouts := h.timeouts + 1, failed := h.failed + 1, responded := h.responded + multiset{id})
  {
    var p := s.pending;
    assert RetriedIds(p, now) * (done + {id}) == RetriedIds(p, now) * done;
    assert DroppedIds(p, now) * (done + {id}) == DroppedIds(p, now) * done + {id};
  }

  lemma VisitQuiet(s: State, now: int, done: set<string>, id: string)
    requires id in s.pending && !TimedOut(s.pending[id], now)
    ensures HalfSwept(s, now, done + {id}) == HalfSwept(s, now, done)
  {
    var p := s.pending;
    assert RetriedIds(p, now) * (done + {id}) == RetriedIds(p, now) * done;
    assert DroppedIds(p, now) * (done + {id}) == DroppedIds(p, now) * done;
  }

  lemma VisitNone(s: State, now: int)
    ensures HalfSwept(s, now, {}) == s
  {
    var p := s.pending;
    assert RetriedIds(p, now) * {} == {} && DroppedIds(p, now) * {} == {};
    assert HalfSwept(s, now, {}).pending == p;
  }

  lemma VisitAll(s: State, now: int)
    ensures var h := HalfSwept(s, now, s.pending.Keys);
            Sweep(s, now) == h.(pending := h.pending - DroppedIds(s.pending, now))
  {
    var p := s.pending;
    assert RetriedIds(p, now) * p.Keys == RetriedIds(p, now) && DroppedIds(p, now) * p.Keys == DroppedIds(p, now);
    assert HalfSwept(s, now, p.Keys).pending - DroppedIds(p, now) == Swept(p, now);
  }

  lemma MeetOneMore(part: set<string>, done: set<string>, id: string)
    ensures part * (done + {id}) == if id in part then part * done + {id} else part * done
  {
  }

  lemma AddThenErase(p: Pending, id: string, r: Request)
    ensures p[id := r] - {id} == p - {id}
  {
  }

  // ---------------------------------------------------------------------------------------------
  // The code
  // ---------------------------------------------------------------------------------------------

  class Handler {
    var pending: Pending
    var routing: set<string>
    var total: nat
    var successful: nat
    var failed: nat
    var timeouts: nat
    var retries: nat
    var responded: multiset<string>

    function Value(): State
      reads this
    {
      State(pending, routing, total, successful, failed, timeouts, retries, responded)
    }

    constructor (routing: set<string>)
      ensures Value() == Initial(routing)
    {
      pending, this.routing := map[], routing;
      total, successful, failed, timeouts, retries := 0, 0, 0, 0, 0;
      responded := multiset{};
    }

    method SendToEcu(r: Request) returns (sent: bool)
      ensures sent <==> r.ecu in routing
    {
      sent := r.ecu in routing;
    }

    method SendResponse(id: string, success: bool)
      modifies this`responded, this`successful, this`failed
      ensures responded == old(responded) + multiset{id}
      ensures successful == old(successful) + (if success then 1 else 0)
      ensures failed == old(failed) + (if success then 0 else 1)
    {
      responded := responded + multiset{id};
      if success {
        successful := successful + 1;
      } else {
        failed := failed + 1;
      }
    }

    method RegisterEcu(ecu: string)
      modifies this`routing
      ensures Value() == Register(old(Value()), ecu)
    {
      routing := routing + {ecu};
    }

    /**
     * The fields as extracted from the request text, and whether all of them converted; if one did not, or without both
     * ids, it is refused before anything is counted. Timeout and retry limit are the defaults and the request has not
     * been retried.
     */
    method HandleRequest(converts: bool, id: string, ecu: string, service: uint8, data: seq<uint8>, now: int)
      returns (accepted: bool)
      modifies this
      ensures Value() == if !converts || id == "" || ecu == "" then old(Value())
                         else Submit(old(Value()), id, Request(ecu, service, data, now, 0))
      ensures accepted <==> converts && id != "" && ecu != "" && ecu in routing
    {
      if !converts || id == "" || ecu == "" { return false; }
      total := total + 1;
      var request := Request(ecu, service, data, now, 0);
      AddThenErase(pending, id, request);
      pending := pending[id := request];
      var sent := SendToEcu(request);
      if !sent {
        SendResponse(id, false);
        pending := pending - {id};
        failed := failed + 1;
        return false;
      }
      return true;
    }

    /** One turn of the loop: retry, or report and say that the entry is to be removed, or nothing. */
    method Visit(id: string, now: int, ghost s: State, ghost done: set<string>) returns (remove: bool)
      requires id in s.pending && id !in done && Value() == HalfSwept(s, now, done)
      modifies this
      ensures Value() == HalfSwept(s, now, done + {id})
      ensures remove <==> id in DroppedIds(s.pending, now)
    {
      var request := pending[id];
      assert request == s.pending[id];
      remove := false;
      if !TimedOut(request, now) {
        VisitQuiet(s, now, done, id);
      } else if request.retries < MAX_RETRIES {
        VisitRetried(s, now, done, id);
        pending := pending[id := Retried(request, now)];
        retries := retries + 1;
        var _ := SendToEcu(request);
      } else {
        VisitDropped(s, now, done, id);
        SendResponse(id, false);
        timeouts := timeouts + 1;
        remove := true;
      }
    }

    /** The loop invariant: all but the entries in `todo` have been visited. */
    ghost predicate Halfway(now: int, s: State, todo: set<string>, toRemove: set<string>)
      reads this
    {
      && todo <= s.pending.Keys
      && Value() == HalfSwept(s, now, s.pending.Keys - todo)
      && toRemove == DroppedIds(s.pending, now) * (s.pending.Keys - todo)
    }

    method Turn(now: int, ghost s: State, todo: set<string>, toRemove: set<string>, id: string)
      returns (toRemove': set<string>)
      requires Halfway(now, s, todo, toRemove) && id in todo
      modifies this
      ensures Halfway(now, s, todo - {id}, toRemove')
    {
      ghost var done := s.pending.Keys - todo;
      var remove := Visit(id, now, s, done);
      assert s.pending.Keys - (todo - {id}) == done + {id};
      MeetOneMore(DroppedIds(s.pending, now), done, id);
      toRemove' := if remove then toRemove + {id} else toRemove;
    }

    lemma NothingVisited(now: int)
      ensures Halfway(now, Value(), pending.Keys, {})
    {
      VisitNone(Value(), now);
      assert pending.Keys - pending.Keys == {};
    }

    method Erase(now: int, ghost s: State, toRemove: set<string>)
      requires Halfway(now, s, {}, toRemove)
      modifies this`pending
      ensures Value() == Sweep(s, now)
    {
      assert s.pending.Keys - {} == s.pending.Keys;
      VisitAll(s, now);
      assert toRemove == DroppedIds(s.pending, now);
      pending := pending - toRemove;
    }

    /** Visits the entries in any order; the entries to remove are collected and erased afterwards. */
    method ProcessPendingRequests(now: int)
      modifies this
      ensures Value() == Sweep(old(Value()), now)
    {
      ghost var s := Value();
      var todo := pending.Keys;
      var toRemove: set<string> := {};
      NothingVisited(now);
      while todo != {}
        invariant Halfway(now, s, todo, toRemove)
        decreases |todo|
      {
        var id :| id in todo;
        toRemove := Turn(now, s, todo, toRemove, id);
        todo := todo - {id};
      }
      Erase(now, s, toRemove);
    }
  }

  // ---------------------------------------------------------------------------------------------
  // Sums over the pending requests
  // ---------------------------------------------------------------------------------------------

  ghost function RetriesOf(p: Pending): string -> int {
    (id: string) => if id in p then p[id].retries as int else 0
  }

  ghost function RetrySum(p: Pending): int { Sums.Sum(p.Keys, RetriesOf(p)) }

  /** How often a request can still time out. */
  ghost function ChancesOf(p: Pending): string -> int {
    (id: string) => if id in p then 4 - p[id].retries as int else 0
  }

  ghost function Budget(p: Pending): int { Sums.Sum(p.Keys, ChancesOf(p)) }

  ghost predicate RetriesBounded(p: Pending) { forall id :: id in p ==> p[id].retries <= MAX_RETRIES }

  lemma RetrySumErase(p: Pending, id: string)
    ensures RetrySum(p - {id}) + RetriesOf(p)(id) == RetrySum(p)
  {
    if id in p {
      Sums.Remove(p.Keys, id, RetriesOf(p));
      Sums.Equal(p.Keys - {id}, RetriesOf(p), RetriesOf(p - {id}));
      assert (p - {id}).Keys == p.Keys - {id};
    } else {
      assert p - {id} == p;
    }
  }

  lemma RetrySumAdd(p: Pending, id: string, r: Request)
    ensures RetrySum(p[id := r]) == RetrySum(p - {id}) + r.retries
  {
    var q := p[id := r];
    RetrySumErase(q, id);
    assert q - {id} == p - {id};
  }

  ghost function Indicator(part: set<string>): string -> int {
    (id: string) => if id in part then 1 else 0
  }

  /** A weight of the requests that survive a sweep, as a sum over all requests before it. */
  lemma SurvivorSum(p: Pending, now: int, w: string -> int, kept: string -> int)
    requires forall id :: id in p ==> kept(id) == if id in DroppedIds(p, now) then 0 else w(id)
    ensures Sums.Sum(p.Keys, kept) == Sums.Sum(Swept(p, now).Keys, w)
  {
    var keys, d := p.Keys, DroppedIds(p, now);
    Sums.Restrict(keys, keys - d, kept);
    Sums.Equal(keys - d, kept, w);
    assert Swept(p, now).Keys == keys - d;
  }

  ghost function Sum2(f: string -> int, g: string -> int): string -> int {
    (id: string) => f(id) + g(id)
  }

  ghost function Survivors(p: Pending, now: int, w: string -> int): string -> int {
    (id: string) => if id in DroppedIds(p, now) then 0 else w(id)
  }

  lemma RetriesWeigh(p: Pending, now: int, id: string)
    requires RetriesBounded(p) && id in p
    ensures var d := Indicator(DroppedIds(p, now));
            var before := Sum2(RetriesOf(p), Indicator(RetriedIds(p, now)));
            before(id) == Survivors(p, now, RetriesOf(Swept(p, now)))(id) + Sum2(d, Sum2(d, d))(id)
  {
  }

  lemma SweepKeepsBound(p: Pending, now: int)
    requires RetriesBounded(p)
    ensures RetriesBounded(Swept(p, now))
  {
  }

  lemma SumTwice(keys: set<string>, f: string -> int, g: string -> int)
    ensures Sums.Sum(keys, Sum2(f, g)) == Sums.Sum(keys, f) + Sums.Sum(keys, g)
  {
    Sums.Plus(keys, Sum2(f, g), f, g);
  }

  lemma SweepRetrySum(p: Pending, now: int)
    requires RetriesBounded(p)
    ensures RetrySum(p) + |RetriedIds(p, now)| == RetrySum(Swept(p, now)) + 3 * |DroppedIds(p, now)|
  {
    var w, keys := RetriesOf(Swept(p, now)), p.Keys;
    var kept, d, r := Survivors(p, now, w), Indicator(DroppedIds(p, now)), Indicator(RetriedIds(p, now));
    SurvivorSum(p, now, w, kept);
    Sums.Count(keys, DroppedIds(p, now), d);
    Sums.Count(keys, RetriedIds(p, now), r);
    SumTwice(keys, d, d);
    SumTwice(keys, d, Sum2(d, d));
    SumTwice(keys, RetriesOf(p), r);
    forall id | id in keys ensures Sum2(RetriesOf(p), r)(id) == kept(id) + Sum2(d, Sum2(d, d))(id) {
      RetriesWeigh(p, now, id);
    }
    Sums.Plus(keys, Sum2(RetriesOf(p), r), kept, Sum2(d, Sum2(d, d)));
  }

  lemma BudgetOf(p: Pending)
    ensures Budget(p) == 4 * |p| - RetrySum(p)
  {
    var fours := (id: string) => if id in p then 4 else 0;
    Sums.Plus(p.Keys, fours, ChancesOf(p), RetriesOf(p));
    Sums.Constant(p.Keys, fours, 4);
  }

  /** A sweep takes one chance from every request that timed out. */
  lemma SweepSpendsBudget(p: Pending, now: int)
    requires RetriesBounded(p)
    ensures Budget(p) == Budget(Swept(p, now)) + |RetriedIds(p, now)| + |DroppedIds(p, now)|
  {
    var d := DroppedIds(p, now);
    BudgetOf(p);
    BudgetOf(Swept(p, now));
    SweepRetrySum(p, now);
    assert Swept(p, now).Keys == p.Keys - d && d <= p.Keys;
    assert |p.Keys - d| == |p.Keys| - |d|;
  }

  // ---------------------------------------------------------------------------------------------
  // Conservation over every run
  // ---------------------------------------------------------------------------------------------

  /** Calls, each with the time at which it is made; a refused request is one that does not parse. */
  datatype Call =
    | DoSubmit(id: string, ecu: string, service: uint8, data: seq<uint8>, now: int)
    | DoRefuse(now: int)
    | DoRegister(ecu: string, now: int)
    | DoSweep(now: int)
  {
    function Fresh(): Request
      requires DoSubmit?
    {
      Request(ecu, service, data, now, 0)
    }
  }

  function Step(s: State, c: Call): State {
    match c
    case DoSubmit(id, _, _, _, _) => Submit(s, id, c.Fresh())
    case DoRefuse(_) => s
    case DoRegister(ecu, _) => Register(s, ecu)
    case DoSweep(now) => Sweep(s, now)
  }

  /**
   * What an observer of the calls records: the ids submitted, those that displaced a request still pending under the
   * same id, the retries of the displaced requests, and the requests refused because their ECU has no route.
   */
  datatype Ledger = Ledger(
    submitted: multiset<string>, displaced: multiset<string>, lostRetries: nat, routeFailures: nat)

  function Record(l: Ledger, s: State, c: Call): Ledger {
    match c
    case DoSweep(_) => l
    case DoRefuse(_) => l
    case DoRegister(_, _) => l
    case DoSubmit(id, ecu, _, _, _) =>
      var m := l.(submitted := l.submitted + multiset{id},
                  routeFailures := l.routeFailures + if ecu in s.routing then 0 else 1);
      if id in s.pending then
        m.(displaced := l.displaced + multiset{id}, lostRetries := l.lostRetries + s.pending[id].retries)
      else m
  }

  ghost predicate BooksBalanced(s: State, l: Ledger) {
    && l.submitted == s.responded + multiset(s.pending.Keys) + l.displaced
    && s.total == |l.submitted|
    && |s.responded| == s.timeouts + l.routeFailures
    && s.failed == s.timeouts + 2 * l.routeFailures && s.successful == 0
  }

  ghost predicate RetriesBalanced(s: State, l: Ledger) {
    && RetriesBounded(s.pending) && l.lostRetries <= 3 * |l.displaced|
    && s.retries == RetrySum(s.pending) + 3 * s.timeouts + l.lostRetries
  }

  ghost predicate Balanced(s: State, l: Ledger) { BooksBalanced(s, l) && RetriesBalanced(s, l) }

  lemma KeysAsMultiset(keys: set<string>, id: string)
    ensures multiset(keys + {id}) + (if id in keys then multiset{id} else multiset{}) == multiset(keys) + multiset{id}
    ensures multiset(keys - {id}) + (if id in keys then multiset{id} else multiset{}) == multiset(keys)
  {
    if id !in keys {
      assert keys - {id} == keys;
    }
  }

  lemma SubmitKeepsBooks(s: State, l: Ledger, c: Call)
    requires BooksBalanced(s, l) && c.DoSubmit?
    ensures BooksBalanced(Step(s, c), Record(l, s, c))
  {
    KeysAsMultiset(s.pending.Keys, c.id);
    if c.ecu in s.routing {
      assert s.pending[c.id := c.Fresh()].Keys == s.pending.Keys + {c.id};
    } else {
      assert (s.pending - {c.id}).Keys == s.pending.Keys - {c.id};
    }
  }

  lemma SubmitKeepsRetries(s: State, l: Ledger, c: Call)
    requires RetriesBalanced(s, l) && c.DoSubmit?
    ensures RetriesBalanced(Step(s, c), Record(l, s, c))
  {
    RetrySumErase(s.pending, c.id);
    if c.ecu in s.routing {
      RetrySumAdd(s.pending, c.id, c.Fresh());
    }
  }

  lemma SweepBalances(s: State, l: Ledger, now: int)
    requires Balanced(s, l)
    ensures Balanced(Sweep(s, now), l)
  {
    SweepRetrySum(s.pending, now);
    SweepKeepsBound(s.pending, now);
    var d := DroppedIds(s.pending, now);
    assert Swept(s.pending, now).Keys == s.pending.Keys - d;
    assert multiset(s.pending.Keys) == multiset(s.pending.Keys - d) + multiset(d);
  }

  datatype System = System(state: State, ledger: Ledger)

  function SystemStep(run: nat -> Call): (nat, System) -> System {
    (i: nat, y: System) => System(Step(y.state, run(i)), Record(y.ledger, y.state, run(i)))
  }

  function Start(routing: set<string>): System { System(Initial(routing), Ledger(multiset{}, multiset{}, 0, 0)) }

  ghost function SystemAt(run: nat -> Call, routing: set<string>, n: nat): System {
    Runs.At(SystemStep(run), Start(routing), n)
  }

  lemma Advance(run: nat -> Call, routing: set<string>, n: nat)
    ensures SystemAt(run, routing, n + 1).ledger
         == Record(SystemAt(run, routing, n).ledger, SystemAt(run, routing, n).state, run(n))
  {
    assert Runs.At(SystemStep(run), Start(routing), n + 1) == SystemStep(run)(n, SystemAt(run, routing, n));
  }

  lemma CallBalances(s: State, l: Ledger, c: Call)
    requires Balanced(s, l)
    ensures Balanced(Step(s, c), Record(l, s, c))
  {
    if c.DoSweep? { SweepBalances(s, l, c.now); }
    else if c.DoSubmit? {
      SubmitKeepsBooks(s, l, c);
      SubmitKeepsRetries(s, l, c);
    }
  }

  lemma StartBalanced(routing: set<string>)
    ensures Balanced(Start(routing).state, Start(routing).ledger)
  {
  }

  lemma AlwaysBalanced(run: nat -> Call, routing: set<string>, n: nat)
    ensures var y := SystemAt(run, routing, n); Balanced(y.state, y.ledger)
  {
    var inv := (y: System) => Balanced(y.state, y.ledger);
    forall i: nat, y: System | inv(y) ensures inv(SystemStep(run)(i, y)) {
      CallBalances(y.state, y.ledger, run(i));
    }
    StartBalanced(routing);
    Runs.Invariant(SystemStep(run), inv, Start(routing), 0, n);
  }

  /**
   * Conservation. In every run the totals add up, displaced requests included; the books close without them exactly
   * when no request displaced another one. There are never more than three retries for each request.
   */
  lemma Conservation(run: nat -> Call, routing: set<string>, n: nat)
    ensures var y := SystemAt(run, routing, n);
            var s, l := y.state, y.ledger;
            && s.total == |s.pending| + s.timeouts + l.routeFailures + |l.displaced|
            && (s.total == |s.pending| + s.timeouts + l.routeFailures <==> l.displaced == multiset{})
            && s.retries == RetrySum(s.pending) + 3 * s.timeouts + l.lostRetries
            && s.retries <= 3 * s.total
            && s.failed == s.timeouts + 2 * l.routeFailures && s.successful == 0
  {
    AlwaysBalanced(run, routing, n);
    var s := SystemAt(run, routing, n).state;
    Sums.AtMostThree(s.pending.Keys, RetriesOf(s.pending));
    assert |multiset(s.pending.Keys)| == |s.pending|;
  }

  function Resubmitting(id: string, ecu: string, now: int): nat -> Call {
    (i: nat) => DoSubmit(id, ecu, 0, [], now)
  }

  /** Two submissions under one id: one request is pending, the other lost without an answer. */
  lemma DisplacedInput(id: string, ecu: string, now: int, routing: set<string>)
    requires ecu in routing
    ensures var y := SystemAt(Resubmitting(id, ecu, now), routing, 2);
            && y.ledger.displaced == multiset{id} && y.state.total == 2
            && y.state.pending.Keys == {id} && y.state.responded == multiset{}
  {
    var run := Resubmitting(id, ecu, now);
    var c, s0 := run(0), Start(routing);
    var y1 := System(Step(s0.state, c), Record(s0.ledger, s0.state, c));
    var y2 := System(Step(y1.state, c), Record(y1.ledger, y1.state, c));
    assert SystemAt(run, routing, 0) == s0;
    assert SystemAt(run, routing, 1) == SystemStep(run)(0, s0) == y1;
    assert SystemAt(run, routing, 2) == SystemStep(run)(1, y1) == y2;
  }

  /** Call `i` reuses an id that is still pending. */
  ghost predicate Reuses(run: nat -> Call, routing: set<string>, i: nat) {
    run(i).DoSubmit? && run(i).id in SystemAt(run, routing, i).state.pending
  }

  lemma {:induction false} DisplacedExactlyWhenReused(run: nat -> Call, routing: set<string>, n: nat)
    ensures SystemAt(run, routing, n).ledger.displaced == multiset{}
       <==> forall i: nat :: i < n ==> !Reuses(run, routing, i)
  {
    if n > 0 {
      DisplacedExactlyWhenReused(run, routing, n - 1);
      Advance(run, routing, n - 1);
      var y := SystemAt(run, routing, n - 1);
      RecordDisplaced(y.ledger, y.state, run(n - 1));
      assert Reuses(run, routing, n - 1) <==> run(n - 1).DoSubmit? && run(n - 1).id in y.state.pending;
    }
  }

  lemma RecordDisplaced(l: Ledger, s: State, c: Call)
    ensures Record(l, s, c).displaced == multiset{}
       <==> l.displaced == multiset{} && !(c.DoSubmit? && c.id in s.pending)
  {
    if c.DoSubmit? && c.id in s.pending {
      assert c.id in Record(l, s, c).displaced;
    }
  }

  lemma {:induction false} SubmittedByCall(run: nat -> Call, routing: set<string>, n: nat, id: string)
    requires id in SystemAt(run, routing, n).ledger.submitted
    ensures exists i: nat :: i < n && run(i).DoSubmit? && run(i).id == id
  {
    if n > 0 {
      Advance(run, routing, n - 1);
      if !(run(n - 1).DoSubmit? && run(n - 1).id == id) {
        SubmittedByCall(run, routing, n - 1, id);
      }
    }
  }

  ghost predicate DistinctIds(run: nat -> Call) {
    forall i: nat, j: nat :: i < j && run(i).DoSubmit? && run(j).DoSubmit? ==> run(i).id != run(j).id
  }

  lemma {:induction false} SubmittedOnce(run: nat -> Call, routing: set<string>, n: nat, id: string)
    requires DistinctIds(run)
    ensures SystemAt(run, routing, n).ledger.submitted[id] <= 1
  {
    if n > 0 {
      SubmittedOnce(run, routing, n - 1, id);
      Advance(run, routing, n - 1);
      if run(n - 1).DoSubmit? && run(n - 1).id == id && id in SystemAt(run, routing, n - 1).ledger.submitted {
        SubmittedByCall(run, routing, n - 1, id);
      }
    }
  }

  /**
   * With distinct request ids every submitted request is either pending or has been answered exactly once, never
   * both, and nothing else is answered.
   */
  lemma AnsweredExactlyOnce(run: nat -> Call, routing: set<string>, n: nat, id: string)
    requires DistinctIds(run)
    ensures var y := SystemAt(run, routing, n);
            y.state.responded[id] + (if id in y.state.pending then 1 else 0)
              == if id in y.ledger.submitted then 1 else 0
  {
    AlwaysBalanced(run, routing, n);
    SubmittedOnce(run, routing, n, id);
    var y := SystemAt(run, routing, n);
    forall i: nat | i < n ensures !Reuses(run, routing, i) {
      if Reuses(run, routing, i) {
        AlwaysBalanced(run, routing, i);
        assert run(i).id in multiset(SystemAt(run, routing, i).state.pending.Keys);
        SubmittedByCall(run, routing, i, run(i).id);
      }
    }
    DisplacedExactlyWhenReused(run, routing, n);
  }

  // ---------------------------------------------------------------------------------------------
  // Nothing is retried forever
  // ---------------------------------------------------------------------------------------------

  ghost function StateAt(run: nat -> Call, routing: set<string>, n: nat): State { SystemAt(run, routing, n).state }

  lemma StateAdvances(run: nat -> Call, routing: set<string>, n: nat)
    ensures StateAt(run, routing, n + 1) == Step(StateAt(run, routing, n), run(n))
  {
    assert Runs.At(SystemStep(run), Start(routing), n + 1) == SystemStep(run)(n, SystemAt(run, routing, n));
  }

  /** Timeouts handled so far, by a retry or by giving up. */
  function Handled(s: State): nat { s.retries + s.timeouts }

  ghost function BudgetAndHandled(s: State): int { Budget(s.pending) + Handled(s) }

  lemma BudgetStep(s: State, c: Call)
    requires RetriesBounded(s.pending) && !c.DoSubmit?
    ensures BudgetAndHandled(Step(s, c)) == BudgetAndHandled(s) && RetriesBounded(Step(s, c).pending)
  {
    if c.DoSweep? {
      SweepSpendsBudget(s.pending, c.now);
      SweepKeepsBound(s.pending, c.now);
    }
  }

  /** The measure: while nothing is submitted, each timeout handled takes one from the budget, and nothing else does. */
  lemma BudgetFalls(run: nat -> Call, routing: set<string>, i: nat, n: nat)
    requires i <= n && forall k: nat :: i <= k < n ==> !run(k).DoSubmit?
    ensures BudgetAndHandled(StateAt(run, routing, n)) == BudgetAndHandled(StateAt(run, routing, i))
  {
    var step, was := SystemStep(run), BudgetAndHandled(StateAt(run, routing, i));
    var inv := (y: System) => BudgetAndHandled(y.state) == was && RetriesBounded(y.state.pending);
    AlwaysBalanced(run, routing, i);
    forall k: nat, y: System | i <= k < n && inv(y) ensures inv(step(k, y)) {
      BudgetStep(y.state, run(k));
    }
    Runs.Invariant(step, inv, Start(routing), i, n);
  }

  predicate InOrder(run: nat -> Call, i: nat, j: nat) { run(i).now <= run(j).now }

  /** Time never runs backwards. */
  ghost predicate Chronological(run: nat -> Call) { forall i: nat, j: nat :: i <= j ==> InOrder(run, i, j) }

  /**
   * At time `now`, if the request `id` is pending at all, it has been retried at least `k` times, and was last sent no
   * later than `t` if it was retried no more often.
   */
  predicate Chased(p: Pending, id: string, k: nat, t: int, now: int) {
    id in p ==>
      && p[id].timestamp <= now && k <= p[id].retries <= MAX_RETRIES
      && (p[id].retries == k ==> p[id].timestamp <= t)
  }

  lemma ChasedStep(s: State, c: Call, id: string, k: nat, t: int, now: int)
    requires Chased(s.pending, id, k, t, now) && now <= c.now && !(c.DoSubmit? && c.id == id)
    ensures Chased(Step(s, c).pending, id, k, t, c.now)
  {
  }

  /** A sweep more than the timeout later retries the request once more, or gives it up. */
  lemma ChasedSweep(p: Pending, id: string, k: nat, t: int, now: int)
    requires Chased(p, id, k, t, now) && t + TIMEOUT_MS < now
    ensures if k < 3 then Chased(Swept(p, now), id, k + 1, now, now) else id !in Swept(p, now)
  {
  }

  ghost predicate ChasedAt(run: nat -> Call, routing: set<string>, n: nat, id: string, k: nat, t: int) {
    n > 0 && Chased(StateAt(run, routing, n).pending, id, k, t, run(n - 1).now)
  }

  lemma {:induction false} ChasedAlong(
      run: nat -> Call, routing: set<string>, id: string, k: nat, t: int, m: nat, n: nat)
    requires Chronological(run) && 0 < m <= n
    requires forall i: nat :: m <= i < n ==> !(run(i).DoSubmit? && run(i).id == id)
    requires ChasedAt(run, routing, m, id, k, t)
    ensures ChasedAt(run, routing, n, id, k, t)
    decreases n
  {
    if m < n {
      ChasedAlong(run, routing, id, k, t, m, n - 1);
      StateAdvances(run, routing, n - 1);
      assert InOrder(run, n - 2, n - 1);
      ChasedStep(StateAt(run, routing, n - 1), run(n - 1), id, k, t, run(n - 2).now);
    }
  }

  /** From one sweep to the next: the request gains a retry or is gone. */
  lemma ChasedToSweep(run: nat -> Call, routing: set<string>, id: string, k: nat, t: int, m: nat, j: nat)
    requires Chronological(run) && 0 < m <= j && run(j).DoSweep? && t + TIMEOUT_MS < run(j).now
    requires forall i: nat :: m <= i < j ==> !(run(i).DoSubmit? && run(i).id == id)
    requires ChasedAt(run, routing, m, id, k, t)
    ensures if k < 3 then ChasedAt(run, routing, j + 1, id, k + 1, run(j).now)
            else id !in StateAt(run, routing, j + 1).pending
  {
    ChasedAlong(run, routing, id, k, t, m, j);
    StateAdvances(run, routing, j);
    assert InOrder(run, j - 1, j);
    ChasedNow(StateAt(run, routing, j).pending, id, k, t, run(j - 1).now, run(j).now);
    ChasedSweep(StateAt(run, routing, j).pending, id, k, t, run(j).now);
  }

  lemma ChasedNow(p: Pending, id: string, k: nat, t: int, now: int, later: int)
    requires Chased(p, id, k, t, now) && now <= later
    ensures Chased(p, id, k, t, later)
  {
  }

  lemma ChasedFromStart(run: nat -> Call, routing: set<string>, i: nat)
    requires run(i).DoSubmit?
    ensures ChasedAt(run, routing, i + 1, run(i).id, 0, run(i).now)
  {
    StateAdvances(run, routing, i);
  }

  /** `j` is a sweep made more than the timeout after call `i`. */
  predicate LateSweep(run: nat -> Call, i: nat, j: nat) {
    i < j && run(j).DoSweep? && run(i).now + 5000 < run(j).now
  }

  /** Each of four late sweeps costs a pending request a retry, and the last one the request. */
  lemma FourSweepsDrain(run: nat -> Call, routing: set<string>, i: nat, j1: nat, j2: nat, j3: nat, j4: nat)
    requires DistinctIds(run) && Chronological(run) && run(i).DoSubmit?
    requires LateSweep(run, i, j1) && LateSweep(run, j1, j2) && LateSweep(run, j2, j3) && LateSweep(run, j3, j4)
    ensures run(i).id !in StateAt(run, routing, j4 + 1).pending
  {
    var id := run(i).id;
    ChasedFromStart(run, routing, i);
    ChasedToSweep(run, routing, id, 0, run(i).now, i + 1, j1);
    ChasedToSweep(run, routing, id, 1, run(j1).now, j1 + 1, j2);
    ChasedToSweep(run, routing, id, 2, run(j2).now, j2 + 1, j3);
    ChasedToSweep(run, routing, id, 3, run(j3).now, j3 + 1, j4);
  }

  /**
   * No request is retried forever. With distinct ids, four sweeps after a submission, each more than the timeout after
   * the one before, and the request has been answered, exactly once and for good, whatever else is submitted,
   * registered or swept in between.
   */
  lemma FourSweepsAnswer(
      run: nat -> Call, routing: set<string>, i: nat, j1: nat, j2: nat, j3: nat, j4: nat, n: nat)
    requires DistinctIds(run) && Chronological(run) && run(i).DoSubmit?
    requires LateSweep(run, i, j1) && LateSweep(run, j1, j2) && LateSweep(run, j2, j3) && LateSweep(run, j3, j4)
    requires j4 < n
    ensures var s := StateAt(run, routing, n); run(i).id !in s.pending && s.responded[run(i).id] == 1
  {
    FourSweepsDrain(run, routing, i, j1, j2, j3, j4);
    StaysAnswered(run, routing, run(i).id, j4 + 1, n);
    SubmittedIsRecorded(run, routing, i, n);
    AnsweredExactlyOnce(run, routing, n, run(i).id);
  }

  lemma {:induction false} StaysAnswered(run: nat -> Call, routing: set<string>, id: string, m: nat, n: nat)
    requires m <= n && id !in StateAt(run, routing, m).pending
    requires forall i: nat :: m <= i < n ==> !(run(i).DoSubmit? && run(i).id == id)
    ensures id !in StateAt(run, routing, n).pending
    decreases n
  {
    if m < n {
      StaysAnswered(run, routing, id, m, n - 1);
      StateAdvances(run, routing, n - 1);
    }
  }

  lemma {:induction false} SubmittedIsRecorded(run: nat -> Call, routing: set<string>, i: nat, n: nat)
    requires i < n && run(i).DoSubmit?
    ensures run(i).id in SystemAt(run, routing, n).ledger.submitted
    decreases n
  {
    Advance(run, routing, n - 1);
    if i < n - 1 {
      SubmittedIsRecorded(run, routing, i, n - 1);
    }
  }

  /** Sweeps never stop coming, and their time passes every bound. */
  ghost predicate KeepsSweeping(run: nat -> Call) { forall i: nat :: SweptAfter(run, i) }

  ghost predicate SweptAfter(run: nat -> Call, i: nat) { exists j: nat :: LateSweep(run, i, j) }

  /** So as long as the handler is polled, every request is answered in the end. */
  lemma EveryRequestIsAnswered(run: nat -> Call, routing: set<string>, i: nat) returns (n: nat)
    requires DistinctIds(run) && Chronological(run) && KeepsSweeping(run) && run(i).DoSubmit?
    ensures n > i && forall m: nat :: m >= n ==> StateAt(run, routing, m).responded[run(i).id] == 1
  {
    assert SweptAfter(run, i);
    var j1: nat :| LateSweep(run, i, j1);
    assert SweptAfter(run, j1);
    var j2: nat :| LateSweep(run, j1, j2);
    assert SweptAfter(run, j2);
    var j3: nat :| LateSweep(run, j2, j3);
    assert SweptAfter(run, j3);
    var j4: nat :| LateSweep(run, j3, j4);
    n := j4 + 1;
    forall m: nat | m >= n ensures StateAt(run, routing, m).responded[run(i).id] == 1 {
      FourSweepsAnswer(run, routing, i, j1, j2, j3, j4, m);
    }
  }

  // ---------------------------------------------------------------------------------------------
  // Nothing is retried or given up early
  // ---------------------------------------------------------------------------------------------

  /** A sweep at most 5000 ms after a request was last sent leaves it, and its answers, as they are. */
  lemma EarlySweepIsQuiet(s: State, id: string, now: int)
    requires id in s.pending && now - s.pending[id].timestamp <= 5000
    ensures var t := Sweep(s, now);
            id in t.pending && t.pending[id] == s.pending[id] && t.responded[id] == s.responded[id]
  {
  }

  /** A later one retries it, keeping what was asked, or gives it up after three retries with one answer. */
  lemma LateSweepActs(s: State, id: string, now: int)
    requires id in s.pending && now - s.pending[id].timestamp > 5000 && s.pending[id].retries <= 3
    ensures var r, t := s.pending[id], Sweep(s, now);
            if r.retries < 3 then
              && id in t.pending && t.pending[id] == r.(retries := r.retries + 1, timestamp := now)
              && t.responded[id] == s.responded[id]
            else id !in t.pending && t.responded[id] == s.responded[id] + 1
  {
  }

  /** Call `n` sends the request: its submission, or a sweep that counts a retry. */
  ghost predicate Transmits(run: nat -> Call, routing: set<string>, n: nat, id: string) {
    var p, q := StateAt(run, routing, n).pending, StateAt(run, routing, n + 1).pending;
    id in q && (id !in p || p[id].retries != q[id].retries)
  }

  /**
   * Before call `n` the request submitted by call `i` has either been answered, later than 4 * 5000 ms after its
   * submission, or is pending just as submitted, and each of its transmissions came later than 5000 ms after the one
   * before, the last at its time stamp.
   */
  predicate Paced(p: Pending, c: Call, responded: nat, now: int)
    requires c.DoSubmit?
  {
    if c.id in p then
      var r := p[c.id];
      && responded == 0 && r.(timestamp := c.now, retries := 0) == c.Fresh() && r.retries <= 3
      && c.now + 5000 * r.retries <= r.timestamp <= now
    else responded == 0 || c.now + 4 * 5000 < now
  }

  lemma PacedStep(s: State, c: Call, next: Call, now: int)
    requires c.DoSubmit? && Paced(s.pending, c, s.responded[c.id], now)
    requires now <= next.now && !(next.DoSubmit? && next.id == c.id)
    ensures var t := Step(s, next); Paced(t.pending, c, t.responded[c.id], next.now)
  {
    if next.DoSweep? && c.id in s.pending {
      if next.now - s.pending[c.id].timestamp <= 5000 {
        EarlySweepIsQuiet(s, c.id, next.now);
      } else {
        LateSweepActs(s, c.id, next.now);
      }
    }
  }

  lemma PacedFromStart(run: nat -> Call, routing: set<string>, i: nat)
    requires DistinctIds(run) && run(i).DoSubmit? && run(i).ecu in StateAt(run, routing, i).routing
    ensures var s := StateAt(run, routing, i + 1); Paced(s.pending, run(i), s.responded[run(i).id], run(i).now)
  {
    StateAdvances(run, routing, i);
    NotAnsweredBefore(run, routing, i);
  }

  lemma NotAnsweredBefore(run: nat -> Call, routing: set<string>, i: nat)
    requires DistinctIds(run) && run(i).DoSubmit?
    ensures StateAt(run, routing, i).responded[run(i).id] == 0 && run(i).id !in StateAt(run, routing, i).pending
  {
    AnsweredExactlyOnce(run, routing, i, run(i).id);
    if run(i).id in SystemAt(run, routing, i).ledger.submitted { SubmittedByCall(run, routing, i, run(i).id); }
  }

  lemma {:induction false} PacedAlong(run: nat -> Call, routing: set<string>, i: nat, n: nat)
    requires DistinctIds(run) && Chronological(run) && i < n
    requires run(i).DoSubmit? && run(i).ecu in StateAt(run, routing, i).routing
    ensures var s := StateAt(run, routing, n); Paced(s.pending, run(i), s.responded[run(i).id], run(n - 1).now)
    decreases n
  {
    if i == n - 1 {
      PacedFromStart(run, routing, i);
    } else {
      PacedAlong(run, routing, i, n - 1);
      StateAdvances(run, routing, n - 1);
      assert InOrder(run, n - 2, n - 1);
      PacedStep(StateAt(run, routing, n - 1), run(i), run(n - 1), run(n - 2).now);
    }
  }

  /**
   * In every chronological run with distinct ids, a request whose ECU has a route is not answered until more than
   * 4 * 5000 ms after its submission, and while it is pending it is the request that was submitted.
   */
  lemma NotAnsweredEarly(run: nat -> Call, routing: set<string>, i: nat, n: nat)
    requires DistinctIds(run) && Chronological(run) && i < n
    requires run(i).DoSubmit? && run(i).ecu in StateAt(run, routing, i).routing
    ensures var s, id := StateAt(run, routing, n), run(i).id;
            && (run(n - 1).now <= run(i).now + 4 * 5000 ==> s.responded[id] == 0 && id in s.pending)
            && (id in s.pending ==>
                  s.pending[id].ecu == run(i).ecu && s.pending[id].service == run(i).service
                  && s.pending[id].data == run(i).data)
  {
    PacedAlong(run, routing, i, n);
    AnsweredExactlyOnce(run, routing, n, run(i).id);
    SubmittedIsRecorded(run, routing, i, n);
  }

  /** Any two transmissions of a request are more than 5000 ms apart. */
  lemma TransmissionsAreSpaced(run: nat -> Call, routing: set<string>, i: nat, j: nat, k: nat)
    requires DistinctIds(run) && Chronological(run) && i <= j < k
    requires run(i).DoSubmit? && run(i).ecu in StateAt(run, routing, i).routing
    requires Transmits(run, routing, j, run(i).id) && Transmits(run, routing, k, run(i).id)
    ensures run(k).now - run(j).now > 5000
  {
    var id := run(i).id;
    SentAt(run, routing, i, j);
    StampKept(run, routing, i, j + 1, k);
    StateAdvances(run, routing, k);
    PacedAlong(run, routing, i, k);
    if id in StateAt(run, routing, k).pending {
      if run(k).DoSweep? && run(k).now - StateAt(run, routing, k).pending[id].timestamp <= 5000 {
        EarlySweepIsQuiet(StateAt(run, routing, k), id, run(k).now);
      }
    }
  }

  /** A transmission stamps the request with its time. */
  lemma SentAt(run: nat -> Call, routing: set<string>, i: nat, j: nat)
    requires DistinctIds(run) && Chronological(run) && i <= j
    requires run(i).DoSubmit? && run(i).ecu in StateAt(run, routing, i).routing
    requires Transmits(run, routing, j, run(i).id)
    ensures StateAt(run, routing, j + 1).pending[run(i).id].timestamp == run(j).now
  {
    var id := run(i).id;
    StateAdvances(run, routing, j);
    if i < j && id in StateAt(run, routing, j).pending && run(j).DoSweep? {
      if run(j).now - StateAt(run, routing, j).pending[id].timestamp <= 5000 {
        EarlySweepIsQuiet(StateAt(run, routing, j), id, run(j).now);
      }
    }
  }

  /** The stamp only grows, and a request that is gone stays so. */
  lemma {:induction false} StampKept(run: nat -> Call, routing: set<string>, i: nat, m: nat, n: nat)
    requires DistinctIds(run) && Chronological(run) && i < m <= n
    requires run(i).DoSubmit? && run(i).ecu in StateAt(run, routing, i).routing
    ensures var p, q, id := StateAt(run, routing, m).pending, StateAt(run, routing, n).pending, run(i).id;
            id in q ==> id in p && p[id].timestamp <= q[id].timestamp
    decreases n
  {
    if m < n {
      StampKept(run, routing, i, m, n - 1);
      StateAdvances(run, routing, n - 1);
      PacedAlong(run, routing, i, n - 1);
      assert InOrder(run, n - 2, n - 1);
    }
  }

  // ---------------------------------------------------------------------------------------------
  // Routes
  // ---------------------------------------------------------------------------------------------

  lemma RouteStep(s: State, c: Call, ecu: string)
    ensures ecu in Step(s, c).routing <==> ecu in s.routing || (c.DoRegister? && c.ecu == ecu)
  {
  }

  /** An ECU has a route exactly if it had one at first or has been registered since. */
  lemma {:induction false} RoutedExactlyWhen(run: nat -> Call, routing: set<string>, n: nat, ecu: string)
    ensures ecu in StateAt(run, routing, n).routing
       <==> ecu in routing || exists i: nat :: i < n && run(i).DoRegister? && run(i).ecu == ecu
  {
    if n > 0 {
      RoutedExactlyWhen(run, routing, n - 1, ecu);
      StateAdvances(run, routing, n - 1);
      RouteStep(StateAt(run, routing, n - 1), run(n - 1), ecu);
    }
  }

  /** Without a route a request is answered at once and not kept. */
  lemma UnroutedAnsweredAtOnce(run: nat -> Call, routing: set<string>, i: nat)
    requires DistinctIds(run) && run(i).DoSubmit? && run(i).ecu !in StateAt(run, routing, i).routing
    ensures var s := StateAt(run, routing, i + 1); run(i).id !in s.pending && s.responded[run(i).id] == 1
  {
    NotAnsweredBefore(run, routing, i);
    StateAdvances(run, routing, i);
  }
}
