/** The zonal gateway's diagnostic routing table, over every sequence of calls and with duplicate addresses. */
module DiagnosticRouter {
  import opened Words
  import Runs

  const MAX_ECUS := 32
  const MAX_PENDING := 16
  const TIMEOUT_MS := 5000
  const ID_SIZE := 32

  datatype Entry = Entry(id: string, address: uint16, connected: bool, lastActivity: uint32)

  datatype Slot = Slot(active: bool, timestamp: uint32)

  datatype Router = Router(
    ecus: seq<Entry>, pending: seq<Slot>,
    totalRequests: uint32, routedToEcu: uint32, routedToVmg: uint32, routingErrors: uint32)

  const INITIAL := Router([], seq(MAX_PENDING, i => Slot(false, 0)), 0, 0, 0, 0)

  /** The id as strncpy leaves it in the entry. */
  function Truncated(id: string): string { if |id| < ID_SIZE then id else id[..ID_SIZE - 1] }

  /** `i` is the first entry with that address. */
  ghost predicate FirstWith(ecus: seq<Entry>, address: uint16, i: nat) {
    i < |ecus| && ecus[i].address == address && forall j :: 0 <= j < i ==> ecus[j].address != address
  }

  ghost predicate Unknown(ecus: seq<Entry>, address: uint16) {
    forall j :: 0 <= j < |ecus| ==> ecus[j].address != address
  }

  /** The first index with that address, or the number of entries. */
  function Find(ecus: seq<Entry>, address: uint16): (i: nat)
    ensures if i == |ecus| then Unknown(ecus, address) else FirstWith(ecus, address, i)
  {
    if ecus == [] then 0
    else if ecus[0].address == address then 0
    else 1 + Find(ecus[1..], address)
  }

  function Register(r: Router, id: string, address: uint16): Router {
    if |r.ecus| >= MAX_ECUS then r else r.(ecus := r.ecus + [Entry(Truncated(id), address, false, 0)])
  }

  function RouteToEcu(r: Router, target: uint16): Router {
    var s := r.(totalRequests := Add32(r.totalRequests, 1));
    if Find(r.ecus, target) == |r.ecus| then s.(routingErrors := Add32(r.routingErrors, 1))
    else s.(routedToEcu := Add32(r.routedToEcu, 1))
  }

  function Touched(ecus: seq<Entry>, address: uint16, now: uint32): seq<Entry> {
    var i := Find(ecus, address);
    if i == |ecus| then ecus else ecus[i := ecus[i].(connected := true, lastActivity := now)]
  }

  function RouteToVmg(r: Router, source: uint16, now: uint32): Router {
    r.(ecus := Touched(r.ecus, source, now), routedToVmg := Add32(r.routedToVmg, 1))
  }

  /** The addresses a broadcast goes to. */
  function Recipients(ecus: seq<Entry>): seq<uint16> {
    if ecus == [] then []
    else
      var before := Recipients(ecus[..|ecus| - 1]);
      if ecus[|ecus| - 1].connected then before + [ecus[|ecus| - 1].address] else before
  }

  function Broadcast(r: Router): Router {
    r.(routedToEcu := Add32(r.routedToEcu, |Recipients(r.ecus)|))
  }

  predicate TimedOut(s: Slot, now: uint32) { s.active && Sub32(now, s.timestamp) > TIMEOUT_MS }

  function TimeoutCount(pending: seq<Slot>, now: uint32): nat {
    if pending == [] then 0
    else TimeoutCount(pending[..|pending| - 1], now) + if TimedOut(pending[|pending| - 1], now) then 1 else 0
  }

  function Expired(s: Slot, now: uint32): Slot { if TimedOut(s, now) then s.(active := false) else s }

  function Expire(pending: seq<Slot>, now: uint32): (r: seq<Slot>)
    ensures |r| == |pending|
  {
    seq(|pending|, i requires 0 <= i < |pending| => Expired(pending[i], now))
  }

  function CheckTimeouts(r: Router, now: uint32): Router {
    r.(pending := Expire(r.pending, now), routingErrors := Add32(r.routingErrors, TimeoutCount(r.pending, now)))
  }

  lemma AddOne(a: uint32, n: nat)
    ensures Add32(Add32(a, n), 1) == Add32(a, n + 1)
  {
  }

  lemma SlotDone(slots: seq<Slot>, now: uint32, i: nat)
    requires i < |slots|
    ensures var e := Expire(slots, now);
            e[..i + 1] + slots[i + 1..] == (e[..i] + slots[i..])[i := Expired(slots[i], now)]
    ensures TimeoutCount(slots[..i + 1], now)
         == TimeoutCount(slots[..i], now) + if TimedOut(slots[i], now) then 1 else 0
  {
    assert slots[..i + 1][..i] == slots[..i];
  }

  // ---------------------------------------------------------------------------------------------
  // The code
  // ---------------------------------------------------------------------------------------------

  class RoutingTable {
    const ecus: array<Entry>
    var ecuCount: nat
    const pending: array<Slot>
    var totalRequests: uint32
    var routedToEcu: uint32
    var routedToVmg: uint32
    var routingErrors: uint32

    ghost predicate Valid()
      reads this
    {
      ecus.Length == MAX_ECUS && pending.Length == MAX_PENDING && ecuCount <= MAX_ECUS
    }

    function Value(): Router
      requires Valid()
      reads this, ecus, pending
    {
      Router(ecus[..ecuCount], pending[..], totalRequests, routedToEcu, routedToVmg, routingErrors)
    }

    constructor ()
      ensures Valid() && Value() == INITIAL
      ensures fresh(ecus) && fresh(pending)
    {
      ecus := new Entry[MAX_ECUS](i => Entry("", 0, false, 0));
      pending := new Slot[MAX_PENDING](i => Slot(false, 0));
      ecuCount, totalRequests, routedToEcu, routedToVmg, routingErrors := 0, 0, 0, 0, 0;
      new;
      assert pending[..] == INITIAL.pending;
    }

    method RegisterEcu(id: string, address: uint16) returns (rc: int)
      requires Valid()
      modifies this, ecus
      ensures Valid() && Value() == Register(old(Value()), id, address)
      ensures rc == if |old(Value()).ecus| >= MAX_ECUS then -1 else 0
    {
      if ecuCount >= MAX_ECUS { return -1; }
      ecus[ecuCount] := Entry(Truncated(id), address, false, 0);
      ecuCount := ecuCount + 1;
      return 0;
    }

    method FindEcu(address: uint16) returns (i: nat)
      requires Valid()
      ensures i == Find(Value().ecus, address)
    {
      ghost var table := ecus[..ecuCount];
      i := 0;
      while i < ecuCount
        invariant i <= ecuCount && i + Find(table[i..], address) == Find(table, address)
      {
        if ecus[i].address == address { return; }
        assert table[i..][1..] == table[i + 1..];
        i := i + 1;
      }
    }

    method RouteMessageToEcu(target: uint16, uds: seq<uint8>) returns (rc: int)
      requires Valid()
      modifies this
      ensures Valid()
      ensures Value() == if uds == [] then old(Value()) else RouteToEcu(old(Value()), target)
      ensures rc == 0 || rc == -1
      ensures rc == 0 <==> uds != [] && !Unknown(old(Value()).ecus, target)
    {
      if |uds| == 0 { return -1; }
      totalRequests := Add32(totalRequests, 1);
      var i := FindEcu(target);
      if i == ecuCount {
        routingErrors := Add32(routingErrors, 1);
        return -1;
      }
      routedToEcu := Add32(routedToEcu, 1);
      return 0;
    }

    method UpdateActivity(address: uint16, now: uint32)
      requires Valid()
      modifies ecus
      ensures Valid() && Value() == old(Value()).(ecus := Touched(old(Value()).ecus, address, now))
    {
      ghost var table := ecus[..ecuCount];
      var i := 0;
      while i < ecuCount
        invariant i <= ecuCount && i + Find(table[i..], address) == Find(table, address)
        invariant ecus[..ecuCount] == table
      {
        if ecus[i].address == address {
          ecus[i] := ecus[i].(lastActivity := now, connected := true);
          break;
        }
        assert table[i..][1..] == table[i + 1..];
        i := i + 1;
      }
    }

    method RouteMessageToVmg(source: uint16, uds: seq<uint8>, now: uint32) returns (rc: int)
      requires Valid()
      modifies this, ecus
      ensures Valid()
      ensures Value() == if uds == [] then old(Value()) else RouteToVmg(old(Value()), source, now)
      ensures rc == if uds == [] then -1 else 0
    {
      if |uds| == 0 { return -1; }
      UpdateActivity(source, now);
      routedToVmg := Add32(routedToVmg, 1);
      return 0;
    }

    method BroadcastMessage(uds: seq<uint8>) returns (sent: int)
      requires Valid()
      modifies this
      ensures Valid()
      ensures Value() == if uds == [] then old(Value()) else Broadcast(old(Value()))
      ensures sent == if uds == [] then -1 else |Recipients(old(Value()).ecus)|
    {
      if |uds| == 0 { return -1; }
      var count := 0;
      for i := 0 to ecuCount
        invariant count == |Recipients(ecus[..i])|
      {
        assert ecus[..i + 1][..i] == ecus[..i];
        if ecus[i].connected {
          count := count + 1;
        }
      }
      routedToEcu := Add32(routedToEcu, count);
      return count;
    }

    method CheckAllTimeouts(now: uint32)
      requires Valid()
      modifies this, pending
      ensures Valid() && Value() == CheckTimeouts(old(Value()), now)
    {
      ghost var slots := pending[..];
      ghost var expired := Expire(slots, now);
      for i := 0 to MAX_PENDING
        invariant unchanged(this`ecuCount, this`totalRequests, this`routedToEcu, this`routedToVmg, ecus)
        invariant pending[..] == expired[..i] + slots[i..]
        invariant routingErrors == Add32(old(routingErrors), TimeoutCount(slots[..i], now))
      {
        assert pending[i] == pending[..][i] == slots[i];
        if pending[i].active {
          var elapsed := Sub32(now, pending[i].timestamp);
          if elapsed > TIMEOUT_MS {
            pending[i] := pending[i].(active := false);
            AddOne(old(routingErrors), TimeoutCount(slots[..i], now));
            routingErrors := Add32(routingErrors, 1);
          }
        }
        SlotDone(slots, now, i);
      }
      assert slots[..MAX_PENDING] == slots;
    }
  }

  // ---------------------------------------------------------------------------------------------
  // Runs
  // ---------------------------------------------------------------------------------------------

  datatype Call =
    | DoRegister(id: string, address: uint16)
    | DoRouteToEcu(target: uint16)
    | DoRouteToVmg(source: uint16, now: uint32)
    | DoUpdateActivity(address: uint16, now: uint32)
    | DoBroadcast
    | DoCheckTimeouts(now: uint32)

  function Step(r: Router, c: Call): Router {
    match c
    case DoRegister(id, address) => Register(r, id, address)
    case DoRouteToEcu(target) => RouteToEcu(r, target)
    case DoRouteToVmg(source, now) => RouteToVmg(r, source, now)
    case DoUpdateActivity(address, now) => r.(ecus := Touched(r.ecus, address, now))
    case DoBroadcast => Broadcast(r)
    case DoCheckTimeouts(now) => CheckTimeouts(r, now)
  }

  ghost function RouterAt(run: nat -> Call, n: nat): Router {
    Runs.At((i: nat, r: Router) => Step(r, run(i)), INITIAL, n)
  }

  lemma Advance(run: nat -> Call, n: nat)
    ensures RouterAt(run, n + 1) == Step(RouterAt(run, n), run(n))
  {
    var step := (i: nat, r: Router) => Step(r, run(i));
    assert Runs.At(step, INITIAL, n + 1) == step(n, Runs.At(step, INITIAL, n));
  }

  /** A connected entry is the first with its address. */
  ghost predicate ConnectedAreFirst(ecus: seq<Entry>) {
    forall i, j :: 0 <= j < i < |ecus| && ecus[i].connected ==> ecus[j].address != ecus[i].address
  }

  ghost predicate NothingPending(pending: seq<Slot>) {
    forall i :: 0 <= i < |pending| ==> !pending[i].active
  }

  lemma NoTimeouts(pending: seq<Slot>, now: uint32)
    requires NothingPending(pending)
    ensures TimeoutCount(pending, now) == 0 && Expire(pending, now) == pending
  {
    if pending != [] {
      NoTimeouts(pending[..|pending| - 1], now);
    }
  }

  lemma StepKeeps(r: Router, c: Call)
    requires ConnectedAreFirst(r.ecus) && NothingPending(r.pending) && |r.ecus| <= MAX_ECUS
    ensures var s := Step(r, c); ConnectedAreFirst(s.ecus) && NothingPending(s.pending) && |s.ecus| <= MAX_ECUS
  {
    if c.DoCheckTimeouts? { NoTimeouts(r.pending, c.now); }
  }

  /** In every reachable state connected entries are first with their address and no pending slot is ever active. */
  lemma {:induction false} TableInvariant(run: nat -> Call, n: nat)
    ensures var r := RouterAt(run, n); ConnectedAreFirst(r.ecus) && NothingPending(r.pending) && |r.ecus| <= MAX_ECUS
  {
    if n > 0 {
      TableInvariant(run, n - 1);
      Advance(run, n - 1);
      StepKeeps(RouterAt(run, n - 1), run(n - 1));
    }
  }

  ghost predicate Distinct(s: seq<uint16>) {
    forall i, j :: 0 <= i < j < |s| ==> s[i] != s[j]
  }

  ghost predicate ConnectedAddress(ecus: seq<Entry>, a: uint16) {
    exists i :: 0 <= i < |ecus| && ecus[i].connected && ecus[i].address == a
  }

  /** The recipients are exactly the addresses of connected entries, and no address is served twice. */
  lemma {:induction false} RecipientsDistinct(ecus: seq<Entry>)
    requires ConnectedAreFirst(ecus)
    ensures Distinct(Recipients(ecus))
    ensures forall a :: a in Recipients(ecus) <==> ConnectedAddress(ecus, a)
    decreases ecus
  {
    if ecus != [] {
      var last := |ecus| - 1;
      RecipientsDistinct(ecus[..last]);
      var before := Recipients(ecus[..last]);
      if ecus[last].connected {
        forall k | 0 <= k < |before| ensures before[k] != ecus[last].address {
          var a := before[k];
          assert a in before;
          var i :| 0 <= i < last && ecus[..last][i].connected && ecus[..last][i].address == a;
        }
      }
      forall a ensures a in Recipients(ecus) <==> ConnectedAddress(ecus, a) {
        if a in before {
          var i :| 0 <= i < last && ecus[..last][i].connected && ecus[..last][i].address == a;
          assert ecus[i].connected && ecus[i].address == a;
        } else if ecus[last].connected && ecus[last].address == a {
          assert a in Recipients(ecus);
        }
        if i :| 0 <= i < |ecus| && ecus[i].connected && ecus[i].address == a {
          if i < last { assert ecus[..last][i].connected && ecus[..last][i].address == a; }
          assert a in Recipients(ecus);
        }
      }
    }
  }

  /** In every reachable state a broadcast reaches every connected address exactly once, duplicates or not. */
  lemma BroadcastOnce(run: nat -> Call, n: nat)
    ensures var ecus := RouterAt(run, n).ecus;
            Distinct(Recipients(ecus)) && forall a :: a in Recipients(ecus) <==> ConnectedAddress(ecus, a)
  {
    TableInvariant(run, n);
    RecipientsDistinct(RouterAt(run, n).ecus);
  }

  // ---------------------------------------------------------------------------------------------
  // What is in the table, and who is connected
  // ---------------------------------------------------------------------------------------------

  /** The registrations among the first `n` calls. */
  function Registrations(run: nat -> Call, n: nat): seq<Call> {
    if n == 0 then []
    else if run(n - 1).DoRegister? then Registrations(run, n - 1) + [run(n - 1)]
    else Registrations(run, n - 1)
  }

  /** An entry is what was registered: the address, and the id cut to 31 characters. */
  predicate Holds(e: Entry, c: Call) {
    && c.DoRegister? && e.address == c.address
    && e.id == if |c.id| <= 31 then c.id else c.id[..31]
  }

  /** The table holds the first 32 registrations, in order, duplicates included. */
  lemma {:induction false} TableHoldsRegistrations(run: nat -> Call, n: nat)
    ensures var ecus, all := RouterAt(run, n).ecus, Registrations(run, n);
            && |ecus| == (if |all| <= 32 then |all| else 32)
            && forall k :: 0 <= k < |ecus| ==> Holds(ecus[k], all[k])
  {
    if n > 0 {
      TableHoldsRegistrations(run, n - 1);
      Advance(run, n - 1);
    }
  }

  /** The call says that the ECU with that address is there. */
  predicate Hears(c: Call, address: uint16) {
    (c.DoRouteToVmg? && c.source == address) || (c.DoUpdateActivity? && c.address == address)
  }

  /** Call `i` hears of an address that is registered by then. */
  ghost predicate HeardAt(run: nat -> Call, i: nat, address: uint16) {
    Hears(run(i), address) && !Unknown(RouterAt(run, i).ecus, address)
  }

  /** The tick of the last such call among the first `n`. */
  ghost function LastHeard(run: nat -> Call, n: nat, address: uint16): Option<uint32> {
    if n == 0 then None
    else if HeardAt(run, n - 1, address) then Some(run(n - 1).now)
    else LastHeard(run, n - 1, address)
  }

  /** The first entry with an address says when it was last heard of; no entry, and it never was. */
  ghost predicate Tells(ecus: seq<Entry>, address: uint16, heard: Option<uint32>) {
    && (Unknown(ecus, address) ==> heard == None)
    && forall k :: 0 <= k < |ecus| && FirstWith(ecus, address, k) ==>
         && (ecus[k].connected <==> heard.Some?)
         && ecus[k].lastActivity == if heard.Some? then heard.value else 0
  }

  lemma TellsStep(
      r: Router, c: Call, address: uint16, heard: Option<uint32>, next: seq<Entry>, after: Option<uint32>)
    requires Tells(r.ecus, address, heard) && next == Step(r, c).ecus
    requires after == if Hears(c, address) && !Unknown(r.ecus, address) then Some(c.now) else heard
    ensures Tells(next, address, after)
  {
    if c.DoRegister? {
      if |r.ecus| < MAX_ECUS { TellsAppended(r.ecus, Entry(Truncated(c.id), c.address, false, 0), address, heard); }
    } else if c.DoRouteToVmg? {
      TellsTouched(r.ecus, c.source, c.now, address, heard);
    } else if c.DoUpdateActivity? {
      TellsTouched(r.ecus, c.address, c.now, address, heard);
    }
  }

  lemma TellsAppended(ecus: seq<Entry>, e: Entry, address: uint16, heard: Option<uint32>)
    requires Tells(ecus, address, heard) && !e.connected && e.lastActivity == 0
    ensures Tells(ecus + [e], address, heard)
  {
    var after := ecus + [e];
    forall k | 0 <= k < |after| && FirstWith(after, address, k)
      ensures (after[k].connected <==> heard.Some?) && after[k].lastActivity == if heard.Some? then heard.value else 0
    {
      forall j | 0 <= j < k ensures ecus[j].address != address { assert after[j] == ecus[j]; }
      if k < |ecus| { assert FirstWith(ecus, address, k); } else { assert Unknown(ecus, address); }
    }
    if Unknown(after, address) {
      forall j | 0 <= j < |ecus| ensures ecus[j].address != address { assert after[j] == ecus[j]; }
    }
  }

  lemma TellsTouched(ecus: seq<Entry>, source: uint16, now: uint32, address: uint16, heard: Option<uint32>)
    requires Tells(ecus, address, heard)
    ensures Tells(Touched(ecus, source, now), address,
                  if source == address && !Unknown(ecus, address) then Some(now) else heard)
  {
    var i, after := Find(ecus, source), Touched(ecus, source, now);
    forall j | 0 <= j < |ecus| ensures after[j].address == ecus[j].address {}
    forall k | 0 <= k < |after| && FirstWith(after, address, k) ensures FirstWith(ecus, address, k) {}
  }

  lemma {:induction false} TableTells(run: nat -> Call, n: nat, address: uint16)
    ensures Tells(RouterAt(run, n).ecus, address, LastHeard(run, n, address))
  {
    if n > 0 {
      TableTells(run, n - 1, address);
      Advance(run, n - 1);
      TellsStep(RouterAt(run, n - 1), run(n - 1), address, LastHeard(run, n - 1, address),
                RouterAt(run, n).ecus, LastHeard(run, n, address));
    }
  }

  lemma {:induction false} HeardExactlyWhen(run: nat -> Call, n: nat, address: uint16)
    ensures LastHeard(run, n, address).Some? <==> exists i: nat :: i < n && HeardAt(run, i, address)
  {
    if n > 0 { HeardExactlyWhen(run, n - 1, address); }
  }

  /** In a table whose connected entries are first, an address is connected exactly if it has been heard of. */
  lemma ConnectedByTelling(ecus: seq<Entry>, address: uint16, heard: Option<uint32>)
    requires Tells(ecus, address, heard) && ConnectedAreFirst(ecus)
    ensures ConnectedAddress(ecus, address) <==> heard.Some?
  {
    if heard.Some? {
      var k := Find(ecus, address);
      assert FirstWith(ecus, address, k);
    }
    if i :| 0 <= i < |ecus| && ecus[i].connected && ecus[i].address == address {
      assert FirstWith(ecus, address, i);
    }
  }

  /**
   * Before call `n` an address is connected exactly if some earlier call routed a message from it, or updated its
   * activity, when it was already registered.
   */
  lemma ConnectedExactlyWhen(run: nat -> Call, n: nat, address: uint16)
    ensures ConnectedAddress(RouterAt(run, n).ecus, address) <==> exists i: nat :: i < n && HeardAt(run, i, address)
  {
    TableTells(run, n, address);
    TableInvariant(run, n);
    ConnectedByTelling(RouterAt(run, n).ecus, address, LastHeard(run, n, address));
    HeardExactlyWhen(run, n, address);
  }

  /** So a broadcast goes to exactly the registered addresses that have been heard of, none twice. */
  lemma BroadcastReachesExactly(run: nat -> Call, n: nat)
    ensures var to := Recipients(RouterAt(run, n).ecus);
            Distinct(to) && forall a: uint16 :: a in to <==> exists i: nat :: i < n && HeardAt(run, i, a)
  {
    BroadcastOnce(run, n);
    forall a: uint16
      ensures a in Recipients(RouterAt(run, n).ecus) <==> exists i: nat :: i < n && HeardAt(run, i, a)
    {
      ConnectedExactlyWhen(run, n, a);
    }
  }

  /** The entry of a connected address carries the tick of the last call that heard of it. */
  lemma ActivityIsLastHeard(run: nat -> Call, n: nat, address: uint16, i: nat, k: nat)
    requires i < n && HeardAt(run, i, address) && forall j: nat :: i < j < n ==> !Hears(run(j), address)
    requires k < |RouterAt(run, n).ecus| && FirstWith(RouterAt(run, n).ecus, address, k)
    ensures var e := RouterAt(run, n).ecus[k]; e.connected && e.lastActivity == run(i).now
  {
    TableTells(run, n, address);
    LastHeardIs(run, n, address, i);
  }

  lemma {:induction false} LastHeardIs(run: nat -> Call, n: nat, address: uint16, i: nat)
    requires i < n && HeardAt(run, i, address) && forall j: nat :: i < j < n ==> !Hears(run(j), address)
    ensures LastHeard(run, n, address) == Some(run(i).now)
  {
    if i < n - 1 { LastHeardIs(run, n - 1, address, i); }
  }

  // ---------------------------------------------------------------------------------------------
  // Counters
  // ---------------------------------------------------------------------------------------------

  /** What the first `n` calls add up to, when a call in a state counts `weight`. */
  ghost function Tally(run: nat -> Call, weight: (Router, Call) -> nat, n: nat): nat {
    if n == 0 then 0 else Tally(run, weight, n - 1) + weight(RouterAt(run, n - 1), run(n - 1))
  }

  function Asked(r: Router, c: Call): nat { if c.DoRouteToEcu? then 1 else 0 }

  ghost function Served(r: Router, c: Call): nat {
    if c.DoRouteToEcu? then (if Unknown(r.ecus, c.target) then 0 else 1) else DeliveredBy(r, c)
  }

  ghost function Missed(r: Router, c: Call): nat {
    if c.DoRouteToEcu? && Unknown(r.ecus, c.target) then 1 else 0
  }

  function Upward(r: Router, c: Call): nat { if c.DoRouteToVmg? then 1 else 0 }

  lemma AddMore(a: nat, k: nat, v: uint32)
    requires v == a % W32
    ensures Add32(v, k) == (a + k) % 0x1_0000_0000
  {
  }

  predicate Counts(r: Router, asked: nat, served: nat, missed: nat, upward: nat) {
    && r.totalRequests == asked % 0x1_0000_0000 && r.routedToEcu == served % 0x1_0000_0000
    && r.routingErrors == missed % 0x1_0000_0000 && r.routedToVmg == upward % 0x1_0000_0000
  }

  lemma CountStep(r: Router, c: Call, asked: nat, served: nat, missed: nat, upward: nat)
    requires Counts(r, asked, served, missed, upward) && NothingPending(r.pending)
    ensures Counts(Step(r, c), asked + Asked(r, c), served + Served(r, c), missed + Missed(r, c), upward + Upward(r, c))
  {
    AddMore(asked, Asked(r, c), r.totalRequests);
    AddMore(served, Served(r, c), r.routedToEcu);
    AddMore(missed, Missed(r, c), r.routingErrors);
    AddMore(upward, Upward(r, c), r.routedToVmg);
    if c.DoCheckTimeouts? { NoTimeouts(r.pending, c.now); }
  }

  /**
   * In every run each counter is what its name says, modulo 2^32: requests routed down; those for a registered address,
   * and broadcast deliveries; those for an unknown address; messages routed up.
   */
  lemma {:induction false} CountersExactly(run: nat -> Call, n: nat)
    ensures Counts(RouterAt(run, n), Tally(run, Asked, n), Tally(run, Served, n), Tally(run, Missed, n),
                   Tally(run, Upward, n))
  {
    if n > 0 {
      CountersExactly(run, n - 1);
      Advance(run, n - 1);
      TableInvariant(run, n - 1);
      CountStep(RouterAt(run, n - 1), run(n - 1), Tally(run, Asked, n - 1), Tally(run, Served, n - 1),
                Tally(run, Missed, n - 1), Tally(run, Upward, n - 1));
    }
  }

  /** The slots that are active and more than 5000 ms of ticks old. */
  predicate Overdue(s: Slot, now: uint32) { s.active && (now - s.timestamp) % 0x1_0000_0000 > 5000 }

  lemma OverdueTimesOut(s: Slot, now: uint32)
    ensures TimedOut(s, now) <==> Overdue(s, now)
  {
  }

  /** Exactly the overdue slots expire, and nothing else changes. */
  lemma OverdueExpire(pending: seq<Slot>, now: uint32, k: nat)
    requires k < |pending|
    ensures Expire(pending, now)[k]
         == if Overdue(pending[k], now) then Slot(false, pending[k].timestamp) else pending[k]
  {
    OverdueTimesOut(pending[k], now);
  }

  function OverdueSlots(pending: seq<Slot>, now: uint32): set<nat> {
    set k: nat | k < |pending| && Overdue(pending[k], now)
  }

  lemma OneSlotMore(pending: seq<Slot>, s: Slot, now: uint32)
    ensures var n := |pending|;
            OverdueSlots(pending + [s], now) == OverdueSlots(pending, now) + if Overdue(s, now) then {n} else {}
    ensures |pending| !in OverdueSlots(pending, now)
  {
  }

  /** Each of them is counted once. */
  lemma {:induction false} OverdueCounted(pending: seq<Slot>, now: uint32)
    ensures TimeoutCount(pending, now) == |OverdueSlots(pending, now)|
    decreases pending
  {
    if pending != [] {
      var n := |pending| - 1;
      OverdueCounted(pending[..n], now);
      OverdueTimesOut(pending[n], now);
      assert pending == pending[..n] + [pending[n]];
      OneSlotMore(pending[..n], pending[n], now);
    }
  }

  function DeliveredBy(r: Router, c: Call): nat { if c.DoBroadcast? then |Recipients(r.ecus)| else 0 }

  /** Messages delivered by broadcasts among the first `n` calls. */
  ghost function Deliveries(run: nat -> Call, n: nat): nat {
    if n == 0 then 0
    else Deliveries(run, n - 1) + DeliveredBy(RouterAt(run, n - 1), run(n - 1))
  }

  predicate Balanced(routed: uint32, errors: uint32, total: uint32, deliveries: nat) {
    (routed + errors) % W32 == (total + deliveries) % W32
  }

  predicate Accounted(r: Router, deliveries: nat) {
    Balanced(r.routedToEcu, r.routingErrors, r.totalRequests, deliveries)
  }

  lemma AccountStep(r: Router, c: Call, deliveries: nat, next: Router, after: nat)
    requires Accounted(r, deliveries) && NothingPending(r.pending)
    requires next == Step(r, c) && after == deliveries + DeliveredBy(r, c)
    ensures Accounted(next, after)
  {
    match c
    case DoRegister(_, _) =>
    case DoRouteToVmg(_, _) =>
    case DoUpdateActivity(_, _) =>
    case DoCheckTimeouts(now) =>
      NoTimeouts(r.pending, now);
      AddNothing(r.routingErrors);
    case DoRouteToEcu(_) =>
      SumsAgree(r.routedToEcu, r.routingErrors, r.totalRequests, deliveries, 1);
    case DoBroadcast =>
      SumsAgree(r.routedToEcu, r.routingErrors, r.totalRequests, deliveries, DeliveredBy(r, c));
  }

  lemma AddNothing(a: uint32)
    ensures Add32(a, 0) == a
  {
  }

  /** Every request is counted as routed or as an error, and nothing else is but broadcast deliveries (modulo 2^32). */
  lemma {:induction false} RequestsAreAccountedFor(run: nat -> Call, n: nat)
    ensures Accounted(RouterAt(run, n), Deliveries(run, n))
  {
    if n > 0 {
      RequestsAreAccountedFor(run, n - 1);
      Advance(run, n - 1);
      TableInvariant(run, n - 1);
      AccountStep(RouterAt(run, n - 1), run(n - 1), Deliveries(run, n - 1), RouterAt(run, n), Deliveries(run, n));
    }
  }

  lemma ShiftBoth(x: int, y: int, k: int)
    requires x % W32 == y % W32
    ensures (x + k) % W32 == (y + k) % W32
  {
  }

  lemma WrapInside(a: uint32, k: nat, b: int)
    ensures (Add32(a, k) + b) % W32 == (a + b + k) % W32
  {
  }

  lemma SumsAgree(routed: uint32, errors: uint32, total: uint32, deliveries: nat, k: nat)
    requires Balanced(routed, errors, total, deliveries)
    ensures Balanced(Add32(routed, k), errors, total, deliveries + k)
    ensures Balanced(Add32(routed, k), errors, Add32(total, k), deliveries)
    ensures Balanced(routed, Add32(errors, k), Add32(total, k), deliveries)
  {
    ShiftBoth(routed as int + errors as int, total as int + deliveries, k);
    WrapInside(routed, k, errors);
    WrapInside(errors, k, routed);
    WrapInside(total, k, deliveries);
  }
}
