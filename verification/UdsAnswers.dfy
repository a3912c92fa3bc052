/**
 * What the UDS server answers on the wire, request by request, and what each accepted request does: both ways, so that
 * nothing that should be served is refused. Services, codes and times are the numbers that travel.
 */
module UdsAnswers {
  import opened Words
  import opened Uds
  import opened UdsDownload

  predicate Answers(r: Reply, bytes: seq<uint8>) { r.response.Some? && r.response.value == bytes }

  predicate Refuses(r: Reply, sid: uint8, nrc: uint8) { Answers(r, [0x7F, sid, nrc]) }

  /**
   * The answer in a buffer of any size, from the one in a buffer of 20 bytes, which takes them all: the same if it
   * fits, otherwise a general reject, and nothing where not even that fits.
   */
  lemma AnswerInBuffer(key: uint32 -> uint32, d: Device, req: seq<uint8>, p: Platform, cap: nat)
    requires req != []
    ensures var full, r := Process(key, d, req, p, 20).response, Process(key, d, req, p, cap);
            && full.Some? && |full.value| <= 20
            && if |full.value| <= cap then Answers(r, full.value)
               else if cap >= 3 then Refuses(r, req[0], 0x10)
               else r.response == None
  {
    var o := Service(key, d, req, p);
    assert Process(key, d, req, p, cap) == Reply(o.dev, Respond(req[0], o.verdict, cap));
    assert Process(key, d, req, p, 20) == Reply(o.dev, Respond(req[0], o.verdict, 20));
    AnswersAreShort(key, d, req, p);
  }

  lemma AnswersAreShort(key: uint32 -> uint32, d: Device, req: seq<uint8>, p: Platform)
    requires req != []
    ensures var v := Service(key, d, req, p).verdict; v.Positive? ==> |v.data| <= 19
  {
  }

  // ---------------------------------------------------------------------------------------------
  // Security access
  // ---------------------------------------------------------------------------------------------

  /** Three attempts have failed, and less than ten seconds of ticks have passed since the last one. */
  predicate LockedOut(st: State, p: Platform) {
    st.attempts >= 3 && (p.arrival - st.lockoutTime) % 0x1_0000_0000 < 10000
  }

  lemma TickSince(now: nat, since: uint32)
    ensures Sub32(Tick(now), since) == (now - since) % 0x1_0000_0000
  {
  }

  /** Attempts are counted from zero again once a lockout is over. */
  function Attempts(st: State): uint8 { if st.attempts >= 3 then 0 else st.attempts }

  /** What security access comes down to once its length and the lockout have been looked at. */
  lemma Unfolded(key: uint32 -> uint32, d: Device, req: seq<uint8>, p: Platform, cap: nat)
    requires |req| >= 2 && req[0] == 0x27
    ensures var o := SecurityAccess(key, d, req, p);
            Process(key, d, req, p, cap) == Reply(o.dev, Respond(0x27, o.verdict, cap))
  {
  }

  /** A lockout refuses everything and changes nothing, and it is the only thing refused for it. */
  lemma LockoutJudged(key: uint32 -> uint32, d: Device, req: seq<uint8>, p: Platform, cap: nat)
    requires |req| >= 2 && req[0] == 0x27 && cap >= 6
    ensures var r := Process(key, d, req, p, cap);
            && (Refuses(r, 0x27, 0x37) <==> LockedOut(d.st, p))
            && (LockedOut(d.st, p) ==> r.dev == d)
  {
    Unfolded(key, d, req, p, cap);
    TickSince(p.arrival, d.st.lockoutTime);
  }

  /**
   * In true time: after a lockout stamped at `stamp`, requests are refused for ten seconds and served from then on,
   * until the tick comes round to the stamp again.
   */
  lemma LockoutEndsExactlyWhen(key: uint32 -> uint32, d: Device, req: seq<uint8>, p: Platform, cap: nat, stamp: nat)
    requires |req| >= 2 && req[0] == 0x27 && cap >= 6
    requires d.st.attempts >= 3 && d.st.lockoutTime == Tick(stamp) && stamp <= p.arrival
    ensures !Refuses(Process(key, d, req, p, cap), 0x27, 0x37) <==> (p.arrival - stamp) % 0x1_0000_0000 >= 10000
  {
    LockoutJudged(key, d, req, p, cap);
    TickSince(p.arrival, d.st.lockoutTime);
    TickDifference(stamp, p.arrival);
  }

  /** A locked server stores the fresh seed and sends that very seed; an unlocked one sends zeros. */
  lemma SeedJudged(key: uint32 -> uint32, d: Device, req: seq<uint8>, p: Platform, cap: nat)
    requires |req| >= 2 && req[..2] == [0x27, 1] && cap >= 6 && !LockedOut(d.st, p)
    ensures var r := Process(key, d, req, p, cap);
            && Answers(r, [0x67, 1] + Be32(if d.st.unlocked then 0 else p.seed))
            && r.dev == d.(st := d.st.(seed := if d.st.unlocked then d.st.seed else p.seed, attempts := Attempts(d.st)))
  {
    assert req[0] == req[..2][0] && req[1] == req[..2][1];
    Unfolded(key, d, req, p, cap);
    TickSince(p.arrival, d.st.lockoutTime);
  }

  /** A key is accepted if and only if it is the one computed for the stored seed; the third wrong one locks out. */
  lemma KeyJudged(key: uint32 -> uint32, d: Device, v: uint32, more: seq<uint8>, p: Platform, cap: nat)
    requires cap >= 6 && !LockedOut(d.st, p)
    ensures var r := Process(key, d, [0x27, 2] + Be32(v) + more, p, cap);
            if v == key(d.st.seed) then
              Answers(r, [0x67, 2]) && r.dev == d.(st := d.st.(unlocked := true, attempts := 0))
            else if Attempts(d.st) < 2 then
              Refuses(r, 0x27, 0x35) && r.dev == d.(st := d.st.(attempts := Attempts(d.st) + 1))
            else
              Refuses(r, 0x27, 0x36) && r.dev == d.(st := d.st.(attempts := 3, lockoutTime := Tick(p.stamp)))
  {
    var req := [0x27, 2] + Be32(v) + more;
    assert req[2..6] == Be32(v);
    BigEndianOfBytes(v);
    Unfolded(key, d, req, p, cap);
    TickSince(p.arrival, d.st.lockoutTime);
  }

  /** What else security access refuses: short keys and unknown levels. */
  lemma OddAccessJudged(key: uint32 -> uint32, d: Device, req: seq<uint8>, p: Platform, cap: nat)
    requires |req| >= 2 && req[0] == 0x27 && cap >= 6 && !LockedOut(d.st, p)
    requires req[1] !in {1, 2} || (req[1] == 2 && |req| < 6)
    ensures var r := Process(key, d, req, p, cap);
            && Refuses(r, 0x27, if req[1] == 2 then 0x13 else 0x12)
            && r.dev == d.(st := d.st.(attempts := Attempts(d.st)))
  {
    Unfolded(key, d, req, p, cap);
    TickSince(p.arrival, d.st.lockoutTime);
  }

  // ---------------------------------------------------------------------------------------------
  // The other services
  // ---------------------------------------------------------------------------------------------

  /** The fewest bytes a request of each service has; shorter ones are refused for their length and do nothing. */
  function LeastLength(sid: uint8): nat {
    if sid in {0x2E, 0x34} then 4
    else if sid == 0x22 then 3
    else if sid in {0x10, 0x11, 0x27, 0x3E, 0x36} then 2
    else 1
  }

  lemma ShortJudged(key: uint32 -> uint32, d: Device, req: seq<uint8>, p: Platform, cap: nat)
    requires req != [] && |req| < LeastLength(req[0]) && cap >= 3
    ensures var r := Process(key, d, req, p, cap); Refuses(r, req[0], 0x13) && r.dev == d
  {
  }

  lemma UnknownJudged(key: uint32 -> uint32, d: Device, req: seq<uint8>, p: Platform, cap: nat)
    requires req != [] && cap >= 3
    requires req[0] !in {0x10, 0x11, 0x22, 0x27, 0x2E, 0x34, 0x36, 0x37, 0x3E}
    ensures var r := Process(key, d, req, p, cap); Refuses(r, req[0], 0x11) && r.dev == d
  {
  }

  /** The three sessions; the default and the programming one lock the server, the extended one leaves the lock. */
  lemma SessionJudged(key: uint32 -> uint32, d: Device, req: seq<uint8>, p: Platform, cap: nat)
    requires |req| >= 2 && req[0] == 0x10 && cap >= 3
    ensures var r := Process(key, d, req, p, cap);
            if 1 <= req[1] <= 3 then
              && Answers(r, [0x50, req[1]])
              && r.dev.st.session == [Default, Programming, Extended][req[1] - 1]
              && (r.dev.st.unlocked <==> d.st.unlocked && req[1] == 3)
              && r.dev == d.(st := d.st.(session := r.dev.st.session, unlocked := r.dev.st.unlocked))
            else Refuses(r, 0x10, 0x12) && r.dev == d
  {
  }

  lemma ResetJudged(key: uint32 -> uint32, d: Device, req: seq<uint8>, p: Platform, cap: nat)
    requires |req| >= 2 && req[0] == 0x11 && cap >= 3
    ensures var r := Process(key, d, req, p, cap);
            r.dev == d && if 1 <= req[1] <= 3 then Answers(r, [0x51, req[1]]) else Refuses(r, 0x11, 0x12)
  {
  }

  lemma TesterPresentJudged(key: uint32 -> uint32, d: Device, req: seq<uint8>, p: Platform, cap: nat)
    requires |req| >= 2 && req[0] == 0x3E && cap >= 2
    ensures var r := Process(key, d, req, p, cap); r.dev == d && Answers(r, [0x7E, req[1]])
  {
  }

  function Ascii(s: string): seq<uint8>
    requires forall i :: 0 <= i < |s| ==> s[i] as int < 256
  {
    seq(|s|, i requires 0 <= i < |s| => s[i] as int)
  }

  /** The VIN, and nothing else, can be read. */
  lemma ReadJudged(key: uint32 -> uint32, d: Device, req: seq<uint8>, p: Platform, cap: nat)
    requires |req| >= 3 && req[0] == 0x22 && cap >= 20
    ensures var r := Process(key, d, req, p, cap);
            && r.dev == d
            && if req[1..3] == [0xF1, 0x90] then Answers(r, [0x62, 0xF1, 0x90] + Ascii("WBADT43452G296403"))
               else Refuses(r, 0x22, 0x31)
  {
    assert Ascii("WBADT43452G296403") == VIN;
    assert req[1..3] == [req[1], req[2]];
  }

  /** Writing is accepted if and only if the server is unlocked. */
  lemma WriteJudged(key: uint32 -> uint32, d: Device, req: seq<uint8>, p: Platform, cap: nat)
    requires |req| >= 4 && req[0] == 0x2E && cap >= 3
    ensures var r := Process(key, d, req, p, cap);
            r.dev == d && if d.st.unlocked then Answers(r, [0x6E, req[1], req[2]]) else Refuses(r, 0x2E, 0x33)
  {
  }

  // ---------------------------------------------------------------------------------------------
  // Download
  // ---------------------------------------------------------------------------------------------

  /** A download is accepted if and only if the server is programming and unlocked and the request long enough. */
  lemma DownloadJudged(key: uint32 -> uint32, d: Device, req: seq<uint8>, p: Platform, cap: nat)
    requires |req| >= 4 && req[0] == 0x34 && cap >= 4
    ensures var r := Process(key, d, req, p, cap);
            var a, n := req[2] / 16, req[2] % 16;
            if d.st.session != Programming then Refuses(r, 0x34, 0x22) && r.dev == d
            else if !d.st.unlocked then Refuses(r, 0x34, 0x33) && r.dev == d
            else if |req| < 3 + a + n then Refuses(r, 0x34, 0x13) && r.dev == d
            else
              && Answers(r, [0x74, 0x20, 0x04, 0x00])
              && r.dev == d.(st := d.st.(active := true, counter := 1, received := 0,
                                         address := BigEndian(req[3..3 + a]), size := BigEndian(req[3 + a..3 + a + n])))
  {
    var o := RequestDownload(d, req);
    assert Process(key, d, req, p, cap) == Reply(o.dev, Respond(0x34, o.verdict, cap));
  }

  /** A block is accepted if and only if a transfer is open, its number is the next one and flash takes it. */
  lemma BlockJudged(key: uint32 -> uint32, d: Device, req: seq<uint8>, p: Platform, cap: nat)
    requires |req| >= 2 && req[0] == 0x36 && cap >= 3
    ensures var r := Process(key, d, req, p, cap);
            if !d.st.active then Refuses(r, 0x36, 0x24) && r.dev == d
            else if req[1] != d.st.counter then Refuses(r, 0x36, 0x73) && r.dev == d
            else if !p.writeOk then Refuses(r, 0x36, 0x72) && r.dev.st == d.st
            else
              && Answers(r, [0x76, req[1]])
              && r.dev.st == d.st.(received := (d.st.received + |req| - 2) % 0x1_0000_0000,
                                   counter := if d.st.counter == 255 then 1 else d.st.counter + 1)
  {
    var o := TransferData(d, req, p);
    assert Process(key, d, req, p, cap) == Reply(o.dev, Respond(0x36, o.verdict, cap));
  }

  /** What a block does to flash: it is written behind what was received, or what flash leaves of it if that fails. */
  lemma BlockWrites(key: uint32 -> uint32, d: Device, req: seq<uint8>, p: Platform, cap: nat, k: uint32)
    requires |req| >= 2 && req[0] == 0x36 && d.st.active && req[1] == d.st.counter && |p.torn| <= |req| - 2
    ensures var written := if p.writeOk then req[2..] else p.torn;
            var place := (k - (d.st.address + d.st.received) % 0x1_0000_0000) % 0x1_0000_0000;
            Process(key, d, req, p, cap).dev.flash(k) == if place < |written| then written[place] else d.flash(k)
  {
    var o := TransferData(d, req, p);
    assert Process(key, d, req, p, cap) == Reply(o.dev, Respond(0x36, o.verdict, cap));
    var at := (d.st.address + d.st.received) % 0x1_0000_0000;
    Difference(k, at);
    assert o.dev.flash == Write(d.flash, at, if p.writeOk then req[2..] else p.torn);
  }

  lemma Difference(a: uint32, b: uint32)
    ensures Sub32(a, b) == (a - b) % 0x1_0000_0000
  {
  }

  /** The exit is accepted if and only if a transfer is open and as much has arrived as was announced. */
  lemma ExitJudged(key: uint32 -> uint32, d: Device, req: seq<uint8>, p: Platform, cap: nat)
    requires req != [] && req[0] == 0x37 && cap >= 3
    ensures var r := Process(key, d, req, p, cap);
            if !d.st.active then Refuses(r, 0x37, 0x24) && r.dev == d
            else if d.st.received != d.st.size then Refuses(r, 0x37, 0x72) && r.dev == d
            else Answers(r, [0x77]) && r.dev == d.(st := d.st.(active := false))
  {
    var o := TransferExit(d);
    assert Process(key, d, req, p, cap) == Reply(o.dev, Respond(0x37, o.verdict, cap));
  }
}
