/** Firmware download over every run of requests: what arrives in flash, and which senders get it there. */
module UdsDownload {
  import opened Words
  import opened Uds
  import opened UdsRuns

  // ---------------------------------------------------------------------------------------------
  // The download as the tester sees it on the wire
  // ---------------------------------------------------------------------------------------------

  /** `reach` is the furthest offset that any block of this download, accepted or failed to program, extends to. */
  datatype Transfer = Transfer(open: bool, address: uint32, size: uint32, blocks: seq<seq<uint8>>, reach: nat)

  const CLOSED := Transfer(false, 0, 0, [], 0)

  function Concat(blocks: seq<seq<uint8>>): seq<uint8>
    decreases blocks
  {
    if blocks == [] then [] else Concat(blocks[..|blocks| - 1]) + blocks[|blocks| - 1]
  }

  function Max(a: nat, b: nat): nat { if a < b then b else a }

  /** Follows the download from requests and responses alone. */
  function Observe(t: Transfer, e: Event, r: Reply): Transfer {
    if Accepts(r, SID_REQUEST_DOWNLOAD) && DownloadWellFormed(e.req) then
      Transfer(true, DownloadAddress(e.req), DownloadSize(e.req), [], 0)
    else if Accepts(r, SID_TRANSFER_DATA) && |e.req| >= 2 then
      t.(blocks := t.blocks + [e.req[2..]], reach := Max(t.reach, |Concat(t.blocks)| + |e.req| - 2))
    else if Accepts(r, SID_TRANSFER_EXIT) then t.(open := false)
    else if r.response == Some([NEGATIVE, SID_TRANSFER_DATA, NRC_PROGRAMMING_FAILURE]) && |e.req| >= 2 then
      t.(reach := Max(t.reach, |Concat(t.blocks)| + |e.req| - 2))
    else t
  }

  ghost function TransferAt(serve: Serve, run: nat -> Event, d: Device, n: nat): Transfer {
    if n == 0 then CLOSED else Observe(TransferAt(serve, run, d, n - 1), run(n - 1), ReplyAt(serve, run, d, n - 1))
  }

  // ---------------------------------------------------------------------------------------------
  // Flash contents
  // ---------------------------------------------------------------------------------------------

  ghost predicate Holds(flash: Flash, at: uint32, image: seq<uint8>) {
    forall i :: 0 <= i < |image| ==> flash(Add32(at, i)) == image[i]
  }

  lemma Distance(at: uint32, i: nat, j: nat)
    requires i < W32 && j < W32
    ensures Sub32(Add32(at, i), Add32(at, j)) == if i >= j then i - j else i - j + W32
  {
  }

  /** A block written right after an image extends it, provided that all of it fits below 2^32. */
  lemma WriteExtends(flash: Flash, at: uint32, image: seq<uint8>, block: seq<uint8>)
    requires |image| + |block| <= W32 && Holds(flash, at, image)
    ensures Holds(Write(flash, Add32(at, |image| % W32), block), at, image + block)
  {
    var written := Write(flash, Add32(at, |image| % W32), block);
    forall i | 0 <= i < |image + block| ensures written(Add32(at, i)) == (image + block)[i] {
      if |image| < W32 { Distance(at, i, |image|); }
    }
  }

  lemma HoldsPrefix(flash: Flash, at: uint32, image: seq<uint8>, more: seq<uint8>)
    requires Holds(flash, at, image + more)
    ensures Holds(flash, at, image)
  {
    forall i | 0 <= i < |image| ensures flash(Add32(at, i)) == image[i] {
      assert (image + more)[i] == image[i];
    }
  }

  // ---------------------------------------------------------------------------------------------
  // Reassembly
  // ---------------------------------------------------------------------------------------------

  ghost predicate Tracks(d: Device, t: Transfer) {
    && d.st.active == t.open
    && (t.open ==>
         && d.st.address == t.address && d.st.size == t.size
         && d.st.counter == 1 + |t.blocks| % 255
         && d.st.received == |Concat(t.blocks)| % W32
         && |Concat(t.blocks)| <= t.reach
         && (t.reach <= W32 ==> Holds(d.flash, t.address, Concat(t.blocks))))
  }

  lemma CounterAdvances(n: nat)
    ensures NextCounter(1 + n % 255) == 1 + (n + 1) % 255
  {
  }

  lemma ConcatAppend(blocks: seq<seq<uint8>>, b: seq<uint8>)
    ensures Concat(blocks + [b]) == Concat(blocks) + b
  {
    assert (blocks + [b])[..|blocks|] == blocks;
  }

  lemma ReceivedAdvances(n: nat, m: nat)
    ensures Add32(n % W32, m) == (n + m) % W32
  {
    Multiple(n % W32 + m, n / W32);
    assert n == n / W32 * W32 + n % W32;
  }

  lemma Multiple(x: int, q: int)
    ensures (x + q * W32) % W32 == x % W32
  {
  }

  lemma AcceptedBlock(d: Device, t: Transfer, e: Event)
    requires Tracks(d, t) && AttemptsWrite(d.st, e.req) && e.platform.writeOk
    ensures var o := TransferData(d, e.req, e.platform);
            Tracks(o.dev, t.(blocks := t.blocks + [e.req[2..]],
                             reach := Max(t.reach, |Concat(t.blocks)| + |e.req| - 2)))
  {
    ConcatAppend(t.blocks, e.req[2..]);
    CounterAdvances(|t.blocks|);
    ReceivedAdvances(|Concat(t.blocks)|, |e.req| - 2);
    if Max(t.reach, |Concat(t.blocks)| + |e.req| - 2) <= W32 {
      WriteExtends(d.flash, t.address, Concat(t.blocks), e.req[2..]);
    }
  }

  lemma FailedBlock(d: Device, t: Transfer, e: Event)
    requires Tracks(d, t) && AttemptsWrite(d.st, e.req) && !e.platform.writeOk
    ensures var o := TransferData(d, e.req, e.platform);
            Tracks(o.dev, t.(reach := Max(t.reach, |Concat(t.blocks)| + |e.req| - 2)))
  {
    var image, torn := Concat(t.blocks), Torn(e.platform, e.req[2..]);
    if Max(t.reach, |image| + |e.req| - 2) <= W32 {
      WriteExtends(d.flash, t.address, image, torn);
      HoldsPrefix(Write(d.flash, Add32(t.address, |image| % W32), torn), t.address, image, torn);
    }
  }

  lemma TracksQuiet(key: uint32 -> uint32, d: Device, t: Transfer, e: Event)
    requires Tracks(d, t) && e.cap >= 6
    requires e.req == [] || e.req[0] !in {SID_REQUEST_DOWNLOAD, SID_TRANSFER_DATA, SID_TRANSFER_EXIT}
    ensures var r := Server(key)(d, e); Tracks(r.dev, Observe(t, e, r))
  {
    var r := Server(key)(d, e);
    assert !Accepts(r, SID_REQUEST_DOWNLOAD) && !Accepts(r, SID_TRANSFER_DATA) && !Accepts(r, SID_TRANSFER_EXIT);
    assert Observe(t, e, r) == t;
    assert r.dev.flash == d.flash;
  }

  lemma TracksTransfer(key: uint32 -> uint32, d: Device, t: Transfer, e: Event)
    requires Tracks(d, t) && e.cap >= 6 && e.req != [] && e.req[0] == SID_TRANSFER_DATA
    ensures var r := Server(key)(d, e); Tracks(r.dev, Observe(t, e, r))
  {
    var o := TransferData(d, e.req, e.platform);
    assert Server(key)(d, e) == Reply(o.dev, Respond(SID_TRANSFER_DATA, o.verdict, e.cap));
    if AttemptsWrite(d.st, e.req) {
      if e.platform.writeOk { AcceptedBlock(d, t, e); } else { FailedBlock(d, t, e); }
    }
  }

  lemma TracksStartAndExit(key: uint32 -> uint32, d: Device, t: Transfer, e: Event)
    requires Tracks(d, t) && e.cap >= 6 && e.req != [] && e.req[0] in {SID_REQUEST_DOWNLOAD, SID_TRANSFER_EXIT}
    ensures var r := Server(key)(d, e); Tracks(r.dev, Observe(t, e, r))
  {
    var o := if e.req[0] == SID_TRANSFER_EXIT then TransferExit(d) else RequestDownload(d, e.req);
    assert Server(key)(d, e) == Reply(o.dev, Respond(e.req[0], o.verdict, e.cap));
  }

  lemma TracksStep(key: uint32 -> uint32, d: Device, t: Transfer, e: Event)
    requires Tracks(d, t) && e.cap >= 6
    ensures var r := Server(key)(d, e); Tracks(r.dev, Observe(t, e, r))
  {
    if e.req == [] || e.req[0] !in {SID_REQUEST_DOWNLOAD, SID_TRANSFER_DATA, SID_TRANSFER_EXIT} {
      TracksQuiet(key, d, t, e);
    } else if e.req[0] == SID_TRANSFER_DATA {
      TracksTransfer(key, d, t, e);
    } else {
      TracksStartAndExit(key, d, t, e);
    }
  }

  predicate ExitRule(d: Device, r: Reply) {
    Accepts(r, SID_TRANSFER_EXIT) ==> d.st.active && d.st.received == d.st.size
  }

  lemma ExitStep(key: uint32 -> uint32, d: Device, e: Event)
    requires e.cap >= 6
    ensures var r := Server(key)(d, e); ExitRule(d, r) && (Accepts(r, SID_TRANSFER_EXIT) ==> r.dev.flash == d.flash)
  {
  }

  /** What holds of the device and the observed download initially, and is kept by every request, holds throughout. */
  lemma {:induction false} Along(serve: Serve, inv: (Device, Transfer) -> bool, run: nat -> Event, d: Device, n: nat)
    requires Roomy(run) && inv(d, CLOSED)
    requires forall d, t, e :: KeptBy(serve, inv, d, t, e)
    ensures inv(DeviceAt(serve, run, d, n), TransferAt(serve, run, d, n))
  {
    if n > 0 {
      Along(serve, inv, run, d, n - 1);
      Advance(serve, run, d, n - 1);
      assert KeptBy(serve, inv, DeviceAt(serve, run, d, n - 1), TransferAt(serve, run, d, n - 1), run(n - 1));
    }
  }

  predicate KeptBy(serve: Serve, inv: (Device, Transfer) -> bool, d: Device, t: Transfer, e: Event) {
    e.cap >= 6 && inv(d, t) ==> inv(serve(d, e).dev, Observe(t, e, serve(d, e)))
  }

  lemma TracksAlways(key: uint32 -> uint32, run: nat -> Event, flash: Flash, n: nat)
    requires Roomy(run)
    ensures var d := Device(INITIAL, flash);
            Tracks(DeviceAt(Server(key), run, d, n), TransferAt(Server(key), run, d, n))
  {
    var inv := (d: Device, t: Transfer) => Tracks(d, t);
    forall d: Device, t: Transfer, e: Event ensures KeptBy(Server(key), inv, d, t, e) {
      if e.cap >= 6 && Tracks(d, t) { TracksStep(key, d, t, e); }
    }
    Along(Server(key), inv, run, Device(INITIAL, flash), n);
  }

  /** What a download that ends is known to be. */
  ghost predicate Complete(st: State, flash: Flash, t: Transfer) {
    var image := Concat(t.blocks);
    && st.counter == 1 + |t.blocks| % 255
    && |image| % W32 == t.size
    && (|image| == t.size <==> |image| < W32)
    && (t.reach <= W32 ==> Holds(flash, t.address, image))
  }

  lemma TrackedExit(d: Device, t: Transfer, r: Reply)
    requires Tracks(d, t) && ExitRule(d, r) && Accepts(r, SID_TRANSFER_EXIT)
    ensures Complete(d.st, d.flash, t)
  {
  }

  lemma ReassemblyOf(key: uint32 -> uint32, run: nat -> Event, flash: Flash, n: nat)
    requires Roomy(run)
    requires Accepts(ReplyAt(Server(key), run, Device(INITIAL, flash), n), SID_TRANSFER_EXIT)
    ensures var d := DeviceAt(Server(key), run, Device(INITIAL, flash), n);
            Complete(d.st, d.flash, TransferAt(Server(key), run, Device(INITIAL, flash), n))
  {
    var d := Device(INITIAL, flash);
    TracksAlways(key, run, flash, n);
    ExitStep(key, DeviceAt(Server(key), run, d, n), run(n));
    TrackedExit(DeviceAt(Server(key), run, d, n), TransferAt(Server(key), run, d, n), ReplyAt(Server(key), run, d, n));
  }

  /** A positive answer to a transfer exit stays positive in a longer buffer. */
  lemma ExitAnsweredInLonger(key: uint32 -> uint32, d: Device, e: Event, cap: nat)
    requires e.cap <= cap && Accepts(Server(key)(d, e), SID_TRANSFER_EXIT)
    ensures Accepts(Server(key)(d, e.(cap := cap)), SID_TRANSFER_EXIT)
  {
  }

  /**
   * Reassembly. In every run from power-up, with rejected requests and failed writes anywhere: when the transfer exit
   * at step `n` is answered positively, the accepted blocks number one less than the block counter modulo 255 and their
   * total length is the announced size modulo 2^32. It is the announced size exactly when it is below 2^32; and as long
   * as no block reached past 2^32, flash holds the accepted blocks, concatenated in order, from the announced address.
   */
  lemma Reassembly(key: uint32 -> uint32, run: nat -> Event, flash: Flash, n: nat)
    requires Accepts(ReplyAt(Server(key), run, Device(INITIAL, flash), n), SID_TRANSFER_EXIT)
    ensures var d := DeviceAt(Server(key), run, Device(INITIAL, flash), n);
            Complete(d.st, d.flash, TransferAt(Server(key), Ample(run), Device(INITIAL, flash), n))
  {
    var serve, d := Server(key), Device(INITIAL, flash);
    ServerIsCapacityBlind(key);
    AmpleIsRoomy(run);
    CapacityAffectsAnswersOnly(serve, run, d, n);
    ExitAnsweredInLonger(key, DeviceAt(serve, run, d, n), run(n), Ample(run)(n).cap);
    ReassemblyOf(key, Ample(run), flash, n);
  }

  // ---------------------------------------------------------------------------------------------
  // A correct sender succeeds
  // ---------------------------------------------------------------------------------------------

  /** The number the server expects on block `k`, counting from 0: 1..255 and then from 1 again. */
  function ServerNumber(k: nat): uint8 { 1 + k % 255 }

  /** The number ISO 14229-1:2013 puts on block `k`: 255 is followed by 0. */
  function IsoNumber(k: nat): uint8 { (k + 1) % 256 }

  function BlockRequest(number: uint8, block: seq<uint8>): seq<uint8> {
    [SID_TRANSFER_DATA, number] + block
  }

  /** A request that neither starts nor ends a download nor delivers a block of one, whatever else it does. */
  predicate Bystands(r: Reply) {
    !Accepts(r, SID_REQUEST_DOWNLOAD) && !Accepts(r, SID_TRANSFER_DATA) && !Accepts(r, SID_TRANSFER_EXIT)
  }

  /**
   * The sender's requests are the events at positions `pos`: a download, the blocks in order with the numbers given,
   * the exit. Every block write succeeds, and whatever else arrives in between does not touch the transfer.
   */
  ghost predicate Conducts(
      serve: Serve, run: nat -> Event, d: Device,
      number: nat -> uint8, blocks: seq<seq<uint8>>, pos: seq<nat>) {
    && |pos| == |blocks| + 2
    && (forall k :: 0 <= k <= |blocks| ==> pos[k] < pos[k + 1])
    && (forall k, i: nat :: 0 <= k <= |blocks| && pos[k] < i < pos[k + 1] ==> Bystands(ReplyAt(serve, run, d, i)))
    && (forall k :: 0 <= k < |blocks| ==> Sends(run(pos[k + 1]), number(k), blocks[k]))
    && run(pos[|blocks| + 1]).req == [SID_TRANSFER_EXIT]
  }

  predicate Sends(e: Event, number: uint8, block: seq<uint8>) {
    e.req == BlockRequest(number, block) && e.platform.writeOk
  }

  /** The download request at position `at` announces the image and arrives in the unlocked programming session. */
  ghost predicate Prepared(
      serve: Serve, run: nat -> Event, d: Device, at: nat, blocks: seq<seq<uint8>>) {
    var st, req := DeviceAt(serve, run, d, at).st, run(at).req;
    && st.session == Programming && st.unlocked
    && req != [] && req[0] == SID_REQUEST_DOWNLOAD && DownloadWellFormed(req) && DownloadSize(req) == |Concat(blocks)|
  }

  /** The first `n` blocks are accepted. */
  ghost predicate Accepted(serve: Serve, run: nat -> Event, d: Device, pos: seq<nat>, n: nat)
    requires n < |pos|
  {
    forall k :: 1 <= k <= n ==> Accepts(ReplyAt(serve, run, d, pos[k]), SID_TRANSFER_DATA)
  }

  /** Download, blocks and exit are all accepted. */
  ghost predicate Delivered(serve: Serve, run: nat -> Event, d: Device, pos: seq<nat>, n: nat)
    requires |pos| == n + 2
  {
    && Accepts(ReplyAt(serve, run, d, pos[0]), SID_REQUEST_DOWNLOAD)
    && Accepted(serve, run, d, pos, n)
    && Accepts(ReplyAt(serve, run, d, pos[n + 1]), SID_TRANSFER_EXIT)
  }

  predicate SameTransfer(s: State, t: State) {
    && s.active == t.active && s.counter == t.counter
    && s.address == t.address && s.size == t.size && s.received == t.received
  }

  ghost predicate KeepsTransfers(serve: Serve) {
    forall d: Device, e: Event :: e.cap >= 6 && Bystands(serve(d, e)) ==> SameTransfer(d.st, serve(d, e).dev.st)
  }

  lemma ServerKeepsTransfers(key: uint32 -> uint32)
    ensures KeepsTransfers(Server(key))
  {
    forall d: Device, e: Event | e.cap >= 6 && Bystands(Server(key)(d, e))
      ensures SameTransfer(d.st, Server(key)(d, e).dev.st)
    {
      BystanderKeepsTransfer(key, d, e);
    }
  }

  lemma BystanderKeepsTransfer(key: uint32 -> uint32, d: Device, e: Event)
    requires e.cap >= 6 && Bystands(Server(key)(d, e))
    ensures SameTransfer(d.st, Server(key)(d, e).dev.st)
  {
    if e.req != [] {
      var o := Service(key, d, e.req, e.platform);
      assert Server(key)(d, e) == Reply(o.dev, Respond(e.req[0], o.verdict, e.cap));
      OnlyDownloadServicesTransfer(key, d, e.req, e.platform);
    }
  }

  lemma OnlyDownloadServicesTransfer(key: uint32 -> uint32, d: Device, req: seq<uint8>, p: Platform)
    requires req != []
    ensures var o := Service(key, d, req, p);
            || SameTransfer(d.st, o.dev.st)
            || (o.verdict.Positive? && |o.verdict.data| <= 3
                && req[0] in {SID_REQUEST_DOWNLOAD, SID_TRANSFER_DATA, SID_TRANSFER_EXIT})
  {
  }

  /** While only bystanders arrive, neither the transfer nor the accepted blocks change. */
  lemma {:induction false} Quiet(serve: Serve, run: nat -> Event, d: Device, i: nat, j: nat)
    requires KeepsTransfers(serve) && Roomy(run) && i <= j
    requires forall m: nat :: i <= m < j ==> Bystands(ReplyAt(serve, run, d, m))
    ensures SameTransfer(DeviceAt(serve, run, d, i).st, DeviceAt(serve, run, d, j).st)
    ensures var s, t := TransferAt(serve, run, d, i), TransferAt(serve, run, d, j); t.(reach := s.reach) == s
    decreases j
  {
    if i < j {
      Quiet(serve, run, d, i, j - 1);
      Advance(serve, run, d, j - 1);
    }
  }

  /** The state after the sender's first `k` blocks. */
  predicate Progress(st: State, t: Transfer, blocks: seq<seq<uint8>>, k: nat)
    requires k <= |blocks|
  {
    && st.active && st.counter == ServerNumber(k)
    && st.received == |Concat(blocks[..k])| % W32 && st.size == |Concat(blocks)| % W32
    && t.blocks == blocks[..k]
  }

  lemma DownloadStarts(key: uint32 -> uint32, d: Device, t: Transfer, e: Event, blocks: seq<seq<uint8>>)
    requires e.cap >= 6 && e.req != [] && e.req[0] == SID_REQUEST_DOWNLOAD && DownloadWellFormed(e.req)
    requires d.st.session == Programming && d.st.unlocked && DownloadSize(e.req) == |Concat(blocks)|
    ensures var r := Server(key)(d, e); var u := Observe(t, e, r);
            && Accepts(r, SID_REQUEST_DOWNLOAD) && Progress(r.dev.st, u, blocks, 0)
            && u.address == DownloadAddress(e.req)
  {
    var o := RequestDownload(d, e.req);
    assert Server(key)(d, e) == Reply(o.dev, Respond(SID_REQUEST_DOWNLOAD, o.verdict, e.cap));
  }

  lemma BlockArrives(key: uint32 -> uint32, d: Device, t: Transfer, e: Event, blocks: seq<seq<uint8>>, k: nat)
    requires k < |blocks| && Progress(d.st, t, blocks, k)
    requires e.cap >= 6 && Sends(e, ServerNumber(k), blocks[k])
    ensures var r := Server(key)(d, e); var u := Observe(t, e, r);
            Accepts(r, SID_TRANSFER_DATA) && Progress(r.dev.st, u, blocks, k + 1) && u.address == t.address
  {
    var r := Server(key)(d, e);
    var o := TransferData(d, e.req, e.platform);
    assert r == Reply(o.dev, Respond(SID_TRANSFER_DATA, o.verdict, e.cap));
    assert e.req[2..] == blocks[k];
    assert blocks[..k + 1] == blocks[..k] + [blocks[k]];
    ConcatAppend(blocks[..k], blocks[k]);
    CounterAdvances(k);
    ReceivedAdvances(|Concat(blocks[..k])|, |blocks[k]|);
  }

  /** Any other number is refused. */
  lemma WrongNumberRefused(
      key: uint32 -> uint32, d: Device, t: Transfer, e: Event, blocks: seq<seq<uint8>>, k: nat, number: uint8)
    requires k < |blocks| && Progress(d.st, t, blocks, k)
    requires e.cap >= 6 && Sends(e, number, blocks[k]) && number != ServerNumber(k)
    ensures Server(key)(d, e).response == Some([NEGATIVE, SID_TRANSFER_DATA, NRC_WRONG_BLOCK])
  {
    var o := TransferData(d, e.req, e.platform);
    assert Server(key)(d, e) == Reply(o.dev, Respond(SID_TRANSFER_DATA, o.verdict, e.cap));
  }

  lemma ExitSucceeds(key: uint32 -> uint32, d: Device, t: Transfer, e: Event, blocks: seq<seq<uint8>>)
    requires Progress(d.st, t, blocks, |blocks|) && e.cap >= 6 && e.req == [SID_TRANSFER_EXIT]
    ensures Accepts(Server(key)(d, e), SID_TRANSFER_EXIT)
  {
    assert blocks[..|blocks|] == blocks;
  }

  predicate TakesBlock(serve: Serve, blocks: seq<seq<uint8>>, d: Device, t: Transfer, e: Event, k: nat)
    requires k < |blocks|
  {
    var r := serve(d, e);
    var u := Observe(t, e, r);
    Progress(d.st, t, blocks, k) && e.cap >= 6 && Sends(e, ServerNumber(k), blocks[k]) ==>
      Accepts(r, SID_TRANSFER_DATA) && Progress(r.dev.st, u, blocks, k + 1) && u.address == t.address
  }

  lemma ServerTakesBlocks(key: uint32 -> uint32, blocks: seq<seq<uint8>>)
    ensures forall d, t, e, k :: 0 <= k < |blocks| ==> TakesBlock(Server(key), blocks, d, t, e, k)
  {
    forall d, t, e, k | 0 <= k < |blocks| ensures TakesBlock(Server(key), blocks, d, t, e, k) {
      if Progress(d.st, t, blocks, k) && e.cap >= 6 && Sends(e, ServerNumber(k), blocks[k]) {
        BlockArrives(key, d, t, e, blocks, k);
      }
    }
  }

  /** Before request `at`, the server has taken the first `k` blocks of the download to `address`. */
  ghost predicate Taken(
      serve: Serve, run: nat -> Event, d: Device, blocks: seq<seq<uint8>>, at: nat, address: uint32, k: nat) {
    && k <= |blocks|
    && Progress(DeviceAt(serve, run, d, at).st, TransferAt(serve, run, d, at), blocks, k)
    && TransferAt(serve, run, d, at).address == address
  }

  /** Bystanders keep the sender's progress. */
  lemma TakenKept(
      serve: Serve, run: nat -> Event, d: Device, blocks: seq<seq<uint8>>,
      k: nat, address: uint32, i: nat, j: nat)
    requires KeepsTransfers(serve) && Roomy(run) && i <= j
    requires forall m: nat :: i <= m < j ==> Bystands(ReplyAt(serve, run, d, m))
    requires Taken(serve, run, d, blocks, i, address, k)
    ensures Taken(serve, run, d, blocks, j, address, k)
  {
    Quiet(serve, run, d, i, j);
  }

  lemma NextBlock(
      serve: Serve, run: nat -> Event, d: Device, blocks: seq<seq<uint8>>,
      k: nat, address: uint32, i: nat)
    requires k < |blocks| && Roomy(run)
    requires TakesBlock(serve, blocks, DeviceAt(serve, run, d, i), TransferAt(serve, run, d, i), run(i), k)
    requires Taken(serve, run, d, blocks, i, address, k)
    requires Sends(run(i), ServerNumber(k), blocks[k])
    ensures Taken(serve, run, d, blocks, i + 1, address, k + 1)
    ensures Accepts(ReplyAt(serve, run, d, i), SID_TRANSFER_DATA)
  {
    Advance(serve, run, d, i);
  }

  /** What was taken right after the sender's request at `pos[k]` still is when its next one arrives. */
  lemma TakenWhenNext(
      serve: Serve, run: nat -> Event, d: Device, number: nat -> uint8,
      blocks: seq<seq<uint8>>, pos: seq<nat>, address: uint32, k: nat)
    requires KeepsTransfers(serve) && Roomy(run) && Conducts(serve, run, d, number, blocks, pos) && k <= |blocks|
    requires Taken(serve, run, d, blocks, pos[k] + 1, address, k)
    ensures Taken(serve, run, d, blocks, pos[k + 1], address, k)
    ensures k < |blocks| ==> Sends(run(pos[k + 1]), number(k), blocks[k])
  {
    assert pos[k] < pos[k + 1];
    TakenKept(serve, run, d, blocks, k, address, pos[k] + 1, pos[k + 1]);
  }

  /** As long as the sender numbers its blocks as the server does, they are taken. */
  lemma BlocksTaken(
      serve: Serve, run: nat -> Event, d: Device, number: nat -> uint8,
      blocks: seq<seq<uint8>>, pos: seq<nat>, address: uint32, n: nat)
    requires KeepsTransfers(serve) && Roomy(run) && Conducts(serve, run, d, number, blocks, pos)
    requires n <= |blocks| && forall k: nat :: k < n ==> number(k) == ServerNumber(k)
    requires forall d, t, e, k :: 0 <= k < |blocks| ==> TakesBlock(serve, blocks, d, t, e, k)
    requires Taken(serve, run, d, blocks, pos[0] + 1, address, 0)
    ensures Accepted(serve, run, d, pos, n)
    ensures Taken(serve, run, d, blocks, pos[n + 1], address, n)
  {
    for k := 0 to n
      invariant Taken(serve, run, d, blocks, pos[k] + 1, address, k)
      invariant Accepted(serve, run, d, pos, k)
    {
      TakenWhenNext(serve, run, d, number, blocks, pos, address, k);
      NextBlock(serve, run, d, blocks, k, address, pos[k + 1]);
    }
    TakenWhenNext(serve, run, d, number, blocks, pos, address, n);
  }

  /** The download is accepted and its first `n` blocks are taken, as long as the numbers are the server's. */
  lemma SenderGetsTo(
      key: uint32 -> uint32, serve: Serve, run: nat -> Event, d: Device, number: nat -> uint8,
      blocks: seq<seq<uint8>>, pos: seq<nat>, n: nat)
    requires serve == Server(key) && Roomy(run) && Conducts(serve, run, d, number, blocks, pos)
    requires Prepared(serve, run, d, pos[0], blocks)
    requires n <= |blocks| && forall k: nat :: k < n ==> number(k) == ServerNumber(k)
    ensures Accepts(ReplyAt(serve, run, d, pos[0]), SID_REQUEST_DOWNLOAD)
    ensures Accepted(serve, run, d, pos, n)
    ensures Taken(serve, run, d, blocks, pos[n + 1], DownloadAddress(run(pos[0]).req), n)
  {
    var first := pos[0];
    DownloadStarts(key, DeviceAt(serve, run, d, first), TransferAt(serve, run, d, first), run(first), blocks);
    Advance(serve, run, d, first);
    ServerKeepsTransfers(key);
    ServerTakesBlocks(key, blocks);
    BlocksTaken(serve, run, d, number, blocks, pos, DownloadAddress(run(first).req), n);
  }

  /**
   * A correct sender succeeds. From any state with the programming session unlocked, any cutting of any image below
   * 2^32 bytes into blocks, sent in order with bystanders anywhere in between, is accepted block by block and
   * ended by a positive transfer exit, as long as the writes of its blocks succeed.
   */
  lemma SenderSucceeds(
      key: uint32 -> uint32, serve: Serve, run: nat -> Event, d: Device, number: nat -> uint8,
      blocks: seq<seq<uint8>>, pos: seq<nat>)
    requires serve == Server(key) && Roomy(run) && Conducts(serve, run, d, number, blocks, pos)
    requires Prepared(serve, run, d, pos[0], blocks)
    requires forall k: nat :: k < |blocks| ==> number(k) == ServerNumber(k)
    ensures Delivered(serve, run, d, pos, |blocks|)
    ensures var t := TransferAt(serve, run, d, pos[|blocks| + 1]);
            t.blocks == blocks && t.address == DownloadAddress(run(pos[0]).req)
  {
    var last := pos[|blocks| + 1];
    SenderGetsTo(key, serve, run, d, number, blocks, pos, |blocks|);
    ExitSucceeds(key, DeviceAt(serve, run, d, last), TransferAt(serve, run, d, last), run(last), blocks);
    assert blocks[..|blocks|] == blocks;
  }

  /**
   * End to end. From power-up, after a correct sender's positive transfer exit, flash holds its image at the announced
   * address, as long as no block, of the sender or refused by flash in between, reached past 2^32.
   */
  lemma ImageArrives(
      key: uint32 -> uint32, serve: Serve, run: nat -> Event, flash: Flash, number: nat -> uint8,
      blocks: seq<seq<uint8>>, pos: seq<nat>)
    requires serve == Server(key) && Roomy(run)
    requires Conducts(serve, run, Device(INITIAL, flash), number, blocks, pos)
    requires Prepared(serve, run, Device(INITIAL, flash), pos[0], blocks)
    requires forall k: nat :: k < |blocks| ==> number(k) == ServerNumber(k)
    ensures var d, last := Device(INITIAL, flash), pos[|blocks| + 1];
            && Delivered(serve, run, d, pos, |blocks|)
            && (TransferAt(serve, run, d, last).reach <= W32 ==>
                 Holds(DeviceAt(serve, run, d, last + 1).flash, DownloadAddress(run(pos[0]).req), Concat(blocks)))
  {
    var d, last := Device(INITIAL, flash), pos[|blocks| + 1];
    SenderSucceeds(key, serve, run, d, number, blocks, pos);
    ReassemblyOf(key, run, flash, last);
    ExitStep(key, DeviceAt(serve, run, d, last), run(last));
    Advance(serve, run, d, last);
  }

  lemma IsoNumberIsServers(k: nat)
    requires k < 255
    ensures IsoNumber(k) == ServerNumber(k)
  {
  }

  /**
   * A sender that numbers its blocks as the standard does succeeds exactly if it has at most 255 of them; otherwise
   * block 255, which it numbers 0, is refused as wrongly numbered after all before it were accepted.
   */
  lemma IsoSenderSucceedsExactlyWhen(
      key: uint32 -> uint32, serve: Serve, run: nat -> Event, d: Device,
      blocks: seq<seq<uint8>>, pos: seq<nat>)
    requires serve == Server(key) && Roomy(run) && Conducts(serve, run, d, IsoNumber, blocks, pos)
    requires Prepared(serve, run, d, pos[0], blocks)
    ensures Delivered(serve, run, d, pos, |blocks|) <==> |blocks| <= 255
    ensures |blocks| > 255 ==>
              && Accepted(serve, run, d, pos, 255)
              && ReplyAt(serve, run, d, pos[256]).response == Some([NEGATIVE, SID_TRANSFER_DATA, NRC_WRONG_BLOCK])
  {
    forall k: nat | k < 255 ensures IsoNumber(k) == ServerNumber(k) { IsoNumberIsServers(k); }
    if |blocks| <= 255 {
      SenderSucceeds(key, serve, run, d, IsoNumber, blocks, pos);
    } else {
      SenderGetsTo(key, serve, run, d, IsoNumber, blocks, pos, 255);
      var at := pos[256];
      assert Sends(run(pos[255 + 1]), IsoNumber(255), blocks[255]);
      WrongNumberRefused(key, DeviceAt(serve, run, d, at), TransferAt(serve, run, d, at), run(at), blocks, 255, 0);
    }
  }

  /** A run without bystanders: download, blocks, exit. */
  function StraightRun(download: seq<uint8>, number: nat -> uint8, blocks: seq<seq<uint8>>): nat -> Event {
    (i: nat) => Event(
      if i == 0 then download
      else if i <= |blocks| then BlockRequest(number(i - 1), blocks[i - 1])
      else [SID_TRANSFER_EXIT],
      Platform(0, 0, 0, true, []), 6)
  }

  /** The least image that the standard's numbering fails on: 256 blocks of one byte, sent straight. */
  lemma IsoSenderCounterexample(key: uint32 -> uint32, serve: Serve, address: uint32, flash: Flash)
    requires serve == Server(key)
    ensures var blocks := seq(256, i => [0]);
            var run := StraightRun(Download(address, 256), IsoNumber, blocks);
            var d := Device(INITIAL.(session := Programming, unlocked := true), flash);
            ReplyAt(serve, run, d, 256).response == Some([NEGATIVE, SID_TRANSFER_DATA, NRC_WRONG_BLOCK])
  {
    var blocks := seq(256, i => [0]);
    var download := Download(address, 256);
    var run := StraightRun(download, IsoNumber, blocks);
    var d := Device(INITIAL.(session := Programming, unlocked := true), flash);
    var pos := seq(258, i => i);
    OneByteEach(256);
    DownloadCanAnnounce(address, 256);
    StraightConducts(serve, download, d, IsoNumber, blocks, pos);
    IsoSenderSucceedsExactlyWhen(key, serve, run, d, blocks, pos);
  }

  lemma StraightConducts(
      serve: Serve, download: seq<uint8>, d: Device, number: nat -> uint8,
      blocks: seq<seq<uint8>>, pos: seq<nat>)
    requires pos == seq(|blocks| + 2, i => i)
    ensures var run := StraightRun(download, number, blocks);
            Conducts(serve, run, d, number, blocks, pos) && Roomy(run) && run(0).req == download
            && DeviceAt(serve, run, d, 0) == d
  {
  }

  lemma {:induction false} OneByteEach(n: nat)
    ensures |Concat(seq(n, i => [0]))| == n
  {
    if n > 0 {
      OneByteEach(n - 1);
      var fewer, more: seq<seq<uint8>> := seq(n - 1, i => [0]), seq(n, i => [0]);
      assert more == fewer + [[0]];
      ConcatAppend(fewer, [0]);
    }
  }

  /** A download request with four bytes each for address and size. */
  function Download(address: uint32, size: uint32): seq<uint8> {
    [SID_REQUEST_DOWNLOAD, 0, 0x44] + Be32(address) + Be32(size)
  }

  /** Every address and size below 2^32 can be announced: four bytes each. */
  lemma DownloadCanAnnounce(address: uint32, size: uint32)
    ensures var req := Download(address, size);
            DownloadWellFormed(req) && DownloadAddress(req) == address && DownloadSize(req) == size
  {
    var req := Download(address, size);
    assert req[3..7] == Be32(address) && req[7..11] == Be32(size);
    BigEndianOfBytes(address);
    BigEndianOfBytes(size);
  }

  lemma BigEndianOfBytes(v: uint32)
    ensures BigEndian(Be32(v)) == v
  {
    var s := Be32(v);
    BigEndianOfFour(s[0], s[1], s[2], s[3]);
    Digits(v);
  }

  /** Of more than four bytes only the last four count. */
  lemma {:induction false} BigEndianLastFour(s: seq<uint8>, last: seq<uint8>)
    requires |last| == 4
    ensures BigEndian(s + last) == BigEndian(last)
  {
    var a, b, c, d := last[0], last[1], last[2], last[3];
    assert s + last == (((s + [a]) + [b]) + [c]) + [d] && last == [a, b, c, d];
    BigEndianSnoc(s, a);
    BigEndianSnoc(s + [a], b);
    BigEndianSnoc((s + [a]) + [b], c);
    BigEndianSnoc(((s + [a]) + [b]) + [c], d);
    BigEndianOfFour(a, b, c, d);
    ShiftedOut(BigEndian(s), a, b, c, d);
  }

  lemma ShiftedOut(x: uint32, a: uint8, b: uint8, c: uint8, d: uint8)
    ensures ((((x * 256 + a) % W32 * 256 + b) % W32 * 256 + c) % W32 * 256 + d) % W32
         == a as int * 0x100_0000 + b as int * 0x1_0000 + c as int * 0x100 + d as int
  {
    ShiftTwice(x as int * 256 + a as int, b, c);
    var y: int := ((x as int * 256 + a as int) * 256 + b as int) * 256 + c as int;
    ShiftIn(y, d);
    Multiple(y * 256 + d as int - x as int * W32, x as int);
  }

  lemma ShiftTwice(y: int, b: uint8, c: uint8)
    ensures ((y % W32 * 256 + b) % W32 * 256 + c) % W32 == ((y * 256 + b as int) * 256 + c as int) % W32
  {
    ShiftIn(y, b);
    ShiftIn(y * 256 + b as int, c);
  }

  lemma ShiftIn(x: int, a: uint8)
    ensures (x % W32 * 256 + a) % W32 == (x * 256 + a as int) % W32
  {
    assert x == x / W32 * W32 + x % W32;
    Multiple(x % W32 * 256 + a, x / W32 * 256);
  }

  lemma BigEndianOfTwo(a: uint8, b: uint8)
    ensures BigEndian([a, b]) == a as int * 0x100 + b as int
  {
    assert [a, b] == [a] + [b];
    assert BigEndian([a]) == a;
    BigEndianSnoc([a], b);
  }

  lemma BigEndianOfThree(a: uint8, b: uint8, c: uint8)
    ensures BigEndian([a, b, c]) == a as int * 0x1_0000 + b as int * 0x100 + c as int
  {
    assert [a, b, c] == [a, b] + [c];
    BigEndianOfTwo(a, b);
    BigEndianSnoc([a, b], c);
  }

  lemma BigEndianOfFour(a: uint8, b: uint8, c: uint8, d: uint8)
    ensures BigEndian([a, b, c, d]) == a as int * 0x100_0000 + b as int * 0x1_0000 + c as int * 0x100 + d as int
  {
    assert [a, b, c, d] == [a, b, c] + [d];
    BigEndianOfThree(a, b, c);
    BigEndianSnoc([a, b, c], d);
  }

  lemma Digits(v: int)
    ensures v / 0x1_0000 == v / 0x100_0000 * 0x100 + v / 0x1_0000 % 0x100
    ensures v / 0x100 == v / 0x1_0000 * 0x100 + v / 0x100 % 0x100
    ensures v == v / 0x100 * 0x100 + v % 0x100
  {
  }

  lemma BigEndianSnoc(s: seq<uint8>, b: uint8)
    ensures BigEndian(s + [b]) == (BigEndian(s) * 256 + b) % W32
  {
    assert (s + [b])[..|s|] == s;
  }
}
