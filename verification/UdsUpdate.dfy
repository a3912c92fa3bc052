/** A whole firmware update over UDS, from power-up: every image can be brought into flash. */
module UdsUpdate {
  import opened Words
  import opened Uds
  import opened UdsRuns
  import opened UdsDownload
  import opened UdsAnswers

  /** Requests 0 to 2 enter the programming session, ask for a seed and send its key. */
  function Unlocking(key: uint32 -> uint32, seed: uint32, i: nat): seq<uint8> {
    if i == 0 then [0x10, 2] else if i == 1 then [0x27, 1] else [0x27, 2] + Be32(key(seed))
  }

  /** Then come the download request, the blocks, and the transfer exit. */
  function UpdateRequest(
      key: uint32 -> uint32, seed: uint32, address: uint32, blocks: seq<seq<uint8>>, i: nat): seq<uint8>
    requires |Concat(blocks)| < 0x1_0000_0000
  {
    if i < 3 then Unlocking(key, seed, i)
    else if i == 3 then Download(address, |Concat(blocks)|)
    else if i - 4 < |blocks| then BlockRequest(ServerNumber(i - 4), blocks[i - 4])
    else [0x37]
  }

  /** Event `i` of the run is step `i` of the update; its answer has room, and a block is taken by flash. */
  predicate UpdateStep(key: uint32 -> uint32, run: nat -> Event, address: uint32, blocks: seq<seq<uint8>>, i: nat)
    requires |Concat(blocks)| < 0x1_0000_0000
  {
    && run(i).req == UpdateRequest(key, run(1).platform.seed, address, blocks, i) && run(i).cap >= 6
    && (4 <= i < |blocks| + 4 ==> run(i).platform.writeOk)
  }

  ghost predicate Updates(key: uint32 -> uint32, run: nat -> Event, address: uint32, blocks: seq<seq<uint8>>)
    requires |Concat(blocks)| < 0x1_0000_0000
  {
    forall i: nat :: UpdateStep(key, run, address, blocks, i)
  }

  /** Whatever else the platform answers, there is such a run. */
  lemma UpdateExists(key: uint32 -> uint32, platform: nat -> Platform, address: uint32, blocks: seq<seq<uint8>>)
    returns (run: nat -> Event)
    requires |Concat(blocks)| < 0x1_0000_0000
    requires forall i: nat :: 4 <= i < |blocks| + 4 ==> platform(i).writeOk
    ensures Updates(key, run, address, blocks) && forall i: nat :: run(i).platform == platform(i)
  {
    run := (i: nat) => Event(UpdateRequest(key, platform(1).seed, address, blocks, i), platform(i), 6);
  }

  /** Session, seed and key: from power-up they always unlock the programming session. */
  lemma Unlocks(key: uint32 -> uint32, serve: Serve, run: nat -> Event, flash: Flash)
    requires serve == Server(key)
    requires forall i: nat :: i < 3 ==> run(i).cap >= 6 && run(i).req == Unlocking(key, run(1).platform.seed, i)
    ensures var st := DeviceAt(serve, run, Device(INITIAL, flash), 3).st; st.session == Programming && st.unlocked
  {
    var d := Device(INITIAL, flash);
    Advance(serve, run, d, 0);
    Advance(serve, run, d, 1);
    Advance(serve, run, d, 2);
    var d1, d2 := DeviceAt(serve, run, d, 1), DeviceAt(serve, run, d, 2);
    SessionJudged(key, d, run(0).req, run(0).platform, run(0).cap);
    SeedJudged(key, d1, run(1).req, run(1).platform, run(1).cap);
    KeyJudged(key, d2, key(run(1).platform.seed), [], run(2).platform, run(2).cap);
    assert run(2).req == [0x27, 2] + Be32(key(run(1).platform.seed)) + [];
  }

  /** The positions of download request, blocks and exit. */
  predicate InSequence(pos: seq<nat>, n: nat) { |pos| == n + 2 && forall k :: 0 <= k < |pos| ==> pos[k] == k + 3 }

  /** No block reached further than what has been accepted. */
  predicate Tight(t: Transfer) { t.reach == |Concat(t.blocks)| }

  lemma TightStep(t: Transfer, e: Event, r: Reply, u: Transfer)
    requires u == Observe(t, e, r)
    requires || (Accepts(r, SID_REQUEST_DOWNLOAD) && DownloadWellFormed(e.req))
             || (Accepts(r, SID_TRANSFER_DATA) && |e.req| >= 2 && Tight(t))
    ensures Tight(u)
  {
    if !Accepts(r, SID_REQUEST_DOWNLOAD) { ConcatAppend(t.blocks, e.req[2..]); }
  }

  lemma {:induction false} StaysTight(serve: Serve, run: nat -> Event, d: Device, pos: seq<nat>, n: nat)
    requires n + 2 <= |pos| && InSequence(pos, |pos| - 2)
    requires Accepts(ReplyAt(serve, run, d, 3), SID_REQUEST_DOWNLOAD) && DownloadWellFormed(run(3).req)
    requires Accepted(serve, run, d, pos, |pos| - 2)
    requires forall i: nat :: 4 <= i < |pos| + 2 ==> |run(i).req| >= 2
    ensures Tight(TransferAt(serve, run, d, n + 4))
  {
    var i := n + 3;
    if n > 0 {
      StaysTight(serve, run, d, pos, n - 1);
      assert pos[n] == i && Accepts(ReplyAt(serve, run, d, pos[n]), SID_TRANSFER_DATA);
    }
    TightStep(TransferAt(serve, run, d, i), run(i), ReplyAt(serve, run, d, i), TransferAt(serve, run, d, i + 1));
  }

  lemma UpdateConducts(
      key: uint32 -> uint32, serve: Serve, run: nat -> Event, address: uint32, blocks: seq<seq<uint8>>,
      d: Device, pos: seq<nat>)
    requires |Concat(blocks)| < 0x1_0000_0000 && Updates(key, run, address, blocks) && InSequence(pos, |blocks|)
    ensures Roomy(run) && Conducts(serve, run, d, ServerNumber, blocks, pos)
    ensures forall i: nat :: 4 <= i < |blocks| + 4 ==> |run(i).req| >= 2
  {
    forall i: nat ensures run(i).cap >= 6 { assert UpdateStep(key, run, address, blocks, i); }
    forall k | 0 <= k < |blocks| ensures Sends(run(pos[k + 1]), ServerNumber(k), blocks[k]) {
      assert UpdateStep(key, run, address, blocks, pos[k + 1]);
    }
    forall i: nat | 4 <= i < |blocks| + 4 ensures |run(i).req| >= 2 {
      assert UpdateStep(key, run, address, blocks, i);
    }
    assert UpdateStep(key, run, address, blocks, pos[|blocks| + 1]);
  }

  /** The update gets as far as the download request with everything that takes. */
  lemma UpdatePrepared(
      key: uint32 -> uint32, serve: Serve, run: nat -> Event, flash: Flash, address: uint32, blocks: seq<seq<uint8>>)
    requires serve == Server(key) && |Concat(blocks)| < 0x1_0000_0000 && Updates(key, run, address, blocks)
    ensures Prepared(serve, run, Device(INITIAL, flash), 3, blocks)
    ensures DownloadWellFormed(run(3).req) && DownloadAddress(run(3).req) == address
  {
    forall i: nat | i < 3 ensures run(i).cap >= 6 && run(i).req == Unlocking(key, run(1).platform.seed, i) {
      assert UpdateStep(key, run, address, blocks, i);
    }
    Unlocks(key, serve, run, flash);
    assert UpdateStep(key, run, address, blocks, 3);
    DownloadCanAnnounce(address, |Concat(blocks)|);
  }

  /**
   * Every image can be brought into flash. From power-up, for every image below 2^32 bytes, every cutting of it into
   * blocks, every address, seed and key function: the update is accepted request by request, as long as flash takes the
   * blocks, and flash then holds the image from that address on.
   */
  lemma UpdateSucceeds(
      key: uint32 -> uint32, serve: Serve, run: nat -> Event, flash: Flash, address: uint32, blocks: seq<seq<uint8>>,
      pos: seq<nat>)
    requires serve == Server(key) && |Concat(blocks)| < 0x1_0000_0000 && Updates(key, run, address, blocks)
    requires InSequence(pos, |blocks|)
    ensures var d := Device(INITIAL, flash);
            && Delivered(serve, run, d, pos, |blocks|)
            && Holds(DeviceAt(serve, run, d, |blocks| + 5).flash, address, Concat(blocks))
  {
    var d, n := Device(INITIAL, flash), |blocks|;
    assert pos[0] == 3 && pos[n + 1] == n + 4;
    UpdatePrepared(key, serve, run, flash, address, blocks);
    UpdateConducts(key, serve, run, address, blocks, d, pos);
    SenderSucceeds(key, serve, run, d, ServerNumber, blocks, pos);
    StaysTight(serve, run, d, pos, n);
    ImageArrives(key, serve, run, flash, ServerNumber, blocks, pos);
  }
}
