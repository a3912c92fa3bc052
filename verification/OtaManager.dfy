/** Over-the-air update of a two-bank device: download, verify, install, rollback, and reboots in between. */
module OtaManager {
  import opened Words
  import opened BootConfig
  import Runs

  datatype OtaState = Idle | Downloading | Verifying | Installing | RollingBack | Success | Failed

  datatype Metadata = Metadata(version: uint32, size: uint32, crc32: uint32) {
    predicate Valid() { version > 0 && size > 0 && crc32 != 0 }
  }

  /** What survives a reboot: the bank selection, the valid flags and the bytes in both banks. */
  datatype Board = Board(active: Bank, validA: bool, validB: bool, flashA: seq<uint8>, flashB: seq<uint8>) {
    function Valid(b: Bank): bool { if b == A then validA else validB }

    function Flash(b: Bank): seq<uint8> { if b == A then flashA else flashB }

    function SetFlash(b: Bank, bytes: seq<uint8>): Board {
      if b == A then this.(flashA := bytes) else this.(flashB := bytes)
    }

    function MarkValid(b: Bank): Board { if b == A then this.(validA := true) else this.(validB := true) }
  }

  datatype Manager = Manager(state: OtaState, current: Bank, targetSize: uint32, bytesWritten: uint32, target: Metadata)

  datatype Device = Device(board: Board, manager: Manager)

  const NO_METADATA := Metadata(0, 0, 0)

  function Construct(b: Board): Device { Device(b, Manager(Idle, b.active, 0, 0, NO_METADATA)) }

  /** Writing a file at an offset: a gap is filled with zeros, bytes beyond are kept. */
  function WriteAt(file: seq<uint8>, offset: nat, data: seq<uint8>): seq<uint8> {
    if data == [] then file
    else
      var padded := if |file| < offset + |data| then file + seq(offset + |data| - |file|, i => 0) else file;
      padded[..offset] + data + padded[offset + |data|..]
  }

  /** `crcOk`, `signatureOk` and `saved` are the answers of the checks and of storing the metadata. */
  datatype Call =
    | StartDownload(size: uint32, metadata: Metadata)
    | WriteBlock(offset: uint32, data: seq<uint8>)
    | Verify(crcOk: bool, signatureOk: bool, saved: bool)
    | Install
    | Rollback
    | SwitchBank(bank: Option<Bank>)
    | Reboot

  datatype Result = Result(device: Device, ok: bool)

  function Enter(d: Device, s: OtaState): Device { d.(manager := d.manager.(state := s)) }

  function Step(d: Device, c: Call): Result {
    var m, target := d.manager, Other(d.manager.current);
    match c
    case StartDownload(size, metadata) =>
      if m.state != Idle || !metadata.Valid() then Result(d, false)
      else
        var n := m.(state := Downloading, targetSize := size, bytesWritten := 0, target := metadata);
        Result(Device(d.board.SetFlash(target, []), n), true)
    case WriteBlock(offset, data) =>
      if m.state != Downloading || offset + |data| > m.targetSize then Result(d, false)
      else
        var board := d.board.SetFlash(target, WriteAt(d.board.Flash(target), offset, data));
        Result(Device(board, m.(bytesWritten := (m.bytesWritten + |data|) % W32)), true)
    case Verify(crcOk, signatureOk, saved) =>
      if m.state != Downloading then Result(d, false)
      else if crcOk && signatureOk && saved then Result(Enter(d, Verifying), true)
      else Result(Enter(d, Failed), false)
    case Install =>
      if m.state != Verifying then Result(d, false)
      else Result(Device(d.board.MarkValid(target).(active := target), m.(state := Success)), true)
    case Rollback =>
      if !d.board.Valid(target) then Result(Enter(d, Failed), false)
      else Result(Device(d.board.(active := target), m.(state := Success)), true)
    case SwitchBank(None) => Result(d, false)
    case SwitchBank(Some(b)) => Result(d.(board := d.board.(active := b)), true)
    case Reboot => Result(Construct(d.board), true)
  }

  // ---------------------------------------------------------------------------------------------
  // The code
  // ---------------------------------------------------------------------------------------------

  /** The simulated bootloader's globals and the files that stand for the banks. */
  class Bootloader {
    var active: Bank
    var validA: bool
    var validB: bool
    var flashA: seq<uint8>
    var flashB: seq<uint8>

    function Value(): Board
      reads this
    {
      Board(active, validA, validB, flashA, flashB)
    }

    constructor (b: Board)
      ensures Value() == b
    {
      active, validA, validB, flashA, flashB := b.active, b.validA, b.validB, b.flashA, b.flashB;
    }

    method MarkFirmwareValid(b: Bank)
      modifies this
      ensures Value() == old(Value()).MarkValid(b)
    {
      if b == A { validA := true; } else { validB := true; }
    }

    method EraseBank(b: Bank)
      modifies this
      ensures Value() == old(Value()).SetFlash(b, [])
    {
      if b == A { flashA := []; } else { flashB := []; }
    }

    method WriteToFlash(b: Bank, offset: uint32, data: seq<uint8>)
      modifies this
      ensures Value() == old(Value()).SetFlash(b, WriteAt(old(Value()).Flash(b), offset, data))
    {
      if b == A { flashA := WriteAt(flashA, offset, data); } else { flashB := WriteAt(flashB, offset, data); }
    }
  }

  class OtaManager {
    const board: Bootloader
    var state: OtaState
    const current: Bank
    var targetSize: uint32
    var bytesWritten: uint32
    var target: Metadata

    function Value(): Device
      reads this, board
    {
      Device(board.Value(), Manager(state, current, targetSize, bytesWritten, target))
    }

    constructor (board: Bootloader)
      ensures this.board == board && Value() == Construct(board.Value())
    {
      this.board := board;
      state, current := Idle, board.active;
      targetSize, bytesWritten, target := 0, 0, NO_METADATA;
    }

    function TargetBank(): Bank { if current == A then B else A }

    method StartDownloading(size: uint32, metadata: Metadata) returns (ok: bool)
      modifies this, board
      ensures Result(Value(), ok) == Step(old(Value()), StartDownload(size, metadata))
    {
      if state != Idle { return false; }
      if !metadata.Valid() { return false; }
      state := Downloading;
      targetSize, target, bytesWritten := size, metadata, 0;
      board.EraseBank(TargetBank());
      return true;
    }

    method WriteImageBlock(offset: uint32, data: seq<uint8>) returns (ok: bool)
      modifies this, board
      ensures Result(Value(), ok) == Step(old(Value()), WriteBlock(offset, data))
    {
      if state != Downloading { return false; }
      if offset + |data| > targetSize { return false; }
      board.WriteToFlash(TargetBank(), offset, data);
      bytesWritten := (bytesWritten + |data|) % W32;
      return true;
    }

    method VerifyImage(crcOk: bool, signatureOk: bool, saved: bool) returns (ok: bool)
      modifies this
      ensures Result(Value(), ok) == Step(old(Value()), Verify(crcOk, signatureOk, saved))
    {
      if state != Downloading { return false; }
      state := Verifying;
      if !crcOk { state := Failed; return false; }
      if !signatureOk { state := Failed; return false; }
      if !saved { state := Failed; return false; }
      return true;
    }

    method InstallImage() returns (ok: bool)
      modifies this, board
      ensures Result(Value(), ok) == Step(old(Value()), Install)
    {
      if state != Verifying { return false; }
      state := Installing;
      var bank := TargetBank();
      board.MarkFirmwareValid(bank);
      board.active := bank;
      state := Success;
      return true;
    }

    method RollBack() returns (ok: bool)
      modifies this, board
      ensures Result(Value(), ok) == Step(old(Value()), Rollback)
    {
      state := RollingBack;
      var fallback := if current == A then B else A;
      if !(if fallback == A then board.validA else board.validB) {
        state := Failed;
        return false;
      }
      board.active := fallback;
      state := Success;
      return true;
    }

    /** The public bank switch: it checks that there is such a bank, not that its firmware is valid. */
    method SwitchToBank(bank: Option<Bank>) returns (ok: bool)
      modifies board
      ensures Result(Value(), ok) == Step(old(Value()), SwitchBank(bank))
    {
      if bank.None? { return false; }
      board.active := bank.value;
      return true;
    }
  }

  // ---------------------------------------------------------------------------------------------
  // Runs, with reboots
  // ---------------------------------------------------------------------------------------------

  /**
   * The device with what an observer remembers: both banks' bytes when the running manager was constructed, the
   * target bank's bytes when `verify` last succeeded, and whether the manager has accepted a download.
   */
  datatype Observed = Observed(
    device: Device, running: seq<uint8>, other: seq<uint8>, verified: seq<uint8>, started: bool)

  function Observe(o: Observed, c: Call): Observed {
    var r := Step(o.device, c);
    var p := o.(device := r.device);
    var target := Other(o.device.manager.current);
    if c.Reboot? then Remember(r.device)
    else if c.Verify? && r.ok then p.(verified := r.device.board.Flash(target))
    else if c.StartDownload? && r.ok then p.(started := true)
    else p
  }

  function Remember(d: Device): Observed {
    Observed(d, d.board.Flash(d.manager.current), d.board.Flash(Other(d.manager.current)), [], false)
  }

  function ObservedStep(run: nat -> Call): (nat, Observed) -> Observed {
    (i: nat, o: Observed) => Observe(o, run(i))
  }

  /** The device before call `n`, having been constructed on `b`. */
  ghost function At(run: nat -> Call, b: Board, n: nat): Observed {
    Runs.At(ObservedStep(run), Remember(Construct(b)), n)
  }

  lemma Advance(run: nat -> Call, b: Board, n: nat)
    ensures At(run, b, n + 1) == Observe(At(run, b, n), run(n))
  {
    assert Runs.At(ObservedStep(run), Remember(Construct(b)), n + 1) == ObservedStep(run)(n, At(run, b, n));
  }

  predicate Sound(o: Observed) {
    var d := o.device;
    var current := d.manager.current;
    && d.board.Flash(current) == o.running
    && (d.manager.state == Verifying ==> d.board.Flash(Other(current)) == o.verified)
    && (!o.started ==> d.board.Flash(Other(current)) == o.other && d.manager.state !in {Downloading, Verifying})
  }

  lemma SoundStep(o: Observed, c: Call)
    requires Sound(o)
    ensures Sound(Observe(o, c))
  {
  }

  /** In every run the bank that was running at construction keeps its bytes until the next reboot. */
  lemma AlwaysSound(run: nat -> Call, b: Board, n: nat)
    ensures Sound(At(run, b, n))
  {
    forall i: nat, o: Observed | Sound(o) ensures Sound(ObservedStep(run)(i, o)) {
      SoundStep(o, run(i));
    }
    Runs.Invariant(ObservedStep(run), Sound, Remember(Construct(b)), 0, n);
  }

  /**
   * Verified means installed: whenever an installation succeeds, the bank made active holds the bytes it held when
   * `verify` succeeded, and the bank that was running still holds the bytes it was started with.
   */
  lemma VerifiedMeansInstalled(run: nat -> Call, b: Board, n: nat)
    requires run(n).Install? && Step(At(run, b, n).device, run(n)).ok
    ensures var o := At(run, b, n);
            var after := Step(o.device, run(n)).device.board;
            && after.active == Other(o.device.manager.current) && after.Valid(after.active)
            && after.Flash(after.active) == o.verified
            && after.Flash(Other(after.active)) == o.running
  {
    AlwaysSound(run, b, n);
  }

  // ---------------------------------------------------------------------------------------------
  // The active bank's valid flag
  // ---------------------------------------------------------------------------------------------

  /** A direct switch to a bank whose valid flag is not set. */
  predicate BlindSwitch(d: Device, c: Call) {
    c.SwitchBank? && c.bank.Some? && !d.board.Valid(c.bank.value)
  }

  predicate ActiveValid(d: Device) { d.board.Valid(d.board.active) }

  lemma ValidStep(d: Device, c: Call)
    ensures BlindSwitch(d, c) ==> !ActiveValid(Step(d, c).device)
    ensures ActiveValid(d) && !BlindSwitch(d, c) ==> ActiveValid(Step(d, c).device)
  {
  }

  /**
   * Over every run of operations and reboots, the active bank's valid flag stays true exactly as long as nobody
   * switches directly to a bank whose flag is not set; download, verify, install and rollback never endanger it.
   */
  lemma ActiveStaysValidExactlyWhen(run: nat -> Call, b: Board, n: nat)
    requires b.Valid(b.active)
    ensures (forall i: nat :: i <= n ==> ActiveValid(At(run, b, i).device))
       <==> (forall i: nat :: i < n ==> !BlindSwitch(At(run, b, i).device, run(i)))
  {
    var holds := (i: nat) => ActiveValid(At(run, b, i).device);
    var harmful := (i: nat) => BlindSwitch(At(run, b, i).device, run(i));
    forall i: nat
      ensures (harmful(i) ==> !holds(i + 1)) && (holds(i) && !harmful(i) ==> holds(i + 1))
    {
      Advance(run, b, i);
      ValidStep(At(run, b, i).device, run(i));
    }
    Runs.HoldsUntilHarmed(holds, harmful, n);
    assert forall i: nat :: holds(i) == ActiveValid(At(run, b, i).device);
    assert forall i: nat :: harmful(i) == BlindSwitch(At(run, b, i).device, run(i));
  }

  /** The factory state with one direct switch to the empty bank. */
  lemma BlindSwitchCounterexample(flash: seq<uint8>)
    ensures var d := Construct(Board(A, true, false, flash, []));
            var e := Step(d, SwitchBank(Some(B)));
            e.ok && !e.device.board.Valid(e.device.board.active)
  {
  }

  // ---------------------------------------------------------------------------------------------
  // Rollback
  // ---------------------------------------------------------------------------------------------

  /** Install, reboot, roll back, reboot: the original bank runs again, and both banks hold what they held. */
  lemma RollbackRoundTrip(d: Device)
    requires d.manager.state == Verifying && d.board.Valid(d.manager.current)
    ensures var installed := Step(d, Install);
            var booted := Step(installed.device, Reboot).device;
            var rolled := Step(booted, Rollback);
            var back := Step(rolled.device, Reboot).device;
            && installed.ok && rolled.ok
            && booted.manager.current == Other(d.manager.current)
            && back.manager.current == back.board.active == d.manager.current
            && back.manager.state == Idle
            && forall b :: back.board.Flash(b) == d.board.Flash(b)
  {
  }

  /** Unless the running manager has accepted a download, a rollback starts the very bytes the other bank held. */
  lemma RollbackRestores(run: nat -> Call, b: Board, n: nat)
    requires run(n).Rollback? && Step(At(run, b, n).device, run(n)).ok && !At(run, b, n).started
    ensures var after := Step(At(run, b, n).device, run(n)).device.board;
            after.Flash(after.active) == At(run, b, n).other
  {
    AlwaysSound(run, b, n);
  }

  /** Devices that differ at most in the other bank's bytes, and not even there once a download was accepted. */
  predicate Coupled(o: Observed, p: Observed) {
    var d, e := o.device, p.device;
    var current := d.manager.current;
    && d.manager == e.manager && o.started == p.started
    && d.board.active == e.board.active && d.board.validA == e.board.validA && d.board.validB == e.board.validB
    && d.board.Flash(current) == e.board.Flash(current)
    && (o.started ==> d.board.Flash(Other(current)) == e.board.Flash(Other(current)))
    && (!o.started ==> d.manager.state !in {Downloading, Verifying})
  }

  lemma CoupledStep(o: Observed, p: Observed, c: Call)
    requires Coupled(o, p) && !c.Reboot?
    ensures Coupled(Observe(o, c), Observe(p, c)) && Observe(p, c).other == p.other
  {
  }

  /** The board with `x` in the bank that is not running. */
  function Holding(b: Board, x: seq<uint8>): Board { b.SetFlash(Other(b.active), x) }

  lemma CoupledAtFirst(b: Board, x: seq<uint8>)
    ensures var p := Remember(Construct(Holding(b, x)));
            Coupled(Remember(Construct(b)), p) && p.other == x
  {
  }

  lemma CoupledRuns(run: nat -> Call, b: Board, x: seq<uint8>, n: nat)
    requires forall i: nat :: i < n ==> !run(i).Reboot?
    ensures Coupled(At(run, b, n), At(run, Holding(b, x), n)) && At(run, Holding(b, x), n).other == x
  {
    var rel := (o: Observed, p: Observed) => Coupled(o, p) && p.other == x;
    var step := ObservedStep(run);
    forall k: nat, o: Observed, p: Observed | k < n && rel(o, p) ensures rel(step(k, o), step(k, p)) {
      CoupledStep(o, p, run(k));
    }
    CoupledAtFirst(b, x);
    Runs.Related(step, rel, Remember(Construct(b)), Remember(Construct(Holding(b, x))), n);
  }

  /** Call `n`, a rollback, starts the bytes that the other bank held at construction. */
  predicate StartsWhatWas(o: Observed, c: Call, x: seq<uint8>) {
    var after := Step(o.device, c).device.board;
    after.Flash(after.active) == x
  }

  /**
   * A rollback that succeeds starts what the other bank held at construction, whatever that was, exactly when the
   * manager has accepted no download since.
   */
  lemma RollbackRestoresExactlyWhen(run: nat -> Call, b: Board, n: nat)
    requires forall i: nat :: i < n ==> !run(i).Reboot?
    requires run(n).Rollback? && Step(At(run, b, n).device, run(n)).ok
    ensures (forall x :: StartsWhatWas(At(run, Holding(b, x), n), run(n), x)) <==> !At(run, b, n).started
  {
    forall x
      ensures Coupled(At(run, b, n), At(run, Holding(b, x), n))
      ensures !At(run, b, n).started ==> StartsWhatWas(At(run, Holding(b, x), n), run(n), x)
    {
      CoupledRuns(run, b, x, n);
      if !At(run, b, n).started { RollbackRestores(run, Holding(b, x), n); }
    }
    if At(run, b, n).started {
      var y := At(run, b, n).device.board.Flash(Other(At(run, b, n).device.manager.current));
      CoupledRuns(run, b, y + [0], n);
      assert |y + [0]| != |y|;
      assert !StartsWhatWas(At(run, Holding(b, y + [0]), n), run(n), y + [0]);
    }
  }

  /**
   * Once a download has been accepted that no longer holds: starting one erases the fallback bank but leaves its
   * valid flag, so a rollback right after it succeeds into an empty bank.
   */
  lemma RollbackAfterStartIsEmpty(b: Board, size: uint32, metadata: Metadata)
    requires metadata.Valid() && b.Valid(Other(b.active))
    ensures var started := Step(Construct(b), StartDownload(size, metadata));
            var rolled := Step(started.device, Rollback);
            && started.ok && rolled.ok
            && rolled.device.board.active == Other(b.active) && rolled.device.board.Flash(Other(b.active)) == []
  {
  }

  // ---------------------------------------------------------------------------------------------
  // What is accepted, and what a complete update does
  // ---------------------------------------------------------------------------------------------

  /** A written block, byte by byte: the data in its place, zeros in a gap before it, everything else as it was. */
  lemma WrittenBytes(file: seq<uint8>, offset: nat, data: seq<uint8>, k: nat)
    requires data != []
    ensures var w := WriteAt(file, offset, data);
            && |w| == (if |file| < offset + |data| then offset + |data| else |file|)
            && (k < |w| ==> w[k] == if offset <= k < offset + |data| then data[k - offset]
                                    else if k < |file| then file[k] else 0)
  {
  }

  /** Every operation succeeds exactly in these cases, and fails in all others. */
  lemma AcceptedExactlyWhen(d: Device, c: Call)
    ensures var m := d.manager;
            Step(d, c).ok <==>
              match c
              case StartDownload(_, meta) => m.state == Idle && meta.version > 0 && meta.size > 0 && meta.crc32 > 0
              case WriteBlock(offset, data) => m.state == Downloading && offset + |data| <= m.targetSize
              case Verify(crcOk, signatureOk, saved) => m.state == Downloading && crcOk && signatureOk && saved
              case Install => m.state == Verifying
              case Rollback => if m.current == A then d.board.validB else d.board.validA
              case SwitchBank(bank) => bank.Some?
              case Reboot => true
  {
  }

  /** How far a manager has come: idle, downloading, verified, done. */
  function Phase(s: OtaState): nat { match s case Idle => 0 case Downloading => 1 case Verifying => 2 case _ => 3 }

  lemma PhaseStep(d: Device, c: Call)
    ensures !c.Reboot? ==> Phase(Step(d, c).device.manager.state) >= Phase(d.manager.state)
    ensures c.Verify? && d.manager.state == Downloading && !Step(d, c).ok ==>
              Phase(Step(d, c).device.manager.state) == 3
  {
  }

  lemma {:induction false} PhasesAdvance(run: nat -> Call, b: Board, i: nat, n: nat)
    requires i <= n && forall k: nat :: i <= k < n ==> !run(k).Reboot?
    ensures Phase(At(run, b, n).device.manager.state) >= Phase(At(run, b, i).device.manager.state)
    decreases n
  {
    if i < n {
      PhasesAdvance(run, b, i, n - 1);
      Advance(run, b, n - 1);
      PhaseStep(At(run, b, n - 1).device, run(n - 1));
    }
  }

  /** After a failed verification nothing is downloaded, verified or installed until the next reboot. */
  lemma FailedVerificationEndsUpdate(run: nat -> Call, b: Board, i: nat, n: nat)
    requires run(i).Verify? && At(run, b, i).device.manager.state == Downloading
    requires !Step(At(run, b, i).device, run(i)).ok
    requires i < n && forall k: nat :: i <= k < n ==> !run(k).Reboot?
    ensures !run(n).Reboot? && !run(n).Rollback? && !run(n).SwitchBank? ==> !Step(At(run, b, n).device, run(n)).ok
  {
    Advance(run, b, i);
    PhaseStep(At(run, b, i).device, run(i));
    PhasesAdvance(run, b, i + 1, n);
  }

  lemma VerifiedStep(d: Device, c: Call)
    requires Step(d, c).device.manager.state == Verifying
    ensures || (d.manager.state == Verifying && !c.Reboot?)
            || (c.Verify? && c.crcOk && c.signatureOk && c.saved && d.manager.state == Downloading && Step(d, c).ok)
  {
  }

  predicate Follows(device: nat -> Device, run: nat -> Call, k: nat) {
    device(k + 1) == Step(device(k), run(k)).device
  }

  predicate StandsVerified(device: nat -> Device, k: nat) { device(k).manager.state == Verifying }

  predicate AllChecksPass(d: Device, c: Call) {
    c.Verify? && c.crcOk && c.signatureOk && c.saved && Step(d, c).ok
  }

  /** A manager that stands verified got there by a verification that passed all checks, and did nothing since. */
  lemma {:induction false} VerifiedBecause(device: nat -> Device, run: nat -> Call, n: nat) returns (i: nat)
    requires forall k: nat :: Follows(device, run, k)
    requires !StandsVerified(device, 0) && StandsVerified(device, n)
    ensures i < n && AllChecksPass(device(i), run(i))
    ensures forall k: nat :: i < k < n ==> StandsVerified(device, k) && !run(k).Reboot?
    decreases n
  {
    assert Follows(device, run, n - 1);
    VerifiedStep(device(n - 1), run(n - 1));
    if StandsVerified(device, n - 1) {
      i := VerifiedBecause(device, run, n - 1);
    } else {
      i := n - 1;
    }
  }

  ghost function DeviceOf(run: nat -> Call, b: Board): nat -> Device { (k: nat) => At(run, b, k).device }

  lemma DevicesFollow(run: nat -> Call, b: Board)
    ensures !StandsVerified(DeviceOf(run, b), 0) && forall k: nat :: Follows(DeviceOf(run, b), run, k)
  {
    forall k: nat ensures Follows(DeviceOf(run, b), run, k) { Advance(run, b, k); }
  }

  /** Only images that passed the CRC check, the signature check and the saving of their metadata are ever installed. */
  lemma InstalledPassedAllChecks(run: nat -> Call, b: Board, n: nat) returns (i: nat)
    requires run(n).Install? && Step(At(run, b, n).device, run(n)).ok
    ensures i < n && AllChecksPass(At(run, b, i).device, run(i))
    ensures forall k: nat :: i < k < n ==> At(run, b, k).device.manager.state == Verifying && !run(k).Reboot?
  {
    var device := DeviceOf(run, b);
    DevicesFollow(run, b);
    i := VerifiedBecause(device, run, n);
    forall k: nat | i < k < n ensures At(run, b, k).device.manager.state == Verifying && !run(k).Reboot? {
      assert StandsVerified(device, k);
    }
  }

  /** Calls one after the other; `ok` if all of them succeed. */
  function Do(d: Device, calls: seq<Call>): Result
    decreases calls
  {
    if calls == [] then Result(d, true)
    else
      var r := Step(d, calls[0]);
      if r.ok then Do(r.device, calls[1..]) else r
  }

  lemma {:induction false} DoMore(d: Device, first: seq<Call>, rest: seq<Call>)
    requires Do(d, first).ok
    ensures Do(d, first + rest) == Do(Do(d, first).device, rest)
    decreases first
  {
    if first == [] {
      assert first + rest == rest;
    } else {
      assert (first + rest)[1..] == first[1..] + rest;
      DoMore(Step(d, first[0]).device, first[1..], rest);
    }
  }

  function Join(blocks: seq<seq<uint8>>): seq<uint8> { if blocks == [] then [] else blocks[0] + Join(blocks[1..]) }

  /** The blocks written one behind the other. */
  function Writes(offset: nat, blocks: seq<seq<uint8>>): seq<Call>
    requires offset + |Join(blocks)| < 0x1_0000_0000
    decreases blocks
  {
    if blocks == [] then []
    else [WriteBlock(offset, blocks[0])] + Writes(offset + |blocks[0]|, blocks[1..])
  }

  lemma WriteAtEnd(file: seq<uint8>, data: seq<uint8>)
    ensures WriteAt(file, |file|, data) == file + data
  {
  }

  /** The device when `image` has been written to the target bank. */
  function Written(d: Device, image: seq<uint8>): Device {
    Device(d.board.SetFlash(Other(d.manager.current), image), d.manager.(bytesWritten := |image| % 0x1_0000_0000))
  }

  lemma {:induction false} WritesAppend(d: Device, image: seq<uint8>, blocks: seq<seq<uint8>>)
    requires d.manager.state == Downloading && |image| + |Join(blocks)| <= d.manager.targetSize
    ensures Do(Written(d, image), Writes(|image|, blocks)) == Result(Written(d, image + Join(blocks)), true)
    decreases blocks
  {
    if blocks == [] {
      assert image + Join(blocks) == image;
    } else {
      var more := image + blocks[0];
      WriteAtEnd(image, blocks[0]);
      assert Step(Written(d, image), WriteBlock(|image|, blocks[0])) == Result(Written(d, more), true);
      WritesAppend(d, more, blocks[1..]);
      Regroup(image, blocks[0], Join(blocks[1..]));
      assert Writes(|image|, blocks)[1..] == Writes(|more|, blocks[1..]);
    }
  }

  /** Download, verification, installation and reboot. */
  function Update(blocks: seq<seq<uint8>>, metadata: Metadata): seq<Call>
    requires |Join(blocks)| < 0x1_0000_0000
  {
    [StartDownload(|Join(blocks)|, metadata)] + Writes(0, blocks) + [Verify(true, true, true), Install, Reboot]
  }

  /**
   * A complete update works. On every board, for every image below 2^32 bytes, every cutting of it into blocks and any
   * metadata whose version, size and CRC are not zero: all calls succeed, and the device then runs from the other bank,
   * which is marked valid and holds exactly the image; the bank that ran before keeps its bytes.
   */
  lemma UpdateSucceeds(b: Board, blocks: seq<seq<uint8>>, metadata: Metadata)
    requires |Join(blocks)| < 0x1_0000_0000
    requires metadata.version > 0 && metadata.size > 0 && metadata.crc32 > 0
    ensures var r := Do(Construct(b), Update(blocks, metadata));
            var to := if b.active == A then B else A;
            && r.ok && r.device.manager.state == Idle
            && r.device.manager.current == to && r.device.board.active == to
            && (if to == A then r.device.board.validA else r.device.board.validB)
            && (if to == A then r.device.board.flashA else r.device.board.flashB) == Join(blocks)
            && r.device.board.Flash(b.active) == b.Flash(b.active)
  {
    var d := Step(Construct(b), StartDownload(|Join(blocks)|, metadata)).device;
    UpdateDone(b, blocks, metadata);
    LastSteps(Written(d, Join(blocks)));
  }

  lemma UpdateDone(b: Board, blocks: seq<seq<uint8>>, metadata: Metadata)
    requires |Join(blocks)| < 0x1_0000_0000
    requires metadata.version > 0 && metadata.size > 0 && metadata.crc32 > 0
    ensures var start := Step(Construct(b), StartDownload(|Join(blocks)|, metadata));
            && start.ok
            && Do(Construct(b), Update(blocks, metadata))
                 == Do(Written(start.device, Join(blocks)), [Verify(true, true, true), Install, Reboot])
  {
    var image := Join(blocks);
    var d := Step(Construct(b), StartDownload(|image|, metadata)).device;
    var last := [Verify(true, true, true), Install, Reboot];
    assert Written(d, []) == d;
    WritesAppend(d, [], blocks);
    assert [] + image == image;
    assert Update(blocks, metadata)[1..] == Writes(0, blocks) + last;
    DoMore(d, Writes(0, blocks), last);
  }

  /** Verification, installation and reboot of what has been downloaded. */
  lemma LastSteps(d: Device)
    requires d.manager.state == Downloading
    ensures var to := Other(d.manager.current);
            Do(d, [Verify(true, true, true), Install, Reboot])
              == Result(Construct(d.board.MarkValid(to).(active := to)), true)
  {
    var verified := Step(d, Verify(true, true, true)).device;
    var installed := Step(verified, Install).device;
    var calls := [Verify(true, true, true), Install, Reboot];
    assert calls[1..] == [Install, Reboot] && [Install, Reboot][1..] == [Reboot] && [Reboot][1..] == [];
    assert Do(installed, [Reboot]) == Do(Construct(installed.board), []);
    assert Do(verified, [Install, Reboot]) == Do(installed, [Reboot]);
    assert Do(d, calls) == Do(verified, [Install, Reboot]);
  }
}
