/** What the bootloader's UDS server does with one request: specification on values. */
module Uds {
  import opened Words

  const SID_SESSION_CONTROL: uint8 := 0x10
  const SID_ECU_RESET: uint8 := 0x11
  const SID_SECURITY_ACCESS: uint8 := 0x27
  const SID_TESTER_PRESENT: uint8 := 0x3E
  const SID_READ_DATA: uint8 := 0x22
  const SID_WRITE_DATA: uint8 := 0x2E
  const SID_REQUEST_DOWNLOAD: uint8 := 0x34
  const SID_TRANSFER_DATA: uint8 := 0x36
  const SID_TRANSFER_EXIT: uint8 := 0x37

  const POSITIVE_OFFSET: uint8 := 0x40
  const NEGATIVE: uint8 := 0x7F

  const NRC_GENERAL_REJECT: uint8 := 0x10
  const NRC_SERVICE_NOT_SUPPORTED: uint8 := 0x11
  const NRC_SUB_FUNCTION_NOT_SUPPORTED: uint8 := 0x12
  const NRC_INCORRECT_LENGTH: uint8 := 0x13
  const NRC_CONDITIONS_NOT_CORRECT: uint8 := 0x22
  const NRC_SEQUENCE_ERROR: uint8 := 0x24
  const NRC_OUT_OF_RANGE: uint8 := 0x31
  const NRC_ACCESS_DENIED: uint8 := 0x33
  const NRC_INVALID_KEY: uint8 := 0x35
  const NRC_EXCEEDED_ATTEMPTS: uint8 := 0x36
  const NRC_DELAY_NOT_EXPIRED: uint8 := 0x37
  const NRC_PROGRAMMING_FAILURE: uint8 := 0x72
  const NRC_WRONG_BLOCK: uint8 := 0x73

  const MAX_ATTEMPTS := 3
  const DELAY_MS := 10000

  /** The VIN data identifier 0xF190 and the fixed VIN it reads. */
  const VIN: seq<uint8> := [
    0x57, 0x42, 0x41, 0x44, 0x54, 0x34, 0x33, 0x34, 0x35, 0x32, 0x47, 0x32, 0x39, 0x36, 0x34, 0x30, 0x33]

  datatype Session = Default | Programming | Extended

  datatype State = State(
    session: Session, unlocked: bool,
    seed: uint32, attempts: uint8, lockoutTime: uint32,
    active: bool, counter: uint8, address: uint32, size: uint32, received: uint32)

  const INITIAL := State(Default, false, 0, 0, 0, false, 0, 0, 0, 0)

  /** Flash as the handler addresses it: 32-bit addresses, wrapping. */
  type Flash = uint32 -> uint8

  function Write(flash: Flash, at: uint32, data: seq<uint8>): Flash {
    (k: uint32) => if Sub32(k, at) < |data| then data[Sub32(k, at)] else flash(k)
  }

  datatype Device = Device(st: State, flash: Flash)

  /**
   * What the platform answers while one request is handled: the true time in milliseconds when the
   * lockout is checked and when it is stamped, a fresh seed, and whether a flash write succeeds.
   * A write that fails may leave the bytes `torn` behind, at most as many as were to be written.
   */
  datatype Platform = Platform(arrival: nat, stamp: nat, seed: uint32, writeOk: bool, torn: seq<uint8>)

  datatype Verdict = Positive(data: seq<uint8>) | Negative(nrc: uint8)

  datatype Outcome = Outcome(dev: Device, verdict: Verdict)

  /** The value of big-endian bytes in a 32-bit accumulator; higher bytes are shifted out. */
  function BigEndian(s: seq<uint8>): uint32 {
    if s == [] then 0 else (BigEndian(s[..|s| - 1]) * 256 + s[|s| - 1]) % W32
  }

  function Torn(p: Platform, data: seq<uint8>): seq<uint8> {
    if |p.torn| <= |data| then p.torn else p.torn[..|data|]
  }

  /** The block counter runs 1..255 and then starts again at 1. */
  function NextCounter(c: uint8): uint8 {
    if Inc8(c) == 0 then 1 else Inc8(c)
  }

  function SessionControl(d: Device, req: seq<uint8>): Outcome {
    if |req| < 2 then Outcome(d, Negative(NRC_INCORRECT_LENGTH))
    else if req[1] == 1 then Outcome(d.(st := d.st.(session := Default, unlocked := false)), Positive([req[1]]))
    else if req[1] == 2 then Outcome(d.(st := d.st.(session := Programming, unlocked := false)), Positive([req[1]]))
    else if req[1] == 3 then Outcome(d.(st := d.st.(session := Extended)), Positive([req[1]]))
    else Outcome(d, Negative(NRC_SUB_FUNCTION_NOT_SUPPORTED))
  }

  function EcuReset(d: Device, req: seq<uint8>): Outcome {
    if |req| < 2 then Outcome(d, Negative(NRC_INCORRECT_LENGTH))
    else if req[1] < 1 || req[1] > 3 then Outcome(d, Negative(NRC_SUB_FUNCTION_NOT_SUPPORTED))
    else Outcome(d, Positive([req[1]]))
  }

  function SecurityAccess(key: uint32 -> uint32, d: Device, req: seq<uint8>, p: Platform): Outcome {
    if |req| < 2 then Outcome(d, Negative(NRC_INCORRECT_LENGTH))
    else if d.st.attempts >= MAX_ATTEMPTS && Sub32(Tick(p.arrival), d.st.lockoutTime) < DELAY_MS then
      Outcome(d, Negative(NRC_DELAY_NOT_EXPIRED))
    else
      var st := if d.st.attempts >= MAX_ATTEMPTS then d.st.(attempts := 0) else d.st;
      if req[1] == 1 then
        if st.unlocked then Outcome(d.(st := st), Positive([1, 0, 0, 0, 0]))
        else Outcome(d.(st := st.(seed := p.seed)), Positive([1] + Be32(p.seed)))
      else if req[1] == 2 then
        if |req| < 6 then Outcome(d.(st := st), Negative(NRC_INCORRECT_LENGTH))
        else if BigEndian(req[2..6]) == key(st.seed) then
          Outcome(d.(st := st.(unlocked := true, attempts := 0)), Positive([2]))
        else if Inc8(st.attempts) >= MAX_ATTEMPTS then
          var locked := st.(attempts := Inc8(st.attempts), lockoutTime := Tick(p.stamp));
          Outcome(d.(st := locked), Negative(NRC_EXCEEDED_ATTEMPTS))
        else Outcome(d.(st := st.(attempts := Inc8(st.attempts))), Negative(NRC_INVALID_KEY))
      else Outcome(d.(st := st), Negative(NRC_SUB_FUNCTION_NOT_SUPPORTED))
  }

  function TesterPresent(d: Device, req: seq<uint8>): Outcome {
    if |req| < 2 then Outcome(d, Negative(NRC_INCORRECT_LENGTH)) else Outcome(d, Positive([req[1]]))
  }

  function ReadData(d: Device, req: seq<uint8>): Outcome {
    if |req| < 3 then Outcome(d, Negative(NRC_INCORRECT_LENGTH))
    else if req[1] == 0xF1 && req[2] == 0x90 then Outcome(d, Positive([0xF1, 0x90] + VIN))
    else Outcome(d, Negative(NRC_OUT_OF_RANGE))
  }

  function WriteData(d: Device, req: seq<uint8>): Outcome {
    if |req| < 4 then Outcome(d, Negative(NRC_INCORRECT_LENGTH))
    else if !d.st.unlocked then Outcome(d, Negative(NRC_ACCESS_DENIED))
    else Outcome(d, Positive([req[1], req[2]]))
  }

  /** Whether a download request is long enough for the address and size its format byte announces. */
  predicate DownloadWellFormed(req: seq<uint8>) {
    |req| >= 4 && |req| >= 3 + (req[2] / 16) + req[2] % 16
  }

  function DownloadAddress(req: seq<uint8>): uint32
    requires DownloadWellFormed(req)
  {
    BigEndian(req[3..3 + req[2] / 16])
  }

  function DownloadSize(req: seq<uint8>): uint32
    requires DownloadWellFormed(req)
  {
    BigEndian(req[3 + req[2] / 16..3 + req[2] / 16 + req[2] % 16])
  }

  function RequestDownload(d: Device, req: seq<uint8>): Outcome {
    if |req| < 4 then Outcome(d, Negative(NRC_INCORRECT_LENGTH))
    else if d.st.session != Programming then Outcome(d, Negative(NRC_CONDITIONS_NOT_CORRECT))
    else if !d.st.unlocked then Outcome(d, Negative(NRC_ACCESS_DENIED))
    else if !DownloadWellFormed(req) then Outcome(d, Negative(NRC_INCORRECT_LENGTH))
    else
      var st := d.st.(active := true, counter := 1,
                      address := DownloadAddress(req), size := DownloadSize(req), received := 0);
      Outcome(d.(st := st), Positive([0x20, 0x04, 0x00]))
  }

  /** Whether a request makes the server program flash, successfully or not. */
  predicate AttemptsWrite(st: State, req: seq<uint8>) {
    |req| >= 2 && req[0] == SID_TRANSFER_DATA && st.active && req[1] == st.counter
  }

  function TransferData(d: Device, req: seq<uint8>, p: Platform): Outcome {
    if |req| < 2 then Outcome(d, Negative(NRC_INCORRECT_LENGTH))
    else if !d.st.active then Outcome(d, Negative(NRC_SEQUENCE_ERROR))
    else if req[1] != d.st.counter then Outcome(d, Negative(NRC_WRONG_BLOCK))
    else
      var at := Add32(d.st.address, d.st.received);
      if !p.writeOk then
        Outcome(d.(flash := Write(d.flash, at, Torn(p, req[2..]))), Negative(NRC_PROGRAMMING_FAILURE))
      else
        var st := d.st.(received := Add32(d.st.received, |req| - 2), counter := NextCounter(d.st.counter));
        Outcome(Device(st, Write(d.flash, at, req[2..])), Positive([req[1]]))
  }

  function TransferExit(d: Device): Outcome {
    if !d.st.active then Outcome(d, Negative(NRC_SEQUENCE_ERROR))
    else if d.st.received != d.st.size then Outcome(d, Negative(NRC_PROGRAMMING_FAILURE))
    else Outcome(d.(st := d.st.(active := false)), Positive([]))
  }

  function Service(key: uint32 -> uint32, d: Device, req: seq<uint8>, p: Platform): Outcome
    requires req != []
  {
    if req[0] == SID_SESSION_CONTROL then SessionControl(d, req)
    else if req[0] == SID_ECU_RESET then EcuReset(d, req)
    else if req[0] == SID_SECURITY_ACCESS then SecurityAccess(key, d, req, p)
    else if req[0] == SID_TESTER_PRESENT then TesterPresent(d, req)
    else if req[0] == SID_READ_DATA then ReadData(d, req)
    else if req[0] == SID_WRITE_DATA then WriteData(d, req)
    else if req[0] == SID_REQUEST_DOWNLOAD then RequestDownload(d, req)
    else if req[0] == SID_TRANSFER_DATA then TransferData(d, req, p)
    else if req[0] == SID_TRANSFER_EXIT then TransferExit(d)
    else Outcome(d, Negative(NRC_SERVICE_NOT_SUPPORTED))
  }

  /**
   * The response in a buffer of `cap` bytes. A positive answer that does not fit is replaced by a general
   * reject, after the service has already taken effect; a negative one that does not fit is lost.
   */
  function Respond(sid: uint8, v: Verdict, cap: nat): Option<seq<uint8>> {
    match v
    case Positive(data) =>
      if 1 + |data| <= cap then Some([(sid + POSITIVE_OFFSET) % 256] + data) else Reject(sid, NRC_GENERAL_REJECT, cap)
    case Negative(nrc) => Reject(sid, nrc, cap)
  }

  function Reject(sid: uint8, nrc: uint8, cap: nat): Option<seq<uint8>> {
    if cap < 3 then None else Some([NEGATIVE, sid, nrc])
  }

  datatype Reply = Reply(dev: Device, response: Option<seq<uint8>>)

  function Process(key: uint32 -> uint32, d: Device, req: seq<uint8>, p: Platform, cap: nat): Reply {
    if req == [] then Reply(d, None)
    else
      var o := Service(key, d, req, p);
      Reply(o.dev, Respond(req[0], o.verdict, cap))
  }
}
