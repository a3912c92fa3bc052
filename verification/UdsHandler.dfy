/** The UDS handler as the source writes it: an object whose services update its fields and fill a response buffer. */
module UdsHandler {
  import opened Words
  import opened Uds

  function Minus(nrc: uint8): int { 0 - nrc as int }

  class Handler {
    const key: uint32 -> uint32
    var session: Session
    var unlocked: bool
    var seed: uint32
    var attempts: uint8
    var lockoutTime: uint32
    var active: bool
    var counter: uint8
    var address: uint32
    var size: uint32
    var received: uint32
    var flash: Flash

    function Value(): Device
      reads this
    {
      Device(State(session, unlocked, seed, attempts, lockoutTime, active, counter, address, size, received), flash)
    }

    constructor (key: uint32 -> uint32, flash: Flash)
      ensures this.key == key && Value() == Device(INITIAL, flash)
    {
      this.key, this.flash := key, flash;
      session, unlocked := Default, false;
      seed, attempts, lockoutTime := 0, 0, 0;
      active, counter, address, size, received := false, 0, 0, 0, 0;
    }

    /** `rc` is 0 or minus a negative response code. */
    ghost predicate Answers(rc: int, len: nat, response: array<uint8>, sid: uint8, v: Verdict)
      reads response
    {
      match v
      case Negative(nrc) => rc == Minus(nrc)
      case Positive(data) =>
        if 1 + |data| <= response.Length then
          rc == 0 && len == 1 + |data| && response[..len] == [(sid + POSITIVE_OFFSET) % 256] + data
        else rc == Minus(NRC_GENERAL_REJECT)
    }

    method BuildPositive(sid: uint8, data: seq<uint8>, response: array<uint8>) returns (rc: int, len: nat)
      modifies response
      ensures Answers(rc, len, response, sid, Positive(data))
    {
      if response.Length < 1 + |data| {
        return Minus(NRC_GENERAL_REJECT), 0;
      }
      response[0] := (sid + POSITIVE_OFFSET) % 256;
      for i := 0 to |data|
        invariant response[0] == (sid + POSITIVE_OFFSET) % 256
        invariant response[1..1 + i] == data[..i]
      {
        response[1 + i] := data[i];
      }
      assert response[..1 + |data|] == [response[0]] + response[1..1 + |data|];
      return 0, 1 + |data|;
    }

    method BuildNegative(sid: uint8, nrc: uint8, response: array<uint8>) returns (rc: int, len: nat)
      modifies response
      ensures match Reject(sid, nrc, response.Length)
              case None => rc == -1
              case Some(bytes) => rc == 0 && len == |bytes| && response[..len] == bytes
    {
      if response.Length < 3 {
        return -1, 0;
      }
      response[0], response[1], response[2] := NEGATIVE, sid, nrc;
      return 0, 3;
    }

    method ServiceSessionControl(req: seq<uint8>, response: array<uint8>) returns (rc: int, len: nat)
      modifies this, response
      ensures var o := SessionControl(old(Value()), req);
              Value() == o.dev && Answers(rc, len, response, SID_SESSION_CONTROL, o.verdict)
    {
      if |req| < 2 { return Minus(NRC_INCORRECT_LENGTH), 0; }
      var sessionType := req[1];
      if sessionType == 1 {
        session, unlocked := Default, false;
      } else if sessionType == 2 {
        session, unlocked := Programming, false;
      } else if sessionType == 3 {
        session := Extended;
      } else {
        return Minus(NRC_SUB_FUNCTION_NOT_SUPPORTED), 0;
      }
      rc, len := BuildPositive(SID_SESSION_CONTROL, [sessionType], response);
    }

    method ServiceSecurityAccess(req: seq<uint8>, p: Platform, response: array<uint8>) returns (rc: int, len: nat)
      modifies this, response
      ensures var o := SecurityAccess(key, old(Value()), req, p);
              Value() == o.dev && Answers(rc, len, response, SID_SECURITY_ACCESS, o.verdict)
    {
      if |req| < 2 { return Minus(NRC_INCORRECT_LENGTH), 0; }
      var sub := req[1];
      if attempts >= MAX_ATTEMPTS {
        var now := Tick(p.arrival);
        if Sub32(now, lockoutTime) < DELAY_MS {
          return Minus(NRC_DELAY_NOT_EXPIRED), 0;
        }
        attempts := 0;
      }
      if sub == 1 {
        if unlocked {
          rc, len := BuildPositive(SID_SECURITY_ACCESS, [sub, 0, 0, 0, 0], response);
          return;
        }
        seed := p.seed;
        rc, len := BuildPositive(SID_SECURITY_ACCESS, [sub] + Be32(seed), response);
      } else if sub == 2 {
        if |req| < 6 { return Minus(NRC_INCORRECT_LENGTH), 0; }
        var receivedKey := BigEndianLoop(req, 2, 4);
        var expectedKey := key(seed);
        if receivedKey == expectedKey {
          unlocked := true;
          attempts := 0;
          rc, len := BuildPositive(SID_SECURITY_ACCESS, [sub], response);
        } else {
          attempts := Inc8(attempts);
          if attempts >= MAX_ATTEMPTS {
            lockoutTime := Tick(p.stamp);
            return Minus(NRC_EXCEEDED_ATTEMPTS), 0;
          }
          return Minus(NRC_INVALID_KEY), 0;
        }
      } else {
        return Minus(NRC_SUB_FUNCTION_NOT_SUPPORTED), 0;
      }
    }

    /** Shifts `count` bytes of the request into a 32-bit accumulator. */
    method BigEndianLoop(req: seq<uint8>, from: nat, count: nat) returns (r: uint32)
      requires from + count <= |req|
      ensures r == BigEndian(req[from..from + count])
    {
      r := 0;
      for i := 0 to count
        invariant r == BigEndian(req[from..from + i])
      {
        assert req[from..from + i + 1][..i] == req[from..from + i];
        r := (r * 256 + req[from + i]) % W32;
      }
    }

    method ServiceRequestDownload(req: seq<uint8>, response: array<uint8>) returns (rc: int, len: nat)
      modifies this, response
      ensures var o := RequestDownload(old(Value()), req);
              Value() == o.dev && Answers(rc, len, response, SID_REQUEST_DOWNLOAD, o.verdict)
    {
      if |req| < 4 { return Minus(NRC_INCORRECT_LENGTH), 0; }
      if session != Programming { return Minus(NRC_CONDITIONS_NOT_CORRECT), 0; }
      if !unlocked { return Minus(NRC_ACCESS_DENIED), 0; }
      var addressBytes, sizeBytes := req[2] / 16, req[2] % 16;
      if |req| < 3 + addressBytes + sizeBytes { return Minus(NRC_INCORRECT_LENGTH), 0; }
      var a := BigEndianLoop(req, 3, addressBytes);
      var n := BigEndianLoop(req, 3 + addressBytes, sizeBytes);
      active, counter, address, size, received := true, 1, a, n, 0;
      rc, len := BuildPositive(SID_REQUEST_DOWNLOAD, [0x20, 0x04, 0x00], response);
    }

    method ServiceTransferData(req: seq<uint8>, p: Platform, response: array<uint8>) returns (rc: int, len: nat)
      modifies this, response
      ensures var o := TransferData(old(Value()), req, p);
              Value() == o.dev && Answers(rc, len, response, SID_TRANSFER_DATA, o.verdict)
    {
      if |req| < 2 { return Minus(NRC_INCORRECT_LENGTH), 0; }
      if !active { return Minus(NRC_SEQUENCE_ERROR), 0; }
      var block := req[1];
      if block != counter { return Minus(NRC_WRONG_BLOCK), 0; }
      var data := req[2..];
      var at := Add32(address, received);
      if !p.writeOk {
        flash := Write(flash, at, Torn(p, data));
        return Minus(NRC_PROGRAMMING_FAILURE), 0;
      }
      flash := Write(flash, at, data);
      received := Add32(received, |data|);
      counter := Inc8(counter);
      if counter == 0 {
        counter := 1;
      }
      rc, len := BuildPositive(SID_TRANSFER_DATA, [block], response);
    }

    method ServiceTransferExit(response: array<uint8>) returns (rc: int, len: nat)
      modifies this, response
      ensures var o := TransferExit(old(Value()));
              Value() == o.dev && Answers(rc, len, response, SID_TRANSFER_EXIT, o.verdict)
    {
      if !active { return Minus(NRC_SEQUENCE_ERROR), 0; }
      if received != size { return Minus(NRC_PROGRAMMING_FAILURE), 0; }
      active := false;
      rc, len := BuildPositive(SID_TRANSFER_EXIT, [], response);
    }

    /** `reset` is the reset that the platform is asked for once the answer has been built. */
    method ServiceEcuReset(req: seq<uint8>, response: array<uint8>) returns (rc: int, len: nat, reset: Option<uint8>)
      modifies response
      ensures reset == if EcuReset(Value(), req).verdict.Positive? && response.Length >= 2 then Some(req[1]) else None
      ensures Answers(rc, len, response, SID_ECU_RESET, EcuReset(Value(), req).verdict)
    {
      if |req| < 2 { return Minus(NRC_INCORRECT_LENGTH), 0, None; }
      if req[1] < 1 || req[1] > 3 { return Minus(NRC_SUB_FUNCTION_NOT_SUPPORTED), 0, None; }
      rc, len := BuildPositive(SID_ECU_RESET, [req[1]], response);
      reset := if rc == 0 then Some(req[1]) else None;
    }

    method ServiceTesterPresent(req: seq<uint8>, response: array<uint8>) returns (rc: int, len: nat)
      modifies response
      ensures Answers(rc, len, response, SID_TESTER_PRESENT, TesterPresent(Value(), req).verdict)
    {
      if |req| < 2 { return Minus(NRC_INCORRECT_LENGTH), 0; }
      rc, len := BuildPositive(SID_TESTER_PRESENT, [req[1]], response);
    }

    method ServiceReadData(req: seq<uint8>, response: array<uint8>) returns (rc: int, len: nat)
      modifies response
      ensures Answers(rc, len, response, SID_READ_DATA, ReadData(Value(), req).verdict)
    {
      if |req| < 3 { return Minus(NRC_INCORRECT_LENGTH), 0; }
      if req[1] as int * 256 + req[2] as int != 0xF190 { return Minus(NRC_OUT_OF_RANGE), 0; }
      rc, len := BuildPositive(SID_READ_DATA, [req[1], req[2]] + VIN, response);
    }

    method ServiceWriteData(req: seq<uint8>, response: array<uint8>) returns (rc: int, len: nat)
      modifies response
      ensures Answers(rc, len, response, SID_WRITE_DATA, WriteData(Value(), req).verdict)
    {
      if |req| < 4 { return Minus(NRC_INCORRECT_LENGTH), 0; }
      if !unlocked { return Minus(NRC_ACCESS_DENIED), 0; }
      rc, len := BuildPositive(SID_WRITE_DATA, [req[1], req[2]], response);
    }

    /** Whether the service table has an entry. */
    predicate Served(sid: uint8) {
      sid in {SID_SESSION_CONTROL, SID_ECU_RESET, SID_SECURITY_ACCESS, SID_TESTER_PRESENT, SID_READ_DATA,
              SID_WRITE_DATA, SID_REQUEST_DOWNLOAD, SID_TRANSFER_DATA, SID_TRANSFER_EXIT}
    }

    /** The call through the service table. */
    method CallService(req: seq<uint8>, p: Platform, response: array<uint8>) returns (rc: int, len: nat)
      requires req != [] && Served(req[0])
      modifies this, response
      ensures var o := Service(key, old(Value()), req, p);
              Value() == o.dev && Answers(rc, len, response, req[0], o.verdict)
    {
      var sid := req[0];
      if sid == SID_SESSION_CONTROL {
        rc, len := ServiceSessionControl(req, response);
      } else if sid == SID_SECURITY_ACCESS {
        rc, len := ServiceSecurityAccess(req, p, response);
      } else if sid == SID_REQUEST_DOWNLOAD {
        rc, len := ServiceRequestDownload(req, response);
      } else if sid == SID_TRANSFER_DATA {
        rc, len := ServiceTransferData(req, p, response);
      } else if sid == SID_TRANSFER_EXIT {
        rc, len := ServiceTransferExit(response);
      } else if sid == SID_ECU_RESET {
        var reset: Option<uint8>;
        rc, len, reset := ServiceEcuReset(req, response);
      } else if sid == SID_TESTER_PRESENT {
        rc, len := ServiceTesterPresent(req, response);
      } else if sid == SID_READ_DATA {
        rc, len := ServiceReadData(req, response);
      } else {
        rc, len := ServiceWriteData(req, response);
      }
    }

    method ProcessRequest(req: seq<uint8>, p: Platform, response: array<uint8>) returns (rc: int, len: nat)
      modifies this, response
      ensures var r := Process(key, old(Value()), req, p, response.Length);
              && Value() == r.dev
              && match r.response
                 case None => rc == -1
                 case Some(bytes) => rc == 0 && len == |bytes| && response[..len] == bytes
    {
      if req == [] { return -1, 0; }
      var sid := req[0];
      if !Served(sid) {
        rc, len := BuildNegative(sid, NRC_SERVICE_NOT_SUPPORTED, response);
        return;
      }
      ghost var o := Service(key, Value(), req, p);
      rc, len := CallService(req, p, response);
      if rc < 0 {
        rc, len := BuildNegative(sid, -rc, response);
      }
    }
  }
}
