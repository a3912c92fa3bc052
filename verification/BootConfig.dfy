/** The CRC-protected boot configuration that both boot stages of both devices share. */
module BootConfig {
  import opened Words

  datatype Bank = A | B

  function Other(b: Bank): Bank { if b == A then B else A }

  /** The bank that an index byte of the configuration names: 0 is A, anything else is B. */
  function BankOf(index: uint8): Bank { if index == 0 then A else B }

  const MAX_BOOT_ATTEMPTS := 3
  const MAGIC_NUMBER := 0xA5A5_A5A5

  /** What the devices take from elsewhere: the CRC routine and the signature check are arbitrary functions. */
  datatype Hardware = Hardware(
    crc: seq<uint8> -> uint32,
    signed: (seq<uint8>, seq<uint8>) -> bool)

  /** The CRC tells buffers that differ in one byte apart, as the CRC-32 of `Crc32` does. */
  ghost predicate TellsOneByte(hw: Hardware) {
    forall s: seq<uint8>, i: nat, x: uint8 :: i < |s| ==> ToldApart(hw, s, i, x)
  }

  predicate ToldApart(hw: Hardware, s: seq<uint8>, i: nat, x: uint8)
    requires i < |s|
  {
    hw.crc(s[i := x]) == hw.crc(s) ==> s[i] == x
  }

  /** A bank's metadata together with the `size` bytes found at the bank's start address. */
  datatype Image = Image(magic: uint32, valid: uint8, crc32: uint32, signature: seq<uint8>, code: seq<uint8>)

  /** An image that verifies whatever the CRC is, and one that does not. */
  function GoodImage(hw: Hardware): Image { Image(MAGIC_NUMBER, 1, hw.crc([]), [], []) }

  const BAD_IMAGE := Image(0, 0, 0, [], [])

  /** The four images in flash at one boot. */
  datatype Images = Images(stage2A: Image, stage2B: Image, appA: Image, appB: Image) {
    function Stage2(b: Bank): Image { if b == A then stage2A else stage2B }
    function App(b: Bank): Image { if b == A then appA else appB }
  }

  datatype Config = Config(
    stage2Active: uint8, stage2CntA: uint8, stage2CntB: uint8,
    appActive: uint8, appCntA: uint8, appCntB: uint8,
    otaPending: uint8, reserved: seq<uint8>, crc: uint32)
  {
    /** The bytes under the CRC: everything but the CRC itself. */
    function Fields(): seq<uint8> {
      [stage2Active, stage2CntA, stage2CntB, appActive, appCntA, appCntB, otaPending] + reserved
    }

    predicate Intact(hw: Hardware) { hw.crc(Fields()) == crc }

    function Seal(hw: Hardware): Config { this.(crc := hw.crc(Fields())) }

    function Stage2Count(b: Bank): uint8 { if b == A then stage2CntA else stage2CntB }

    function AppCount(b: Bank): uint8 { if b == A then appCntA else appCntB }

    function SetStage2Count(b: Bank, n: uint8): Config {
      if b == A then this.(stage2CntA := n) else this.(stage2CntB := n)
    }

    function SetAppCount(b: Bank, n: uint8): Config {
      if b == A then this.(appCntA := n) else this.(appCntB := n)
    }

    /** Stage 1's choice, the same on both devices: a corrupt configuration means bank A. */
    function SelectedStage2(hw: Hardware): Bank {
      if !Intact(hw) then A else BankOf(stage2Active)
    }
  }

  /** A counter cleared under a stored CRC makes it stale exactly when the counter was not zero. */
  lemma ClearedStage2Count(hw: Hardware, c: Config, b: Bank)
    requires TellsOneByte(hw) && c.Intact(hw)
    ensures c.SetStage2Count(b, 0).Intact(hw) <==> c.Stage2Count(b) == 0
  {
    var i := if b == A then 1 else 2;
    assert c.SetStage2Count(b, 0).Fields() == c.Fields()[i := 0];
    assert ToldApart(hw, c.Fields(), i, 0);
  }

  lemma ClearedAppCount(hw: Hardware, c: Config, b: Bank)
    requires TellsOneByte(hw) && c.Intact(hw)
    ensures c.SetAppCount(b, 0).Intact(hw) <==> c.AppCount(b) == 0
  {
    var i := if b == A then 4 else 5;
    assert c.SetAppCount(b, 0).Fields() == c.Fields()[i := 0];
    assert ToldApart(hw, c.Fields(), i, 0);
  }

  /** The bank index after a toggle: 0 becomes 1 and every other value becomes 0. */
  function Toggled(index: uint8): uint8 { if index == 0 then 1 else 0 }

  /** One more failed attempt on a counter holding `n` reaches the limit. */
  predicate AtLimit(n: uint8) { Inc8(n) >= MAX_BOOT_ATTEMPTS }

  /** The nine bytes that the devices reserve, under the CRC as well. */
  const RESERVED: seq<uint8> := [0, 0, 0, 0, 0, 0, 0, 0, 0]

  /** Of two counters the active bank's is zero and the other's at most one. */
  predicate Tame(active: uint8, countA: uint8, countB: uint8) {
    if active == 0 then countA == 0 && countB <= 1 else countB == 0 && countA <= 1
  }

  /** An image as a boot stage must find it, signature apart: magic number, valid flag and a CRC matching its code. */
  predicate Sound(hw: Hardware, img: Image) {
    img.magic == 0xA5A5_A5A5 && img.valid == 1 && hw.crc(img.code) == img.crc32
  }

  /** The same image with one byte of its code changed. */
  function Corrupted(img: Image, i: nat, x: uint8): Image
    requires i < |img.code|
  {
    img.(code := img.code[i := x])
  }

  /** With a CRC that tells one byte, an image that matches its CRC no longer does after such a change. */
  lemma CorruptionShows(hw: Hardware, img: Image, i: nat, x: uint8)
    requires TellsOneByte(hw) && i < |img.code| && x != img.code[i] && hw.crc(img.code) == img.crc32
    ensures var bad := Corrupted(img, i, x); hw.crc(bad.code) != bad.crc32
  {
    assert ToldApart(hw, img.code, i, x);
  }

  /** The CRC covers every field: with a CRC that tells one byte, changing one byte of a configuration shows. */
  lemma CrcCoversEveryField(hw: Hardware, c: Config, x: uint8, i: nat)
    requires TellsOneByte(hw) && c.Intact(hw)
    ensures c.(stage2Active := x).Intact(hw) <==> x == c.stage2Active
    ensures c.(stage2CntA := x).Intact(hw) <==> x == c.stage2CntA
    ensures c.(stage2CntB := x).Intact(hw) <==> x == c.stage2CntB
    ensures c.(appActive := x).Intact(hw) <==> x == c.appActive
    ensures c.(appCntA := x).Intact(hw) <==> x == c.appCntA
    ensures c.(appCntB := x).Intact(hw) <==> x == c.appCntB
    ensures c.(otaPending := x).Intact(hw) <==> x == c.otaPending
    ensures i < |c.reserved| ==> (c.(reserved := c.reserved[i := x]).Intact(hw) <==> x == c.reserved[i])
  {
    OneByteShows(hw, c, c.(stage2Active := x), 0, x);
    OneByteShows(hw, c, c.(stage2CntA := x), 1, x);
    OneByteShows(hw, c, c.(stage2CntB := x), 2, x);
    OneByteShows(hw, c, c.(appActive := x), 3, x);
    OneByteShows(hw, c, c.(appCntA := x), 4, x);
    OneByteShows(hw, c, c.(appCntB := x), 5, x);
    OneByteShows(hw, c, c.(otaPending := x), 6, x);
    if i < |c.reserved| { OneByteShows(hw, c, c.(reserved := c.reserved[i := x]), 7 + i, x); }
  }

  lemma OneByteShows(hw: Hardware, c: Config, d: Config, i: nat, x: uint8)
    requires TellsOneByte(hw) && c.Intact(hw) && d.crc == c.crc
    requires i < |c.Fields()| && d.Fields() == c.Fields()[i := x]
    ensures d.Intact(hw) <==> x == c.Fields()[i]
  {
    assert ToldApart(hw, c.Fields(), i, x);
    if x == c.Fields()[i] { assert d.Fields() == c.Fields(); }
  }

  /** One more attempt, on a counter of one byte, stays below three. */
  predicate BelowLimit(count: uint8) { (count + 1) % 256 < 3 }

  /** Flash that holds the same images at every boot. */
  function Always(imgs: Images): nat -> Images { (i: nat) => imgs }

  /** The configuration in data flash, with the accessors that the two devices' sources share. */
  class ConfigMemory {
    const hw: Hardware
    var stage2Active: uint8
    var stage2CntA: uint8
    var stage2CntB: uint8
    var appActive: uint8
    var appCntA: uint8
    var appCntB: uint8
    var otaPending: uint8
    var reserved: seq<uint8>
    var crc: uint32

    function Value(): Config
      reads this
    {
      Config(stage2Active, stage2CntA, stage2CntB, appActive, appCntA, appCntB, otaPending, reserved, crc)
    }

    constructor (hw: Hardware, c: Config)
      ensures this.hw == hw && Value() == c
    {
      this.hw := hw;
      stage2Active, stage2CntA, stage2CntB := c.stage2Active, c.stage2CntA, c.stage2CntB;
      appActive, appCntA, appCntB := c.appActive, c.appCntA, c.appCntB;
      otaPending, reserved, crc := c.otaPending, c.reserved, c.crc;
    }

    method StoreCrc()
      modifies this`crc
      ensures Value() == old(Value()).Seal(hw)
    {
      crc := hw.crc(Value().Fields());
    }

    method ReadActiveStage2() returns (b: Bank)
      ensures b == Value().SelectedStage2(hw)
    {
      var calculated := hw.crc(Value().Fields());
      if calculated != crc {
        return A;
      }
      return if stage2Active == 0 then A else B;
    }

    method IncrementStage2Count(b: Bank)
      modifies this`stage2CntA, this`stage2CntB, this`crc
      ensures var c := old(Value()); Value() == c.SetStage2Count(b, Inc8(c.Stage2Count(b))).Seal(hw)
    {
      if b == A { stage2CntA := Inc8(stage2CntA); } else { stage2CntB := Inc8(stage2CntB); }
      StoreCrc();
    }

    method ResetStage2Count(b: Bank)
      modifies this`stage2CntA, this`stage2CntB, this`crc
      ensures Value() == old(Value()).SetStage2Count(b, 0).Seal(hw)
    {
      if b == A { stage2CntA := 0; } else { stage2CntB := 0; }
      StoreCrc();
    }

    method IncrementAppCount(b: Bank)
      modifies this`appCntA, this`appCntB, this`crc
      ensures var c := old(Value()); Value() == c.SetAppCount(b, Inc8(c.AppCount(b))).Seal(hw)
    {
      if b == A { appCntA := Inc8(appCntA); } else { appCntB := Inc8(appCntB); }
      StoreCrc();
    }

    method ResetAppCount(b: Bank)
      modifies this`appCntA, this`appCntB, this`crc
      ensures Value() == old(Value()).SetAppCount(b, 0).Seal(hw)
    {
      if b == A { appCntA := 0; } else { appCntB := 0; }
      StoreCrc();
    }
  }
}
