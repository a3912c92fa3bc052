/** The CRC-32 of `Crc32` meets what the boot chain's staleness results ask of the devices' CRC routine. */
module BootCrc {
  import opened Words
  import opened BootConfig
  import Crc32

  /** A byte's bits; counted up, so that its value as a number is plain. */
  function ByteOf(x: uint8): (b: bv8)
    ensures b as int == x
  {
    if x == 0 then 0 else Next(x - 1, ByteOf(x - 1))
  }

  function Next(x: int, b: bv8): (c: bv8)
    requires x < 255 && b as int == x
    ensures c as int == x + 1
  {
    b + 1
  }

  function AsBytes(s: seq<uint8>): seq<bv8> { seq(|s|, i requires 0 <= i < |s| => ByteOf(s[i])) }

  function CrcOf(s: seq<uint8>): uint32 { Crc32.Crc(AsBytes(s)) as int }

  lemma WordInjective(a: bv32, b: bv32)
    requires a as int == b as int
    ensures a == b
  {
    assert (a as int) as bv32 == a && (b as int) as bv32 == b;
  }

  lemma BytesAround(s: seq<uint8>, i: nat, x: uint8)
    requires i < |s|
    ensures AsBytes(s[i := x]) == AsBytes(s)[..i] + [ByteOf(x)] + AsBytes(s)[i + 1..]
  {
  }

  lemma CrcTellsByte(s: seq<uint8>, i: nat, x: uint8)
    requires i < |s| && CrcOf(s[i := x]) == CrcOf(s)
    ensures s[i] == x
  {
    var before, after := AsBytes(s)[..i], AsBytes(s)[i + 1..];
    var a, b := ByteOf(x), ByteOf(s[i]);
    BytesAround(s, i, x);
    BytesAround(s, i, s[i]);
    assert s[i := s[i]] == s;
    WordInjective(Crc32.Crc(AsBytes(s[i := x])), Crc32.Crc(AsBytes(s)));
    Crc32.DetectsShortWindows(before, [a], [b], after);
    assert [a][0] == [b][0];
  }

  /** Any hardware with this CRC tells buffers that differ in one byte apart. */
  lemma CrcTellsOneByte(hw: Hardware)
    requires hw.crc == CrcOf
    ensures TellsOneByte(hw)
  {
    forall s: seq<uint8>, i: nat, x: uint8 | i < |s| ensures ToldApart(hw, s, i, x) {
      if hw.crc(s[i := x]) == hw.crc(s) { CrcTellsByte(s, i, x); }
    }
  }
}
