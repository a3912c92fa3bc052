/** Shift registers over any type: what a loop inherits from its step. */
module Register {
  function Iterate<R>(f: R -> R, x: R, n: nat): R
    decreases n
  {
    if n == 0 then x else Iterate(f, f(x), n - 1)
  }

  /** A register fed with data: mix in one item, then take a step. */
  function Feed<R, B>(step: R -> R, mix: (R, B) -> R, x: R, data: seq<B>): R
    decreases data
  {
    if data == [] then x else Feed(step, mix, step(mix(x, data[0])), data[1..])
  }

  predicate AddsAt<R(==)>(f: R -> R, add: (R, R) -> R, a: R, b: R) { add(f(a), f(b)) == f(add(a, b)) }

  ghost predicate Linear<R(!new)>(f: R -> R, add: (R, R) -> R) { forall a, b :: AddsAt(f, add, a, b) }

  predicate SeparatesAt<R(==)>(f: R -> R, a: R, b: R) { f(a) == f(b) ==> a == b }

  ghost predicate Injective<R(!new)>(f: R -> R) { forall a, b :: SeparatesAt(f, a, b) }

  lemma {:induction false} IterateSum<R>(f: R -> R, x: R, m: nat, n: nat)
    ensures Iterate(f, x, m + n) == Iterate(f, Iterate(f, x, m), n)
    decreases m
  {
    if m > 0 {
      IterateSum(f, f(x), m - 1, n);
    }
  }

  lemma {:induction false} IterateLinear<R(!new)>(f: R -> R, add: (R, R) -> R, a: R, b: R, n: nat)
    requires Linear(f, add)
    ensures add(Iterate(f, a, n), Iterate(f, b, n)) == Iterate(f, add(a, b), n)
    decreases n
  {
    if n > 0 {
      assert AddsAt(f, add, a, b);
      IterateLinear(f, add, f(a), f(b), n - 1);
    }
  }

  lemma {:induction false} IterateInjective<R(!new)>(f: R -> R, a: R, b: R, n: nat)
    requires Injective(f) && Iterate(f, a, n) == Iterate(f, b, n)
    ensures a == b
    decreases n
  {
    if n > 0 {
      IterateInjective(f, f(a), f(b), n - 1);
      assert SeparatesAt(f, a, b);
    }
  }

  lemma Repeated<R(!new)>(f: R -> R, g: R -> R, add: (R, R) -> R, n: nat)
    requires Linear(f, add) && Injective(f)
    requires forall x :: g(x) == Iterate(f, x, n)
    ensures Linear(g, add) && Injective(g)
  {
    forall a, b ensures AddsAt(g, add, a, b) { IterateLinear(f, add, a, b, n); }
    forall a, b ensures SeparatesAt(g, a, b) {
      if g(a) == g(b) { IterateInjective(f, a, b, n); }
    }
  }

  lemma {:induction false} FeedConcat<R, B>(step: R -> R, mix: (R, B) -> R, x: R, a: seq<B>, b: seq<B>)
    ensures Feed(step, mix, x, a + b) == Feed(step, mix, Feed(step, mix, x, a), b)
    decreases a
  {
    if a == [] {
      assert a + b == b;
    } else {
      assert (a + b)[1..] == a[1..] + b;
      FeedConcat(step, mix, step(mix(x, a[0])), a[1..], b);
    }
  }

  predicate MixSeparatesAt<R(==), B>(mix: (R, B) -> R, x: R, y: R, b: B) { mix(x, b) == mix(y, b) ==> x == y }

  lemma {:induction false} FeedInjective<R(!new), B(!new)>(step: R -> R, mix: (R, B) -> R, x: R, y: R, data: seq<B>)
    requires Injective(step) && forall x, y, b :: MixSeparatesAt(mix, x, y, b)
    requires Feed(step, mix, x, data) == Feed(step, mix, y, data)
    ensures x == y
    decreases data
  {
    if data != [] {
      FeedInjective(step, mix, step(mix(x, data[0])), step(mix(y, data[0])), data[1..]);
      assert SeparatesAt(step, mix(x, data[0]), mix(y, data[0]));
      assert MixSeparatesAt(mix, x, y, data[0]);
    }
  }

  function Zip<B>(add: (B, B) -> B, a: seq<B>, b: seq<B>): (r: seq<B>)
    requires |a| == |b|
    ensures |r| == |a|
  {
    seq(|a|, i requires 0 <= i < |a| => add(a[i], b[i]))
  }

  predicate MixAddsAt<R(==), B>(mix: (R, B) -> R, add: (R, R) -> R, addB: (B, B) -> B, x: R, a: B, y: R, b: B) {
    add(mix(x, a), mix(y, b)) == mix(add(x, y), addB(a, b))
  }

  lemma {:induction false} FeedLinear<R(!new), B(!new)>(
      step: R -> R, mix: (R, B) -> R, add: (R, R) -> R, addB: (B, B) -> B, x: R, a: seq<B>, y: R, b: seq<B>)
    requires |a| == |b|
    requires Linear(step, add) && forall x, a, y, b :: MixAddsAt(mix, add, addB, x, a, y, b)
    ensures add(Feed(step, mix, x, a), Feed(step, mix, y, b)) == Feed(step, mix, add(x, y), Zip(addB, a, b))
    decreases a
  {
    if a != [] {
      assert MixAddsAt(mix, add, addB, x, a[0], y, b[0]);
      assert AddsAt(step, add, mix(x, a[0]), mix(y, b[0]));
      assert Zip(addB, a, b)[1..] == Zip(addB, a[1..], b[1..]);
      FeedLinear(step, mix, add, addB, step(mix(x, a[0])), a[1..], step(mix(y, b[0])), b[1..]);
    }
  }

  lemma FeedLinearThrice<R(!new), B(!new)>(
      step: R -> R, mix: (R, B) -> R, add: (R, R) -> R, addB: (B, B) -> B, x: R, a: seq<B>, b: seq<B>, c: seq<B>)
    requires |a| == |b| == |c|
    requires Linear(step, add) && forall x, a, y, b :: MixAddsAt(mix, add, addB, x, a, y, b)
    ensures add(add(Feed(step, mix, x, a), Feed(step, mix, x, b)), Feed(step, mix, x, c))
         == Feed(step, mix, add(add(x, x), x), Zip(addB, Zip(addB, a, b), c))
  {
    FeedLinear(step, mix, add, addB, x, a, x, b);
    FeedLinear(step, mix, add, addB, add(x, x), Zip(addB, a, b), x, c);
  }

  /** The first `n` items of a word, lowest first. */
  function Items<R, B>(low: R -> B, down: R -> R, w: R, n: nat): (r: seq<B>)
    ensures |r| == n
    decreases n
  {
    if n == 0 then [] else [low(w)] + Items(low, down, down(w), n - 1)
  }

  predicate AbsorbsAt<R(==), B>(
      step: R -> R, mix: (R, B) -> R, add: (R, R) -> R, low: R -> B, down: R -> R, x: R, w: R) {
    add(step(mix(x, low(w))), down(w)) == step(add(x, w))
  }

  /** If a step absorbs a word's lowest item as if the whole word had been added, so do `n` steps `n` items. */
  lemma {:induction false} FeedWord<R(!new), B>(
      step: R -> R, mix: (R, B) -> R, add: (R, R) -> R, low: R -> B, down: R -> R, x: R, w: R, n: nat)
    requires forall x, w :: AbsorbsAt(step, mix, add, low, down, x, w)
    ensures add(Feed(step, mix, x, Items(low, down, w, n)), Iterate(down, w, n)) == Iterate(step, add(x, w), n)
    decreases n
  {
    if n > 0 {
      var items := Items(low, down, w, n);
      assert items[1..] == Items(low, down, down(w), n - 1);
      assert AbsorbsAt(step, mix, add, low, down, x, w);
      FeedWord(step, mix, add, low, down, step(mix(x, low(w))), down(w), n - 1);
    }
  }
}

/** The bitwise CRC-32 of the device information store: what it detects, for buffers of every length. */
module Crc32 {
  import opened Register

  const POLYNOMIAL: bv32 := 0xEDB8_8320

  /** One turn of the inner loop. */
  function BitStep(crc: bv32): bv32 {
    if crc & 1 == 1 then (crc >> 1) ^ POLYNOMIAL else crc >> 1
  }

  /** The inner loop. */
  function ByteStep(crc: bv32): bv32 {
    Iterate(BitStep, crc, 8)
  }

  function Mix(crc: bv32, byte: bv8): bv32 {
    crc ^ (byte as bv32)
  }

  function Crc(data: seq<bv8>): bv32 {
    !Feed(ByteStep, Mix, 0xFFFF_FFFF, data)
  }

  // ---------------------------------------------------------------------------------------------
  // The code
  // ---------------------------------------------------------------------------------------------

  /** The source takes the bit step without a branch: `-(crc & 1)` is all ones or all zeros. */
  lemma BranchFree(crc: bv32)
    ensures (crc >> 1) ^ (POLYNOMIAL & (0 - (crc & 1))) == BitStep(crc)
  {
    Parity(crc);
    if crc & 1 == 1 {
      assert 0 - (crc & 1) == 0xFFFF_FFFF;
    } else {
      assert 0 - (crc & 1) == 0;
    }
  }

  /** The inner loop; `bitStep` is the bit step, passed in so that the loop is reasoned about without its bits. */
  method EightBits(start: bv32, ghost bitStep: bv32 -> bv32) returns (crc: bv32)
    requires forall x :: bitStep(x) == BitStep(x)
    ensures crc == Iterate(bitStep, start, 8)
  {
    crc := start;
    for j: nat := 0 to 8
      invariant Iterate(bitStep, crc, 8 - j) == Iterate(bitStep, start, 8)
    {
      BranchFree(crc);
      crc := (crc >> 1) ^ (POLYNOMIAL & (0 - (crc & 1)));
    }
  }

  method CalculateCrc(data: seq<bv8>) returns (r: bv32)
    ensures r == Crc(data)
  {
    var crc: bv32 := 0xFFFF_FFFF;
    for i := 0 to |data|
      invariant Feed(ByteStep, Mix, crc, data[i..]) == Feed(ByteStep, Mix, 0xFFFF_FFFF, data)
    {
      assert data[i..][1..] == data[i + 1..];
      crc := crc ^ (data[i] as bv32);
      crc := EightBits(crc, BitStep);
    }
    r := !crc;
  }

  method VerifyCrc(data: seq<bv8>, expected: bv32) returns (ok: bool)
    ensures ok <==> Crc(data) == expected
  {
    var calculated := CalculateCrc(data);
    ok := calculated == expected;
  }

  // ---------------------------------------------------------------------------------------------
  // The byte step is linear and injective
  // ---------------------------------------------------------------------------------------------

  function Add(a: bv32, b: bv32): bv32 { a ^ b }

  function AddByte(a: bv8, b: bv8): bv8 { a ^ b }

  lemma BothOdd(a: bv32, b: bv32)
    requires a & 1 == 1 && b & 1 == 1
    ensures BitStep(a) ^ BitStep(b) == BitStep(a ^ b)
  {
  }

  lemma OneOdd(a: bv32, b: bv32)
    requires a & 1 == 1 && b & 1 == 0
    ensures BitStep(a) ^ BitStep(b) == BitStep(a ^ b)
    ensures BitStep(b) ^ BitStep(a) == BitStep(b ^ a)
  {
  }

  lemma BothEven(a: bv32, b: bv32)
    requires a & 1 == 0 && b & 1 == 0
    ensures BitStep(a) ^ BitStep(b) == BitStep(a ^ b)
  {
  }

  lemma Parity(a: bv32)
    ensures a & 1 == 0 || a & 1 == 1
  {
  }

  lemma BitStepLinear(a: bv32, b: bv32)
    ensures AddsAt(BitStep, Add, a, b)
  {
    Parity(a);
    Parity(b);
    if a & 1 == 1 {
      if b & 1 == 1 { BothOdd(a, b); } else { OneOdd(a, b); }
    } else {
      if b & 1 == 1 { OneOdd(b, a); } else { BothEven(a, b); }
    }
  }

  /** The polynomial's top bit is set, so the top bit of the result tells which branch was taken. */
  lemma BitStepInjective(a: bv32, b: bv32)
    ensures SeparatesAt(BitStep, a, b)
  {
  }

  lemma ByteStepLinearInjective()
    ensures Linear(ByteStep, Add) && Injective(ByteStep)
  {
    assert Linear(BitStep, Add) by {
      forall a, b ensures AddsAt(BitStep, Add, a, b) { BitStepLinear(a, b); }
    }
    assert Injective(BitStep) by {
      forall a, b ensures SeparatesAt(BitStep, a, b) { BitStepInjective(a, b); }
    }
    Repeated(BitStep, ByteStep, Add, 8);
  }

  lemma MixProperties()
    ensures forall x, a, y, b :: MixAddsAt(Mix, Add, AddByte, x, a, y, b)
    ensures forall x, y, b :: MixSeparatesAt(Mix, x, y, b)
  {
    forall x, a, y, b ensures MixAddsAt(Mix, Add, AddByte, x, a, y, b) { XorBytes(x, a, y, b); }
    forall x, y, b ensures MixSeparatesAt(Mix, x, y, b) { XorCancels(x, y, b as bv32); }
  }

  lemma XorBytes(c1: bv32, x: bv8, c2: bv32, y: bv8)
    ensures (c1 ^ (x as bv32)) ^ (c2 ^ (y as bv32)) == (c1 ^ c2) ^ ((x ^ y) as bv32)
  {
  }

  lemma XorCancels(a: bv32, b: bv32, x: bv32)
    ensures a ^ x == b ^ x ==> a == b
  {
  }

  /** For equal lengths, the CRC of a bytewise sum of three buffers is the sum of their CRCs. */
  lemma AffineLaw(a: seq<bv8>, b: seq<bv8>, c: seq<bv8>)
    requires |a| == |b| == |c|
    ensures Crc(a) ^ Crc(b) ^ Crc(c) == Crc(Zip(AddByte, Zip(AddByte, a, b), c))
  {
    var ones: bv32 := 0xFFFF_FFFF;
    AffineFeed(ones, a, b, c);
    ComplementsCancel(Feed(ByteStep, Mix, ones, a), Feed(ByteStep, Mix, ones, b), Feed(ByteStep, Mix, ones, c));
  }

  lemma AffineFeed(x: bv32, a: seq<bv8>, b: seq<bv8>, c: seq<bv8>)
    requires |a| == |b| == |c|
    ensures (Feed(ByteStep, Mix, x, a) ^ Feed(ByteStep, Mix, x, b)) ^ Feed(ByteStep, Mix, x, c)
         == Feed(ByteStep, Mix, x, Zip(AddByte, Zip(AddByte, a, b), c))
  {
    ByteStepLinearInjective();
    MixProperties();
    FeedLinearThrice(ByteStep, Mix, Add, AddByte, x, a, b, c);
    AddThrice(x);
  }

  lemma AddThrice(x: bv32)
    ensures Add(Add(x, x), x) == x
  {
  }

  lemma ComplementsCancel(x: bv32, y: bv32, z: bv32)
    ensures !x ^ !y ^ !z == !((x ^ y) ^ z)
  {
  }

  // ---------------------------------------------------------------------------------------------
  // Feeding four bytes is one injective map of a 32-bit word
  // ---------------------------------------------------------------------------------------------

  function Low(w: bv32): bv8 { (w & 0xFF) as bv8 }

  function Down(w: bv32): bv32 { w >> 8 }

  /** The four bytes of a word, least significant first. */
  function Bytes(w: bv32): (r: seq<bv8>)
    ensures |r| == 4
  {
    Items(Low, Down, w, 4)
  }

  function Word(a: bv8, b: bv8, c: bv8, d: bv8): bv32 {
    (a as bv32) | ((b as bv32) << 8) | ((c as bv32) << 16) | ((d as bv32) << 24)
  }

  lemma BytesOfWord(s: seq<bv8>)
    requires |s| == 4
    ensures Bytes(Word(s[0], s[1], s[2], s[3])) == s
  {
    var w := Word(s[0], s[1], s[2], s[3]);
    WordBytes(s[0], s[1], s[2], s[3]);
    assert Items(Low, Down, w, 4)[1..] == Items(Low, Down, Down(w), 3);
    assert Items(Low, Down, Down(w), 3)[1..] == Items(Low, Down, Down(Down(w)), 2);
    assert Items(Low, Down, Down(Down(w)), 2)[1..] == Items(Low, Down, Down(Down(Down(w))), 1);
  }

  lemma WordBytes(a: bv8, b: bv8, c: bv8, d: bv8)
    ensures var w := Word(a, b, c, d);
            Low(w) == a && Low(Down(w)) == b && Low(Down(Down(w))) == c && Low(Down(Down(Down(w)))) == d
  {
  }

  lemma OneShift(v: bv32, n: nat)
    requires v & 1 == 0 && n > 0
    ensures Iterate(BitStep, v, n) == Iterate(BitStep, v >> 1, n - 1)
  {
  }

  lemma ShiftsOfAligned(w: bv32)
    ensures var v := w & 0xFFFF_FF00;
            && v & 1 == 0 && (v >> 1) & 1 == 0 && (v >> 2) & 1 == 0 && (v >> 3) & 1 == 0
            && (v >> 4) & 1 == 0 && (v >> 5) & 1 == 0 && (v >> 6) & 1 == 0 && (v >> 7) & 1 == 0
            && (v >> 1) >> 1 == v >> 2 && (v >> 2) >> 1 == v >> 3 && (v >> 3) >> 1 == v >> 4 && (v >> 4) >> 1 == v >> 5
            && (v >> 5) >> 1 == v >> 6 && (v >> 6) >> 1 == v >> 7 && (v >> 7) >> 1 == w >> 8
  {
  }

  /** Low zero bits are only shifted out. */
  lemma EightShifts(w: bv32)
    ensures ByteStep(w & 0xFFFF_FF00) == Down(w)
  {
    var v := w & 0xFFFF_FF00;
    ShiftsOfAligned(w);
    OneShift(v, 8);
    OneShift(v >> 1, 7);
    OneShift(v >> 2, 6);
    OneShift(v >> 3, 5);
    OneShift(v >> 4, 4);
    OneShift(v >> 5, 3);
    OneShift(v >> 6, 2);
    OneShift(v >> 7, 1);
  }

  lemma SplitWord(crc: bv32, w: bv32)
    ensures Add(Mix(crc, Low(w)), w & 0xFFFF_FF00) == Add(crc, w)
  {
  }

  lemma ByteStepAbsorbs(x: bv32, w: bv32)
    requires Linear(ByteStep, Add)
    ensures AbsorbsAt(ByteStep, Mix, Add, Low, Down, x, w)
  {
    EightShifts(w);
    SplitWord(x, w);
    assert AddsAt(ByteStep, Add, Mix(x, Low(w)), w & 0xFFFF_FF00);
  }

  lemma NothingLeft(w: bv32, x: bv32)
    ensures Iterate(Down, w, 4) == 0 && Add(x, 0) == x
  {
    assert Iterate(Down, w, 4) == Iterate(Down, Down(Down(w)), 2) == Down(Down(Down(Down(w))));
  }

  lemma FeedFourBytes(crc: bv32, w: bv32)
    ensures Feed(ByteStep, Mix, crc, Bytes(w)) == Iterate(ByteStep, Add(crc, w), 4)
  {
    ByteStepLinearInjective();
    forall x, w ensures AbsorbsAt(ByteStep, Mix, Add, Low, Down, x, w) { ByteStepAbsorbs(x, w); }
    FeedWord(ByteStep, Mix, Add, Low, Down, crc, w, 4);
    NothingLeft(w, Feed(ByteStep, Mix, crc, Bytes(w)));
  }

  lemma FourByteWindow(crc: bv32, a: seq<bv8>, b: seq<bv8>)
    requires |a| == |b| == 4
    requires Feed(ByteStep, Mix, crc, a) == Feed(ByteStep, Mix, crc, b)
    ensures a == b
  {
    var v, w := Word(a[0], a[1], a[2], a[3]), Word(b[0], b[1], b[2], b[3]);
    BytesOfWord(a);
    BytesOfWord(b);
    FeedFourBytes(crc, v);
    FeedFourBytes(crc, w);
    ByteStepLinearInjective();
    IterateInjective(ByteStep, Add(crc, v), Add(crc, w), 4);
    AddCancels(crc, v, w);
  }

  lemma AddCancels(x: bv32, a: bv32, b: bv32)
    ensures Add(x, a) == Add(x, b) ==> a == b
  {
  }

  // ---------------------------------------------------------------------------------------------
  // Detection
  // ---------------------------------------------------------------------------------------------

  /**
   * Two buffers that differ only inside a window of at most four consecutive bytes
   * have the same CRC exactly when they are the same buffer.
   */
  lemma DetectsShortWindows(before: seq<bv8>, a: seq<bv8>, b: seq<bv8>, after: seq<bv8>)
    requires |a| == |b| <= 4
    ensures Crc(before + a + after) == Crc(before + b + after) <==> a == b
  {
    var ones: bv32 := 0xFFFF_FFFF;
    var x := Feed(ByteStep, Mix, ones, before);
    var xa, xb := Feed(ByteStep, Mix, x, a), Feed(ByteStep, Mix, x, b);
    FeedConcat(ByteStep, Mix, ones, before, a);
    FeedConcat(ByteStep, Mix, ones, before, b);
    FeedConcat(ByteStep, Mix, ones, before + a, after);
    FeedConcat(ByteStep, Mix, ones, before + b, after);
    if Crc(before + a + after) == Crc(before + b + after) {
      ComplementInjective(Feed(ByteStep, Mix, xa, after), Feed(ByteStep, Mix, xb, after));
      ByteStepLinearInjective();
      MixProperties();
      FeedInjective(ByteStep, Mix, xa, xb, after);
      ShortWindow(x, a, b);
    }
  }

  lemma ComplementInjective(x: bv32, y: bv32)
    ensures !x == !y ==> x == y
  {
  }

  /** A window shorter than four bytes is padded: equal registers stay equal. */
  lemma ShortWindow(x: bv32, a: seq<bv8>, b: seq<bv8>)
    requires |a| == |b| <= 4
    requires Feed(ByteStep, Mix, x, a) == Feed(ByteStep, Mix, x, b)
    ensures a == b
  {
    var pad := seq(4 - |a|, i => 0 as bv8);
    FeedConcat(ByteStep, Mix, x, a, pad);
    FeedConcat(ByteStep, Mix, x, b, pad);
    FourByteWindow(x, a + pad, b + pad);
    assert a == (a + pad)[..|a|] && b == (b + pad)[..|b|];
  }

  // ---------------------------------------------------------------------------------------------
  // Bursts at any bit offset
  // ---------------------------------------------------------------------------------------------

  function MixBit(crc: bv32, bit: bool): bv32 { if bit then crc ^ 1 else crc }

  function LowBit(w: bv32): bool { w & 1 == 1 }

  function DownBit(w: bv32): bv32 { w >> 1 }

  /** A byte's bits in the order in which the inner loop takes them. */
  function BitsOfByte(b: bv8): (r: seq<bool>)
    ensures |r| == 8
  {
    Items(LowBit, DownBit, b as bv32, 8)
  }

  function Bits(data: seq<bv8>): seq<bool> {
    if data == [] then [] else BitsOfByte(data[0]) + Bits(data[1..])
  }

  lemma BitStepAbsorbs(x: bv32, w: bv32)
    ensures AbsorbsAt(BitStep, MixBit, Add, LowBit, DownBit, x, w)
  {
    Parity(w);
    if w & 1 == 1 { AbsorbOdd(x, w); } else { AbsorbEven(x, w); }
  }

  lemma AbsorbEven(x: bv32, w: bv32)
    requires w & 1 == 0
    ensures BitStep(x) ^ (w >> 1) == BitStep(x ^ w)
  {
  }

  lemma AbsorbOdd(x: bv32, w: bv32)
    requires w & 1 == 1
    ensures BitStep(x ^ 1) ^ (w >> 1) == BitStep(x ^ w)
  {
  }

  /** A word that fits `n` bits, fed bit by bit, is added at once. */
  lemma FeedBits(x: bv32, w: bv32, n: nat)
    requires Iterate(DownBit, w, n) == 0
    ensures Feed(BitStep, MixBit, x, Items(LowBit, DownBit, w, n)) == Iterate(BitStep, Add(x, w), n)
  {
    forall x, w ensures AbsorbsAt(BitStep, MixBit, Add, LowBit, DownBit, x, w) { BitStepAbsorbs(x, w); }
    FeedWord(BitStep, MixBit, Add, LowBit, DownBit, x, w, n);
    AddZero(Feed(BitStep, MixBit, x, Items(LowBit, DownBit, w, n)));
  }

  lemma AddZero(x: bv32)
    ensures Add(x, 0) == x
  {
  }

  lemma OneDown(w: bv32, n: nat)
    requires n > 0
    ensures Iterate(DownBit, w, n) == Iterate(DownBit, w >> 1, n - 1)
  {
  }

  lemma ShiftsAdd(w: bv32)
    ensures (w >> 1) >> 1 == w >> 2 && (w >> 2) >> 1 == w >> 3 && (w >> 3) >> 1 == w >> 4 && (w >> 4) >> 1 == w >> 5
    ensures (w >> 5) >> 1 == w >> 6 && (w >> 6) >> 1 == w >> 7 && (w >> 7) >> 1 == w >> 8
  {
  }

  lemma EightDown(w: bv32)
    ensures Iterate(DownBit, w, 8) == w >> 8
  {
    ShiftsAdd(w);
    OneDown(w, 8);
    OneDown(w >> 1, 7);
    OneDown(w >> 2, 6);
    OneDown(w >> 3, 5);
    OneDown(w >> 4, 4);
    OneDown(w >> 5, 3);
    OneDown(w >> 6, 2);
    OneDown(w >> 7, 1);
  }

  /** The loops over bytes feed the bits one after the other. */
  lemma {:induction false} FeedsBits(x: bv32, data: seq<bv8>)
    ensures Feed(ByteStep, Mix, x, data) == Feed(BitStep, MixBit, x, Bits(data))
    decreases data
  {
    if data != [] {
      var w := data[0] as bv32;
      EightDown(w);
      ByteFits(data[0]);
      FeedBits(x, w, 8);
      FeedConcat(BitStep, MixBit, x, BitsOfByte(data[0]), Bits(data[1..]));
      FeedsBits(ByteStep(Mix(x, data[0])), data[1..]);
    }
  }

  lemma ByteFits(b: bv8)
    ensures (b as bv32) >> 8 == 0
  {
  }

  lemma {:induction false} BitsInjective(a: seq<bv8>, b: seq<bv8>)
    requires |a| == |b| && Bits(a) == Bits(b)
    ensures a == b
    decreases a
  {
    if a != [] {
      assert Bits(a)[..8] == BitsOfByte(a[0]) && Bits(b)[..8] == BitsOfByte(b[0]);
      assert Bits(a)[8..] == Bits(a[1..]) && Bits(b)[8..] == Bits(b[1..]);
      SameBits(a[0], b[0]);
      BitsInjective(a[1..], b[1..]);
      assert a == [a[0]] + a[1..] && b == [b[0]] + b[1..];
    }
  }

  lemma SameBits(a: bv8, b: bv8)
    requires BitsOfByte(a) == BitsOfByte(b)
    ensures a == b
  {
    EightDown(a as bv32);
    EightDown(b as bv32);
    ByteFits(a);
    ByteFits(b);
    WordOfItems(0, a as bv32, b as bv32, 8);
    SameByte(a, b);
  }

  lemma SameByte(a: bv8, b: bv8)
    requires a as bv32 == b as bv32
    ensures a == b
  {
  }

  /** Words that fit `n` bits and leave the same register behind are the same word. */
  lemma WordOfItems(x: bv32, v: bv32, w: bv32, n: nat)
    requires Iterate(DownBit, v, n) == 0 && Iterate(DownBit, w, n) == 0
    requires Feed(BitStep, MixBit, x, Items(LowBit, DownBit, v, n))
          == Feed(BitStep, MixBit, x, Items(LowBit, DownBit, w, n))
    ensures v == w
  {
    FeedBits(x, v, n);
    FeedBits(x, w, n);
    BitStepInjectiveEverywhere();
    IterateInjective(BitStep, Add(x, v), Add(x, w), n);
    AddCancels(x, v, w);
  }

  function PutBelow(w: bv32, bit: bool): bv32 { if bit then (w << 1) | 1 else w << 1 }

  lemma PutBelowTaken(w: bv32, bit: bool)
    requires w >> 8 == 0
    ensures LowBit(PutBelow(w, bit)) == bit && DownBit(PutBelow(w, bit)) == w
  {
  }

  lemma {:induction false} ZeroStaysDown(n: nat)
    ensures Iterate(DownBit, 0, n) == 0
  {
    if n > 0 {
      assert DownBit(0) == 0;
      ZeroStaysDown(n - 1);
    }
  }

  /** A word that fits `n` bits, at most eight, leaves room for another bit below it. */
  lemma RoomBelow(w: bv32, n: nat, bit: bool)
    requires n <= 8 && Iterate(DownBit, w, n) == 0
    ensures w >> 8 == 0
    ensures LowBit(PutBelow(w, bit)) == bit && DownBit(PutBelow(w, bit)) == w
  {
    IterateSum(DownBit, w, n, 8 - n);
    ZeroStaysDown(8 - n);
    EightDown(w);
    PutBelowTaken(w, bit);
  }

  /** Any eight bits or fewer are the bits of a word. */
  lemma {:induction false} WordOfBits(bits: seq<bool>) returns (w: bv32)
    requires |bits| <= 8
    ensures Items(LowBit, DownBit, w, |bits|) == bits && Iterate(DownBit, w, |bits|) == 0
    decreases bits
  {
    if bits == [] {
      w := 0;
    } else {
      var rest := WordOfBits(bits[1..]);
      w := PutBelow(rest, bits[0]);
      RoomBelow(rest, |bits| - 1, bits[0]);
      assert bits == [bits[0]] + bits[1..];
    }
  }

  lemma ByteOfBits(bits: seq<bool>) returns (b: bv8)
    requires |bits| == 8
    ensures BitsOfByte(b) == bits
  {
    var w := WordOfBits(bits);
    RoomBelow(w, 8, false);
    b := ByteOfWord(w);
  }

  lemma ByteOfWord(w: bv32) returns (b: bv8)
    requires w >> 8 == 0
    ensures b as bv32 == w
  {
    b := (w & 0xFF) as bv8;
  }

  /** Any whole number of eight bits are the bits of bytes. */
  lemma {:induction false} BytesOfBits(s: seq<bool>) returns (bytes: seq<bv8>)
    requires |s| % 8 == 0
    ensures |bytes| == |s| / 8 && Bits(bytes) == s
    decreases s
  {
    if s == [] {
      bytes := [];
    } else {
      var rest := BytesOfBits(s[8..]);
      var first := ByteOfBits(s[..8]);
      bytes := [first] + rest;
      assert bytes[1..] == rest;
      assert s == s[..8] + s[8..];
    }
  }

  lemma BitStepInjectiveEverywhere()
    ensures Injective(BitStep)
  {
    forall a, b ensures SeparatesAt(BitStep, a, b) { BitStepInjective(a, b); }
  }

  lemma MixBitSeparates()
    ensures forall x, y, b :: MixSeparatesAt(MixBit, x, y, b)
  {
    forall x, y, b ensures MixSeparatesAt(MixBit, x, y, b) { XorCancels(x, y, 1); }
  }

  /**
   * Burst errors. Two buffers whose bits, in the order in which the register takes them, differ only inside a window of
   * at most 32 consecutive bits, wherever it starts and ends, have the same CRC exactly when they are the same buffer.
   */
  lemma DetectsBursts(a: seq<bv8>, b: seq<bv8>, before: seq<bool>, u: seq<bool>, v: seq<bool>, after: seq<bool>)
    requires |a| == |b| && |u| == |v| <= 32
    requires Bits(a) == before + u + after && Bits(b) == before + v + after
    ensures Crc(a) == Crc(b) <==> a == b
  {
    var ones: bv32 := 0xFFFF_FFFF;
    if Crc(a) == Crc(b) {
      ComplementInjective(Feed(ByteStep, Mix, ones, a), Feed(ByteStep, Mix, ones, b));
      FeedsBits(ones, a);
      FeedsBits(ones, b);
      BurstSeparates(ones, before, u, v, after);
      BitsInjective(a, b);
    }
  }

  lemma BurstSeparates(start: bv32, before: seq<bool>, u: seq<bool>, v: seq<bool>, after: seq<bool>)
    requires |u| == |v| <= 32
    requires Feed(BitStep, MixBit, start, before + u + after) == Feed(BitStep, MixBit, start, before + v + after)
    ensures u == v
  {
    var x := Feed(BitStep, MixBit, start, before);
    FeedConcat(BitStep, MixBit, start, before, u);
    FeedConcat(BitStep, MixBit, start, before, v);
    FeedConcat(BitStep, MixBit, start, before + u, after);
    FeedConcat(BitStep, MixBit, start, before + v, after);
    BitStepInjectiveEverywhere();
    MixBitSeparates();
    FeedInjective(BitStep, MixBit, Feed(BitStep, MixBit, x, u), Feed(BitStep, MixBit, x, v), after);
    ShortBurst(x, u, v);
  }

  /** Padded to 32 bits the window is four bytes, wherever it starts in the buffer. */
  lemma ShortBurst(x: bv32, u: seq<bool>, v: seq<bool>)
    requires |u| == |v| <= 32
    requires Feed(BitStep, MixBit, x, u) == Feed(BitStep, MixBit, x, v)
    ensures u == v
  {
    var pad := seq(32 - |u|, i => false);
    FeedConcat(BitStep, MixBit, x, u, pad);
    FeedConcat(BitStep, MixBit, x, v, pad);
    var a := BytesOfBits(u + pad);
    var b := BytesOfBits(v + pad);
    FeedsBits(x, a);
    FeedsBits(x, b);
    FourByteWindow(x, a, b);
    assert u == (u + pad)[..|u|] && v == (v + pad)[..|v|];
  }

  lemma {:induction false} BitsLength(data: seq<bv8>)
    ensures |Bits(data)| == 8 * |data|
    decreases data
  {
    if data != [] {
      BitsLength(data[1..]);
    }
  }

  /** A bit and then a word: the register after the bit, the word added, and four byte steps. */
  lemma FeedBitAndWord(x: bv32, bit: bool, w: bv32)
    ensures Feed(BitStep, MixBit, x, [bit] + Bits(Bytes(w))) == Iterate(ByteStep, Add(BitStep(MixBit(x, bit)), w), 4)
  {
    assert ([bit] + Bits(Bytes(w)))[1..] == Bits(Bytes(w));
    FeedsBits(BitStep(MixBit(x, bit)), Bytes(w));
    FeedFourBytes(BitStep(MixBit(x, bit)), w);
  }

  /** Taking the polynomial into account, a flipped bit can be made up for. */
  lemma MadeUp(x: bv32)
    ensures Add(BitStep(MixBit(x, false)), 0) == Add(BitStep(MixBit(x, true)), POLYNOMIAL)
  {
    Parity(x);
    if x & 1 == 1 {
      assert (x ^ 1) & 1 == 0 && (x ^ 1) >> 1 == x >> 1;
    } else {
      assert (x ^ 1) & 1 == 1 && (x ^ 1) >> 1 == x >> 1;
    }
  }

  lemma WindowsMeet(x: bv32, v: bv32, w: bv32)
    requires Add(BitStep(MixBit(x, false)), v) == Add(BitStep(MixBit(x, true)), w)
    ensures Feed(BitStep, MixBit, x, [false] + Bits(Bytes(v))) == Feed(BitStep, MixBit, x, [true] + Bits(Bytes(w)))
  {
    FeedBitAndWord(x, false, v);
    FeedBitAndWord(x, true, w);
  }

  lemma BuffersMeet(x: bv32, u: seq<bool>, v: seq<bool>, after: seq<bool>, a: seq<bv8>, b: seq<bv8>)
    requires Feed(BitStep, MixBit, x, u) == Feed(BitStep, MixBit, x, v)
    requires Bits(a) == u + after && Bits(b) == v + after
    ensures Feed(ByteStep, Mix, x, a) == Feed(ByteStep, Mix, x, b)
  {
    FeedConcat(BitStep, MixBit, x, u, after);
    FeedConcat(BitStep, MixBit, x, v, after);
    FeedsBits(x, a);
    FeedsBits(x, b);
  }

  lemma Flipped(bit: bool, w: bv32) returns (window: seq<bool>)
    ensures |window| == 33 && window[0] == bit && window == [bit] + Bits(Bytes(w))
  {
    BitsLength(Bytes(w));
    window := [bit] + Bits(Bytes(w));
  }

  /** Two different buffers that differ in 33 bits only and leave the same register behind. */
  lemma BurstAt(x: bv32, p: bv32, zero: bv32)
    returns (a: seq<bv8>, b: seq<bv8>, u: seq<bool>, v: seq<bool>, after: seq<bool>)
    requires p == POLYNOMIAL && zero == 0
    ensures |a| == |b| && |u| == |v| == 33
    ensures Bits(a) == u + after && Bits(b) == v + after
    ensures a != b && Feed(ByteStep, Mix, x, a) == Feed(ByteStep, Mix, x, b)
  {
    after := seq(7, i => false);
    u := Flipped(false, zero);
    v := Flipped(true, p);
    a := BytesOfBits(u + after);
    b := BytesOfBits(v + after);
    assert (u + after)[0] != (v + after)[0];
    MadeUp(x);
    WindowsMeet(x, zero, p);
    BuffersMeet(x, u, v, after, a, b);
  }

  lemma CrcOf(data: seq<bv8>, x: bv32)
    requires x == Feed(ByteStep, Mix, 0xFFFF_FFFF, data)
    ensures Crc(data) == !x
  {
  }

  /** The bound of 32 bits is tight: a burst of 33, the generator polynomial itself, goes unnoticed. */
  lemma BurstOf33Escapes() returns (a: seq<bv8>, b: seq<bv8>, u: seq<bool>, v: seq<bool>, after: seq<bool>)
    ensures |a| == |b| && |u| == |v| == 33
    ensures Bits(a) == u + after && Bits(b) == v + after
    ensures a != b && Crc(a) == Crc(b)
  {
    a, b, u, v, after := BurstAt(0xFFFF_FFFF, POLYNOMIAL, 0);
    var x := Feed(ByteStep, Mix, 0xFFFF_FFFF, a);
    CrcOf(a, x);
    CrcOf(b, x);
  }

  predicate DifferInBurst(
      n: nat, a: seq<bv8>, b: seq<bv8>, before: seq<bool>, u: seq<bool>, v: seq<bool>, after: seq<bool>) {
    |a| == |b| && |u| == |v| <= n && Bits(a) == before + u + after && Bits(b) == before + v + after
  }

  ghost predicate DetectsBurstsUpTo(n: nat) {
    forall a, b, before, u, v, after :: DifferInBurst(n, a, b, before, u, v, after) && Crc(a) == Crc(b) ==> a == b
  }

  /** All bursts up to a length are detected exactly for lengths up to 32 bits. */
  lemma DetectsBurstsExactlyWhen(n: nat)
    ensures DetectsBurstsUpTo(n) <==> n <= 32
  {
    if n <= 32 {
      forall a, b, before, u, v, after | DifferInBurst(n, a, b, before, u, v, after) && Crc(a) == Crc(b)
        ensures a == b
      {
        DetectsBursts(a, b, before, u, v, after);
      }
    } else {
      var a, b, u, v, after := BurstOf33Escapes();
      assert [] + u == u && [] + v == v;
      assert DifferInBurst(n, a, b, [], u, v, after);
    }
  }

  /**
   * A buffer followed by its own CRC (the complement of register `x`), least significant byte first,
   * always leaves the same register behind: that of four zero bytes.
   */
  lemma ResidueIsConstant(data: seq<bv8>, x: bv32)
    requires x == Feed(ByteStep, Mix, 0xFFFF_FFFF, data)
    ensures Crc(data) == !x
    ensures Feed(ByteStep, Mix, 0xFFFF_FFFF, data + Bytes(!x)) == Feed(ByteStep, Mix, 0xFFFF_FFFF, Bytes(0))
  {
    ResidueFeed(x);
    FeedConcat(ByteStep, Mix, 0xFFFF_FFFF, data, Bytes(!x));
  }

  lemma ResidueFeed(x: bv32)
    ensures Feed(ByteStep, Mix, x, Bytes(!x)) == Feed(ByteStep, Mix, 0xFFFF_FFFF, Bytes(0))
  {
    FeedFourBytes(x, !x);
    FeedFourBytes(0xFFFF_FFFF, 0);
    ComplementAdds(x);
  }

  lemma ComplementAdds(x: bv32)
    ensures Add(x, !x) == Add(0xFFFF_FFFF, 0)
  {
  }

  // ---------------------------------------------------------------------------------------------
  // The check value
  // ---------------------------------------------------------------------------------------------

  lemma FeedOne(x: bv32, y: bv32, data: seq<bv8>)
    requires data != [] && ByteStep(Mix(x, data[0])) == y
    ensures Feed(ByteStep, Mix, x, data) == Feed(ByteStep, Mix, y, data[1..])
  {
  }

  /** The register over the digits 1 to 9. */
  lemma Digits123()
    ensures ByteStep(Mix(0xFFFF_FFFF, 0x31)) == 0x7C23_1048
    ensures ByteStep(Mix(0x7C23_1048, 0x32)) == 0xB0AC_BB32
    ensures ByteStep(Mix(0xB0AC_BB32, 0x33)) == 0x77B7_9C2D
  {
  }

  lemma Digits456()
    ensures ByteStep(Mix(0x77B7_9C2D, 0x34)) == 0x641C_1F5C
    ensures ByteStep(Mix(0x641C_1F5C, 0x35)) == 0x340A_C5E3
    ensures ByteStep(Mix(0x340A_C5E3, 0x36)) == 0xF68D_2C9E
  {
  }

  lemma Digits789()
    ensures ByteStep(Mix(0xF68D_2C9E, 0x37)) == 0xAFFC_9660
    ensures ByteStep(Mix(0xAFFC_9660, 0x38)) == 0x651F_2550
    ensures ByteStep(Mix(0x651F_2550, 0x39)) == 0x340B_C6D9
  {
  }

  /** The published check value of this CRC-32: that of the nine digits "123456789". */
  lemma CheckValue()
    ensures Crc([0x31, 0x32, 0x33, 0x34, 0x35, 0x36, 0x37, 0x38, 0x39]) == 0xCBF4_3926
  {
    Digits123();
    Digits456();
    Digits789();
    var d: seq<bv8> := [0x31, 0x32, 0x33, 0x34, 0x35, 0x36, 0x37, 0x38, 0x39];
    FeedOne(0xFFFF_FFFF, 0x7C23_1048, d[0..]);
    FeedOne(0x7C23_1048, 0xB0AC_BB32, d[1..]);
    FeedOne(0xB0AC_BB32, 0x77B7_9C2D, d[2..]);
    FeedOne(0x77B7_9C2D, 0x641C_1F5C, d[3..]);
    FeedOne(0x641C_1F5C, 0x340A_C5E3, d[4..]);
    FeedOne(0x340A_C5E3, 0xF68D_2C9E, d[5..]);
    FeedOne(0xF68D_2C9E, 0xAFFC_9660, d[6..]);
    FeedOne(0xAFFC_9660, 0x651F_2550, d[7..]);
    FeedOne(0x651F_2550, 0x340B_C6D9, d[8..]);
  }
}
