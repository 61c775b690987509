/** The words of the shift register of section 8 of RFC 1952, and one step of it. */
module ShiftRegister {

  const POLYNOMIAL: bv32 := 0xEDB8_8320
  function Xor(a: bv32, b: bv32): bv32 { a ^ b }

  function Low(c: bv32): bool { c & 1 == 1 }

  function Half(c: bv32): bv32 { c >> 1 }

  function Feedback(c: bv32, on: bool): bv32 { if on then c ^ POLYNOMIAL else c }

  /** The register moves right by one place; the bit that falls out, added to the message bit, feeds the polynomial
      back. */
  function ShiftIn(c: bv32, bit: bool): bv32 { Feedback(Half(c), Low(c) != bit) }

  function Step(c: bv32): bv32 { ShiftIn(c, false) }

  lemma XorParts(a: bv32, b: bv32)
    ensures Low(Xor(a, b)) == (Low(a) != Low(b))
    ensures Half(Xor(a, b)) == Xor(Half(a), Half(b))
  {}

  lemma FeedBoth(h: bv32, i: bv32)
    ensures Xor(Feedback(h, true), Feedback(i, true)) == Xor(h, i)
  {}

  lemma FeedLeft(h: bv32, i: bv32)
    ensures Xor(Feedback(h, true), i) == Feedback(Xor(h, i), true)
  {}

  lemma FeedRight(h: bv32, i: bv32)
    ensures Xor(h, Feedback(i, true)) == Feedback(Xor(h, i), true)
  {}

  lemma FeedNone(h: bv32)
    ensures Feedback(h, false) == h
  {}

  lemma Fed(a: bv32, bit: bool, on: bool)
    requires on == (Low(a) != bit)
    ensures ShiftIn(a, bit) == Feedback(Half(a), on)
  {}

  /** Adding two registers and their bits adds what they become. */
  lemma ShiftInIsLinear(a: bv32, b: bv32, p: bool, q: bool)
    ensures Xor(ShiftIn(a, p), ShiftIn(b, q)) == ShiftIn(Xor(a, b), p != q)
  {
    XorParts(a, b);
    if Low(a) != p {
      Fed(a, p, true);
      if Low(b) != q {
        Fed(b, q, true); Fed(Xor(a, b), p != q, false); FeedBoth(Half(a), Half(b)); FeedNone(Half(Xor(a, b)));
      } else {
        Fed(b, q, false); Fed(Xor(a, b), p != q, true); FeedLeft(Half(a), Half(b)); FeedNone(Half(b));
      }
    } else {
      Fed(a, p, false); FeedNone(Half(a));
      if Low(b) != q {
        Fed(b, q, true); Fed(Xor(a, b), p != q, true); FeedRight(Half(a), Half(b));
      } else {
        Fed(b, q, false); Fed(Xor(a, b), p != q, false); FeedNone(Half(b)); FeedNone(Half(Xor(a, b)));
      }
    }
  }

  lemma StepIsLinear(a: bv32, b: bv32)
    ensures Step(Xor(a, b)) == Xor(Step(a), Step(b))
  {
    ShiftInIsLinear(a, b, false, false);
  }

  lemma LowBitsClear(c: bv32)
    requires c & 15 == 0
    ensures !Low(c) && !Low(c >> 1) && !Low(c >> 2) && !Low(c >> 3)
  {}

  lemma FourShifts(c: bv32)
    ensures Half(c) == c >> 1 && Half(c >> 1) == c >> 2 && Half(c >> 2) == c >> 3 && Half(c >> 3) == c >> 4
  {}

  lemma PlainStep(c: bv32, h: bv32)
    requires !Low(c) && h == Half(c)
    ensures Step(c) == h
  {}

  lemma SplitByte(c: bv32)
    ensures c == Xor(c & 0xFFFF_FF00, c & 255)
    ensures (c & 0xFFFF_FF00) & 255 == 0
    ensures (c & 0xFFFF_FF00) >> 8 == c >> 8
  {}

  lemma BitIntoWord(c: bv32, w: bv32)
    ensures Xor(ShiftIn(c, Low(w)), Half(w)) == Step(Xor(c, w))
  {
    XorParts(c, w);
    Fed(Xor(c, w), false, Low(Xor(c, w)));
    if Low(c) != Low(w) {
      Fed(c, Low(w), true); FeedLeft(Half(c), Half(w));
    } else {
      Fed(c, Low(w), false); FeedNone(Half(c)); FeedNone(Half(Xor(c, w)));
    }
  }

  lemma XorZero(c: bv32)
    ensures Xor(c, 0) == c && Xor(c, c) == 0
  {}

  lemma HighBytes(c: bv32, b: bv8)
    ensures Xor(c, b as bv32) >> 8 == c >> 8
  {}

  lemma LowByte(c: bv32)
    ensures c & 255 < 256
  {}

  lemma Index(k: bv32)
    requires k < 256
    ensures k as int < 256 && (k as int) as bv32 == k
  {}

  lemma ShiftInIsInjective(a: bv32, b: bv32, bit: bool)
    requires ShiftIn(a, bit) == ShiftIn(b, bit)
    ensures a == b
  {}

  lemma HighBit(c: bv32, bit: bool)
    ensures ShiftIn(c, bit) & 0x8000_0000 != 0 <==> Low(c) != bit
  {}

  lemma SameXor(a: bv32, b: bv32, p: bv32)
    requires a ^ p == b ^ p
    ensures a == b
  {}

  lemma LastBit(c: bv32, d: bv32)
    requires d == ((((((c >> 4) >> 4) >> 4) >> 4) >> 4) >> 4) >> 4
    requires Half(Half(Half(d))) == 0
    ensures c & 0x8000_0000 == 0
  {}
}

/** The table-driven CRC-32 of section 8 of RFC 1952 against the shift register that takes one bit at a time.
    JavaScript's bit operators work on 32-bit words, so a word is a bv32; only the final result is read as a signed
    number. */
module Crc32 {
  import opened Folds
  import opened ShiftRegister

  const ALL_ONES: bv32 := 0xFFFF_FFFF

  // ----- The reference: one bit at a time -----

  /** The bits of a byte, the least significant first. */
  ghost function Bits(b: bv8): seq<bool> { LowBits(Low, Half, b as bv32, 8) }

  ghost function MessageBits(bytes: seq<bv8>): seq<bool> { FlatMap(Bits, bytes) }

  ghost function Register(c: bv32, bits: seq<bool>): bv32 { Fold(ShiftIn, c, bits) }

  /** The CRC-32 of a message. */
  ghost function Crc(bytes: seq<bv8>): bv32 {
    Register(ALL_ONES, MessageBits(bytes)) ^ ALL_ONES
  }

  // ----- Eight steps are one table lookup -----

  ghost function ByteStep(c: bv32, b: bv8): bv32 { Iterate(Step, Xor(c, b as bv32), 8) }

  lemma StepsAreLinear(a: bv32, b: bv32, k: nat)
    ensures Iterate(Step, Xor(a, b), k) == Xor(Iterate(Step, a, k), Iterate(Step, b, k))
  {
    forall a, b ensures Step(Xor(a, b)) == Xor(Step(a), Step(b)) { StepIsLinear(a, b); }
    IterateIsLinear(Step, Xor, a, b, k);
  }

  lemma FourPlainSteps(c: bv32)
    requires c & 15 == 0
    ensures Iterate(Step, c, 4) == c >> 4
  {
    FourIterates(Step, c);
    FourShifts(c);
    LowBitsClear(c);
    PlainStep(c, c >> 1); PlainStep(c >> 1, c >> 2); PlainStep(c >> 2, c >> 3); PlainStep(c >> 3, c >> 4);
  }

  lemma EightPlainSteps(c: bv32)
    requires c & 255 == 0
    ensures Iterate(Step, c, 8) == c >> 8
  {
    IteratesAdd(Step, c, 4, 4);
    FourPlainSteps(c);
    FourPlainSteps(c >> 4);
  }

  /** Eight register steps are the entry for the low byte, added to the other bytes moved down. */
  lemma TableStep(c: bv32)
    ensures Iterate(Step, c, 8) == Xor(c >> 8, Iterate(Step, c & 255, 8))
  {
    SplitByte(c);
    StepsOfParts(c, c & 0xFFFF_FF00, c & 255, c >> 8);
  }

  lemma StepsOfParts(c: bv32, high: bv32, low: bv32, top: bv32)
    requires c == Xor(high, low) && high & 255 == 0 && high >> 8 == top
    ensures Iterate(Step, c, 8) == Xor(top, Iterate(Step, low, 8))
  {
    StepsAreLinear(high, low, 8);
    EightPlainSteps(high);
  }

  lemma ByteIsGone(b: bv8)
    ensures Iterate(Half, b as bv32, 8) == 0
  {
    var w := b as bv32;
    IteratesAdd(Half, w, 4, 4);
    FourIterates(Half, w);
    FourShifts(w);
    FourIterates(Half, w >> 4);
    FourShifts(w >> 4);
    assert (w >> 4) >> 4 == 0;
  }

  /** Feeding the bits of a byte one by one is eight steps of the register with the byte added. */
  lemma ByteOfBits(c: bv32, b: bv8)
    ensures Register(c, Bits(b)) == ByteStep(c, b)
  {
    forall c, w ensures Xor(ShiftIn(c, Low(w)), Half(w)) == Step(Xor(c, w)) { BitIntoWord(c, w); }
    BitsOfWord(ShiftIn, Step, Xor, Low, Half, c, b as bv32, 8);
    ByteIsGone(b);
    XorZero(Fold(ShiftIn, c, Bits(b)));
  }

  lemma MessageOfBits(c: bv32, bytes: seq<bv8>)
    ensures Register(c, MessageBits(bytes)) == Fold(ByteStep, c, bytes)
  {
    forall c, b ensures Fold(ShiftIn, c, Bits(b)) == ByteStep(c, b) { ByteOfBits(c, b); }
    FoldOfParts(ShiftIn, Bits, ByteStep, c, bytes);
  }

  // ----- The program -----

  ghost predicate IsTable(table: seq<bv32>) {
    |table| == 256 && AllIndexed(IsEntryAt, table)
  }

  ghost predicate IsEntry(n: bv32, c: bv32) { c == Iterate(Step, n, 8) }

  ghost predicate IsEntryAt(n: int, c: bv32) { 0 <= n < 256 && IsEntry(n as bv32, c) }

  method BuildTable() returns (table: seq<bv32>)
    ensures IsTable(table)
  {
    table := [];
    for n := 0 to 256
      invariant |table| == n && AllIndexed(IsEntryAt, table)
    {
      var c := TableEntry(n as bv32);
      OneMoreIndexed(IsEntryAt, table, c);
      table := table + [c];
    }
  }

  method TableEntry(n: bv32) returns (c: bv32)
    ensures IsEntry(n, c)
  {
    c := n;
    for k := 0 to 8
      invariant c == Iterate(Step, n, k)
    {
      IterateNext(Step, n, k);
      c := if c & 1 != 0 then (c >> 1) ^ 0xEDB8_8320 else c >> 1;
    }
  }

  lemma Entry(table: seq<bv32>, k: bv32)
    requires IsTable(table) && k < 256
    ensures k as int < 256 && table[k] == Iterate(Step, k, 8)
  {
    Index(k);
    assert IsEntryAt(k as int, table[k as int]);
  }

  lemma TableLookup(table: seq<bv32>, c: bv32, b: bv8, x: bv32, k: bv32)
    requires IsTable(table) && x == Xor(c, b as bv32) && k == x & 255
    ensures k as int < 256 && Xor(c >> 8, table[k]) == ByteStep(c, b)
  {
    HighBytes(c, b);
    TableStep(x);
    LowByte(x);
    Entry(table, k);
  }

  /** A bv32 read as JavaScript reads the result of a bit operator. */
  function Signed(c: bv32): int {
    if c < 0x8000_0000 then c as int else c as int - 0x1_0000_0000
  }

  function NextCrc(table: seq<bv32>, crc: bv32, b: bv8): (r: bv32)
    requires |table| == 256
    ensures IsTable(table) ==> r == ByteStep(crc, b)
  {
    var k := (crc ^ (b as bv32)) & 255;
    LowByte(crc ^ (b as bv32));
    Index(k);
    assert IsTable(table) ==> Xor(crc >> 8, table[k]) == ByteStep(crc, b) by {
      if IsTable(table) { TableLookup(table, crc, b, crc ^ (b as bv32), k); }
    }
    Xor(crc >> 8, table[k])
  }

  /** The loop of jsCrc32Run over the bytes, for the step that the table implements. */
  method Update(table: seq<bv32>, ghost step: (bv32, bv8) -> bv32, buf: seq<bv8>) returns (crc: bv32)
    requires |table| == 256 && forall c, b :: NextCrc(table, c, b) == step(c, b)
    ensures crc == Fold(step, 0xFFFF_FFFF, buf)
  {
    crc := 0xFFFF_FFFF;
    for i := 0 to |buf|
      invariant crc == Fold(step, 0xFFFF_FFFF, buf[..i])
    {
      assert buf[..i + 1] == buf[..i] + [buf[i]];
      FoldNext(step, 0xFFFF_FFFF, buf[..i], buf[i]);
      crc := NextCrc(table, crc, buf[i]);
    }
    assert buf[..|buf|] == buf;
  }

  /** jsCrc32Run on any bytes. */
  method RunCrc32(buf: seq<bv8>) returns (checksum: int)
    ensures checksum == Signed(Crc(buf))
  {
    var table := BuildTable();
    var crc := Update(table, ByteStep, buf);
    MessageOfBits(ALL_ONES, buf);
    checksum := Signed(crc ^ 0xFFFF_FFFF);
  }

  // ----- What the checksum detects -----

  /** The checksum of the one byte 97, the letter a: it fixes the polynomial, its bit order, the first value of the
      register and the last complement. */
  lemma CrcOfOneByte(message: seq<bv8>)
    requires message == [97]
    ensures Crc(message) == 0xE8B7_BE43
  {
    FlatMapOne(Bits, message, 97);
    ByteOfBits(ALL_ONES, 97);
    EightSteps(Xor(ALL_ONES, 97));
    StepsOfA();
  }

  lemma EightSteps(c: bv32)
    ensures Iterate(Step, c, 8) == Step(Step(Step(Step(Step(Step(Step(Step(c))))))))
  {
    IteratesAdd(Step, c, 4, 4);
    FourIterates(Step, c);
    FourIterates(Step, Step(Step(Step(Step(c)))));
  }

  lemma StepsOfA()
    ensures Xor(ALL_ONES, 97) == 0xFFFFFF9E
    ensures Step(0xFFFFFF9E) == 0x7FFFFFCF
    ensures Step(0x7FFFFFCF) == 0xD2477CC7
    ensures Step(0xD2477CC7) == 0x849B3D43
    ensures Step(0x849B3D43) == 0xAFF51D81
    ensures Step(0xAFF51D81) == 0xBA420DE0
    ensures Step(0xBA420DE0) == 0x5D2106F0
    ensures Step(0x5D2106F0) == 0x2E908378
    ensures Step(0x2E908378) == 0x174841BC
  {}

  lemma {:induction false} HalvesOfZero(k: nat)
    ensures Iterate(Half, 0, k) == 0
  {
    if k > 0 {
      assert Half(0) == 0;
      HalvesOfZero(k - 1);
    }
  }

  lemma FourHalves(c: bv32)
    ensures Iterate(Half, c, 4) == c >> 4
  {
    FourIterates(Half, c);
    FourShifts(c);
  }

  lemma FourMoreHalves(c: bv32, j: nat, d: bv32)
    requires Iterate(Half, c, j) == d
    ensures Iterate(Half, c, j + 4) == d >> 4
  {
    IteratesAdd(Half, c, j, 4);
    FourHalves(d);
  }

  lemma TwentyEightHalves(c: bv32, d1: bv32, d2: bv32, d3: bv32, d4: bv32, d5: bv32, d6: bv32, d7: bv32)
    requires d1 == c >> 4 && d2 == d1 >> 4 && d3 == d2 >> 4 && d4 == d3 >> 4
    requires d5 == d4 >> 4 && d6 == d5 >> 4 && d7 == d6 >> 4
    ensures Iterate(Half, c, 28) == d7
  {
    FourHalves(c);
    FourMoreHalves(c, 4, d1);
    FourMoreHalves(c, 8, d2);
    FourMoreHalves(c, 12, d3);
    FourMoreHalves(c, 16, d4);
    FourMoreHalves(c, 20, d5);
    FourMoreHalves(c, 24, d6);
  }

  /** A word that is used up before its last bit has its highest bit clear. */
  lemma ShortWord(c: bv32, k: nat)
    requires k <= 31 && Iterate(Half, c, k) == 0
    ensures c & 0x8000_0000 == 0
  {
    IteratesAdd(Half, c, k, 31 - k);
    HalvesOfZero(31 - k);
    IteratesAdd(Half, c, 28, 3);
    var d1 := c >> 4; var d2 := d1 >> 4; var d3 := d2 >> 4; var d4 := d3 >> 4; var d5 := d4 >> 4; var d6 := d5 >> 4;
    var d := d6 >> 4;
    TwentyEightHalves(c, d1, d2, d3, d4, d5, d6, d);
    assert Iterate(Half, d, 3) == Iterate(Half, Half(d), 2) == Iterate(Half, Half(Half(d)), 1) == Half(Half(Half(d)));
    LastBit(c, d);
  }

  /** A register that at most 32 bits bring to zero holds no more than that many bits itself. */
  lemma {:induction false} BroughtToZero(c: bv32, bits: seq<bool>)
    requires |bits| <= 32 && Register(c, bits) == 0
    ensures Iterate(Half, c, |bits|) == 0
    ensures bits != [] ==> Low(c) == bits[0] && ShiftIn(c, bits[0]) == Half(c)
    decreases |bits|
  {
    if bits != [] {
      BroughtToZero(ShiftIn(c, bits[0]), bits[1..]);
      ShortWord(ShiftIn(c, bits[0]), |bits| - 1);
      HighBit(c, bits[0]);
    }
  }

  lemma {:induction false} OnlyZerosKeepZero(c: bv32, bits: seq<bool>)
    requires c == 0 && |bits| <= 32 && Register(c, bits) == 0
    ensures forall i :: 0 <= i < |bits| ==> !bits[i]
    decreases |bits|
  {
    if bits != [] {
      BroughtToZero(c, bits);
      OnlyZerosKeepZero(ShiftIn(c, bits[0]), bits[1..]);
    }
  }

  lemma SumOfRegisters(c: bv32, x: seq<bool>, y: seq<bool>)
    requires |x| == |y|
    ensures Xor(Register(c, x), Register(c, y)) == Register(Xor(c, c), Differences(x, y))
  {
    forall a, b, p, q ensures Xor(ShiftIn(a, p), ShiftIn(b, q)) == ShiftIn(Xor(a, b), p != q) {
      ShiftInIsLinear(a, b, p, q);
    }
    FoldOfDifferences(ShiftIn, Xor, c, c, x, y);
  }

  lemma BurstChangesRegister(c: bv32, x: seq<bool>, y: seq<bool>)
    requires |x| == |y| <= 32 && Register(c, x) == Register(c, y)
    ensures x == y
  {
    SumOfRegisters(c, x, y);
    XorZero(c);
    XorZero(Register(c, x));
    OnlyZerosKeepZero(Xor(c, c), Differences(x, y));
  }

  lemma SameBurst(c: bv32, before: seq<bool>, x: seq<bool>, y: seq<bool>, after: seq<bool>)
    requires |x| == |y| <= 32
    requires Register(c, before + x + after) == Register(c, before + y + after)
    ensures x == y
  {
    FoldSplits(ShiftIn, c, before + x, after); FoldSplits(ShiftIn, c, before, x);
    FoldSplits(ShiftIn, c, before + y, after); FoldSplits(ShiftIn, c, before, y);
    var d := Register(c, before);
    forall a, b, bit | ShiftIn(a, bit) == ShiftIn(b, bit) ensures a == b { ShiftInIsInjective(a, b, bit); }
    FoldIsInjective(ShiftIn, Register(d, x), Register(d, y), after);
    BurstChangesRegister(d, x, y);
  }

  /** Any change of a message that stays within 32 consecutive bits changes its checksum. */
  lemma BurstsAreDetected(m1: seq<bv8>, m2: seq<bv8>, before: seq<bool>, x: seq<bool>, y: seq<bool>, after: seq<bool>)
    requires MessageBits(m1) == before + x + after && MessageBits(m2) == before + y + after
    requires |x| == |y| <= 32 && x != y
    ensures Signed(Crc(m1)) != Signed(Crc(m2))
  {
    if Signed(Crc(m1)) == Signed(Crc(m2)) {
      SignedIsInjective(Crc(m1), Crc(m2));
      SameCrc(m1, m2);
      SameBurst(ALL_ONES, before, x, y, after);
    }
  }

  lemma SameCrc(m1: seq<bv8>, m2: seq<bv8>)
    requires Crc(m1) == Crc(m2)
    ensures Register(ALL_ONES, MessageBits(m1)) == Register(ALL_ONES, MessageBits(m2))
  {
    SameXor(Register(ALL_ONES, MessageBits(m1)), Register(ALL_ONES, MessageBits(m2)), ALL_ONES);
  }

  lemma SignedIsInjective(a: bv32, b: bv32)
    requires Signed(a) == Signed(b)
    ensures a == b
  {
    assert (a as int) as bv32 == a && (b as int) as bv32 == b;
  }
}
