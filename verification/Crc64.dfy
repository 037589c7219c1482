/**
 crc64: the table routine computes the bit by bit CRC, every step is injective, and so no change confined to eight
 consecutive bytes of a DUMP payload goes unnoticed.
 */
module Crc64 {
  import opened Crc64Table
  import opened MachineWord

  /** The Jones polynomial, bit reflected, as the table was made from it. */
  const POLY: bv64 := 0x95ac9329ac4bc9b5

  function Carry(x: bv64): bv64 { if x & 1 == 1 then POLY else 0 }

  /** One bit of the message. */
  function BitStep(x: bv64): bv64 { Xor(x >> 1, Carry(x)) }

  /** One byte of the message, bit by bit. */
  function Bits8(x: bv64): bv64 {
    BitStep(BitStep(BitStep(BitStep(BitStep(BitStep(BitStep(BitStep(x))))))))
  }

  /** The CRC of s continued from crc, bit by bit. */
  function Crc(crc: bv64, s: seq<bv8>): bv64 {
    if s == [] then crc else Bits8(Xor(Crc(crc, s[..|s| - 1]), s[|s| - 1] as bv64))
  }

  // ----- Linearity

  lemma CarryXor(a: bv64, b: bv64)
    ensures Carry(Xor(a, b)) == Xor(Carry(a), Carry(b))
  {
    XorShift(a, b);
    XorShift(b, a);
    if a & 1 == 1 {
      if b & 1 == 1 { assert (a ^ b) & 1 == 0; } else { assert (a ^ b) & 1 == 1; }
    } else {
      if b & 1 == 1 { assert (a ^ b) & 1 == 1; } else { assert (a ^ b) & 1 == 0; }
    }
  }

  lemma BitStepXor(a: bv64, b: bv64)
    ensures BitStep(Xor(a, b)) == Xor(BitStep(a), BitStep(b))
  {
    hide Xor, Carry;
    XorShift(a, b);
    CarryXor(a, b);
    XorShuffle(a >> 1, b >> 1, Carry(a), Carry(b));
  }

  lemma Bits8Xor(a: bv64, b: bv64)
    ensures Bits8(Xor(a, b)) == Xor(Bits8(a), Bits8(b))
  {
    hide Xor, BitStep;
    var a1, b1 := BitStep(a), BitStep(b);
    BitStepXor(a, b);
    var a2, b2 := BitStep(a1), BitStep(b1);
    BitStepXor(a1, b1);
    var a3, b3 := BitStep(a2), BitStep(b2);
    BitStepXor(a2, b2);
    var a4, b4 := BitStep(a3), BitStep(b3);
    BitStepXor(a3, b3);
    var a5, b5 := BitStep(a4), BitStep(b4);
    BitStepXor(a4, b4);
    var a6, b6 := BitStep(a5), BitStep(b5);
    BitStepXor(a5, b5);
    var a7, b7 := BitStep(a6), BitStep(b6);
    BitStepXor(a6, b6);
    BitStepXor(a7, b7);
  }

  // ----- Injectivity

  lemma BitStepZero(x: bv64)
    ensures BitStep(x) == 0 <==> x == 0
  {
  }

  lemma Bits8Zero(x: bv64)
    ensures Bits8(x) == 0 <==> x == 0
  {
    hide BitStep;
    var x1 := BitStep(x);
    BitStepZero(x);
    var x2 := BitStep(x1);
    BitStepZero(x1);
    var x3 := BitStep(x2);
    BitStepZero(x2);
    var x4 := BitStep(x3);
    BitStepZero(x3);
    var x5 := BitStep(x4);
    BitStepZero(x4);
    var x6 := BitStep(x5);
    BitStepZero(x5);
    var x7 := BitStep(x6);
    BitStepZero(x6);
    BitStepZero(x7);
  }

  lemma Bits8Injective(a: bv64, b: bv64)
    ensures Bits8(a) == Bits8(b) ==> a == b
  {
    hide Xor, Bits8;
    Bits8Xor(a, b);
    XorZero(Bits8(a), Bits8(b));
    Bits8Zero(Xor(a, b));
    XorZero(a, b);
  }

  lemma CrcOne(c: bv64, a: bv8)
    ensures Crc(c, [a]) == Bits8(Xor(c, a as bv64))
  {
    hide Bits8, Xor;
    assert [a][..0] == [];
  }

  /** A step tells running CRCs apart, and bytes apart. */
  lemma StepInjective(c: bv64, d: bv64, a: bv8, b: bv8)
    ensures Crc(c, [a]) == Crc(d, [a]) ==> c == d
    ensures Crc(c, [a]) == Crc(c, [b]) ==> a == b
  {
    hide Bits8, Xor, Crc;
    CrcOne(c, a);
    CrcOne(d, a);
    CrcOne(c, b);
    WideBytes(a, b);
    var x, y := a as bv64, b as bv64;
    Bits8Injective(Xor(c, x), Xor(d, x));
    XorCancel(c, d, x);
    Bits8Injective(Xor(c, x), Xor(c, y));
    XorCancel(x, y, c);
  }

  // ----- The table

  lemma Row0Ok(l: bv8)
    requires l < 16
    ensures Row0(l) == Bits8(l as bv64)
  {
  }

  /** Where a row begins. */
  lemma RowStarts()
    ensures Row1(0) == Bits8(0x10) && Row2(0) == Bits8(0x20) && Row3(0) == Bits8(0x30) && Row4(0) == Bits8(0x40)
    ensures Row5(0) == Bits8(0x50) && Row6(0) == Bits8(0x60) && Row7(0) == Bits8(0x70) && Row8(0) == Bits8(0x80)
    ensures Row9(0) == Bits8(0x90) && Row10(0) == Bits8(0xA0) && Row11(0) == Bits8(0xB0) && Row12(0) == Bits8(0xC0)
    ensures Row13(0) == Bits8(0xD0) && Row14(0) == Bits8(0xE0) && Row15(0) == Bits8(0xF0)
  {
  }

  lemma RowsFollow0(l: bv8)
    requires l < 16
    ensures Row1(l) == Xor(Row1(0), Row0(l))
    ensures Row2(l) == Xor(Row2(0), Row0(l))
    ensures Row3(l) == Xor(Row3(0), Row0(l))
    ensures Row4(l) == Xor(Row4(0), Row0(l))
    ensures Row5(l) == Xor(Row5(0), Row0(l))
  {
  }

  lemma RowsFollow1(l: bv8)
    requires l < 16
    ensures Row6(l) == Xor(Row6(0), Row0(l))
    ensures Row7(l) == Xor(Row7(0), Row0(l))
    ensures Row8(l) == Xor(Row8(0), Row0(l))
    ensures Row9(l) == Xor(Row9(0), Row0(l))
    ensures Row10(l) == Xor(Row10(0), Row0(l))
  {
  }

  lemma RowsFollow2(l: bv8)
    requires l < 16
    ensures Row11(l) == Xor(Row11(0), Row0(l))
    ensures Row12(l) == Xor(Row12(0), Row0(l))
    ensures Row13(l) == Xor(Row13(0), Row0(l))
    ensures Row14(l) == Xor(Row14(0), Row0(l))
    ensures Row15(l) == Xor(Row15(0), Row0(l))
  {
  }

  lemma RowOk(i: bv8, start: bv64, first: bv64, entry: bv64)
    requires (i & 0xF0) as bv64 == start && first == Bits8(start) && entry == Xor(first, Row0(i & 15))
    ensures entry == Bits8(i as bv64)
  {
    hide Bits8, Xor, Row0;
    Nibbles(i);
    Row0Ok(i & 15);
    Bits8Xor(start, (i & 15) as bv64);
  }

  /** Every entry is what eight bit steps make of its index. */
  lemma TableIsBitwise(i: bv8)
    ensures Tab(i) == Bits8(i as bv64)
  {
    hide Bits8, Xor, Row0, Row1, Row2, Row3, Row4, Row5, Row6, Row7, Row8, Row9, Row10, Row11, Row12, Row13, Row14, Row15;
    var l := i & 15;
    Nibbles(i);
    HighNibble(i);
    RowStarts();
    RowsFollow0(l);
    RowsFollow1(l);
    RowsFollow2(l);
    match i >> 4
    case 0 => Row0Ok(l);
    case 1 => RowOk(i, 0x10, Row1(0), Row1(l));
    case 2 => RowOk(i, 0x20, Row2(0), Row2(l));
    case 3 => RowOk(i, 0x30, Row3(0), Row3(l));
    case 4 => RowOk(i, 0x40, Row4(0), Row4(l));
    case 5 => RowOk(i, 0x50, Row5(0), Row5(l));
    case 6 => RowOk(i, 0x60, Row6(0), Row6(l));
    case 7 => RowOk(i, 0x70, Row7(0), Row7(l));
    case 8 => RowOk(i, 0x80, Row8(0), Row8(l));
    case 9 => RowOk(i, 0x90, Row9(0), Row9(l));
    case 10 => RowOk(i, 0xA0, Row10(0), Row10(l));
    case 11 => RowOk(i, 0xB0, Row11(0), Row11(l));
    case 12 => RowOk(i, 0xC0, Row12(0), Row12(l));
    case 13 => RowOk(i, 0xD0, Row13(0), Row13(l));
    case 14 => RowOk(i, 0xE0, Row14(0), Row14(l));
    case _ => RowOk(i, 0xF0, Row15(0), Row15(l));
  }

  lemma Nibbles(i: bv8)
    ensures i as bv64 == Xor((i & 0xF0) as bv64, (i & 15) as bv64)
    ensures i >> 4 == 0 ==> i as bv64 == (i & 15) as bv64
    ensures (i & 15) < 16 && i >> 4 < 16
  {
    XorIs((i & 0xF0) as bv64, (i & 15) as bv64);
  }

  lemma HighNibble(i: bv8)
    ensures i >> 4 == 1 ==> (i & 0xF0) as bv64 == 0x10
    ensures i >> 4 == 2 ==> (i & 0xF0) as bv64 == 0x20
    ensures i >> 4 == 3 ==> (i & 0xF0) as bv64 == 0x30
    ensures i >> 4 == 4 ==> (i & 0xF0) as bv64 == 0x40
    ensures i >> 4 == 5 ==> (i & 0xF0) as bv64 == 0x50
    ensures i >> 4 == 6 ==> (i & 0xF0) as bv64 == 0x60
    ensures i >> 4 == 7 ==> (i & 0xF0) as bv64 == 0x70
    ensures i >> 4 == 8 ==> (i & 0xF0) as bv64 == 0x80
    ensures i >> 4 == 9 ==> (i & 0xF0) as bv64 == 0x90
    ensures i >> 4 == 10 ==> (i & 0xF0) as bv64 == 0xA0
    ensures i >> 4 == 11 ==> (i & 0xF0) as bv64 == 0xB0
    ensures i >> 4 == 12 ==> (i & 0xF0) as bv64 == 0xC0
    ensures i >> 4 == 13 ==> (i & 0xF0) as bv64 == 0xD0
    ensures i >> 4 == 14 ==> (i & 0xF0) as bv64 == 0xE0
    ensures i >> 4 >= 15 ==> (i & 0xF0) as bv64 == 0xF0
  {
  }

  // ----- The routine

  lemma EvenStep(x: bv64, y: bv64)
    requires x & 1 == 0 && y == x >> 1
    ensures BitStep(x) == y
  {
  }

  lemma Even0(y: bv64)
    requires y & 0xFF == 0
    ensures BitStep(y) == y >> 1
  {
    hide BitStep;
    EvenStep(y, y >> 1);
  }

  lemma Even1(y: bv64)
    requires y & 0xFF == 0
    ensures BitStep(y >> 1) == y >> 2
  {
    hide BitStep;
    EvenStep(y >> 1, y >> 2);
  }

  lemma Even2(y: bv64)
    requires y & 0xFF == 0
    ensures BitStep(y >> 2) == y >> 3
  {
    hide BitStep;
    EvenStep(y >> 2, y >> 3);
  }

  lemma Even3(y: bv64)
    requires y & 0xFF == 0
    ensures BitStep(y >> 3) == y >> 4
  {
    hide BitStep;
    EvenStep(y >> 3, y >> 4);
  }

  lemma Even4(y: bv64)
    requires y & 0xFF == 0
    ensures BitStep(y >> 4) == y >> 5
  {
    hide BitStep;
    EvenStep(y >> 4, y >> 5);
  }

  lemma Even5(y: bv64)
    requires y & 0xFF == 0
    ensures BitStep(y >> 5) == y >> 6
  {
    hide BitStep;
    EvenStep(y >> 5, y >> 6);
  }

  lemma Even6(y: bv64)
    requires y & 0xFF == 0
    ensures BitStep(y >> 6) == y >> 7
  {
    hide BitStep;
    EvenStep(y >> 6, y >> 7);
  }

  lemma Even7(y: bv64)
    requires y & 0xFF == 0
    ensures BitStep(y >> 7) == y >> 8
  {
    hide BitStep;
    EvenStep(y >> 7, y >> 8);
  }

  lemma Chain(y0: bv64, y1: bv64, y2: bv64, y3: bv64, y4: bv64, y5: bv64, y6: bv64, y7: bv64, y8: bv64)
    requires BitStep(y0) == y1 && BitStep(y1) == y2 && BitStep(y2) == y3 && BitStep(y3) == y4
    requires BitStep(y4) == y5 && BitStep(y5) == y6 && BitStep(y6) == y7 && BitStep(y7) == y8
    ensures Bits8(y0) == y8
  {
    hide BitStep;
  }

  /** With its low byte clear, a value is only shifted. */
  lemma Bits8Shifts(y: bv64)
    requires y & 0xFF == 0
    ensures Bits8(y) == y >> 8
  {
    hide BitStep, Bits8;
    Even0(y);
    Even1(y);
    Even2(y);
    Even3(y);
    Even4(y);
    Even5(y);
    Even6(y);
    Even7(y);
    Chain(y, y >> 1, y >> 2, y >> 3, y >> 4, y >> 5, y >> 6, y >> 7, y >> 8);
  }

  /** The index of one step. */
  function Index(crc: bv64, b: bv8): bv8 { ((crc & 0xFF) as bv8) ^ b }

  lemma RawIndex(crc: bv64, b: bv8)
    ensures crc ^ (b as bv64) == ((crc ^ (b as bv64)) & 0xFFFFFFFFFFFFFF00) ^ (Index(crc, b) as bv64)
    ensures ((crc ^ (b as bv64)) & 0xFFFFFFFFFFFFFF00) >> 8 == crc >> 8
    ensures ((crc ^ (b as bv64)) & 0xFFFFFFFFFFFFFF00) & 0xFF == 0
  {
  }

  /** One lookup is eight bit steps. */
  lemma StepIsBitwise(crc: bv64, b: bv8)
    ensures Xor(Tab(Index(crc, b)), crc >> 8) == Bits8(Xor(crc, b as bv64))
  {
    hide Xor, Tab, Bits8, Index;
    var hi := (crc ^ (b as bv64)) & 0xFFFFFFFFFFFFFF00;
    RawIndex(crc, b);
    Bits8Shifts(hi);
    TableIsBitwise(Index(crc, b));
    Halves(crc, b);
    Recombined(crc, b as bv64, Index(crc, b) as bv64, hi, crc >> 8);
  }

  lemma Halves(crc: bv64, b: bv8)
    ensures Xor(crc, b as bv64) == Xor(Index(crc, b) as bv64, (crc ^ (b as bv64)) & 0xFFFFFFFFFFFFFF00)
  {
    hide Xor, Index;
    XorIs(crc, b as bv64);
    XorIs(Index(crc, b) as bv64, (crc ^ (b as bv64)) & 0xFFFFFFFFFFFFFF00);
    RawIndex(crc, b);
    RawComm(Index(crc, b) as bv64, (crc ^ (b as bv64)) & 0xFFFFFFFFFFFFFF00);
  }

  lemma Recombined(crc: bv64, b: bv64, i: bv64, hi: bv64, up: bv64)
    requires Xor(crc, b) == Xor(i, hi) && Bits8(hi) == up
    ensures Xor(Bits8(i), up) == Bits8(Xor(crc, b))
  {
    hide Xor, Bits8;
    Bits8Xor(i, hi);
  }

  lemma RawComm(a: bv64, b: bv64)
    ensures a ^ b == b ^ a
  {
  }

  /** crc64. */
  method ComputeCrc64(crc: bv64, s: seq<bv8>) returns (r: bv64)
    ensures r == Crc(crc, s)
  {
    hide Tab, Bits8, Xor, Index;
    r := crc;
    for j := 0 to |s|
      invariant r == Crc(crc, s[..j])
    {
      StepIsBitwise(r, s[j]);
      assert s[..j + 1][..j] == s[..j];
      r := Xor(Tab(Index(r, s[j])), r >> 8);
    }
    assert s[..|s|] == s;
  }

  // ----- Whole messages

  /** Checksumming in pieces. */
  lemma {:induction false} CrcChains(c: bv64, a: seq<bv8>, b: seq<bv8>)
    ensures Crc(c, a + b) == Crc(Crc(c, a), b)
    decreases |b|
  {
    hide Bits8, Xor;
    if b == [] {
      assert a + b == a;
    } else {
      CrcChains(c, a, b[..|b| - 1]);
      assert (a + b)[..|a + b| - 1] == a + b[..|b| - 1];
    }
  }

  /** The same bytes from different running CRCs end in different CRCs. */
  lemma {:induction false} CrcInjective(c: bv64, d: bv64, s: seq<bv8>)
    requires Crc(c, s) == Crc(d, s)
    ensures c == d
    decreases |s|
  {
    hide Bits8, Xor;
    if s != [] {
      var t, b := s[..|s| - 1], s[|s| - 1] as bv64;
      Bits8Injective(Xor(Crc(c, t), b), Xor(Crc(d, t), b));
      XorCancel(Crc(c, t), Crc(d, t), b);
      CrcInjective(c, d, t);
    }
  }

  // ----- Eight bytes at once

  function Repeat(n: nat, x: bv64): bv64 { if n == 0 then x else Repeat(n - 1, Bits8(x)) }

  lemma {:induction false} RepeatXor(n: nat, a: bv64, b: bv64)
    ensures Repeat(n, Xor(a, b)) == Xor(Repeat(n, a), Repeat(n, b))
    decreases n
  {
    hide Xor, Bits8;
    if n > 0 {
      Bits8Xor(a, b);
      RepeatXor(n - 1, Bits8(a), Bits8(b));
    }
  }

  lemma {:induction false} RepeatZero(n: nat, x: bv64)
    ensures Repeat(n, x) == 0 <==> x == 0
    decreases n
  {
    hide Bits8;
    if n > 0 {
      Bits8Zero(x);
      RepeatZero(n - 1, Bits8(x));
    }
  }

  lemma ShlSteps(w: bv64)
    requires Room(w)
    ensures Bits8(Shl(w)) == w
  {
    hide Bits8;
    Bits8Shifts(w << 8);
  }

  /** One byte fed in front of w, the bytes still to come. */
  lemma FeedByte(c: bv64, b: bv64, w: bv64)
    requires Room(w)
    ensures Bits8(Xor(c, Xor(b, Shl(w)))) == Xor(Bits8(Xor(c, b)), w)
  {
    hide Xor, Bits8, Shl, Room;
    ShlSteps(w);
    Bits8Xor(Xor(c, b), Shl(w));
    XorAssoc(c, b, Shl(w));
  }

  /** Feeding up to eight bytes is adding their word and stepping over them. */
  lemma {:induction false} CrcOfWord(c: bv64, s: seq<bv8>)
    requires |s| <= 8
    ensures Crc(c, s) == Repeat(|s|, Xor(c, Word(s)))
    decreases |s|
  {
    hide Xor, Bits8, Shl, Room;
    if s == [] {
      XorNone(c);
    } else {
      var b, w := s[0] as bv64, Word(s[1..]);
      assert s == [s[0]] + s[1..];
      CrcChains(c, [s[0]], s[1..]);
      CrcOne(c, s[0]);
      CrcOfWord(Bits8(Xor(c, b)), s[1..]);
      WordShifts(s[1..]);
      FeedByte(c, b, w);
    }
  }

  /** From the same CRC, different eight bytes lead to different CRCs. */
  lemma WindowInjective(c: bv64, s: seq<bv8>, t: seq<bv8>)
    requires |s| == |t| <= 8 && Crc(c, s) == Crc(c, t)
    ensures s == t
  {
    hide Xor, Word, Crc, Repeat;
    var x, y := Xor(c, Word(s)), Xor(c, Word(t));
    CrcOfWord(c, s);
    CrcOfWord(c, t);
    RepeatXor(|s|, x, y);
    XorZero(Repeat(|s|, x), Repeat(|s|, y));
    RepeatZero(|s|, Xor(x, y));
    XorZero(x, y);
    XorCancel(Word(s), Word(t), c);
    WordInjective(s, t);
  }

  /** No change confined to eight consecutive bytes leaves the CRC the same. */
  lemma BurstDetected(c: bv64, a: seq<bv8>, b: seq<bv8>, at: nat)
    requires |a| == |b| && at + 8 <= |a| && a[..at] == b[..at] && a[at + 8..] == b[at + 8..] && a != b
    ensures Crc(c, a) != Crc(c, b)
  {
    hide Crc;
    if Crc(c, a) == Crc(c, b) {
      Cut(c, a, at);
      Cut(c, b, at);
      var d := Crc(c, a[..at]);
      CrcInjective(Crc(d, a[at..at + 8]), Crc(d, b[at..at + 8]), a[at + 8..]);
      WindowInjective(d, a[at..at + 8], b[at..at + 8]);
      Rejoined(a, at);
      Rejoined(b, at);
    }
  }

  lemma Rejoined(a: seq<bv8>, at: nat)
    requires at + 8 <= |a|
    ensures a == a[..at] + a[at..at + 8] + a[at + 8..]
  {
  }

  lemma Cut(c: bv64, a: seq<bv8>, at: nat)
    requires at + 8 <= |a|
    ensures Crc(c, a) == Crc(Crc(Crc(c, a[..at]), a[at..at + 8]), a[at + 8..])
  {
    hide Crc;
    Rejoined(a, at);
    CrcChains(c, a[..at] + a[at..at + 8], a[at + 8..]);
    CrcChains(c, a[..at], a[at..at + 8]);
  }
}
