/** redisPopcount: the count over 28 bytes at a time in the byte lanes of 32-bit words equals the count bit by bit. */
module Popcount {
  import opened Binary
  import opened ByteBits
  import opened Bitfield

  // ----- The count, bit by bit

  function One(b: bv8, k: nat): nat
    requires k < 8
  {
    if ByteHas(b, k) then 1 else 0
  }

  function Ones(b: bv8): nat {
    One(b, 0) + One(b, 1) + One(b, 2) + One(b, 3) + One(b, 4) + One(b, 5) + One(b, 6) + One(b, 7)
  }

  function Count(s: seq<bv8>): nat { if s == [] then 0 else Count(s[..|s| - 1]) + Ones(s[|s| - 1]) }

  /** The bits set among the first n. */
  function BitsSet(s: seq<bv8>, n: nat): nat { if n == 0 then 0 else BitsSet(s, n - 1) + if BitAt(s, n - 1) then 1 else 0 }

  lemma {:induction false} CountIsBitsSet(s: seq<bv8>, n: nat)
    requires n <= |s|
    ensures Count(s[..n]) == BitsSet(s, 8 * n)
    decreases n
  {
    hide ByteHas, Ones;
    if n > 0 {
      CountIsBitsSet(s, n - 1);
      assert s[..n][..n - 1] == s[..n - 1];
      ByteOfBits(s, n - 1);
    }
  }

  lemma ByteOfBits(s: seq<bv8>, i: nat)
    requires i < |s|
    ensures BitsSet(s, 8 * i + 8) == BitsSet(s, 8 * i) + Ones(s[i])
  {
    hide ByteHas, BitsSet;
    NextBit(s, i, 0);
    NextBit(s, i, 1);
    NextBit(s, i, 2);
    NextBit(s, i, 3);
    NextBit(s, i, 4);
    NextBit(s, i, 5);
    NextBit(s, i, 6);
    NextBit(s, i, 7);
  }

  lemma NextBit(s: seq<bv8>, i: nat, k: nat)
    requires i < |s| && k < 8
    ensures BitsSet(s, 8 * i + k + 1) == BitsSet(s, 8 * i + k) + One(s[i], 7 - k)
  {
    hide ByteHas;
    assert (8 * i + k) / 8 == i && (8 * i + k) % 8 == k;
  }

  lemma {:induction false} CountSum(s: seq<bv8>, t: seq<bv8>)
    ensures Count(s + t) == Count(s) + Count(t)
    decreases |t|
  {
    hide Ones;
    if t == [] {
      assert s + t == s;
    } else {
      CountSum(s, t[..|t| - 1]);
      assert (s + t)[..|s + t| - 1] == s + t[..|t| - 1];
    }
  }

  // ----- The table

  /** bitsinbyte. */
  function BitsInByte(b: bv8): nat {
    var l := b & 15;
    match b >> 4
    case 0 => Row0(l)
    case 1 => Row1(l)
    case 2 => Row1(l)
    case 3 => Row2(l)
    case 4 => Row1(l)
    case 5 => Row2(l)
    case 6 => Row2(l)
    case 7 => Row3(l)
    case 8 => Row1(l)
    case 9 => Row2(l)
    case 10 => Row2(l)
    case 11 => Row3(l)
    case 12 => Row2(l)
    case 13 => Row3(l)
    case 14 => Row3(l)
    case _ => Row4(l)
  }

  function Row0(l: bv8): nat {
    match l
    case 0 => 0 case 1 => 1 case 2 => 1 case 3 => 2 case 4 => 1 case 5 => 2 case 6 => 2 case 7 => 3
    case 8 => 1 case 9 => 2 case 10 => 2 case 11 => 3 case 12 => 2 case 13 => 3 case 14 => 3 case _ => 4
  }

  function Row1(l: bv8): nat {
    match l
    case 0 => 1 case 1 => 2 case 2 => 2 case 3 => 3 case 4 => 2 case 5 => 3 case 6 => 3 case 7 => 4
    case 8 => 2 case 9 => 3 case 10 => 3 case 11 => 4 case 12 => 3 case 13 => 4 case 14 => 4 case _ => 5
  }

  function Row2(l: bv8): nat {
    match l
    case 0 => 2 case 1 => 3 case 2 => 3 case 3 => 4 case 4 => 3 case 5 => 4 case 6 => 4 case 7 => 5
    case 8 => 3 case 9 => 4 case 10 => 4 case 11 => 5 case 12 => 4 case 13 => 5 case 14 => 5 case _ => 6
  }

  function Row3(l: bv8): nat {
    match l
    case 0 => 3 case 1 => 4 case 2 => 4 case 3 => 5 case 4 => 4 case 5 => 5 case 6 => 5 case 7 => 6
    case 8 => 4 case 9 => 5 case 10 => 5 case 11 => 6 case 12 => 5 case 13 => 6 case 14 => 6 case _ => 7
  }

  function Row4(l: bv8): nat {
    match l
    case 0 => 4 case 1 => 5 case 2 => 5 case 3 => 6 case 4 => 5 case 5 => 6 case 6 => 6 case 7 => 7
    case 8 => 5 case 9 => 6 case 10 => 6 case 11 => 7 case 12 => 6 case 13 => 7 case 14 => 7 case _ => 8
  }

  lemma TableCounts(b: bv8)
    ensures BitsInByte(b) == Ones(b)
  {
  }

  // ----- One word

  /** The first two steps: bits are added in pairs, pairs in fours. */
  function Pairs(x: bv32): bv32 { x - ((x >> 1) & 0x55555555) }
  function Fours(x: bv32): bv32 { (x & 0x33333333) + ((x >> 2) & 0x33333333) }

  /** Each byte of the result is the number of bits set in that byte of the word. */
  function Lanes(x: bv32): bv32 { var y := Fours(Pairs(x)); (y + (y >> 4)) & 0x0F0F0F0F }

  /** The bits set in the low byte. */
  function Pop(b: bv32): bv32 {
    PopLow(b) + PopLow(b >> 4)
  }

  function PopLow(b: bv32): bv32 { (b & 1) + ((b >> 1) & 1) + ((b >> 2) & 1) + ((b >> 3) & 1) }

  function Num(x: bv32): nat { x as nat }

  function Byte0(x: bv32): bv32 { x & 0xFF }
  function Byte1(x: bv32): bv32 { (x >> 8) & 0xFF }
  function Byte2(x: bv32): bv32 { (x >> 16) & 0xFF }
  function Byte3(x: bv32): bv32 { (x >> 24) & 0xFF }

  lemma LaneIsPop0(x: bv32)
    ensures Byte0(Lanes(x)) == Pop(Byte0(x))
  {
  }

  lemma LaneIsPop1(x: bv32)
    ensures Byte1(Lanes(x)) == Pop(Byte1(x))
  {
  }

  lemma LaneIsPop2(x: bv32)
    ensures Byte2(Lanes(x)) == Pop(Byte2(x))
  {
  }

  lemma LaneIsPop3(x: bv32)
    ensures Byte3(Lanes(x)) == Pop(Byte3(x))
  {
  }

  lemma SmallLanes(x: bv32)
    ensures Lanes(x) & 0xF0F0F0F0 == 0
  {
  }

  function Half0(c: bv32): bv32 { c & 0xFFFF }
  function Half1(c: bv32): bv32 { c >> 16 }

  lemma SplitHalves(c: bv32)
    requires c & 0xF0F0F0F0 == 0
    ensures Num(c) == Num(Half0(c)) + 65536 * Num(Half1(c))
  {
  }

  lemma SplitLow(c: bv32)
    requires c & 0xF0F0F0F0 == 0
    ensures Num(Half0(c)) == Num(Byte0(c)) + 256 * Num(Byte1(c))
  {
  }

  lemma SplitHigh(c: bv32)
    requires c & 0xF0F0F0F0 == 0
    ensures Num(Half1(c)) == Num(Byte2(c)) + 256 * Num(Byte3(c))
  {
  }

  /** A word of small lanes as a number in base 256. */
  lemma LanesAsDigits(c: bv32)
    requires c & 0xF0F0F0F0 == 0
    ensures Num(c) == Num(Byte0(c)) + 256 * Num(Byte1(c)) + 65536 * Num(Byte2(c)) + 16777216 * Num(Byte3(c))
  {
    hide Num, Byte0, Byte1, Byte2, Byte3, Half0, Half1;
    SplitHalves(c);
    SplitLow(c);
    SplitHigh(c);
  }

  // ----- Four bytes of memory

  /** A 32-bit load, lowest byte first. */
  function Load(b0: bv8, b1: bv8, b2: bv8, b3: bv8): bv32 {
    (b0 as bv32) | ((b1 as bv32) << 8) | ((b2 as bv32) << 16) | ((b3 as bv32) << 24)
  }

  lemma PopOfByte(b: bv8)
    ensures Num(Pop(b as bv32)) == Ones(b)
  {
  }

  lemma LoadBytes(b0: bv8, b1: bv8, b2: bv8, b3: bv8)
    ensures var x := Load(b0, b1, b2, b3);
      Byte0(x) == b0 as bv32 && Byte1(x) == b1 as bv32 && Byte2(x) == b2 as bv32 && Byte3(x) == b3 as bv32
  {
  }

  /** What the bit tricks make of a loaded word: the counts of its four bytes, side by side. */
  lemma WordCounts(b0: bv8, b1: bv8, b2: bv8, b3: bv8)
    ensures Num(Lanes(Load(b0, b1, b2, b3))) == Ones(b0) + 256 * Ones(b1) + 65536 * Ones(b2) + 16777216 * Ones(b3)
  {
    hide Num, Byte0, Byte1, Byte2, Byte3, Lanes, Pop, Ones, Load;
    var x := Load(b0, b1, b2, b3);
    SmallLanes(x);
    LanesAsDigits(Lanes(x));
    LoadBytes(b0, b1, b2, b3);
    LaneIsPop0(x);
    LaneIsPop1(x);
    LaneIsPop2(x);
    LaneIsPop3(x);
    PopOfByte(b0);
    PopOfByte(b1);
    PopOfByte(b2);
    PopOfByte(b3);
  }

  // ----- The routine

  const TWO32 := 0x1_0000_0000

  /** Multiplying by 0x01010101 gathers the four digits in the top byte, as long as none of them overflows. */
  lemma Gathers(a: nat, b: nat, c: nat, d: nat)
    requires a <= 56 && b <= 56 && c <= 56 && d <= 56
    ensures var t := a + 256 * b + 65536 * c + 16777216 * d;
      t < TWO32 && (t * 0x01010101) % TWO32 / 0x1000000 == a + b + c + d
  {
    var t := a + 256 * b + 65536 * c + 16777216 * d;
    var top := a + b + c + d;
    var low := a + 256 * (a + b) + 65536 * (a + b + c) + 16777216 * top;
    var high := (b + c + d) + 256 * (c + d) + 65536 * d;
    assert t * 0x01010101 == high * TWO32 + low;
    DivUnique(t * 0x01010101, TWO32, high, low);
    DivisionIs(low, 0x1000000, top, a + 256 * (a + b) + 65536 * (a + b + c));
  }

  lemma OnesBound(b: bv8)
    ensures Ones(b) <= 8
  {
  }

  lemma CountOneMore(s: seq<bv8>, i: nat, j: nat)
    requires i <= j < |s|
    ensures Count(s[i..j + 1]) == Count(s[i..j]) + Ones(s[j])
  {
    hide Ones;
    assert s[i..j + 1][..j - i] == s[i..j];
  }

  lemma CountFourMore(s: seq<bv8>, i: nat, j: nat)
    requires i <= j && j + 4 <= |s|
    ensures Count(s[i..j + 4]) == Count(s[i..j]) + Ones(s[j]) + Ones(s[j + 1]) + Ones(s[j + 2]) + Ones(s[j + 3])
  {
    hide Ones, Count;
    CountOneMore(s, i, j);
    CountOneMore(s, i, j + 1);
    CountOneMore(s, i, j + 2);
    CountOneMore(s, i, j + 3);
  }

  function OnesAt(s: seq<bv8>, i: nat): nat
    requires i < |s|
  {
    Ones(s[i])
  }

  function LanesAt(s: seq<bv8>, i: nat): nat
    requires i + 4 <= |s|
  {
    Num(Lanes(Load(s[i], s[i + 1], s[i + 2], s[i + 3])))
  }

  /** Digit k of seven words added up. */
  function Column(s: seq<bv8>, i: nat): nat
    requires i + 25 <= |s|
  {
    OnesAt(s, i) + OnesAt(s, i + 4) + OnesAt(s, i + 8) + OnesAt(s, i + 12) + OnesAt(s, i + 16) + OnesAt(s, i + 20) + OnesAt(s, i + 24)
  }

  lemma ColumnBound(s: seq<bv8>, i: nat)
    requires i + 25 <= |s|
    ensures Column(s, i) <= 56
  {
    hide Ones;
    OnesBound(s[i]);
    OnesBound(s[i + 4]);
    OnesBound(s[i + 8]);
    OnesBound(s[i + 12]);
    OnesBound(s[i + 16]);
    OnesBound(s[i + 20]);
    OnesBound(s[i + 24]);
  }

  lemma BlockCounts(s: seq<bv8>, i: nat)
    requires i + 28 <= |s|
    ensures Count(s[i..i + 28]) == Column(s, i) + Column(s, i + 1) + Column(s, i + 2) + Column(s, i + 3)
  {
    hide Ones, Count;
    NoBytes(s, i);
    CountFourMore(s, i, i);
    CountFourMore(s, i, i + 4);
    CountFourMore(s, i, i + 8);
    CountFourMore(s, i, i + 12);
    CountFourMore(s, i, i + 16);
    CountFourMore(s, i, i + 20);
    CountFourMore(s, i, i + 24);
  }

  lemma NoBytes(s: seq<bv8>, i: nat)
    requires i <= |s|
    ensures Count(s[i..i]) == 0
  {
  }

  lemma LanesAtCounts(s: seq<bv8>, i: nat)
    requires i + 4 <= |s|
    ensures LanesAt(s, i) == OnesAt(s, i) + 256 * OnesAt(s, i + 1) + 65536 * OnesAt(s, i + 2) + 16777216 * OnesAt(s, i + 3)
  {
    hide Num, Lanes, Load, Ones;
    WordCounts(s[i], s[i + 1], s[i + 2], s[i + 3]);
  }

  /** Seven words added up, digit by digit. */
  lemma SevenWords(s: seq<bv8>, i: nat)
    requires i + 28 <= |s|
    ensures LanesAt(s, i) + LanesAt(s, i + 4) + LanesAt(s, i + 8) + LanesAt(s, i + 12)
          + LanesAt(s, i + 16) + LanesAt(s, i + 20) + LanesAt(s, i + 24)
         == Column(s, i) + 256 * Column(s, i + 1) + 65536 * Column(s, i + 2) + 16777216 * Column(s, i + 3)
  {
    hide LanesAt, OnesAt;
    LanesAtCounts(s, i);
    LanesAtCounts(s, i + 4);
    LanesAtCounts(s, i + 8);
    LanesAtCounts(s, i + 12);
    LanesAtCounts(s, i + 16);
    LanesAtCounts(s, i + 20);
    LanesAtCounts(s, i + 24);
  }

  /** Lines 57-86: 28 bytes. */
  method CountBlock(s: seq<bv8>, i: nat) returns (r: nat)
    requires i + 28 <= |s|
    ensures r == Count(s[i..i + 28])
  {
    hide LanesAt, Column, Count;
    var aux1, aux2, aux3, aux4 := LanesAt(s, i), LanesAt(s, i + 4), LanesAt(s, i + 8), LanesAt(s, i + 12);
    var aux5, aux6, aux7 := LanesAt(s, i + 16), LanesAt(s, i + 20), LanesAt(s, i + 24);
    SevenWords(s, i);
    ColumnBound(s, i);
    ColumnBound(s, i + 1);
    ColumnBound(s, i + 2);
    ColumnBound(s, i + 3);
    Gathers(Column(s, i), Column(s, i + 1), Column(s, i + 2), Column(s, i + 3));
    BlockCounts(s, i);
    var sum := (aux1 + aux2 + aux3 + aux4 + aux5 + aux6 + aux7) % TWO32;
    assert sum == aux1 + aux2 + aux3 + aux4 + aux5 + aux6 + aux7;
    r := sum * 0x01010101 % TWO32 / 0x1000000;
  }

  /** redisPopcount on a string at an address, of which only the alignment matters. */
  method RedisPopcount(s: seq<bv8>, address: nat) returns (bits: nat)
    ensures bits == BitsSet(s, 8 * |s|)
  {
    hide Ones, BitsInByte, Count;
    bits := 0;
    var p := 0;
    NoBytes(s, 0);
    while (address + p) % 4 != 0 && p < |s|
      invariant p <= |s| && bits == Count(s[0..p])
      decreases |s| - p
    {
      TableCounts(s[p]);
      CountOneMore(s, 0, p);
      bits := bits + BitsInByte(s[p]);
      p := p + 1;
    }
    while |s| - p >= 28
      invariant p <= |s| && bits == Count(s[0..p])
      decreases |s| - p
    {
      var n := CountBlock(s, p);
      CountSum(s[0..p], s[p..p + 28]);
      assert s[0..p] + s[p..p + 28] == s[0..p + 28];
      bits := bits + n;
      p := p + 28;
    }
    while p < |s|
      invariant p <= |s| && bits == Count(s[0..p])
    {
      TableCounts(s[p]);
      CountOneMore(s, 0, p);
      bits := bits + BitsInByte(s[p]);
      p := p + 1;
    }
    CountIsBitsSet(s, |s|);
  }
}
