/** redisBitpos: skipping bytes and words and then scanning one word finds the first bit. */
module Bitpos {
  import opened Binary
  import opened ByteBits
  import opened Bitfield

  // ----- The bits of a number read from a string

  lemma HalfFirst(x: nat, k: nat)
    ensures x / 2 / Pow2(k) == x / Pow2(k + 1)
  {
    var a := Pow2(k);
    var q, r := x / 2 / a, x / 2 % a;
    assert x / 2 == q * a + r;
    assert x == 2 * (q * a) + 2 * r + x % 2;
    assert 2 * (q * a) == q * (2 * a);
    DivisionIs(x, 2 * a, q, 2 * r + x % 2);
  }

  /** Bit j of a field is the corresponding bit of its number, counted from the other end. */
  lemma {:induction false} NumberBits(s: seq<bv8>, offset: nat, n: nat, j: nat)
    requires j < n
    ensures ValueBit(Field(s, offset, n), n - 1 - j) == BitAt(s, offset + j)
    decreases n
  {
    hide BitAt;
    var x := Field(s, offset, n);
    if j < n - 1 {
      NumberBits(s, offset, n - 1, j);
      assert x / 2 == Field(s, offset, n - 1);
      HalfFirst(x, n - 2 - j);
    }
  }

  /** A byte as a number. */
  function ByteNum(b: bv8): (v: nat)
    ensures v < 256
  {
    assert Pow2(8) == 256;
    Field([b], 0, 8)
  }

  lemma {:induction false} FieldAppends(s: seq<bv8>, i: nat, n: nat, b: bv8, k: nat)
    requires k <= 8 && b == (if i < |s| then s[i] else 0) && n <= 8 * i
    ensures Field(s, 8 * i - n, n + k) == Pow2(k) * Field(s, 8 * i - n, n) + Field([b], 0, k)
    decreases k
  {
    hide FieldBit, Field, Pow2;
    var off := 8 * i - n;
    if k == 0 {
      NoMore(s, off, n, b);
    } else {
      FieldAppends(s, i, n, b, k - 1);
      SameBit(s, i, n, b, k - 1);
      FieldStep(s, off, n + k);
      FieldStep([b], 0, k);
      PowStep(k, Field(s, off, n));
    }
  }

  lemma NoMore(s: seq<bv8>, offset: nat, n: nat, b: bv8)
    ensures Field(s, offset, n + 0) == Pow2(0) * Field(s, offset, n) + Field([b], 0, 0)
  {
  }

  lemma FieldStep(s: seq<bv8>, offset: nat, n: nat)
    requires n > 0
    ensures Field(s, offset, n) == 2 * Field(s, offset, n - 1) + if FieldBit(s, offset, n - 1) then 1 else 0
  {
  }

  lemma PowStep(k: nat, f: nat)
    requires k > 0
    ensures Pow2(k) * f == 2 * (Pow2(k - 1) * f)
  {
    Doubled(Pow2(k - 1), f);
  }

  lemma SameBit(s: seq<bv8>, i: nat, n: nat, b: bv8, k: nat)
    requires k < 8 && b == (if i < |s| then s[i] else 0) && n <= 8 * i
    ensures FieldBit(s, 8 * i - n, n + k) == FieldBit([b], 0, k)
  {
    hide ByteHas;
    var q := 8 * i + k;
    assert q / 8 == i && q % 8 == k;
    NoBits(7 - k);
  }

  lemma Doubled(p: nat, f: nat)
    ensures 2 * (p * f) == (2 * p) * f
  {
  }

  // ----- Skipping

  /** The byte that holds no bit of the kind looked for. */
  function SkipByte(bit: bool): bv8 { if bit then 0 else 0xFF }

  /** No bit before position 8 * c is of the kind looked for. */
  ghost predicate NoneBefore(s: seq<bv8>, bit: bool, n: nat) { forall k: nat :: k < n ==> BitAt(s, k) != bit }

  lemma SkipsByte(s: seq<bv8>, bit: bool, c: nat)
    requires c < |s| && s[c] == SkipByte(bit) && NoneBefore(s, bit, 8 * c)
    ensures NoneBefore(s, bit, 8 * c + 8)
  {
    hide ByteHas;
    forall k: nat | k < 8 * c + 8
      ensures BitAt(s, k) != bit
    {
      if k >= 8 * c {
        assert k / 8 == c;
        NoBits(7 - k % 8);
      }
    }
  }

  lemma {:induction false} SkipsWord(s: seq<bv8>, bit: bool, c: nat, n: nat)
    requires c + n <= |s| && NoneBefore(s, bit, 8 * c) && forall i :: c <= i < c + n ==> s[i] == SkipByte(bit)
    ensures NoneBefore(s, bit, 8 * (c + n))
    decreases n
  {
    if n > 0 {
      SkipsByte(s, bit, c);
      SkipsWord(s, bit, c + 1, n - 1);
    }
  }

  /** A whole word to skip: every byte is one to skip. */
  predicate IsSkipWord(s: seq<bv8>, bit: bool, c: nat)
    requires c + 8 <= |s|
  {
    forall i :: c <= i < c + 8 ==> s[i] == SkipByte(bit)
  }

  lemma ByteFromHas(b: bv8, set1: bool)
    requires forall k: nat :: k < 8 ==> ByteHas(b, k) == set1
    ensures b == if set1 then 0xFF else 0
  {
    var y: bv8 := if set1 then 0xFF else 0;
    forall k: nat | k < 8
      ensures ByteHas(b, k) <==> ByteHas(y, k)
    {
      NoBits(k);
    }
    ByteFromBits(b, y);
  }

  lemma BehindEnd(s: seq<bv8>, c: nat)
    requires c <= |s|
    ensures !FieldBit(s, 8 * c, 8 * (|s| - c))
  {
    var q := 8 * c + 8 * (|s| - c);
    assert q / 8 == |s|;
  }

  /** If the next 64 bits hold nothing to find, they are eight whole bytes to skip; with zeros behind the end this needs bytes. */
  lemma NothingFound(s: seq<bv8>, bit: bool, c: nat)
    requires c <= |s| && forall j: nat :: j < 64 ==> FieldBit(s, 8 * c, j) != bit
    ensures !bit ==> c + 8 <= |s|
    ensures c + 8 <= |s| ==> IsSkipWord(s, bit, c)
  {
    hide ByteHas;
    BehindEnd(s, c);
    if c + 8 <= |s| {
      forall i | c <= i < c + 8
        ensures s[i] == SkipByte(bit)
      {
        forall k: nat | k < 8
          ensures ByteHas(s[i], k) == !bit
        {
          var j := 8 * (i - c) + (7 - k);
          assert FieldBit(s, 8 * c, j) != bit;
          assert (8 * c + j) / 8 == i && (8 * c + j) % 8 == 7 - k;
        }
        ByteFromHas(s[i], !bit);
      }
    }
  }

  // ----- The routine

  /** Lines 144-152: the next eight bytes as a number, the first one highest, padded with zeros. */
  method LoadWord(s: seq<bv8>, start: nat) returns (word: nat)
    requires start <= |s|
    ensures word == Field(s, 8 * start, 64)
  {
    hide Pow2, Field, ByteNum;
    word := 0;
    var c := start;
    EmptyField(s, 8 * start);
    for j := 0 to 8
      invariant word == Field(s, 8 * start, 8 * j) && c == (if start + j <= |s| then start + j else |s|)
    {
      var b: bv8 := if c < |s| then s[c] else 0;
      NextByte(s, start, j, b);
      word := word * 256 % TWO64;
      if c < |s| {
        word := word + ByteNum(s[c]);
        c := c + 1;
      }
    }
  }

  lemma EmptyField(s: seq<bv8>, offset: nat)
    ensures Field(s, offset, 0) == 0
  {
  }

  lemma NextByte(s: seq<bv8>, start: nat, j: nat, b: bv8)
    requires start <= |s| && j < 8 && b == if start + j < |s| then s[start + j] else 0
    ensures var f := Field(s, 8 * start, 8 * j);
      f * 256 < TWO64 && Field(s, 8 * start, 8 * (j + 1)) == f * 256 + ByteNum(b) && (start + j >= |s| ==> ByteNum(b) == 0)
  {
    hide Field, Pow2, ByteNum;
    AppendsByte(s, start, j, b);
    NoOverflow(s, start, j);
    if start + j >= |s| { ZeroByte(); }
  }

  lemma AppendsByte(s: seq<bv8>, start: nat, j: nat, b: bv8)
    requires b == if start + j < |s| then s[start + j] else 0
    ensures Field(s, 8 * start, 8 * (j + 1)) == Field(s, 8 * start, 8 * j) * 256 + ByteNum(b)
  {
    hide Field, Pow2;
    var i, n := start + j, 8 * j;
    assert 8 * i - n == 8 * start && n + 8 == 8 * (j + 1);
    FieldAppends(s, i, n, b, 8);
    ByteLimits();
  }

  lemma NoOverflow(s: seq<bv8>, start: nat, j: nat)
    requires j < 8
    ensures Field(s, 8 * start, 8 * j) * 256 < TWO64
  {
    hide Field, Pow2;
    Pow2Grows(8 * j, 56);
    ByteLimits();
  }

  lemma ByteLimits()
    ensures Pow2(8) == 256 && Pow2(56) * 256 == TWO64
  {
    Pow2Of64();
    Pow2Sum(56, 8);
  }

  lemma ZeroByte()
    ensures ByteNum(0) == 0
  {
    hide ByteHas;
    forall k: nat | k < 8
      ensures !FieldBit([0], 0, k)
    {
      NoBits(7 - k);
    }
    ZeroField([0], 0, 8);
  }

  lemma {:induction false} ZeroField(s: seq<bv8>, offset: nat, n: nat)
    ensures Field(s, offset, n) == 0 <==> forall j: nat :: j < n ==> !FieldBit(s, offset, j)
    decreases n
  {
    hide FieldBit;
    if n > 0 {
      ZeroField(s, offset, n - 1);
      assert Field(s, offset, n) == 0 ==> !FieldBit(s, offset, n - 1);
    }
  }

  /** The bit is at this position and at none before it. */
  ghost predicate First(s: seq<bv8>, bit: bool, pos: nat) { BitAt(s, pos) == bit && NoneBefore(s, bit, pos) }

  /** Lines 165-173: scans the word from its highest bit; the end of the loop is not reached. */
  method ScanWord(s: seq<bv8>, bit: bool, c: nat, word: nat) returns (pos: nat)
    requires c <= |s| && word == Field(s, 8 * c, 64) && NoneBefore(s, bit, 8 * c)
    requires exists j: nat :: j < 64 && FieldBit(s, 8 * c, j) == bit
    ensures First(s, bit, pos)
  {
    hide BitAt, Field, Pow2, ValueBit;
    pos := 8 * c;
    for i := 0 to 64
      invariant pos == 8 * c + i && NoneBefore(s, bit, pos)
    {
      NumberBits(s, 8 * c, 64, i);
      if ValueBit(word, 63 - i) == bit { return pos; }
      OneMore(s, bit, pos);
      pos := pos + 1;
    }
    assert false;
  }

  lemma OneMore(s: seq<bv8>, bit: bool, pos: nat)
    requires NoneBefore(s, bit, pos) && BitAt(s, pos) != bit
    ensures NoneBefore(s, bit, pos + 1)
  {
    hide BitAt;
  }

  /** redisBitpos at an address, of which only the alignment matters: the first such bit, or -1 when no bit is set. */
  method RedisBitpos(s: seq<bv8>, address: nat, bit: bool) returns (pos: int)
    ensures pos >= 0 ==> First(s, bit, pos) && pos <= 8 * |s|
    ensures pos < 0 ==> pos == -1 && bit && NoneBefore(s, true, 8 * |s|)
    ensures !bit ==> pos >= 0
  {
    hide BitAt, Field, FieldBit, IsSkipWord;
    var c := 0;
    while (address + c) % 8 != 0 && c < |s|
      invariant c <= |s| && NoneBefore(s, bit, 8 * c)
      decreases |s| - c
    {
      if s[c] != SkipByte(bit) { break; }
      SkipsByte(s, bit, c);
      c := c + 1;
    }
    while |s| - c >= 8
      invariant c <= |s| && NoneBefore(s, bit, 8 * c)
      decreases |s| - c
    {
      if !IsSkipWord(s, bit, c) { break; }
      SkipsEight(s, bit, c);
      c := c + 8;
    }
    var word := LoadWord(s, c);
    ZeroField(s, 8 * c, 64);
    if bit && word == 0 {
      AllZero(s, c);
      return -1;
    }
    Findable(s, bit, c);
    pos := ScanWord(s, bit, c, word);
    InString(s, bit, pos);
  }

  lemma SkipsEight(s: seq<bv8>, bit: bool, c: nat)
    requires c + 8 <= |s| && IsSkipWord(s, bit, c) && NoneBefore(s, bit, 8 * c)
    ensures NoneBefore(s, bit, 8 * (c + 8))
  {
    hide NoneBefore;
    SkipsWord(s, bit, c, 8);
  }

  /** What is left holds the bit looked for. */
  lemma Findable(s: seq<bv8>, bit: bool, c: nat)
    requires c <= |s| && (c + 8 <= |s| ==> !IsSkipWord(s, bit, c))
    requires bit ==> exists j: nat :: j < 64 && FieldBit(s, 8 * c, j)
    ensures exists j: nat :: j < 64 && FieldBit(s, 8 * c, j) == bit
  {
    hide FieldBit, IsSkipWord;
    if forall j: nat :: j < 64 ==> FieldBit(s, 8 * c, j) != bit { NothingFound(s, bit, c); }
  }

  lemma AllZero(s: seq<bv8>, c: nat)
    requires c <= |s| && NoneBefore(s, true, 8 * c) && forall j: nat :: j < 64 ==> !FieldBit(s, 8 * c, j)
    requires c + 8 <= |s| ==> !IsSkipWord(s, true, c)
    ensures NoneBefore(s, true, 8 * |s|)
  {
    hide ByteHas, IsSkipWord;
    NothingFound(s, true, c);
    forall k: nat | k < 8 * |s|
      ensures !BitAt(s, k)
    {
      if k >= 8 * c { assert !FieldBit(s, 8 * c, k - 8 * c); }
    }
  }

  lemma InString(s: seq<bv8>, bit: bool, pos: nat)
    requires First(s, bit, pos)
    ensures pos <= 8 * |s|
  {
    assert !BitAt(s, 8 * |s|);
  }
}
