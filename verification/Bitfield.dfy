/** BITFIELD: integers of any width at any bit offset of a string, and their overflow rules. */
module Bitfield {
  import opened Binary
  import opened ByteBits

  // ----- Bits of strings and of numbers

  /** Bit k of a string, the highest bit of the first byte first; behind the end all bits are zero. */
  predicate BitAt(p: seq<bv8>, k: nat) { k / 8 < |p| && ByteHas(p[k / 8], 7 - k % 8) }

  function PutBit(x: bv8, i: nat, b: bool): bv8
    requires i < 8
  {
    var cleared := ByteWithout(x, i);
    if b then ByteWith(cleared, i) else cleared
  }

  function Put(p: seq<bv8>, k: nat, b: bool): (r: seq<bv8>)
    requires k / 8 < |p|
    ensures |r| == |p|
  {
    p[k / 8 := PutBit(p[k / 8], 7 - k % 8, b)]
  }

  lemma PutChanges(p: seq<bv8>, k: nat, b: bool, q: nat)
    requires k / 8 < |p|
    ensures BitAt(Put(p, k, b), q) == if q == k then b else BitAt(p, q)
  {
    hide ByteHas, ByteWith, ByteWithout;
    assert q == k <==> q / 8 == k / 8 && 7 - q % 8 == 7 - k % 8;
  }

  predicate ValueBit(v: nat, k: nat) { v / Pow2(k) % 2 == 1 }

  // ----- Reading and writing a field

  /** The string after the first n bits of a field have been written, highest first. */
  function Stored(p: seq<bv8>, offset: nat, bits: nat, value: nat, n: nat): (r: seq<bv8>)
    requires n <= bits && offset + bits <= 8 * |p|
    ensures |r| == |p|
  {
    if n == 0 then p else Put(Stored(p, offset, bits, value, n - 1), offset + n - 1, ValueBit(value, bits - n))
  }

  /** The field holds the value's bits, and no other bit of the string has changed. */
  lemma {:induction false} StoredBits(p: seq<bv8>, offset: nat, bits: nat, value: nat, n: nat, q: nat)
    requires n <= bits && offset + bits <= 8 * |p|
    ensures BitAt(Stored(p, offset, bits, value, n), q)
         == if offset <= q < offset + n then ValueBit(value, bits - 1 - (q - offset)) else BitAt(p, q)
    decreases n
  {
    hide BitAt, Put;
    if n > 0 {
      StoredBits(p, offset, bits, value, n - 1, q);
      PutChanges(Stored(p, offset, bits, value, n - 1), offset + n - 1, ValueBit(value, bits - n), q);
    }
  }

  /** Bit j of the field at an offset. */
  predicate FieldBit(p: seq<bv8>, offset: nat, j: nat) { BitAt(p, offset + j) }

  /** The number in a field of n bits. */
  function Field(p: seq<bv8>, offset: nat, n: nat): (v: nat)
    ensures v < Pow2(n)
  {
    if n == 0 then 0 else 2 * Field(p, offset, n - 1) + if FieldBit(p, offset, n - 1) then 1 else 0
  }

  /** Reading only the bits of the field matters. */
  lemma {:induction false} SameField(p: seq<bv8>, q: seq<bv8>, i: nat, j: nat, n: nat)
    requires forall k: nat :: k < n ==> FieldBit(p, i, k) == FieldBit(q, j, k)
    ensures Field(p, i, n) == Field(q, j, n)
    decreases n
  {
    hide FieldBit;
    if n > 0 { SameField(p, q, i, j, n - 1); }
  }

  lemma HigherBits(value: nat, k: nat)
    ensures value / Pow2(k) / 2 == value / Pow2(k + 1)
  {
    var a := Pow2(k);
    var q, r := value / a, value % a;
    assert value == q * a + r;
    var s, t := q / 2, q % 2;
    assert q * a == s * (2 * a) + t * a;
    assert t * a + r < 2 * a;
    DivisionIs(value, 2 * a, s, t * a + r);
  }

  lemma DivisionIs(n: int, d: int, q: int, r: int)
    requires d > 0 && n == q * d + r && 0 <= r < d
    ensures n / d == q
  {
    DivUnique(n, d, q, r);
    SmallMultiple(n / d - q, d, 0);
  }

  /** Appending the next lower bit of a value. */
  lemma NextBit(value: nat, bits: nat, n: nat)
    requires 1 <= n <= bits
    ensures value / Pow2(bits - n) % Pow2(n)
         == 2 * (value / Pow2(bits - (n - 1)) % Pow2(n - 1)) + if ValueBit(value, bits - n) then 1 else 0
  {
    HigherBits(value, bits - n);
    HalfModulo(value / Pow2(bits - n), Pow2(n - 1));
  }

  lemma {:induction false} FieldOfBits(p: seq<bv8>, offset: nat, bits: nat, value: nat, n: nat)
    requires n <= bits && forall j: nat :: j < n ==> FieldBit(p, offset, j) == ValueBit(value, bits - 1 - j)
    ensures Field(p, offset, n) == value / Pow2(bits - n) % Pow2(n)
    decreases n
  {
    hide FieldBit, ValueBit;
    if n > 0 {
      FieldOfBits(p, offset, bits, value, n - 1);
      NextBit(value, bits, n);
    }
  }

  /** Get after set returns the value modulo 2^bits. */
  lemma GetAfterSet(p: seq<bv8>, offset: nat, bits: nat, value: nat)
    requires offset + bits <= 8 * |p|
    ensures Field(Stored(p, offset, bits, value, bits), offset, bits) == value % Pow2(bits)
  {
    hide BitAt, ValueBit, Field;
    var s := Stored(p, offset, bits, value, bits);
    forall j: nat | j < bits
      ensures FieldBit(s, offset, j) == ValueBit(value, bits - 1 - j)
    {
      StoredBits(p, offset, bits, value, bits, offset + j);
    }
    FieldOfBits(s, offset, bits, value, bits);
  }

  /** A field that does not overlap keeps its number. */
  lemma OtherFieldsKept(p: seq<bv8>, offset: nat, bits: nat, value: nat, i: nat, n: nat)
    requires offset + bits <= 8 * |p| && (i + n <= offset || offset + bits <= i)
    ensures Field(Stored(p, offset, bits, value, bits), i, n) == Field(p, i, n)
  {
    hide BitAt, ValueBit, Field;
    var s := Stored(p, offset, bits, value, bits);
    forall k: nat | k < n
      ensures FieldBit(s, i, k) == FieldBit(p, i, k)
    {
      StoredBits(p, offset, bits, value, bits, i + k);
    }
    SameField(s, p, i, i, n);
  }

  /** setUnsignedBitfield. */
  method SetUnsignedBitfield(p: array<bv8>, offset: nat, bits: nat, value: nat)
    requires offset + bits <= 8 * p.Length
    modifies p
    ensures p[..] == Stored(old(p[..]), offset, bits, value, bits)
  {
    hide BitAt, ValueBit, ByteWith, ByteWithout;
    var at := offset;
    for j := 0 to bits
      invariant at == offset + j && p[..] == Stored(old(p[..]), offset, bits, value, j)
    {
      var bitval := ValueBit(value, bits - 1 - j);
      var byte, bit := at / 8, 7 - at % 8;
      ghost var was := p[..];
      var byteval := p[byte];
      byteval := ByteWithout(byteval, bit);
      if bitval { byteval := ByteWith(byteval, bit); }
      p[byte] := byteval;
      assert p[..] == Put(was, at, bitval);
      at := at + 1;
    }
  }

  /** getUnsignedBitfield. */
  method GetUnsignedBitfield(p: seq<bv8>, offset: nat, bits: nat) returns (value: nat)
    requires offset + bits <= 8 * |p|
    ensures value == Field(p, offset, bits)
  {
    hide ByteHas;
    value := 0;
    var at := offset;
    for j := 0 to bits
      invariant at == offset + j && value == Field(p, offset, j)
    {
      var byte, bit := at / 8, 7 - at % 8;
      value := 2 * value + if ByteHas(p[byte], bit) then 1 else 0;
      at := at + 1;
    }
  }
}
