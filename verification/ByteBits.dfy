/** The bits of a byte. */
module ByteBits {
  /** 1 << k */
  function Bit(k: nat): bv8
    requires k < 8
  {
    if k == 0 then 0x01 else if k == 1 then 0x02 else if k == 2 then 0x04 else if k == 3 then 0x08
    else if k == 4 then 0x10 else if k == 5 then 0x20 else if k == 6 then 0x40 else 0x80
  }

  predicate ByteHas(x: bv8, k: nat)
    requires k < 8
  {
    x & Bit(k) != 0
  }

  function ByteWith(x: bv8, k: nat): (y: bv8)
    requires k < 8
    ensures forall q: nat :: q < 8 ==> (ByteHas(y, q) <==> q == k || ByteHas(x, q))
  {
    x | Bit(k)
  }

  function ByteWithout(x: bv8, k: nat): (y: bv8)
    requires k < 8
    ensures forall q: nat :: q < 8 ==> (ByteHas(y, q) <==> q != k && ByteHas(x, q))
  {
    x & !Bit(k)
  }

  lemma ByteFromBits(x: bv8, y: bv8)
    requires forall k: nat :: k < 8 ==> (ByteHas(x, k) <==> ByteHas(y, k))
    ensures x == y
  {
    assert forall k: nat :: k < 8 ==> (ByteHas(x, k) <==> ByteHas(y, k));
    assert ByteHas(x, 0) == ByteHas(y, 0) && ByteHas(x, 1) == ByteHas(y, 1) && ByteHas(x, 2) == ByteHas(y, 2);
    assert ByteHas(x, 3) == ByteHas(y, 3) && ByteHas(x, 4) == ByteHas(y, 4) && ByteHas(x, 5) == ByteHas(y, 5);
    assert ByteHas(x, 6) == ByteHas(y, 6) && ByteHas(x, 7) == ByteHas(y, 7);
  }

  lemma NoBits(i: nat)
    requires i < 8
    ensures !ByteHas(0, i) && ByteHas(0xFF, i)
  {
  }
}
