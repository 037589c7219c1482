/** The bitmaps that hold a node's slots: one bit per slot, lowest bit of the first byte first. */
module ClusterBitmap {
  import opened ByteBits

  /** bitmapTestBit */
  predicate TestBit(b: seq<bv8>, pos: nat)
    requires pos / 8 < |b|
  {
    ByteHas(b[pos / 8], pos % 8)
  }

  /** bitmapSetBit */
  function SetBit(b: seq<bv8>, pos: nat): (r: seq<bv8>)
    requires pos / 8 < |b|
    ensures |r| == |b|
  {
    b[pos / 8 := ByteWith(b[pos / 8], pos % 8)]
  }

  /** bitmapClearBit */
  function ClearBit(b: seq<bv8>, pos: nat): (r: seq<bv8>)
    requires pos / 8 < |b|
    ensures |r| == |b|
  {
    b[pos / 8 := ByteWithout(b[pos / 8], pos % 8)]
  }

  lemma SamePosition(pos: nat, q: nat)
    ensures q == pos <==> q / 8 == pos / 8 && q % 8 == pos % 8
  {
  }

  /** Setting or clearing a bit changes that bit and no other. */
  lemma OneBitChanges(b: seq<bv8>, pos: nat, q: nat)
    requires pos / 8 < |b| && q / 8 < |b|
    ensures TestBit(SetBit(b, pos), q) <==> q == pos || TestBit(b, q)
    ensures TestBit(ClearBit(b, pos), q) <==> q != pos && TestBit(b, q)
  {
    hide ByteHas, ByteWith, ByteWithout;
    SamePosition(pos, q);
  }

  function BitsOf(b: seq<bv8>): set<nat> { set j: nat | j < 8 * |b| && TestBit(b, j) }

  lemma SameBit(a: seq<bv8>, b: seq<bv8>, i: nat, k: nat)
    requires |a| == |b| && i < |a| && k < 8 && BitsOf(a) == BitsOf(b)
    ensures ByteHas(a[i], k) <==> ByteHas(b[i], k)
  {
    hide ByteHas;
    var j := 8 * i + k;
    assert j / 8 == i && j % 8 == k;
    assert j in BitsOf(a) <==> j in BitsOf(b);
  }

  /** memcmp on two bitmaps compares the sets of slots. */
  lemma BitmapsEqualAsSets(a: seq<bv8>, b: seq<bv8>)
    requires |a| == |b|
    ensures a == b <==> BitsOf(a) == BitsOf(b)
  {
    hide ByteHas;
    if BitsOf(a) == BitsOf(b) {
      forall i | 0 <= i < |a|
        ensures a[i] == b[i]
      {
        forall k: nat | k < 8
          ensures ByteHas(a[i], k) <==> ByteHas(b[i], k)
        {
          SameBit(a, b, i, k);
        }
        ByteFromBits(a[i], b[i]);
      }
    }
  }
}
