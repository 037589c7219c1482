/** What BITFIELD answers: each reply stated by what another operation on the same field answers. */
module BitfieldReplies {
  import opened Optional
  import opened Binary
  import opened ByteBits
  import opened Bitfield
  import opened BitfieldOps

  /** Reading the field that r names. */
  function GetOf(r: Request): Request { r.(op := Get) }

  lemma RanOne(p: seq<bv8>, r: Request)
    requires Allowed(r) && Inside(p, r)
    ensures Runnable(p, [r]) && Ran(p, [r]) == (Applied(p, r), [Reply(p, r)])
  {
    hide Applied, Reply, Allowed;
    assert [r][..0] == [];
    assert Ran(p, []) == (p, []);
    assert [] + [Reply(p, r)] == [Reply(p, r)];
  }

  lemma RanTwo(p: seq<bv8>, r: Request, s: Request)
    requires Allowed(r) && Inside(p, r) && Allowed(s) && Inside(p, s)
    ensures var q := Applied(p, r);
      Runnable(p, [r, s]) && Inside(q, s) && Ran(p, [r, s]) == (Applied(q, s), [Reply(p, r), Reply(q, s)])
  {
    hide Applied, Reply, Allowed;
    assert [r, s][..1] == [r];
    RanOne(p, r);
    assert [Reply(p, r)] + [Reply(Applied(p, r), s)] == [Reply(p, r), Reply(Applied(p, r), s)];
  }

  /** GET answers, and changes nothing. */
  lemma GetLeaves(p: seq<bv8>, r: Request)
    requires Allowed(r) && r.op.Get?
    ensures Applied(p, r) == p && Reply(p, r) == Some(Read(p, r))
  {
  }

  /** A SET that is made answers what a GET just before it does: the number the field held. */
  lemma SetAnswersTheOld(p: seq<bv8>, r: Request)
    requires r.op.Set? && Allowed(r) && Inside(p, r)
    ensures Runnable(p, [GetOf(r), r])
    ensures var replies := Ran(p, [GetOf(r), r]).1;
      replies[0].Some? && (replies[1].Some? ==> replies[1] == replies[0])
  {
    hide Read, Wanted;
    RanTwo(p, GetOf(r), r);
    GetLeaves(p, GetOf(r));
    SameRead(p, r);
  }

  /** An INCRBY that is made answers what a GET just after it does: the number the field holds now. */
  lemma IncrementAnswersTheNew(p: seq<bv8>, r: Request)
    requires r.op.IncrBy? && Allowed(r) && Inside(p, r)
    ensures Runnable(p, [r, GetOf(r)])
    ensures var replies := Ran(p, [r, GetOf(r)]).1;
      replies[1].Some? && (replies[0].Some? ==> replies[0] == replies[1])
  {
    hide Read, Wanted;
    RanTwo(p, r, GetOf(r));
    GetLeaves(Applied(p, r), GetOf(r));
    WriteReads(p, r);
    SameRead(Applied(p, r), r);
  }

  /** The field named does not depend on the operation. */
  lemma SameRead(p: seq<bv8>, r: Request)
    requires Allowed(r)
    ensures Allowed(GetOf(r)) && Read(p, GetOf(r)) == Read(p, r)
  {
  }

  /** The number a write asks for. */
  function Asked(p: seq<bv8>, r: Request): int
    requires Allowed(r) && !r.op.Get?
  {
    if r.op.Set? then r.op.value else Read(p, r) + r.op.incr
  }

  /** There is no answer exactly when a write under FAIL asks for a number out of range; then nothing is written. */
  lemma NoAnswerExactly(p: seq<bv8>, r: Request)
    requires Allowed(r) && Inside(p, r)
    ensures Runnable(p, [r]) && var (q, replies) := Ran(p, [r]);
      && (replies[0].None? <==> !r.op.Get? && r.ow.FailOn? && !(Lowest(r) <= Asked(p, r) <= Highest(r)))
      && (replies[0].None? ==> q == p)
  {
    hide Pow2, Read, Wrapped, Field, Stored;
    RanOne(p, r);
    Bounds(r.bits);
    if r.op.Set? && !r.sign && r.op.value < 0 { assert AsU64(r.op.value) == r.op.value + TWO64; }
  }

  /** A write in range stores exactly what it asks for. */
  lemma InRangeIsStored(p: seq<bv8>, r: Request)
    requires Allowed(r) && Inside(p, r) && !r.op.Get? && Lowest(r) <= Asked(p, r) <= Highest(r)
    ensures Runnable(p, [r]) && Read(Ran(p, [r]).0, r) == Asked(p, r)
  {
    hide Pow2, Read, Wrapped, Field, Stored, Applied;
    RanOne(p, r);
    Bounds(r.bits);
    WriteReads(p, r);
  }

  /** A field of eight bits holding 5: SET 9 answers 5, and INCRBY 1 answers 6. */
  lemma FiveThenNine(p: seq<bv8>)
    requires |p| >= 1 && Field(p, 0, 8) == 5
    ensures Runnable(p, [Request(Set(9), false, 8, 0, Wrap)]) && Runnable(p, [Request(IncrBy(1), false, 8, 0, Wrap)])
    ensures Ran(p, [Request(Set(9), false, 8, 0, Wrap)]).1 == [Some(5)]
    ensures Ran(p, [Request(IncrBy(1), false, 8, 0, Wrap)]).1 == [Some(6)]
  {
    hide Field, Stored;
    assert Pow2(8) == 256;
    RanOne(p, Request(Set(9), false, 8, 0, Wrap));
    RanOne(p, Request(IncrBy(1), false, 8, 0, Wrap));
  }

  // ----- Fields as numbers written in a larger base

  lemma FieldNext(p: seq<bv8>, offset: nat, n: nat)
    ensures Field(p, offset, n + 1) == 2 * Field(p, offset, n) + if BitAt(p, offset + n) then 1 else 0
  {
    hide BitAt;
  }

  lemma NoBitsRead(p: seq<bv8>, o: nat)
    ensures Field(p, o, 0) == 0 && Pow2(0) == 1
  {
  }

  lemma Doubled(x: nat, b: nat)
    ensures x * Pow2(b + 1) == 2 * (x * Pow2(b))
  {
    var h := Pow2(b);
    assert Pow2(b + 1) == 2 * h;
  }

  /** A field is its first bits followed by the others. */
  lemma {:induction false} FieldSplits(p: seq<bv8>, offset: nat, a: nat, b: nat)
    ensures Field(p, offset, a + b) == Field(p, offset, a) * Pow2(b) + Field(p, offset + a, b)
    decreases b
  {
    hide BitAt, Field, Pow2;
    if b == 0 {
      NoBitsRead(p, offset + a);
    } else {
      FieldSplits(p, offset, a, b - 1);
      FieldNext(p, offset, a + b - 1);
      FieldNext(p, offset + a, b - 1);
      Doubled(Field(p, offset, a), b - 1);
    }
  }

  function Weight(x: bv8, k: nat, w: nat): (r: nat)
    requires k < 8
    ensures r == 0 || r == w
  {
    if ByteHas(x, k) then w else 0
  }

  lemma ByteSum(x: bv8)
    ensures x as int == Weight(x, 7, 128) + Weight(x, 6, 64) + Weight(x, 5, 32) + Weight(x, 4, 16)
                      + Weight(x, 3, 8) + Weight(x, 2, 4) + Weight(x, 1, 2) + Weight(x, 0, 1)
  {
  }

  lemma SmallPowers()
    ensures Pow2(0) == 1 && Pow2(1) == 2 && Pow2(2) == 4 && Pow2(3) == 8 && Pow2(4) == 16 && Pow2(5) == 32
    ensures Pow2(6) == 64 && Pow2(7) == 128 && Pow2(8) == 256
  {
  }

  /** The next bit of a field on a byte boundary. */
  lemma NextOfByte(p: seq<bv8>, i: nat, n: nat, w: nat)
    requires i < |p| && n < 8
    ensures Field(p, 8 * i, n + 1) == 2 * Field(p, 8 * i, n) + if Weight(p[i], 7 - n, 1) == 1 then 1 else 0
    ensures Weight(p[i], 7 - n, w) == w * if Weight(p[i], 7 - n, 1) == 1 then 1 else 0
  {
    hide ByteHas, Field;
    FieldNext(p, 8 * i, n);
    assert (8 * i + n) / 8 == i && (8 * i + n) % 8 == n;
  }

  /** A field of eight bits on a byte boundary is the byte, highest bit first. */
  lemma FieldOfByte(p: seq<bv8>, i: nat)
    requires i < |p|
    ensures Field(p, 8 * i, 8) == p[i] as int
  {
    hide ByteHas, Field, Weight, Pow2;
    NoBitsRead(p, 8 * i);
    NextOfByte(p, i, 0, 128);
    NextOfByte(p, i, 1, 64);
    NextOfByte(p, i, 2, 32);
    NextOfByte(p, i, 3, 16);
    NextOfByte(p, i, 4, 8);
    NextOfByte(p, i, 5, 4);
    NextOfByte(p, i, 6, 2);
    NextOfByte(p, i, 7, 1);
    ByteSum(p[i]);
  }

  /** Bytes read as one number, the first byte highest. */
  function BigEndian(s: seq<bv8>): nat {
    if s == [] then 0 else 256 * BigEndian(s[..|s| - 1]) + s[|s| - 1] as int
  }

  /** Whole bytes read as a field are a big-endian number. */
  lemma {:induction false} BytesReadBigEndian(p: seq<bv8>, i: nat, n: nat)
    requires i + n <= |p|
    ensures Field(p, 8 * i, 8 * n) == BigEndian(p[i..i + n])
    decreases n
  {
    hide Field;
    if n == 0 {
      NoBitsRead(p, 8 * i);
    } else {
      BytesReadBigEndian(p, i, n - 1);
      FieldSplits(p, 8 * i, 8 * (n - 1), 8);
      FieldOfByte(p, i + n - 1);
      SmallPowers();
      assert p[i..i + n][..n - 1] == p[i..i + n - 1];
    }
  }
}
