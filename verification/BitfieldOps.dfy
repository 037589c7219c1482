/** What SET, INCRBY and GET of BITFIELD do, stated on whole numbers and proved of the 64-bit code. */
module BitfieldOps {
  import opened Optional
  import opened Binary
  import opened ByteBits
  import opened Bitfield

  predicate IsI64(x: int) { -TWO63 <= x < TWO63 }

  /** The conversions between the 64-bit types. */
  function AsU64(x: int): (u: nat)
    ensures u < TWO64
  {
    x % TWO64
  }

  function AsI64(u: nat): int
    requires u < TWO64
  {
    if u >= TWO63 then u - TWO64 else u
  }

  // ----- Overflow

  datatype Overflow = Wrap | Sat | FailOn

  /** The number in lo..lo + m - 1 that differs from x by a multiple of m. */
  function Wrapped(x: int, lo: int, m: int): (r: int)
    requires m > 0
    ensures lo <= r < lo + m
  {
    lo + (x - lo) % m
  }

  /** The number x made to fit lo..hi, when the rule allows it. */
  function Limit(x: int, lo: int, hi: int, ow: Overflow): Option<int>
    requires lo <= hi
  {
    if lo <= x <= hi then Some(x) else
      match ow
      case Wrap => Some(Wrapped(x, lo, hi - lo + 1))
      case Sat => Some(if x > hi then hi else lo)
      case FailOn => None
  }

  /** The bits of x below a mask of its higher ones. */
  function LowBits(x: int, bits: nat): (r: nat)
    ensures r < Pow2(bits)
  {
    x % Pow2(bits)
  }

  lemma RoundTrip(x: int)
    ensures IsI64(x) ==> AsI64(AsU64(x)) == x
  {
  }

  lemma SmallWord(x: int)
    ensures 0 <= x < TWO64 ==> AsU64(x) == x
  {
  }

  lemma LowWord(x: int, bits: nat)
    requires bits <= 64
    ensures LowBits(AsU64(x), bits) == LowBits(x, bits)
  {
    Pow2Of64();
    Pow2Sum(bits, 64 - bits);
    ModuloTwice(x, Pow2(bits), Pow2(64 - bits));
  }

  lemma Bounds(bits: nat)
    requires 1 <= bits <= 63
    ensures 2 * Pow2(bits - 1) == Pow2(bits) <= TWO63
  {
    Pow2Of64();
    Pow2Grows(bits, 63);
  }

  /** checkUnsignedBitfieldOverflow. */
  method CheckUnsigned(value: nat, incr: int, bits: nat, ow: Overflow) returns (r: int, limit: Option<int>)
    requires 1 <= bits <= 63 && value < TWO64 && IsI64(incr)
    ensures value < Pow2(bits) || incr == 0 ==>
      && (r == 0 <==> 0 <= value + incr < Pow2(bits))
      && (r != 0 ==> limit == Limit(value + incr, 0, Pow2(bits) - 1, ow))
  {
    hide Pow2, Wrapped, AsU64, AsI64;
    Bounds(bits);
    var max := Pow2(bits) - 1;
    if value <= max {
      RoundTrip(max - value);
      RoundTrip(0 - value);
    }
    var maxincr, minincr := AsI64(AsU64(max - value)), AsI64(AsU64(0 - value));
    if value > max || (incr > 0 && incr > maxincr) {
      if ow.Wrap? {
        limit := WrapUnsigned(value, incr, bits);
        return 1, limit;
      }
      return 1, if ow.Sat? then Some(max) else None;
    } else if incr < 0 && incr < minincr {
      if ow.Wrap? {
        limit := WrapUnsigned(value, incr, bits);
        return 1, limit;
      }
      return -1, if ow.Sat? then Some(0) else None;
    }
    return 0, None;
  }

  /** handle_wrap: only the bits below the mask are kept. */
  method WrapUnsigned(value: nat, incr: int, bits: nat) returns (limit: Option<int>)
    requires 1 <= bits <= 63 && value < TWO64
    ensures limit == Some(Wrapped(value + incr, 0, Pow2(bits)))
  {
    hide Pow2, AsU64;
    var res := AsU64(value + incr);
    LowWord(value + incr, bits);
    return Some(LowBits(res, bits));
  }

  /** The least and the greatest number of a signed field. */
  function Min(bits: nat): int
    requires bits >= 1
  {
    0 - Pow2(bits - 1)
  }

  function Max(bits: nat): int
    requires bits >= 1
  {
    Pow2(bits - 1) - 1
  }

  /** So far below the field that the distance to its greatest number leaves 64 bits, where it wraps to a negative one. */
  predicate FarBelow(value: int, bits: nat)
    requires bits >= 1
  {
    Max(bits) - value >= TWO63
  }

  /** checkSignedBitfieldOverflow; its two differences wrap as two's complement. */
  method CheckSigned(value: int, incr: int, bits: nat, ow: Overflow) returns (r: int, limit: Option<int>)
    requires 1 <= bits <= 63 && IsI64(value) && IsI64(incr)
    ensures Min(bits) <= value <= Max(bits) || incr == 0 ==>
      && (r == 0 <==> Min(bits) <= value + incr <= Max(bits))
      && (r != 0 ==> limit == if ow.Sat? && FarBelow(value, bits) then Some(Max(bits))
                              else Limit(value + incr, Min(bits), Max(bits), ow))
  {
    hide Pow2, Wrapped, AsU64, AsI64;
    Bounds(bits);
    var max := Pow2(bits - 1) - 1;
    var min := 0 - max - 1;
    Difference(max, value);
    Difference(min, value);
    var maxincr, minincr := AsI64(AsU64(max - value)), AsI64(AsU64(min - value));
    if value > max || (bits != 64 && incr > maxincr) || (value >= 0 && incr > 0 && incr > maxincr) {
      if ow.Wrap? {
        limit := WrapSigned(value, incr, bits);
        return 1, limit;
      }
      return 1, if ow.Sat? then Some(max) else None;
    } else if value < min || (bits != 64 && incr < minincr) || (value < 0 && incr < 0 && incr < minincr) {
      if ow.Wrap? {
        limit := WrapSigned(value, incr, bits);
        return 1, limit;
      }
      return -1, if ow.Sat? then Some(min) else None;
    }
    return 0, None;
  }

  /** A difference of two 64-bit numbers, as 64 bits hold it. */
  lemma Difference(a: int, b: int)
    requires IsI64(a) && IsI64(b)
    ensures AsI64(AsU64(a - b)) ==
      if a - b >= TWO63 then a - b - TWO64 else if a - b < -TWO63 then a - b + TWO64 else a - b
  {
  }

  /** handle_wrap: the sign bit of the sum is carried into all higher bits, or those are cleared. */
  method WrapSigned(value: int, incr: int, bits: nat) returns (limit: Option<int>)
    requires 1 <= bits <= 63
    ensures limit == Some(Wrapped(value + incr, Min(bits), Pow2(bits)))
  {
    hide Pow2, Wrapped, AsU64, LowBits, ValueBit;
    Bounds(bits);
    var c := AsU64(AsU64(value) + AsU64(incr));
    SumWord(value, incr);
    LowWord(value + incr, bits);
    TopBit(c, bits);
    TwosComplement(value + incr, bits);
    if ValueBit(c, bits - 1) {
      c := TWO64 - Pow2(bits) + LowBits(c, bits);
    } else {
      c := LowBits(c, bits);
    }
    return Some(AsI64(c));
  }

  lemma SumWord(a: int, b: int)
    ensures AsU64(AsU64(a) + AsU64(b)) == AsU64(a + b)
  {
  }

  /** The highest bit of the low part tells which half it lies in. */
  lemma TopBit(c: nat, bits: nat)
    requires bits >= 1
    ensures ValueBit(c, bits - 1) <==> LowBits(c, bits) >= Pow2(bits - 1)
  {
    var h := Pow2(bits - 1);
    var q, r := c / h, c % h;
    assert c == q * h + r;
    var s, t := q / 2, q % 2;
    assert q * h == s * (2 * h) + t * h;
    assert t == 0 || t == 1;
    assert 0 <= t * h + r < 2 * h;
    DivUnique(c, 2 * h, s, t * h + r);
  }

  lemma TwosComplement(x: int, bits: nat)
    requires bits >= 1
    ensures var low := LowBits(x, bits);
      Wrapped(x, Min(bits), Pow2(bits)) == if low >= Pow2(bits - 1) then low - Pow2(bits) else low
  {
    var m, h := Pow2(bits), Pow2(bits - 1);
    var q, r := x / m, x % m;
    assert x == q * m + r;
    if r >= h {
      assert (q + 1) * m == q * m + m;
      DivUnique(x + h, m, q + 1, r + h - m);
    } else {
      DivUnique(x + h, m, q, r + h);
    }
  }

  // ----- Signed fields

  function Signed(u: nat, bits: nat): int
    requires bits >= 1
  {
    if u >= Pow2(bits - 1) then u - Pow2(bits) else u
  }

  /** getSignedBitfield: or-ing ones into the clear higher bits adds 2^64 - 2^bits. */
  method GetSignedBitfield(p: seq<bv8>, offset: nat, bits: nat) returns (value: int)
    requires 1 <= bits <= 63 && offset + bits <= 8 * |p|
    ensures value == Signed(Field(p, offset, bits), bits)
  {
    hide Pow2, Field, ValueBit;
    Bounds(bits);
    var u := GetUnsignedBitfield(p, offset, bits);
    TopBit(u, bits);
    SmallIsLow(u, bits);
    value := AsI64(if ValueBit(u, bits - 1) then TWO64 - Pow2(bits) + u else u);
  }

  lemma SmallIsLow(u: nat, bits: nat)
    requires u < Pow2(bits)
    ensures LowBits(u, bits) == u
  {
    hide Pow2;
    DivUnique(u, Pow2(bits), 0, u);
  }

  /** A number that fits is read back, also when it is negative. */
  lemma SignedReads(v: int, bits: nat)
    requires 1 <= bits <= 63 && Min(bits) <= v <= Max(bits)
    ensures Signed(LowBits(AsU64(v), bits), bits) == v
  {
    hide Pow2, AsU64, LowBits;
    Bounds(bits);
    LowWord(v, bits);
    TwosComplement(v, bits);
    InRangeStays(v, Min(bits), Pow2(bits));
  }

  lemma InRangeStays(x: int, lo: int, m: int)
    requires m > 0 && lo <= x < lo + m
    ensures Wrapped(x, lo, m) == x
  {
  }

  // ----- The operations

  datatype Op = Get | Set(value: int) | IncrBy(incr: int)

  datatype Request = Request(op: Op, sign: bool, bits: nat, offset: nat, ow: Overflow)

  /** Widths up to 63 and 64-bit arguments. */
  predicate Allowed(r: Request) {
    && 1 <= r.bits <= 63
    && (r.op.IncrBy? ==> IsI64(r.op.incr))
    && (r.op.Set? ==> IsI64(r.op.value))
  }

  /** The field lies inside the string: lookupStringForBitCommand has made room for every write. */
  predicate Inside(p: seq<bv8>, r: Request) { r.op.Get? || r.offset + r.bits <= 8 * |p| }

  function Lowest(r: Request): int
    requires Allowed(r)
  {
    if r.sign then Min(r.bits) else 0
  }

  function Highest(r: Request): (h: int)
    requires Allowed(r)
    ensures Lowest(r) <= h && h - Lowest(r) + 1 == Pow2(r.bits)
  {
    if r.sign then Max(r.bits) else Pow2(r.bits) - 1
  }

  /** The number in the field a request names. */
  function Read(p: seq<bv8>, r: Request): int
    requires Allowed(r)
  {
    var u := Field(p, r.offset, r.bits);
    if r.sign then Signed(u, r.bits) else u
  }

  /** The number a SET leaves in the field, or none when it may not be made. */
  function Settled(v: int, r: Request): Option<int>
    requires Allowed(r)
  {
    if !r.sign then Limit(AsU64(v), 0, Highest(r), r.ow)
    else if r.ow.Sat? && FarBelow(v, r.bits) then Some(Max(r.bits))
    else Limit(v, Lowest(r), Highest(r), r.ow)
  }

  /** The number a write leaves in the field, or none when it may not be made. */
  function Wanted(p: seq<bv8>, r: Request): Option<int>
    requires Allowed(r)
  {
    match r.op
    case Get => None
    case Set(v) => Settled(v, r)
    case IncrBy(n) => Limit(Read(p, r) + n, Lowest(r), Highest(r), r.ow)
  }

  function Reply(p: seq<bv8>, r: Request): Option<int>
    requires Allowed(r)
  {
    match r.op
    case Get => Some(Read(p, r))
    case Set(_) => if Wanted(p, r).Some? then Some(Read(p, r)) else None
    case IncrBy(_) => Wanted(p, r)
  }

  function Applied(p: seq<bv8>, r: Request): (q: seq<bv8>)
    requires Allowed(r) && Inside(p, r)
    ensures |q| == |p|
  {
    match Wanted(p, r)
    case None => p
    case Some(v) => Stored(p, r.offset, r.bits, AsU64(v), r.bits)
  }

  /** After a write the field holds exactly the number wanted. */
  lemma WriteReads(p: seq<bv8>, r: Request)
    requires Allowed(r) && Inside(p, r)
    ensures Wanted(p, r).Some? ==> Read(Applied(p, r), r) == Wanted(p, r).value
    ensures Wanted(p, r).None? ==> Applied(p, r) == p
  {
    hide Pow2, Field, Stored, AsU64, LowBits, Read;
    if Wanted(p, r).Some? {
      var v := Wanted(p, r).value;
      LimitFits(p, r);
      Bounds(r.bits);
      GetAfterSet(p, r.offset, r.bits, AsU64(v));
      ReadIs(Applied(p, r), r, AsU64(v));
      if r.sign { SignedReads(v, r.bits); } else { UnsignedReads(v, r.bits); }
    }
  }

  /**
   SET stores its value made to fit the field if and only if it does not saturate, or the value is not negative in an
   unsigned field, nor in a signed one so low that its distance to the greatest number leaves 64 bits.
   */
  lemma SetClampsExactly(p: seq<bv8>, r: Request)
    requires Allowed(r) && r.op.Set?
    ensures Wanted(p, r) == Limit(r.op.value, Lowest(r), Highest(r), r.ow) <==>
      !(r.ow.Sat? && if r.sign then FarBelow(r.op.value, r.bits) else r.op.value < 0)
  {
    hide Pow2, Wrapped;
    var v := r.op.value;
    Bounds(r.bits);
    if !r.sign {
      if v >= 0 {
        assert AsU64(v) == v;
      } else {
        assert AsU64(v) == v + TWO64;
        SameLowBits(v, r.bits);
      }
    }
  }

  lemma SameLowBits(x: int, bits: nat)
    requires 1 <= bits <= 63
    ensures Wrapped(AsU64(x), 0, Pow2(bits)) == Wrapped(x, 0, Pow2(bits))
  {
    hide Pow2, AsU64;
    LowWord(x, bits);
  }

  /** BITFIELD key OVERFLOW SAT SET u8 0 -1 leaves 255 in the field, where the clamp to 0..255 is 0. */
  lemma SaturatedMinusOne(p: seq<bv8>)
    requires |p| > 0
    ensures var r := Request(Set(-1), false, 8, 0, Sat);
      Allowed(r) && Limit(-1, 0, Highest(r), Sat) == Some(0) && Read(Applied(p, r), r) == 255
  {
    hide Field, Stored;
    var r := Request(Set(-1), false, 8, 0, Sat);
    assert Pow2(8) == 256;
    WriteReads(p, r);
  }

  /** BITFIELD key OVERFLOW SAT SET i8 0 -9223372036854775808 leaves 127, where the clamp to -128..127 is -128. */
  lemma SaturatedLowest(p: seq<bv8>)
    requires |p| > 0
    ensures var r := Request(Set(-TWO63), true, 8, 0, Sat);
      Allowed(r) && Limit(-TWO63, Lowest(r), Highest(r), Sat) == Some(-128) && Read(Applied(p, r), r) == 127
  {
    hide Field, Stored;
    var r := Request(Set(-TWO63), true, 8, 0, Sat);
    assert Pow2(7) == 128;
    WriteReads(p, r);
  }

  lemma LimitFits(p: seq<bv8>, r: Request)
    requires Allowed(r) && Wanted(p, r).Some?
    ensures Lowest(r) <= Wanted(p, r).value <= Highest(r)
  {
    hide Pow2, Read, AsU64;
  }

  lemma ReadIs(p: seq<bv8>, r: Request, u: nat)
    requires Allowed(r) && Field(p, r.offset, r.bits) == u % Pow2(r.bits)
    ensures Read(p, r) == if r.sign then Signed(LowBits(u, r.bits), r.bits) else LowBits(u, r.bits)
  {
    hide Field;
  }

  lemma UnsignedReads(v: int, bits: nat)
    requires 1 <= bits <= 63 && 0 <= v < Pow2(bits)
    ensures LowBits(AsU64(v), bits) == v
  {
    LowWord(v, bits);
    SmallIsLow(v, bits);
  }

  /** The signed path of SET and INCRBY: whether the new number may be stored, and what it is. */
  method NextSigned(oldval: int, r: Request) returns (newval: Option<int>)
    requires Allowed(r) && r.sign && !r.op.Get? && Min(r.bits) <= oldval <= Max(r.bits)
    ensures newval ==
      if r.op.Set? then Settled(r.op.value, r) else Limit(oldval + r.op.incr, Lowest(r), Highest(r), r.ow)
  {
    hide Pow2, AsU64, AsI64, Wrapped;
    Bounds(r.bits);
    var overflow, wrapped;
    var v;
    if r.op.IncrBy? {
      RoundTrip(oldval + r.op.incr);
      v := AsI64(AsU64(oldval + r.op.incr));
      overflow, wrapped := CheckSigned(oldval, r.op.incr, r.bits, r.ow);
    } else {
      v := r.op.value;
      overflow, wrapped := CheckSigned(v, 0, r.bits, r.ow);
    }
    newval := if overflow != 0 then wrapped else Some(v);
  }

  method NextUnsigned(oldval: nat, r: Request) returns (newval: Option<int>)
    requires Allowed(r) && !r.sign && !r.op.Get? && oldval < Pow2(r.bits)
    ensures newval ==
      if r.op.Set? then Settled(r.op.value, r) else Limit(oldval + r.op.incr, 0, Highest(r), r.ow)
  {
    hide Pow2, AsU64, Wrapped;
    Bounds(r.bits);
    var overflow, wrapped;
    var v;
    if r.op.IncrBy? {
      SmallWord(oldval + r.op.incr);
      v := AsU64(oldval + r.op.incr);
      overflow, wrapped := CheckUnsigned(oldval, r.op.incr, r.bits, r.ow);
    } else {
      v := AsU64(r.op.value);
      overflow, wrapped := CheckUnsigned(v, 0, r.bits, r.ow);
    }
    newval := if overflow != 0 then wrapped else Some(v);
  }

  /** GET: works on a zero-padded copy of nine bytes, which is enough for any width. */
  method ReadPadded(p: seq<bv8>, r: Request) returns (value: int)
    requires Allowed(r)
    ensures value == Read(p, r)
  {
    hide Pow2, Field;
    var byte := r.offset / 8;
    var buf := seq(9, i requires 0 <= i => if byte + i < |p| then p[byte + i] else 0);
    PaddedField(p, buf, r.offset, r.bits);
    if r.sign {
      value := GetSignedBitfield(buf, r.offset - byte * 8, r.bits);
    } else {
      value := GetUnsignedBitfield(buf, r.offset - byte * 8, r.bits);
    }
  }

  lemma PaddedField(p: seq<bv8>, buf: seq<bv8>, offset: nat, bits: nat)
    requires |buf| == 9 && bits <= 64
    requires forall i :: 0 <= i < 9 ==> buf[i] == if offset / 8 + i < |p| then p[offset / 8 + i] else 0
    ensures Field(buf, offset - offset / 8 * 8, bits) == Field(p, offset, bits)
  {
    hide Field, ByteHas;
    var byte, m := offset / 8, offset % 8;
    forall k: nat | k < bits
      ensures FieldBit(buf, m, k) == FieldBit(p, offset, k)
    {
      var i := (m + k) / 8;
      assert i < 9 && (offset + k) / 8 == byte + i && (offset + k) % 8 == (m + k) % 8;
      NoBits(7 - (m + k) % 8);
    }
    SameField(buf, p, m, offset, bits);
  }

  /** One operation of bitfieldCommand. */
  method Exec(p: array<bv8>, r: Request) returns (reply: Option<int>)
    requires Allowed(r) && Inside(p[..], r)
    modifies p
    ensures reply == Reply(old(p[..]), r) && p[..] == Applied(old(p[..]), r)
  {
    hide Pow2, Field, Stored, AsU64, Limit;
    if r.op.Get? {
      var v := ReadPadded(p[..], r);
      return Some(v);
    }
    var newval: Option<int>, oldval: int;
    if r.sign {
      Bounds(r.bits);
      oldval := GetSignedBitfield(p[..], r.offset, r.bits);
      newval := NextSigned(oldval, r);
    } else {
      oldval := GetUnsignedBitfield(p[..], r.offset, r.bits);
      newval := NextUnsigned(oldval, r);
    }
    if newval.None? { return None; }
    SetUnsignedBitfield(p, r.offset, r.bits, AsU64(newval.value));
    return Some(if r.op.Set? then oldval else newval.value);
  }

  predicate Runnable(p: seq<bv8>, rs: seq<Request>) { forall i :: 0 <= i < |rs| ==> Allowed(rs[i]) && Inside(p, rs[i]) }

  /** The string and the replies after a list of operations, each on the string the ones before it left. */
  function Ran(p: seq<bv8>, rs: seq<Request>): (q: (seq<bv8>, seq<Option<int>>))
    requires Runnable(p, rs)
    ensures |q.0| == |p| && |q.1| == |rs|
  {
    if rs == [] then (p, []) else
      var r := rs[|rs| - 1];
      var (before, replies) := Ran(p, rs[..|rs| - 1]);
      (Applied(before, r), replies + [Reply(before, r)])
  }

  /** The loop of bitfieldCommand. */
  method BitfieldCommand(p: array<bv8>, ops: seq<Request>) returns (replies: seq<Option<int>>)
    requires Runnable(p[..], ops)
    modifies p
    ensures (p[..], replies) == Ran(old(p[..]), ops)
  {
    hide Applied, Reply, Allowed;
    replies := [];
    for j := 0 to |ops|
      invariant (p[..], replies) == Ran(old(p[..]), ops[..j])
    {
      assert ops[..j + 1][..j] == ops[..j];
      var reply := Exec(p, ops[j]);
      replies := replies + [reply];
    }
    assert ops[..|ops|] == ops;
  }
}
