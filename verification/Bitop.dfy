/** The kernel of BITOP: its path over four words at a time agrees with the byte by byte fold of the zero-padded strings. */
module Bitop {
  import opened ByteBits
  import opened Optional
  import opened MachineWord

  datatype BitOp = And | Or | Xor | Not

  function ByteOp(op: BitOp, a: bv8, b: bv8): bv8 {
    match op
    case And => a & b
    case Or => a | b
    case Xor => a ^ b
    case Not => a
  }

  function Flip(a: bv8): bv8 { !a }

  /** A key that does not exist counts as the empty string. */
  function Text(s: Option<seq<bv8>>): seq<bv8> { if s.Some? then s.value else [] }

  function Pad(s: Option<seq<bv8>>, j: nat): bv8 { if j < |Text(s)| then Text(s)[j] else 0 }

  /** Byte j of the result over the first n strings. */
  function Fold(op: BitOp, srcs: seq<Option<seq<bv8>>>, j: nat, n: nat): bv8
    requires 1 <= n <= |srcs|
  {
    if n == 1 then (if op.Not? then Flip(Pad(srcs[0], j)) else Pad(srcs[0], j))
    else ByteOp(op, Fold(op, srcs, j, n - 1), Pad(srcs[n - 1], j))
  }

  // ----- Words

  function WordOp(op: BitOp, x: bv64, y: bv64): bv64 {
    match op
    case And => x & y
    case Or => x | y
    case Xor => x ^ y
    case Not => !x
  }

  lemma RawHigh(x: bv64, y: bv64)
    ensures (x & y) >> 8 == (x >> 8) & (y >> 8) && (x | y) >> 8 == (x >> 8) | (y >> 8)
    ensures (x ^ y) >> 8 == (x >> 8) ^ (y >> 8)
  {
  }

  lemma RawLowest(x: bv64, y: bv64)
    ensures ((x & y) & 0xFF) as bv8 == ((x & 0xFF) as bv8) & ((y & 0xFF) as bv8)
    ensures ((x | y) & 0xFF) as bv8 == ((x & 0xFF) as bv8) | ((y & 0xFF) as bv8)
    ensures ((x ^ y) & 0xFF) as bv8 == ((x & 0xFF) as bv8) ^ ((y & 0xFF) as bv8)
    ensures ((!x) & 0xFF) as bv8 == !((x & 0xFF) as bv8)
  {
  }

  lemma HighAnd(x: bv64, y: bv64)
    ensures High(WordOp(And, x, y)) == WordOp(And, High(x), High(y))
  {
    RawHigh(x, y);
  }

  lemma LowestAnd(x: bv64, y: bv64)
    ensures Lowest(WordOp(And, x, y)) == ByteOp(And, Lowest(x), Lowest(y))
  {
    RawLowest(x, y);
  }

  lemma HighOr(x: bv64, y: bv64)
    ensures High(WordOp(Or, x, y)) == WordOp(Or, High(x), High(y))
  {
    RawHigh(x, y);
  }

  lemma LowestOr(x: bv64, y: bv64)
    ensures Lowest(WordOp(Or, x, y)) == ByteOp(Or, Lowest(x), Lowest(y))
  {
    RawLowest(x, y);
  }

  lemma HighXor(x: bv64, y: bv64)
    ensures High(WordOp(Xor, x, y)) == WordOp(Xor, High(x), High(y))
  {
    RawHigh(x, y);
  }

  lemma LowestXor(x: bv64, y: bv64)
    ensures Lowest(WordOp(Xor, x, y)) == ByteOp(Xor, Lowest(x), Lowest(y))
  {
    RawLowest(x, y);
  }

  lemma HighOp(op: BitOp, x: bv64, y: bv64)
    requires !op.Not?
    ensures High(WordOp(op, x, y)) == WordOp(op, High(x), High(y))
  {
    hide High, WordOp;
    match op
    case And => HighAnd(x, y);
    case Or => HighOr(x, y);
    case Xor => HighXor(x, y);
  }

  lemma LowestOp(op: BitOp, x: bv64, y: bv64)
    requires !op.Not?
    ensures Lowest(WordOp(op, x, y)) == ByteOp(op, Lowest(x), Lowest(y))
  {
    hide Lowest, WordOp, ByteOp;
    match op
    case And => LowestAnd(x, y);
    case Or => LowestOr(x, y);
    case Xor => LowestXor(x, y);
  }

  /** An operation on words is the operation on each of their bytes. */
  lemma {:induction false} BytesOp(op: BitOp, x: bv64, y: bv64, n: nat, k: nat)
    requires !op.Not? && k < n
    ensures BytesOf(WordOp(op, x, y), n)[k] == ByteOp(op, BytesOf(x, n)[k], BytesOf(y, n)[k])
    decreases n
  {
    hide High, Lowest, WordOp, ByteOp;
    HighOp(op, x, y);
    LowestOp(op, x, y);
    if k > 0 { BytesOp(op, High(x), High(y), n - 1, k - 1); }
  }

  const ONES: bv64 := 0xFFFFFFFFFFFFFFFF

  lemma NotIsXor(x: bv64, b: bv8)
    ensures WordOp(Not, x, 0) == WordOp(Xor, x, ONES) && ByteOp(Xor, b, 0xFF) == Flip(b)
  {
  }

  lemma OnesBytes(k: nat)
    requires k < 8
    ensures BytesOf(ONES, 8)[k] == 0xFF
  {
    var full := [0xFF, 0xFF, 0xFF, 0xFF, 0xFF, 0xFF, 0xFF, 0xFF];
    assert BytesOf(0xFF, 1) == [0xFF];
    assert BytesOf(0xFFFF, 2) == [0xFF, 0xFF];
    assert BytesOf(0xFFFFFF, 3) == [0xFF, 0xFF, 0xFF];
    assert BytesOf(0xFFFFFFFF, 4) == [0xFF, 0xFF, 0xFF, 0xFF];
    assert BytesOf(0xFFFFFFFFFF, 5) == [0xFF, 0xFF, 0xFF, 0xFF, 0xFF];
    assert BytesOf(0xFFFFFFFFFFFF, 6) == [0xFF, 0xFF, 0xFF, 0xFF, 0xFF, 0xFF];
    assert BytesOf(0xFFFFFFFFFFFFFF, 7) == [0xFF, 0xFF, 0xFF, 0xFF, 0xFF, 0xFF, 0xFF];
    assert BytesOf(ONES, 8) == full;
  }

  /** Storing what was loaded gives the same bytes. */
  lemma LoadStore(s: seq<bv8>)
    requires |s| == 8
    ensures BytesOf(Word(s), 8) == s
  {
    hide Word, BytesOf, Fits;
    AllFit(Word(s));
    WordOfBytes(Word(s), 8);
    WordInjective(BytesOf(Word(s), 8), s);
  }

  /** Stores a word. */
  method Store(res: array<bv8>, at: nat, x: bv64)
    requires at + 8 <= res.Length
    modifies res
    ensures forall j :: 0 <= j < res.Length && !(at <= j < at + 8) ==> res[j] == old(res[j])
    ensures forall j :: at <= j < at + 8 ==> res[j] == BytesOf(x, 8)[j - at]
  {
    hide BytesOf;
    var bytes := BytesOf(x, 8);
    for k := 0 to 8
      invariant forall j :: 0 <= j < res.Length && !(at <= j < at + k) ==> res[j] == old(res[j])
      invariant forall j :: at <= j < at + k ==> res[j] == bytes[j - at]
    {
      res[at + k] := bytes[k];
    }
  }

  /** One word of the result is combined with a word of a source, or negated. */
  method CombineWord(op: BitOp, res: array<bv8>, at: nat, src: seq<bv8>)
    requires at + 8 <= res.Length && (!op.Not? ==> at + 8 <= |src|)
    modifies res
    ensures forall j :: 0 <= j < res.Length && !(at <= j < at + 8) ==> res[j] == old(res[j])
    ensures forall j :: at <= j < at + 8 ==> res[j] == if op.Not? then Flip(old(res[j])) else ByteOp(op, old(res[j]), src[j])
  {
    hide Word, WordOp, ByteOp, BytesOf, Flip;
    var here := res[at..at + 8];
    var there := if op.Not? then here else src[at..at + 8];
    var x, y := Word(here), Word(there);
    forall k: nat | k < 8
      ensures BytesOf(WordOp(op, x, y), 8)[k] == if op.Not? then Flip(here[k]) else ByteOp(op, here[k], there[k])
    {
      CombinedByte(op, here, there, k);
    }
    Store(res, at, WordOp(op, x, y));
  }

  lemma CombinedByte(op: BitOp, here: seq<bv8>, there: seq<bv8>, k: nat)
    requires |here| == |there| == 8 && k < 8
    ensures BytesOf(WordOp(op, Word(here), Word(there)), 8)[k]
         == if op.Not? then Flip(here[k]) else ByteOp(op, here[k], there[k])
  {
    hide Word, ByteOp, BytesOf, WordOp, Flip;
    LoadStore(here);
    LoadStore(there);
    if op.Not? {
      NotIsXor(Word(here), here[k]);
      NotIgnores(Word(here), Word(there));
      OnesBytes(k);
      BytesOp(Xor, Word(here), ONES, 8, k);
    } else {
      BytesOp(op, Word(here), Word(there), 8, k);
    }
  }

  lemma NotIgnores(x: bv64, y: bv64)
    ensures WordOp(Not, x, y) == WordOp(Not, x, 0)
  {
  }

  // ----- The kernel

  ghost predicate IsLongest(srcs: seq<Option<seq<bv8>>>, n: nat) {
    (forall i :: 0 <= i < |srcs| ==> |Text(srcs[i])| <= n) && exists i :: 0 <= i < |srcs| && |Text(srcs[i])| == n
  }

  ghost predicate IsShortest(srcs: seq<Option<seq<bv8>>>, n: nat) {
    (forall i :: 0 <= i < |srcs| ==> n <= |Text(srcs[i])|) && exists i :: 0 <= i < |srcs| && |Text(srcs[i])| == n
  }

  /** Lines 616-647: the greatest and the least length; a missing key makes the least one zero. */
  method Lengths(srcs: seq<Option<seq<bv8>>>) returns (maxlen: nat, minlen: nat)
    requires srcs != []
    ensures IsLongest(srcs, maxlen) && IsShortest(srcs, minlen)
  {
    maxlen, minlen := 0, 0;
    for j := 0 to |srcs|
      invariant forall i :: 0 <= i < j ==> minlen <= |Text(srcs[i])| <= maxlen
      invariant j > 0 ==> exists i :: 0 <= i < j && |Text(srcs[i])| == maxlen
      invariant j > 0 ==> exists i :: 0 <= i < j && |Text(srcs[i])| == minlen
      invariant j == 0 ==> maxlen == 0
    {
      if srcs[j].None? {
        minlen := 0;
        assert |Text(srcs[j])| == 0;
      } else {
        var len := |srcs[j].value|;
        assert |Text(srcs[j])| == len;
        if len > maxlen { maxlen := len; }
        if j == 0 || len < minlen { minlen := len; }
      }
    }
  }

  /** Byte j holds the fold over the first n strings. */
  ghost predicate Done(op: BitOp, srcs: seq<Option<seq<bv8>>>, res: array<bv8>, from: nat, to: nat, n: nat)
    requires from <= to <= res.Length && 1 <= n <= |srcs|
    reads res
  {
    forall j :: from <= j < to ==> res[j] == Fold(op, srcs, j, n)
  }

  /** The four words at `at`, combined with those of string i. */
  method CombineFour(op: BitOp, srcs: seq<Option<seq<bv8>>>, res: array<bv8>, at: nat, i: nat)
    requires !op.Not? && 1 <= i < |srcs| && at + 32 <= res.Length && at + 32 <= |Text(srcs[i])|
    requires Done(op, srcs, res, at, at + 32, i)
    modifies res
    ensures Done(op, srcs, res, at, at + 32, i + 1)
    ensures forall j :: 0 <= j < res.Length && !(at <= j < at + 32) ==> res[j] == old(res[j])
  {
    hide ByteOp;
    var src := Text(srcs[i]);
    CombineWord(op, res, at, src);
    CombineWord(op, res, at + 8, src);
    CombineWord(op, res, at + 16, src);
    CombineWord(op, res, at + 24, src);
  }

  /** The same for NOT. */
  method NegateFour(srcs: seq<Option<seq<bv8>>>, res: array<bv8>, at: nat)
    requires srcs != [] && at + 32 <= res.Length && forall j :: at <= j < at + 32 ==> res[j] == Pad(srcs[0], j)
    modifies res
    ensures Done(Not, srcs, res, at, at + 32, 1)
    ensures forall j :: 0 <= j < res.Length && !(at <= j < at + 32) ==> res[j] == old(res[j])
  {
    hide Flip, ByteOp;
    CombineWord(Not, res, at, []);
    CombineWord(Not, res, at + 8, []);
    CombineWord(Not, res, at + 16, []);
    CombineWord(Not, res, at + 24, []);
  }

  /** Lines 658-718: whole blocks of four words, as far as all strings reach. */
  method FastPath(op: BitOp, srcs: seq<Option<seq<bv8>>>, res: array<bv8>, minlen: nat) returns (j: nat)
    requires srcs != [] && (op.Not? ==> |srcs| == 1) && IsShortest(srcs, minlen) && IsLongest(srcs, res.Length)
    modifies res
    ensures j <= res.Length && Done(op, srcs, res, 0, j, |srcs|)
  {
    hide ByteOp, Flip;
    assert minlen <= res.Length;
    forall k | 0 <= k < minlen { res[k] := Text(srcs[0])[k]; }
    j := 0;
    while minlen - j >= 32
      invariant j <= minlen && Done(op, srcs, res, 0, j, |srcs|)
      invariant forall k :: j <= k < minlen ==> res[k] == Text(srcs[0])[k]
    {
      if op.Not? {
        NegateFour(srcs, res, j);
      } else {
        assert Done(op, srcs, res, j, j + 32, 1);
        for i := 1 to |srcs|
          invariant Done(op, srcs, res, 0, j, |srcs|) && Done(op, srcs, res, j, j + 32, i)
          invariant forall k :: j + 32 <= k < minlen ==> res[k] == Text(srcs[0])[k]
        {
          CombineFour(op, srcs, res, j, i);
        }
      }
      j := j + 32;
    }
  }

  /** Lines 722-731: one byte. */
  method FoldByte(op: BitOp, srcs: seq<Option<seq<bv8>>>, j: nat) returns (output: bv8)
    requires srcs != []
    ensures output == Fold(op, srcs, j, |srcs|)
  {
    hide ByteOp;
    output := Pad(srcs[0], j);
    if op.Not? { output := Flip(output); }
    for i := 1 to |srcs|
      invariant output == Fold(op, srcs, j, i)
    {
      output := ByteOp(op, output, Pad(srcs[i], j));
    }
  }

  /** The computation of bitopCommand. */
  method Compute(op: BitOp, srcs: seq<Option<seq<bv8>>>) returns (r: seq<bv8>)
    requires srcs != [] && (op.Not? ==> |srcs| == 1)
    ensures IsLongest(srcs, |r|) && forall j :: 0 <= j < |r| ==> r[j] == Fold(op, srcs, j, |srcs|)
  {
    hide Fold, IsLongest, IsShortest;
    var maxlen, minlen := Lengths(srcs);
    var res := new bv8[maxlen](_ => 0);
    var j := 0;
    if minlen >= 32 && |srcs| <= 16 { j := FastPath(op, srcs, res, minlen); }
    while j < maxlen
      invariant j <= maxlen && Done(op, srcs, res, 0, j, |srcs|)
    {
      var output := FoldByte(op, srcs, j);
      res[j] := output;
      j := j + 1;
    }
    return res[..];
  }

  // ----- What the result is, bit by bit

  lemma AndBit(a: bv8, b: bv8, k: nat)
    requires k < 8
    ensures ByteHas(a & b, k) <==> ByteHas(a, k) && ByteHas(b, k)
  {
  }

  lemma OrBit(a: bv8, b: bv8, k: nat)
    requires k < 8
    ensures ByteHas(a | b, k) <==> ByteHas(a, k) || ByteHas(b, k)
  {
  }

  lemma XorMasked(a: bv8, b: bv8, m: bv8)
    ensures (a ^ b) & m == (a & m) ^ (b & m) && m ^ m == 0 && m ^ 0 == m && 0 ^ m == m
  {
  }

  lemma OneMasked(a: bv8, k: nat)
    requires k < 8
    ensures (a & Bit(k) == 0 || a & Bit(k) == Bit(k)) && Bit(k) != 0
  {
  }

  lemma XorBit(a: bv8, b: bv8, k: nat)
    requires k < 8
    ensures ByteHas(a ^ b, k) <==> ByteHas(a, k) != ByteHas(b, k)
  {
    hide Bit;
    XorMasked(a, b, Bit(k));
    OneMasked(a, k);
    OneMasked(b, k);
  }

  lemma FlipBit(a: bv8, k: nat)
    requires k < 8
    ensures ByteHas(Flip(a), k) <==> !ByteHas(a, k)
  {
  }

  predicate BoolOp(op: BitOp, a: bool, b: bool) {
    match op
    case And => a && b
    case Or => a || b
    case Xor => a != b
    case Not => a
  }

  lemma ByteOpBit(op: BitOp, a: bv8, b: bv8, k: nat)
    requires k < 8
    ensures ByteHas(ByteOp(op, a, b), k) <==> BoolOp(op, ByteHas(a, k), ByteHas(b, k))
  {
    hide ByteHas;
    AndBit(a, b, k);
    OrBit(a, b, k);
    XorBit(a, b, k);
  }

  /** How many of the first n strings have bit k of byte j. */
  function Having(srcs: seq<Option<seq<bv8>>>, j: nat, k: nat, n: nat): nat
    requires n <= |srcs| && k < 8
  {
    if n == 0 then 0 else Having(srcs, j, k, n - 1) + if ByteHas(Pad(srcs[n - 1], j), k) then 1 else 0
  }

  /** A bit is set by AND if all strings have it, by OR if one has, by XOR if an odd number has, by NOT if its string has not. */
  lemma {:induction false} FoldBits(op: BitOp, srcs: seq<Option<seq<bv8>>>, j: nat, k: nat, n: nat)
    requires 1 <= n <= |srcs| && k < 8 && (op.Not? ==> n == 1)
    ensures Having(srcs, j, k, n) <= n
    ensures ByteHas(Fold(op, srcs, j, n), k) <==>
      match op
      case And => Having(srcs, j, k, n) == n
      case Or => Having(srcs, j, k, n) > 0
      case Xor => Having(srcs, j, k, n) % 2 == 1
      case Not => Having(srcs, j, k, n) == 0
    decreases n
  {
    hide ByteHas, Pad, ByteOp, Flip;
    if n == 1 {
      assert Having(srcs, j, k, 0) == 0;
      FlipBit(Pad(srcs[0], j), k);
    } else {
      FoldBits(op, srcs, j, k, n - 1);
      ByteOpBit(op, Fold(op, srcs, j, n - 1), Pad(srcs[n - 1], j), k);
    }
  }
}
