/** 64-bit words: exclusive or, and words as the bytes they are in memory, lowest first. */
module MachineWord {
  function Xor(a: bv64, b: bv64): bv64 { a ^ b }

  lemma XorIs(a: bv64, b: bv64)
    ensures Xor(a, b) == a ^ b
  {
  }

  lemma RawShift(a: bv64, b: bv64)
    ensures (a ^ b) >> 1 == (a >> 1) ^ (b >> 1) && (a ^ b) & 1 == (a & 1) ^ (b & 1)
  {
  }

  lemma XorShift(a: bv64, b: bv64)
    ensures Xor(a, b) >> 1 == Xor(a >> 1, b >> 1) && Xor(a, b) & 1 == (a & 1) ^ (b & 1)
    ensures a & 1 == 0 || a & 1 == 1
  {
    hide Xor;
    XorIs(a, b);
    XorIs(a >> 1, b >> 1);
    RawShift(a, b);
  }

  lemma RawShuffle(a: bv64, b: bv64, c: bv64, d: bv64)
    ensures (a ^ b) ^ (c ^ d) == (a ^ c) ^ (b ^ d)
  {
  }

  lemma XorShuffle(a: bv64, b: bv64, c: bv64, d: bv64)
    ensures Xor(Xor(a, b), Xor(c, d)) == Xor(Xor(a, c), Xor(b, d))
  {
    hide Xor;
    XorOfXors(a, b, c, d);
    XorOfXors(a, c, b, d);
    RawShuffle(a, b, c, d);
  }

  lemma XorOfXors(a: bv64, b: bv64, c: bv64, d: bv64)
    ensures Xor(Xor(a, b), Xor(c, d)) == (a ^ b) ^ (c ^ d)
  {
    hide Xor;
    XorArguments(a, b, c, d);
    XorIs(a ^ b, c ^ d);
  }

  lemma XorArguments(a: bv64, b: bv64, c: bv64, d: bv64)
    ensures Xor(Xor(a, b), Xor(c, d)) == Xor(a ^ b, c ^ d)
  {
    hide Xor;
    XorIs(a, b);
    XorIs(c, d);
  }

  lemma XorOf(a: bv64, b: bv64, p: bv64, q: bv64)
    requires p == a && q == b
    ensures Xor(p, q) == a ^ b
  {
  }

  lemma RawZero(a: bv64, b: bv64)
    ensures a ^ b == 0 <==> a == b
  {
  }

  lemma XorZero(a: bv64, b: bv64)
    ensures Xor(a, b) == 0 <==> a == b
  {
    hide Xor;
    XorIs(a, b);
    RawZero(a, b);
  }

  lemma XorCancel(a: bv64, b: bv64, c: bv64)
    ensures Xor(a, c) == Xor(b, c) ==> a == b
    ensures Xor(c, a) == Xor(c, b) ==> a == b
  {
  }

  lemma XorNone(a: bv64)
    ensures Xor(a, 0) == a && Xor(0, a) == a
  {
  }

  lemma XorAssoc(a: bv64, b: bv64, c: bv64)
    ensures Xor(a, Xor(b, c)) == Xor(Xor(a, b), c)
  {
    hide Xor;
    XorNone(a);
    XorNone(c);
    XorShuffle(a, 0, b, c);
  }

  lemma WideBytes(a: bv8, b: bv8)
    ensures a as bv64 == b as bv64 ==> a == b
  {
  }

  function Shl(w: bv64): bv64 { w << 8 }

  /** Shifting w up by a byte loses nothing. */
  predicate Room(w: bv64) { (w << 8) >> 8 == w && (w << 8) & 0xFF == 0 }

  /** Up to eight bytes as a number, the first one lowest. */
  function Word(s: seq<bv8>): bv64 { if s == [] then 0 else Xor(s[0] as bv64, Shl(Word(s[1..]))) }

  /** x has no more than n bytes. */
  predicate Fits(x: bv64, n: nat) {
    match n
    case 0 => x == 0
    case 1 => x >> 8 == 0
    case 2 => x >> 16 == 0
    case 3 => x >> 24 == 0
    case 4 => x >> 32 == 0
    case 5 => x >> 40 == 0
    case 6 => x >> 48 == 0
    case 7 => x >> 56 == 0
    case _ => true
  }

  lemma Fits7(x: bv64, n: nat)
    requires n <= 7 && Fits(x, n)
    ensures Room(x)
  {
    match n
    case 0 =>
    case 1 =>
    case 2 =>
    case 3 =>
    case 4 =>
    case 5 =>
    case 6 =>
    case 7 =>
  }

  lemma FitsNext(b: bv8, w: bv64, n: nat)
    requires n <= 7 && Fits(w, n)
    ensures Fits(Xor(b as bv64, Shl(w)), n + 1)
  {
    XorIs(b as bv64, Shl(w));
    match n
    case 0 =>
    case 1 =>
    case 2 =>
    case 3 =>
    case 4 =>
    case 5 =>
    case 6 =>
    case 7 =>
  }

  function Low(x: bv64): bv64 { x & 0xFF }

  function High(x: bv64): bv64 { x >> 8 }

  lemma RawLow(b: bv8, w: bv64)
    requires (w << 8) >> 8 == w
    ensures ((b as bv64) ^ (w << 8)) >> 8 == w && ((b as bv64) ^ (w << 8)) & 0xFF == b as bv64
  {
  }

  lemma Parts(b: bv8, w: bv64)
    requires Room(w)
    ensures High(Xor(b as bv64, Shl(w))) == w && Low(Xor(b as bv64, Shl(w))) == b as bv64
  {
    hide Xor;
    XorIs(b as bv64, w << 8);
    RawLow(b, w);
  }

  lemma {:induction false} WordFits(s: seq<bv8>)
    requires |s| <= 8
    ensures Fits(Word(s), |s|)
    decreases |s|
  {
    hide Xor, Fits, Shl;
    if s == [] {
      ZeroFits();
    } else {
      WordFits(s[1..]);
      FitsNext(s[0], Word(s[1..]), |s| - 1);
    }
  }

  lemma ZeroFits()
    ensures Fits(0, 0)
  {
  }

  lemma WordShifts(s: seq<bv8>)
    requires |s| <= 7
    ensures Room(Word(s))
  {
    hide Word, Fits, Room;
    WordFits(s);
    Fits7(Word(s), |s|);
  }

  /** The parts of a word can be read off it. */
  lemma WordParts(s: seq<bv8>)
    requires 1 <= |s| <= 8
    ensures High(Word(s)) == Word(s[1..]) && Low(Word(s)) == s[0] as bv64
  {
    hide Xor, Shl, Room, High, Low;
    WordShifts(s[1..]);
    Parts(s[0], Word(s[1..]));
  }

  lemma {:induction false} WordInjective(s: seq<bv8>, t: seq<bv8>)
    requires |s| == |t| <= 8 && Word(s) == Word(t)
    ensures s == t
    decreases |s|
  {
    hide Word, High, Low;
    if s != [] {
      WordParts(s);
      WordParts(t);
      WideBytes(s[0], t[0]);
      WordInjective(s[1..], t[1..]);
      assert s == [s[0]] + s[1..] && t == [t[0]] + t[1..];
    }
  }

  function Lowest(v: bv64): bv8 { (v & 0xFF) as bv8 }

  /** The n lowest bytes of v, the lowest first. */
  function BytesOf(v: bv64, n: nat): (s: seq<bv8>)
    ensures |s| == n
  {
    if n == 0 then [] else [Lowest(v)] + BytesOf(High(v), n - 1)
  }

  lemma RawBytes(v: bv64)
    ensures (v & 0xFF) ^ (v & 0xFFFFFFFFFFFFFF00) == v
  {
  }

  lemma LowestIs(v: bv64)
    ensures Lowest(v) as bv64 == v & 0xFF
  {
  }

  lemma HighIs(v: bv64)
    ensures Shl(High(v)) == v & 0xFFFFFFFFFFFFFF00
  {
  }

  lemma LowHigh(v: bv64)
    ensures Xor(Lowest(v) as bv64, Shl(High(v))) == v
  {
    hide Xor, Lowest, Shl, High;
    RawBytes(v);
    LowestIs(v);
    HighIs(v);
    XorOf(v & 0xFF, v & 0xFFFFFFFFFFFFFF00, Lowest(v) as bv64, Shl(High(v)));
  }

  lemma FitsHigh(v: bv64, n: nat)
    requires 1 <= n <= 8 && Fits(v, n)
    ensures Fits(High(v), n - 1)
  {
    match n
    case 1 =>
    case 2 =>
    case 3 =>
    case 4 =>
    case 5 =>
    case 6 =>
    case 7 =>
    case 8 =>
  }

  lemma {:induction false} WordOfBytes(v: bv64, n: nat)
    requires n <= 8 && Fits(v, n)
    ensures Word(BytesOf(v, n)) == v
    decreases n
  {
    hide Xor, Shl, High, Lowest, Fits;
    if n == 0 {
      NoneFits(v);
    } else {
      FitsHigh(v, n);
      WordOfBytes(High(v), n - 1);
      LowHigh(v);
      assert BytesOf(v, n)[1..] == BytesOf(High(v), n - 1);
    }
  }

  lemma NoneFits(v: bv64)
    requires Fits(v, 0)
    ensures v == 0
  {
  }

  lemma AllFit(v: bv64)
    ensures Fits(v, 8)
  {
  }
}
