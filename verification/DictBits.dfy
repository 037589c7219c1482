/** The arithmetic of power of two tables: masking a hash is taking it modulo the size. */
module DictBits {
  import opened Binary

  const DICT_HT_INITIAL_SIZE := 4
  const LONG_MAX := 0x7FFF_FFFF_FFFF_FFFF

  predicate IsPowerOfTwo(n: nat) { n == 1 || (n > 1 && n % 2 == 0 && IsPowerOfTwo(n / 2)) }

  lemma Doubles(n: nat)
    ensures IsPowerOfTwo(2) && (IsPowerOfTwo(n) ==> IsPowerOfTwo(2 * n))
  {
  }

  /** Bitwise and. */
  function And(x: nat, y: nat): nat {
    if x == 0 || y == 0 then 0 else (x % 2) * (y % 2) + 2 * And(x / 2, y / 2)
  }

  /** Why the table size is kept a power of two. */
  lemma {:induction false} MaskIsModulo(h: nat, size: nat)
    requires IsPowerOfTwo(size)
    ensures And(h, size - 1) == h % size
  {
    hide And;
    if size == 1 {
      AndZero(h);
    } else {
      var m := size / 2;
      MaskIsModulo(h / 2, m);
      HalfModulo(h, m);
      AndOdd(h, size - 1);
    }
  }

  lemma AndZero(x: nat)
    ensures And(x, 0) == 0
  {
  }

  lemma AndOdd(x: nat, y: nat)
    requires y % 2 == 1
    ensures And(x, y) == x % 2 + 2 * And(x / 2, y / 2)
  {
  }

  /** _dictNextPower: the least power of two that is at least 4 and at least size. */
  method NextPower(size: nat) returns (r: nat)
    ensures size < LONG_MAX ==> r >= 4 && r >= size && IsPowerOfTwo(r)
    ensures size < LONG_MAX ==> forall p: nat :: p >= 4 && p >= size && IsPowerOfTwo(p) ==> r <= p
    ensures size >= LONG_MAX ==> r == LONG_MAX
  {
    if size >= LONG_MAX { return LONG_MAX; }
    var i := DICT_HT_INITIAL_SIZE;
    while true
      invariant i >= 4 && IsPowerOfTwo(i) && (i == 4 || i / 2 < size)
      decreases 2 * size - i
    {
      if i >= size {
        forall p: nat | p >= 4 && p >= size && IsPowerOfTwo(p)
          ensures i <= p
        {
          if p < i { PowersApart(p, i); }
        }
        return i;
      }
      i := i * 2;
    }
  }

  /** A power of two below another is at most half of it. */
  lemma {:induction false} PowersApart(p: nat, q: nat)
    requires IsPowerOfTwo(p) && IsPowerOfTwo(q) && p < q
    ensures p <= q / 2
  {
    if p > 1 { PowersApart(p / 2, q / 2); }
  }
}
