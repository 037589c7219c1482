/**
 The chained hash table of hiredis: entries linked from a table of buckets, relinked in place when the table
 grows.  Every operation is proved against the finite map that the table stands for.
 */
module Dict {
  import opened DictBits
  import opened Sequences

  class Entry<K, V> {
    const key: K
    var val: V
    var next: Entry?<K, V>

    constructor (key: K, val: V, next: Entry?<K, V>)
      ensures this.key == key && this.val == val && this.next == next
    {
      this.key, this.val, this.next := key, val, next;
    }
  }

  // ----- Chains: for each bucket, the entries reached from it

  ghost function Elems<K, V>(cs: seq<seq<Entry<K, V>>>): set<Entry<K, V>> {
    set b, i | 0 <= b < |cs| && 0 <= i < |cs[b]| :: cs[b][i]
  }

  ghost function At<K, V>(c: seq<Entry<K, V>>, i: nat): Entry?<K, V> { if i < |c| then c[i] else null }

  /** The next pointers run through c from position i to its end. */
  ghost predicate Linked<K, V>(c: seq<Entry<K, V>>, i: nat)
    reads c`next
  {
    forall x :: i <= x < |c| ==> c[x].next == At(c, x + 1)
  }

  ghost predicate Tied<K, V>(table: array<Entry?<K, V>>, cs: seq<seq<Entry<K, V>>>)
    reads table, Elems(cs)`next
  {
    |cs| == table.Length && forall b :: 0 <= b < |cs| ==> table[b] == At(cs[b], 0) && Linked(cs[b], 0)
  }

  /** Every entry sits in the bucket its hash names, and no key occurs twice. */
  ghost predicate Placed<K, V>(cs: seq<seq<Entry<K, V>>>, hash: K -> nat) {
    && (forall b, i :: 0 <= b < |cs| && 0 <= i < |cs[b]| ==> hash(cs[b][i].key) % |cs| == b)
    && (forall b, i, j :: 0 <= b < |cs| && 0 <= i < j < |cs[b]| ==> cs[b][i].key != cs[b][j].key)
  }

  /** Every entry is in the map. */
  ghost predicate Holds<K, V>(cs: seq<seq<Entry<K, V>>>, m: map<K, V>)
    reads Elems(cs)`val
  {
    forall b, i :: 0 <= b < |cs| && 0 <= i < |cs[b]| ==> cs[b][i].key in m && m[cs[b][i].key] == cs[b][i].val
  }

  /** The chain holds an entry with this key. */
  ghost predicate Has<K, V>(c: seq<Entry<K, V>>, k: K) { exists i :: 0 <= i < |c| && c[i].key == k }

  /** Every key of the map is found in its bucket. */
  ghost predicate Covers<K, V>(cs: seq<seq<Entry<K, V>>>, hash: K -> nat, m: map<K, V>) {
    forall k :: k in m ==> |cs| > 0 && Has(cs[hash(k) % |cs|], k)
  }

  ghost function Total<K, V>(cs: seq<seq<Entry<K, V>>>): nat { if cs == [] then 0 else |cs[0]| + Total(cs[1..]) }

  lemma {:induction false} TotalUpdate<K, V>(cs: seq<seq<Entry<K, V>>>, b: nat, c: seq<Entry<K, V>>)
    requires b < |cs|
    ensures Total(cs[b := c]) == Total(cs) - |cs[b]| + |c|
    decreases b
  {
    if b == 0 {
      assert cs[0 := c][1..] == cs[1..];
    } else {
      assert cs[b := c][1..] == cs[1..][b - 1 := c];
      TotalUpdate(cs[1..], b - 1, c);
    }
  }

  /** An entry is at one place only. */
  lemma Distinct<K, V>(cs: seq<seq<Entry<K, V>>>, hash: K -> nat, b: nat, i: nat, d: nat, j: nat)
    requires Placed(cs, hash) && b < |cs| && d < |cs| && i < |cs[b]| && j < |cs[d]| && cs[b][i] == cs[d][j]
    ensures b == d && i == j
  {
    assert hash(cs[b][i].key) % |cs| == b;
    assert hash(cs[d][j].key) % |cs| == d;
  }

  lemma OnlyPlace<K, V>(cs: seq<seq<Entry<K, V>>>, hash: K -> nat, h: nat, i: nat)
    requires Placed(cs, hash) && h < |cs| && i < |cs[h]|
    ensures forall b, x :: 0 <= b < |cs| && 0 <= x < |cs[b]| && cs[b][x] == cs[h][i] ==> b == h && x == i
  {
    forall b, x | 0 <= b < |cs| && 0 <= x < |cs[b]| && cs[b][x] == cs[h][i]
      ensures b == h && x == i
    {
      Distinct(cs, hash, b, x, h, i);
    }
  }

  class Dict<K(==), V> {
    const hash: K -> nat
    var table: array<Entry?<K, V>>
    var size: nat
    var sizemask: nat
    var used: nat

    ghost var chains: seq<seq<Entry<K, V>>>
    ghost var contents: map<K, V>

    ghost predicate Shape()
      reads this, table, Elems(chains)`next
    {
      && size == table.Length == |chains| && Tied(table, chains) && Placed(chains, hash)
      && (if size == 0 then sizemask == 0 else size >= 4 && IsPowerOfTwo(size) && sizemask == size - 1)
    }

    ghost predicate Valid()
      reads this, table, Elems(chains)`next, Elems(chains)`val
    {
      && Shape() && Holds(chains, contents) && Covers(chains, hash, contents)
      && used == |contents| == Total(chains) && used <= size
    }

    constructor (hash: K -> nat)
      ensures Valid() && fresh(table) && contents == map[] && chains == [] && this.hash == hash
    {
      this.hash := hash;
      table := new Entry?<K, V>[0];
      size, sizemask, used := 0, 0, 0;
      chains, contents := [], map[];
    }

    /** The bucket of a key. */
    method Slot(key: K) returns (h: nat)
      requires Shape() && size > 0
      ensures h == hash(key) % size && h < size
    {
      MaskIsModulo(hash(key), size);
      h := And(hash(key), sizemask);
    }

    /** The walk along one bucket that finding, adding and deleting share. */
    method Search(h: nat, key: K) returns (he: Entry?<K, V>, prev: Entry?<K, V>, ghost i: nat)
      requires Shape() && h < size
      ensures he == null <==> !Has(chains[h], key)
      ensures he != null ==> i < |chains[h]| && he == chains[h][i] && he.key == key
      ensures he != null ==> prev == if i == 0 then null else chains[h][i - 1]
    {
      he, prev, i := table[h], null, 0;
      while he != null
        invariant i <= |chains[h]| && he == At(chains[h], i)
        invariant prev == if i == 0 then null else chains[h][i - 1]
        invariant forall x :: 0 <= x < i ==> chains[h][x].key != key
        decreases |chains[h]| - i
      {
        if he.key == key { return; }
        prev, he := he, he.next;
        i := i + 1;
      }
    }

    /** dictFind. */
    method Find(key: K) returns (he: Entry?<K, V>)
      requires Valid()
      ensures he == null <==> key !in contents
      ensures he != null ==> he in Elems(chains) && he.key == key && he.val == contents[key]
    {
      if size == 0 { return null; }
      var h := Slot(key);
      var prev;
      ghost var i;
      he, prev, i := Search(h, key);
    }

    /** Takes the i-th entry out of a chain. */
    method Unlink(h: nat, ghost i: nat, de: Entry<K, V>, prevde: Entry?<K, V>)
      requires Shape() && h < size && i < |chains[h]| && de == chains[h][i]
      requires prevde == if i == 0 then null else chains[h][i - 1]
      modifies table, Elems(chains)`next
      ensures Tied(table, chains[h := Without(chains[h], i)])
    {
      hide Placed, Without, IsPowerOfTwo;
      ghost var cs := chains[h := Without(chains[h], i)];
      if prevde != null {
        OnlyPlace(chains, hash, h, i - 1);
        prevde.next := de.next;
      } else {
        table[h] := de.next;
      }
      forall b | 0 <= b < |cs|
        ensures table[b] == At(cs[b], 0) && Linked(cs[b], 0)
      {
        assert old(Linked(chains[b], 0));
        if b == h { assert forall x :: 0 <= x < |cs[h]| ==> cs[h][x].next == At(cs[h], x + 1); }
      }
    }

    /** Lines 195-203: the entry found leaves its chain, and its key the map. */
    method Remove(h: nat, ghost i: nat, de: Entry<K, V>, prevde: Entry?<K, V>)
      requires Valid() && h < size && i < |chains[h]| && de == chains[h][i]
      requires prevde == if i == 0 then null else chains[h][i - 1]
      modifies `used, `chains, `contents, table, Elems(chains)`next
      ensures Valid() && de.key in old(contents) && contents == old(contents) - {de.key}
      ensures OneGone(old(chains), chains, de.key)
    {
      hide Tied, Placed, Holds, Covers, Total, Linked, Has, Without, IsPowerOfTwo;
      ghost var was := chains;
      WithoutOk(chains, hash, contents, h, i);
      Unlink(h, i, de, prevde);
      used := used - 1;
      chains := was[h := Without(was[h], i)];
      contents := contents - {de.key};
    }

    /** dictDelete: forgets exactly this key; its entry leaves its chain, and the chains are otherwise as they were. */
    method Delete(key: K) returns (ok: bool)
      requires Valid()
      modifies `used, `chains, `contents, table, Elems(chains)`next
      ensures Valid() && ok == (key in old(contents)) && contents == old(contents) - {key}
      ensures !ok ==> chains == old(chains)
      ensures ok ==> OneGone(old(chains), chains, key)
    {
      hide Tied, Placed, Holds, Covers, Total, Has, IsPowerOfTwo, OneGone;
      assert key !in contents ==> contents - {key} == contents;
      if size == 0 {
        NoKeys(chains, hash, contents);
        return false;
      }
      var h := Slot(key);
      ghost var i;
      var de, prevde;
      de, prevde, i := Search(h, key);
      KeyFound(chains, hash, contents, key);
      if de == null { return false; }
      Remove(h, i, de, prevde);
      return true;
    }

    /** Puts an entry in front of a chain. */
    static method Link(table: array<Entry?<K, V>>, ghost cs: seq<seq<Entry<K, V>>>, h: nat, e: Entry<K, V>)
      requires Tied(table, cs) && h < |cs| && e !in Elems(cs)
      modifies table, e`next
      ensures Tied(table, Prepend(cs, h, e))
    {
      e.next := table[h];
      table[h] := e;
      ghost var ds := Prepend(cs, h, e);
      forall b | 0 <= b < |ds|
        ensures table[b] == At(ds[b], 0) && Linked(ds[b], 0)
      {
        assert forall x :: 0 <= x < |cs[b]| ==> cs[b][x] in Elems(cs);
        assert Linked(cs[b], 0);
      }
    }

    /** Lines 117-121: one entry moves to the new table. */
    method MoveEntry(he: Entry<K, V>, t: array<Entry?<K, V>>, mask: nat, ghost cs: seq<seq<Entry<K, V>>>)
      returns (ghost ds: seq<seq<Entry<K, V>>>)
      requires Tied(t, cs) && Placed(cs, hash) && IsPowerOfTwo(t.Length) && mask == t.Length - 1 && used >= 1
      requires NewKey(cs, he.key)
      modifies `used, t, he`next
      ensures Tied(t, ds) && Placed(ds, hash) && |ds| == |cs|
      ensures Elems(ds) == Elems(cs) + {he} && Total(ds) == Total(cs) + 1 && used == old(used) - 1
      ensures forall k :: k != he.key && NewKey(cs, k) ==> NewKey(ds, k)
    {
      hide Tied, Placed, Total, Elems;
      MaskIsModulo(hash(he.key), t.Length);
      var h := And(hash(he.key), mask);
      NotThere(cs, he);
      TiedAt(t, cs);
      Link(t, cs, h, he);
      PrependOk(cs, hash, h, he);
      ds := Prepend(cs, h, he);
      used := used - 1;
    }

    /** The inner loop of dictExpand: moves the entries of one old chain c into the new table. */
    method MoveChain(ghost c: seq<Entry<K, V>>, first: Entry?<K, V>,
                     t: array<Entry?<K, V>>, mask: nat, ghost cs: seq<seq<Entry<K, V>>>)
      returns (ghost ds: seq<seq<Entry<K, V>>>)
      requires Tied(t, cs) && Placed(cs, hash) && IsPowerOfTwo(t.Length) && mask == t.Length - 1
      requires Linked(c, 0) && first == At(c, 0) && used >= |c|
      requires forall x, y :: 0 <= x < y < |c| ==> c[x].key != c[y].key
      requires forall x :: 0 <= x < |c| ==> NewKey(cs, c[x].key)
      modifies `used, t, c`next
      ensures Tied(t, ds) && Placed(ds, hash) && |ds| == |cs|
      ensures Elems(ds) == Elems(cs) + Set(c) && Total(ds) == Total(cs) + |c| && used == old(used) - |c|
    {
      hide Tied, Placed, Total, Elems, NewKey;
      var he := first;
      ghost var j := 0;
      ds := cs;
      while he != null
        invariant j <= |c| && he == At(c, j) && Linked(c, j)
        invariant Tied(t, ds) && Placed(ds, hash) && |ds| == |cs|
        invariant Elems(ds) == Elems(cs) + Set(c[..j]) && Total(ds) == Total(cs) + j && used == old(used) - j
        invariant forall x :: j <= x < |c| ==> NewKey(ds, c[x].key)
        decreases |c| - j
      {
        var nextHe := he.next;
        ds := MoveEntry(he, t, mask, ds);
        he := nextHe;
        assert Set(c[..j + 1]) == Set(c[..j]) + {c[j]};
        j := j + 1;
      }
      assert c[..j] == c;
    }

    /** The outer loop of dictExpand: every chain is moved, and the count left behind reaches zero. */
    method MoveAll(t: array<Entry?<K, V>>, mask: nat) returns (ghost cs: seq<seq<Entry<K, V>>>)
      requires Valid() && t != table && t.Length > 0 && IsPowerOfTwo(t.Length) && mask == t.Length - 1
      requires forall b :: 0 <= b < t.Length ==> t[b] == null
      modifies `used, t, Elems(chains)`next
      ensures used == 0 && |cs| == t.Length && Tied(t, cs) && Placed(cs, hash)
      ensures Elems(cs) == Elems(chains) && Total(cs) == Total(chains)
      ensures Holds(cs, contents) && Covers(cs, hash, contents)
    {
      hide Total, Holds, Covers, Placed, NewKey, Tied, Linked, IsPowerOfTwo, At;
      cs := seq(t.Length, _ => []);
      NoEntries(cs, hash);
      Untied(t, cs);
      var i := 0;
      assert chains[..0] == [] && chains[0..] == chains;
      NoEntries(chains[..0], hash);
      TiedAt(table, chains);
      while i < size && used > 0
        invariant i <= size && Tied(t, cs) && Placed(cs, hash) && Holds(chains, contents)
        invariant forall b :: i <= b < size ==> table[b] == At(chains[b], 0) && Linked(chains[b], 0)
        invariant Elems(cs) == Elems(chains[..i]) && used == Total(chains[i..]) && Total(cs) + used == Total(chains)
      {
        TotalSplit(chains, i);
        ChainIsNew(chains, hash, cs, i);
        label moving:
        cs := MoveChain(chains[i], table[i], t, mask, cs);
        ElemsGrow(chains, i);
        forall b | i < b < size
          ensures Linked(chains[b], 0)
        {
          assert old@moving(Linked(chains[b], 0));
        }
        i := i + 1;
      }
      TotalZero(chains, i);
      TiedAt(t, cs);
      Regrouped(chains, cs, hash, contents);
    }

    /** The part of dictExpand that builds the new table and puts it in place of the old one. */
    method Rehash(realsize: nat)
      requires Valid() && realsize >= 4 && IsPowerOfTwo(realsize) && used <= realsize
      modifies this, Elems(chains)`next
      ensures Valid() && contents == old(contents) && size == realsize
      ensures fresh(table) && Elems(chains) == old(Elems(chains))
    {
      hide Total, Holds, Covers, Placed, Tied, IsPowerOfTwo;
      var t := new Entry?<K, V>[realsize](_ => null);
      var n := used;
      ghost var cs := MoveAll(t, realsize - 1);
      assert used == 0;
      table, size, sizemask, used, chains := t, realsize, realsize - 1, n, cs;
    }

    /** dictExpand: refuses a size that is too small, else keeps every entry and the count in a table of a power of two. */
    method Expand(want: nat) returns (ok: bool)
      requires Valid() && want < LONG_MAX
      modifies this, Elems(chains)`next
      ensures Valid() && contents == old(contents) && ok == (old(used) <= want)
      ensures !ok ==> table == old(table) && chains == old(chains)
      ensures ok ==> fresh(table) && Elems(chains) == old(Elems(chains)) && size >= want && size >= 4
      ensures ok ==> forall p: nat :: p >= 4 && p >= want && IsPowerOfTwo(p) ==> size <= p
    {
      hide Shape, Total, Holds, Covers;
      var realsize := NextPower(want);
      if used > want { return false; }
      Rehash(realsize);
      return true;
    }

    /** _dictExpandIfNeeded: afterwards there is a free slot. */
    method ExpandIfNeeded() returns (ok: bool)
      requires Valid() && 2 * size < LONG_MAX
      modifies this, Elems(chains)`next
      ensures ok && Valid() && contents == old(contents) && used < size
      ensures (table == old(table) || fresh(table)) && Elems(chains) == old(Elems(chains))
      ensures if old(used < size) then table == old(table) && chains == old(chains)
              else size == if old(size) == 0 then 4 else 2 * old(size)
    {
      hide Total, Holds, Covers, Placed, Tied, IsPowerOfTwo;
      Doubles(2);
      Doubles(size);
      if size == 0 {
        ok := Expand(DICT_HT_INITIAL_SIZE);
      } else if used == size {
        ok := Expand(size * 2);
      } else {
        ok := true;
      }
    }

    /** _dictKeyIndex. */
    method KeyIndex(key: K) returns (index: int)
      requires Valid() && 2 * size < LONG_MAX
      modifies this, Elems(chains)`next
      ensures Valid() && contents == old(contents) && used < size
      ensures (table == old(table) || fresh(table)) && Elems(chains) == old(Elems(chains))
      ensures index == if key in contents then -1 else hash(key) % size
    {
      hide Total, Holds, Covers, Placed, Tied;
      var ok := ExpandIfNeeded();
      if !ok { return -1; }
      var h := Slot(key);
      KeyFound(chains, hash, contents, key);
      ghost var i;
      var he, prev;
      he, prev, i := Search(h, key);
      return if he != null then -1 else h;
    }

    /** Lines 145-151: a new entry in front of its bucket. */
    method NewEntry(index: nat, key: K, val: V) returns (entry: Entry<K, V>)
      requires Tied(table, chains) && index < |chains| && NewKey(chains, key)
      modifies table
      ensures fresh(entry) && entry.key == key && entry.val == val && Tied(table, Prepend(chains, index, entry))
    {
      hide Tied, NewKey, Prepend;
      entry := new Entry(key, val, null);
      NotThere(chains, entry);
      Link(table, chains, index, entry);
    }

    /** The part of dictAdd after the index has been found. */
    method Insert(index: nat, key: K, val: V)
      requires Valid() && used < size && key !in contents && index == hash(key) % size
      modifies `used, `chains, `contents, table
      ensures Valid() && contents == old(contents)[key := val]
      ensures fresh(Elems(chains) - old(Elems(chains)))
    {
      hide Total, Holds, Covers, Placed, Tied, NewKey, Prepend, IsPowerOfTwo;
      KeyIsNew(chains, hash, contents, key);
      var entry := NewEntry(index, key, val);
      PrependOk(chains, hash, index, entry);
      PrependMaps(chains, hash, contents, index, entry);
      chains, contents, used := Prepend(chains, index, entry), contents[key := val], used + 1;
    }

    /** dictAdd: adds the key exactly when it is new. */
    method Add(key: K, val: V) returns (ok: bool)
      requires Valid() && 2 * size < LONG_MAX
      modifies this, table, Elems(chains)`next
      ensures Valid() && ok == (key !in old(contents))
      ensures contents == if ok then old(contents)[key := val] else old(contents)
      ensures (table == old(table) || fresh(table)) && fresh(Elems(chains) - old(Elems(chains)))
      ensures !ok ==> Elems(chains) == old(Elems(chains))
    {
      hide Valid;
      var index := KeyIndex(key);
      if index == -1 { return false; }
      Insert(index, key, val);
      return true;
    }

    /** dictReplace: afterwards the key has this value, and the result says whether it was new. */
    method Replace(key: K, val: V) returns (added: bool)
      requires Valid() && 2 * size < LONG_MAX
      modifies this, table, Elems(chains)
      ensures Valid() && contents == old(contents)[key := val] && added == (key !in old(contents))
      ensures (table == old(table) || fresh(table)) && fresh(Elems(chains) - old(Elems(chains)))
    {
      hide Total, Covers, Placed, Tied;
      added := Add(key, val);
      if added { return; }
      var entry := Find(key);
      assert entry in old(Elems(chains));
      Overwritten(chains, hash, contents, entry, val);
      entry.val := val;
      contents := contents[key := val];
    }
  }

  /** The chains differ by one entry, the one with this key. */
  ghost predicate OneGone<K, V>(was: seq<seq<Entry<K, V>>>, now: seq<seq<Entry<K, V>>>, key: K) {
    exists h: nat, i: nat {:trigger was[h][i]} ::
      h < |was| && i < |was[h]| && was[h][i].key == key && now == was[h := Without(was[h], i)]
  }

  lemma NoKeys<K, V>(cs: seq<seq<Entry<K, V>>>, hash: K -> nat, m: map<K, V>)
    requires Covers(cs, hash, m) && cs == []
    ensures m == map[]
  {
  }

  /** A key is in the map exactly when its bucket has it. */
  lemma KeyFound<K, V>(cs: seq<seq<Entry<K, V>>>, hash: K -> nat, m: map<K, V>, k: K)
    requires Placed(cs, hash) && Holds(cs, m) && Covers(cs, hash, m) && cs != []
    ensures k in m <==> Has(cs[hash(k) % |cs|], k)
  {
  }

  /** Taking out an entry and its key leaves the rest in order. */
  lemma WithoutOk<K, V>(cs: seq<seq<Entry<K, V>>>, hash: K -> nat, m: map<K, V>, h: nat, i: nat)
    requires Placed(cs, hash) && Holds(cs, m) && Covers(cs, hash, m) && h < |cs| && i < |cs[h]|
    ensures var k, ds := cs[h][i].key, cs[h := Without(cs[h], i)];
      && k in m && |m - {k}| == |m| - 1
      && Placed(ds, hash) && Holds(ds, m - {k}) && Covers(ds, hash, m - {k})
      && Total(ds) == Total(cs) - 1 && Elems(ds) <= Elems(cs)
  {
    hide Placed, Holds, Covers, Total, Elems;
    var k, ds := cs[h][i].key, cs[h := Without(cs[h], i)];
    TotalUpdate(cs, h, Without(cs[h], i));
    WithoutPlaced(cs, hash, h, i);
    WithoutHolds(cs, hash, m, h, i);
    WithoutCovers(cs, hash, m, h, i);
    assert (m - {k}).Keys == m.Keys - {k};
  }

  lemma WithoutPlaced<K, V>(cs: seq<seq<Entry<K, V>>>, hash: K -> nat, h: nat, i: nat)
    requires Placed(cs, hash) && h < |cs| && i < |cs[h]|
    ensures var ds := cs[h := Without(cs[h], i)]; Placed(ds, hash) && Elems(ds) <= Elems(cs)
  {
    hide Without;
    var c := Without(cs[h], i);
    var ds: seq<seq<Entry<K, V>>> := cs[h := c];
    forall b, x | 0 <= b < |ds| && 0 <= x < |ds[b]|
      ensures ds[b][x] in Elems(cs) && hash(ds[b][x].key) % |ds| == b
    {
      var y := if b == h && x >= i then x + 1 else x;
      assert ds[b][x] == cs[b][y];
    }
  }

  lemma WithoutHolds<K, V>(cs: seq<seq<Entry<K, V>>>, hash: K -> nat, m: map<K, V>, h: nat, i: nat)
    requires Placed(cs, hash) && Holds(cs, m) && h < |cs| && i < |cs[h]|
    ensures cs[h][i].key in m && Holds(cs[h := Without(cs[h], i)], m - {cs[h][i].key})
  {
    hide Without;
    var c := Without(cs[h], i);
    var ds: seq<seq<Entry<K, V>>>, k := cs[h := c], cs[h][i].key;
    assert hash(k) % |cs| == h;
    forall b, x | 0 <= b < |ds| && 0 <= x < |ds[b]|
      ensures ds[b][x].key in m - {k} && m[ds[b][x].key] == ds[b][x].val
    {
      var y := if b == h && x >= i then x + 1 else x;
      assert ds[b][x] == cs[b][y];
      assert hash(cs[b][y].key) % |cs| == b;
    }
  }

  lemma WithoutCovers<K, V>(cs: seq<seq<Entry<K, V>>>, hash: K -> nat, m: map<K, V>, h: nat, i: nat)
    requires Placed(cs, hash) && Covers(cs, hash, m) && h < |cs| && i < |cs[h]|
    ensures Covers(cs[h := Without(cs[h], i)], hash, m - {cs[h][i].key})
  {
    hide Without, Placed;
    var c := Without(cs[h], i);
    var ds: seq<seq<Entry<K, V>>>, k := cs[h := c], cs[h][i].key;
    forall j | j in m - {k}
      ensures Has(ds[hash(j) % |ds|], j)
    {
      var b := hash(j) % |cs|;
      assert Has(cs[b], j);
      var x :| 0 <= x < |cs[b]| && cs[b][x].key == j;
      assert b == h ==> c[if x < i then x else x - 1] == cs[h][x];
      assert b != h ==> ds[b][x].key == j;
    }
  }

  // ----- Adding an entry in front

  ghost function Prepend<K, V>(cs: seq<seq<Entry<K, V>>>, h: nat, e: Entry<K, V>): (ds: seq<seq<Entry<K, V>>>)
    requires h < |cs|
    ensures |ds| == |cs|
  {
    cs[h := [e] + cs[h]]
  }

  ghost function Set<T>(c: seq<T>): set<T> { set e | e in c }

  /** No entry has this key. */
  ghost predicate NewKey<K, V>(cs: seq<seq<Entry<K, V>>>, k: K) {
    forall b, i :: 0 <= b < |cs| && 0 <= i < |cs[b]| ==> cs[b][i].key != k
  }

  lemma NotThere<K, V>(cs: seq<seq<Entry<K, V>>>, e: Entry<K, V>)
    requires NewKey(cs, e.key)
    ensures e !in Elems(cs)
  {
  }

  lemma PrependOk<K, V>(cs: seq<seq<Entry<K, V>>>, hash: K -> nat, h: nat, e: Entry<K, V>)
    requires Placed(cs, hash) && h < |cs| && hash(e.key) % |cs| == h && NewKey(cs, e.key)
    ensures Placed(Prepend(cs, h, e), hash) && Elems(Prepend(cs, h, e)) == Elems(cs) + {e}
    ensures Total(Prepend(cs, h, e)) == Total(cs) + 1
  {
    hide Elems;
    var ds: seq<seq<Entry<K, V>>> := Prepend(cs, h, e);
    TotalUpdate(cs, h, [e] + cs[h]);
    PrependElems(cs, h, e);
    forall b, i | 0 <= b < |ds| && 0 <= i < |ds[b]|
      ensures hash(ds[b][i].key) % |ds| == b
    {
      if b == h && i == 0 { assert ds[b][i] == e; } else { assert ds[b][i] == cs[b][if b == h then i - 1 else i]; }
    }
  }

  lemma PrependElems<K, V>(cs: seq<seq<Entry<K, V>>>, h: nat, e: Entry<K, V>)
    requires h < |cs|
    ensures Elems(Prepend(cs, h, e)) == Elems(cs) + {e}
  {
    var ds: seq<seq<Entry<K, V>>> := Prepend(cs, h, e);
    forall b, i | 0 <= b < |cs| && 0 <= i < |cs[b]|
      ensures cs[b][i] in Elems(ds)
    {
      var j := if b == h then i + 1 else i;
      assert ds[b][j] == cs[b][i];
    }
    assert ds[h][0] == e;
  }

  // ----- Moving everything

  lemma {:induction false} NoEntries<K, V>(cs: seq<seq<Entry<K, V>>>, hash: K -> nat)
    requires forall b :: 0 <= b < |cs| ==> cs[b] == []
    ensures Elems(cs) == {} && Total(cs) == 0 && Placed(cs, hash)
    decreases |cs|
  {
    if cs != [] { NoEntries(cs[1..], hash); }
  }

  lemma Untied<K, V>(table: array<Entry?<K, V>>, cs: seq<seq<Entry<K, V>>>)
    requires |cs| == table.Length && forall b :: 0 <= b < |cs| ==> cs[b] == [] && table[b] == null
    ensures Tied(table, cs)
  {
  }

  lemma TiedAt<K, V>(table: array<Entry?<K, V>>, cs: seq<seq<Entry<K, V>>>)
    requires Tied(table, cs)
    ensures |cs| == table.Length && forall b :: 0 <= b < |cs| ==> table[b] == At(cs[b], 0) && Linked(cs[b], 0)
  {
  }

  lemma TotalSplit<K, V>(cs: seq<seq<Entry<K, V>>>, i: nat)
    requires i < |cs|
    ensures Total(cs[i..]) == |cs[i]| + Total(cs[i + 1..])
  {
    assert cs[i..][1..] == cs[i + 1..];
  }

  lemma ElemsGrow<K, V>(cs: seq<seq<Entry<K, V>>>, i: nat)
    requires i < |cs|
    ensures Elems(cs[..i + 1]) == Elems(cs[..i]) + Set(cs[i])
  {
    assert forall b :: 0 <= b < i ==> cs[..i + 1][b] == cs[..i][b];
    assert cs[..i + 1][i] == cs[i];
    forall x | 0 <= x < |cs[i]|
      ensures cs[i][x] in Elems(cs[..i + 1])
    {
      assert cs[..i + 1][i][x] == cs[i][x];
    }
  }

  /** Once the count is zero or the chains are exhausted, everything has been moved. */
  lemma {:induction false} TotalZero<K, V>(cs: seq<seq<Entry<K, V>>>, i: nat)
    requires i <= |cs| && (i == |cs| || Total(cs[i..]) == 0)
    ensures Total(cs[i..]) == 0 && Elems(cs[..i]) == Elems(cs)
    decreases |cs| - i
  {
    if i == |cs| {
      assert cs[..i] == cs;
    } else {
      TotalSplit(cs, i);
      ElemsGrow(cs, i);
      TotalZero(cs, i + 1);
    }
  }

  /** The keys of the next chain are not among those already moved. */
  lemma ChainIsNew<K, V>(was: seq<seq<Entry<K, V>>>, hash: K -> nat, cs: seq<seq<Entry<K, V>>>, i: nat)
    requires Placed(was, hash) && i < |was| && Elems(cs) == Elems(was[..i])
    ensures forall x, y :: 0 <= x < y < |was[i]| ==> was[i][x].key != was[i][y].key
    ensures forall x :: 0 <= x < |was[i]| ==> NewKey(cs, was[i][x].key)
    ensures forall x :: 0 <= x < |was[i]| ==> was[i][x] in Elems(was)
    ensures forall b, y :: i < b < |was| && 0 <= y < |was[b]| ==> was[b][y] !in was[i]
  {
    forall x, b, y | 0 <= x < |was[i]| && 0 <= b < |cs| && 0 <= y < |cs[b]|
      ensures cs[b][y].key != was[i][x].key
    {
      assert cs[b][y] in Elems(was[..i]);
      var d, z :| 0 <= d < i && 0 <= z < |was[d]| && was[..i][d][z] == cs[b][y];
      assert was[..i][d] == was[d];
      assert hash(was[d][z].key) % |was| == d && hash(was[i][x].key) % |was| == i;
    }
  }

  // ----- The map

  /** The same entries, grouped anew, stand for the same map. */
  lemma Regrouped<K, V>(was: seq<seq<Entry<K, V>>>, cs: seq<seq<Entry<K, V>>>, hash: K -> nat, m: map<K, V>)
    requires Placed(cs, hash) && cs != [] && Elems(cs) == Elems(was) && Holds(was, m) && Covers(was, hash, m)
    ensures Holds(cs, m) && Covers(cs, hash, m)
  {
    forall b, i | 0 <= b < |cs| && 0 <= i < |cs[b]|
      ensures cs[b][i].key in m && m[cs[b][i].key] == cs[b][i].val
    {
      assert cs[b][i] in Elems(was);
    }
    forall k | k in m
      ensures Has(cs[hash(k) % |cs|], k)
    {
      var c := was[hash(k) % |was|];
      assert Has(c, k);
      var i :| 0 <= i < |c| && c[i].key == k;
      assert c[i] in Elems(was);
      var b, j :| 0 <= b < |cs| && 0 <= j < |cs[b]| && cs[b][j] == c[i];
      assert hash(cs[b][j].key) % |cs| == b;
    }
  }

  lemma KeyIsNew<K, V>(cs: seq<seq<Entry<K, V>>>, hash: K -> nat, m: map<K, V>, k: K)
    requires Holds(cs, m) && k !in m
    ensures NewKey(cs, k)
  {
  }

  lemma PrependMaps<K, V>(cs: seq<seq<Entry<K, V>>>, hash: K -> nat, m: map<K, V>, h: nat, e: Entry<K, V>)
    requires Placed(cs, hash) && Holds(cs, m) && Covers(cs, hash, m)
    requires h < |cs| && h == hash(e.key) % |cs| && NewKey(cs, e.key) && e.key !in m
    ensures Holds(Prepend(cs, h, e), m[e.key := e.val]) && Covers(Prepend(cs, h, e), hash, m[e.key := e.val])
  {
    hide Placed;
    var ds: seq<seq<Entry<K, V>>>, n := Prepend(cs, h, e), m[e.key := e.val];
    forall b, i | 0 <= b < |ds| && 0 <= i < |ds[b]|
      ensures ds[b][i].key in n && n[ds[b][i].key] == ds[b][i].val
    {
      if b == h && i == 0 { assert ds[b][i] == e; } else { assert ds[b][i] == cs[b][if b == h then i - 1 else i]; }
    }
    forall k | k in n
      ensures Has(ds[hash(k) % |ds|], k)
    {
      var b := hash(k) % |ds|;
      if k == e.key {
        assert ds[h][0] == e;
      } else {
        assert Has(cs[b], k);
        var i :| 0 <= i < |cs[b]| && cs[b][i].key == k;
        assert ds[b][if b == h then i + 1 else i] == cs[b][i];
      }
    }
  }

  /** Giving one entry a new value: for the others nothing changes. */
  lemma Overwritten<K, V>(cs: seq<seq<Entry<K, V>>>, hash: K -> nat, m: map<K, V>, e: Entry<K, V>, v: V)
    requires Placed(cs, hash) && Holds(cs, m) && Covers(cs, hash, m) && e in Elems(cs)
    ensures e.key in m && Covers(cs, hash, m[e.key := v]) && |m[e.key := v]| == |m|
    ensures forall b, i :: 0 <= b < |cs| && 0 <= i < |cs[b]| && cs[b][i] != e ==>
      cs[b][i].key in m && cs[b][i].key != e.key && m[cs[b][i].key] == cs[b][i].val
  {
    var d, j :| 0 <= d < |cs| && 0 <= j < |cs[d]| && cs[d][j] == e;
    forall b, i | 0 <= b < |cs| && 0 <= i < |cs[b]| && cs[b][i] != e
      ensures cs[b][i].key != e.key
    {
      assert hash(cs[b][i].key) % |cs| == b && hash(cs[d][j].key) % |cs| == d;
    }
    assert m[e.key := v].Keys == m.Keys;
  }
}
