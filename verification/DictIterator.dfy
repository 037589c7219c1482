/** dictIterator: returns every entry exactly once, also when the entries it returns are deleted on the way. */
module DictIterator {
  import opened Dict
  import opened Sequences

  /** The entries in the order the iterator meets them. */
  ghost function Flat<T>(cs: seq<seq<T>>): seq<T> { if cs == [] then [] else cs[0] + Flat(cs[1..]) }

  ghost predicate Ends<T>(c: seq<T>, r: seq<T>) { |r| <= |c| && c[|c| - |r|..] == r }

  /** What the iterator uses of a valid table. */
  lemma InOrder<K, V>(ht: Dict<K, V>)
    requires ht.Valid()
    ensures ht.size == |ht.chains| == ht.table.Length && Tied(ht.table, ht.chains) && Placed(ht.chains, ht.hash)
    ensures forall b :: 0 <= b < ht.size ==> ht.table[b] == At(ht.chains[b], 0) && Linked(ht.chains[b], 0)
  {
    hide Holds, Covers, Total, Placed;
  }

  class Iterator<K(==), V> {
    const ht: Dict<K, V>
    var index: int
    var entry: Entry?<K, V>
    var nextEntry: Entry?<K, V>

    /** What is left of the chain the iterator is in. */
    ghost var rest: seq<Entry<K, V>>

    ghost predicate Valid()
      reads this, ht, ht.table, Elems(ht.chains)`next, Elems(ht.chains)`val
    {
      && ht.Valid() && index >= -1
      && (if 0 <= index < |ht.chains| then Ends(ht.chains[index], rest) else rest == [])
      && (if entry == null then rest == [] else nextEntry == At(rest, 0))
    }

    /** What is still to come. */
    ghost function Todo(): seq<Entry<K, V>>
      reads `index, `rest, ht`chains
    {
      rest + if -1 <= index < |ht.chains| then Flat(ht.chains[index + 1..]) else []
    }

    /** dictGetIterator. */
    constructor (ht: Dict<K, V>)
      requires ht.Valid()
      ensures Valid() && this.ht == ht && Todo() == Flat(ht.chains)
    {
      hide Dict.Valid, Flat, Ends;
      this.ht, index, entry, nextEntry, rest := ht, -1, null, null, [];
      WholeWalk(ht.chains);
    }

    /** Moves on to the next bucket, if there is one. */
    method NextBucket() returns (more: bool)
      requires Valid() && entry == null
      modifies `index, `entry, `rest
      ensures ht.Valid() && index == old(index) + 1 && more == (index < |ht.chains|)
      ensures more ==> Ends(ht.chains[index], rest) && entry == At(rest, 0) && Todo() == old(Todo())
      ensures !more ==> Valid() && entry == null && Todo() == [] && old(Todo()) == []
    {
      hide Dict.Valid, Tied, Placed, Linked, Flat, Ends;
      InOrder(ht);
      index := index + 1;
      if index >= ht.size {
        NoMore(ht.chains, index);
        return false;
      }
      FlatSplit(ht.chains, index);
      entry, rest := ht.table[index], ht.chains[index];
      EndsAll(rest);
      assert [] + Flat(ht.chains[index..]) == Flat(ht.chains[index..]);
      return true;
    }

    /** dictNext: the next entry, or none exactly when all have been returned. */
    method Next() returns (r: Entry?<K, V>)
      requires Valid()
      modifies this
      ensures Valid() && (r == null <==> old(Todo()) == [])
      ensures r == null ==> Todo() == []
      ensures r != null ==>
        var e: Entry<K, V> := r;
        old(Todo()) == [e] + Todo() && 0 <= index < |ht.chains| && Ends(ht.chains[index], [e] + rest)
    {
      hide Dict.Valid, Flat, Ends, Todo;
      while true
        invariant Valid() && Todo() == old(Todo())
        decreases |ht.chains| - index, entry != null
      {
        if entry == null {
          var more := NextBucket();
          if !more { return null; }
        } else {
          entry := nextEntry;
        }
        if entry != null {
          r := Deliver();
          return;
        }
      }
    }

    /** The user deletes the entry just returned: what is still to come does not change. */
    method DeleteReturned(e: Entry<K, V>)
      requires Valid() && 0 <= index < |ht.chains| && Ends(ht.chains[index], [e] + rest)
      modifies ht`used, ht`chains, ht`contents, ht.table, Elems(ht.chains)`next
      ensures Valid() && Todo() == old(Todo()) && ht.contents == old(ht.contents) - {e.key}
      ensures Elems(ht.chains) <= old(Elems(ht.chains))
    {
      hide Dict.Valid, Dict.Shape, Linked, Placed, Tied, Holds, Covers, Total, Flat, Ends, Has, OneGone;
      ghost var was := ht.chains;
      InOrder(ht);
      Returned(ht, index, e, rest);
      var ok := ht.Delete(e.key);
      DeletedBehind(was, ht.chains, ht.hash, index, e, rest);
      GoneSubset(was, ht.chains, e.key);
    }

    /** Saves the next pointer before the entry is handed out. */
    method Deliver() returns (r: Entry<K, V>)
      requires ht.Valid() && 0 <= index < |ht.chains| && Ends(ht.chains[index], rest) && rest != [] && entry == rest[0]
      modifies `nextEntry, `rest
      ensures Valid() && old(Todo()) == [r] + Todo() && Ends(ht.chains[index], [r] + rest)
    {
      hide Dict.Valid, Tied, Placed, Linked, Flat, Ends;
      InOrder(ht);
      StepsOn(ht.chains[index], rest);
      nextEntry := entry.next;
      assert rest + Flat(ht.chains[index + 1..]) == [entry] + (rest[1..] + Flat(ht.chains[index + 1..]));
      rest := rest[1..];
      return entry;
    }
  }

  /** Flat is made of exactly the entries of the chains. */
  lemma {:induction false} FlatElems<K, V>(cs: seq<seq<Entry<K, V>>>)
    ensures Set(Flat(cs)) == Elems(cs)
    decreases |cs|
  {
    if cs != [] {
      FlatElems(cs[1..]);
      assert Set(Flat(cs)) == Set(cs[0]) + Set(Flat(cs[1..]));
      forall b, i | 0 <= b < |cs[1..]| && 0 <= i < |cs[1..][b]|
        ensures cs[1..][b][i] in Elems(cs)
      {
        assert cs[1..][b][i] == cs[b + 1][i];
      }
      forall b, i | 0 <= b < |cs| && 0 <= i < |cs[b]|
        ensures cs[b][i] in Set(cs[0]) + Elems(cs[1..])
      {
        if b > 0 { assert cs[b][i] == cs[1..][b - 1][i]; }
      }
      assert forall i :: 0 <= i < |cs[0]| ==> cs[0][i] in Elems(cs);
    }
  }

  ghost predicate DistinctKeys<K, V>(es: seq<Entry<K, V>>) {
    forall i, j :: 0 <= i < j < |es| ==> es[i].key != es[j].key
  }

  /** No key comes twice: within a bucket keys differ, and later buckets hold other hashes. */
  lemma {:induction false} FlatDistinct<K, V>(cs: seq<seq<Entry<K, V>>>, hash: K -> nat, from: nat)
    requires Placed(cs, hash) && from <= |cs|
    ensures DistinctKeys(Flat(cs[from..]))
    ensures cs != [] ==> forall i :: 0 <= i < |Flat(cs[from..])| ==> hash(Flat(cs[from..])[i].key) % |cs| >= from
    decreases |cs| - from
  {
    if from < |cs| {
      FlatDistinct(cs, hash, from + 1);
      FlatSplit(cs, from);
      var c, later := cs[from], Flat(cs[from + 1..]);
      var all: seq<Entry<K, V>> := c + later;
      forall i | 0 <= i < |c|
        ensures hash(c[i].key) % |cs| == from
      {
        assert hash(cs[from][i].key) % |cs| == from;
      }
      forall i, j | 0 <= i < j < |all|
        ensures all[i].key != all[j].key
      {
        if j < |c| {
          assert cs[from][i].key != cs[from][j].key;
        } else {
          assert all[j] == later[j - |c|];
          assert i >= |c| ==> all[i] == later[i - |c|];
        }
      }
    }
  }

  /** The keys of the map, each exactly once. */
  ghost predicate EachOnce<K, V>(ks: seq<K>, m: map<K, V>) {
    Set(ks) == m.Keys && forall i, j :: 0 <= i < j < |ks| ==> ks[i] != ks[j]
  }

  /** The keys met in a whole walk are those of the map, each once. */
  lemma FlatIsContents<K, V>(ht: Dict<K, V>)
    requires ht.Valid()
    ensures EachOnce(Keys(Flat(ht.chains)), ht.contents)
  {
    hide Flat, Total, Tied;
    FlatDistinct(ht.chains, ht.hash, 0);
    assert ht.chains[0..] == ht.chains;
    FlatElems(ht.chains);
    var es := Flat(ht.chains);
    forall i | 0 <= i < |es|
      ensures es[i].key in ht.contents
    {
      assert es[i] in Elems(ht.chains);
    }
    forall k | k in ht.contents
      ensures k in Keys(es)
    {
      var c := ht.chains[ht.hash(k) % |ht.chains|];
      assert Has(c, k);
      var i :| 0 <= i < |c| && c[i].key == k;
      assert c[i] in Elems(ht.chains);
      assert c[i] in es;
      var j :| 0 <= j < |es| && es[j] == c[i];
      assert Keys(es)[j] == k;
    }
  }

  lemma WholeWalk<T>(cs: seq<seq<T>>)
    ensures [] + Flat(cs[0..]) == Flat(cs)
  {
    assert cs[0..] == cs;
  }

  lemma NoMore<T>(cs: seq<seq<T>>, i: nat)
    requires i >= |cs|
    ensures i == |cs| ==> Flat(cs[i..]) == []
  {
  }

  lemma FlatSplit<T>(cs: seq<seq<T>>, i: nat)
    requires i < |cs|
    ensures Flat(cs[i..]) == cs[i] + Flat(cs[i + 1..])
  {
    assert cs[i..][1..] == cs[i + 1..];
  }

  lemma EndsAll<T>(c: seq<T>)
    ensures Ends(c, c)
  {
  }

  /** The first entry of what is left of a chain points to the second. */
  lemma StepsOn<K, V>(c: seq<Entry<K, V>>, r: seq<Entry<K, V>>)
    requires Linked(c, 0) && Ends(c, r) && r != []
    ensures r[0].next == At(r[1..], 0) && Ends(c, r[1..]) && r == [r[0]] + r[1..] && Ends(c, [r[0]] + r[1..])
  {
    var k := |c| - |r|;
    assert c[k] == r[0];
    if |r| > 1 { assert c[k + 1] == r[1]; }
  }

  // ----- Deleting behind the iterator

  /** What is still to come is the same after the entry just returned has been deleted. */
  lemma DeletedBehind<K, V>(was: seq<seq<Entry<K, V>>>, now: seq<seq<Entry<K, V>>>, hash: K -> nat,
                            b: nat, e: Entry<K, V>, rest: seq<Entry<K, V>>)
    requires Placed(was, hash) && OneGone(was, now, e.key) && b < |was| && Ends(was[b], [e] + rest)
    ensures |now| == |was| && Ends(now[b], rest) && now[b + 1..] == was[b + 1..]
  {
    var h: nat, i: nat :| h < |was| && i < |was[h]| && was[h][i].key == e.key && now == was[h := Without(was[h], i)];
    var k := |was[b]| - |rest| - 1;
    assert was[b][k] == was[b][k..][0] == e;
    assert hash(was[b][k].key) % |was| == b && hash(was[h][i].key) % |was| == h;
    assert i == k;
    assert rest == was[b][k..][1..] == was[b][k + 1..];
    assert now[b] == was[b][..k] + rest;
  }

  /** An entry of the table has its key in the map. */
  lemma Returned<K, V>(ht: Dict<K, V>, b: nat, e: Entry<K, V>, rest: seq<Entry<K, V>>)
    requires ht.Valid() && b < |ht.chains| && Ends(ht.chains[b], [e] + rest)
    ensures e.key in ht.contents
  {
    var c := ht.chains[b];
    var k := |c| - |rest| - 1;
    assert c[k] == c[k..][0] == e;
  }

  lemma GoneSubset<K, V>(was: seq<seq<Entry<K, V>>>, now: seq<seq<Entry<K, V>>>, key: K)
    requires OneGone(was, now, key)
    ensures Elems(now) <= Elems(was)
  {
    var h: nat, i: nat :| h < |was| && i < |was[h]| && was[h][i].key == key && now == was[h := Without(was[h], i)];
    forall b, x | 0 <= b < |now| && 0 <= x < |now[b]|
      ensures now[b][x] in Elems(was)
    {
      assert now[b][x] == was[b][if b == h && x >= i then x + 1 else x];
    }
  }

  ghost function Keys<K, V>(es: seq<Entry<K, V>>): seq<K> { seq(|es|, i requires 0 <= i < |es| => es[i].key) }

  /** The map without the doomed keys among those seen. */
  ghost function Pruned<K, V>(m: map<K, V>, doomed: K -> bool, seen: seq<K>): map<K, V> {
    map k | k in m && (k !in seen || !doomed(k)) :: m[k]
  }

  /** One turn of a walk that deletes the doomed entries it is given. */
  method Visit<K(==), V>(iter: Iterator<K, V>, doomed: K -> bool) returns (e: Entry?<K, V>)
    requires iter.Valid()
    modifies iter, iter.ht`used, iter.ht`chains, iter.ht`contents, iter.ht.table, Elems(iter.ht.chains)`next
    ensures iter.Valid() && (e == null <==> old(iter.Todo()) == []) && Elems(iter.ht.chains) <= old(Elems(iter.ht.chains))
    ensures e == null ==> iter.Todo() == [] && iter.ht.contents == old(iter.ht.contents)
    ensures e != null ==> Keys(old(iter.Todo())) == [e.key] + Keys(iter.Todo())
    ensures e != null ==>
      iter.ht.contents == if doomed(e.key) then old(iter.ht.contents) - {e.key} else old(iter.ht.contents)
  {
    hide Dict.Valid, Flat, Elems, Ends;
    e := iter.Next();
    if e == null { return; }
    assert old(iter.Todo()) == [e] + iter.Todo();
    if doomed(e.key) { iter.DeleteReturned(e); }
  }

  /**
   Walks the table, deleting any of the entries it is given: every key is seen exactly once, and exactly the
   doomed ones are gone.
   */
  method Sweep<K(==), V>(ht: Dict<K, V>, doomed: K -> bool) returns (seen: seq<K>)
    requires ht.Valid()
    modifies ht`used, ht`chains, ht`contents, ht.table, Elems(ht.chains)`next
    ensures ht.Valid() && ht.contents == Pruned(old(ht.contents), doomed, seen)
    ensures seen == Keys(Flat(old(ht.chains))) && EachOnce(seen, old(ht.contents))
  {
    hide Dict.Valid, Flat, Elems, Ends, Pruned, EachOnce;
    ghost var all, was := Flat(ht.chains), ht.contents;
    FlatIsContents(ht);
    var iter := new Iterator(ht);
    seen := [];
    PrunedNone(was, doomed);
    while true
      invariant fresh(iter) && iter.Valid() && iter.ht == ht && Elems(ht.chains) <= old(Elems(ht.chains))
      invariant seen + Keys(iter.Todo()) == Keys(all) && ht.contents == Pruned(was, doomed, seen)
      decreases |iter.Todo()|
    {
      ghost var before := Keys(iter.Todo());
      var e := Visit(iter, doomed);
      if e == null { break; }
      assert before == [e.key] + Keys(iter.Todo());
      PrunedMore(was, doomed, seen, e.key);
      seen := seen + [e.key];
    }
    assert seen == Keys(all);
  }

  lemma PrunedNone<K, V>(m: map<K, V>, doomed: K -> bool)
    ensures Pruned(m, doomed, []) == m
  {
  }

  lemma PrunedMore<K, V>(m: map<K, V>, doomed: K -> bool, seen: seq<K>, k: K)
    ensures Pruned(m, doomed, seen + [k]) == if doomed(k) then Pruned(m, doomed, seen) - {k} else Pruned(m, doomed, seen)
  {
  }
}
