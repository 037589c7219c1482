/** adlist.c: a doubly linked list, rewired in place, that stands for a sequence. */
module AdList {
  import opened Sequences

  class ListNode<V> {
    var prev: ListNode?<V>
    var next: ListNode?<V>
    const value: V

    constructor (value: V)
      ensures this.value == value && prev == null && next == null
    {
      this.value, prev, next := value, null, null;
    }
  }

  /** The node at position i; null outside. */
  ghost function At<V>(ns: seq<ListNode<V>>, i: int): ListNode?<V> { if 0 <= i < |ns| then ns[i] else null }

  ghost predicate LinkedAt<V>(ns: seq<ListNode<V>>, i: nat)
    requires i < |ns|
    reads ns`next, ns`prev
  {
    ns[i].next == At(ns, i + 1) && ns[i].prev == At(ns, i - 1)
  }

  ghost predicate Distinct<V>(ns: seq<ListNode<V>>) { forall i, j :: 0 <= i < j < |ns| ==> ns[i] != ns[j] }

  ghost function Inserted<T>(s: seq<T>, i: nat, x: T): (r: seq<T>)
    requires i <= |s|
    ensures |r| == |s| + 1
  {
    s[..i] + [x] + s[i..]
  }

  lemma InsertedIs<T>(s: seq<T>, i: nat, x: T, j: nat)
    requires i <= |s| && j <= |s|
    ensures Inserted(s, i, x)[j] == if j < i then s[j] else if j == i then x else s[j - 1]
  {
  }

  lemma InsertedDistinct<V>(s: seq<ListNode<V>>, i: nat, x: ListNode<V>)
    requires i <= |s| && Distinct(s) && x !in s
    ensures Distinct(Inserted(s, i, x))
  {
    hide Inserted;
    forall a, b | 0 <= a < b <= |s|
      ensures Inserted(s, i, x)[a] != Inserted(s, i, x)[b]
    {
      InsertedIs(s, i, x, a);
      InsertedIs(s, i, x, b);
    }
  }

  lemma InsertedValues<V>(s: seq<ListNode<V>>, i: nat, x: ListNode<V>)
    requires i <= |s|
    ensures Values(Inserted(s, i, x)) == Inserted(Values(s), i, x.value)
  {
    hide Inserted;
    forall j | 0 <= j <= |s|
      ensures Values(Inserted(s, i, x))[j] == Inserted(Values(s), i, x.value)[j]
    {
      InsertedIs(s, i, x, j);
      InsertedIs(Values(s), i, x.value, j);
    }
  }

  ghost function Values<V>(ns: seq<ListNode<V>>): (s: seq<V>)
    ensures |s| == |ns|
  {
    seq(|ns|, i requires 0 <= i < |ns| => ns[i].value)
  }

  class List<V> {
    var head: ListNode?<V>
    var tail: ListNode?<V>
    var len: nat
    ghost var nodes: seq<ListNode<V>>

    ghost predicate Valid()
      reads this, nodes
    {
      && head == At(nodes, 0) && tail == At(nodes, |nodes| - 1) && len == |nodes|
      && (forall i :: 0 <= i < |nodes| ==> LinkedAt(nodes, i)) && Distinct(nodes)
    }

    ghost function Contents(): seq<V>
      reads this
    {
      Values(nodes)
    }

    /** listCreate. */
    constructor ()
      ensures Valid() && nodes == [] && Contents() == []
    {
      head, tail, len, nodes := null, null, 0, [];
    }

    /** listAddNodeHead. */
    method AddNodeHead(value: V)
      requires Valid()
      modifies this, nodes
      ensures Valid() && Contents() == [value] + old(Contents())
      ensures |nodes| == |old(nodes)| + 1 && nodes[1..] == old(nodes) && fresh(nodes[0])
    {
      var node := new ListNode(value);
      ghost var was := nodes;
      if len == 0 {
        head, tail := node, node;
      } else {
        assert LinkedAt(was, 0);
        node.next := head;
        head.prev := node;
        head := node;
      }
      len, nodes := len + 1, [node] + was;
      forall j | 0 <= j < |nodes|
        ensures LinkedAt(nodes, j)
      {
        if j > 0 { assert old(LinkedAt(was, j - 1)); }
      }
    }

    /** listAddNodeTail. */
    method AddNodeTail(value: V)
      requires Valid()
      modifies this, nodes
      ensures Valid() && Contents() == old(Contents()) + [value]
      ensures |nodes| == |old(nodes)| + 1 && nodes[..|nodes| - 1] == old(nodes) && fresh(nodes[|nodes| - 1])
    {
      var node := new ListNode(value);
      ghost var was := nodes;
      if len == 0 {
        head, tail := node, node;
      } else {
        assert LinkedAt(was, |was| - 1);
        node.prev := tail;
        tail.next := node;
        tail := node;
      }
      len, nodes := len + 1, was + [node];
      forall j | 0 <= j < |nodes|
        ensures LinkedAt(nodes, j)
      {
        if j < |was| { assert old(LinkedAt(was, j)); }
      }
    }

    /** listInsertNode: before or after the i-th node. */
    method InsertNode(oldNode: ListNode<V>, value: V, after: bool, ghost i: nat)
      requires Valid() && i < |nodes| && nodes[i] == oldNode
      modifies this, nodes
      ensures Valid() && Contents() == Inserted(old(Contents()), if after then i + 1 else i, value)
    {
      hide Inserted;
      var node := new ListNode(value);
      ghost var k, was := if after then i + 1 else i, nodes;
      assert LinkedAt(was, i);
      if after {
        node.prev, node.next := oldNode, oldNode.next;
        if tail == oldNode { tail := node; }
      } else {
        node.next, node.prev := oldNode, oldNode.prev;
        if head == oldNode { head := node; }
      }
      assert node.prev == At(was, k - 1) && node.next == At(was, k);
      Hook(node, was, k);
      len, nodes := len + 1, Inserted(was, k, node);
      InsertedValues(was, k, node);
      InsertedIs(was, k, node, 0);
      InsertedIs(was, k, node, |was|);
    }

    /** Makes the neighbours of a node point to it. */
    static method Hook(node: ListNode<V>, ghost was: seq<ListNode<V>>, ghost k: nat)
      requires (forall j :: 0 <= j < |was| ==> LinkedAt(was, j)) && Distinct(was) && node !in was && k <= |was|
      requires node.prev == At(was, k - 1) && node.next == At(was, k)
      modifies was
      ensures var ns := Inserted(was, k, node); Distinct(ns) && forall j :: 0 <= j < |ns| ==> LinkedAt(ns, j)
    {
      hide Inserted;
      InsertedDistinct(was, k, node);
      if node.prev != null { node.prev.next := node; }
      if node.next != null { node.next.prev := node; }
      ghost var ns := Inserted(was, k, node);
      forall j | 0 <= j < |ns|
        ensures LinkedAt(ns, j)
      {
        InsertedIs(was, k, node, j);
        if j > 0 { InsertedIs(was, k, node, j - 1); }
        if j < |was| { InsertedIs(was, k, node, j + 1); }
        if j < k { assert old(LinkedAt(was, j)); } else if j > k { assert old(LinkedAt(was, j - 1)); }
      }
    }

    /** listDelNode. */
    method DelNode(node: ListNode<V>, ghost i: nat)
      requires Valid() && i < |nodes| && nodes[i] == node
      modifies this, nodes
      ensures Valid() && nodes == Without(old(nodes), i) && Contents() == Without(old(Contents()), i)
      ensures node.next == old(node.next) && node.prev == old(node.prev)
    {
      ghost var was := nodes;
      assert LinkedAt(was, i);
      if node.prev != null { node.prev.next := node.next; } else { head := node.next; }
      if node.next != null { node.next.prev := node.prev; } else { tail := node.prev; }
      len, nodes := len - 1, Without(was, i);
      forall j | 0 <= j < |nodes|
        ensures LinkedAt(nodes, j)
      {
        if j < i { assert old(LinkedAt(was, j)); } else { assert old(LinkedAt(was, j + 1)); }
      }
      assert Contents() == Without(Values(was), i);
    }

    /** listRotate: the last element becomes the first. */
    method Rotate()
      requires Valid()
      modifies this, nodes
      ensures Valid() && |nodes| == |old(nodes)|
      ensures |nodes| > 0 ==> Contents() == [old(Contents())[|nodes| - 1]] + old(Contents())[..|nodes| - 1]
    {
      if len <= 1 { return; }
      ghost var was, n := nodes, |nodes|;
      var last := tail;
      assert LinkedAt(was, n - 1) && LinkedAt(was, 0);
      tail := last.prev;
      tail.next := null;
      head.prev := last;
      last.prev := null;
      last.next := head;
      head := last;
      nodes := [last] + was[..n - 1];
      forall j | 0 <= j < n
        ensures LinkedAt(nodes, j)
      {
        if j > 0 { assert old(LinkedAt(was, j - 1)); }
      }
    }
  }

  // ----- Iterators

  /** Where in a list of n nodes the k-th of the m nodes still to come is. */
  ghost function Place(n: nat, m: nat, fromHead: bool, k: nat): (i: nat)
    requires k < m <= n
    ensures i < n
  {
    if fromHead then n - m + k else m - 1 - k
  }

  /** listIter, from the head or from the tail; `todo` is what it will still return. */
  class ListIter<V> {
    var next: ListNode?<V>
    const fromHead: bool
    ghost var todo: seq<ListNode<V>>

    /** What is to come is a run of the list from the iterator's position to the end it walks to. */
    ghost predicate Valid(list: List<V>)
      reads this, list, list.nodes
    {
      && list.Valid() && next == At(todo, 0) && |todo| <= |list.nodes|
      && forall k :: 0 <= k < |todo| ==> todo[k] == list.nodes[Place(|list.nodes|, |todo|, fromHead, k)]
    }

    /** listGetIterator. */
    constructor (list: List<V>, fromHead: bool)
      requires list.Valid()
      ensures Valid(list) && this.fromHead == fromHead && |todo| == |list.nodes|
      ensures fromHead ==> todo == list.nodes
      ensures !fromHead ==> forall k :: 0 <= k < |todo| ==> todo[k] == list.nodes[|todo| - 1 - k]
    {
      this.fromHead := fromHead;
      ghost var ns := list.nodes;
      if fromHead {
        next, todo := list.head, ns;
      } else {
        next := list.tail;
        todo := seq(|ns|, k requires 0 <= k < |ns| => ns[|ns| - 1 - k]);
      }
    }

    /** listNext. */
    method Next(list: List<V>) returns (current: ListNode?<V>)
      requires Valid(list)
      modifies this
      ensures Valid(list) && (current == null <==> old(todo) == [])
      ensures if current == null then todo == [] else old(todo) == [current] + todo
    {
      current := next;
      if current != null {
        ghost var i := Place(|list.nodes|, |todo|, fromHead, 0);
        assert todo[0] == list.nodes[i] && LinkedAt(list.nodes, i);
        assert |todo| > 1 ==> todo[1] == list.nodes[Place(|list.nodes|, |todo|, fromHead, 1)];
        if fromHead {
          next := current.next;
        } else {
          next := current.prev;
        }
        todo := todo[1..];
      }
    }

    /** The element just returned may be deleted: what is to come stays the same. */
    method DeleteReturned(list: List<V>, current: ListNode<V>)
      requires Valid(list) && |todo| < |list.nodes|
      requires current == list.nodes[if fromHead then |list.nodes| - |todo| - 1 else |todo|]
      modifies list, list.nodes
      ensures Valid(list) && todo == old(todo)
    {
      ghost var i := if fromHead then |list.nodes| - |todo| - 1 else |todo|;
      ghost var was := list.nodes;
      list.DelNode(current, i);
    }
  }
}
