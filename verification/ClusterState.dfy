/**
 `server.cluster` as the C code keeps it: the owner table and, redundantly, a bitmap and a slot counter
 in every node record, all updated in place.  `Valid` is the consistency of the three; every method keeps
 it and moves the view as ClusterView says.
 */
module ClusterState {
  import opened Optional
  import opened ClusterView
  import Spec = ClusterView
  import opened ClusterBitmap

  datatype NodeRec = NodeRec(node: Node, bitmap: seq<bv8>, numslots: int)

  const BITMAP_BYTES := CLUSTER_SLOTS / 8

  function Assigned(s: seq<Option<Id>>): map<nat, Id> {
    map j: nat | j < |s| && s[j].Some? :: s[j].value
  }

  /** The slots the table gives to n. */
  function Owned(s: seq<Option<Id>>, n: Id): set<nat> {
    set j: nat | j < |s| && s[j] == Some(n)
  }

  predicate RecordMatches(r: NodeRec, s: seq<Option<Id>>, n: Id) {
    && |r.bitmap| == BITMAP_BYTES && |s| == CLUSTER_SLOTS
    && r.numslots == |Owned(s, n)|
    && (forall j: nat :: j < CLUSTER_SLOTS ==> (TestBit(r.bitmap, j) <==> s[j] == Some(n)))
  }

  predicate TableMatches(nodes: map<Id, NodeRec>, s: seq<Option<Id>>) {
    && (forall n :: n in nodes ==> RecordMatches(nodes[n], s, n))
    && (forall j: nat :: j < |s| && s[j].Some? ==> s[j].value in nodes)
  }

  function Nodes(nodes: map<Id, NodeRec>): map<Id, Node> { map n | n in nodes :: nodes[n].node }

  lemma GiveSlot(r: NodeRec, s: seq<Option<Id>>, n: Id, j: nat)
    requires RecordMatches(r, s, n) && j < |s| && s[j] == None
    ensures !TestBit(r.bitmap, j)
    ensures RecordMatches(r.(bitmap := SetBit(r.bitmap, j), numslots := r.numslots + 1), s[j := Some(n)], n)
  {
    hide SetBit, TestBit;
    var t := s[j := Some(n)];
    assert Owned(t, n) == Owned(s, n) + {j};
    forall q: nat | q < CLUSTER_SLOTS
      ensures TestBit(SetBit(r.bitmap, j), q) <==> t[q] == Some(n)
    {
      OneBitChanges(r.bitmap, j, q);
    }
  }

  lemma TakeSlot(r: NodeRec, s: seq<Option<Id>>, n: Id, j: nat)
    requires RecordMatches(r, s, n) && j < |s| && s[j] == Some(n)
    ensures |r.bitmap| == BITMAP_BYTES && TestBit(r.bitmap, j)
    ensures RecordMatches(r.(bitmap := ClearBit(r.bitmap, j), numslots := r.numslots - 1), s[j := None], n)
  {
    hide ClearBit, TestBit;
    var t := s[j := None];
    assert Owned(t, n) == Owned(s, n) - {j};
    forall q: nat | q < CLUSTER_SLOTS
      ensures TestBit(ClearBit(r.bitmap, j), q) <==> t[q] == Some(n)
    {
      OneBitChanges(r.bitmap, j, q);
    }
  }

  lemma OtherSlot(r: NodeRec, s: seq<Option<Id>>, n: Id, j: nat, o: Option<Id>)
    requires RecordMatches(r, s, n) && j < |s| && s[j] != Some(n) && o != Some(n)
    ensures RecordMatches(r, s[j := o], n)
  {
    assert Owned(s[j := o], n) == Owned(s, n);
  }

  lemma GiveSlotTable(nodes: map<Id, NodeRec>, s: seq<Option<Id>>, n: Id, j: nat)
    requires TableMatches(nodes, s) && n in nodes && j < |s| == CLUSTER_SLOTS && s[j] == None
    ensures !TestBit(nodes[n].bitmap, j)
    ensures var r := nodes[n];
      TableMatches(nodes[n := r.(bitmap := SetBit(r.bitmap, j), numslots := r.numslots + 1)], s[j := Some(n)])
  {
    hide RecordMatches, SetBit, TestBit;
    GiveSlot(nodes[n], s, n, j);
    forall k | k in nodes && k != n
      ensures RecordMatches(nodes[k], s[j := Some(n)], k)
    {
      OtherSlot(nodes[k], s, k, j, Some(n));
    }
  }

  lemma TakeSlotTable(nodes: map<Id, NodeRec>, s: seq<Option<Id>>, j: nat)
    requires TableMatches(nodes, s) && j < |s| == CLUSTER_SLOTS && s[j].Some?
    ensures var n := s[j].value; n in nodes && |nodes[n].bitmap| == BITMAP_BYTES && TestBit(nodes[n].bitmap, j)
    ensures var n := s[j].value; var r := nodes[n];
      TableMatches(nodes[n := r.(bitmap := ClearBit(r.bitmap, j), numslots := r.numslots - 1)], s[j := None])
  {
    hide RecordMatches, ClearBit, TestBit;
    var n := s[j].value;
    TakeSlot(nodes[n], s, n, j);
    forall k | k in nodes && k != n
      ensures RecordMatches(nodes[k], s[j := None], k)
    {
      OtherSlot(nodes[k], s, k, j, None);
    }
  }

  // ----- What clusterDelNodeSlots returns

  /** The numbers below n, of which there are n. */
  function Below(n: nat): (s: set<nat>)
    ensures |s| == n && forall j: nat :: j in s <==> j < n
  {
    if n == 0 then {} else Below(n - 1) + {n - 1}
  }

  /** The number of all slots is the number of slots freed, as promised, exactly when the node had them all. */
  lemma DeletedCountsExactly(v: View, n: Id)
    requires Known(v)
    ensures |SlotsOf(v, n)| == CLUSTER_SLOTS <==> forall j: nat :: j < CLUSTER_SLOTS ==> OwnerOf(v, j) == Some(n)
  {
    hide Known, Below;
    KnownSlots(v, n);
    var all := Below(CLUSTER_SLOTS);
    assert all == SlotsOf(v, n) + (all - SlotsOf(v, n));
    assert |all| == |SlotsOf(v, n)| + |all - SlotsOf(v, n)|;
    if forall j: nat :: j < CLUSTER_SLOTS ==> OwnerOf(v, j) == Some(n) {
      assert forall j: nat :: j < CLUSTER_SLOTS ==> OwnerOf(v, j) == Some(n) && j in SlotsOf(v, n);
      assert all == SlotsOf(v, n);
    } else {
      var j: nat :| j < CLUSTER_SLOTS && OwnerOf(v, j) != Some(n);
      assert j in all - SlotsOf(v, n);
    }
  }

  /** A node without slots has none freed, yet all are counted. */
  lemma NoneFreed(v: View, n: Id)
    requires v.owner == map[]
    ensures |SlotsOf(v, n)| == 0 != CLUSTER_SLOTS
  {
    assert SlotsOf(v, n) == {};
  }

  lemma KnownSlots(v: View, n: Id)
    requires Known(v)
    ensures forall j :: j in SlotsOf(v, n) ==> j < CLUSTER_SLOTS
  {
  }

  // ----- The counters add up

  function SumSlots(nodes: map<Id, NodeRec>, ns: set<Id>): int
    requires ns <= nodes.Keys
    decreases ns
  {
    if ns == {} then 0 else
      var n := Least(ns);
      nodes[n].numslots + SumSlots(nodes, ns - {n})
  }

  function Least(ns: set<Id>): (n: Id)
    requires ns != {}
    ensures n in ns
  {
    LeastExists(ns);
    var n :| n in ns && forall k :: k in ns ==> n <= k;
    n
  }

  lemma LeastExists(ns: set<Id>)
    requires ns != {}
    ensures exists n :: n in ns && forall k :: k in ns ==> n <= k
    decreases ns
  {
    var n :| n in ns;
    if m :| m in ns && m < n {
      var below := set k | k in ns && k < n;
      assert m in below && n !in below;
      LeastExists(below);
      var l :| l in below && forall k :: k in below ==> l <= k;
      forall k | k in ns
        ensures l <= k
      {
        assert k < n ==> k in below;
      }
    } else {
      assert forall k :: k in ns ==> n <= k;
    }
  }

  function OwnedByAny(s: seq<Option<Id>>, ns: set<Id>): set<nat> {
    set j: nat | j < |s| && s[j].Some? && s[j].value in ns
  }

  lemma {:induction false} CountersPartition(nodes: map<Id, NodeRec>, s: seq<Option<Id>>, ns: set<Id>)
    requires TableMatches(nodes, s) && ns <= nodes.Keys
    ensures SumSlots(nodes, ns) == |OwnedByAny(s, ns)|
    decreases ns
  {
    hide Least;
    if ns == {} {
      assert OwnedByAny(s, ns) == {};
    } else {
      var n := Least(ns);
      CountersPartition(nodes, s, ns - {n});
      assert RecordMatches(nodes[n], s, n);
      assert OwnedByAny(s, ns) == OwnedByAny(s, ns - {n}) + Owned(s, n);
      assert OwnedByAny(s, ns - {n}) !! Owned(s, n);
    }
  }

  /** All nodes' numslots together are the number of assigned slots. */
  lemma CountersAddUp(nodes: map<Id, NodeRec>, s: seq<Option<Id>>)
    requires TableMatches(nodes, s)
    ensures SumSlots(nodes, nodes.Keys) == |Assigned(s)|
  {
    hide RecordMatches;
    CountersPartition(nodes, s, nodes.Keys);
    assert OwnedByAny(s, nodes.Keys) == Assigned(s).Keys;
    assert |Assigned(s)| == |Assigned(s).Keys|;
  }

  // ----- What one table entry does to the view

  lemma AssignedUpdate(s: seq<Option<Id>>, j: nat, o: Option<Id>)
    requires j < |s|
    ensures Assigned(s[j := o]) == if o.Some? then Assigned(s)[j := o.value] else Assigned(s) - {j}
  {
  }

  lemma SameNodes(nodes: map<Id, NodeRec>, n: Id, r: NodeRec)
    requires n in nodes && r.node == nodes[n].node
    ensures Nodes(nodes[n := r]) == Nodes(nodes)
  {
  }

  lemma NewNode(nodes: map<Id, NodeRec>, n: Id, x: Node)
    requires n in nodes
    ensures Nodes(nodes[n := nodes[n].(node := x)]) == Nodes(nodes)[n := x]
  {
  }

  lemma SameTable(nodes: map<Id, NodeRec>, s: seq<Option<Id>>, n: Id, x: Node)
    requires TableMatches(nodes, s) && n in nodes
    ensures TableMatches(nodes[n := nodes[n].(node := x)], s)
  {
    forall k | k in nodes
      ensures RecordMatches(nodes[n := nodes[n].(node := x)][k], s, k)
    {
      assert RecordMatches(nodes[k], s, k);
    }
  }

  /** The table entry by entry, as a loop over the slots leaves it. */
  lemma ClearedTable(s: seq<Option<Id>>, t: seq<Option<Id>>, n: Id)
    requires |t| == |s| && forall k :: 0 <= k < |s| ==> t[k] == if s[k] == Some(n) then None else s[k]
    ensures Assigned(t) == Assigned(s) - (set j | j in Assigned(s) && Assigned(s)[j] == n)
  {
  }

  lemma ReboundTable(v: View, t: seq<Option<Id>>, sender: Id, epoch: nat, claimed: set<nat>)
    requires |t| == CLUSTER_SLOTS && (forall j :: j in v.owner ==> j < CLUSTER_SLOTS)
    requires forall k: nat :: k < |t| ==>
      t[k] == if Rebinds(v, sender, epoch, claimed, k) then Some(sender) else OwnerOf(v, k)
    ensures Assigned(t) == ReboundOwners(v, sender, epoch, claimed)
  {
  }

  lemma MovedTable(s: seq<Option<Id>>, t: seq<Option<Id>>, from: Id, to: Id)
    requires |t| == |s| && forall k :: 0 <= k < |s| ==> t[k] == if s[k] == Some(from) then Some(to) else s[k]
    ensures Assigned(t) == map j | j in Assigned(s) :: if Assigned(s)[j] == from then to else Assigned(s)[j]
  {
  }

  /** A node has a positive counter exactly when it owns a slot. */
  lemma CounterServes(nodes: map<Id, NodeRec>, s: seq<Option<Id>>, n: Id)
    requires TableMatches(nodes, s) && n in nodes
    ensures nodes[n].numslots >= 0
    ensures nodes[n].numslots == 0 <==> !exists j :: j in Assigned(s) && Assigned(s)[j] == n
  {
    assert RecordMatches(nodes[n], s, n);
    if Owned(s, n) != {} {
      var j :| j in Owned(s, n);
      assert j in Assigned(s) && Assigned(s)[j] == n;
    }
    if j :| j in Assigned(s) && Assigned(s)[j] == n {
      assert j in Owned(s, n);
    }
  }

  lemma OwnerAt(v: View, s: seq<Option<Id>>)
    requires v.owner == Assigned(s)
    ensures forall k: nat :: k < |s| ==> OwnerOf(v, k) == s[k]
    ensures forall j :: j in v.owner ==> j < |s|
  {
  }

  class Cluster {
    var myself: Id
    var currentEpoch: nat
    var lastVoteEpoch: nat
    var size: nat
    var nodes: map<Id, NodeRec>
    const slots: array<Option<Id>>
    const importing: array<Option<Id>>
    const migrating: array<Option<Id>>
    var authEpoch: nat
    var authCount: nat
    var authSent: bool
    var authTime: int
    var manualEnd: bool
    var manualCanStart: bool
    var down: bool

    /** The owner table, the bitmaps and the counters agree. */
    ghost predicate Valid()
      reads `myself, `nodes, slots
    {
      && slots.Length == importing.Length == migrating.Length == CLUSTER_SLOTS
      && slots != importing && slots != migrating && importing != migrating
      && myself in nodes && TableMatches(nodes, slots[..])
      && (forall n {:trigger nodes[n].node.slaveof} :: n in nodes && nodes[n].node.slaveof.Some? ==>
            nodes[n].node.slaveof.value in nodes)
    }

    ghost function V(): (v: View)
      reads this, slots, importing
      ensures Valid() ==> Known(v)
    {
      View(myself, currentEpoch, lastVoteEpoch, size, Nodes(nodes), Assigned(slots[..]), Assigned(importing[..]),
           authEpoch, authCount, authSent, authTime, manualEnd, manualCanStart, down)
    }

    /** clusterInit; it does not set failover_auth_sent, which is whatever the memory held. */
    constructor (id: Id, sent: bool)
      ensures Valid() && fresh(slots) && fresh(importing) && fresh(migrating)
      ensures V() == Created(id, sent)
      ensures forall j: nat :: j < CLUSTER_SLOTS ==> migrating[j] == None
    {
      myself, currentEpoch, lastVoteEpoch, size := id, 0, 0, 1;
      nodes := map[id := NodeRec(Node(0, true, None, false, 0), seq(BITMAP_BYTES, _ => 0), 0)];
      slots := new Option<Id>[CLUSTER_SLOTS](_ => None);
      importing := new Option<Id>[CLUSTER_SLOTS](_ => None);
      migrating := new Option<Id>[CLUSTER_SLOTS](_ => None);
      authEpoch, authCount, authSent, authTime := 0, 0, sent, 0;
      manualEnd, manualCanStart, down := false, false, false;
      new;
      EmptyRecord(nodes[id], slots[..], id);
      NothingAssigned(slots[..]);
      NothingAssigned(importing[..]);
    }

    /** createClusterNode and clusterAddNode: a node not known yet gets a record with no slots. */
    method AddNode(n: Id, master: bool) returns (ok: bool)
      requires Valid()
      modifies this`nodes
      ensures Valid() && ok == (n !in old(nodes)) && V() == RunCommand(old(V()), Learn(n, master))
    {
      hide RecordMatches, TableMatches, Assigned, Nodes, Known;
      MyNode(this);
      if n in nodes { return false; }
      var r := NodeRec(Node(0, master, None, false, 0), seq(BITMAP_BYTES, _ => 0), 0);
      AddedNode(nodes, slots[..], n, r);
      nodes := nodes[n := r];
      return true;
    }

    /** clusterAddSlot. */
    method AddSlot(n: Id, j: nat) returns (ok: bool)
      requires Valid() && n in nodes && j < CLUSTER_SLOTS
      modifies this`nodes, slots
      ensures Valid() && V() == Spec.AddSlot(old(V()), n, j)
      ensures ok == (old(slots[j]) == None)
      ensures slots[..] == if ok then old(slots[..])[j := Some(n)] else old(slots[..])
      ensures nodes.Keys == old(nodes.Keys)
    {
      hide RecordMatches, TableMatches, SetBit, TestBit, Assigned, Nodes, Known;
      AddView(V(), slots[..], n, j);
      if slots[j].Some? { return false; }
      BitmapLength(nodes, slots[..], n);
      GiveSlotTable(nodes, slots[..], n, j);
      AssignedUpdate(slots[..], j, Some(n));
      var r := nodes[n];
      var bit := TestBit(r.bitmap, j);
      var r' := r.(bitmap := SetBit(r.bitmap, j), numslots := if bit then r.numslots else r.numslots + 1);
      SameNodes(nodes, n, r');
      nodes := nodes[n := r'];
      ghost var s := slots[..];
      slots[j] := Some(n);
      assert slots[..] == s[j := Some(n)];
      return true;
    }

    /** clusterDelSlot; the assertion that the owner had the bit set never fails. */
    method DelSlot(j: nat) returns (ok: bool)
      requires Valid() && j < CLUSTER_SLOTS
      modifies this`nodes, slots
      ensures Valid() && V() == Spec.DelSlot(old(V()), j)
      ensures ok == old(slots[j]).Some?
      ensures slots[..] == old(slots[..])[j := None]
      ensures nodes.Keys == old(nodes.Keys)
    {
      hide RecordMatches, TableMatches, ClearBit, TestBit, Assigned, Nodes, Known;
      ghost var s := slots[..];
      AssignedUpdate(s, j, None);
      if slots[j].None? {
        assert s[j := None] == s;
        return false;
      }
      TakeSlotTable(nodes, s, j);
      var n := slots[j].value;
      var r := nodes[n];
      var bit := TestBit(r.bitmap, j);
      var r' := r.(bitmap := ClearBit(r.bitmap, j), numslots := if bit then r.numslots - 1 else r.numslots);
      assert bit;
      SameNodes(nodes, n, r');
      nodes := nodes[n := r'];
      slots[j] := None;
      assert slots[..] == s[j := None];
      return true;
    }

    /** clusterDelNodeSlots; what it returns is always the number of all slots. */
    method DelNodeSlots(n: Id) returns (deleted: int)
      requires Valid() && n in nodes
      modifies this`nodes, slots
      ensures Valid() && V() == Spec.DelNodeSlots(old(V()), n) && nodes.Keys == old(nodes.Keys)
      ensures deleted == CLUSTER_SLOTS
    {
      hide RecordMatches, TableMatches, ClearBit, Assigned, Nodes, Known, TestBit;
      deleted := 0;
      var j := 0;
      ghost var s := slots[..];
      while j < CLUSTER_SLOTS
        invariant 0 <= j == deleted <= CLUSTER_SLOTS && Valid() && nodes.Keys == old(nodes.Keys)
        invariant V() == old(V()).(owner := Assigned(slots[..]))
        invariant forall k: nat :: k < CLUSTER_SLOTS ==>
          slots[k] == if k < j && s[k] == Some(n) then None else s[k]
      {
        BitIsOwner(nodes, slots[..], n, j);
        if TestBit(nodes[n].bitmap, j) {
          ghost var w := V();
          var _ := DelSlot(j);
          assert V().owner == Assigned(slots[..]);
        }
        deleted := deleted + 1;
        j := j + 1;
      }
      ClearedTable(s, slots[..], n);
    }

    /** clusterDelSlot followed by clusterAddSlot. */
    method Rebind(n: Id, j: nat)
      requires Valid() && n in nodes && j < CLUSTER_SLOTS
      modifies this`nodes, slots
      ensures Valid() && nodes.Keys == old(nodes.Keys) && slots[..] == old(slots[..])[j := Some(n)]
      ensures V() == old(V()).(owner := Assigned(slots[..]))
      ensures V().owner == old(V()).owner[j := n]
    {
      hide RecordMatches, TableMatches, ClearBit, SetBit, Assigned, Nodes, Known, TestBit;
      ghost var s := slots[..];
      var _ := DelSlot(j);
      var _ := AddSlot(n, j);
      assert slots[..] == s[j := Some(n)];
      AssignedUpdate(s, j, Some(n));
    }

    /** The loop of clusterUpdateSlotsConfigWith; reports whether a slot of curmaster was taken, and the dirty slots. */
    method RebindSlots(sender: Id, epoch: nat, claimed: seq<bv8>, curmaster: Option<Id>, keys: nat -> nat)
      returns (newmaster: bool, dirty: seq<nat>)
      requires Valid() && sender in nodes && |claimed| == BITMAP_BYTES
      modifies this`nodes, slots
      ensures Valid() && nodes.Keys == old(nodes.Keys)
      ensures V() == old(V()).(owner := ReboundOwners(old(V()), sender, epoch, BitsOf(claimed)))
      ensures newmaster <==> exists k ::
        k in BitsOf(claimed) && Rebinds(old(V()), sender, epoch, BitsOf(claimed), k) && OwnerOf(old(V()), k) == curmaster
      ensures forall k: nat :: k in dirty <==> Loses(old(V()), sender, epoch, BitsOf(claimed), k) && keys(k) > 0
    {
      hide RecordMatches, TableMatches, ClearBit, SetBit, Assigned, Nodes, Known, TestBit, Rebinds, ReboundOwners, Loses, ReboundTo;
      newmaster, dirty := false, [];
      var j := 0;
      ghost var s, v, bits := slots[..], V(), BitsOf(claimed);
      ReboundNone(v, s, sender, epoch, bits, curmaster, keys);
      while j < CLUSTER_SLOTS
        invariant 0 <= j <= CLUSTER_SLOTS && Valid() && nodes.Keys == old(nodes.Keys)
        invariant V() == v.(owner := Assigned(slots[..]))
        invariant ReboundTo(v, s, sender, epoch, bits, curmaster, keys, j, slots[..], newmaster, dirty)
      {
        ReboundNext(v, s, sender, epoch, bits, curmaster, keys, j, slots[..], newmaster, dirty);
        RebindTest(this, v, s, sender, epoch, claimed, j);
        if TestBit(claimed, j) && slots[j] != Some(sender) && importing[j].None? &&
           (slots[j].None? || nodes[slots[j].value].node.configEpoch < epoch)
        {
          if slots[j] == Some(myself) && keys(j) > 0 { dirty := dirty + [j]; }
          if slots[j] == curmaster { newmaster := true; }
          Rebind(sender, j);
        }
        j := j + 1;
      }
      ReboundAll(v, s, sender, epoch, bits, curmaster, keys, slots[..], newmaster, dirty);
    }

    /**
     clusterUpdateSlotsConfigWith, with the claimed slots as the bitmap of the packet; `keys` is what countKeysInSlot
     reports.  The keys of every slot lost are deleted, unless the node is set to replicate the claimant instead.
     */
    method UpdateSlotsConfigWith(sender: Id, epoch: nat, claimed: seq<bv8>, keys: nat -> nat) returns (deleted: seq<nat>)
      requires Valid() && sender in nodes && |claimed| == BITMAP_BYTES
      modifies this, slots, importing, migrating
      ensures Valid() && V() == Spec.UpdateSlots(old(V()), sender, epoch, BitsOf(claimed)) && ClosedByDemotion()
      ensures forall j: nat :: j in deleted <==>
        !Reconfigures(old(V()), sender, epoch, BitsOf(claimed)) && Loses(old(V()), sender, epoch, BitsOf(claimed), j) && keys(j) > 0
    {
      hide RecordMatches, TableMatches, Assigned, Nodes, Known, BitsOf, Rebinds, ReboundOwners, Spec.SetMaster;
      deleted := [];
      MyNode(this);
      var curmaster := if nodes[myself].node.master then Some(myself) else nodes[myself].node.slaveof;
      if sender == myself { return; }
      var newmaster, dirty := RebindSlots(sender, epoch, claimed, curmaster, keys);
      if newmaster {
        if curmaster.None? {
          down := true;
          return;
        }
        CounterServesView(this, curmaster.value);
        if nodes[curmaster.value].numslots == 0 {
          SetMaster(sender);
          return;
        }
      }
      deleted := dirty;
    }

    /** Overwrites the fields of a node record other than its slots. */
    method SetNode(n: Id, x: Node)
      requires Valid() && n in nodes && (x.slaveof.Some? ==> x.slaveof.value in nodes)
      modifies this`nodes
      ensures Valid() && V() == old(V()).(nodes := old(V()).nodes[n := x])
      ensures nodes == old(nodes)[n := old(nodes)[n].(node := x)]
    {
      hide RecordMatches, TableMatches, Assigned, Nodes, Known;
      NewNode(nodes, n, x);
      SameTable(nodes, slots[..], n, x);
      nodes := nodes[n := nodes[n].(node := x)];
    }

    /** No slot is migrating any more if `all`, and otherwise what was migrating still is. */
    twostate predicate Closed(all: bool)
      reads migrating
    {
      forall j: nat :: j < migrating.Length ==> migrating[j] == if all then None else old(migrating[j])
    }

    /** The migrating slots are closed exactly when a master has become a slave. */
    twostate predicate ClosedByDemotion()
      reads this, slots, importing, migrating
    {
      old(Valid()) && Valid() && Closed(Me(old(V())).master && !Me(V()).master)
    }

    /** clusterCloseAllSlots. */
    method CloseAllSlots()
      requires Valid()
      modifies importing, migrating
      ensures Valid() && V() == old(V()).(importing := map[]) && Closed(true)
    {
      hide RecordMatches, TableMatches, Nodes, Known;
      ghost var s := slots[..];
      forall j | 0 <= j < migrating.Length { migrating[j] := None; }
      forall j | 0 <= j < importing.Length { importing[j] := None; }
      NothingAssigned(importing[..]);
      assert slots[..] == s;
    }

    method BecomeSlaveOf(n: Id)
      requires Valid() && n in nodes
      modifies this, importing, migrating
      ensures Valid() && V() == Spec.BecomeSlaveOf(old(V()), n) && ClosedByDemotion()
    {
      hide Valid, RecordMatches, TableMatches, Assigned, Nodes, Known;
      MyNode(this);
      var me := nodes[myself].node;
      if me.master { CloseAllSlots(); }
      SetNode(myself, me.(master := false, slaveof := Some(n)));
      MyNode(this);
      manualEnd, manualCanStart := false, false;
    }

    /** clusterSetMaster; where the C code asserts, the node goes down. */
    method SetMaster(n: Id)
      requires Valid() && n in nodes
      modifies this, importing, migrating
      ensures Valid() && V() == Spec.SetMaster(old(V()), n) && ClosedByDemotion()
    {
      hide RecordMatches, TableMatches, Assigned, Nodes, Known, ServesSlots, Spec.BecomeSlaveOf;
      CounterServesView(this, myself);
      MyNode(this);
      if n == myself || nodes[myself].numslots != 0 {
        down := true;
      } else {
        BecomeSlaveOf(n);
      }
    }

    /** Lines 2678-2683: every slot of one node goes to another. */
    method MoveSlots(from: Id, to: Id)
      requires Valid() && from in nodes && to in nodes
      modifies this`nodes, slots
      ensures Valid() && nodes.Keys == old(nodes.Keys)
      ensures Moved(old(slots[..]), slots[..], from, to)
      ensures var v := old(V());
        V() == v.(owner := map j | j in v.owner :: if v.owner[j] == from then to else v.owner[j])
    {
      hide RecordMatches, TableMatches, ClearBit, SetBit, Assigned, Nodes, Known, TestBit;
      var j := 0;
      ghost var s := slots[..];
      while j < CLUSTER_SLOTS
        invariant 0 <= j <= CLUSTER_SLOTS && Valid() && nodes.Keys == old(nodes.Keys)
        invariant V() == old(V()).(owner := Assigned(slots[..]))
        invariant forall k: nat :: k < CLUSTER_SLOTS ==>
          slots[k] == if k < j && s[k] == Some(from) then Some(to) else s[k]
      {
        BitIsOwner(nodes, slots[..], from, j);
        if TestBit(nodes[from].bitmap, j) { Rebind(to, j); }
        j := j + 1;
      }
      MovedTable(s, slots[..], from, to);
    }

    /** This node is a slave and knows of whom. */
    ghost predicate IsSlave()
      reads this`nodes, this`myself
    {
      myself in nodes && !nodes[myself].node.master && nodes[myself].node.slaveof.Some?
    }

    /** The slots of node m are this node's now, and no other slot, bitmap or counter has changed. */
    twostate predicate TookSlotsOf(m: Id)
      reads this, slots
    {
      && m in old(nodes) && myself == old(myself) && myself in old(nodes)
      && nodes.Keys == old(nodes.Keys) && Moved(old(slots[..]), slots[..], m, myself)
      && (m != myself ==>
            && nodes[m].numslots == 0 && nodes[myself].numslots == old(nodes)[myself].numslots + old(nodes)[m].numslots
            && forall n :: n in nodes && n != m && n != myself ==>
                 nodes[n].numslots == old(nodes)[n].numslots && nodes[n].bitmap == old(nodes)[n].bitmap)
    }

    /** clusterFailoverReplaceYourMaster, up to its broadcast: exactly the old master's slots change hands. */
    method ReplaceYourMaster()
      requires Valid()
      modifies this, slots
      ensures Valid() && V() == Spec.ReplaceMaster(old(V())) && myself == old(myself)
      ensures var me := old(nodes)[myself].node;
        if !me.master && me.slaveof.Some? then TookSlotsOf(me.slaveof.value) else nodes == old(nodes) && slots[..] == old(slots[..])
    {
      hide RecordMatches, TableMatches, Assigned, Nodes, Known;
      MyNode(this);
      var me := nodes[myself].node;
      if !me.master && me.slaveof.Some? {
        ghost var before, s := nodes, slots[..];
        SetNode(myself, me.(master := true, slaveof := None));
        MoveSlots(me.slaveof.value, myself);
        manualEnd, manualCanStart := false, false;
        MovedCounters(before, s, nodes, slots[..], me.slaveof.value, myself);
      }
    }

    /** clusterGetMaxEpoch. */
    method GetMaxEpoch() returns (max: nat)
      requires Valid()
      ensures IsMaxEpoch(V(), max)
    {
      hide RecordMatches, TableMatches, Assigned, Known;
      max := 0;
      var left := nodes.Keys;
      while left != {}
        invariant left <= nodes.Keys
        invariant forall n :: n in nodes && n !in left ==> nodes[n].node.configEpoch <= max
        invariant max == 0 || exists n :: n in nodes && nodes[n].node.configEpoch == max
        decreases left
      {
        var n :| n in left;
        if max < nodes[n].node.configEpoch { max := nodes[n].node.configEpoch; }
        left := left - {n};
      }
      MyNode(this);
      if max < currentEpoch { max := currentEpoch; }
    }

    /** clusterBumpConfigEpochWithoutConsensus. */
    method BumpConfigEpoch() returns (ok: bool)
      requires Valid()
      modifies this`currentEpoch, this`nodes
      ensures Valid() && V() == Spec.BumpEpoch(old(V())) && ok == MustBump(old(V()))
    {
      hide RecordMatches, TableMatches, Assigned, Nodes, Known;
      MyNode(this);
      var max := GetMaxEpoch();
      ok := nodes[myself].node.configEpoch == 0 || nodes[myself].node.configEpoch != max;
      assert ok == MustBump(V());
      if ok { NextEpoch(); }
    }

    method NextEpoch()
      requires Valid()
      modifies this`currentEpoch, this`nodes
      ensures Valid() && V() == Spec.TakeNextEpoch(old(V()))
    {
      hide RecordMatches, TableMatches, Assigned, Nodes, Known;
      MyNode(this);
      currentEpoch := currentEpoch + 1;
      SetNode(myself, nodes[myself].node.(configEpoch := currentEpoch));
    }

    /** clusterHandleConfigEpochCollision. */
    method HandleConfigEpochCollision(sender: Id)
      requires Valid() && sender in nodes
      modifies this`currentEpoch, this`nodes
      ensures Valid() && V() == Spec.HandleCollision(old(V()), sender)
    {
      hide RecordMatches, TableMatches, Assigned, Nodes, Known, Spec.TakeNextEpoch;
      MyNode(this);
      var them, me := nodes[sender].node, nodes[myself].node;
      if them.configEpoch != me.configEpoch || !them.master || !me.master { return; }
      if sender <= myself { return; }
      NextEpoch();
    }

    /** clusterSendFailoverAuthIfNeeded, the header already absorbed; the ACK is sent when `granted`. */
    method SendFailoverAuthIfNeeded(h: Header, claimed: seq<bv8>, c: Clock) returns (granted: bool)
      requires Valid() && h.sender in nodes && |claimed| == BITMAP_BYTES && h.myslots == BitsOf(claimed)
      modifies this`lastVoteEpoch, this`nodes
      ensures Valid() && granted == Grants(old(V()), h, c)
      ensures V() == if granted then RecordVote(old(V()), h, c) else old(V())
      ensures granted ==> Deserved(old(nodes), h, c) && forall j: nat :: !OwnedByNewer(old(nodes), claimed, h.configEpoch, j)
      ensures granted ==> old(nodes[myself].numslots > 0 && lastVoteEpoch != currentEpoch <= h.currentEpoch)
      ensures forall j: nat :: OwnedByNewer(old(nodes), claimed, h.configEpoch, j) ==> !granted
    {
      hide RecordMatches, TableMatches, Assigned, Nodes, Known, TestBit, OwnedByNewer;
      MyNode(this);
      CounterServesView(this, myself);
      var n := nodes[h.sender].node;
      if !nodes[myself].node.master || nodes[myself].numslots == 0 { return false; }
      if h.currentEpoch < currentEpoch { return false; }
      if lastVoteEpoch == currentEpoch { return false; }
      if n.master || n.slaveof.None? || (!nodes[n.slaveof.value].node.failed && !h.forceAck) { return false; }
      var master := n.slaveof.value;
      if c.now - nodes[master].node.votedTime < c.timeout * 2 { return false; }
      var refused := NewerOwner(claimed, h.configEpoch);
      NewerAgrees(this, claimed, h.configEpoch);
      if refused { return false; }
      lastVoteEpoch := currentEpoch;
      SetNode(master, nodes[master].node.(votedTime := c.now));
      return true;
    }

    /** The requester is a slave of a known master that has failed or is failed over by hand, with no recent vote. */
    static predicate Deserved(nodes: map<Id, NodeRec>, h: Header, c: Clock) {
      && h.sender in nodes && !nodes[h.sender].node.master && nodes[h.sender].node.slaveof.Some?
      && nodes[h.sender].node.slaveof.value in nodes
      && (nodes[nodes[h.sender].node.slaveof.value].node.failed || h.forceAck)
      && c.now - nodes[nodes[h.sender].node.slaveof.value].node.votedTime >= c.timeout * 2
    }

    /** Slot j is claimed, and some node's bitmap holds it under a greater configEpoch. */
    static predicate OwnedByNewer(nodes: map<Id, NodeRec>, claimed: seq<bv8>, epoch: nat, j: nat) {
      && j / 8 < |claimed| && TestBit(claimed, j)
      && exists n :: n in nodes && j / 8 < |nodes[n].bitmap| && TestBit(nodes[n].bitmap, j) && nodes[n].node.configEpoch > epoch
    }

    /** Lines 2539-2557: some claimed slot is served under a greater configEpoch. */
    method NewerOwner(claimed: seq<bv8>, epoch: nat) returns (found: bool)
      requires Valid() && |claimed| == BITMAP_BYTES
      ensures found <==> exists j ::
        j in BitsOf(claimed) && j in V().owner && epoch < V().nodes[V().owner[j]].configEpoch
    {
      hide RecordMatches, Known, TestBit;
      var j := 0;
      while j < CLUSTER_SLOTS
        invariant 0 <= j <= CLUSTER_SLOTS
        invariant forall k: nat :: k < j && TestBit(claimed, k) && slots[k].Some? ==>
          nodes[slots[k].value].node.configEpoch <= epoch
      {
        if TestBit(claimed, j) && slots[j].Some? && epoch < nodes[slots[j].value].node.configEpoch {
          assert j in BitsOf(claimed) && j in V().owner;
          return true;
        }
        j := j + 1;
      }
      return false;
    }

    /** Lines 868-876: nothing is imported from n or migrating to it any more. */
    method CloseSlotsOf(n: Id)
      requires Valid()
      modifies importing, migrating
      ensures Valid() && Dropped(n)
      ensures var v := old(V()); V() == v.(importing := map j | j in v.importing && v.importing[j] != n :: v.importing[j])
    {
      hide RecordMatches, TableMatches, Nodes, Known;
      ghost var s, t := slots[..], importing[..];
      forall j | 0 <= j < migrating.Length { migrating[j] := if migrating[j] == Some(n) then None else migrating[j]; }
      forall j | 0 <= j < importing.Length { importing[j] := if importing[j] == Some(n) then None else importing[j]; }
      assert slots[..] == s;
      ClearedTable(t, importing[..], n);
      assert Assigned(importing[..]) == map j | j in Assigned(t) && Assigned(t)[j] != n :: Assigned(t)[j];
    }

    /** Exactly the slots migrating to n are not any more. */
    twostate predicate Dropped(n: Id)
      reads migrating
    {
      forall j: nat :: j < migrating.Length ==>
        migrating[j] == if old(migrating[j]) == Some(n) then None else old(migrating[j])
    }

    /** freeClusterNode: slaves of n lose their master, and the record goes. */
    method FreeNode(n: Id)
      requires Valid() && n in nodes && n != myself && !ServesSlots(V(), n)
      modifies this`nodes
      ensures Valid()
      ensures V() == old(V()).(nodes := WithoutNode(old(V()).nodes, n))
    {
      hide RecordMatches, Assigned, Known, TableMatches, Nodes, WithoutNode, ServesSlots;
      ghost var before := nodes;
      NotServing(V(), slots[..], n);
      nodes := map k | k in nodes && k != n :: if nodes[k].node.slaveof == Some(n)
                                               then nodes[k].(node := nodes[k].node.(slaveof := None)) else nodes[k];
      RemovedNode(before, nodes, slots[..], n);
      FreedNodes(before, nodes, n);
    }

    /** clusterDelNode; its callers never pass the node itself. */
    method DelNode(n: Id)
      requires Valid() && n in nodes && n != myself
      modifies this`nodes, slots, importing, migrating
      ensures Valid() && V() == Spec.DelNode(old(V()), n) && Dropped(n)
    {
      hide RecordMatches, Assigned, Known, TestBit, TableMatches, Nodes;
      CloseSlotsOf(n);
      var _ := DelNodeSlots(n);
      FreeNode(n);
    }

    /** The NODE form of CLUSTER SETSLOT (lines 4024-4065). */
    method SetSlotNode(j: nat, n: Id, keys: nat)
      requires Valid() && j < CLUSTER_SLOTS
      modifies this, slots, importing, migrating
      ensures Valid() && V() == Spec.SetSlotNode(old(V()), j, n, keys)
      ensures forall k: nat :: k < CLUSTER_SLOTS ==>
        migrating[k] == if k == j && keys == 0 && old(nodes[myself].node.master && n in nodes) then None else old(migrating[k])
      ensures forall k: nat :: k < CLUSTER_SLOTS ==>
        slots[k] == if k == j && old(nodes[myself].node.master && n in nodes && (slots[j] != Some(myself) || keys == 0))
                    then Some(n) else old(slots[k])
    {
      hide RecordMatches, TableMatches, Nodes, Known, Assigned, Spec.BumpEpoch;
      MyNode(this);
      assert OwnerOf(V(), j) == slots[j] by { OwnerAt(V(), slots[..]); }
      if !nodes[myself].node.master || n !in nodes { return; }
      if slots[j] == Some(myself) && n != myself && keys != 0 { return; }
      if keys == 0 && migrating[j].Some? { StopMigrating(j); }
      ImportingAt(this, j);
      if n == myself && importing[j].Some? {
        var _ := BumpConfigEpoch();
        StopImporting(j);
        MyNode(this);
      }
      Rebind(n, j);
    }

    method StopMigrating(j: nat)
      requires Valid() && j < CLUSTER_SLOTS
      modifies migrating
      ensures Valid() && V() == old(V()) && migrating[..] == old(migrating[..])[j := None]
    {
      hide RecordMatches, TableMatches, Nodes, Known, Assigned;
      ghost var s, t := slots[..], importing[..];
      migrating[j] := None;
      assert slots[..] == s && importing[..] == t;
    }

    method StopImporting(j: nat)
      requires Valid() && j < CLUSTER_SLOTS
      modifies importing
      ensures Valid() && V() == old(V()).(importing := old(V()).importing - {j})
    {
      hide RecordMatches, TableMatches, Nodes, Known;
      ghost var s, t := slots[..], importing[..];
      importing[j] := None;
      assert slots[..] == s && importing[..] == t[j := None];
      AssignedUpdate(t, j, None);
    }

    /** SETSLOT MIGRATING: only this node's own slots can migrate, and only to a known node. */
    method MigrateSlot(j: nat, n: Id) returns (ok: bool)
      requires Valid() && j < CLUSTER_SLOTS
      modifies migrating
      ensures Valid() && V() == old(V())
      ensures ok <==> Me(V()).master && OwnerOf(V(), j) == Some(myself) && n in nodes
      ensures migrating[..] == if ok then old(migrating[..])[j := Some(n)] else old(migrating[..])
    {
      hide RecordMatches, TableMatches, Nodes, Known, Assigned;
      MyNode(this);
      OwnerAt(V(), slots[..]);
      ghost var s, t := slots[..], importing[..];
      ok := nodes[myself].node.master && slots[j] == Some(myself) && n in nodes;
      if ok { migrating[j] := Some(n); }
      assert slots[..] == s && importing[..] == t;
    }

    /** SETSLOT IMPORTING: not of this node's own slots. */
    method ImportSlot(j: nat, n: Id)
      requires Valid() && j < CLUSTER_SLOTS
      modifies importing
      ensures Valid() && V() == RunCommand(old(V()), Import(j, n))
    {
      hide RecordMatches, TableMatches, Nodes, Known, Assigned;
      MyNode(this);
      OwnerAt(V(), slots[..]);
      if !nodes[myself].node.master || slots[j] == Some(myself) || n !in nodes { return; }
      ghost var s, t := slots[..], importing[..];
      AssignedUpdate(t, j, Some(n));
      importing[j] := Some(n);
      assert slots[..] == s && importing[..] == t[j := Some(n)];
    }

    /** SETSLOT STABLE. */
    method SetSlotStable(j: nat) returns (ok: bool)
      requires Valid() && j < CLUSTER_SLOTS
      modifies importing, migrating
      ensures Valid() && V() == RunCommand(old(V()), Stable(j)) && ok == Me(old(V())).master
      ensures migrating[..] == if ok then old(migrating[..])[j := None] else old(migrating[..])
    {
      hide RecordMatches, TableMatches, Nodes, Known, Assigned;
      MyNode(this);
      ok := nodes[myself].node.master;
      if ok {
        StopImporting(j);
        StopMigrating(j);
      }
    }

    /** A node is found to be failing, or not to be any more. */
    method MarkNode(n: Id, failed: bool)
      requires Valid()
      modifies this`nodes
      ensures Valid() && V() == RunCommand(old(V()), MarkFailed(n, failed))
    {
      hide RecordMatches, TableMatches, Nodes, Known, Assigned;
      MyNode(this);
      if n in nodes { SetNode(n, nodes[n].node.(failed := failed)); }
    }

    /** The state of a manual failover: under way, and the master's offset reached. */
    method SetManual(running: bool, canStart: bool)
      requires Valid()
      modifies this`manualEnd, this`manualCanStart
      ensures Valid() && V() == RunCommand(old(V()), Manual(running, canStart))
    {
      hide RecordMatches, TableMatches, Nodes, Known, Assigned;
      manualEnd, manualCanStart := running, canStart;
    }

    /** The part of clusterUpdateState that counts the masters with slots (lines 3510-3526). */
    method CountMasters()
      requires Valid()
      modifies this`size
      ensures Valid() && V() == RunCommand(old(V()), Recount)
      ensures size == |set n | n in nodes && nodes[n].node.master && nodes[n].numslots > 0|
    {
      hide Valid, RecordMatches, TableMatches, Nodes, Known, Assigned, ServesSlots, MastersBut, RunCommand;
      ghost var v := V();
      MyNode(this);
      AllCounted(v);
      size := 0;
      var left := nodes.Keys;
      while left != {}
        invariant left <= nodes.Keys && Valid() && V() == v.(size := size)
        invariant size == |MastersBut(v, left)|
        decreases left
      {
        var n :| n in left;
        CounterServesView(this, n);
        SameServes(v, V(), n);
        CountedNext(v, left, n);
        if nodes[n].node.master && nodes[n].numslots != 0 { size := size + 1; }
        left := left - {n};
      }
      MastersAre(this, v);
    }

    /** Lines 1600-1612: the sender's epochs are recorded. */
    method Absorb(h: Header)
      requires Valid()
      modifies this`currentEpoch, this`nodes
      ensures Valid() && V() == AbsorbHeader(old(V()), h) && nodes.Keys == old(nodes.Keys)
      ensures forall n :: n in nodes ==> nodes[n] == Heard(old(nodes)[n], if n == h.sender then h.configEpoch else 0)
    {
      hide RecordMatches, TableMatches, Nodes, Known, Assigned;
      MyNode(this);
      if h.sender !in nodes { return; }
      if h.currentEpoch > currentEpoch { currentEpoch := h.currentEpoch; }
      var s := nodes[h.sender].node;
      if h.configEpoch > s.configEpoch {
        SetNode(h.sender, s.(configEpoch := h.configEpoch));
      } else {
        assert V().nodes[h.sender := s] == V().nodes;
      }
    }

    /** An ACK (lines 1928-1940). */
    method CountAck(h: Header) returns (counted: bool)
      requires Valid()
      modifies this`currentEpoch, this`nodes, this`authCount
      ensures Valid() && V() == ProcessAuthAck(old(V()), h) && counted == Counts(AbsorbHeader(old(V()), h), h)
      ensures counted <==> h.sender in old(nodes) && old(nodes)[h.sender].node.master && old(nodes)[h.sender].numslots > 0
                           && h.currentEpoch >= authEpoch
      ensures authCount == old(authCount) + if counted then 1 else 0
    {
      hide RecordMatches, TableMatches, Nodes, Known, Assigned, AbsorbHeader, ServesSlots;
      Absorb(h);
      MyNode(this);
      if h.sender !in nodes { return false; }
      CounterServesView(this, h.sender);
      counted := nodes[h.sender].node.master && nodes[h.sender].numslots > 0 && h.currentEpoch >= authEpoch;
      if counted { authCount := authCount + 1; }
    }

    /** clusterSetNodeAsMaster. */
    method PromoteNode(n: Id)
      requires Valid() && n in nodes
      modifies this`nodes
      ensures Valid() && V() == SetNodeAsMaster(old(V()), n) && nodes.Keys == old(nodes.Keys)
    {
      hide RecordMatches, TableMatches, Nodes, Known, Assigned;
      MyNode(this);
      if !nodes[n].node.master { SetNode(n, nodes[n].node.(master := true, slaveof := None)); }
    }

    /** Lines 1775-1783: a master that turns into a slave loses its slots. */
    method DemoteNode(n: Id)
      requires Valid() && n in nodes
      modifies this`nodes, slots
      ensures Valid() && V() == Demote(old(V()), n) && nodes.Keys == old(nodes.Keys)
    {
      hide RecordMatches, TableMatches, Nodes, Known, Assigned, SlotsOf;
      MyNode(this);
      if nodes[n].node.master {
        var x := nodes[n].node;
        var _ := DelNodeSlots(n);
        MyNode(this);
        DemotedView(old(V()), n);
        SetNode(n, x.(master := false));
      }
    }

    /** Lines 1764-1793: the sender's role follows the header. */
    method FollowRole(h: Header)
      requires Valid() && h.sender in nodes
      modifies this`nodes, slots
      ensures Valid() && V() == UpdateRole(old(V()), h) && nodes.Keys == old(nodes.Keys)
    {
      hide RecordMatches, TableMatches, Nodes, Known, Assigned, Demote, SetNodeAsMaster;
      MyNode(this);
      if h.slaveof.None? {
        PromoteNode(h.sender);
        return;
      }
      DemoteNode(h.sender);
      MyNode(this);
      if h.slaveof.value in nodes {
        SetNode(h.sender, nodes[h.sender].node.(slaveof := h.slaveof));
      }
    }

    /** Which branch clusterHandleSlaveFailover is about to take. */
    method ChooseFailoverStep(c: Clock) returns (step: FailoverStep)
      requires Valid()
      ensures step == FailoverBranch(V(), c)
      ensures !step.Idle? ==> IsSlave()
    {
      hide RecordMatches, TableMatches, Nodes, Known, Assigned, ServesSlots;
      MyNode(this);
      var me := nodes[myself].node;
      var manual := manualEnd && manualCanStart;
      var age := c.now - authTime;
      var timeout := if c.timeout * 2 < 2000 then 2000 else c.timeout * 2;
      if me.master || me.slaveof.None? || (!nodes[me.slaveof.value].node.failed && !manual) { return Idle; }
      CounterServesView(this, me.slaveof.value);
      if nodes[me.slaveof.value].numslots == 0 { return Idle; }
      if !c.dataFresh && !manual { return Idle; }
      if timeout * 2 < age { return Reset; }
      var start := if !authSent && !manualEnd then authTime + c.rankDelay else authTime;
      if c.now < start || timeout < age { return Postpone; }
      if !authSent { return Ask; }
      if size / 2 + 1 <= authCount { return Win; }
      return Wait;
    }

    method WinElection()
      requires Valid()
      modifies this, slots
      ensures Valid() && V() == Spec.ReplaceMaster(RaiseConfigEpoch(old(V())))
      ensures old(IsSlave()) ==> TookSlotsOf(old(nodes[myself].node.slaveof.value))
    {
      hide RecordMatches, TableMatches, Nodes, Known, Assigned, Spec.ReplaceMaster;
      MyNode(this);
      var me := nodes[myself].node;
      if me.configEpoch < authEpoch { SetNode(myself, me.(configEpoch := authEpoch)); }
      SameMe(old(V()), V());
      ReplaceYourMaster();
    }

    /** clusterHandleSlaveFailover; `step` tells which packets go out. */
    method HandleSlaveFailover(c: Clock) returns (step: FailoverStep)
      requires Valid()
      modifies this, slots
      ensures Valid() && step == FailoverBranch(old(V()), c) && V() == Spec.HandleFailover(old(V()), c)
      ensures if step.Win? then old(IsSlave()) && TookSlotsOf(old(nodes[myself].node.slaveof.value))
              else nodes == old(nodes) && slots[..] == old(slots[..])
    {
      hide RecordMatches, TableMatches, Nodes, Known, Assigned, FailoverBranch, Spec.ReplaceMaster, RaiseConfigEpoch;
      step := ChooseFailoverStep(c);
      if step.Reset? {
        authTime := if manualEnd then c.now else c.now + 500 + c.delay;
        authCount, authSent := 0, false;
      } else if step.Postpone? || step.Ask? {
        if !authSent && !manualEnd { authTime := authTime + c.rankDelay; }
        if step.Ask? {
          currentEpoch := currentEpoch + 1;
          authEpoch, authSent := currentEpoch, true;
        }
      } else if step.Win? {
        WinElection();
      }
    }
  }

  /** The bitmaps and the owner table tell the same about claimed slots. */
  lemma NewerAgrees(c: Cluster, claimed: seq<bv8>, epoch: nat)
    requires c.Valid() && |claimed| == BITMAP_BYTES
    ensures (exists j: nat :: Cluster.OwnedByNewer(c.nodes, claimed, epoch, j)) <==>
      exists j: nat :: j in BitsOf(claimed) && j in c.V().owner && epoch < c.V().nodes[c.V().owner[j]].configEpoch
  {
    hide RecordMatches, TestBit, Known;
    if j: nat :| Cluster.OwnedByNewer(c.nodes, claimed, epoch, j) {
      var n :| n in c.nodes && j / 8 < |c.nodes[n].bitmap| && TestBit(c.nodes[n].bitmap, j) && c.nodes[n].node.configEpoch > epoch;
      assert j < CLUSTER_SLOTS;
      BitIsOwner(c.nodes, c.slots[..], n, j);
      assert j in BitsOf(claimed) && j in c.V().owner;
    }
    if j: nat :| j in BitsOf(claimed) && j in c.V().owner && epoch < c.V().nodes[c.V().owner[j]].configEpoch {
      BitIsOwner(c.nodes, c.slots[..], c.V().owner[j], j);
      assert Cluster.OwnedByNewer(c.nodes, claimed, epoch, j);
    }
  }

  lemma SameBitmap(r: NodeRec, s: seq<Option<Id>>, q: NodeRec, t: seq<Option<Id>>, n: Id)
    requires RecordMatches(r, s, n) && RecordMatches(q, t, n)
    requires forall j: nat :: j < CLUSTER_SLOTS ==> (s[j] == Some(n) <==> t[j] == Some(n))
    ensures r.numslots == q.numslots && r.bitmap == q.bitmap
  {
    hide TestBit;
    assert Owned(s, n) == Owned(t, n);
    assert BitsOf(r.bitmap) == BitsOf(q.bitmap);
    BitmapsEqualAsSets(r.bitmap, q.bitmap);
  }

  /** A record after its node announced a configEpoch. */
  function Heard(r: NodeRec, epoch: nat): NodeRec {
    if epoch > r.node.configEpoch then r.(node := r.node.(configEpoch := epoch)) else r
  }

  /** Exactly the slots of one node have gone to another. */
  predicate Moved(s: seq<Option<Id>>, t: seq<Option<Id>>, from: Id, to: Id) {
    |t| == |s| && forall j: nat :: j < |s| ==> t[j] == if s[j] == Some(from) then Some(to) else s[j]
  }

  lemma MovedCount(s: seq<Option<Id>>, t: seq<Option<Id>>, from: Id, to: Id)
    requires Moved(s, t, from, to) && from != to
    ensures Owned(t, from) == {} && |Owned(t, to)| == |Owned(s, to)| + |Owned(s, from)|
  {
    assert Owned(t, to) == Owned(s, to) + Owned(s, from);
    assert Owned(s, to) !! Owned(s, from);
  }

  /** What moving all slots of a node does to the counters and the bitmaps. */
  lemma MovedCounters(before: map<Id, NodeRec>, s: seq<Option<Id>>, after: map<Id, NodeRec>, t: seq<Option<Id>>, from: Id, to: Id)
    requires TableMatches(before, s) && TableMatches(after, t) && after.Keys == before.Keys && from in before && to in before
    requires Moved(s, t, from, to) && |s| == CLUSTER_SLOTS
    ensures from != to ==>
      && after[from].numslots == 0 && after[to].numslots == before[to].numslots + before[from].numslots
      && forall n :: n in after && n != from && n != to ==>
           after[n].numslots == before[n].numslots && after[n].bitmap == before[n].bitmap
  {
    hide RecordMatches;
    if from != to {
      MovedCount(s, t, from, to);
      CountIs(before[from], s, from);
      CountIs(before[to], s, to);
      CountIs(after[from], t, from);
      CountIs(after[to], t, to);
      forall n | n in after && n != from && n != to
        ensures after[n].numslots == before[n].numslots && after[n].bitmap == before[n].bitmap
      {
        SameBitmap(before[n], s, after[n], t, n);
      }
    }
  }

  lemma CountIs(r: NodeRec, s: seq<Option<Id>>, n: Id)
    requires RecordMatches(r, s, n)
    ensures r.numslots == |Owned(s, n)|
  {
  }

  lemma DemotedView(v: View, n: Id)
    requires n in v.nodes && v.nodes[n].master
    ensures var w := Spec.DelNodeSlots(v, n);
      w.nodes == v.nodes && Demote(v, n) == w.(nodes := w.nodes[n := v.nodes[n].(master := false)])
  {
    var u := v.(nodes := v.nodes[n := v.nodes[n].(master := false)]);
    assert SlotsOf(u, n) == SlotsOf(v, n);
  }

  lemma SameServes(v: View, w: View, n: Id)
    requires w.owner == v.owner
    ensures ServesSlots(w, n) <==> ServesSlots(v, n)
  {
  }

  /** The masters with slots among the nodes not in `left`. */
  function MastersBut(v: View, left: set<Id>): set<Id> {
    set n | n in v.nodes && n !in left && v.nodes[n].master && ServesSlots(v, n)
  }

  lemma AllCounted(v: View)
    requires Known(v)
    ensures MastersBut(v, v.nodes.Keys) == {} && RunCommand(v, Recount) == v.(size := |MastersBut(v, {})|)
  {
    assert MastersBut(v, {}) == set n | n in v.nodes && v.nodes[n].master && ServesSlots(v, n);
  }

  lemma MastersAre(c: Cluster, v: View)
    requires c.Valid() && v.nodes == c.V().nodes && v.owner == c.V().owner
    ensures MastersBut(v, {}) == set n | n in c.nodes && c.nodes[n].node.master && c.nodes[n].numslots > 0
  {
    hide RecordMatches, TableMatches, Nodes, Known, Assigned, ServesSlots;
    MyNode(c);
    forall n | n in c.nodes
      ensures c.nodes[n].numslots > 0 <==> ServesSlots(v, n)
    {
      CounterServesView(c, n);
      SameServes(v, c.V(), n);
    }
  }

  lemma CountedNext(v: View, left: set<Id>, n: Id)
    requires n in left && left <= v.nodes.Keys
    ensures |MastersBut(v, left - {n})| ==
      |MastersBut(v, left)| + if v.nodes[n].master && ServesSlots(v, n) then 1 else 0
  {
    hide ServesSlots;
    var done, next := MastersBut(v, left), MastersBut(v, left - {n});
    if v.nodes[n].master && ServesSlots(v, n) {
      assert next == done + {n};
    } else {
      assert next == done;
    }
  }

  lemma AddView(v: View, s: seq<Option<Id>>, n: Id, j: nat)
    requires v.owner == Assigned(s) && j < |s|
    ensures Spec.AddSlot(v, n, j) == if s[j].Some? then v else v.(owner := v.owner[j := n])
  {
  }

  lemma BitmapLength(nodes: map<Id, NodeRec>, s: seq<Option<Id>>, n: Id)
    requires TableMatches(nodes, s) && n in nodes
    ensures |nodes[n].bitmap| == BITMAP_BYTES
  {
  }

  lemma FreedNodes(nodes: map<Id, NodeRec>, rest: map<Id, NodeRec>, n: Id)
    requires rest == map k | k in nodes && k != n :: if nodes[k].node.slaveof == Some(n)
                                                     then nodes[k].(node := nodes[k].node.(slaveof := None)) else nodes[k]
    ensures Nodes(rest) == WithoutNode(Nodes(nodes), n)
  {
  }

  lemma NotServing(v: View, s: seq<Option<Id>>, n: Id)
    requires v.owner == Assigned(s) && !ServesSlots(v, n)
    ensures forall k: nat :: k < |s| ==> s[k] != Some(n)
  {
    assert forall k: nat :: k < |s| && s[k] == Some(n) ==> k in v.owner && v.owner[k] == n;
  }

  lemma SameMe(v: View, w: View)
    requires Known(v) && w == (if Me(v).configEpoch < v.authEpoch
                               then v.(nodes := v.nodes[v.myself := Me(v).(configEpoch := v.authEpoch)]) else v)
    ensures w == RaiseConfigEpoch(v)
  {
    assert Me(v).configEpoch >= v.authEpoch ==> v.nodes[v.myself := Me(v)] == v.nodes;
  }

  lemma ImportingAt(c: Cluster, j: nat)
    requires c.Valid() && j < CLUSTER_SLOTS
    ensures j in c.V().importing <==> c.importing[j].Some?
  {
  }

  lemma RemovedNode(nodes: map<Id, NodeRec>, rest: map<Id, NodeRec>, s: seq<Option<Id>>, n: Id)
    requires TableMatches(nodes, s) && rest.Keys == nodes.Keys - {n}
    requires forall k :: k in rest ==> rest[k].bitmap == nodes[k].bitmap && rest[k].numslots == nodes[k].numslots
    requires forall k: nat :: k < |s| ==> s[k] != Some(n)
    ensures TableMatches(rest, s)
  {
    hide TestBit;
    forall k | k in rest
      ensures RecordMatches(rest[k], s, k)
    {
      assert RecordMatches(nodes[k], s, k);
    }
  }

  lemma CounterServesView(c: Cluster, n: Id)
    requires c.Valid() && n in c.nodes
    ensures c.nodes[n].numslots >= 0 && (c.nodes[n].numslots == 0 <==> !ServesSlots(c.V(), n))
  {
    hide RecordMatches, TableMatches, Assigned, Nodes, Known;
    CounterServes(c.nodes, c.slots[..], n);
  }

  lemma NothingAssigned(s: seq<Option<Id>>)
    requires forall j :: 0 <= j < |s| ==> s[j] == None
    ensures Assigned(s) == map[]
  {
  }

  lemma MyNode(c: Cluster)
    requires c.Valid()
    ensures c.myself in c.nodes && c.V().nodes.Keys == c.nodes.Keys && Me(c.V()) == c.nodes[c.myself].node
    ensures forall n :: n in c.nodes ==> c.V().nodes[n] == c.nodes[n].node
  {
  }

  lemma BitIsOwner(nodes: map<Id, NodeRec>, s: seq<Option<Id>>, n: Id, j: nat)
    requires TableMatches(nodes, s) && n in nodes && j < CLUSTER_SLOTS
    ensures |s| == CLUSTER_SLOTS && |nodes[n].bitmap| == BITMAP_BYTES && (TestBit(nodes[n].bitmap, j) <==> s[j] == Some(n))
  {
    hide TestBit;
    assert RecordMatches(nodes[n], s, n);
  }

  lemma RebindTest(c: Cluster, v: View, s: seq<Option<Id>>, sender: Id, epoch: nat, claimed: seq<bv8>, j: nat)
    requires c.Valid() && j < CLUSTER_SLOTS == |s| && |claimed| == BITMAP_BYTES
    requires v.nodes == Nodes(c.nodes) && v.importing == Assigned(c.importing[..])
    requires v.owner == Assigned(s) && s[j] == c.slots[j]
    ensures c.slots[j].Some? ==> c.slots[j].value in c.nodes
    ensures Rebinds(v, sender, epoch, BitsOf(claimed), j) <==>
      && TestBit(claimed, j) && c.slots[j] != Some(sender) && c.importing[j].None?
      && (c.slots[j].None? || c.nodes[c.slots[j].value].node.configEpoch < epoch)
  {
    hide RecordMatches, TestBit;
  }

  /** What the loop over the slots has done with the first j of them, t being the table as it is now. */
  ghost predicate ReboundTo(v: View, s: seq<Option<Id>>, sender: Id, epoch: nat, claimed: set<nat>, curmaster: Option<Id>,
                            keys: nat -> nat, j: nat, t: seq<Option<Id>>, newmaster: bool, dirty: seq<nat>)
  {
    && |t| == |s| == CLUSTER_SLOTS && v.owner == Assigned(s)
    && (forall k: nat :: k < CLUSTER_SLOTS ==>
          t[k] == if k < j && Rebinds(v, sender, epoch, claimed, k) then Some(sender) else s[k])
    && (newmaster <==> exists k: nat :: k < j && Rebinds(v, sender, epoch, claimed, k) && OwnerOf(v, k) == curmaster)
    && (forall k: nat :: k in dirty <==> k < j && Loses(v, sender, epoch, claimed, k) && keys(k) > 0)
  }

  lemma ReboundNone(v: View, s: seq<Option<Id>>, sender: Id, epoch: nat, claimed: set<nat>, curmaster: Option<Id>,
                    keys: nat -> nat)
    requires |s| == CLUSTER_SLOTS && v.owner == Assigned(s)
    ensures ReboundTo(v, s, sender, epoch, claimed, curmaster, keys, 0, s, false, [])
  {
  }

  lemma ReboundNext(v: View, s: seq<Option<Id>>, sender: Id, epoch: nat, claimed: set<nat>, curmaster: Option<Id>,
                    keys: nat -> nat, j: nat, t: seq<Option<Id>>, newmaster: bool, dirty: seq<nat>)
    requires ReboundTo(v, s, sender, epoch, claimed, curmaster, keys, j, t, newmaster, dirty) && j < CLUSTER_SLOTS
    ensures |t| == |s| == CLUSTER_SLOTS && t[j] == s[j] && v.owner == Assigned(s)
    ensures if Rebinds(v, sender, epoch, claimed, j) then
        ReboundTo(v, s, sender, epoch, claimed, curmaster, keys, j + 1, t[j := Some(sender)], newmaster || t[j] == curmaster,
                  if t[j] == Some(v.myself) && keys(j) > 0 then dirty + [j] else dirty)
      else ReboundTo(v, s, sender, epoch, claimed, curmaster, keys, j + 1, t, newmaster, dirty)
  {
    hide Rebinds, Assigned;
    OwnerAt(v, s);
    OwnNotSender(v, sender, epoch, claimed, j);
  }

  lemma OwnNotSender(v: View, sender: Id, epoch: nat, claimed: set<nat>, j: nat)
    ensures Rebinds(v, sender, epoch, claimed, j) ==> OwnerOf(v, j) != Some(sender)
  {
  }

  lemma ReboundAll(v: View, s: seq<Option<Id>>, sender: Id, epoch: nat, claimed: set<nat>, curmaster: Option<Id>,
                   keys: nat -> nat, t: seq<Option<Id>>, newmaster: bool, dirty: seq<nat>)
    requires ReboundTo(v, s, sender, epoch, claimed, curmaster, keys, CLUSTER_SLOTS, t, newmaster, dirty)
    ensures Assigned(t) == ReboundOwners(v, sender, epoch, claimed)
    ensures newmaster <==> exists k ::
      k in claimed && Rebinds(v, sender, epoch, claimed, k) && OwnerOf(v, k) == curmaster
    ensures forall k: nat :: k in dirty <==> Loses(v, sender, epoch, claimed, k) && keys(k) > 0
  {
    hide ReboundOwners, Assigned;
    OwnerAt(v, s);
    ReboundTable(v, t, sender, epoch, claimed);
  }

  /** A record without slots is right for a node that no slot names. */
  lemma EmptyRecord(r: NodeRec, s: seq<Option<Id>>, n: Id)
    requires |r.bitmap| == BITMAP_BYTES && |s| == CLUSTER_SLOTS && r.numslots == 0
    requires (forall i :: 0 <= i < |r.bitmap| ==> r.bitmap[i] == 0) && (forall j :: 0 <= j < |s| ==> s[j] != Some(n))
    ensures RecordMatches(r, s, n)
  {
    assert Owned(s, n) == {};
  }

  lemma AddedNode(nodes: map<Id, NodeRec>, s: seq<Option<Id>>, n: Id, r: NodeRec)
    requires TableMatches(nodes, s) && n !in nodes && |s| == CLUSTER_SLOTS
    requires r.bitmap == seq(BITMAP_BYTES, _ => 0) && r.numslots == 0
    ensures TableMatches(nodes[n := r], s) && Nodes(nodes[n := r]) == Nodes(nodes)[n := r.node]
  {
    hide RecordMatches;
    EmptyRecord(r, s, n);
  }

  /** A node that has just been initialised: alone, a master, without slots. */
  function Created(id: Id, sent: bool): (v: View)
    ensures Known(v)
  {
    View(id, 0, 0, 1, map[id := Node(0, true, None, false, 0)], map[], map[], 0, 0, sent, 0, false, false, false)
  }
}
