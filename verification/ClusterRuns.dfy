/**
 Whole runs of one node's tables, from the moment it is initialised: whatever handlers and commands run, in any order,
 the owner table, the bitmaps and the counters agree, and the node is where ClusterView says.
 */
module ClusterRuns {
  import opened Optional
  import opened ClusterView
  import Spec = ClusterView
  import opened ClusterBitmap
  import opened ClusterState
  import opened ClusterPackets

  /** A view and the migrating slots. */
  datatype Tables = Tables(view: View, migrating: map<nat, Id>)

  ghost function T(c: Cluster): Tables
    reads c, c.slots, c.importing, c.migrating
  {
    Tables(c.V(), Leaving(c))
  }

  datatype Op =
    | Meet(node: Id, master: bool)
    | Drop(node: Id)
    | Give(node: Id, slot: nat)
    | Take(slot: nat)
    | Assign(slot: nat, node: Id, keys: nat)
    | BeginImport(slot: nat, node: Id)
    | BeginMigrate(slot: nat, node: Id)
    | Settle(slot: nat)
    | Follow(node: Id)
    | Bump
    | Mark(node: Id, failed: bool)
    | SetFailover(running: bool, canStart: bool)
    | CountMasters
    | Tick(clock: Clock)
    | GetPing(hdr: Header, bitmap: seq<bv8>, keysIn: nat -> nat)
    | GetUpdate(hdr: Header, about: Id, epoch: nat, bitmap: seq<bv8>, keysIn: nat -> nat)
    | GetRequest(hdr: Header, bitmap: seq<bv8>, clock: Clock)
    | GetAck(hdr: Header)

  /** The header with the bitmap it came with. */
  function Framed(h: Header, bitmap: seq<bv8>): Header { h.(myslots := BitsOf(bitmap)) }

  /** Commands name existing slots, and packets carry whole bitmaps; anything else is refused before these handlers. */
  predicate WellFormed(op: Op) {
    match op
    case Give(_, j) => j < CLUSTER_SLOTS
    case Take(j) => j < CLUSTER_SLOTS
    case Assign(j, _, _) => j < CLUSTER_SLOTS
    case BeginImport(j, _) => j < CLUSTER_SLOTS
    case BeginMigrate(j, _) => j < CLUSTER_SLOTS
    case Settle(j) => j < CLUSTER_SLOTS
    case GetPing(_, bitmap, _) => |bitmap| == BITMAP_BYTES
    case GetUpdate(_, _, _, bitmap, _) => |bitmap| == BITMAP_BYTES
    case GetRequest(_, bitmap, _) => |bitmap| == BITMAP_BYTES
    case _ => true
  }

  /** What the handler does to the view. */
  function ViewAfter(v: View, op: Op): (w: View)
    requires Known(v) && WellFormed(op)
    ensures Known(w)
  {
    match op
    case Meet(n, m) => RunCommand(v, Learn(n, m))
    case Drop(n) => if n in v.nodes && n != v.myself then DelNode(v, n) else v
    case Give(n, j) => if n in v.nodes then Spec.AddSlot(v, n, j) else v
    case Take(j) => Spec.DelSlot(v, j)
    case Assign(j, n, keys) => Spec.SetSlotNode(v, j, n, keys)
    case BeginImport(j, n) => RunCommand(v, Import(j, n))
    case BeginMigrate(_, _) => v
    case Settle(j) => RunCommand(v, Stable(j))
    case Follow(n) => if n in v.nodes then Spec.SetMaster(v, n) else v
    case Bump => BumpEpoch(v)
    case Mark(n, f) => RunCommand(v, MarkFailed(n, f))
    case SetFailover(r, s) => RunCommand(v, Manual(r, s))
    case CountMasters => RunCommand(v, Recount)
    case Tick(c) => FailoverKnown(v, c); HandleFailover(v, c)
    case GetPing(h, bits, _) => Spec.ProcessPing(v, Framed(h, bits))
    case GetUpdate(h, about, e, bits, _) => Spec.ProcessUpdate(v, h, about, e, BitsOf(bits))
    case GetRequest(h, bits, c) => Requested(v, Framed(h, bits), c)
    case GetAck(h) => AckKnown(v, h); ProcessAuthAck(v, h)
  }

  /** What it leaves migrating. */
  function MigratingAfter(m: map<nat, Id>, v: View, op: Op): map<nat, Id>
    requires Known(v) && WellFormed(op)
  {
    match op
    case Drop(n) => if n in v.nodes && n != v.myself then map j | j in m && m[j] != n :: m[j] else m
    case Assign(j, n, keys) => if keys == 0 && Me(v).master && n in v.nodes then m - {j} else m
    case BeginMigrate(j, n) =>
      if Me(v).master && OwnerOf(v, j) == Some(v.myself) && n in v.nodes then m[j := n] else m
    case Settle(j) => if Me(v).master then m - {j} else m
    case Follow(_) => if Demoted(v, ViewAfter(v, op)) then map[] else m
    case GetPing(h, bits, _) => if PingCloses(v, Framed(h, bits)) then map[] else m
    case GetUpdate(h, about, e, bits, _) => if Demoted(Announced(v, h, about, e), ViewAfter(v, op)) then map[] else m
    case _ => m
  }

  /** One operation; a process that has stopped does nothing any more. */
  function Apply(t: Tables, op: Op): (u: Tables)
    requires Known(t.view)
    ensures Known(u.view)
  {
    if t.view.down || !WellFormed(op) then t
    else Tables(ViewAfter(t.view, op), MigratingAfter(t.migrating, t.view, op))
  }

  lemma FailoverKnown(v: View, c: Clock)
    requires Known(v)
    ensures Known(HandleFailover(v, c))
  {
  }

  lemma AckKnown(v: View, h: Header)
    requires Known(v)
    ensures Known(ProcessAuthAck(v, h))
  {
  }

  function After(t: Tables, ops: seq<Op>): (u: Tables)
    requires Known(t.view)
    ensures Known(u.view)
    decreases |ops|
  {
    if ops == [] then t else Apply(After(t, ops[..|ops| - 1]), ops[|ops| - 1])
  }

  predicate IsPacket(op: Op) { op.GetPing? || op.GetUpdate? || op.GetRequest? || op.GetAck? }

  /** The operations that are packets. */
  method Receive(c: Cluster, op: Op)
    requires c.Valid() && WellFormed(op) && IsPacket(op)
    modifies c, c.slots, c.importing, c.migrating
    ensures c.Valid() && c.V() == ViewAfter(old(c.V()), op)
    ensures Leaving(c) == MigratingAfter(old(Leaving(c)), old(c.V()), op)
  {
    hide TableMatches, Assigned, Nodes, Known, RecordMatches, BitsOf, Spec.ProcessPing, Spec.ProcessUpdate, Requested,
      ProcessAuthAck, PingReplies, UpdateAbout, Claimed, PingCloses, Announced, Counts, AbsorbHeader, Grants;
    match op
    case GetPing(h, bits, keysIn) => var _ := ReceivePing(c, Framed(h, bits), bits, keysIn);
    case GetUpdate(h, about, e, bits, keysIn) => ReceiveUpdate(c, h, about, e, bits, keysIn);
    case GetRequest(h, bits, clock) => var _ := ReceiveRequest(c, Framed(h, bits), bits, clock);
    case GetAck(h) => var _ := c.CountAck(h);
  }

  predicate ChangesMigrating(op: Op) { op.Drop? || op.Assign? || op.BeginMigrate? || op.Settle? || op.Follow? }

  /** The operations that may touch migrating slots. */
  method Reshape(c: Cluster, op: Op)
    requires c.Valid() && WellFormed(op) && ChangesMigrating(op)
    modifies c, c.slots, c.importing, c.migrating
    ensures c.Valid() && c.V() == ViewAfter(old(c.V()), op)
    ensures Leaving(c) == MigratingAfter(old(Leaving(c)), old(c.V()), op)
  {
    hide TableMatches, Assigned, Nodes, Known, RecordMatches, Spec.SetSlotNode, Spec.SetMaster, DelNode, RunCommand;
    MyNode(c);
    ghost var before := c.migrating[..];
    match op
    case Drop(n) => if n in c.nodes && n != c.myself { Forget(c, n); }
    case Assign(j, n, keys) =>
      AssignedUpdate(before, j, None);
      ghost var closes := keys == 0 && c.nodes[c.myself].node.master && n in c.nodes;
      c.SetSlotNode(j, n, keys);
      assert c.migrating[..] == if closes then before[j := None] else before;
    case BeginMigrate(j, n) =>
      AssignedUpdate(before, j, Some(n));
      var _ := c.MigrateSlot(j, n);
    case Settle(j) =>
      AssignedUpdate(before, j, None);
      var _ := c.SetSlotStable(j);
    case Follow(n) => if n in c.nodes { Replicate(c, n); }
  }

  method Forget(c: Cluster, n: Id)
    requires c.Valid() && n in c.nodes && n != c.myself
    modifies c, c.slots, c.importing, c.migrating
    ensures c.Valid() && c.V() == DelNode(old(c.V()), n)
    ensures var m := old(Leaving(c)); Leaving(c) == map j | j in m && m[j] != n :: m[j]
  {
    hide TableMatches, Assigned, Nodes, Known, RecordMatches, DelNode;
    ghost var before := c.migrating[..];
    c.DelNode(n);
    DroppedFrom(before, c.migrating[..], n);
  }

  method Replicate(c: Cluster, n: Id)
    requires c.Valid() && n in c.nodes
    modifies c, c.slots, c.importing, c.migrating
    ensures c.Valid() && c.V() == Spec.SetMaster(old(c.V()), n)
    ensures Leaving(c) == if Demoted(old(c.V()), c.V()) then map[] else old(Leaving(c))
  {
    hide TableMatches, Assigned, Nodes, Known, RecordMatches, Spec.SetMaster;
    ghost var before := c.migrating[..];
    c.SetMaster(n);
    if Demoted(old(c.V()), c.V()) { NothingAssigned(c.migrating[..]); } else { assert c.migrating[..] == before; }
  }

  lemma DroppedFrom(s: seq<Option<Id>>, t: seq<Option<Id>>, n: Id)
    requires |t| == |s| && forall k: nat :: k < |s| ==> t[k] == if s[k] == Some(n) then None else s[k]
    ensures Assigned(t) == map j | j in Assigned(s) && Assigned(s)[j] != n :: Assigned(s)[j]
  {
  }

  /** The others. */
  method Locally(c: Cluster, op: Op)
    requires c.Valid() && WellFormed(op) && !IsPacket(op) && !ChangesMigrating(op)
    modifies c, c.slots, c.importing
    ensures c.Valid() && c.V() == ViewAfter(old(c.V()), op)
  {
    hide TableMatches, Assigned, Nodes, Known, RecordMatches, HandleFailover, BumpEpoch, RunCommand;
    MyNode(c);
    if op.Meet? {
      var _ := c.AddNode(op.node, op.master);
    } else if op.Give? {
      if op.node in c.nodes { var _ := c.AddSlot(op.node, op.slot); }
    } else if op.Take? {
      var _ := c.DelSlot(op.slot);
    } else if op.BeginImport? {
      c.ImportSlot(op.slot, op.node);
    } else if op.Bump? {
      var _ := c.BumpConfigEpoch();
    } else if op.Mark? {
      c.MarkNode(op.node, op.failed);
    } else if op.SetFailover? {
      c.SetManual(op.running, op.canStart);
    } else if op.CountMasters? {
      c.CountMasters();
    } else {
      var _ := c.HandleSlaveFailover(op.clock);
    }
  }

  method Perform(c: Cluster, op: Op)
    requires c.Valid()
    modifies c, c.slots, c.importing, c.migrating
    ensures c.Valid() && T(c) == Apply(old(T(c)), op)
  {
    hide TableMatches, Assigned, Nodes, Known, RecordMatches, ViewAfter;
    if c.down || !WellFormed(op) { return; }
    if IsPacket(op) {
      Receive(c, op);
    } else if ChangesMigrating(op) {
      Reshape(c, op);
    } else {
      Locally(c, op);
    }
  }

  /**
   Any run from initialisation, of packets, commands and cron ticks: at the end bit j of node n is set exactly when
   slots[j] is n, every counter is the number of its node's slots, and all counters together are the number of assigned
   slots.
   */
  method Run(id: Id, sent: bool, ops: seq<Op>) returns (c: Cluster)
    ensures fresh(c) && c.Valid() && T(c) == After(Start(id, sent), ops)
    ensures forall n :: n in c.nodes ==> RecordMatches(c.nodes[n], c.slots[..], n)
    ensures SumSlots(c.nodes, c.nodes.Keys) == |c.V().owner|
  {
    hide Apply, Created, Known, RecordMatches, Cluster.Valid, Cluster.V, SumSlots, Assigned;
    c := new Cluster(id, sent);
    NothingAssigned(c.migrating[..]);
    var i := 0;
    assert ops[..0] == [];
    while i < |ops|
      invariant 0 <= i <= |ops| && fresh(c) && fresh(c.slots) && fresh(c.importing) && fresh(c.migrating) && c.Valid()
      invariant T(c) == After(Start(id, sent), ops[..i])
    {
      assert ops[..i + 1][..i] == ops[..i];
      Perform(c, ops[i]);
      i := i + 1;
    }
    assert ops[..i] == ops;
    TablesAgree(c);
  }

  function Start(id: Id, sent: bool): (t: Tables)
    ensures Known(t.view)
  {
    Tables(Created(id, sent), map[])
  }

  lemma TablesAgree(c: Cluster)
    requires c.Valid()
    ensures forall n :: n in c.nodes ==> RecordMatches(c.nodes[n], c.slots[..], n)
    ensures SumSlots(c.nodes, c.nodes.Keys) == |c.V().owner|
  {
    hide RecordMatches, Known, Nodes, Assigned, SumSlots;
    CountersAddUp(c.nodes, c.slots[..]);
  }
}
