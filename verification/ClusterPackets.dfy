/**
 clusterProcessPacket on the tables of ClusterState: a PING or PONG, an UPDATE and a request for a vote, each doing
 what ClusterView says.  Migrating slots, which no view holds, are followed as well.
 */
module ClusterPackets {
  import opened Optional
  import opened ClusterView
  import Spec = ClusterView
  import opened ClusterBitmap
  import opened ClusterState

  /** The migrating slots. */
  ghost function Leaving(c: Cluster): map<nat, Id>
    reads c.migrating
  {
    Assigned(c.migrating[..])
  }

  /** A master has become a slave. */
  predicate Demoted(v: View, w: View)
    requires Known(v) && Known(w)
  {
    Me(v).master && !Me(w).master
  }

  /** clusterUpdateSlotsConfigWith; a master that becomes a slave has nothing migrating any more. */
  method TakeClaim(c: Cluster, n: Id, epoch: nat, claimed: seq<bv8>, keysIn: nat -> nat)
    requires c.Valid() && n in c.nodes && |claimed| == BITMAP_BYTES
    modifies c, c.slots, c.importing, c.migrating
    ensures c.Valid() && c.V() == UpdateSlots(old(c.V()), n, epoch, BitsOf(claimed))
    ensures Leaving(c) == if Demoted(old(c.V()), c.V()) then map[] else old(Leaving(c))
  {
    hide RecordMatches, TableMatches, Nodes, Known, Assigned, UpdateSlots, BitsOf, Reconfigures, Loses;
    ghost var before := c.migrating[..];
    var _ := c.UpdateSlotsConfigWith(n, epoch, claimed, keysIn);
    if Demoted(old(c.V()), c.V()) { NothingAssigned(c.migrating[..]); } else { assert c.migrating[..] == before; }
  }

  /** The set of slots a node's bitmap holds is the set of slots it owns. */
  lemma BitmapIsSlots(c: Cluster, n: Id)
    requires c.Valid() && n in c.nodes
    ensures |c.nodes[n].bitmap| == BITMAP_BYTES && BitsOf(c.nodes[n].bitmap) == SlotsOf(c.V(), n)
  {
    hide RecordMatches, TestBit, Known, Nodes, TableMatches;
    BitmapLength(c.nodes, c.slots[..], n);
    var bits := c.nodes[n].bitmap;
    forall j: nat | j < CLUSTER_SLOTS
      ensures TestBit(bits, j) <==> c.slots[j] == Some(n)
    {
      BitIsOwner(c.nodes, c.slots[..], n, j);
    }
  }

  /** Lines 1811-1819: comparing bitmaps. */
  method IsDirty(c: Cluster, h: Header, bitmap: seq<bv8>) returns (dirty: bool)
    requires c.Valid() && h.sender in c.nodes && |bitmap| == BITMAP_BYTES && h.myslots == BitsOf(bitmap)
    ensures dirty == DirtySlots(c.V(), h)
  {
    hide RecordMatches, TableMatches, Nodes, Known, Assigned, BitsOf, SlotsOf;
    MyNode(c);
    var sender := c.nodes[h.sender].node;
    var m := if sender.master then Some(h.sender) else sender.slaveof;
    if m.None? { return false; }
    BitmapIsSlots(c, m.value);
    BitmapsEqualAsSets(c.nodes[m.value].bitmap, bitmap);
    return c.nodes[m.value].bitmap != bitmap;
  }

  /** Lines 1841-1866: the first slot the sender claims that is known here under a later configEpoch. */
  method FindStale(c: Cluster, h: Header, bitmap: seq<bv8>) returns (stale: Option<nat>)
    requires c.Valid() && |bitmap| == BITMAP_BYTES && h.myslots == BitsOf(bitmap)
    ensures if stale.Some? then IsFirstStale(c.V(), h, stale.value) else forall j :: j in h.myslots ==> !StaleClaim(c.V(), h, j)
  {
    hide RecordMatches, TableMatches, Nodes, Known, Assigned, TestBit, StaleClaim;
    var j := 0;
    while j < CLUSTER_SLOTS
      invariant 0 <= j <= CLUSTER_SLOTS
      invariant forall k: nat :: k < j && k in h.myslots ==> !StaleClaim(c.V(), h, k)
    {
      StaleTest(c, h, j);
      if TestBit(bitmap, j) && c.slots[j] != Some(h.sender) && c.slots[j].Some? &&
         c.nodes[c.slots[j].value].node.configEpoch > h.configEpoch
      {
        return Some(j);
      }
      j := j + 1;
    }
    return None;
  }

  lemma StaleTest(c: Cluster, h: Header, j: nat)
    requires c.Valid() && j < CLUSTER_SLOTS
    ensures c.slots[j].Some? ==> c.slots[j].value in c.nodes
    ensures j in h.myslots ==> (StaleClaim(c.V(), h, j) <==>
      c.slots[j] != Some(h.sender) && c.slots[j].Some? && c.nodes[c.slots[j].value].node.configEpoch > h.configEpoch)
  {
    hide RecordMatches, Known;
  }

  lemma StaleReply(v: View, h: Header, stale: Option<nat>)
    requires Known(v)
    requires if stale.Some? then IsFirstStale(v, h, stale.value) else forall j :: j in h.myslots ==> !StaleClaim(v, h, j)
    ensures StaleUpdates(v, h) == UpdateAbout(v, h, stale)
  {
    if stale.Some? { assert forall j :: IsFirstStale(v, h, j) ==> j == stale.value; }
  }

  /** The UPDATE about the owner of that slot. */
  function UpdateAbout(v: View, h: Header, stale: Option<nat>): set<Msg>
    requires Known(v)
  {
    if stale.Some? && stale.value in v.owner then
      var o := v.owner[stale.value];
      {Msg(h.sender, BuildHeader(v), Update(o, v.nodes[o].configEpoch, SlotsOf(v, o)))}
    else {}
  }

  /** The view when the UPDATE is sent. */
  function Claimed(v: View, h: Header): (w: View)
    requires Known(v)
    ensures Known(w)
  {
    var a := AbsorbHeader(v, h);
    if h.sender in a.nodes then ApplyClaim(a, h) else a
  }

  /** What is migrating after a PING or PONG. */
  predicate PingCloses(v: View, h: Header)
    requires Known(v)
  {
    h.sender in v.nodes && Demoted(UpdateRole(AbsorbHeader(v, h), h), Claimed(v, h))
  }

  /** A PING or PONG; `stale` tells for which slot an UPDATE goes back to the sender. */
  method ReceivePing(c: Cluster, h: Header, bitmap: seq<bv8>, keysIn: nat -> nat) returns (stale: Option<nat>)
    requires c.Valid() && |bitmap| == BITMAP_BYTES && h.myslots == BitsOf(bitmap)
    modifies c, c.slots, c.importing, c.migrating
    ensures c.Valid() && c.V() == Spec.ProcessPing(old(c.V()), h)
    ensures Leaving(c) == if PingCloses(old(c.V()), h) then map[] else old(Leaving(c))
    ensures PingReplies(old(c.V()), h, false) == UpdateAbout(Claimed(old(c.V()), h), h, stale)
  {
    hide RecordMatches, TableMatches, Nodes, Known, Assigned, BitsOf, AbsorbHeader, UpdateRole, UpdateSlots, HandleCollision,
      DirtySlots, IsFirstStale, StaleClaim, StaleUpdates, UpdateAbout, ApplyClaim, PingCloses;
    stale := None;
    if h.sender !in c.nodes {
      MyNode(c);
      UnknownSender(c.V(), h);
      NoUpdate(c.V(), h);
      return;
    }
    var dirty := ReceiveClaim(c, h, bitmap, keysIn);
    MyNode(c);
    NoUpdate(c.V(), h);
    if dirty && !c.down {
      stale := FindStale(c, h, bitmap);
      StaleReply(c.V(), h, stale);
    }
    if !c.down && c.nodes[c.myself].node.master && c.nodes[h.sender].node.master
       && h.configEpoch == c.nodes[c.myself].node.configEpoch
    {
      c.HandleConfigEpochCollision(h.sender);
    }
  }

  /** Its first part, up to line 1826: epochs, role and claimed slots. */
  method ReceiveClaim(c: Cluster, h: Header, bitmap: seq<bv8>, keysIn: nat -> nat) returns (dirty: bool)
    requires c.Valid() && |bitmap| == BITMAP_BYTES && h.myslots == BitsOf(bitmap) && h.sender in c.nodes
    modifies c, c.slots, c.importing, c.migrating
    ensures c.Valid() && h.sender in c.nodes && c.V() == ApplyClaim(AbsorbHeader(old(c.V()), h), h)
    ensures dirty == DirtySlots(UpdateRole(AbsorbHeader(old(c.V()), h), h), h)
    ensures Leaving(c) == if PingCloses(old(c.V()), h) then map[] else old(Leaving(c))
  {
    hide RecordMatches, TableMatches, Nodes, Known, Assigned, BitsOf, AbsorbHeader, UpdateRole, UpdateSlots, DirtySlots;
    MyNode(c);
    c.Absorb(h);
    MyNode(c);
    c.FollowRole(h);
    MyNode(c);
    dirty := IsDirty(c, h, bitmap);
    if c.nodes[h.sender].node.master && dirty { TakeClaim(c, h.sender, h.configEpoch, bitmap, keysIn); }
    MyNode(c);
  }

  lemma UnknownSender(v: View, h: Header)
    requires Known(v) && h.sender !in v.nodes
    ensures Spec.ProcessPing(v, h) == Claimed(v, h) == v && PingReplies(v, h, false) == {} && !PingCloses(v, h)
  {
  }

  lemma NoUpdate(v: View, h: Header)
    requires Known(v)
    ensures UpdateAbout(v, h, None) == {}
  {
  }

  /** The view in which an UPDATE is about to rebind slots, if it has anything new to say. */
  function Announced(v: View, h: Header, about: Id, epoch: nat): (w: View)
    requires Known(v)
    ensures Known(w) && w.nodes.Keys == v.nodes.Keys
  {
    var a := AbsorbHeader(v, h);
    if h.sender !in a.nodes || about !in a.nodes || epoch <= a.nodes[about].configEpoch then a else
      var b := SetNodeAsMaster(a, about);
      b.(nodes := b.nodes[about := b.nodes[about].(configEpoch := epoch)])
  }

  /** An UPDATE (lines 1953-1974). */
  method ReceiveUpdate(c: Cluster, h: Header, about: Id, epoch: nat, bitmap: seq<bv8>, keysIn: nat -> nat)
    requires c.Valid() && |bitmap| == BITMAP_BYTES
    modifies c, c.slots, c.importing, c.migrating
    ensures c.Valid() && c.V() == Spec.ProcessUpdate(old(c.V()), h, about, epoch, BitsOf(bitmap))
    ensures Leaving(c) == if Demoted(Announced(old(c.V()), h, about, epoch), c.V()) then map[] else old(Leaving(c))
  {
    hide RecordMatches, TableMatches, Nodes, Known, Assigned, BitsOf, AbsorbHeader, SetNodeAsMaster, UpdateSlots;
    c.Absorb(h);
    MyNode(c);
    if h.sender !in c.nodes || about !in c.nodes || c.nodes[about].node.configEpoch >= epoch { return; }
    c.PromoteNode(about);
    MyNode(c);
    c.SetNode(about, c.nodes[about].node.(configEpoch := epoch));
    MyNode(c);
    TakeClaim(c, about, epoch, bitmap, keysIn);
  }

  /** What a request for a vote does (lines 1925-1927). */
  function Requested(v: View, h: Header, clock: Clock): (w: View)
    requires Known(v)
    ensures Known(w)
  {
    var a := AbsorbHeader(v, h);
    if Grants(a, h, clock) then VoteKnown(a, h, clock); RecordVote(a, h, clock) else a
  }

  lemma VoteKnown(v: View, h: Header, clock: Clock)
    requires Known(v) && Grants(v, h, clock)
    ensures Known(RecordVote(v, h, clock))
  {
  }

  /** What a header announces about its sender decides neither about the requester nor about the claimed slots. */
  lemma HeardVotes(a: map<Id, NodeRec>, b: map<Id, NodeRec>, bitmap: seq<bv8>, h: Header, clock: Clock)
    requires b.Keys == a.Keys
    requires forall n :: n in b ==> b[n] == Heard(a[n], if n == h.sender then h.configEpoch else 0)
    ensures Cluster.Deserved(a, h, clock) <==> Cluster.Deserved(b, h, clock)
    ensures forall j: nat :: Cluster.OwnedByNewer(a, bitmap, h.configEpoch, j) <==> Cluster.OwnedByNewer(b, bitmap, h.configEpoch, j)
  {
    hide TestBit;
    assert forall n :: n in a ==> b[n].bitmap == a[n].bitmap;
    assert forall n :: n in a ==> (b[n].node.configEpoch > h.configEpoch <==> a[n].node.configEpoch > h.configEpoch);
  }

  method ReceiveRequest(c: Cluster, h: Header, bitmap: seq<bv8>, clock: Clock) returns (granted: bool)
    requires c.Valid() && |bitmap| == BITMAP_BYTES && h.myslots == BitsOf(bitmap)
    modifies c`currentEpoch, c`nodes, c`lastVoteEpoch
    ensures c.Valid() && c.V() == Requested(old(c.V()), h, clock) && granted == Grants(AbsorbHeader(old(c.V()), h), h, clock)
    ensures granted ==> Cluster.Deserved(old(c.nodes), h, clock)
    ensures forall j: nat :: Cluster.OwnedByNewer(old(c.nodes), bitmap, h.configEpoch, j) ==> !granted
  {
    hide RecordMatches, TableMatches, Nodes, Known, Assigned, BitsOf, AbsorbHeader, RecordVote, Heard;
    hide Cluster.Deserved, Cluster.OwnedByNewer;
    c.Absorb(h);
    HeardVotes(old(c.nodes), c.nodes, bitmap, h, clock);
    MyNode(c);
    if h.sender !in c.nodes { return false; }
    granted := c.SendFailoverAuthIfNeeded(h, bitmap, clock);
  }
}
