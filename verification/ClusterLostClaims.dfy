/**
 Two things that do not hold of slot claims, each on packets and states that nodes can reach: that UPDATEs alone make
 every claim honoured, and that a slave survives every claim.
 */
module ClusterLostClaims {
  import opened Optional
  import opened ClusterView
  import opened ClusterClaims

  // ----- UPDATEs can lose a claim

  /** Node a claims slot 0, node b claims slot 1. */
  function TwoClaims(a: Id, b: Id): Claims { map[a := Claim(1, {0}), b := Claim(2, {1})] }

  /** b reports a's claim, then a reports b's. */
  function CrossedUpdates(a: Id, b: Id): seq<Delivery> {
    [ByUpdate(a, Header(b, 2, 2, None, {1}, false)), ByUpdate(b, Header(a, 2, 1, None, {0}, false))]
  }

  lemma CrossedHeard(a: Id, b: Id, known: set<Id>)
    requires a != b && a in known && b in known
    ensures Deliverable(TwoClaims(a, b), CrossedUpdates(a, b))
    ensures Heard(CrossedUpdates(a, b), known, TwoClaims(a, b)) == {a}
  {
    var ds := CrossedUpdates(a, b);
    assert !Masked(ds[..0], a);
    assert GetsThrough(ds, known, a, 0);
    assert ds[..1][0] == ds[0];
    assert Masked(ds[..1], b);
  }

  /**
   UPDATEs alone can leave a claim out: when a's report of b arrives, b's epoch is already on record from the header
   of b's own report, so b's claim to slot 1 is dropped.
   */
  lemma UpdatesCanLoseAClaim(v: View, a: Id, b: Id)
    requires a != b && Blank(v, TwoClaims(a, b))
    ensures Deliverable(TwoClaims(a, b), CrossedUpdates(a, b))
    ensures ReceiveAll(v, TwoClaims(a, b), CrossedUpdates(a, b)).owner == map[0 := a]
  {
    hide Known, Heard, Masked, ReceiveAll, Deliverable, CrossedUpdates;
    CrossedHeard(a, b, v.nodes.Keys);
    ClaimsConverge(v, TwoClaims(a, b), CrossedUpdates(a, b));
    var owner := ReceiveAll(v, TwoClaims(a, b), CrossedUpdates(a, b)).owner;
    assert 0 in TwoClaims(a, b)[a].slots;
    assert owner.Keys == {0};
  }

  /** What an UPDATE about another node says never overlaps what its header claims, as both come from one table. */
  lemma UpdatesAreDisjoint(w: View, h: Header)
    requires Known(w) && Me(w).master
    ensures forall m :: m in StaleUpdates(w, h) && m.body.about != w.myself ==> m.hdr.myslots !! m.body.slots
  {
  }

  function Master(epoch: nat): Node { Node(epoch, true, None, false, 0) }

  /** A view in which all nodes are masters and no election is under way. */
  function Settled(me: Id, epoch: nat, nodes: map<Id, Node>, owner: map<nat, Id>): (v: View)
    requires me in nodes && forall n :: n in nodes ==> nodes[n].slaveof.None?
    requires forall j :: j in owner ==> owner[j] in nodes && j < CLUSTER_SLOTS
    ensures Known(v)
  {
    View(me, epoch, 0, 3, nodes, owner, map[], 0, 0, false, 0, false, false, false)
  }

  /** What a and b know: slot 0 is a's, slot 1 is b's, and r is at epoch 0. */
  function Holder(me: Id, a: Id, b: Id, r: Id): (v: View)
    requires me == a || me == b
    ensures Known(v)
  {
    Settled(me, 2, map[a := Master(1), b := Master(2), r := Master(0)], map[0 := a, 1 := b])
  }

  /** Node r comes back from a partition: it still holds both slots, at epoch 0, and knows of no later epoch. */
  function Returning(a: Id, b: Id, r: Id): (v: View)
    ensures Known(v)
  {
    Settled(r, 0, map[a := Master(0), b := Master(0), r := Master(0)], map[0 := r, 1 := r])
  }

  /** b's answer to r's PING is an UPDATE about a. */
  lemma ReportOfA(a: Id, b: Id, r: Id)
    requires a != b && a != r && b != r
    ensures Msg(r, CrossedUpdates(a, b)[0].hdr, Update(a, 1, {0})) in
      PingReplies(Holder(b, a, b, r), BuildHeader(Returning(a, b, r)), false)
  {
    var w, h := Holder(b, a, b, r), BuildHeader(Returning(a, b, r));
    assert h == Header(r, 0, 0, None, {0, 1}, false);
    Unmoved(w, h);
    assert SlotsOf(w, a) == {0} && SlotsOf(w, b) == {1};
    assert StaleClaim(w, h, 0) && IsFirstStale(w, h, 0);
  }

  /** a's answer to r's next PING, which claims slot 1 only, is an UPDATE about b. */
  lemma ReportOfB(a: Id, b: Id, r: Id, v: View)
    requires a != b && a != r && b != r && Known(v)
    requires BuildHeader(v) == Header(r, 2, 0, None, {1}, false)
    ensures Msg(r, CrossedUpdates(a, b)[1].hdr, Update(b, 2, {1})) in
      PingReplies(Holder(a, a, b, r), BuildHeader(v), false)
  {
    var w, h := Holder(a, a, b, r), BuildHeader(v);
    Unmoved(w, h);
    assert SlotsOf(w, a) == {0} && SlotsOf(w, b) == {1};
    assert StaleClaim(w, h, 1) && IsFirstStale(w, h, 1);
  }

  /** A claim at epoch 0 of a known master, whose epochs say nothing new, changes nothing and is answered. */
  lemma Unmoved(w: View, h: Header)
    requires Known(w) && h.sender in w.nodes && w.nodes[h.sender].master && h.slaveof.None? && h.configEpoch == 0
    requires h.currentEpoch <= w.currentEpoch && !w.down
    requires SlotsOf(w, h.sender) != h.myslots && (forall j :: j in h.myslots ==> j in w.owner)
    ensures AbsorbHeader(w, h) == w && UpdateRole(w, h) == w && ApplyClaim(w, h) == w && DirtySlots(w, h)
  {
    assert ReboundOwners(w, h.sender, 0, h.myslots) == w.owner;
  }

  /** What r makes of b's report: slot 0 goes to a, and b's epoch is on record. */
  lemma AfterReportOfA(a: Id, b: Id, r: Id)
    requires a != b && a != r && b != r
    ensures ProcessUpdate(Returning(a, b, r), CrossedUpdates(a, b)[0].hdr, a, 1, {0}) == HalfUpdated(a, b, r)
  {
    hide UpdateSlots, Known;
    var v := Returning(a, b, r);
    var u := v.(currentEpoch := 2, nodes := v.nodes[b := Master(2)][a := Master(1)]);
    assert u.nodes == HalfUpdated(a, b, r).nodes;
    ReturningTold(a, b, r, u);
    ServingMaster(u, a, 1, {0}, 1);
  }

  /** What is rebound when r is told of a. */
  lemma ReturningTold(a: Id, b: Id, r: Id, u: View)
    requires a != b && a != r && b != r
    requires u == Settled(r, 2, map[a := Master(1), b := Master(2), r := Master(0)], map[0 := r, 1 := r])
    ensures ReboundOwners(u, a, 1, {0}) == map[0 := a, 1 := r]
  {
  }

  /** A master that still serves slot j after a claim stays a master. */
  lemma ServingMaster(v: View, n: Id, epoch: nat, claimed: set<nat>, j: nat)
    requires Known(v) && Me(v).master && n in v.nodes && n != v.myself
    requires var o := ReboundOwners(v, n, epoch, claimed); j in o && o[j] == v.myself
    ensures UpdateSlots(v, n, epoch, claimed) == v.(owner := ReboundOwners(v, n, epoch, claimed))
  {
    hide ReboundOwners, Known, TookFromMaster;
    assert ServesSlots(v.(owner := ReboundOwners(v, n, epoch, claimed)), v.myself);
  }

  function HalfUpdated(a: Id, b: Id, r: Id): (v: View)
    ensures Known(v)
  {
    Settled(r, 2, map[a := Master(1), b := Master(2), r := Master(0)], map[0 := a, 1 := r])
  }

  /**
   The exchange as it happens: r PINGs b and is told of a, PINGs a and is told of b; the second UPDATE changes nothing
   however often it comes, and slot 1 stays with r at epoch 0 although b claims it at epoch 2.
   */
  lemma ClaimStaysLost(a: Id, b: Id, r: Id)
    requires a != b && a != r && b != r
    ensures var v, u := Returning(a, b, r), HalfUpdated(a, b, r);
      var first, second := CrossedUpdates(a, b)[0].hdr, CrossedUpdates(a, b)[1].hdr;
      && Msg(r, first, Update(a, 1, {0})) in PingReplies(Holder(b, a, b, r), BuildHeader(v), false)
      && ProcessUpdate(v, first, a, 1, {0}) == u
      && Msg(r, second, Update(b, 2, {1})) in PingReplies(Holder(a, a, b, r), BuildHeader(u), false)
      && ProcessUpdate(u, second, b, 2, {1}) == u
      && u.owner[1] == r && u.nodes[r].configEpoch == 0 < 2
  {
    hide PingReplies, ProcessUpdate, BuildHeader, Known, Holder;
    var u := HalfUpdated(a, b, r);
    HalfHeader(a, b, r);
    ReportOfA(a, b, r);
    AfterReportOfA(a, b, r);
    ReportOfB(a, b, r, u);
    Dropped(a, b, r);
  }

  lemma HalfHeader(a: Id, b: Id, r: Id)
    requires a != b && a != r && b != r
    ensures BuildHeader(HalfUpdated(a, b, r)) == Header(r, 2, 0, None, {1}, false)
  {
    assert SlotsOf(HalfUpdated(a, b, r), r) == {1};
  }

  lemma Dropped(a: Id, b: Id, r: Id)
    requires a != b && a != r && b != r
    ensures var u := HalfUpdated(a, b, r); ProcessUpdate(u, CrossedUpdates(a, b)[1].hdr, b, 2, {1}) == u
  {
    var u := HalfUpdated(a, b, r);
    assert u.nodes[a := Master(1)] == u.nodes;
  }

  // ----- A claim can stop the process

  /** An empty master r is told to replicate m while m is still in handshake, and then m is dropped (line 3093). */
  function Orphan(r: Id, m: Id, n: Id): (v: View)
    requires r != m && r != n && m != n
    ensures Known(v)
  {
    RunCommand(RunCommand(Meeting(r, m, n), Replicate(m, true)), Expire(m))
  }

  function Meeting(r: Id, m: Id, n: Id): (v: View)
    ensures Known(v)
  {
    Settled(r, 1, map[r := Master(0), m := Master(0), n := Master(1)], map[])
  }

  lemma OrphanIs(r: Id, m: Id, n: Id)
    requires r != m && r != n && m != n
    ensures Orphan(r, m, n) == Settled(r, 1, map[r := Node(0, false, None, false, 0), n := Master(1)], map[])
  {
    hide RunCommand, Known;
    var v := Meeting(r, m, n);
    var w := BecomeSlaveOf(v, m);
    NowSlave(v, m);
    Expired(w, m);
    assert WithoutNode(w.nodes, m) == map[r := Node(0, false, None, false, 0), n := Master(1)];
  }

  lemma NowSlave(v: View, m: Id)
    requires Known(v) && Me(v).master && v.owner == map[] && m in v.nodes && m != v.myself && v.nodes[m].master
    ensures RunCommand(v, Replicate(m, true)) == BecomeSlaveOf(v, m)
  {
    assert !ServesSlots(v, v.myself);
  }

  lemma Expired(v: View, m: Id)
    requires Known(v) && m in v.nodes && m != v.myself && v.owner == map[] && v.importing == map[]
    ensures RunCommand(v, Expire(m)) == v.(nodes := WithoutNode(v.nodes, m))
  {
    assert SlotsOf(v, m) == {};
  }

  /** That leaves a slave that knows no master; it stops when a slot unassigned here is claimed. */
  lemma OrphanStops(r: Id, m: Id, n: Id, j: nat)
    requires r != m && r != n && m != n && j < CLUSTER_SLOTS
    ensures var v := Orphan(r, m, n); !v.down && n in v.nodes && UpdateSlots(v, n, 1, {j}).down
  {
    hide Orphan;
    OrphanIs(r, m, n);
    UpdateStopsExactly(Orphan(r, m, n), n, 1, {j});
  }

  /** An empty master r becomes a slave of m and is then given slot 1. */
  function ServingSlave(r: Id, m: Id, n: Id): (v: View)
    requires r != m && r != n && m != n
    ensures Known(v)
  {
    RunCommand(RunCommand(EmptyMaster(r, m, n), Replicate(m, true)), AddSlots({1}))
  }

  function EmptyMaster(r: Id, m: Id, n: Id): (v: View)
    ensures Known(v)
  {
    Settled(r, 2, map[r := Master(0), m := Master(1), n := Master(2)], map[0 := m])
  }

  lemma ServingSlaveIs(r: Id, m: Id, n: Id)
    requires r != m && r != n && m != n
    ensures var v := ServingSlave(r, m, n);
      && v.myself == r && v.owner == map[0 := m, 1 := r] && v.importing == map[] && !v.down
      && v.nodes == EmptyMaster(r, m, n).nodes[r := Node(0, false, Some(m), false, 0)]
  {
    var v := EmptyMaster(r, m, n);
    var w := RunCommand(v, Replicate(m, true));
    assert !ServesSlots(v, r);
    assert w == BecomeSlaveOf(v, m);
    var js: set<nat> := {1};
    assert RunCommand(w, AddSlots(js)).owner == w.owner + (map j | j in js :: r) == map[0 := m, 1 := r];
  }

  /** It stops when n claims the last slot of m. */
  lemma ServingSlaveStops(r: Id, m: Id, n: Id)
    requires r != m && r != n && m != n
    ensures var v := ServingSlave(r, m, n); !v.down && n in v.nodes && UpdateSlots(v, n, 2, {0}).down
  {
    hide ServingSlave, RunCommand, UpdateSlots, Known;
    var v := ServingSlave(r, m, n);
    ServingSlaveIs(r, m, n);
    assert Rebinds(v, n, 2, {0}, 0) && OwnerOf(v, 0) == CurrentMaster(v);
    var u := v.(owner := ReboundOwners(v, n, 2, {0}));
    assert u.owner == map[0 := n, 1 := r];
    assert ServesSlots(u, r) by { assert u.owner[1] == r; }
    UpdateStopsExactly(v, n, 2, {0});
  }
}
