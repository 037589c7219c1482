/**
 Runs in which things happen, each through packets, commands and cron ticks as a node gets them: a slot lost to a claim
 and won back by a failover, a vote granted, an import closed.
 */
module ClusterScenarios {
  import opened Optional
  import opened ClusterView
  import Spec = ClusterView
  import opened ClusterBitmap
  import opened ClusterState
  import opened ClusterPackets
  import opened ClusterRuns

  lemma {:induction false} AfterMore(t: Tables, first: seq<Op>, rest: seq<Op>)
    requires Known(t.view)
    ensures After(t, first + rest) == After(After(t, first), rest)
    decreases |rest|
  {
    hide Apply, Known;
    if rest == [] {
      assert first + rest == first;
    } else {
      var init := rest[..|rest| - 1];
      AfterMore(t, first, init);
      assert (first + rest)[..|first + rest| - 1] == first + init;
    }
  }

  lemma AfterOne(t: Tables, x: Op)
    requires Known(t.view)
    ensures After(t, [x]) == Apply(t, x)
  {
    hide Apply, Known;
    assert [x][..0] == [];
  }

  lemma AfterTwo(t: Tables, x: Op, y: Op)
    requires Known(t.view)
    ensures After(t, [x, y]) == Apply(Apply(t, x), y)
  {
    hide Apply, Known, After;
    AfterOne(t, x);
    AfterOne(Apply(t, x), y);
    AfterMore(t, [x], [y]);
    assert [x] + [y] == [x, y];
  }

  lemma AfterThree(t: Tables, x: Op, y: Op, z: Op)
    requires Known(t.view)
    ensures After(t, [x, y, z]) == Apply(Apply(Apply(t, x), y), z)
  {
    hide Apply, Known, After;
    AfterTwo(t, x, y);
    AfterOne(Apply(Apply(t, x), y), z);
    AfterMore(t, [x, y], [z]);
    assert [x, y] + [z] == [x, y, z];
  }

  lemma AfterFour(t: Tables, a: Op, b: Op, c: Op, d: Op)
    requires Known(t.view)
    ensures After(t, [a, b, c, d]) == Apply(Apply(Apply(Apply(t, a), b), c), d)
  {
    hide Apply, Known, After;
    AfterTwo(t, a, b);
    AfterTwo(Apply(Apply(t, a), b), c, d);
    AfterMore(t, [a, b], [c, d]);
    assert [a, b] + [c, d] == [a, b, c, d];
  }

  /** The bitmap of slot j alone. */
  function OnlySlot(j: nat): (b: seq<bv8>)
    requires j < CLUSTER_SLOTS
    ensures |b| == BITMAP_BYTES
  {
    SetBit(seq(BITMAP_BYTES, _ => 0), j)
  }

  lemma OnlySlotIs(j: nat)
    requires j < CLUSTER_SLOTS
    ensures BitsOf(OnlySlot(j)) == {j}
  {
    hide SetBit, TestBit;
    var zero := seq(BITMAP_BYTES, _ => 0 as bv8);
    forall q: nat | q < CLUSTER_SLOTS
      ensures TestBit(OnlySlot(j), q) <==> q == j
    {
      OneBitChanges(zero, j, q);
      NoBitSet(zero, q);
    }
  }

  lemma NoBitSet(zero: seq<bv8>, q: nat)
    requires q / 8 < |zero| && zero[q / 8] == 0
    ensures !TestBit(zero, q)
  {
  }

  function Master(epoch: nat): Node { Node(epoch, true, None, false, 0) }

  /** A node and one other, just after initialisation but for what is given. */
  function Pair(id: Id, sent: bool, n: Id, epoch: nat, me: Node, other: Node, owner: map<nat, Id>): View {
    Created(id, sent).(currentEpoch := epoch, nodes := map[id := me, n := other], owner := owner)
  }

  /** A PING in three steps: the header is absorbed, the role followed, the claim taken; and no epochs collide. */
  lemma PingSteps(v: View, h: Header, a: View, b: View, w: View)
    requires Known(v) && h.sender in v.nodes && a == AbsorbHeader(v, h) && b == UpdateRole(a, h)
    requires w == if b.nodes[h.sender].master && DirtySlots(b, h) then UpdateSlots(b, h.sender, h.configEpoch, h.myslots) else b
    requires Me(w).master ==> h.configEpoch != Me(w).configEpoch
    ensures Spec.ProcessPing(v, h) == w && (PingCloses(v, h) <==> Demoted(b, w))
  {
    hide AbsorbHeader, UpdateRole, UpdateSlots, DirtySlots, Known, HandleCollision;
  }

  // ----- A slot lost and won back

  /** The node meets n, serves slot j, is about to migrate it to n, and hears n claim it at epoch 1. */
  function Losing(id: Id, n: Id, j: nat, keysIn: nat -> nat): seq<Op>
    requires j < CLUSTER_SLOTS
  {
    [Meet(n, true), Give(id, j), BeginMigrate(j, n), GetPing(Header(n, 1, 1, None, {}, false), OnlySlot(j), keysIn)]
  }

  /** Then n serves the slot, the node is its slave, and nothing is migrating any more. */
  function Lost(id: Id, sent: bool, n: Id, j: nat): Tables {
    Tables(Pair(id, sent, n, 1, Node(0, false, Some(n), false, 0), Master(1), map[j := n]), map[])
  }

  lemma Migrates(id: Id, sent: bool, n: Id, j: nat)
    requires id != n && j < CLUSTER_SLOTS
    ensures Apply(Apply(Apply(Start(id, sent), Meet(n, true)), Give(id, j)), BeginMigrate(j, n)) ==
      Tables(Pair(id, sent, n, 0, Master(0), Master(0), map[j := id]), map[j := n])
  {
    var v := Created(id, sent);
    var met := Apply(Start(id, sent), Meet(n, true));
    assert v.nodes[n := Master(0)] == map[id := Master(0), n := Master(0)];
    assert met == Tables(Pair(id, sent, n, 0, Master(0), Master(0), map[]), map[]);
    assert Apply(met, Give(id, j)) == Tables(Pair(id, sent, n, 0, Master(0), Master(0), map[j := id]), map[]);
  }

  lemma Claimed(id: Id, sent: bool, n: Id, j: nat)
    requires id != n && j < CLUSTER_SLOTS
    ensures var v := Pair(id, sent, n, 0, Master(0), Master(0), map[j := id]); var h := Header(n, 1, 1, None, {j}, false);
      Known(v) && Spec.ProcessPing(v, h) == Lost(id, sent, n, j).view && PingCloses(v, h)
  {
    hide UpdateSlots, Spec.ProcessPing, PingCloses;
    var v, h := Pair(id, sent, n, 0, Master(0), Master(0), map[j := id]), Header(n, 1, 1, None, {j}, false);
    var a := Pair(id, sent, n, 1, Master(0), Master(1), map[j := id]);
    assert v.nodes[n := Master(1)] == a.nodes;
    assert AbsorbHeader(v, h) == a && UpdateRole(a, h) == a;
    assert SlotsOf(a, n) == {};
    Taken(id, sent, n, j);
    PingSteps(v, h, a, a, Lost(id, sent, n, j).view);
  }

  lemma Taken(id: Id, sent: bool, n: Id, j: nat)
    requires id != n && j < CLUSTER_SLOTS
    ensures var a := Pair(id, sent, n, 1, Master(0), Master(1), map[j := id]);
      Known(a) && UpdateSlots(a, n, 1, {j}) == Lost(id, sent, n, j).view
  {
    hide UpdateSlots;
    var a := Pair(id, sent, n, 1, Master(0), Master(1), map[j := id]);
    assert Rebinds(a, n, 1, {j}, j) && ReboundOwners(a, n, 1, {j}) == map[j := n];
    LosesAll(a, n, 1, {j}, j);
    assert a.nodes[id := Node(0, false, Some(n), false, 0)] == Lost(id, sent, n, j).view.nodes;
  }

  /** A master that loses its last slots to a claim becomes a slave of the claimant. */
  lemma LosesAll(v: View, n: Id, epoch: nat, claimed: set<nat>, j: nat)
    requires Known(v) && Me(v).master && n in v.nodes && n != v.myself
    requires Rebinds(v, n, epoch, claimed, j) && OwnerOf(v, j) == Some(v.myself)
    requires forall k :: k in ReboundOwners(v, n, epoch, claimed) ==> ReboundOwners(v, n, epoch, claimed)[k] == n
    ensures Known(v.(owner := ReboundOwners(v, n, epoch, claimed)))
    ensures UpdateSlots(v, n, epoch, claimed) == BecomeSlaveOf(v.(owner := ReboundOwners(v, n, epoch, claimed)), n)
  {
    hide Rebinds, ReboundOwners, Spec.BecomeSlaveOf;
    ClaimedInRange(v, n, epoch, claimed);
  }

  lemma ClaimedInRange(v: View, n: Id, epoch: nat, claimed: set<nat>)
    requires Known(v)
    ensures forall k :: k in ReboundOwners(v, n, epoch, claimed) ==> k < CLUSTER_SLOTS
    ensures forall k: nat :: Rebinds(v, n, epoch, claimed, k) ==> k in claimed
  {
  }

  lemma OtherTakesOver(id: Id, sent: bool, n: Id, j: nat, keysIn: nat -> nat)
    requires id != n && j < CLUSTER_SLOTS
    ensures After(Start(id, sent), Losing(id, n, j, keysIn)) == Lost(id, sent, n, j)
  {
    hide Spec.ProcessPing, OnlySlot, BitsOf, PingCloses;
    var ops := Losing(id, n, j, keysIn);
    AfterFour(Start(id, sent), ops[0], ops[1], ops[2], ops[3]);
    OnlySlotIs(j);
    Migrates(id, sent, n, j);
    Claimed(id, sent, n, j);
  }

  const AT := Clock(5000, 0, true, 0, 0)

  /** Then a manual failover: an election is scheduled and held, the master itself votes, and the node wins. */
  function Winning(n: Id): seq<Op> {
    [CountMasters, SetFailover(true, true), Tick(AT), Tick(AT)] + [GetAck(Header(n, 2, 1, None, {}, false)), Tick(AT)]
  }

  function Won(id: Id, n: Id, j: nat): Tables {
    Tables(Pair(id, true, n, 2, Master(2), Master(1), map[j := id]).(authEpoch := 2, authCount := 1, authTime := 5000), map[])
  }

  function Asking(id: Id, n: Id, j: nat, count: nat): Tables {
    Tables(Pair(id, true, n, 2, Node(0, false, Some(n), false, 0), Master(1), map[j := n])
           .(authEpoch := 2, authCount := count, authTime := 5000, manualEnd := true, manualCanStart := true), map[])
  }

  lemma OneMaster(id: Id, sent: bool, n: Id, j: nat)
    requires id != n && j < CLUSTER_SLOTS
    ensures var v := Lost(id, sent, n, j).view; Known(v) && MastersBut(v, {}) == {n}
  {
    var v := Lost(id, sent, n, j).view;
    assert v.owner[j] == n;
    assert ServesSlots(v, n);
  }

  lemma Scheduled(id: Id, sent: bool, n: Id, j: nat)
    requires id != n && j < CLUSTER_SLOTS
    ensures var t := Lost(id, sent, n, j);
      Known(t.view) && Apply(Apply(t, CountMasters), SetFailover(true, true)) ==
        Tables(t.view.(manualEnd := true, manualCanStart := true), map[])
  {
    hide RunCommand, MastersBut, Known;
    var v := Lost(id, sent, n, j).view;
    OneMaster(id, sent, n, j);
    AllCounted(v);
    ManualSet(v);
  }

  lemma ManualSet(v: View)
    requires Known(v)
    ensures RunCommand(v, Manual(true, true)) == v.(manualEnd := true, manualCanStart := true)
  {
  }

  lemma Asked(id: Id, sent: bool, n: Id, j: nat)
    requires id != n && j < CLUSTER_SLOTS
    ensures var v := Lost(id, sent, n, j).view.(manualEnd := true, manualCanStart := true);
      Known(v) && Apply(Apply(Tables(v, map[]), Tick(AT)), Tick(AT)) == Asking(id, n, j, 0)
  {
    var v := Lost(id, sent, n, j).view.(manualEnd := true, manualCanStart := true);
    assert v.owner[j] == n;
    assert FailoverBranch(v, AT).Reset?;
    var w := HandleFailover(v, AT);
    assert w.owner[j] == n;
    assert FailoverBranch(w, AT).Ask?;
  }

  lemma VotedFor(id: Id, n: Id, j: nat)
    requires id != n && j < CLUSTER_SLOTS
    ensures var t := Asking(id, n, j, 0);
      Known(t.view) && Apply(t, GetAck(Header(n, 2, 1, None, {}, false))) == Asking(id, n, j, 1)
  {
    var v, h := Asking(id, n, j, 0).view, Header(n, 2, 1, None, {}, false);
    assert v.nodes[n := Master(1)] == v.nodes;
    assert AbsorbHeader(v, h) == v;
    assert v.owner[j] == n;
    assert ServesSlots(v, n);
  }

  lemma Wins(id: Id, n: Id, j: nat)
    requires id != n && j < CLUSTER_SLOTS
    ensures var t := Asking(id, n, j, 1); Known(t.view) && Apply(t, Tick(AT)) == Won(id, n, j)
  {
    hide ReplaceMaster, RaiseConfigEpoch;
    var v := Asking(id, n, j, 1).view;
    assert v.owner[j] == n;
    assert FailoverBranch(v, AT).Win?;
    Replaces(id, n, j);
  }

  lemma Replaces(id: Id, n: Id, j: nat)
    requires id != n && j < CLUSTER_SLOTS
    ensures var v := Asking(id, n, j, 1).view;
      && Known(v) && Known(RaiseConfigEpoch(v)) && ReplaceMaster(RaiseConfigEpoch(v)) == Won(id, n, j).view
  {
    var v := Asking(id, n, j, 1).view;
    var w := RaiseConfigEpoch(v);
    assert w.nodes == map[id := Node(2, false, Some(n), false, 0), n := Master(1)];
    assert ReplaceMaster(w).owner == map[j := id];
    assert ReplaceMaster(w).nodes == map[id := Master(2), n := Master(1)];
  }

  /** From initialisation, whatever failover_auth_sent was: the slot is lost to n and won back by a failover. */
  lemma FailoverTakesBack(id: Id, sent: bool, n: Id, j: nat, keysIn: nat -> nat)
    requires id != n && j < CLUSTER_SLOTS
    ensures var w := After(Start(id, sent), Losing(id, n, j, keysIn) + Winning(n)).view;
      w.owner == map[j := id] && w.nodes == map[id := Master(2), n := Master(1)] && !w.down
  {
    hide Apply, Losing, Lost, Known;
    var t := Lost(id, sent, n, j);
    OtherTakesOver(id, sent, n, j, keysIn);
    Scheduled(id, sent, n, j);
    Asked(id, sent, n, j);
    VotedFor(id, n, j);
    Wins(id, n, j);
    var first := [CountMasters, SetFailover(true, true), Tick(AT), Tick(AT)];
    var h := Header(n, 2, 1, None, {}, false);
    AfterFour(t, CountMasters, SetFailover(true, true), Tick(AT), Tick(AT));
    AfterTwo(Asking(id, n, j, 0), GetAck(h), Tick(AT));
    AfterMore(t, first, [GetAck(h), Tick(AT)]);
    AfterMore(Start(id, sent), Losing(id, n, j, keysIn), Winning(n));
  }

  // ----- A vote granted

  /** The node and two others, just after initialisation but for what is given. */
  function Trio(id: Id, sent: bool, m: Id, s: Id, epoch: nat, them: Node, slave: Node, owner: map<nat, Id>): View {
    Created(id, sent).(currentEpoch := epoch, nodes := map[id := Master(0), m := them, s := slave], owner := owner)
  }

  /** The node serves slot i, and m claims slot k at epoch 1. */
  function Serving(id: Id, m: Id, s: Id, i: nat, k: nat, keysIn: nat -> nat): seq<Op>
    requires i < CLUSTER_SLOTS && k < CLUSTER_SLOTS
  {
    [Meet(m, true), Meet(s, true), Give(id, i), GetPing(Header(m, 1, 1, None, {}, false), OnlySlot(k), keysIn)]
  }

  /** Node s announces itself as a slave of m, m fails, and s asks for a vote. */
  function Voting(m: Id, s: Id, k: nat, keysIn: nat -> nat): seq<Op>
    requires k < CLUSTER_SLOTS
  {
    [GetPing(Header(s, 1, 1, Some(m), {}, false), OnlySlot(k), keysIn), Mark(m, true),
     GetRequest(Header(s, 2, 1, Some(m), {}, false), OnlySlot(k), AT)]
  }

  predicate Apart(id: Id, m: Id, s: Id, i: nat, k: nat) {
    id != m && id != s && m != s && i != k && i < CLUSTER_SLOTS && k < CLUSTER_SLOTS
  }

  lemma MeetsTwo(id: Id, sent: bool, m: Id, s: Id, i: nat, k: nat)
    requires Apart(id, m, s, i, k)
    ensures Apply(Apply(Apply(Start(id, sent), Meet(m, true)), Meet(s, true)), Give(id, i)) ==
      Tables(Trio(id, sent, m, s, 0, Master(0), Master(0), map[i := id]), map[])
  {
    var v := Created(id, sent);
    var x := Apply(Start(id, sent), Meet(m, true));
    assert x == Tables(v.(nodes := v.nodes[m := Master(0)]), map[]);
    var y := Apply(x, Meet(s, true));
    assert v.nodes[m := Master(0)][s := Master(0)] == map[id := Master(0), m := Master(0), s := Master(0)];
    assert y == Tables(Trio(id, sent, m, s, 0, Master(0), Master(0), map[]), map[]);
  }

  lemma MasterClaims(id: Id, sent: bool, m: Id, s: Id, i: nat, k: nat)
    requires Apart(id, m, s, i, k)
    ensures var v, h := Trio(id, sent, m, s, 0, Master(0), Master(0), map[i := id]), Header(m, 1, 1, None, {k}, false);
      && Known(v) && Spec.ProcessPing(v, h) == Trio(id, sent, m, s, 1, Master(1), Master(0), map[i := id, k := m])
      && !PingCloses(v, h)
  {
    hide UpdateSlots, Spec.ProcessPing, PingCloses;
    var v, h := Trio(id, sent, m, s, 0, Master(0), Master(0), map[i := id]), Header(m, 1, 1, None, {k}, false);
    var a := Trio(id, sent, m, s, 1, Master(1), Master(0), map[i := id]);
    assert v.nodes[m := Master(1)] == a.nodes;
    assert AbsorbHeader(v, h) == a && UpdateRole(a, h) == a;
    assert SlotsOf(a, m) == {};
    FreeSlotTaken(id, sent, m, s, i, k);
    PingSteps(v, h, a, a, Trio(id, sent, m, s, 1, Master(1), Master(0), map[i := id, k := m]));
  }

  lemma FreeSlotTaken(id: Id, sent: bool, m: Id, s: Id, i: nat, k: nat)
    requires Apart(id, m, s, i, k)
    ensures var a := Trio(id, sent, m, s, 1, Master(1), Master(0), map[i := id]);
      Known(a) && UpdateSlots(a, m, 1, {k}) == Trio(id, sent, m, s, 1, Master(1), Master(0), map[i := id, k := m])
  {
    var a := Trio(id, sent, m, s, 1, Master(1), Master(0), map[i := id]);
    assert ReboundOwners(a, m, 1, {k}) == map[i := id, k := m];
    assert !TookFromMaster(a, m, 1, {k});
  }

  lemma SlaveAnnounced(id: Id, sent: bool, m: Id, s: Id, i: nat, k: nat)
    requires Apart(id, m, s, i, k)
    ensures var v := Trio(id, sent, m, s, 1, Master(1), Master(0), map[i := id, k := m]);
      var h := Header(s, 1, 1, Some(m), {k}, false);
      && Known(v) && !PingCloses(v, h)
      && Spec.ProcessPing(v, h) ==
         Trio(id, sent, m, s, 1, Master(1), Node(1, false, Some(m), false, 0), map[i := id, k := m])
  {
    hide UpdateSlots, Spec.ProcessPing, PingCloses, UpdateRole;
    var v := Trio(id, sent, m, s, 1, Master(1), Master(0), map[i := id, k := m]);
    var h := Header(s, 1, 1, Some(m), {k}, false);
    var a := Trio(id, sent, m, s, 1, Master(1), Master(1), map[i := id, k := m]);
    var b := Trio(id, sent, m, s, 1, Master(1), Node(1, false, Some(m), false, 0), map[i := id, k := m]);
    assert v.nodes[s := Master(1)] == a.nodes;
    assert AbsorbHeader(v, h) == a;
    RoleFollows(id, sent, m, s, i, k);
    PingSteps(v, h, a, b, b);
  }

  lemma RoleFollows(id: Id, sent: bool, m: Id, s: Id, i: nat, k: nat)
    requires Apart(id, m, s, i, k)
    ensures var a := Trio(id, sent, m, s, 1, Master(1), Master(1), map[i := id, k := m]);
      UpdateRole(a, Header(s, 1, 1, Some(m), {k}, false)) ==
        Trio(id, sent, m, s, 1, Master(1), Node(1, false, Some(m), false, 0), map[i := id, k := m])
  {
    var a := Trio(id, sent, m, s, 1, Master(1), Master(1), map[i := id, k := m]);
    hide Demote;
    NothingToLose(a, s);
    assert a.nodes[s := Node(1, false, None, false, 0)][s := Node(1, false, Some(m), false, 0)] ==
      map[id := Master(0), m := Master(1), s := Node(1, false, Some(m), false, 0)];
  }

  lemma NothingToLose(v: View, s: Id)
    requires s in v.nodes && v.nodes[s].master && forall j :: j in v.owner ==> v.owner[j] != s
    ensures Demote(v, s) == v.(nodes := v.nodes[s := v.nodes[s].(master := false)])
  {
    assert SlotsOf(v.(nodes := v.nodes[s := v.nodes[s].(master := false)]), s) == {};
  }

  lemma VoteGiven(id: Id, sent: bool, m: Id, s: Id, i: nat, k: nat)
    requires Apart(id, m, s, i, k)
    ensures var slave := Node(1, false, Some(m), false, 0);
      var v := Trio(id, sent, m, s, 1, Node(1, true, None, true, 0), slave, map[i := id, k := m]);
      && Known(v)
      && Requested(v, Header(s, 2, 1, Some(m), {k}, false), AT) ==
         Trio(id, sent, m, s, 2, Node(1, true, None, true, 5000), slave, map[i := id, k := m]).(lastVoteEpoch := 2)
  {
    var slave := Node(1, false, Some(m), false, 0);
    var v := Trio(id, sent, m, s, 1, Node(1, true, None, true, 0), slave, map[i := id, k := m]);
    var h := Header(s, 2, 1, Some(m), {k}, false);
    var a := v.(currentEpoch := 2);
    assert v.nodes[s := slave] == v.nodes;
    assert AbsorbHeader(v, h) == a;
    assert ServesSlots(a, id) by { assert a.owner[i] == id; }
    assert Grants(a, h, AT);
    assert a.nodes[m := Node(1, true, None, true, 5000)] ==
      map[id := Master(0), m := Node(1, true, None, true, 5000), s := slave];
  }

  /** From initialisation: the vote is granted at the epoch of the request, and recorded. */
  lemma VoteIsGranted(id: Id, sent: bool, m: Id, s: Id, i: nat, k: nat, keysIn: nat -> nat)
    requires Apart(id, m, s, i, k)
    ensures var w := After(Start(id, sent), Serving(id, m, s, i, k, keysIn) + Voting(m, s, k, keysIn)).view;
      w.lastVoteEpoch == w.currentEpoch == 2 && w.owner == map[i := id, k := m] && !w.down
  {
    hide After, Serving, Voting, Known;
    Served(id, sent, m, s, i, k, keysIn);
    Voted(id, sent, m, s, i, k, keysIn);
    AfterMore(Start(id, sent), Serving(id, m, s, i, k, keysIn), Voting(m, s, k, keysIn));
  }

  lemma Served(id: Id, sent: bool, m: Id, s: Id, i: nat, k: nat, keysIn: nat -> nat)
    requires Apart(id, m, s, i, k)
    ensures After(Start(id, sent), Serving(id, m, s, i, k, keysIn)) ==
      Tables(Trio(id, sent, m, s, 1, Master(1), Master(0), map[i := id, k := m]), map[])
  {
    hide Spec.ProcessPing, OnlySlot, BitsOf, PingCloses, Known;
    var ops := Serving(id, m, s, i, k, keysIn);
    OnlySlotIs(k);
    AfterFour(Start(id, sent), ops[0], ops[1], ops[2], ops[3]);
    MeetsTwo(id, sent, m, s, i, k);
    MasterClaims(id, sent, m, s, i, k);
  }

  lemma Voted(id: Id, sent: bool, m: Id, s: Id, i: nat, k: nat, keysIn: nat -> nat)
    requires Apart(id, m, s, i, k)
    ensures var v := Trio(id, sent, m, s, 1, Master(1), Master(0), map[i := id, k := m]);
      Known(v) && var w := After(Tables(v, map[]), Voting(m, s, k, keysIn)).view;
      w.lastVoteEpoch == w.currentEpoch == 2 && w.owner == v.owner && !w.down
  {
    hide OnlySlot, Apply, After, Known;
    var v := Trio(id, sent, m, s, 1, Master(1), Master(0), map[i := id, k := m]);
    var ops := Voting(m, s, k, keysIn);
    SlaveHeard(id, sent, m, s, i, k, keysIn);
    RequestHeard(id, sent, m, s, i, k);
    AfterThree(Tables(v, map[]), ops[0], ops[1], ops[2]);
  }

  lemma RequestHeard(id: Id, sent: bool, m: Id, s: Id, i: nat, k: nat)
    requires Apart(id, m, s, i, k)
    ensures var slave, owner := Node(1, false, Some(m), false, 0), map[i := id, k := m];
      var t := Tables(Trio(id, sent, m, s, 1, Master(1), slave, owner), map[]);
      && Known(t.view)
      && Apply(Apply(t, Mark(m, true)), GetRequest(Header(s, 2, 1, Some(m), {}, false), OnlySlot(k), AT)) ==
         Tables(Trio(id, sent, m, s, 2, Node(1, true, None, true, 5000), slave, owner).(lastVoteEpoch := 2), map[])
  {
    hide OnlySlot, BitsOf, Requested, RunCommand, Known;
    OnlySlotIs(k);
    MasterFails(id, sent, m, s, i, k);
    VoteGiven(id, sent, m, s, i, k);
  }

  lemma SlaveHeard(id: Id, sent: bool, m: Id, s: Id, i: nat, k: nat, keysIn: nat -> nat)
    requires Apart(id, m, s, i, k)
    ensures var v := Trio(id, sent, m, s, 1, Master(1), Master(0), map[i := id, k := m]);
      && Known(v)
      && Apply(Tables(v, map[]), GetPing(Header(s, 1, 1, Some(m), {}, false), OnlySlot(k), keysIn)) ==
         Tables(Trio(id, sent, m, s, 1, Master(1), Node(1, false, Some(m), false, 0), map[i := id, k := m]), map[])
  {
    hide Spec.ProcessPing, OnlySlot, BitsOf, PingCloses, Known;
    OnlySlotIs(k);
    SlaveAnnounced(id, sent, m, s, i, k);
  }

  lemma MasterFails(id: Id, sent: bool, m: Id, s: Id, i: nat, k: nat)
    requires Apart(id, m, s, i, k)
    ensures var slave := Node(1, false, Some(m), false, 0);
      var v := Trio(id, sent, m, s, 1, Master(1), slave, map[i := id, k := m]);
      && Known(v)
      && RunCommand(v, MarkFailed(m, true)) ==
         Trio(id, sent, m, s, 1, Node(1, true, None, true, 0), slave, map[i := id, k := m])
  {
    var slave := Node(1, false, Some(m), false, 0);
    var v := Trio(id, sent, m, s, 1, Master(1), slave, map[i := id, k := m]);
    assert v.nodes[m := Node(1, true, None, true, 0)] == map[id := Master(0), m := Node(1, true, None, true, 0), s := slave];
  }

  // ----- An import closed

  /** The node imports slot j from n. */
  function Importing(id: Id, sent: bool, n: Id, j: nat): Tables {
    Tables(Pair(id, sent, n, 0, Master(0), Master(0), map[j := n]).(importing := map[j := n]), map[])
  }

  lemma ImportBegins(id: Id, sent: bool, n: Id, j: nat)
    requires id != n && j < CLUSTER_SLOTS
    ensures Apply(Apply(Apply(Start(id, sent), Meet(n, true)), Give(n, j)), BeginImport(j, n)) == Importing(id, sent, n, j)
  {
    var x := Apply(Start(id, sent), Meet(n, true));
    assert Created(id, sent).nodes[n := Master(0)] == map[id := Master(0), n := Master(0)];
    assert x == Tables(Pair(id, sent, n, 0, Master(0), Master(0), map[]), map[]);
    var y := Apply(x, Give(n, j));
    assert y == Tables(Pair(id, sent, n, 0, Master(0), Master(0), map[j := n]), map[]);
  }

  lemma ImportEnds(id: Id, sent: bool, n: Id, j: nat)
    requires id != n && j < CLUSTER_SLOTS
    ensures var v := Importing(id, sent, n, j).view;
      Known(v) && var w := Spec.SetSlotNode(v, j, id, 0);
      w.importing == map[] && w.owner == map[j := id] && w.nodes[id].configEpoch == w.currentEpoch == 1
  {
  }

  /** SETSLOT NODE ends the import, takes the slot and a new epoch. */
  lemma ImportIsClosed(id: Id, sent: bool, n: Id, j: nat)
    requires id != n && j < CLUSTER_SLOTS
    ensures After(Start(id, sent), [Meet(n, true), Give(n, j), BeginImport(j, n)]) == Importing(id, sent, n, j)
    ensures var w := After(Start(id, sent), [Meet(n, true), Give(n, j), BeginImport(j, n), Assign(j, id, 0)]).view;
      w.importing == map[] && w.owner == map[j := id] && w.nodes[id].configEpoch == w.currentEpoch == 1
  {
    hide After, Spec.SetSlotNode, RunCommand, Known;
    AfterThree(Start(id, sent), Meet(n, true), Give(n, j), BeginImport(j, n));
    AfterFour(Start(id, sent), Meet(n, true), Give(n, j), BeginImport(j, n), Assign(j, id, 0));
    ImportBegins(id, sent, n, j);
    ImportEnds(id, sent, n, j);
  }
}
