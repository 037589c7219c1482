/**
 How slot claims spread: what a node's table looks like after any sequence of PING, PONG and UPDATE
 packets that carry one fixed claim per master.
 */
module ClusterClaims {
  import opened Optional
  import opened ClusterView

  datatype Claim = Claim(epoch: nat, slots: set<nat>)

  type Claims = map<Id, Claim>

  /** A claim arrives from the claimant itself, or in an UPDATE about it that another header carries. */
  datatype Delivery =
    | ByPing(node: Id, hdr: Header)
    | ByUpdate(node: Id, hdr: Header)

  /** The packet is what the claims say: a claimant always announces its own epoch and slots. */
  predicate Carries(cs: Claims, d: Delivery) {
    && d.node in cs
    && (d.hdr.sender in cs ==> d.hdr.configEpoch == cs[d.hdr.sender].epoch)
    && (d.ByPing? ==> d.hdr.sender == d.node && d.hdr.slaveof.None? && d.hdr.myslots == cs[d.node].slots)
  }

  function Receive(v: View, cs: Claims, d: Delivery): (w: View)
    requires Known(v) && d.node in cs
    ensures Known(w) && w.nodes.Keys == v.nodes.Keys
  {
    if d.ByPing? then ProcessPing(v, d.hdr)
    else ProcessUpdate(v, d.hdr, d.node, cs[d.node].epoch, cs[d.node].slots)
  }

  predicate TakesEffect(v: View, cs: Claims, d: Delivery)
    requires d.node in cs
  {
    d.ByPing? ||
    (d.hdr.sender in v.nodes && d.node in v.nodes && AbsorbHeader(v, d.hdr).nodes[d.node].configEpoch < cs[d.node].epoch)
  }

  // ----- The table is always the best of the claims acted on

  /** owner maps every claimed slot to a claimant of it with the highest epoch, and nothing else. */
  ghost predicate BestOf(owner: map<nat, Id>, cs: Claims, applied: set<Id>) {
    && applied <= cs.Keys
    && (forall j :: j in owner ==> owner[j] in applied && j in cs[owner[j]].slots)
    && (forall n, j :: n in applied && j in cs[n].slots ==> j in owner && cs[n].epoch <= cs[owner[j]].epoch)
  }

  predicate ClaimsOk(v: View, cs: Claims) {
    && cs.Keys <= v.nodes.Keys && v.myself !in cs
    && (forall n, j :: n in cs && j in cs[n].slots ==> j < CLUSTER_SLOTS)
  }

  /** What the deliveries keep: the receiver is up, imports nothing and, if a slave, knows its master. */
  ghost predicate TableInv(v: View, cs: Claims, applied: set<Id>) {
    && Known(v) && !v.down && v.importing == map[] && CurrentMaster(v).Some?
    && ClaimsOk(v, cs) && BestOf(v.owner, cs, applied)
    && (forall n :: n in cs ==> v.nodes[n].configEpoch <= cs[n].epoch)
    && (forall n :: n in applied ==> v.nodes[n].configEpoch == cs[n].epoch)
  }

  /** Rebinding a claim adds it to the claims the table is best of. */
  lemma RebindIsBest(v: View, cs: Claims, applied: set<Id>, n: Id)
    requires ClaimsOk(v, cs) && BestOf(v.owner, cs, applied) && v.importing == map[] && n in cs
    requires forall k :: k in applied ==> v.nodes[k].configEpoch == cs[k].epoch
    ensures BestOf(ReboundOwners(v, n, cs[n].epoch, cs[n].slots), cs, applied + {n})
  {
    var o := ReboundOwners(v, n, cs[n].epoch, cs[n].slots);
    forall k, j | k in applied + {n} && j in cs[k].slots
      ensures j in o && cs[k].epoch <= cs[o[j]].epoch
    {
      assert Rebinds(v, n, cs[n].epoch, cs[n].slots, j) || j in v.owner;
    }
  }

  /** Skipping a claim whose bitmap already matches loses nothing. */
  lemma SkipIsSound(v: View, cs: Claims, applied: set<Id>, n: Id)
    requires BestOf(v.owner, cs, applied) && n in cs && SlotsOf(v, n) == cs[n].slots
    ensures BestOf(v.owner, cs, applied + {n})
  {
    forall j | j in cs[n].slots
      ensures j in v.owner && v.owner[j] == n
    {
      assert j in SlotsOf(v, n);
    }
  }

  /**
   When a claim stops the process: on a slave without a known master when it claims a slot that is unassigned here
   and not being imported, and on a slave that serves slots itself when it takes the last ones of its master.
   */
  lemma UpdateStopsExactly(v: View, n: Id, epoch: nat, claimed: set<nat>)
    requires Known(v) && !v.down && n in v.nodes && n != v.myself
    ensures var u := v.(owner := ReboundOwners(v, n, epoch, claimed)); var m := Me(v).slaveof;
      UpdateSlots(v, n, epoch, claimed).down <==>
        && !Me(v).master
        && if m.None? then exists j :: j in claimed && j < CLUSTER_SLOTS && j !in v.owner && j !in v.importing
           else TookFromMaster(v, n, epoch, claimed) && !ServesSlots(u, m.value) && ServesSlots(u, v.myself)
  {
    if !Me(v).master && Me(v).slaveof.None? {
      assert forall j :: j in claimed && j < CLUSTER_SLOTS && j !in v.owner && j !in v.importing ==>
          Rebinds(v, n, epoch, claimed, j) && OwnerOf(v, j) == CurrentMaster(v);
    }
  }

  lemma UpdateSlotsTable(v: View, cs: Claims, applied: set<Id>, n: Id)
    requires TableInv(v, cs, applied) && n in cs && v.nodes[n].configEpoch == cs[n].epoch
    ensures TableInv(UpdateSlots(v, n, cs[n].epoch, cs[n].slots), cs, applied + {n})
  {
    RebindIsBest(v, cs, applied, n);
    var u := v.(owner := ReboundOwners(v, n, cs[n].epoch, cs[n].slots));
    assert !ServesSlots(u, v.myself);
  }

  lemma AbsorbTable(v: View, cs: Claims, applied: set<Id>, h: Header)
    requires TableInv(v, cs, applied) && (h.sender in cs ==> h.configEpoch == cs[h.sender].epoch)
    ensures TableInv(AbsorbHeader(v, h), cs, applied)
    ensures h.sender in cs ==> AbsorbHeader(v, h).nodes[h.sender].configEpoch == cs[h.sender].epoch
  {
  }

  lemma PromoteTable(v: View, cs: Claims, applied: set<Id>, n: Id)
    requires TableInv(v, cs, applied) && n in cs
    ensures TableInv(SetNodeAsMaster(v, n), cs, applied)
    ensures SetNodeAsMaster(v, n).owner == v.owner && SetNodeAsMaster(v, n).nodes[n].master
    ensures forall k :: k in v.nodes ==> SetNodeAsMaster(v, n).nodes[k].configEpoch == v.nodes[k].configEpoch
  {
    hide BestOf;
  }

  lemma CollisionTable(v: View, cs: Claims, applied: set<Id>, sender: Id)
    requires TableInv(v, cs, applied)
    ensures TableInv(HandleCollision(v, sender), cs, applied)
  {
    hide Collides, BestOf;
    KnownTable(v, cs, applied);
  }

  /** A PING is always acted on. */
  lemma PingTable(v: View, cs: Claims, applied: set<Id>, d: Delivery)
    requires TableInv(v, cs, applied) && d.ByPing? && Carries(cs, d)
    ensures TableInv(ProcessPing(v, d.hdr), cs, applied + {d.node})
  {
    hide AbsorbHeader, SetNodeAsMaster, UpdateSlots, HandleCollision, BestOf, Known;
    var n, h := d.node, d.hdr;
    var a := AbsorbHeader(v, h);
    AbsorbTable(v, cs, applied, h);
    PromoteTable(a, cs, applied, n);
    var b := SetNodeAsMaster(a, n);
    if DirtySlots(b, h) {
      UpdateSlotsTable(b, cs, applied, n);
    } else {
      SkipIsSound(b, cs, applied, n);
    }
    var w := ApplyClaim(a, h);
    assert TableInv(w, cs, applied + {n});
    CollisionTable(w, cs, applied + {n}, n);
  }

  /** An UPDATE is acted on exactly when its epoch is new after its own header has been absorbed. */
  lemma UpdateTable(v: View, cs: Claims, applied: set<Id>, d: Delivery)
    requires TableInv(v, cs, applied) && d.ByUpdate? && Carries(cs, d)
    ensures TableInv(Receive(v, cs, d), cs, if TakesEffect(v, cs, d) then applied + {d.node} else applied)
  {
    hide AbsorbHeader, SetNodeAsMaster, UpdateSlots, BestOf, Known;
    var n, h := d.node, d.hdr;
    var a := AbsorbHeader(v, h);
    AbsorbTable(v, cs, applied, h);
    if TakesEffect(v, cs, d) {
      PromoteTable(a, cs, applied, n);
      var b := SetNodeAsMaster(a, n);
      var u := b.(nodes := b.nodes[n := b.nodes[n].(configEpoch := cs[n].epoch)]);
      RecordTable(b, u, cs, applied, n);
      UpdateSlotsTable(u, cs, applied, n);
    }
  }

  lemma RecordTable(b: View, u: View, cs: Claims, applied: set<Id>, n: Id)
    requires TableInv(b, cs, applied) && n in cs
    requires u == b.(nodes := b.nodes[n := b.nodes[n].(configEpoch := cs[n].epoch)])
    ensures TableInv(u, cs, applied)
  {
  }

  lemma ReceiveTable(v: View, cs: Claims, applied: set<Id>, d: Delivery)
    requires TableInv(v, cs, applied) && Carries(cs, d)
    ensures TableInv(Receive(v, cs, d), cs, if TakesEffect(v, cs, d) then applied + {d.node} else applied)
  {
    hide ProcessPing, ProcessUpdate, TableInv, Known;
    KnownTable(v, cs, applied);
    if d.ByPing? { PingTable(v, cs, applied, d); } else { UpdateTable(v, cs, applied, d); }
  }

  lemma KnownTable(v: View, cs: Claims, applied: set<Id>)
    requires TableInv(v, cs, applied)
    ensures Known(v) && cs.Keys <= v.nodes.Keys && applied <= cs.Keys
  {
  }

  // ----- Any sequence of deliveries

  predicate Deliverable(cs: Claims, ds: seq<Delivery>) { forall k :: 0 <= k < |ds| ==> Carries(cs, ds[k]) }

  function ReceiveAll(v: View, cs: Claims, ds: seq<Delivery>): (w: View)
    requires Known(v) && Deliverable(cs, ds)
    ensures Known(w) && w.nodes.Keys == v.nodes.Keys
    decreases |ds|
  {
    if ds == [] then v else Receive(ReceiveAll(v, cs, ds[..|ds| - 1]), cs, ds[|ds| - 1])
  }

  /** Some UPDATE in ds was sent by n; its header alone made the receiver record n's epoch. */
  predicate Masked(ds: seq<Delivery>, n: Id) {
    exists k :: 0 <= k < |ds| && ds[k].ByUpdate? && ds[k].hdr.sender == n
  }

  /** Delivery k gets n's claim through: a PING of n, or an UPDATE about n that no UPDATE sent by n precedes. */
  predicate GetsThrough(ds: seq<Delivery>, known: set<Id>, n: Id, k: nat) {
    && k < |ds| && ds[k].node == n
    && (ds[k].ByPing? || (ds[k].hdr.sender in known && ds[k].hdr.sender != n && !Masked(ds[..k], n)))
  }

  ghost function Heard(ds: seq<Delivery>, known: set<Id>, cs: Claims): set<Id> {
    set n | n in cs && exists k :: GetsThrough(ds, known, n, k)
  }

  /** The receiver starts with no slot assigned and knows only earlier epochs of the claimants. */
  ghost predicate Blank(v: View, cs: Claims) {
    && Known(v) && !v.down && v.importing == map[] && v.owner == map[] && CurrentMaster(v).Some? && ClaimsOk(v, cs)
    && (forall n :: n in cs ==> v.nodes[n].configEpoch < cs[n].epoch)
  }

  /** The claims acted on so far, and for whom the current epoch is already recorded. */
  ghost predicate RunInv(v: View, w: View, cs: Claims, ds: seq<Delivery>) {
    && TableInv(w, cs, Heard(ds, v.nodes.Keys, cs)) && w.nodes.Keys == v.nodes.Keys
    && (forall n :: n in cs ==>
          (w.nodes[n].configEpoch == cs[n].epoch <==> n in Heard(ds, v.nodes.Keys, cs) || Masked(ds, n)))
  }

  lemma MaskedGrows(ds: seq<Delivery>, n: Id)
    requires ds != []
    ensures Masked(ds, n) <==>
      Masked(ds[..|ds| - 1], n) || (ds[|ds| - 1].ByUpdate? && ds[|ds| - 1].hdr.sender == n)
  {
    var init, d := ds[..|ds| - 1], ds[|ds| - 1];
    if Masked(init, n) {
      var k :| 0 <= k < |init| && init[k].ByUpdate? && init[k].hdr.sender == n;
      assert ds[k] == init[k];
    }
    if Masked(ds, n) {
      var k :| 0 <= k < |ds| && ds[k].ByUpdate? && ds[k].hdr.sender == n;
      assert k < |init| ==> init[k] == ds[k];
    }
  }

  lemma HeardGrows(ds: seq<Delivery>, known: set<Id>, cs: Claims)
    requires ds != [] && ds[|ds| - 1].node in cs
    ensures var init, d := ds[..|ds| - 1], ds[|ds| - 1];
      Heard(ds, known, cs) ==
      Heard(init, known, cs) + (if GetsThrough(ds, known, d.node, |ds| - 1) then {d.node} else {})
  {
    hide Masked;
    var init, d := ds[..|ds| - 1], ds[|ds| - 1];
    assert forall k :: 0 <= k < |init| ==> init[..k] == ds[..k];
    forall n | n in cs
      ensures n in Heard(ds, known, cs) <==>
        n in Heard(init, known, cs) || (n == d.node && GetsThrough(ds, known, n, |init|))
    {
      if n in Heard(ds, known, cs) {
        var k: nat :| GetsThrough(ds, known, n, k);
        assert k < |init| ==> GetsThrough(init, known, n, k);
      }
      if n in Heard(init, known, cs) {
        var k: nat :| GetsThrough(init, known, n, k);
        assert GetsThrough(ds, known, n, k);
      }
    }
  }

  /** Which records a delivery brings up to date. */
  predicate Refreshes(w: View, cs: Claims, d: Delivery, n: Id)
    requires n in w.nodes && n in cs && d.node in cs
  {
    w.nodes[n].configEpoch == cs[n].epoch || d.hdr.sender == n || (d.node == n && TakesEffect(w, cs, d))
  }

  lemma PingRefreshes(w: View, cs: Claims, applied: set<Id>, d: Delivery, n: Id)
    requires TableInv(w, cs, applied) && Carries(cs, d) && n in cs && d.ByPing?
    ensures Receive(w, cs, d).nodes[n].configEpoch == cs[n].epoch <==> Refreshes(w, cs, d, n)
  {
    hide ApplyClaim, BestOf, Known, Collides;
    var a := AbsorbHeader(w, d.hdr);
    assert SameEpochs(a, ApplyClaim(a, d.hdr));
  }

  lemma UpdateRefreshes(w: View, cs: Claims, applied: set<Id>, d: Delivery, n: Id)
    requires TableInv(w, cs, applied) && Carries(cs, d) && n in cs && d.ByUpdate?
    ensures d.hdr.sender in w.nodes ==>
      (Receive(w, cs, d).nodes[n].configEpoch == cs[n].epoch <==> Refreshes(w, cs, d, n))
    ensures d.hdr.sender !in w.nodes ==> Receive(w, cs, d) == w
  {
    hide UpdateSlots, BestOf, Known, SetNodeAsMaster, CurrentMaster;
    AbsorbTable(w, cs, applied, d.hdr);
    var a := AbsorbHeader(w, d.hdr);
    if TakesEffect(w, cs, d) {
      var b := SetNodeAsMaster(a, d.node);
      var c := b.(nodes := b.nodes[d.node := b.nodes[d.node].(configEpoch := cs[d.node].epoch)]);
      PromoteTable(a, cs, applied, d.node);
      RecordTable(b, c, cs, applied, d.node);
      KnownTable(c, cs, applied);
    }
  }

  lemma ReceiveRefreshes(w: View, cs: Claims, applied: set<Id>, d: Delivery, n: Id)
    requires TableInv(w, cs, applied) && Carries(cs, d) && n in cs
    ensures Receive(w, cs, d).nodes[n].configEpoch == cs[n].epoch <==> Refreshes(w, cs, d, n)
  {
    hide Receive, BestOf, Known;
    if d.ByPing? { PingRefreshes(w, cs, applied, d, n); } else { UpdateRefreshes(w, cs, applied, d, n); }
  }

  lemma StepClaims(v: View, w: View, cs: Claims, ds: seq<Delivery>)
    requires ds != [] && Carries(cs, ds[|ds| - 1]) && w.myself == v.myself
    requires RunInv(v, w, cs, ds[..|ds| - 1]) && Known(w)
    ensures RunInv(v, Receive(w, cs, ds[|ds| - 1]), cs, ds)
  {
    hide Receive, TableInv, Heard, Masked, Known, TakesEffect;
    var init, d := ds[..|ds| - 1], ds[|ds| - 1];
    var known := v.nodes.Keys;
    var heard := Heard(init, known, cs);
    KnownTable(w, cs, heard);
    ReceiveTable(w, cs, heard, d);
    HeardGrows(ds, known, cs);
    EffectIff(v, w, cs, ds);
    assert Heard(ds, known, cs) == if TakesEffect(w, cs, d) then heard + {d.node} else heard;
    forall n | n in cs
      ensures Receive(w, cs, d).nodes[n].configEpoch == cs[n].epoch <==> n in Heard(ds, known, cs) || Masked(ds, n)
    {
      ReceiveRefreshes(w, cs, heard, d, n);
      MaskedGrows(ds, n);
    }
  }

  lemma EffectIff(v: View, w: View, cs: Claims, ds: seq<Delivery>)
    requires ds != [] && Carries(cs, ds[|ds| - 1]) && RunInv(v, w, cs, ds[..|ds| - 1])
    ensures var d := ds[|ds| - 1];
      var heard := Heard(ds[..|ds| - 1], v.nodes.Keys, cs);
      (d.node in heard || TakesEffect(w, cs, d)) <==>
      (d.node in heard || GetsThrough(ds, v.nodes.Keys, d.node, |ds| - 1))
  {
    hide Heard, Masked, Known, BestOf;
  }

  lemma {:induction false} RunClaims(v: View, cs: Claims, ds: seq<Delivery>)
    requires Blank(v, cs) && Deliverable(cs, ds)
    ensures RunInv(v, ReceiveAll(v, cs, ds), cs, ds) && ReceiveAll(v, cs, ds).myself == v.myself
    decreases |ds|
  {
    if ds == [] {
      assert Heard(ds, v.nodes.Keys, cs) == {};
    } else {
      RunClaims(v, cs, ds[..|ds| - 1]);
      StepClaims(v, ReceiveAll(v, cs, ds[..|ds| - 1]), cs, ds);
    }
  }

  /** After any deliveries the table is the best of the claims that got through. */
  lemma ClaimsConverge(v: View, cs: Claims, ds: seq<Delivery>)
    requires Blank(v, cs) && Deliverable(cs, ds)
    ensures !ReceiveAll(v, cs, ds).down
    ensures BestOf(ReceiveAll(v, cs, ds).owner, cs, Heard(ds, v.nodes.Keys, cs))
  {
    hide Known, Heard, Masked;
    RunClaims(v, cs, ds);
  }

  // ----- When that is everybody

  function Delivered(ds: seq<Delivery>): set<Id> { set d | d in ds :: d.node }

  predicate DistinctEpochs(cs: Claims) { forall m, n :: m in cs && n in cs && cs[m].epoch == cs[n].epoch ==> m == n }

  /** n holds the highest epoch among the claimants of j in ns. */
  predicate Tops(cs: Claims, ns: set<Id>, n: Id, j: nat) {
    && n in ns && n in cs && j in cs[n].slots
    && (forall m :: m in ns && m in cs && j in cs[m].slots ==> cs[m].epoch <= cs[n].epoch)
  }

  lemma {:induction false} SomeoneTops(cs: Claims, ns: set<Id>, n: Id, j: nat) returns (t: Id)
    requires ns <= cs.Keys && n in ns && j in cs[n].slots
    ensures Tops(cs, ns, t, j)
    decreases ns
  {
    if m :| m in ns && j in cs[m].slots && cs[n].epoch < cs[m].epoch {
      t := SomeoneTops(cs, ns - {n}, m, j);
      assert cs[n].epoch <= cs[t].epoch;
    } else {
      t := n;
    }
  }

  lemma HeardDelivered(ds: seq<Delivery>, known: set<Id>, cs: Claims)
    requires Deliverable(cs, ds)
    ensures Heard(ds, known, cs) <= Delivered(ds) <= cs.Keys
  {
    forall n | n in Heard(ds, known, cs)
      ensures n in Delivered(ds)
    {
      var k: nat :| GetsThrough(ds, known, n, k);
      assert ds[k] in ds;
    }
  }

  /**
   Every delivered claim is honoured, each slot going to its highest-epoch claimant, if and only if the
   highest-epoch claimant of every slot got through: by a PING of its own, or by an UPDATE that no UPDATE
   it had itself sent came before.
   */
  lemma ConvergesExactly(v: View, cs: Claims, ds: seq<Delivery>)
    requires Blank(v, cs) && Deliverable(cs, ds) && DistinctEpochs(cs)
    ensures BestOf(ReceiveAll(v, cs, ds).owner, cs, Delivered(ds)) <==>
      forall n, j :: Tops(cs, Delivered(ds), n, j) ==> n in Heard(ds, v.nodes.Keys, cs)
  {
    hide Known, Heard, Masked, ReceiveAll, Delivered;
    var all, heard := Delivered(ds), Heard(ds, v.nodes.Keys, cs);
    var owner := ReceiveAll(v, cs, ds).owner;
    ClaimsConverge(v, cs, ds);
    HeardDelivered(ds, v.nodes.Keys, cs);
    if BestOf(owner, cs, all) {
      forall n, j | Tops(cs, all, n, j)
        ensures n in heard
      {
        assert owner[j] == n;
      }
    }
    if forall n, j :: Tops(cs, all, n, j) ==> n in heard {
      forall n, j | n in all && j in cs[n].slots
        ensures j in owner && cs[n].epoch <= cs[owner[j]].epoch
      {
        var t := SomeoneTops(cs, all, n, j);
      }
    }
  }

  /** If each claim is PINGed at least once, in any order among any other deliveries, the table is the best of all. */
  lemma PingsSuffice(v: View, cs: Claims, ds: seq<Delivery>)
    requires Blank(v, cs) && Deliverable(cs, ds)
    requires forall n :: n in cs ==> exists k :: 0 <= k < |ds| && ds[k].ByPing? && ds[k].node == n
    ensures BestOf(ReceiveAll(v, cs, ds).owner, cs, cs.Keys)
  {
    ClaimsConverge(v, cs, ds);
    forall n | n in cs
      ensures n in Heard(ds, v.nodes.Keys, cs)
    {
      var k: nat :| k < |ds| && ds[k].ByPing? && ds[k].node == n;
      assert GetsThrough(ds, v.nodes.Keys, n, k);
    }
    assert Heard(ds, v.nodes.Keys, cs) == cs.Keys;
  }
}
