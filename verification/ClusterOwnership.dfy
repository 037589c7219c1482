/**
 Who serves a slot, and why: a failover takes exactly the slots of the old master, and whatever happens in the network a
 node records another owner for a slot only for one of the reasons listed here.
 */
module ClusterOwnership {
  import opened Optional
  import opened ClusterView
  import opened ClusterNet
  import opened ClusterEpochs

  // ----- Failover

  /** From v to w the node has taken over from m: exactly m's slots are its own now, and it is a master. */
  ghost predicate TakesOver(v: View, w: View, m: Id) {
    && v.myself in w.nodes && w.nodes[v.myself].master && w.nodes[v.myself].slaveof.None?
    && (forall j: nat :: OwnerOf(w, j) == if OwnerOf(v, j) == Some(m) then Some(v.myself) else OwnerOf(v, j))
    && (forall n: Id :: n in v.nodes && n != v.myself ==> n in w.nodes && w.nodes[n] == v.nodes[n])
  }

  /** So the old master is left without slots, this node gains exactly those, and every other node keeps its own. */
  lemma TakenSlots(v: View, w: View, m: Id)
    requires TakesOver(v, w, m) && m != v.myself
    ensures SlotsOf(w, m) == {} && SlotsOf(w, v.myself) == SlotsOf(v, v.myself) + SlotsOf(v, m)
    ensures forall n: Id :: n != v.myself && n != m ==> SlotsOf(w, n) == SlotsOf(v, n)
  {
    SameSlots(w, m, {}, v, m);
    SameSlots(w, v.myself, SlotsOf(v, v.myself) + SlotsOf(v, m), v, m);
    forall n: Id | n != v.myself && n != m
      ensures SlotsOf(w, n) == SlotsOf(v, n)
    {
      SameSlots(w, n, SlotsOf(v, n), v, m);
    }
  }

  lemma SameSlots(w: View, n: Id, js: set<nat>, v: View, m: Id)
    requires TakesOver(v, w, m) && m != v.myself
    requires js == if n == m then {} else if n == v.myself then SlotsOf(v, n) + SlotsOf(v, m) else SlotsOf(v, n)
    ensures SlotsOf(w, n) == js
  {
    hide SlotsOf;
    forall j: nat
      ensures j in SlotsOf(w, n) <==> j in js
    {
      assert OwnerOf(w, j) == if OwnerOf(v, j) == Some(m) then Some(v.myself) else OwnerOf(v, j);
      SlotIs(w, n, j);
      SlotIs(v, n, j);
      SlotIs(v, m, j);
    }
    assert forall j :: j in SlotsOf(w, n) ==> j in js;
    assert forall j :: j in js ==> j in SlotsOf(w, n);
  }

  lemma SlotIs(v: View, n: Id, j: nat)
    ensures j in SlotsOf(v, n) <==> OwnerOf(v, j) == Some(n)
  {
  }

  lemma ReplaceExactly(v: View)
    requires Known(v) && !Me(v).master && Me(v).slaveof.Some?
    ensures TakesOver(v, ReplaceMaster(v), Me(v).slaveof.value)
    ensures Me(ReplaceMaster(v)).configEpoch == Me(v).configEpoch
  {
  }

  /** A won election: the slots of the master, and an epoch no lower than that of the election. */
  lemma WinExactly(v: View, c: Clock)
    requires Known(v) && FailoverBranch(v, c).Win?
    ensures var w := HandleFailover(v, c);
      && Me(v).slaveof.Some? && TakesOver(v, w, Me(v).slaveof.value)
      && w.nodes[v.myself].configEpoch == Max(Me(v).configEpoch, v.authEpoch) && w.currentEpoch == v.currentEpoch
  {
    hide ReplaceMaster;
    var u := RaiseConfigEpoch(v);
    assert Known(u);
    ReplaceExactly(u);
  }

  /** CLUSTER FAILOVER TAKEOVER: the same, under a new epoch when the node's is not the greatest known. */
  lemma TakeoverExactly(v: View)
    requires Known(v) && !Me(v).master && Me(v).slaveof.Some?
    ensures TakesOver(v, RunCommand(v, Takeover), Me(v).slaveof.value)
    ensures Me(RunCommand(v, Takeover)).configEpoch == if MustBump(v) then v.currentEpoch + 1 else Me(v).configEpoch
  {
    hide ReplaceMaster, MustBump;
    ReplaceExactly(BumpEpoch(v));
  }

  /** What a slave asks votes for is what winning gives it. */
  lemma WinGivesWhatWasAsked(v: View)
    requires Known(v) && !Me(v).master && Me(v).slaveof.Some? && Me(v).slaveof.value != v.myself
    ensures SlotsOf(ReplaceMaster(v), v.myself) == SlotsOf(v, v.myself) + BuildHeader(v).myslots
  {
    hide ReplaceMaster;
    ReplaceExactly(v);
    TakenSlots(v, ReplaceMaster(v), Me(v).slaveof.value);
  }

  // ----- Why an owner changes

  /** A claim of n at this epoch takes slot j from whoever has it, or from nobody. */
  ghost predicate ClaimTakes(v: View, n: Id, epoch: nat, claimed: set<nat>, j: nat) {
    && n != v.myself && j in claimed && j < CLUSTER_SLOTS && j !in v.importing
    && (j in v.owner ==> v.owner[j] in v.nodes && v.nodes[v.owner[j]].configEpoch < epoch)
  }

  lemma UpdateSlotsOwner(v: View, n: Id, epoch: nat, claimed: set<nat>, j: nat)
    requires Known(v) && n in v.nodes
    ensures OwnerOf(UpdateSlots(v, n, epoch, claimed), j) ==
      if ClaimTakes(v, n, epoch, claimed, j) then Some(n) else OwnerOf(v, j)
  {
    hide Known;
    var u := v.(owner := ReboundOwners(v, n, epoch, claimed));
    assert n != v.myself ==> UpdateSlots(v, n, epoch, claimed).owner == u.owner;
  }

  /** Reasons why node i, with view v, comes to record owner `to` for slot j instead of `from`. */
  ghost predicate PingExplains(v: View, h: Header, j: nat, from: Option<Id>, to: Option<Id>) {
    var a := AbsorbHeader(v, h);
    h.sender in v.nodes &&
    if h.slaveof.None? then to == Some(h.sender) && ClaimTakes(a, h.sender, h.configEpoch, h.myslots, j)
    else to == None && from == Some(h.sender)
  }

  ghost predicate UpdateExplains(v: View, h: Header, about: Id, epoch: nat, claimed: set<nat>, j: nat, to: Option<Id>) {
    var a := AbsorbHeader(v, h);
    && h.sender in v.nodes && about in a.nodes && a.nodes[about].configEpoch < epoch
    && to == Some(about) && about != v.myself && j in claimed && j < CLUSTER_SLOTS && j !in v.importing
    && (j in v.owner && v.owner[j] != about ==> v.owner[j] in a.nodes && a.nodes[v.owner[j]].configEpoch < epoch)
  }

  ghost predicate CommandExplains(v: View, cmd: Command, j: nat, from: Option<Id>, to: Option<Id>) {
    match cmd
    case Takeover => v.myself in v.nodes && from == v.nodes[v.myself].slaveof && to == Some(v.myself)
    case SetSlot(slot, n, keys) =>
      && slot == j && to == Some(n) && n in v.nodes && v.myself in v.nodes && v.nodes[v.myself].master
      && (from == Some(v.myself) ==> keys == 0)
    case AddSlots(js) => j in js && from == None && to == Some(v.myself)
    case DelSlots(js) => j in js && to == None
    case Forget(n) => from == Some(n) && to == None && n != v.myself
    case Expire(n) => from == Some(n) && to == None && n != v.myself
    case _ => false
  }

  ghost predicate Explained(s: Net, e: Event, i: Id, j: nat, from: Option<Id>, to: Option<Id>)
    requires i in s.views
  {
    var v := s.views[i];
    match e
    case Deliver(m, c) =>
      m.dst == i && m in s.wire &&
      (match m.body
       case Ping(_) => PingExplains(v, m.hdr, j, from, to)
       case Update(about, epoch, claimed) => UpdateExplains(v, m.hdr, about, epoch, claimed, j, to)
       case _ => false)
    case Cron(n, c) =>
      n == i && Known(v) && FailoverBranch(v, c).Win? && from == Me(v).slaveof && to == Some(i)
    case Run(n, cmd) => n == i && CommandExplains(v, cmd, j, from, to)
    case _ => false
  }

  lemma PingOwner(v: View, h: Header, j: nat)
    requires Known(v) && OwnerOf(ProcessPing(v, h), j) != OwnerOf(v, j)
    ensures PingExplains(v, h, j, OwnerOf(v, j), OwnerOf(ProcessPing(v, h), j))
  {
    hide AbsorbHeader, UpdateSlots, HandleCollision, DirtySlots, Known, UpdateRole, ClaimTakes;
    if h.sender in v.nodes {
      var a := AbsorbHeader(v, h);
      var u := UpdateRole(a, h);
      AbsorbOwner(v, h);
      RoleOwner(a, h, j);
      UpdateSlotsOwner(u, h.sender, h.configEpoch, h.myslots, j);
      CollisionOwner(ApplyClaim(a, h), h.sender);
      if h.slaveof.None? { RoleClaim(a, h, j); }
    }
  }

  lemma AbsorbOwner(v: View, h: Header)
    ensures AbsorbHeader(v, h).owner == v.owner && AbsorbHeader(v, h).nodes.Keys == v.nodes.Keys
    ensures AbsorbHeader(v, h).myself == v.myself && AbsorbHeader(v, h).importing == v.importing
  {
  }

  lemma CollisionOwner(v: View, n: Id)
    requires Known(v)
    ensures HandleCollision(v, n).owner == v.owner
  {
  }

  lemma RoleOwner(v: View, h: Header, j: nat)
    requires h.sender in v.nodes
    ensures OwnerOf(UpdateRole(v, h), j) ==
      if h.slaveof.Some? && v.nodes[h.sender].master && OwnerOf(v, j) == Some(h.sender) then None else OwnerOf(v, j)
    ensures h.slaveof.Some? ==> !UpdateRole(v, h).nodes[h.sender].master
  {
  }

  lemma RoleClaim(v: View, h: Header, j: nat)
    requires h.sender in v.nodes && h.slaveof.None?
    ensures ClaimTakes(UpdateRole(v, h), h.sender, h.configEpoch, h.myslots, j) <==>
      ClaimTakes(v, h.sender, h.configEpoch, h.myslots, j)
  {
  }

  lemma UpdateOwner(v: View, h: Header, about: Id, epoch: nat, claimed: set<nat>, j: nat)
    requires Known(v) && OwnerOf(ProcessUpdate(v, h, about, epoch, claimed), j) != OwnerOf(v, j)
    ensures UpdateExplains(v, h, about, epoch, claimed, j, OwnerOf(ProcessUpdate(v, h, about, epoch, claimed), j))
  {
    hide UpdateSlots, Known, AbsorbHeader, SetNodeAsMaster, ClaimTakes;
    var a := AbsorbHeader(v, h);
    AbsorbOwner(v, h);
    if h.sender in a.nodes && about in a.nodes && a.nodes[about].configEpoch < epoch {
      var b := SetNodeAsMaster(a, about);
      var u := b.(nodes := b.nodes[about := b.nodes[about].(configEpoch := epoch)]);
      AnnouncedClaim(a, about, epoch, claimed, j);
      UpdateSlotsOwner(u, about, epoch, claimed, j);
      SameOwner(v, u, j);
    }
  }

  /** The view in which the claim of an UPDATE is judged. */
  lemma AnnouncedClaim(a: View, about: Id, epoch: nat, claimed: set<nat>, j: nat)
    requires Known(a) && about in a.nodes
    ensures var b := SetNodeAsMaster(a, about);
      var u := b.(nodes := b.nodes[about := b.nodes[about].(configEpoch := epoch)]);
      && Known(u) && u.owner == a.owner && u.myself == a.myself
      && (ClaimTakes(u, about, epoch, claimed, j) ==>
            && about != a.myself && j in claimed && j < CLUSTER_SLOTS && j !in a.importing
            && (j in a.owner && a.owner[j] != about ==> a.owner[j] in a.nodes && a.nodes[a.owner[j]].configEpoch < epoch))
  {
    hide Known;
    AnnouncedKnown(SetNodeAsMaster(a, about), about, epoch);
  }

  lemma AnnouncedKnown(b: View, about: Id, epoch: nat)
    requires Known(b) && about in b.nodes
    ensures Known(b.(nodes := b.nodes[about := b.nodes[about].(configEpoch := epoch)]))
  {
  }

  lemma CommandOwner(v: View, cmd: Command, j: nat)
    requires Known(v) && OwnerOf(RunCommand(v, cmd), j) != OwnerOf(v, j)
    ensures CommandExplains(v, cmd, j, OwnerOf(v, j), OwnerOf(RunCommand(v, cmd), j))
  {
    if cmd.Takeover? && !Me(v).master && Me(v).slaveof.Some? { TakeoverExactly(v); }
  }

  /** Whatever happens in the network, an owner changes only for one of these reasons. */
  lemma OwnersChangeForAReason(s: Net, e: Event, i: Id, j: nat)
    requires i in s.views && OwnerOf(Apply(s, e).views[i], j) != OwnerOf(s.views[i], j)
    ensures Explained(s, e, i, j, OwnerOf(s.views[i], j), OwnerOf(Apply(s, e).views[i], j))
  {
    hide DeliverTo, RunCommand, HandleFailover, FailoverBranch, BuildHeader, Broadcast, Known, PingExplains, UpdateExplains,
      CommandExplains, OwnerOf;
    var v := s.views[i];
    match e
    case Deliver(m, c) => if m in s.wire && Up(s, m.dst) { DeliveryExplained(s.(wire := s.wire - multiset{m}), m, c, i, j); }
    case Cron(n, c) => if n == i && Up(s, i) { CronOwner(v, c, j); }
    case Run(n, cmd) => if n == i && Up(s, i) { CommandOwner(v, cmd, j); }
    case _ =>
  }

  lemma DeliveryExplained(s: Net, m: Msg, c: Clock, i: Id, j: nat)
    requires i in s.views && Up(s, m.dst)
    ensures var v, w := s.views[i], DeliverTo(s, m, c).views[i];
      OwnerOf(w, j) != OwnerOf(v, j) ==>
        && m.dst == i
        && (m.body.Ping? ==> PingExplains(v, m.hdr, j, OwnerOf(v, j), OwnerOf(w, j)))
        && (m.body.Update? ==> UpdateExplains(v, m.hdr, m.body.about, m.body.epoch, m.body.slots, j, OwnerOf(w, j)))
        && (m.body.Ping? || m.body.Update?)
  {
    hide ProcessPing, PingReplies, ProcessUpdate, Grants, Counts, AbsorbHeader, BuildHeader, Known, PingExplains,
      UpdateExplains, OwnerOf;
    var v := s.views[i];
    if m.dst == i {
      AbsorbOwner(v, m.hdr);
      SameOwner(v, AbsorbHeader(v, m.hdr), j);
      match m.body
      case Ping(_) => if OwnerOf(ProcessPing(v, m.hdr), j) != OwnerOf(v, j) { PingOwner(v, m.hdr, j); }
      case Update(about, epoch, claimed) =>
        if OwnerOf(ProcessUpdate(v, m.hdr, about, epoch, claimed), j) != OwnerOf(v, j) {
          UpdateOwner(v, m.hdr, about, epoch, claimed, j);
        }
      case AuthRequest => VoteOwner(v, m.hdr, c, j);
      case AuthAck => SameOwner(v, ProcessAuthAck(v, m.hdr), j);
    }
  }

  lemma SameOwner(v: View, w: View, j: nat)
    ensures w.owner == v.owner ==> OwnerOf(w, j) == OwnerOf(v, j)
  {
  }

  lemma VoteOwner(v: View, h: Header, c: Clock, j: nat)
    requires Known(v)
    ensures var a := AbsorbHeader(v, h); Grants(a, h, c) ==> OwnerOf(RecordVote(a, h, c), j) == OwnerOf(v, j)
  {
  }

  lemma CronOwner(v: View, c: Clock, j: nat)
    requires Known(v)
    ensures OwnerOf(HandleFailover(v, c), j) != OwnerOf(v, j) ==>
      FailoverBranch(v, c).Win? && OwnerOf(v, j) == Me(v).slaveof && OwnerOf(HandleFailover(v, c), j) == Some(v.myself)
  {
    hide ReplaceMaster;
    if FailoverBranch(v, c).Win? { WinExactly(v, c); }
  }

  // ----- Over whole runs

  lemma NextState(s: Net, es: seq<Event>, k: nat)
    requires k < |es|
    ensures After(s, es[..k + 1]) == Apply(After(s, es[..k]), es[k])
  {
    hide Apply;
    assert es[..k + 1][..k] == es[..k];
  }

  /** At every step of every run: an owner that changes in the view of node i changes for a reason. */
  lemma OwnersInRun(s: Net, es: seq<Event>, k: nat, i: Id, j: nat)
    requires k < |es| && i in After(s, es[..k]).views
    ensures var t, u := After(s, es[..k]), After(s, es[..k + 1]);
      i in u.views &&
      (OwnerOf(u.views[i], j) != OwnerOf(t.views[i], j) ==>
         Explained(t, es[k], i, j, OwnerOf(t.views[i], j), OwnerOf(u.views[i], j)))
  {
    hide After, Apply, Explained, OwnerOf;
    NextState(s, es, k);
    var t := After(s, es[..k]);
    ViewsStay(t, es[k], i);
    if OwnerOf(Apply(t, es[k]).views[i], j) != OwnerOf(t.views[i], j) { OwnersChangeForAReason(t, es[k], i, j); }
  }

  lemma ViewsStay(s: Net, e: Event, i: Id)
    requires i in s.views
    ensures i in Apply(s, e).views
  {
    hide ProcessPing, PingReplies, ProcessUpdate, RunCommand, HandleFailover, FailoverBranch, Grants, Counts, AbsorbHeader,
      BuildHeader, Broadcast;
  }

  /** At every step of every run: a won election or a TAKEOVER takes exactly the slots of the old master. */
  lemma FailoversInRun(s: Net, es: seq<Event>, k: nat, i: Id)
    requires k < |es| && Up(After(s, es[..k]), i)
    ensures var t, u := After(s, es[..k]), After(s, es[..k + 1]);
      var v := t.views[i];
      es[k] == Run(i, Takeover) && !Me(v).master && Me(v).slaveof.Some? ==>
        i in u.views && TakesOver(v, u.views[i], Me(v).slaveof.value)
    ensures var t, u := After(s, es[..k]), After(s, es[..k + 1]);
      var v := t.views[i];
      es[k].Cron? && es[k].node == i && FailoverBranch(v, es[k].clock).Win? ==>
        i in u.views && Me(v).slaveof.Some? && TakesOver(v, u.views[i], Me(v).slaveof.value)
  {
    hide After, TakesOver, FailoverBranch, HandleFailover, RunCommand, Broadcast, BuildHeader, Known;
    NextState(s, es, k);
    var v := After(s, es[..k]).views[i];
    if es[k].Run? && !Me(v).master && Me(v).slaveof.Some? { TakeoverExactly(v); }
    if es[k].Cron? && FailoverBranch(v, es[k].clock).Win? { WinExactly(v, es[k].clock); }
  }
}
