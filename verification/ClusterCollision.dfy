/**
 Repair of configEpoch collisions, on stale views and in any interleaving: how often a master can move,
 and that once nothing moves any more all masters differ.
 */
module ClusterCollision {
  import opened Optional
  import opened ClusterView
  import opened ClusterNet
  import opened ClusterEpochs
  import opened ClusterSteps

  // ----- How often a master can move

  ghost predicate HistInv(s: Net) {
    && s.views.Keys == s.epochs.Keys
    && (forall i :: i in s.views ==> OwnEpoch(s.views[i]) in s.epochs[i])
    && (forall m :: m in s.wire ==>
          && m.hdr.sender in s.epochs && (m.hdr.slaveof.None? ==> m.hdr.configEpoch in s.epochs[m.hdr.sender])
          && (m.body.Update? ==> m.body.about != m.dst))
    && (forall i, e :: i in s.epochs && e in s.epochs[i] && e != OwnEpoch(s.views[i]) ==>
          exists j :: i < j && j in s.epochs && e in s.epochs[j])
  }

  /** Where runs begin: nothing is in flight, and nobody has had another epoch than its own. */
  ghost predicate FreshNetwork(s: Net) {
    EpochInv(s) && s.wire == multiset{} && forall i :: i in s.views ==> s.epochs[i] == {OwnEpoch(s.views[i])}
  }

  lemma FreshHist(s: Net)
    requires FreshNetwork(s)
    ensures HistInv(s)
  {
    hide ViewOk;
  }

  lemma ActHist(s: Net, t: Net, i: Id, w: View, m: Option<Msg>, out: set<Msg>)
    requires HistInv(s) && Describes(s, t, i, w, m, out) && Repairs(s.views[i], w, m)
    ensures HistInv(t)
  {
    hide Reports, Sourced;
    forall k, e | k in t.epochs && e in t.epochs[k] && e != OwnEpoch(t.views[k])
      ensures exists j :: k < j && j in t.epochs && e in t.epochs[j]
    {
      LeftBehind(s, t, i, w, m, out, k, e);
    }
  }

  /** Every epoch a master has left is one that a larger name has had. */
  lemma LeftBehind(s: Net, t: Net, i: Id, w: View, m: Option<Msg>, out: set<Msg>, k: Id, e: nat)
    requires HistInv(s) && Describes(s, t, i, w, m, out) && Repairs(s.views[i], w, m)
    requires k in t.epochs && e in t.epochs[k] && e != OwnEpoch(t.views[k])
    ensures exists j :: k < j && j in t.epochs && e in t.epochs[j]
  {
    hide Reports, Sourced, Acts;
    if e in s.epochs[k] && e != OwnEpoch(s.views[k]) {
      var j :| k < j && j in s.epochs && e in s.epochs[j];
      assert e in t.epochs[j];
    } else {
      assert e in t.epochs[m.value.hdr.sender];
    }
  }

  lemma StepHist(s: Net, e: Event)
    requires HistInv(s) && EpochInv(s) && OnlyRepairs(s, e)
    ensures HistInv(Apply(s, e))
  {
    hide Apply, EpochInv, Describes, Repairs, OnlyRepairs;
    var acts, i, w, m, out := StepDescribed(s, e);
    if acts { ActHist(s, Apply(s, e), i, w, m, out); }
  }

  ghost predicate RepairRun(s: Net, es: seq<Event>) {
    forall k :: 0 <= k < |es| ==> OnlyRepairs(After(s, es[..k]), es[k])
  }

  lemma {:induction false} RunKeepsHist(s: Net, es: seq<Event>)
    requires HistInv(s) && EpochInv(s) && RepairRun(s, es)
    ensures HistInv(After(s, es)) && EpochInv(After(s, es))
    decreases |es|
  {
    hide HistInv, EpochInv, Apply, OnlyRepairs;
    if es != [] {
      var init := es[..|es| - 1];
      assert forall k :: 0 <= k < |init| ==> init[..k] == es[..k];
      RunKeepsHist(s, init);
      StepHist(After(s, init), es[|es| - 1]);
      StepKeepsEpochInv(After(s, init), es[|es| - 1]);
    }
  }

  // ----- Counting

  function Above(ids: set<Id>, i: Id): set<Id> { set j | j in ids && i < j }

  function UsedBy(epochs: map<Id, set<nat>>, ids: set<Id>): set<nat>
    requires ids <= epochs.Keys
  {
    set j, e | j in ids && e in epochs[j] :: e
  }

  lemma LeastOf(ids: set<Id>) returns (m: Id)
    requires ids != {}
    ensures m in ids && forall j :: j in ids ==> m <= j
    decreases ids
  {
    m :| m in ids;
    var rest := ids - {m};
    assert ids == rest + {m};
    if rest != {} {
      var r := LeastOf(rest);
      if r < m { m := r; }
    } else {
      assert ids == {m};
    }
  }

  /** The masters above a name have used, between them, no more epochs than there are of them. */
  lemma {:induction false} UsedAboveBound(s: Net, ids: set<Id>)
    requires HistInv(s) && ids <= s.epochs.Keys
    requires forall i, j :: i in ids && j in s.epochs && i < j ==> j in ids
    ensures |UsedBy(s.epochs, ids)| <= |ids|
    decreases ids
  {
    if ids != {} {
      var m := LeastOf(ids);
      var rest := ids - {m};
      UsedAboveBound(s, rest);
      var own := OwnEpoch(s.views[m]);
      forall e | e in UsedBy(s.epochs, ids)
        ensures e in UsedBy(s.epochs, rest) + {own}
      {
        var k :| k in ids && e in s.epochs[k];
        if k == m && e != own {
          var j :| m < j && j in s.epochs && e in s.epochs[j];
          assert j in rest;
        }
      }
      SubsetCard(UsedBy(s.epochs, ids), UsedBy(s.epochs, rest) + {own});
    } else {
      assert UsedBy(s.epochs, ids) == {};
    }
  }

  lemma SubsetCard<T>(a: set<T>, b: set<T>)
    requires a <= b
    ensures |a| <= |b|
  {
    assert b == a + (b - a);
    assert |b| == |a| + |b - a|;
  }

  /**
   In any run from a fresh network in which epochs change only by collision repair, a node with k larger names in the
   cluster uses at most k epochs besides the one it started with, however stale the views it acts on.
   */
  lemma RepairsTerminate(s: Net, es: seq<Event>, i: Id)
    requires FreshNetwork(s) && RepairRun(s, es) && i in After(s, es).epochs
    ensures |After(s, es).epochs[i]| <= |Above(After(s, es).views.Keys, i)| + 1
  {
    hide EpochInv, HistInv, RepairRun, After;
    FreshHist(s);
    EpochsUsed(s, es, i);
  }

  lemma EpochsUsed(s: Net, es: seq<Event>, i: Id)
    requires HistInv(s) && EpochInv(s) && RepairRun(s, es) && i in After(s, es).epochs
    ensures |After(s, es).epochs[i]| <= |Above(After(s, es).views.Keys, i)| + 1
  {
    hide EpochInv, RepairRun, After;
    var t := After(s, es);
    RunKeepsHist(s, es);
    var above := Above(t.views.Keys, i);
    UsedAboveBound(t, above);
    var own := OwnEpoch(t.views[i]);
    forall e | e in t.epochs[i]
      ensures e in UsedBy(t.epochs, above) + {own}
    {
      if e != own {
        var j :| i < j && j in t.epochs && e in t.epochs[j];
        assert j in above;
      }
    }
    SubsetCard(t.epochs[i], UsedBy(t.epochs, above) + {own});
  }

  // ----- When nothing moves any more

  /** Node n is up and a master in its own eyes. */
  ghost predicate ActsAsMaster(s: Net, n: Id) {
    && n in s.views && s.views[n].myself == n && n in s.views[n].nodes && !s.views[n].down
    && s.views[n].nodes[n].master && s.views[n].nodes[n].slaveof.None?
  }

  function OwnAt(s: Net, n: Id): nat { if n in s.views then OwnEpoch(s.views[n]) else 0 }

  /** Nobody records for a master an epoch above the one it has. */
  ghost predicate RecordsBehind(s: Net, masters: set<Id>) {
    forall i, j :: i in s.views && j in masters && j != i && j in s.views[i].nodes ==>
      s.views[i].nodes[j].configEpoch <= OwnAt(s, j)
  }

  /** Nobody records or announces for a master an epoch above the one it has. */
  ghost predicate RecInv(s: Net, masters: set<Id>) {
    && RecordsBehind(s, masters)
    && (forall m :: m in s.wire && m.hdr.sender in masters ==>
          m.hdr.slaveof.None? && m.hdr.configEpoch <= OwnAt(s, m.hdr.sender))
    && (forall m :: m in s.wire && m.body.Update? && m.body.about in masters ==>
          m.body.epoch <= OwnAt(s, m.body.about))
    && HistWire(s)
  }

  lemma FreshRec(s: Net, masters: set<Id>)
    requires FreshNetwork(s) && RecordsBehind(s, masters)
    ensures RecInv(s, masters)
  {
    hide EpochInv;
  }

  ghost predicate AllMasters(s: Net, masters: set<Id>) { forall n :: n in masters ==> ActsAsMaster(s, n) }

  lemma ActRec(s: Net, t: Net, i: Id, w: View, m: Option<Msg>, out: set<Msg>, masters: set<Id>)
    requires RecInv(s, masters) && Describes(s, t, i, w, m, out)
    requires AllMasters(s, masters) && AllMasters(t, masters)
    ensures RecInv(t, masters)
  {
    hide Sourced;
    var v := s.views[i];
    assert forall n :: n in masters ==> OwnAt(s, n) <= OwnAt(t, n);
    forall k, j | k in t.views && j in masters && j != k && j in t.views[k].nodes
      ensures t.views[k].nodes[j].configEpoch <= OwnAt(t, j)
    {
      if k == i { ActSourced(s, t, i, w, m, out, masters, j); }
    }
    forall x | x in out
      ensures i in masters ==> x.hdr.slaveof.None? && x.hdr.configEpoch <= OwnAt(t, i)
      ensures x.body.Update? && x.body.about in masters ==> x.body.epoch <= OwnAt(t, x.body.about)
      ensures x.body.Update? ==> x.body.about != x.dst
    {
      assert Reports(v, x);
    }
  }

  lemma ActSourced(s: Net, t: Net, i: Id, w: View, m: Option<Msg>, out: set<Msg>, masters: set<Id>, j: Id)
    requires RecInv(s, masters) && Describes(s, t, i, w, m, out)
    requires AllMasters(s, masters) && AllMasters(t, masters)
    requires j in masters && j != i && j in t.views[i].nodes
    ensures t.views[i].nodes[j].configEpoch <= OwnAt(t, j)
  {
    hide Reports;
    assert Sourced(s.views[i], w, j, m);
    assert OwnAt(s, j) <= OwnAt(t, j);
  }

  lemma StepRec(s: Net, e: Event, masters: set<Id>)
    requires RecInv(s, masters) && EpochInv(s) && AllMasters(s, masters) && AllMasters(Apply(s, e), masters)
    ensures RecInv(Apply(s, e), masters)
    ensures forall x, n :: n in masters && x in Apply(s, e).wire && x !in s.wire && x.hdr.sender == n ==>
      x.hdr.configEpoch == OwnAt(s, n) || x.hdr.configEpoch == OwnAt(Apply(s, e), n)
  {
    hide Apply, EpochInv, Sourced, Reports;
    var acts, i, w, m, out := StepDescribed(s, e);
    if acts { ActRec(s, Apply(s, e), i, w, m, out, masters); }
  }

  /** In every state of the run the given nodes are up and masters. */
  ghost predicate MastersThroughout(s: Net, es: seq<Event>, masters: set<Id>) {
    forall k :: 0 <= k <= |es| ==> AllMasters(After(s, es[..k]), masters)
  }

  lemma {:induction false} RunRec(s: Net, es: seq<Event>, masters: set<Id>)
    requires RecInv(s, masters) && EpochInv(s) && MastersThroughout(s, es, masters)
    ensures RecInv(After(s, es), masters) && EpochInv(After(s, es))
    decreases |es|
  {
    hide RecInv, EpochInv, Apply, AllMasters;
    if es != [] {
      var init := es[..|es| - 1];
      assert forall k :: 0 <= k <= |init| ==> init[..k] == es[..k];
      RunRec(s, init, masters);
      assert es[..|es|] == es;
      StepRec(After(s, init), es[|es| - 1], masters);
      StepKeepsEpochInv(After(s, init), es[|es| - 1]);
    } else {
      assert es[..0] == es;
    }
  }

  /** No master changes its configEpoch from state a of the run on. */
  ghost predicate StillFrom(s: Net, es: seq<Event>, a: nat, masters: set<Id>) {
    forall k, n :: a <= k <= |es| && n in masters ==> OwnAt(After(s, es[..k]), n) == OwnAt(After(s, es[..a]), n)
  }

  /** A packet of master n put on the wire after state a announces the epoch n still has. */
  lemma {:induction false} SentLater(s: Net, es: seq<Event>, a: nat, b: nat, masters: set<Id>, m: Msg)
    requires RecInv(s, masters) && EpochInv(s) && MastersThroughout(s, es, masters) && StillFrom(s, es, a, masters)
    requires a <= b <= |es| && m.hdr.sender in masters
    requires m in After(s, es[..b]).wire && m !in After(s, es[..a]).wire
    ensures m.hdr.configEpoch == OwnAt(After(s, es[..a]), m.hdr.sender)
    decreases b
  {
    hide RecInv, EpochInv, Apply, AllMasters;
    var t := After(s, es[..b - 1]);
    assert es[..b][..b - 1] == es[..b - 1];
    if m in t.wire {
      SentLater(s, es, a, b - 1, masters, m);
    } else {
      var init := es[..b - 1];
      assert forall k :: 0 <= k <= |init| ==> init[..k] == es[..k];
      RunRec(s, init, masters);
      StepRec(t, es[b - 1], masters);
    }
  }

  /** An up-to-date PING from a larger name with the same epoch always makes the receiver move. */
  lemma CollisionMoves(v: View, h: Header)
    requires Known(v) && EpochsBounded(v) && h.sender in v.nodes && h.sender != v.myself
    requires h.slaveof.None? && h.configEpoch == OwnEpoch(v) && v.myself < h.sender
    requires v.nodes[h.sender].configEpoch <= h.configEpoch
    requires !ProcessPing(v, h).down && ProcessPing(v, h).nodes[v.myself].master
    ensures OwnEpoch(ProcessPing(v, h)) != OwnEpoch(v)
  {
    hide ApplyClaim, EpochsBounded;
    var a := AbsorbHeader(v, h);
    AbsorbRecords(v, h);
    ClaimRecords(a, h);
    ClaimKeepsSender(a, h);
    OwnBounded(v);
  }

  lemma ClaimKeepsSender(v: View, h: Header)
    requires Known(v) && h.sender in v.nodes && h.sender != v.myself && h.slaveof.None?
    ensures ApplyClaim(v, h).nodes[h.sender].master
  {
    hide UpdateRole, DirtySlots, UpdateSlots;
  }

  /** Node i processes at step k of the run a PING or PONG that master j sent after state a. */
  ghost predicate HeardFrom(s: Net, es: seq<Event>, a: nat, k: nat, i: Id, j: Id) {
    a <= k < |es| && es[k].Deliver? &&
    var m := es[k].msg;
    && m.body.Ping? && m.dst == i && m.hdr.sender == j
    && m in After(s, es[..k]).wire && m !in After(s, es[..a]).wire
    && i in After(s, es[..k]).views && j in After(s, es[..k]).views[i].nodes
  }

  /**
   From the last move on, once master i has processed a PING that the larger-named master j sent since,
   their configEpochs differ.
   */
  lemma QuietMastersDiffer(s: Net, es: seq<Event>, a: nat, k: nat, masters: set<Id>, i: Id, j: Id)
    requires RecInv(s, masters) && EpochInv(s) && MastersThroughout(s, es, masters) && StillFrom(s, es, a, masters)
    requires i in masters && j in masters && i < j && HeardFrom(s, es, a, k, i, j)
    ensures OwnAt(After(s, es), i) != OwnAt(After(s, es), j)
  {
    hide Apply, EpochInv, After, RecInv, AllMasters;
    var t, m := After(s, es[..k]), es[k].msg;
    var init := es[..k];
    assert forall x :: 0 <= x <= |init| ==> init[..x] == es[..x];
    RunRec(s, init, masters);
    SentLater(s, es, a, k, masters, m);
    assert es[..|es|] == es;
    NextState(s, es, k);
    HeardDiffers(t, m, es[k].clock, masters);
  }

  lemma HeardDiffers(t: Net, m: Msg, c: Clock, masters: set<Id>)
    requires m.dst in t.views
    requires EpochInv(t) && RecInv(t, masters) && AllMasters(t, masters) && AllMasters(Apply(t, Deliver(m, c)), masters)
    requires m in t.wire && m.body.Ping? && m.dst in masters && m.hdr.sender in masters && m.dst < m.hdr.sender
    requires m.hdr.sender in t.views[m.dst].nodes && m.hdr.configEpoch == OwnAt(t, m.hdr.sender)
    requires OwnAt(Apply(t, Deliver(m, c)), m.dst) == OwnAt(t, m.dst)
    ensures OwnAt(t, m.dst) != OwnAt(t, m.hdr.sender)
  {
    hide Apply, EpochInv;
    DeliveredPing(t, m, c);
  }

  /**
   In any run from a fresh network, once every master has heard from every larger-named master since the last move,
   all configEpochs differ.
   */
  lemma AllMastersDiffer(s: Net, es: seq<Event>, a: nat, masters: set<Id>)
    requires FreshNetwork(s) && RecordsBehind(s, masters)
    requires MastersThroughout(s, es, masters) && StillFrom(s, es, a, masters)
    requires forall i, j :: i in masters && j in masters && i < j ==> exists k :: HeardFrom(s, es, a, k, i, j)
    ensures forall i, j :: i in masters && j in masters && i != j ==>
      OwnAt(After(s, es), i) != OwnAt(After(s, es), j)
  {
    hide After, RecInv, EpochInv, MastersThroughout, StillFrom, HeardFrom, OwnAt;
    FreshRec(s, masters);
    HeardAllDiffer(s, es, a, masters);
  }

  lemma HeardAllDiffer(s: Net, es: seq<Event>, a: nat, masters: set<Id>)
    requires RecInv(s, masters) && EpochInv(s) && MastersThroughout(s, es, masters) && StillFrom(s, es, a, masters)
    requires forall i, j :: i in masters && j in masters && i < j ==> exists k :: HeardFrom(s, es, a, k, i, j)
    ensures forall i, j :: i in masters && j in masters && i != j ==>
      OwnAt(After(s, es), i) != OwnAt(After(s, es), j)
  {
    hide After, RecInv, EpochInv, MastersThroughout, StillFrom, HeardFrom, OwnAt;
    forall i, j | i in masters && j in masters && i < j
      ensures OwnAt(After(s, es), i) != OwnAt(After(s, es), j)
    {
      var k :| HeardFrom(s, es, a, k, i, j);
      QuietMastersDiffer(s, es, a, k, masters, i, j);
    }
  }

  lemma NextState(s: Net, es: seq<Event>, k: nat)
    requires k < |es|
    ensures After(s, es[..k + 1]) == Apply(After(s, es[..k]), es[k])
  {
    hide Apply;
    assert es[..k + 1][..k] == es[..k];
  }

  lemma DeliveredPing(t: Net, m: Msg, c: Clock)
    requires EpochInv(t) && m in t.wire && m.body.Ping? && ActsAsMaster(t, m.dst)
    requires m.hdr.sender in t.views[m.dst].nodes && m.dst < m.hdr.sender && m.hdr.slaveof.None?
    requires t.views[m.dst].nodes[m.hdr.sender].configEpoch <= m.hdr.configEpoch
    requires ActsAsMaster(Apply(t, Deliver(m, c)), m.dst)
    ensures m.hdr.configEpoch == OwnAt(t, m.dst) ==> OwnAt(Apply(t, Deliver(m, c)), m.dst) != OwnAt(t, m.dst)
  {
    hide ProcessPing, PingReplies, ProcessUpdate, AbsorbHeader, Grants, Counts, RecordVote, CronAt, RunCommand,
      Broadcast, BuildHeader, Known, ViewOk, EpochsBounded;
    var v := t.views[m.dst];
    ViewOkParts(m.dst, v);
    if m.hdr.configEpoch == OwnAt(t, m.dst) { CollisionMoves(v, m.hdr); }
  }
}
