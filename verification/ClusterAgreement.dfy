/**
 Election safety from what the nodes believe while the run goes on: if all views always agree on which masters vote and
 how many there are, every epoch has at most one winner.
 */
module ClusterAgreement {
  import opened ClusterView
  import opened ClusterNet
  import opened ClusterEpochs
  import opened ClusterElection

  /** The node counts the masters right, and is one of them whenever it would vote. */
  ghost predicate AgreesOn(v: View, masters: set<Id>) {
    v.size == |masters| && (Known(v) && Me(v).master && ServesSlots(v, v.myself) ==> v.myself in masters)
  }

  ghost predicate AllAgree(s: Net, masters: set<Id>) { forall i :: i in s.views ==> AgreesOn(s.views[i], masters) }

  ghost predicate AgreeThroughout(s: Net, es: seq<Event>, masters: set<Id>) {
    forall k :: 0 <= k < |es| ==> AllAgree(After(s, es[..k]), masters)
  }

  /** Only those masters have voted, and every win was of a majority of them. */
  ghost predicate DrawnFrom(s: Net, masters: set<Id>) {
    && (forall x :: x in s.votes ==> x.voter in masters)
    && (forall w :: w in s.wins ==> w.size == |masters|)
  }

  lemma StepDraws(s: Net, e: Event, masters: set<Id>)
    requires DrawnFrom(s, masters) && AllAgree(s, masters)
    ensures DrawnFrom(Apply(s, e), masters)
  {
    hide ProcessPing, PingReplies, ProcessUpdate, Counts, BuildHeader, HandleFailover, Grants, AbsorbHeader, Known, RunCommand, Broadcast, RecordVote,
      ServesSlots, AgreesOn;
    if e.Deliver? && Up(s, e.msg.dst) && Grants(AbsorbHeader(s.views[e.msg.dst], e.msg.hdr), e.msg.hdr, e.clock) {
      VoterAgrees(s.views[e.msg.dst], e.msg.hdr, e.clock, masters);
    }
    if e.Cron? && Up(s, e.node) { SizeAgrees(s.views[e.node], masters); }
  }

  lemma SizeAgrees(v: View, masters: set<Id>)
    requires AgreesOn(v, masters)
    ensures v.size == |masters|
  {
  }

  lemma VoterAgrees(v: View, h: Header, c: Clock, masters: set<Id>)
    requires Known(v) && AgreesOn(v, masters) && Grants(AbsorbHeader(v, h), h, c)
    ensures AckFor(AbsorbHeader(v, h), h.sender).hdr.sender in masters
  {
  }

  lemma {:induction false} RunDraws(s: Net, es: seq<Event>, masters: set<Id>)
    requires DrawnFrom(s, masters) && AgreeThroughout(s, es, masters)
    ensures DrawnFrom(After(s, es), masters)
    decreases |es|
  {
    hide Apply, AllAgree, DrawnFrom;
    if es != [] {
      var init := es[..|es| - 1];
      assert forall k :: 0 <= k < |init| ==> init[..k] == es[..k];
      RunDraws(s, init, masters);
      StepDraws(After(s, init), es[|es| - 1], masters);
    }
  }

  /** With no stale ACK and all views agreed throughout, every epoch has at most one winner. */
  lemma AgreementIsSafe(s: Net, es: seq<Event>, masters: set<Id>)
    requires Quiet(s) && NoStaleAcks(s, es) && AgreeThroughout(s, es, masters)
    ensures forall w1, w2 :: w1 in After(s, es).wins && w2 in After(s, es).wins && w1.epoch == w2.epoch ==>
      w1.candidate == w2.candidate
  {
    hide After, NoStaleAcks, AgreeThroughout, EpochInv;
    QuietStart(s);
    RunKeepsElectionInv(s, es);
    RunDraws(s, es, masters);
    OneWinnerPerEpoch(s, es, masters);
  }
}
