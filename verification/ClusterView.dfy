/**
 What one Redis Cluster node knows, and what each handler of the cluster bus does to it.

 A `View` is the part of `server.cluster` that decides epochs, votes and slot ownership.  A slot that
 no node serves is absent from `owner`; the bitmap of a node is the set of slots it owns.  The class
 in ClusterState.dfy keeps the redundant tables of the C code and is proved to compute these functions.
 Node names are compared with memcmp only, so a name is modelled by its rank.
 */
module ClusterView {
  import opened Optional

  const CLUSTER_SLOTS := 16384

  type Id = nat

  datatype Node = Node(configEpoch: nat, master: bool, slaveof: Option<Id>, failed: bool, votedTime: int)

  datatype View = View(
    myself: Id,
    currentEpoch: nat,
    lastVoteEpoch: nat,
    size: nat,
    nodes: map<Id, Node>,
    owner: map<nat, Id>,
    importing: map<nat, Id>,
    authEpoch: nat,
    authCount: nat,
    authSent: bool,
    authTime: int,
    manualEnd: bool,
    manualCanStart: bool,
    down: bool)

  /** The header every packet carries (cluster.h, clusterMsg). */
  datatype Header = Header(sender: Id, currentEpoch: nat, configEpoch: nat, slaveof: Option<Id>,
                           myslots: set<nat>, forceAck: bool)

  datatype Body =
    | Ping(wantsPong: bool)
    | AuthRequest
    | AuthAck
    | Update(about: Id, epoch: nat, slots: set<nat>)

  datatype Msg = Msg(dst: Id, hdr: Header, body: Body)

  /** What the environment decides when a timer or a vote handler runs. */
  datatype Clock = Clock(now: int, timeout: nat, dataFresh: bool, delay: nat, rankDelay: nat)

  // ----- Reading a view

  predicate Known(v: View) {
    && v.myself in v.nodes
    && (forall j :: j in v.owner ==> v.owner[j] in v.nodes && j < CLUSTER_SLOTS)
    && (forall n {:trigger v.nodes[n].slaveof} :: n in v.nodes && v.nodes[n].slaveof.Some? ==> v.nodes[n].slaveof.value in v.nodes)
  }

  /** Nothing an election has recorded changed, and currentEpoch did not go back. */
  predicate KeepsElection(v: View, w: View) {
    && w.myself == v.myself
    && w.lastVoteEpoch == v.lastVoteEpoch
    && w.authEpoch == v.authEpoch && w.authCount == v.authCount && w.authSent == v.authSent
    && v.currentEpoch <= w.currentEpoch
  }

  /** No epoch changed. */
  predicate SameEpochs(v: View, w: View) {
    && w.currentEpoch == v.currentEpoch
    && (forall n :: n in v.nodes && n in w.nodes ==> w.nodes[n].configEpoch == v.nodes[n].configEpoch)
  }

  function Me(v: View): Node
    requires Known(v)
  {
    v.nodes[v.myself]
  }

  function OwnerOf(v: View, j: nat): Option<Id> {
    if j in v.owner then Some(v.owner[j]) else None
  }

  function SlotsOf(v: View, n: Id): set<nat> {
    set j | j in v.owner && v.owner[j] == n
  }

  predicate ServesSlots(v: View, n: Id) {
    exists j :: j in v.owner && v.owner[j] == n
  }

  /** clusterBuildMessageHdr: a slave advertises its master's epoch and slots. */
  function Advertised(v: View): Id
    requires Known(v)
  {
    if !Me(v).master && Me(v).slaveof.Some? then Me(v).slaveof.value else v.myself
  }

  function BuildHeader(v: View): Header
    requires Known(v)
  {
    var m := Advertised(v);
    Header(v.myself, v.currentEpoch, v.nodes[m].configEpoch, Me(v).slaveof, SlotsOf(v, m), false)
  }

  // ----- Epochs

  function Max(a: nat, b: nat): nat { if a < b then b else a }

  /** Lines 1600-1612: whatever the packet is, a known sender's epochs are recorded. */
  function AbsorbHeader(v: View, h: Header): (w: View)
    ensures w.nodes.Keys == v.nodes.Keys
    ensures Known(v) ==> Known(w) && KeepsElection(v, w)
  {
    if h.sender !in v.nodes then v else
      var s := v.nodes[h.sender];
      v.(currentEpoch := Max(v.currentEpoch, h.currentEpoch),
         nodes := v.nodes[h.sender := s.(configEpoch := Max(s.configEpoch, h.configEpoch))])
  }

  /** Sets the node's own configEpoch to a new epoch no node was known to use. */
  function TakeNextEpoch(v: View): (w: View)
    requires Known(v)
    ensures w.nodes.Keys == v.nodes.Keys
    ensures Known(w) && KeepsElection(v, w)
  {
    var e := v.currentEpoch + 1;
    v.(currentEpoch := e, nodes := v.nodes[v.myself := Me(v).(configEpoch := e)])
  }

  /** e is the greatest of currentEpoch and all recorded configEpochs. */
  ghost predicate IsMaxEpoch(v: View, e: nat) {
    && v.currentEpoch <= e
    && (forall n :: n in v.nodes ==> v.nodes[n].configEpoch <= e)
    && (e == v.currentEpoch || exists n :: n in v.nodes && v.nodes[n].configEpoch == e)
  }

  /** No recorded configEpoch is above currentEpoch. */
  predicate EpochsBounded(v: View) {
    forall n :: n in v.nodes ==> v.nodes[n].configEpoch <= v.currentEpoch
  }

  predicate MustBump(v: View)
    requires Known(v)
  {
    Me(v).configEpoch == 0 ||
    Me(v).configEpoch < v.currentEpoch || (exists n :: n in v.nodes && Me(v).configEpoch < v.nodes[n].configEpoch)
  }

  /** clusterBumpConfigEpochWithoutConsensus. */
  function BumpEpoch(v: View): (w: View)
    requires Known(v)
    ensures w.nodes.Keys == v.nodes.Keys
    ensures Known(w) && KeepsElection(v, w)
  {
    if MustBump(v) then TakeNextEpoch(v) else v
  }

  predicate Collides(v: View, sender: Id)
    requires Known(v)
  {
    && sender in v.nodes
    && v.nodes[sender].configEpoch == Me(v).configEpoch
    && v.nodes[sender].master && Me(v).master
    && v.myself < sender
  }

  /** clusterHandleConfigEpochCollision. */
  function HandleCollision(v: View, sender: Id): (w: View)
    requires Known(v)
    ensures w.nodes.Keys == v.nodes.Keys
    ensures Known(w) && KeepsElection(v, w)
  {
    if Collides(v, sender) then TakeNextEpoch(v) else v
  }

  // ----- Slots

  function AddSlot(v: View, n: Id, j: nat): View {
    if j in v.owner then v else v.(owner := v.owner[j := n])
  }

  function DelSlot(v: View, j: nat): View {
    v.(owner := v.owner - {j})
  }

  function DelNodeSlots(v: View, n: Id): (w: View)
    ensures w.nodes.Keys == v.nodes.Keys && SameEpochs(v, w)
    ensures Known(v) ==> Known(w) && KeepsElection(v, w)
  {
    v.(owner := v.owner - SlotsOf(v, n))
  }

  function SetNodeAsMaster(v: View, n: Id): (w: View)
    ensures w.nodes.Keys == v.nodes.Keys && SameEpochs(v, w)
    ensures Known(v) ==> Known(w) && KeepsElection(v, w)
  {
    if n in v.nodes && !v.nodes[n].master
    then v.(nodes := v.nodes[n := v.nodes[n].(master := true, slaveof := None)])
    else v
  }

  /** The node turns into, or stays, a slave, now of n. */
  function BecomeSlaveOf(v: View, n: Id): (w: View)
    requires Known(v)
    requires n in v.nodes
    ensures w.nodes.Keys == v.nodes.Keys && SameEpochs(v, w)
    ensures forall k :: k in v.nodes && k != v.myself ==> w.nodes[k] == v.nodes[k]
    ensures Known(w) && KeepsElection(v, w)
  {
    v.(nodes := v.nodes[v.myself := Me(v).(master := false, slaveof := Some(n))],
       importing := if Me(v).master then map[] else v.importing,
       manualEnd := false, manualCanStart := false)
  }

  /** clusterSetMaster; a failed assertion on lines 3639-3640 stops the process. */
  function SetMaster(v: View, n: Id): (w: View)
    requires Known(v)
    requires n in v.nodes
    ensures w.nodes.Keys == v.nodes.Keys && SameEpochs(v, w)
    ensures forall k :: k in v.nodes && k != v.myself ==> w.nodes[k] == v.nodes[k]
    ensures Known(w) && KeepsElection(v, w)
  {
    if n == v.myself || ServesSlots(v, v.myself) then v.(down := true) else BecomeSlaveOf(v, n)
  }

  /** Lines 1465-1480: the claim takes the slot from whoever had it. */
  predicate Rebinds(v: View, sender: Id, epoch: nat, claimed: set<nat>, j: nat) {
    && j in claimed && j < CLUSTER_SLOTS
    && j !in v.importing
    && (j in v.owner ==>
          v.owner[j] != sender && v.owner[j] in v.nodes && v.nodes[v.owner[j]].configEpoch < epoch)
  }

  function ReboundOwners(v: View, sender: Id, epoch: nat, claimed: set<nat>): map<nat, Id> {
    map j | j in v.owner.Keys + claimed && (j in v.owner || Rebinds(v, sender, epoch, claimed, j)) ::
      if Rebinds(v, sender, epoch, claimed, j) then sender else v.owner[j]
  }

  function CurrentMaster(v: View): Option<Id>
    requires Known(v)
  {
    if Me(v).master then Some(v.myself) else Me(v).slaveof
  }

  /** The claim took at least one slot recorded for `curmaster`; an unassigned slot matches a NULL curmaster. */
  predicate TookFromMaster(v: View, sender: Id, epoch: nat, claimed: set<nat>)
    requires Known(v)
  {
    exists j :: j in claimed && Rebinds(v, sender, epoch, claimed, j) && OwnerOf(v, j) == CurrentMaster(v)
  }

  /** The claim leaves `curmaster` without slots, so that the node is to replicate the claimant. */
  predicate Reconfigures(v: View, sender: Id, epoch: nat, claimed: set<nat>)
    requires Known(v)
  {
    && sender != v.myself && TookFromMaster(v, sender, epoch, claimed)
    && (CurrentMaster(v).None? ||
        !ServesSlots(v.(owner := ReboundOwners(v, sender, epoch, claimed)), CurrentMaster(v).value))
  }

  /** Slot j was this node's, and the claim takes it. */
  predicate Loses(v: View, sender: Id, epoch: nat, claimed: set<nat>, j: nat) {
    sender != v.myself && Rebinds(v, sender, epoch, claimed, j) && OwnerOf(v, j) == Some(v.myself)
  }

  /** clusterUpdateSlotsConfigWith. */
  function UpdateSlots(v: View, sender: Id, epoch: nat, claimed: set<nat>): (w: View)
    requires Known(v)
    requires sender in v.nodes
    ensures w.nodes.Keys == v.nodes.Keys && SameEpochs(v, w)
    ensures forall n :: n in v.nodes && n != v.myself ==> w.nodes[n] == v.nodes[n]
    ensures Known(w) && KeepsElection(v, w)
  {
    if sender == v.myself then v else
      var u := v.(owner := ReboundOwners(v, sender, epoch, claimed));
      if !TookFromMaster(v, sender, epoch, claimed) then u
      else if CurrentMaster(v).None? then u.(down := true)
      else if ServesSlots(u, CurrentMaster(v).value) then u
      else SetMaster(u, sender)
  }

  /** clusterFailoverReplaceYourMaster, up to the PONG it broadcasts. */
  function ReplaceMaster(v: View): (w: View)
    requires Known(v)
    ensures w.nodes.Keys == v.nodes.Keys && SameEpochs(v, w)
    ensures Known(w) && KeepsElection(v, w)
  {
    if Me(v).master || Me(v).slaveof.None? then v else
      var oldMaster := Me(v).slaveof.value;
      SetNodeAsMaster(v, v.myself).(
      owner := map j | j in v.owner :: if v.owner[j] == oldMaster then v.myself else v.owner[j],
      manualEnd := false, manualCanStart := false)
  }

  /** Forgets n; its slaves are left without a known master. */
  function WithoutNode(nodes: map<Id, Node>, n: Id): map<Id, Node> {
    map k | k in nodes && k != n :: if nodes[k].slaveof == Some(n) then nodes[k].(slaveof := None) else nodes[k]
  }

  /** clusterDelNode. */
  function DelNode(v: View, n: Id): (w: View)
    ensures Known(v) && n != v.myself ==> Known(w) && KeepsElection(v, w)
  {
    v.(owner := v.owner - SlotsOf(v, n),
       importing := map j | j in v.importing && v.importing[j] != n :: v.importing[j],
       nodes := WithoutNode(v.nodes, n))
  }

  /** CLUSTER SETSLOT <slot> NODE <n> (lines 4024-4065); `keys` is what countKeysInSlot reports. */
  function SetSlotNode(v: View, j: nat, n: Id, keys: nat): (w: View)
    requires Known(v)
    ensures w.nodes.Keys == v.nodes.Keys
    ensures Known(w) && KeepsElection(v, w)
  {
    if !Me(v).master || n !in v.nodes || j >= CLUSTER_SLOTS then v
    else if OwnerOf(v, j) == Some(v.myself) && n != v.myself && keys != 0 then v
    else
      var u := if n == v.myself && j in v.importing then BumpEpoch(v).(importing := v.importing - {j}) else v;
      u.(owner := u.owner[j := n])
  }

  // ----- Commands and local events

  datatype Command =
    | BumpCmd
    | Takeover
    | SetSlot(slot: nat, node: Id, keys: nat)
    | AddSlots(slots: set<nat>)
    | DelSlots(slots: set<nat>)
    | Forget(node: Id)
    | Expire(node: Id)
    | Replicate(node: Id, empty: bool)
    | MarkFailed(node: Id, failed: bool)
    | Recount
    | Import(slot: nat, node: Id)
    | Stable(slot: nat)
    | Manual(running: bool, canStart: bool)
    | Learn(node: Id, master: bool)

  predicate IsEpochCommand(cmd: Command) { cmd.BumpCmd? || cmd.Takeover? || cmd.SetSlot? }

  /** What operators ask for, and what the cron does on its own: Expire drops a node whose handshake took too long. */
  function RunCommand(v: View, cmd: Command): (w: View)
    requires Known(v)
    ensures Known(w) && KeepsElection(v, w)
  {
    match cmd
    case BumpCmd => BumpEpoch(v)
    case Takeover => if Me(v).master || Me(v).slaveof.None? then v else ReplaceMaster(BumpEpoch(v))
    case SetSlot(j, n, keys) => SetSlotNode(v, j, n, keys)
    case AddSlots(js) =>
      if exists j :: j in js && (j in v.owner || j >= CLUSTER_SLOTS) then v
      else v.(owner := v.owner + (map j | j in js :: v.myself), importing := v.importing - js)
    case DelSlots(js) =>
      if exists j :: j in js && j !in v.owner then v
      else v.(owner := v.owner - js, importing := v.importing - js)
    case Forget(n) =>
      if n !in v.nodes || n == v.myself || (!Me(v).master && Me(v).slaveof == Some(n)) then v else DelNode(v, n)
    case Expire(n) => if n !in v.nodes || n == v.myself then v else DelNode(v, n)
    case Replicate(n, empty) =>
      if n !in v.nodes || n == v.myself || !v.nodes[n].master
         || (Me(v).master && (ServesSlots(v, v.myself) || !empty)) then v
      else SetMaster(v, n)
    case MarkFailed(n, f) => if n in v.nodes then v.(nodes := v.nodes[n := v.nodes[n].(failed := f)]) else v
    case Recount => v.(size := |set n | n in v.nodes && v.nodes[n].master && ServesSlots(v, n)|)
    case Import(j, n) =>
      if !Me(v).master || n !in v.nodes || OwnerOf(v, j) == Some(v.myself) then v
      else v.(importing := v.importing[j := n])
    case Stable(j) => if Me(v).master then v.(importing := v.importing - {j}) else v
    case Manual(running, canStart) => v.(manualEnd := running, manualCanStart := canStart)
    case Learn(n, m) => if n in v.nodes then v else v.(nodes := v.nodes[n := Node(0, m, None, false, 0)])
  }

  // ----- Packets

  /** Lines 1775-1783: a master that announces itself as a slave loses its slots. */
  function Demote(v: View, n: Id): (w: View)
    requires n in v.nodes
    ensures w.nodes.Keys == v.nodes.Keys && SameEpochs(v, w) && !w.nodes[n].master
    ensures Known(v) ==> Known(w) && KeepsElection(v, w)
  {
    if v.nodes[n].master
    then DelNodeSlots(v.(nodes := v.nodes[n := v.nodes[n].(master := false)]), n)
    else v
  }

  /** Lines 1764-1793: the sender's role follows the header. */
  function UpdateRole(v: View, h: Header): (w: View)
    ensures w.nodes.Keys == v.nodes.Keys && SameEpochs(v, w)
    ensures h.sender in v.nodes ==> (w.nodes[h.sender].master <==> h.slaveof.None?)
    ensures Known(v) ==> Known(w) && KeepsElection(v, w)
  {
    if h.sender !in v.nodes then v
    else if h.slaveof.None? then SetNodeAsMaster(v, h.sender)
    else
      var u := Demote(v, h.sender);
      if h.slaveof.value in u.nodes
      then u.(nodes := u.nodes[h.sender := u.nodes[h.sender].(slaveof := h.slaveof)])
      else u
  }

  /** Lines 1808-1819: the sender, or its master, owns other slots here than the header claims. */
  predicate DirtySlots(v: View, h: Header) {
    h.sender in v.nodes &&
    var m := if v.nodes[h.sender].master then Some(h.sender) else v.nodes[h.sender].slaveof;
    m.Some? && SlotsOf(v, m.value) != h.myslots
  }

  /** Lines 1848-1852: a slot the sender claims, known here under a later configEpoch. */
  predicate StaleClaim(v: View, h: Header, j: nat) {
    && j in h.myslots && j in v.owner && v.owner[j] != h.sender
    && v.owner[j] in v.nodes && h.configEpoch < v.nodes[v.owner[j]].configEpoch
  }

  predicate IsFirstStale(v: View, h: Header, j: nat) {
    StaleClaim(v, h, j) && forall k :: k in h.myslots && StaleClaim(v, h, k) ==> j <= k
  }

  /** The UPDATE about the first stale slot, if there is one (lines 1841-1866). */
  ghost function StaleUpdates(v: View, h: Header): set<Msg>
    requires Known(v)
  {
    if exists j :: IsFirstStale(v, h, j) then
      var j :| IsFirstStale(v, h, j);
      var o := v.owner[j];
      {Msg(h.sender, BuildHeader(v), Update(o, v.nodes[o].configEpoch, SlotsOf(v, o)))}
    else {}
  }

  /** Lines 1764-1826, after the header is absorbed: role first, then the claimed slots. */
  function ApplyClaim(v: View, h: Header): (w: View)
    requires Known(v)
    requires h.sender in v.nodes
    ensures w.nodes.Keys == v.nodes.Keys && SameEpochs(v, w)
    ensures Known(w) && KeepsElection(v, w)
  {
    var u := UpdateRole(v, h);
    if u.nodes[h.sender].master && DirtySlots(u, h) then UpdateSlots(u, h.sender, h.configEpoch, h.myslots) else u
  }

  /** clusterProcessPacket for a PING or PONG. */
  function ProcessPing(v: View, h: Header): (w: View)
    requires Known(v)
    ensures w.nodes.Keys == v.nodes.Keys
    ensures Known(w) && KeepsElection(v, w)
  {
    if h.sender !in v.nodes then v else
      var u := ApplyClaim(AbsorbHeader(v, h), h);
      if !u.down && Me(u).master && u.nodes[h.sender].master && h.configEpoch == Me(u).configEpoch
      then HandleCollision(u, h.sender)
      else u
  }

  /** What that packet makes the node send: a PONG for a PING, an UPDATE when the claim is out of date. */
  ghost function PingReplies(v: View, h: Header, wantsPong: bool): set<Msg>
    requires Known(v)
  {
    var a := AbsorbHeader(v, h);
    (if wantsPong then {Msg(h.sender, BuildHeader(a), Ping(false))} else {}) +
    (if h.sender in a.nodes && DirtySlots(UpdateRole(a, h), h) && !ApplyClaim(a, h).down
     then StaleUpdates(ApplyClaim(a, h), h) else {})
  }

  /** clusterProcessPacket for an UPDATE (lines 1953-1974). */
  function ProcessUpdate(v: View, h: Header, about: Id, epoch: nat, claimed: set<nat>): (w: View)
    requires Known(v)
    ensures w.nodes.Keys == v.nodes.Keys
    ensures Known(w) && KeepsElection(v, w)
  {
    var a := AbsorbHeader(v, h);
    if h.sender !in a.nodes || about !in a.nodes || epoch <= a.nodes[about].configEpoch then a else
      var b := SetNodeAsMaster(a, about);
      UpdateSlots(b.(nodes := b.nodes[about := b.nodes[about].(configEpoch := epoch)]), about, epoch, claimed)
  }

  // ----- Elections

  /** Whether clusterSendFailoverAuthIfNeeded grants its vote, header already absorbed. */
  predicate Grants(v: View, h: Header, c: Clock)
    requires Known(v)
  {
    && h.sender in v.nodes
    && Me(v).master && ServesSlots(v, v.myself)
    && v.currentEpoch <= h.currentEpoch
    && v.lastVoteEpoch != v.currentEpoch
    && var n := v.nodes[h.sender];
    && !n.master && n.slaveof.Some?
    && (v.nodes[n.slaveof.value].failed || h.forceAck)
    && 2 * c.timeout <= c.now - v.nodes[n.slaveof.value].votedTime
    && (forall j :: j in h.myslots && j in v.owner ==> v.nodes[v.owner[j]].configEpoch <= h.configEpoch)
  }

  function RecordVote(v: View, h: Header, c: Clock): View
    requires Known(v)
    requires Grants(v, h, c)
  {
    var m := v.nodes[h.sender].slaveof.value;
    v.(lastVoteEpoch := v.currentEpoch, nodes := v.nodes[m := v.nodes[m].(votedTime := c.now)])
  }

  /** Lines 1928-1940: an ACK is counted whenever its epoch is not below the recorded election epoch. */
  predicate Counts(v: View, h: Header) {
    h.sender in v.nodes && v.nodes[h.sender].master && ServesSlots(v, h.sender) && v.authEpoch <= h.currentEpoch
  }

  function ProcessAuthAck(v: View, h: Header): View {
    var a := AbsorbHeader(v, h);
    if Counts(a, h) then a.(authCount := a.authCount + 1) else a
  }

  datatype FailoverStep = Idle | Reset | Postpone | Wait | Ask | Win

  function AuthTimeout(c: Clock): int { if c.timeout * 2 < 2000 then 2000 else c.timeout * 2 }

  /** Lines 2704-2869: which branch clusterHandleSlaveFailover takes. */
  function FailoverBranch(v: View, c: Clock): FailoverStep
    requires Known(v)
  {
    var manual := v.manualEnd && v.manualCanStart;
    var age := c.now - v.authTime;
    if Me(v).master || Me(v).slaveof.None? || (!v.nodes[Me(v).slaveof.value].failed && !manual)
       || !ServesSlots(v, Me(v).slaveof.value) then Idle
    else if !c.dataFresh && !manual then Idle
    else if 2 * AuthTimeout(c) < age then Reset
    else if c.now < v.authTime + (if !v.authSent && !v.manualEnd then c.rankDelay else 0) then Postpone
    else if AuthTimeout(c) < age then Postpone
    else if !v.authSent then Ask
    else if v.size / 2 + 1 <= v.authCount then Win
    else Wait
  }

  function StartElection(v: View): View {
    v.(currentEpoch := v.currentEpoch + 1, authEpoch := v.currentEpoch + 1, authSent := true)
  }

  function RaiseConfigEpoch(v: View): (w: View)
    requires Known(v)
    ensures Known(w)
  {
    v.(nodes := v.nodes[v.myself := Me(v).(configEpoch := Max(Me(v).configEpoch, v.authEpoch))])
  }

  /** clusterHandleSlaveFailover. */
  function HandleFailover(v: View, c: Clock): (w: View)
    requires Known(v)
    ensures w.myself == v.myself && w.lastVoteEpoch == v.lastVoteEpoch
    ensures !FailoverBranch(v, c).Win? ==> w.nodes == v.nodes && w.owner == v.owner
    ensures FailoverBranch(v, c).Ask? ==> w.authEpoch == w.currentEpoch == v.currentEpoch + 1
    ensures !FailoverBranch(v, c).Ask? ==> w.authEpoch == v.authEpoch && w.currentEpoch == v.currentEpoch
  {
    match FailoverBranch(v, c)
    case Idle => v
    case Wait => v
    case Reset =>
      v.(authTime := if v.manualEnd then c.now else c.now + 500 + c.delay, authCount := 0, authSent := false)
    case Postpone =>
      v.(authTime := v.authTime + (if !v.authSent && !v.manualEnd then c.rankDelay else 0))
    case Ask =>
      StartElection(v).(authTime := v.authTime + (if !v.authSent && !v.manualEnd then c.rankDelay else 0))
    case Win => ReplaceMaster(RaiseConfigEpoch(v))
  }
}
