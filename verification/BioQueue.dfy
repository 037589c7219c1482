/**
 bio.c: the background queue of one job type as a state machine over the steps of any number of producers and one
 worker thread, under every interleaving.
 */
module BioQueue {
  import opened Optional
  import opened AdList

  type Job = nat

  /** Where a thread that creates a job or asks for the count stands while it holds the mutex. */
  datatype Client = Locked(job: Job) | Added | Counted | Signalled | Asking

  datatype Worker =
    | Starting                // before its first lock
    | Holding                 // at the top of the loop, with the lock
    | Waiting                 // inside pthread_cond_wait, lock released
    | Woken                   // signalled, not yet back with the lock
    | Chosen(job: Job)        // has read the first job, still with the lock
    | Running(job: Job)       // lock released
    | Finished                // the job has run, lock not yet taken again
    | Deleting                // lock taken again
    | Deleted                 // node deleted, count not yet lowered

  datatype State = State(
    client: Option<Client>,   // the client that holds the mutex
    worker: Worker,
    jobs: seq<Job>,
    pending: int,
    created: seq<Job>,        // history: jobs in the order they were queued
    ran: seq<Job>             // history: jobs in the order they were run
  )

  const INIT := State(None, Starting, [], 0, [], [])

  /** The worker holds the mutex. */
  predicate WorkerLocks(w: Worker) { w.Holding? || w.Chosen? || w.Deleting? || w.Deleted? }

  predicate Free(s: State) { s.client.None? && !WorkerLocks(s.worker) }

  datatype Event =
    | Lock(job: Job) | Add | Count | Signal | Unlock | Ask | Tell
    | Start | Sleep | Spurious | Wake | Choose | Release | Run | Relock | Delete | Lower

  predicate Enabled(s: State, e: Event) {
    match e
    case Lock(_) => Free(s)
    case Add => s.client.Some? && s.client.value.Locked?
    case Count => s.client == Some(Added)
    case Signal => s.client == Some(Counted)
    case Unlock => s.client == Some(Signalled)
    case Ask => Free(s)
    case Tell => s.client == Some(Asking)
    case Start => s.worker.Starting? && Free(s)
    case Sleep => s.worker.Holding? && s.jobs == []
    case Spurious => s.worker.Waiting?
    case Wake => s.worker.Woken? && Free(s)
    case Choose => s.worker.Holding? && s.jobs != []
    case Release => s.worker.Chosen?
    case Run => s.worker.Running?
    case Relock => s.worker.Finished? && Free(s)
    case Delete => s.worker.Deleting?
    case Lower => s.worker.Deleted?
  }

  function Next(s: State, e: Event): State
    requires Enabled(s, e)
  {
    match e
    case Lock(j) => s.(client := Some(Locked(j)))
    case Add =>
      var j := s.client.value.job;
      s.(client := Some(Added), jobs := s.jobs + [j], created := s.created + [j])
    case Count => s.(client := Some(Counted), pending := s.pending + 1)
    case Signal => s.(client := Some(Signalled), worker := if s.worker.Waiting? then Woken else s.worker)
    case Unlock => s.(client := None)
    case Ask => s.(client := Some(Asking))
    case Tell => s.(client := None)
    case Start => s.(worker := Holding)
    case Sleep => s.(worker := Waiting)
    case Spurious => s.(worker := Woken)
    case Wake => s.(worker := Holding)
    case Choose => s.(worker := Chosen(s.jobs[0]))
    case Release => s.(worker := Running(s.worker.job))
    case Run => s.(worker := Finished, ran := s.ran + [s.worker.job])
    case Relock => s.(worker := Deleting)
    case Delete => s.(worker := Deleted, jobs := if s.jobs == [] then [] else s.jobs[1..])
    case Lower => s.(worker := Holding, pending := s.pending - 1)
  }

  /** The first job has run but its node is still in the list. */
  predicate FrontRan(w: Worker) { w.Finished? || w.Deleting? }

  /** The jobs that have not run yet. */
  function Ahead(s: State): seq<Job> { if FrontRan(s.worker) && s.jobs != [] then s.jobs[1..] else s.jobs }

  function InHand(w: Worker): Option<Job> { if w.Chosen? || w.Running? then Some(w.job) else None }

  predicate Inv(s: State) {
    && (s.client.Some? ==> !WorkerLocks(s.worker))
    // Every job created has run or is still ahead, in order.
    && s.created == s.ran + Ahead(s)
    // The job in hand is the first in the list.
    && (InHand(s.worker).Some? || FrontRan(s.worker) ==> s.jobs != [])
    && (InHand(s.worker).Some? ==> InHand(s.worker).value == s.jobs[0])
    // The count is off only while a thread that holds the lock is about to correct it.
    && s.pending == |s.jobs| - (if s.client == Some(Added) then 1 else 0) + (if s.worker.Deleted? then 1 else 0)
    // The worker sleeps on a non-empty list only until the producer that filled it signals.
    && (s.worker.Waiting? && s.jobs != [] ==> s.client == Some(Added) || s.client == Some(Counted))
  }

  lemma StepKeepsInv(s: State, e: Event)
    requires Inv(s) && Enabled(s, e)
    ensures Inv(Next(s, e))
  {
    match e
    case Add => assert s.ran + (Ahead(s) + [s.client.value.job]) == (s.ran + Ahead(s)) + [s.client.value.job];
    case Run => assert s.ran + s.jobs == (s.ran + [s.jobs[0]]) + s.jobs[1..];
    case _ =>
  }

  predicate IsStep(s: State, e: Event, t: State) { Enabled(s, e) && t == Next(s, e) }

  /** A run of the system. */
  predicate IsRun(states: seq<State>, events: seq<Event>) {
    && |states| == |events| + 1 && states[0] == INIT
    && forall i :: 0 <= i < |events| ==> IsStep(states[i], events[i], states[i + 1])
  }

  lemma {:induction false} RunInv(states: seq<State>, events: seq<Event>, k: nat)
    requires IsRun(states, events) && k < |states|
    ensures Inv(states[k])
    decreases k
  {
    if k > 0 {
      RunInv(states, events, k - 1);
      assert IsStep(states[k - 1], events[k - 1], states[k - 1 + 1]);
      StepKeepsInv(states[k - 1], events[k - 1]);
    }
  }

  /** In every state of every run, the jobs that have run are the first ones created, each once and in that order. */
  lemma JobsRunInOrder(states: seq<State>, events: seq<Event>, k: nat)
    requires IsRun(states, events) && k < |states|
    ensures states[k].ran <= states[k].created
  {
    RunInv(states, events, k);
  }

  /** Whenever the lock is free, the count is the length of the list. */
  lemma PendingIsLength(states: seq<State>, events: seq<Event>, k: nat)
    requires IsRun(states, events) && k < |states| && Free(states[k])
    ensures states[k].pending == |states[k].jobs|
  {
    RunInv(states, events, k);
  }

  /** bioPendingJobsOfType: when it tells 0, every job queued before has run. */
  lemma ZeroMeansDone(states: seq<State>, events: seq<Event>, k: nat)
    requires IsRun(states, events) && k < |events| && events[k] == Tell && states[k].pending == 0
    ensures states[k].ran == states[k].created
  {
    RunInv(states, events, k);
    assert IsStep(states[k], events[k], states[k + 1]);
  }

  /** No wakeup is lost: with the lock free and a job in the list, the worker is not asleep. */
  lemma NoLostWakeup(states: seq<State>, events: seq<Event>, k: nat)
    requires IsRun(states, events) && k < |states| && Free(states[k]) && states[k].jobs != []
    ensures !states[k].worker.Waiting?
  {
    RunInv(states, events, k);
  }

  /** The next step of the worker. */
  function WorkerStep(s: State): Event {
    match s.worker
    case Starting => Start
    case Holding => if s.jobs == [] then Sleep else Choose
    case Waiting => Spurious
    case Woken => Wake
    case Chosen(_) => Release
    case Running(_) => Run
    case Finished => Relock
    case Deleting => Delete
    case Deleted => Lower
  }

  /** Steps the worker needs, at most, until the next job has run. */
  function Distance(w: Worker): nat {
    match w
    case Running(_) => 1
    case Chosen(_) => 2
    case Holding => 3
    case Woken => 4
    case Starting => 4
    case Waiting => 5
    case Deleted => 4
    case Deleting => 5
    case Finished => 6
  }

  /**
   Whenever no client is inside the lock and some job has not run, the worker can step by itself, and that step runs
   a job or brings it closer to running one.
   */
  lemma WorkerProgresses(s: State)
    requires Inv(s) && s.client.None? && Ahead(s) != []
    ensures !s.worker.Waiting? && Enabled(s, WorkerStep(s))
    ensures var t := Next(s, WorkerStep(s));
      && t.client.None? && t.created == s.created
      && (s.worker.Running? ==> t.ran == s.ran + [Ahead(s)[0]])
      && (!s.worker.Running? ==> t.ran == s.ran && Ahead(t) == Ahead(s) && Distance(t.worker) < Distance(s.worker))
  {
  }

  /** The state after the worker has taken n steps alone. */
  function Alone(s: State, n: nat): State
    requires Inv(s) && s.client.None? && Ahead(s) != [] && n <= Distance(s.worker)
    decreases Distance(s.worker)
  {
    if n == 0 then s else
      WorkerProgresses(s);
      StepKeepsInv(s, WorkerStep(s));
      var t := Next(s, WorkerStep(s));
      if s.worker.Running? then t else if n - 1 <= Distance(t.worker) then Alone(t, n - 1) else Alone(t, Distance(t.worker))
  }

  /** Left alone, the worker runs the next job in creation order within six steps. */
  lemma {:induction false} NextJobRuns(s: State)
    requires Inv(s) && s.client.None? && Ahead(s) != []
    ensures Distance(s.worker) <= 6 && Alone(s, Distance(s.worker)).ran == s.ran + [Ahead(s)[0]]
    decreases Distance(s.worker)
  {
    WorkerProgresses(s);
    StepKeepsInv(s, WorkerStep(s));
    var t := Next(s, WorkerStep(s));
    if !s.worker.Running? {
      NextJobRuns(t);
      assert t.ran == s.ran;
    }
  }

  // ----- The list and the counter, as the critical sections change them

  class BioJobs {
    const jobs: List<Job>
    var pending: nat

    ghost predicate Valid()
      reads this, jobs, jobs.nodes
    {
      jobs.Valid() && pending == |jobs.nodes|
    }

    constructor ()
      ensures Valid() && fresh(jobs) && jobs.Contents() == []
    {
      jobs := new List();
      pending := 0;
    }

    /** Lines 134-135: the effect of Add and Count. */
    method Create(job: Job)
      requires Valid()
      modifies `pending, jobs, jobs.nodes
      ensures Valid() && jobs.Contents() == old(jobs.Contents()) + [job] && pending == old(pending) + 1
    {
      jobs.AddNodeTail(job);
      pending := pending + 1;
    }

    /** Lines 170-176: the first job, if there is one; its node stays in the list. */
    method First() returns (ln: ListNode?<Job>)
      requires Valid()
      ensures ln == null <==> jobs.Contents() == []
      ensures ln != null ==> ln == jobs.nodes[0] && ln.value == jobs.Contents()[0]
    {
      if jobs.len == 0 { return null; }
      return jobs.head;
    }

    /** Lines 194-195: the effect of Delete and Lower on the node that was first when the job was chosen. */
    method Finish(ln: ListNode<Job>)
      requires Valid() && jobs.nodes != [] && ln == jobs.nodes[0]
      modifies `pending, jobs, jobs.nodes
      ensures Valid() && jobs.Contents() == old(jobs.Contents())[1..] && pending == old(pending) - 1
    {
      jobs.DelNode(ln, 0);
      pending := pending - 1;
    }
  }
}
