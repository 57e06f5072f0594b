/** Jobs of one priority start in the order of their submission. */
module GpuSchedulerOrder {
  // Preempted jobs wait at the front of their queue; behind them, the jobs that have not
  // started yet wait in the order in which they were submitted, all later than any job of
  // their priority that has started.

  import opened Wrappers
  import opened GpuSchedulerModel
  import opened GpuSchedulerProofs

  /** The number of the submission of each job known so far. */
  type Ranks = map<string, nat>

  predicate Started(j: Job) {
    j.status in {Running, Preempted, Completed, Failed}
  }

  predicate Earlier(rank: Ranks, x: Job, y: Job) {
    x.id in rank && y.id in rank && rank[x.id] < rank[y.id]
  }

  // Every started job of this priority was submitted before y.
  ghost predicate StartedEarlier(jobs: seq<Job>, p: Priority, y: Job, rank: Ranks) {
    forall i :: 0 <= i < |jobs| && jobs[i].priority == p && Started(jobs[i]) ==> Earlier(rank, jobs[i], y)
  }

  predicate InOrder(q: seq<Job>, rank: Ranks) {
    && (forall i :: 0 <= i < |q| ==> q[i].status == Pending || q[i].status == Preempted)
    && (forall i, j :: 0 <= i < j < |q| && q[j].status == Preempted ==> q[i].status == Preempted)
    && (forall i, j :: 0 <= i < j < |q| && q[j].status == Pending ==> Earlier(rank, q[i], q[j]))
  }

  ghost predicate QueueFifo(q: seq<Job>, p: Priority, active: seq<Job>, completed: seq<Job>, rank: Ranks) {
    && InOrder(q, rank)
    && forall j :: 0 <= j < |q| && q[j].status == Pending ==>
         StartedEarlier(active, p, q[j], rank) && StartedEarlier(completed, p, q[j], rank)
  }

  predicate Ranked(jobs: seq<Job>, rank: Ranks, n: nat) {
    forall i :: 0 <= i < |jobs| ==> jobs[i].id in rank && rank[jobs[i].id] < n
  }

  /** All jobs have a number below n, queues are in order, and the running ones are marked so. */
  ghost predicate Fifo(c: Cluster, rank: Ranks, n: nat)
    requires HasQueues(c)
  {
    && Ranked(c.active, rank, n) && Ranked(c.completed, rank, n)
    && (forall i :: 0 <= i < |c.active| ==> c.active[i].status == Running)
    && (forall i :: 0 <= i < |c.completed| ==> c.completed[i].status in {Completed, Failed, Cancelled})
    && (forall p: Priority :: Ranked(c.queues[p], rank, n))
    && (forall p: Priority :: QueueFifo(c.queues[p], p, c.active, c.completed, rank))
  }

  // ----- each movement of a job -----

  lemma StartedAppend(jobs: seq<Job>, x: Job, p: Priority, y: Job, rank: Ranks)
    requires StartedEarlier(jobs, p, y, rank) && (x.priority == p && Started(x) ==> Earlier(rank, x, y))
    ensures StartedEarlier(jobs + [x], p, y, rank)
  {
  }

  lemma StartedRemove(jobs: seq<Job>, i: nat, p: Priority, y: Job, rank: Ranks)
    requires i < |jobs| && StartedEarlier(jobs, p, y, rank)
    ensures StartedEarlier(RemoveAt(jobs, i), p, y, rank)
  {
  }

  lemma RankedRemove(jobs: seq<Job>, i: nat, rank: Ranks, n: nat)
    requires i < |jobs| && Ranked(jobs, rank, n)
    ensures Ranked(RemoveAt(jobs, i), rank, n)
  {
  }

  lemma ScheduleQueue(q: seq<Job>, p: Priority, active: seq<Job>, completed: seq<Job>, rank: Ranks, job: Job)
    requires q != [] && QueueFifo(q, p, active, completed, rank) && job == q[0].(status := Running)
    ensures QueueFifo(q[1..], p, active + [job], completed, rank)
  {
    forall j | 0 <= j < |q[1..]| && q[1..][j].status == Pending
      ensures StartedEarlier(active + [job], p, q[1..][j], rank) && StartedEarlier(completed, p, q[1..][j], rank)
    {
      assert q[1..][j] == q[j + 1] && Earlier(rank, q[0], q[j + 1]);
      StartedAppend(active, job, p, q[j + 1], rank);
    }
  }

  lemma OtherQueue(q: seq<Job>, p: Priority, active: seq<Job>, completed: seq<Job>, rank: Ranks, job: Job)
    requires QueueFifo(q, p, active, completed, rank) && job.priority != p
    ensures QueueFifo(q, p, active + [job], completed, rank)
  {
    forall j | 0 <= j < |q| && q[j].status == Pending ensures StartedEarlier(active + [job], p, q[j], rank) {
      StartedAppend(active, job, p, q[j], rank);
    }
  }

  lemma ScheduleFifo(c: Cluster, p: Priority, rank: Ranks, n: nat)
    requires Inv(c) && Fifo(c, rank, n) && c.queues[p] != [] && CanSchedule(c, c.queues[p][0])
    ensures Inv(ScheduleHead(c, p)) && Fifo(ScheduleHead(c, p), rank, n)
  {
    var c', job := ScheduleHead(c, p), c.queues[p][0].(status := Running);
    ScheduleInv(c, p);
    assert QueueOk(c.config, p, c.queues[p]);
    forall o: Priority
      ensures QueueFifo(c'.queues[o], o, c'.active, c'.completed, rank) && Ranked(c'.queues[o], rank, n)
    {
      assert Ranked(c.queues[o], rank, n) && QueueFifo(c.queues[o], o, c.active, c.completed, rank);
      if o == p {
        ScheduleQueue(c.queues[p], p, c.active, c.completed, rank, job);
      } else {
        OtherQueue(c.queues[o], o, c.active, c.completed, rank, job);
      }
    }
    assert Ranked(c.queues[p], rank, n);
  }

  lemma PreemptQueue(q: seq<Job>, p: Priority, active: seq<Job>, completed: seq<Job>, rank: Ranks, i: nat)
    requires i < |active| && QueueFifo(q, p, active, completed, rank)
    requires active[i].status == Running && active[i].id in rank
    ensures QueueFifo(if active[i].priority == p then [active[i].(status := Preempted)] + q else q,
                      p, RemoveAt(active, i), completed, rank)
  {
    var job := active[i].(status := Preempted);
    forall j | 0 <= j < |q| && q[j].status == Pending
      ensures StartedEarlier(RemoveAt(active, i), p, q[j], rank)
      ensures active[i].priority == p ==> Earlier(rank, job, q[j])
    {
      StartedRemove(active, i, p, q[j], rank);
    }
  }

  lemma PreemptFifo(c: Cluster, i: nat, rank: Ranks, n: nat)
    requires Inv(c) && Fifo(c, rank, n) && i < |c.active|
    ensures Inv(Preempt(c, i)) && Fifo(Preempt(c, i), rank, n)
  {
    var c' := Preempt(c, i);
    PreemptInv(c, i);
    RankedRemove(c.active, i, rank, n);
    forall o: Priority
      ensures QueueFifo(c'.queues[o], o, c'.active, c'.completed, rank) && Ranked(c'.queues[o], rank, n)
    {
      assert Ranked(c.queues[o], rank, n) && QueueFifo(c.queues[o], o, c.active, c.completed, rank);
      PreemptQueue(c.queues[o], o, c.active, c.completed, rank, i);
    }
  }

  lemma {:induction false} PhaseFifo(c: Cluster, p: Priority, rank: Ranks, n: nat)
    requires Inv(c) && Fifo(c, rank, n)
    ensures Inv(Phase(c, p).0) && Fifo(Phase(c, p).0, rank, n)
    decreases |c.queues[p]|, |c.active|
  {
    if c.queues[p] != [] {
      if CanSchedule(c, c.queues[p][0]) {
        ScheduleFifo(c, p, rank, n);
        PhaseFifo(ScheduleHead(c, p), p, rank, n);
      } else if p == CRITICAL && c.config.preemption && Target(c.active, c.queues[p][0]).Some? {
        var v := Target(c.active, c.queues[CRITICAL][0]).value;
        PreemptFifo(c, v, rank, n);
        PhaseFifo(Preempt(c, v), p, rank, n);
      }
    }
  }

  lemma PassFifo(c: Cluster, rank: Ranks, n: nat)
    requires Inv(c) && Fifo(c, rank, n)
    ensures Inv(Pass(c).0) && Fifo(Pass(c).0, rank, n)
  {
    PassUnfolds(c);
    PhaseFifo(c, CRITICAL, rank, n);
    var c1 := Phase(c, CRITICAL).0;
    PhaseFifo(c1, HIGH, rank, n);
    var c2 := Phase(c1, HIGH).0;
    PhaseFifo(c2, MEDIUM, rank, n);
    PhaseFifo(Phase(c2, MEDIUM).0, LOW, rank, n);
  }

  // ----- each operation -----

  // A new number for an id that no job has changes nothing for the jobs there are.
  lemma RankedNew(jobs: seq<Job>, rank: Ranks, n: nat, id: string)
    requires Ranked(jobs, rank, n) && forall i :: 0 <= i < |jobs| ==> jobs[i].id != id
    ensures Ranked(jobs, rank[id := n], n + 1)
  {
  }

  lemma EnqueueQueue(q: seq<Job>, p: Priority, active: seq<Job>, completed: seq<Job>, rank: Ranks, n: nat, job: Job)
    requires QueueFifo(q, p, active, completed, rank) && job.status == Pending
    requires Ranked(q, rank, n) && Ranked(active, rank, n) && Ranked(completed, rank, n)
    requires forall i :: 0 <= i < |q| ==> q[i].id != job.id
    requires forall i :: 0 <= i < |active| ==> active[i].id != job.id
    requires forall i :: 0 <= i < |completed| ==> completed[i].id != job.id
    ensures QueueFifo(if job.priority == p then q + [job] else q, p, active, completed, rank[job.id := n])
  {
    var rank' := rank[job.id := n];
    forall j | 0 <= j < |q| && q[j].status == Pending
      ensures StartedEarlier(active, p, q[j], rank') && StartedEarlier(completed, p, q[j], rank')
    {
      assert StartedEarlier(active, p, q[j], rank) && StartedEarlier(completed, p, q[j], rank);
    }
    assert StartedEarlier(active, p, job, rank') && StartedEarlier(completed, p, job, rank');
    forall i, j | 0 <= i < j < |q| && q[j].status == Pending ensures Earlier(rank', q[i], q[j]) {
      assert Earlier(rank, q[i], q[j]);
    }
  }

  lemma NoneCounted(jobs: seq<Job>, f: Job -> bool)
    requires Count(jobs, f) == 0
    ensures forall i :: 0 <= i < |jobs| ==> !f(jobs[i])
  {
    forall i | 0 <= i < |jobs| ensures !f(jobs[i]) {
      if f(jobs[i]) { CountAtIndex(jobs, f, i); }
    }
  }

  lemma IdAbsent(c: Cluster, id: string, p: Priority)
    requires HasQueues(c) && Total(c, HasId(id)) == 0
    ensures forall i :: 0 <= i < |c.active| ==> c.active[i].id != id
    ensures forall i :: 0 <= i < |c.completed| ==> c.completed[i].id != id
    ensures forall i :: 0 <= i < |c.queues[p]| ==> c.queues[p][i].id != id
  {
    NoneCounted(c.active, HasId(id));
    NoneCounted(c.completed, HasId(id));
    match p { case LOW => case MEDIUM => case HIGH => case CRITICAL => }
    NoneCounted(c.queues[p], HasId(id));
  }

  lemma EnqueueFifo(c: Cluster, job: Job, rank: Ranks, n: nat)
    requires HasQueues(c) && Fifo(c, rank, n) && Total(c, HasId(job.id)) == 0 && job.status == Pending
    ensures Fifo(Enqueue(c, job), rank[job.id := n], n + 1)
  {
    var c', rank' := Enqueue(c, job), rank[job.id := n];
    forall o: Priority
      ensures QueueFifo(c'.queues[o], o, c'.active, c'.completed, rank') && Ranked(c'.queues[o], rank', n + 1)
    {
      IdAbsent(c, job.id, o);
      assert Ranked(c.queues[o], rank, n) && QueueFifo(c.queues[o], o, c.active, c.completed, rank);
      RankedNew(c.queues[o], rank, n, job.id);
      EnqueueQueue(c.queues[o], o, c.active, c.completed, rank, n, job);
    }
    IdAbsent(c, job.id, LOW);
    RankedNew(c.active, rank, n, job.id);
    RankedNew(c.completed, rank, n, job.id);
  }

  lemma FinishQueue(q: seq<Job>, p: Priority, active: seq<Job>, completed: seq<Job>, rank: Ranks, i: nat, job: Job)
    requires i < |active| && QueueFifo(q, p, active, completed, rank) && active[i].status == Running
    requires job.id == active[i].id && job.priority == active[i].priority
    ensures QueueFifo(q, p, RemoveAt(active, i), completed + [job], rank)
  {
    forall j | 0 <= j < |q| && q[j].status == Pending
      ensures StartedEarlier(RemoveAt(active, i), p, q[j], rank) && StartedEarlier(completed + [job], p, q[j], rank)
    {
      StartedRemove(active, i, p, q[j], rank);
      if job.priority == p { assert Earlier(rank, active[i], q[j]); }
      StartedAppend(completed, job, p, q[j], rank);
    }
  }

  lemma FinishFifo(c: Cluster, i: nat, success: bool, rank: Ranks, n: nat)
    requires Inv(c) && Fifo(c, rank, n) && i < |c.active|
    ensures Inv(Finish(c, i, success)) && Fifo(Finish(c, i, success), rank, n)
  {
    var c' := Finish(c, i, success);
    FinishInv(c, i, success);
    RankedRemove(c.active, i, rank, n);
    forall o: Priority ensures QueueFifo(c'.queues[o], o, c'.active, c'.completed, rank) {
      assert QueueFifo(c.queues[o], o, c.active, c.completed, rank);
      FinishQueue(c.queues[o], o, c.active, c.completed, rank, i, c'.completed[|c.completed|]);
    }
  }

  lemma WithdrawQueue(q: seq<Job>, p: Priority, active: seq<Job>, completed: seq<Job>, rank: Ranks, i: nat, job: Job)
    requires i < |q| && QueueFifo(q, p, active, completed, rank) && job.status == Cancelled
    ensures QueueFifo(RemoveAt(q, i), p, active, completed + [job], rank)
    ensures QueueFifo(q, p, active, completed + [job], rank)
  {
    forall j | 0 <= j < |q| && q[j].status == Pending ensures StartedEarlier(completed + [job], p, q[j], rank) {
      StartedAppend(completed, job, p, q[j], rank);
    }
  }

  lemma UntouchedQueue(q: seq<Job>, p: Priority, active: seq<Job>, completed: seq<Job>, rank: Ranks, job: Job)
    requires QueueFifo(q, p, active, completed, rank) && job.status == Cancelled
    ensures QueueFifo(q, p, active, completed + [job], rank)
  {
    forall j | 0 <= j < |q| && q[j].status == Pending ensures StartedEarlier(completed + [job], p, q[j], rank) {
      StartedAppend(completed, job, p, q[j], rank);
    }
  }

  lemma WithdrawFifo(c: Cluster, p: Priority, i: nat, rank: Ranks, n: nat)
    requires HasQueues(c) && Fifo(c, rank, n) && i < |c.queues[p]|
    ensures Fifo(Withdraw(c, p, i), rank, n)
  {
    var c', job := Withdraw(c, p, i), c.queues[p][i].(status := Cancelled);
    assert Ranked(c.queues[p], rank, n);
    forall o: Priority
      ensures QueueFifo(c'.queues[o], o, c'.active, c'.completed, rank) && Ranked(c'.queues[o], rank, n)
    {
      assert Ranked(c.queues[o], rank, n) && QueueFifo(c.queues[o], o, c.active, c.completed, rank);
      if o == p {
        RankedRemove(c.queues[p], i, rank, n);
        WithdrawQueue(c.queues[p], p, c.active, c.completed, rank, i, job);
      } else {
        UntouchedQueue(c.queues[o], o, c.active, c.completed, rank, job);
      }
    }
  }

  lemma {:induction false} CancelQueuedFifo(c: Cluster, id: string, order: seq<Priority>, rank: Ranks, n: nat)
    requires HasQueues(c) && Fifo(c, rank, n)
    ensures HasQueues(CancelQueued(c, id, order).0) && Fifo(CancelQueued(c, id, order).0, rank, n)
  {
    if order != [] {
      var at := IndexOf(c.queues[order[0]], id);
      if at.Some? {
        WithdrawFifo(c, order[0], at.value, rank, n);
      } else {
        CancelQueuedFifo(c, id, order[1..], rank, n);
      }
    }
  }

  // ----- runs -----

  /** The numbers after an operation: a submission gets the next one. */
  function RanksAfter(rank: Ranks, n: nat, op: Op): Ranks {
    if op.OpSubmit? then rank[op.id := n] else rank
  }

  lemma MoreRanks(c: Cluster, rank: Ranks, n: nat)
    requires HasQueues(c) && Fifo(c, rank, n)
    ensures Fifo(c, rank, n + 1)
  {
    forall p: Priority ensures Ranked(c.queues[p], rank, n + 1) { assert Ranked(c.queues[p], rank, n); }
  }

  lemma EndFifo(c: Cluster, i: nat, success: bool, rank: Ranks, n: nat)
    requires Inv(c) && Fifo(c, rank, n) && i < |c.active|
    ensures var c' := Pass(Finish(c, i, success)).0; Inv(c') && Fifo(c', rank, n + 1)
  {
    FinishFifo(c, i, success, rank, n);
    PassFifo(Finish(c, i, success), rank, n);
    MoreRanks(Pass(Finish(c, i, success)).0, rank, n);
  }

  lemma StepFifo(c: Cluster, op: Op, rank: Ranks, n: nat)
    requires Inv(c) && Fresh(c, op) && Fifo(c, rank, n)
    ensures Inv(Step(c, op)) && Fifo(Step(c, op), RanksAfter(rank, n, op), n + 1)
  {
    StepInv(c, op);
    match op
    case OpSubmit(id, named, gpus, memory) =>
      var job := Request(c.config, id, named, gpus, memory);
      EnqueueInv(c, job);
      EnqueueFifo(c, job, rank, n);
      PassFifo(Enqueue(c, job), rank[id := n], n + 1);
    case OpComplete(id, success) =>
      MoreRanks(c, rank, n);
      if IndexOf(c.active, id).Some? { EndFifo(c, IndexOf(c.active, id).value, success, rank, n); }
    case OpCancel(id) =>
      if IndexOf(c.active, id).Some? {
        EndFifo(c, IndexOf(c.active, id).value, false, rank, n);
      } else {
        CancelQueuedFifo(c, id, CANCEL_ORDER, rank, n);
        MoreRanks(Step(c, op), rank, n);
      }
  }

  /** The numbers after a whole run. */
  function RunRanks(rank: Ranks, n: nat, ops: seq<Op>): Ranks
    decreases |ops|
  {
    if ops == [] then rank else RunRanks(RanksAfter(rank, n, ops[0]), n + 1, ops[1..])
  }

  lemma RunUnfolds(c: Cluster, ops: seq<Op>)
    requires Inv(c) && ops != [] && Run(c, ops).Some?
    ensures Fresh(c, ops[0]) && Inv(Step(c, ops[0])) && Run(c, ops) == Run(Step(c, ops[0]), ops[1..])
  {
    StepInv(c, ops[0]);
  }

  lemma RanksUnfold(rank: Ranks, n: nat, ops: seq<Op>)
    requires ops != []
    ensures RunRanks(RanksAfter(rank, n, ops[0]), n + 1, ops[1..]) == RunRanks(rank, n, ops)
  {
  }

  // The first operation of a run, and what is left of it.
  lemma FirstStep(c: Cluster, ops: seq<Op>, rank: Ranks, n: nat) returns (c1: Cluster, rest: seq<Op>, rank1: Ranks)
    requires Inv(c) && Fifo(c, rank, n) && ops != [] && Run(c, ops).Some?
    ensures Inv(c1) && Fifo(c1, rank1, n + 1) && |rest| + 1 == |ops|
    ensures Run(c1, rest) == Run(c, ops) && RunRanks(rank1, n + 1, rest) == RunRanks(rank, n, ops)
  {
    RunUnfolds(c, ops);
    RanksUnfold(rank, n, ops);
    StepFifo(c, ops[0], rank, n);
    c1, rest, rank1 := Step(c, ops[0]), ops[1..], RanksAfter(rank, n, ops[0]);
  }

  lemma RunEnds(c: Cluster, ops: seq<Op>, rank: Ranks, n: nat)
    requires Inv(c) && ops == []
    ensures Run(c, ops) == Some(c) && RunRanks(rank, n, ops) == rank
  {
  }

  lemma {:induction false} RunFifo(c: Cluster, ops: seq<Op>, rank: Ranks, n: nat, end: Cluster, last: Ranks, m: nat)
    requires Inv(c) && Fifo(c, rank, n) && Run(c, ops) == Some(end)
    requires RunRanks(rank, n, ops) == last && n + |ops| == m
    ensures Inv(end) && Fifo(end, last, m)
    decreases |ops|
  {
    if |ops| == 0 {
      RunEnds(c, ops, rank, n);
    } else {
      var c1, rest, rank1 := FirstStep(c, ops, rank, n);
      RunFifo(c1, rest, rank1, n + 1, end, last, m);
    }
  }

  lemma InitialFifo(config: Config)
    ensures HasQueues(Initial(config)) && Fifo(Initial(config), map[], 0)
  {
    forall p: Priority ensures p in Initial(config).queues && Initial(config).queues[p] == [] {
      match p { case LOW => case MEDIUM => case HIGH => case CRITICAL => }
    }
  }

  // ----- the jobs of a run, by their submissions -----

  /** The job is somewhere in the cluster. */
  ghost predicate InCluster(c: Cluster, x: Job)
    requires HasQueues(c)
  {
    x in c.active || x in c.completed || exists p: Priority :: x in c.queues[p]
  }

  /** The job has this id, but not the priority, GPUs and memory that a submission asked for:
      the priority named or MEDIUM, and the requests cut down to what the cluster allows. */
  function NotAsAsked(config: Config, op: Op): Job -> bool
    requires op.OpSubmit?
  {
    (j: Job) =>
      j.id == op.id &&
      !(&& j.priority == (if op.named.Some? then op.named.value else MEDIUM)
        && j.gpus == (if op.gpus < config.maxTrainingGpus then op.gpus else config.maxTrainingGpus)
        && j.memory == (if op.memory < config.gpuMemory then op.memory else config.gpuMemory))
  }

  lemma {:induction false} CountFewer(jobs: seq<Job>, f: Job -> bool, g: Job -> bool)
    requires forall j :: f(j) ==> g(j)
    ensures Count(jobs, f) <= Count(jobs, g)
  {
    if jobs != [] { CountFewer(jobs[..|jobs| - 1], f, g); }
  }

  lemma TotalFewer(c: Cluster, f: Job -> bool, g: Job -> bool)
    requires HasQueues(c) && forall j :: f(j) ==> g(j)
    ensures Total(c, f) <= Total(c, g)
  {
    CountFewer(c.queues[LOW], f, g);
    CountFewer(c.queues[MEDIUM], f, g);
    CountFewer(c.queues[HIGH], f, g);
    CountFewer(c.queues[CRITICAL], f, g);
    CountFewer(c.active, f, g);
    CountFewer(c.completed, f, g);
  }

  lemma NoneInCluster(c: Cluster, f: Job -> bool, x: Job)
    requires HasQueues(c) && Total(c, f) == 0 && InCluster(c, x)
    ensures !f(x)
  {
    NoneCounted(c.active, f);
    NoneCounted(c.completed, f);
    NoneCounted(c.queues[LOW], f);
    NoneCounted(c.queues[MEDIUM], f);
    NoneCounted(c.queues[HIGH], f);
    NoneCounted(c.queues[CRITICAL], f);
    if x !in c.active && x !in c.completed {
      var p: Priority :| x in c.queues[p];
      match p { case LOW => case MEDIUM => case HIGH => case CRITICAL => }
    }
  }

  lemma StepKeepsConfig(c: Cluster, op: Op)
    requires Inv(c) && Fresh(c, op)
    ensures Inv(Step(c, op)) && Step(c, op).config == c.config
  {
    StepInv(c, op);
    match op
    case OpSubmit(id, named, gpus, memory) =>
      EnqueueInv(c, Request(c.config, id, named, gpus, memory));
      PassKeepsConfig(Enqueue(c, Request(c.config, id, named, gpus, memory)));
    case OpComplete(id, success) =>
      if IndexOf(c.active, id).Some? { FinishKeepsConfig(c, IndexOf(c.active, id).value, success); }
    case OpCancel(id) =>
      if IndexOf(c.active, id).Some? {
        FinishKeepsConfig(c, IndexOf(c.active, id).value, false);
      } else {
        CancelKeepsConfig(c, id, CANCEL_ORDER);
      }
  }

  lemma PassKeepsConfig(c: Cluster)
    requires Inv(c)
    ensures Pass(c).0.config == c.config
  {
    AfterCriticalPersists(c);
  }

  lemma FinishKeepsConfig(c: Cluster, i: nat, success: bool)
    requires Inv(c) && i < |c.active|
    ensures Pass(Finish(c, i, success)).0.config == c.config
  {
    FinishInv(c, i, success);
    PassKeepsConfig(Finish(c, i, success));
  }

  lemma {:induction false} CancelKeepsConfig(c: Cluster, id: string, order: seq<Priority>)
    requires HasQueues(c)
    ensures CancelQueued(c, id, order).0.config == c.config
  {
    if order != [] && IndexOf(c.queues[order[0]], id) == None { CancelKeepsConfig(c, id, order[1..]); }
  }

  lemma NotAsAskedBlind(config: Config, op: Op)
    requires op.OpSubmit?
    ensures StatusBlind(NotAsAsked(config, op))
  {
  }

  // An id that is taken is not submitted again, and its job keeps its fields.
  lemma StepKeepsFields(c: Cluster, op: Op, asked: Op)
    requires Inv(c) && Fresh(c, op) && asked.OpSubmit? && Total(c, HasId(asked.id)) == 1
    requires Total(c, NotAsAsked(c.config, asked)) == 0
    ensures Inv(Step(c, op)) && Total(Step(c, op), HasId(asked.id)) == 1
    ensures Total(Step(c, op), NotAsAsked(c.config, asked)) == 0
  {
    KnownStays(c, op, asked.id);
    StepInv(c, op);
    NotAsAskedBlind(c.config, asked);
    if op.OpSubmit? {
      var job := Request(c.config, op.id, op.named, op.gpus, op.memory);
      assert op.id != asked.id && job.id == op.id;
      assert !NotAsAsked(c.config, asked)(job);
      SubmitInv(c, op.id, op.named, op.gpus, op.memory);
    }
  }

  lemma SubmitSetsFields(c: Cluster, op: Op)
    requires Inv(c) && Fresh(c, op) && op.OpSubmit?
    ensures Inv(Step(c, op)) && Total(Step(c, op), HasId(op.id)) == 1
    ensures Total(Step(c, op), NotAsAsked(c.config, op)) == 0
  {
    SubmittedIsKnown(c, op);
    TotalFewer(c, NotAsAsked(c.config, op), HasId(op.id));
    NotAsAskedBlind(c.config, op);
    SubmitInv(c, op.id, op.named, op.gpus, op.memory);
  }

  lemma {:induction false} RunKeepsFields(c: Cluster, ops: seq<Op>, asked: Op)
    requires Inv(c) && Run(c, ops).Some? && asked.OpSubmit? && Total(c, HasId(asked.id)) == 1
    requires Total(c, NotAsAsked(c.config, asked)) == 0
    ensures HasQueues(Run(c, ops).value) && Total(Run(c, ops).value, NotAsAsked(c.config, asked)) == 0
    decreases |ops|
  {
    if ops != [] {
      RunUnfolds(c, ops);
      StepKeepsFields(c, ops[0], asked);
      StepKeepsConfig(c, ops[0]);
      RunKeepsFields(Step(c, ops[0]), ops[1..], asked);
    }
  }

  lemma {:induction false} RunSetsFields(c: Cluster, ops: seq<Op>, i: nat)
    requires Inv(c) && Run(c, ops).Some? && i < |ops| && ops[i].OpSubmit?
    ensures HasQueues(Run(c, ops).value) && Total(Run(c, ops).value, NotAsAsked(c.config, ops[i])) == 0
    decreases |ops|
  {
    RunUnfolds(c, ops);
    StepKeepsConfig(c, ops[0]);
    if i == 0 {
      SubmitSetsFields(c, ops[0]);
      RunKeepsFields(Step(c, ops[0]), ops[1..], ops[0]);
    } else {
      assert ops[1..][i - 1] == ops[i];
      RunSetsFields(Step(c, ops[0]), ops[1..], i - 1);
    }
  }

  // ----- numbers are submission numbers -----

  lemma {:induction false} KnownNotResubmitted(c: Cluster, ops: seq<Op>, id: string, k: nat)
    requires Inv(c) && Run(c, ops).Some? && Total(c, HasId(id)) == 1 && k < |ops| && ops[k].OpSubmit?
    ensures ops[k].id != id
    decreases |ops|
  {
    RunUnfolds(c, ops);
    if k > 0 {
      KnownStays(c, ops[0], id);
      assert ops[1..][k - 1] == ops[k];
      KnownNotResubmitted(Step(c, ops[0]), ops[1..], id, k - 1);
    }
  }

  // Only the first submission of an id numbers it.
  lemma {:induction false} RankStays(ops: seq<Op>, rank: Ranks, n: nat, id: string)
    requires id in rank && forall k :: 0 <= k < |ops| && ops[k].OpSubmit? ==> ops[k].id != id
    ensures id in RunRanks(rank, n, ops) && RunRanks(rank, n, ops)[id] == rank[id]
    decreases |ops|
  {
    if ops != [] { RankStays(ops[1..], RanksAfter(rank, n, ops[0]), n + 1, id); }
  }

  lemma {:induction false} RankIs(ops: seq<Op>, rank: Ranks, n: nat, i: nat)
    requires i < |ops| && ops[i].OpSubmit?
    requires forall k :: i < k < |ops| && ops[k].OpSubmit? ==> ops[k].id != ops[i].id
    ensures ops[i].id in RunRanks(rank, n, ops) && RunRanks(rank, n, ops)[ops[i].id] == n + i
    decreases |ops|
  {
    var rest := ops[1..];
    RanksUnfold(rank, n, ops);
    if i == 0 {
      RankStays(rest, RanksAfter(rank, n, ops[0]), n + 1, ops[0].id);
    } else {
      assert rest[i - 1] == ops[i];
      RankIs(rest, RanksAfter(rank, n, ops[0]), n + 1, i - 1);
    }
  }

  // An accepted run submits no id twice.
  lemma {:induction false} NotResubmitted(c: Cluster, ops: seq<Op>, i: nat, k: nat)
    requires Inv(c) && Run(c, ops).Some? && i < k < |ops| && ops[i].OpSubmit? && ops[k].OpSubmit?
    ensures ops[k].id != ops[i].id
    decreases |ops|
  {
    RunUnfolds(c, ops);
    var rest := ops[1..];
    assert rest[k - 1] == ops[k];
    if i == 0 {
      SubmittedIsKnown(c, ops[0]);
      KnownNotResubmitted(Step(c, ops[0]), rest, ops[0].id, k - 1);
    } else {
      assert rest[i - 1] == ops[i];
      NotResubmitted(Step(c, ops[0]), rest, i - 1, k - 1);
    }
  }

  // ----- first come, first served -----

  lemma PendingWaits(c: Cluster, rank: Ranks, n: nat, a: Job) returns (j: nat)
    requires Inv(c) && Fifo(c, rank, n) && InCluster(c, a) && a.status == Pending
    ensures j < |c.queues[a.priority]| && c.queues[a.priority][j] == a
  {
    var p: Priority :| a in c.queues[p];
    assert QueueOk(c.config, p, c.queues[p]);
    j :| 0 <= j < |c.queues[p]| && c.queues[p][j] == a;
  }

  lemma StartedAfterPending(c: Cluster, rank: Ranks, n: nat, a: Job, b: Job)
    requires Inv(c) && Fifo(c, rank, n) && InCluster(c, a) && InCluster(c, b)
    requires a.priority == b.priority && a.status == Pending && Started(b)
    ensures Earlier(rank, b, a)
  {
    var p := a.priority;
    var j := PendingWaits(c, rank, n, a);
    assert QueueFifo(c.queues[p], p, c.active, c.completed, rank);
    if b in c.active {
      var i :| 0 <= i < |c.active| && c.active[i] == b;
    } else if b in c.completed {
      var i :| 0 <= i < |c.completed| && c.completed[i] == b;
    } else {
      var o: Priority :| b in c.queues[o];
      assert QueueOk(c.config, o, c.queues[o]);
      var i :| 0 <= i < |c.queues[p]| && c.queues[p][i] == b;
      QueuedEarlier(c.queues[p], rank, i, j);
    }
  }

  lemma QueuedEarlier(q: seq<Job>, rank: Ranks, i: nat, j: nat)
    requires InOrder(q, rank) && i < |q| && j < |q| && q[j].status == Pending && q[i].status == Preempted
    ensures Earlier(rank, q[i], q[j])
  {
  }

  lemma StartedIsEarlier(c: Cluster, rank: Ranks, n: nat, a: Job, b: Job)
    requires Inv(c) && Fifo(c, rank, n) && InCluster(c, a) && InCluster(c, b) && a.priority == b.priority
    ensures a.status == Pending && Started(b) ==> Earlier(rank, b, a)
  {
    if a.status == Pending && Started(b) { StartedAfterPending(c, rank, n, a, b); }
  }

  /** The clusters that runs from a new one reach. */
  ghost predicate Reached(config: Config, ops: seq<Op>, c: Cluster) {
    ConfigOk(config) && Inv(Initial(config)) && Run(Initial(config), ops) == Some(c) && HasQueues(c)
  }

  lemma ReachedFifo(config: Config, ops: seq<Op>, c: Cluster)
    requires Reached(config, ops, c)
    ensures Inv(c) && Fifo(c, RunRanks(map[], 0, ops), |ops|)
  {
    InitialFifo(config);
    RunFifo(Initial(config), ops, map[], 0, c, RunRanks(map[], 0, ops), |ops|);
  }

  lemma ReachedRank(config: Config, ops: seq<Op>, c: Cluster, i: nat)
    requires Reached(config, ops, c) && i < |ops| && ops[i].OpSubmit?
    ensures ops[i].id in RunRanks(map[], 0, ops) && RunRanks(map[], 0, ops)[ops[i].id] == i
  {
    forall k | i < k < |ops| && ops[k].OpSubmit? ensures ops[k].id != ops[i].id {
      NotResubmitted(Initial(config), ops, i, k);
    }
    RankIs(ops, map[], 0, i);
  }

  /** In every run, of two jobs of one priority the one submitted first also starts first: while
      it still waits to start for the first time, the other one has not started either. */
  lemma FirstComeFirstServed(config: Config, ops: seq<Op>, c: Cluster, i: nat, j: nat, a: Job, b: Job)
    requires Reached(config, ops, c) && i < j < |ops| && ops[i].OpSubmit? && ops[j].OpSubmit?
    requires InCluster(c, a) && InCluster(c, b)
    requires a.id == ops[i].id && b.id == ops[j].id && a.priority == b.priority
    ensures Started(b) ==> a.status != Pending
  {
    ReachedFifo(config, ops, c);
    ReachedRank(config, ops, c, i);
    ReachedRank(config, ops, c, j);
    StartedIsEarlier(c, RunRanks(map[], 0, ops), |ops|, a, b);
  }

  /** Each queue lists its jobs in the order of their submissions, save among preempted jobs,
      which are all at its front. */
  lemma QueuesInSubmissionOrder(config: Config, ops: seq<Op>, c: Cluster, p: Priority, i: nat, j: nat, k: nat, l: nat)
    requires Reached(config, ops, c) && i < j < |c.queues[p]|
    requires k < |ops| && l < |ops| && ops[k].OpSubmit? && ops[l].OpSubmit?
    requires c.queues[p][i].id == ops[k].id && c.queues[p][j].id == ops[l].id
    ensures c.queues[p][j].status == Pending ==> k < l
    ensures c.queues[p][j].status == Preempted ==> c.queues[p][i].status == Preempted
  {
    ReachedFifo(config, ops, c);
    ReachedRank(config, ops, c, k);
    ReachedRank(config, ops, c, l);
    assert QueueFifo(c.queues[p], p, c.active, c.completed, RunRanks(map[], 0, ops));
  }

  /** Wherever a submitted job is, it has the priority that was named, or MEDIUM if none was,
      and what it requested, cut down to the training quota and to one GPU's memory. */
  lemma SubmittedAsAsked(config: Config, ops: seq<Op>, c: Cluster, i: nat, x: Job)
    requires Reached(config, ops, c) && i < |ops| && ops[i].OpSubmit? && InCluster(c, x) && x.id == ops[i].id
    ensures x.priority == (if ops[i].named.Some? then ops[i].named.value else MEDIUM)
    ensures x.gpus == (if ops[i].gpus < config.maxTrainingGpus then ops[i].gpus else config.maxTrainingGpus)
    ensures x.memory == (if ops[i].memory < config.gpuMemory then ops[i].memory else config.gpuMemory)
  {
    RunSetsFields(Initial(config), ops, i);
    NoneInCluster(c, NotAsAsked(config, ops[i]), x);
  }
}
