/** The GPU scheduler's decisions as functions of the cluster's state.

    `GpuScheduler` proves its state-changing methods equal to these functions, and
    `GpuSchedulerProofs` proves what every reachable cluster satisfies. */
module GpuSchedulerModel {
  import opened Wrappers

  datatype Priority = LOW | MEDIUM | HIGH | CRITICAL {
    function Value(): (v: nat) {
      match this
      case LOW => 1
      case MEDIUM => 2
      case HIGH => 3
      case CRITICAL => 4
    }
  }

  datatype Status = Pending | Running | Preempted | Completed | Failed | Cancelled

  datatype Job = Job(id: string, priority: Priority, gpus: int, memory: int, status: Status)

  datatype Gpu = Gpu(totalMemory: int, allocatedMemory: int, job: Option<string>) {
    predicate IsAvailable() { job.None? }
    function AvailableMemory(): int { totalMemory - allocatedMemory }
    predicate Fits(memory: int) { IsAvailable() && AvailableMemory() >= memory }
  }

  datatype Config = Config(totalGpus: nat, gpuMemory: int, maxTrainingGpus: int, preemption: bool)

  /** `active` is a dictionary by job id in insertion order. */
  datatype Cluster = Cluster(
    config: Config,
    gpus: seq<Gpu>,
    queues: map<Priority, seq<Job>>,
    active: seq<Job>,
    completed: seq<Job>)

  /** `int(total_gpus * quota)` for a quota between 0 and 1. */
  function MaxTrainingGpus(totalGpus: nat, quota: real): int {
    (totalGpus as real * quota).Floor
  }

  function FreshGpus(n: nat, memory: int): seq<Gpu> {
    seq(n, _ => Gpu(memory, 0, None))
  }

  function Initial(config: Config): Cluster {
    Cluster(config, FreshGpus(config.totalGpus, config.gpuMemory),
            map[LOW := [], MEDIUM := [], HIGH := [], CRITICAL := []], [], [])
  }

  // ----- counting -----

  function Busy(gpus: seq<Gpu>): nat {
    if gpus == [] then 0 else (if gpus[0].job.Some? then 1 else 0) + Busy(gpus[1..])
  }

  function Held(gpus: seq<Gpu>, id: string): nat {
    if gpus == [] then 0 else (if gpus[0].job == Some(id) then 1 else 0) + Held(gpus[1..], id)
  }

  function Fitting(gpus: seq<Gpu>, memory: int): nat {
    if gpus == [] then 0 else (if gpus[0].Fits(memory) then 1 else 0) + Fitting(gpus[1..], memory)
  }

  function IndexOf(jobs: seq<Job>, id: string): (i: Option<nat>)
    ensures i.Some? ==> i.value < |jobs| && jobs[i.value].id == id
    ensures i.None? ==> forall k :: 0 <= k < |jobs| ==> jobs[k].id != id
  {
    if jobs == [] then None
    else if jobs[0].id == id then Some(0)
    else
      match IndexOf(jobs[1..], id)
      case Some(k) => Some(k + 1)
      case None => None
  }

  function Training(gpus: seq<Gpu>, active: seq<Job>): nat {
    if gpus == [] then 0
    else (if gpus[0].job.Some? && IndexOf(active, gpus[0].job.value).Some? then 1 else 0) + Training(gpus[1..], active)
  }

  function RemoveAt(jobs: seq<Job>, i: nat): seq<Job>
    requires i < |jobs|
  {
    jobs[..i] + jobs[i + 1..]
  }

  // ----- one job -----

  predicate CanSchedule(c: Cluster, job: Job) {
    Fitting(c.gpus, job.memory) >= job.gpus && Training(c.gpus, c.active) + job.gpus <= c.config.maxTrainingGpus
  }

  /** Give the first fitting GPUs to a job until it has what it asked for. */
  function Assign(gpus: seq<Gpu>, job: Job, need: int): (r: seq<Gpu>)
    ensures |r| == |gpus|
  {
    if gpus == [] || need <= 0 then gpus
    else if gpus[0].Fits(job.memory) then
      [Gpu(gpus[0].totalMemory, job.memory, Some(job.id))] + Assign(gpus[1..], job, need - 1)
    else [gpus[0]] + Assign(gpus[1..], job, need)
  }

  function Release(gpus: seq<Gpu>, id: string): (r: seq<Gpu>)
    ensures |r| == |gpus|
  {
    if gpus == [] then []
    else [if gpus[0].job == Some(id) then Gpu(gpus[0].totalMemory, 0, None) else gpus[0]] + Release(gpus[1..], id)
  }

  /** Storing under a key that is present keeps its place; a new key goes last. */
  function Store(active: seq<Job>, job: Job): seq<Job> {
    match IndexOf(active, job.id)
    case Some(i) => active[i := job]
    case None => active + [job]
  }

  predicate HasQueues(c: Cluster) {
    forall p: Priority :: p in c.queues
  }

  /** Move the head of queue p onto its GPUs. */
  function ScheduleHead(c: Cluster, p: Priority): Cluster
    requires HasQueues(c) && c.queues[p] != []
  {
    var job := c.queues[p][0].(status := Running);
    c.(gpus := Assign(c.gpus, job, job.gpus),
       active := Store(c.active, job),
       queues := c.queues[p := c.queues[p][1..]])
  }

  /** The first active job of the lowest priority below CRITICAL, if there is one. */
  function Victim(active: seq<Job>): (v: Option<nat>)
    ensures v.None? ==> forall k :: 0 <= k < |active| ==> active[k].priority == CRITICAL
    ensures v.Some? ==>
              && v.value < |active| && active[v.value].priority != CRITICAL
              && (forall k :: 0 <= k < v.value ==> active[k].priority.Value() > active[v.value].priority.Value())
              && (forall k :: v.value <= k < |active| ==>
                    active[k].priority.Value() >= active[v.value].priority.Value())
  {
    if active == [] then None
    else
      var last := |active| - 1;
      match Victim(active[..last])
      case None => if active[last].priority != CRITICAL then Some(last) else None
      case Some(v) => if active[last].priority.Value() < active[v].priority.Value() then Some(last) else Some(v)
  }

  /** The job to preempt for another one: the victim, if it ranks below that job. */
  function Target(active: seq<Job>, job: Job): (v: Option<nat>)
    ensures v.Some? ==> v == Victim(active) && active[v.value].priority.Value() < job.priority.Value()
    ensures v.None? && job.priority == CRITICAL ==> Victim(active) == None
  {
    var v := Victim(active);
    if v.Some? && active[v.value].priority.Value() < job.priority.Value() then v else None
  }

  /** Take the GPUs from the i-th active job and put it back at the front of its queue. */
  function Preempt(c: Cluster, i: nat): Cluster
    requires HasQueues(c) && i < |c.active|
  {
    var job := c.active[i].(status := Preempted);
    c.(gpus := Release(c.gpus, job.id),
       active := RemoveAt(c.active, i),
       queues := c.queues[job.priority := [job] + c.queues[job.priority]])
  }

  // ----- a scheduling pass -----

  /** Work through queue p until its head cannot be placed. */
  function Phase(c: Cluster, p: Priority): (Cluster, bool)
    requires HasQueues(c)
    decreases |c.queues[p]|, |c.active|
  {
    if c.queues[p] == [] then (c, false)
    else if CanSchedule(c, c.queues[p][0]) then
      (Phase(ScheduleHead(c, p), p).0, true)
    else if p == CRITICAL && c.config.preemption && Target(c.active, c.queues[p][0]).Some? then
      Phase(Preempt(c, Target(c.active, c.queues[p][0]).value), p)
    else (c, false)
  }

  lemma {:induction false} PhaseKeepsQueues(c: Cluster, p: Priority)
    requires HasQueues(c)
    ensures HasQueues(Phase(c, p).0) && Phase(c, p).0.config == c.config
    decreases |c.queues[p]|, |c.active|
  {
    if c.queues[p] != [] {
      if CanSchedule(c, c.queues[p][0]) {
        PhaseKeepsQueues(ScheduleHead(c, p), p);
      } else if p == CRITICAL && c.config.preemption && Target(c.active, c.queues[p][0]).Some? {
        PhaseKeepsQueues(Preempt(c, Target(c.active, c.queues[p][0]).value), p);
      }
    }
  }

  const PASS_ORDER := [CRITICAL, HIGH, MEDIUM, LOW]

  function Phases(c: Cluster, order: seq<Priority>): (Cluster, bool)
    requires HasQueues(c)
    decreases |order|
  {
    if order == [] then (c, false)
    else
      PhaseKeepsQueues(c, order[0]);
      var (c1, any) := Phase(c, order[0]);
      var (c2, more) := Phases(c1, order[1..]);
      (c2, any || more)
  }

  /** One call of the scheduler: all queues, from CRITICAL down. */
  function Pass(c: Cluster): (Cluster, bool)
    requires HasQueues(c)
  {
    Phases(c, PASS_ORDER)
  }

  // ----- the public operations -----

  function Min(a: int, b: int): int {
    if a < b then a else b
  }

  /** Requests are cut down to the quota; an unknown priority name counts as MEDIUM. */
  function Request(config: Config, id: string, named: Option<Priority>, gpus: int, memory: int): Job {
    Job(id, if named.Some? then named.value else MEDIUM,
        Min(gpus, config.maxTrainingGpus), Min(memory, config.gpuMemory), Pending)
  }

  function Enqueue(c: Cluster, job: Job): Cluster
    requires HasQueues(c)
  {
    c.(queues := c.queues[job.priority := c.queues[job.priority] + [job]])
  }

  function Submit(c: Cluster, id: string, named: Option<Priority>, gpus: int, memory: int): (Cluster, bool)
    requires HasQueues(c)
  {
    Pass(Enqueue(c, Request(c.config, id, named, gpus, memory)))
  }

  /** The i-th active job ends and gives its GPUs back. */
  function Finish(c: Cluster, i: nat, success: bool): Cluster
    requires HasQueues(c) && i < |c.active|
  {
    var job := c.active[i].(status := if success then Completed else Failed);
    c.(gpus := Release(c.gpus, job.id),
       active := RemoveAt(c.active, i),
       completed := c.completed + [job])
  }

  function Complete(c: Cluster, id: string, success: bool): (Cluster, bool)
    requires HasQueues(c)
  {
    match IndexOf(c.active, id)
    case None => (c, false)
    case Some(i) => (Pass(Finish(c, i, success)).0, true)
  }

  const CANCEL_ORDER := [LOW, MEDIUM, HIGH, CRITICAL]

  function Withdraw(c: Cluster, p: Priority, i: nat): Cluster
    requires HasQueues(c) && i < |c.queues[p]|
  {
    c.(queues := c.queues[p := RemoveAt(c.queues[p], i)],
       completed := c.completed + [c.queues[p][i].(status := Cancelled)])
  }

  function CancelQueued(c: Cluster, id: string, order: seq<Priority>): (Cluster, bool)
    requires HasQueues(c)
  {
    if order == [] then (c, false)
    else
      match IndexOf(c.queues[order[0]], id)
      case Some(i) => (Withdraw(c, order[0], i), true)
      case None => CancelQueued(c, id, order[1..])
  }

  function Cancel(c: Cluster, id: string): (Cluster, bool)
    requires HasQueues(c)
  {
    if IndexOf(c.active, id).Some? then (Complete(c, id, false).0, true)
    else CancelQueued(c, id, CANCEL_ORDER)
  }
}
