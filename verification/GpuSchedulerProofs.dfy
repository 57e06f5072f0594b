/** What every reachable cluster satisfies, and what a scheduling pass achieves.

    Jobs are counted by arbitrary properties, and GPUs by holder, so that nothing has to be
    said about where a job or a GPU sits in its list; conservation is equality of all those
    counts.  The invariant comes first, then single steps, one phase, a whole pass, and
    runs. */
module GpuSchedulerProofs {
  import opened Wrappers
  import opened GpuSchedulerModel

  // ----- counting jobs -----

  function HasId(id: string): Job -> bool {
    (j: Job) => j.id == id
  }

  function Count(jobs: seq<Job>, f: Job -> bool): nat {
    if jobs == [] then 0 else Count(jobs[..|jobs| - 1], f) + if f(jobs[|jobs| - 1]) then 1 else 0
  }

  lemma {:induction false} CountConcat(a: seq<Job>, b: seq<Job>, f: Job -> bool)
    ensures Count(a + b, f) == Count(a, f) + Count(b, f)
  {
    if b == [] {
      assert a + b == a;
    } else {
      CountConcat(a, b[..|b| - 1], f);
      assert (a + b)[..|a + b| - 1] == a + b[..|b| - 1];
    }
  }

  lemma CountOne(j: Job, f: Job -> bool)
    ensures Count([j], f) == if f(j) then 1 else 0
  {
    assert [j][..0] == [];
  }

  lemma CountRemove(jobs: seq<Job>, i: nat, f: Job -> bool)
    requires i < |jobs|
    ensures Count(jobs, f) == Count(RemoveAt(jobs, i), f) + if f(jobs[i]) then 1 else 0
  {
    SplitAt(jobs, i);
    CountMiddle(jobs[..i], jobs[i], jobs[i + 1..], f);
  }

  lemma SplitAt(jobs: seq<Job>, i: nat)
    requires i < |jobs|
    ensures jobs == jobs[..i] + ([jobs[i]] + jobs[i + 1..])
  {
  }

  lemma CountMiddle(a: seq<Job>, j: Job, b: seq<Job>, f: Job -> bool)
    ensures Count(a + ([j] + b), f) == Count(a + b, f) + if f(j) then 1 else 0
  {
    CountConcat(a, [j] + b, f);
    CountConcat([j], b, f);
    CountConcat(a, b, f);
    CountOne(j, f);
  }

  /** Counted over every place a job can be. */
  function Total(c: Cluster, f: Job -> bool): nat
    requires HasQueues(c)
  {
    Count(c.queues[LOW], f) + Count(c.queues[MEDIUM], f) + Count(c.queues[HIGH], f) + Count(c.queues[CRITICAL], f)
    + Count(c.active, f) + Count(c.completed, f)
  }

  /** A property of jobs that does not look at their status. */
  ghost predicate StatusBlind(f: Job -> bool) {
    forall j, s :: f(j) == f(j.(status := s))
  }

  // ----- counting GPUs -----

  lemma {:induction false} AssignCounts(gpus: seq<Gpu>, job: Job, need: int, id: string)
    requires 0 <= need <= Fitting(gpus, job.memory)
    ensures Busy(Assign(gpus, job, need)) == Busy(gpus) + need
    ensures Held(Assign(gpus, job, need), id) == Held(gpus, id) + if id == job.id then need else 0
  {
    if gpus != [] && need > 0 {
      AssignCounts(gpus[1..], job, if gpus[0].Fits(job.memory) then need - 1 else need, id);
    }
  }

  lemma {:induction false} AssignEach(gpus: seq<Gpu>, job: Job, need: int, k: nat)
    requires k < |gpus|
    ensures Assign(gpus, job, need)[k] == gpus[k] ||
            (gpus[k].IsAvailable() && Assign(gpus, job, need)[k] == Gpu(gpus[k].totalMemory, job.memory, Some(job.id)))
  {
    if need > 0 && k > 0 {
      AssignEach(gpus[1..], job, if gpus[0].Fits(job.memory) then need - 1 else need, k - 1);
    }
  }

  lemma {:induction false} ReleaseCounts(gpus: seq<Gpu>, id: string, other: string)
    ensures Busy(Release(gpus, id)) == Busy(gpus) - Held(gpus, id)
    ensures Held(Release(gpus, id), other) == if other == id then 0 else Held(gpus, other)
  {
    if gpus != [] {
      ReleaseCounts(gpus[1..], id, other);
    }
  }

  lemma {:induction false} ReleaseEach(gpus: seq<Gpu>, id: string, k: nat)
    requires k < |gpus|
    ensures Release(gpus, id)[k] == if gpus[k].job == Some(id) then Gpu(gpus[k].totalMemory, 0, None) else gpus[k]
  {
    if k > 0 {
      ReleaseEach(gpus[1..], id, k - 1);
    }
  }

  // ----- the invariant -----

  predicate JobOk(config: Config, j: Job) {
    0 <= j.gpus <= config.maxTrainingGpus && 0 <= j.memory <= config.gpuMemory
  }

  predicate ConfigOk(config: Config) {
    0 <= config.maxTrainingGpus <= config.totalGpus && 0 <= config.gpuMemory
  }

  /** A free GPU has no memory allocated; a busy one belongs to an active job. */
  predicate GpuOk(config: Config, active: seq<Job>, g: Gpu) {
    && g.totalMemory == config.gpuMemory
    && match g.job
       case None => g.allocatedMemory == 0
       case Some(id) => IndexOf(active, id).Some? && g.allocatedMemory == active[IndexOf(active, id).value].memory
  }

  predicate DistinctIds(jobs: seq<Job>) {
    forall i, j :: 0 <= i < j < |jobs| ==> jobs[i].id != jobs[j].id
  }

  predicate GpusOk(config: Config, gpus: seq<Gpu>, active: seq<Job>) {
    && |gpus| == config.totalGpus
    && (forall k :: 0 <= k < |gpus| ==> GpuOk(config, active, gpus[k]))
    && (forall i :: 0 <= i < |active| ==> Held(gpus, active[i].id) == active[i].gpus)
    && Busy(gpus) <= config.maxTrainingGpus
  }

  predicate QueueOk(config: Config, p: Priority, queue: seq<Job>) {
    forall i :: 0 <= i < |queue| ==> queue[i].priority == p && JobOk(config, queue[i])
  }

  ghost predicate IdsOk(c: Cluster)
    requires HasQueues(c)
  {
    forall id :: Total(c, HasId(id)) <= 1
  }

  ghost predicate Inv(c: Cluster) {
    && HasQueues(c) && ConfigOk(c.config)
    && (forall p: Priority :: QueueOk(c.config, p, c.queues[p]))
    && (forall i :: 0 <= i < |c.active| ==> JobOk(c.config, c.active[i]))
    && DistinctIds(c.active)
    && GpusOk(c.config, c.gpus, c.active)
    && IdsOk(c)
  }

  lemma {:induction false} IndexOfIs(jobs: seq<Job>, i: nat)
    requires i < |jobs| && DistinctIds(jobs)
    ensures IndexOf(jobs, jobs[i].id) == Some(i)
  {
    var k := IndexOf(jobs, jobs[i].id);
    assert k.Some?;
  }

  // A job that is counted once and found in one place is not active as well.
  lemma {:induction false} CountAtIndex(jobs: seq<Job>, f: Job -> bool, i: nat)
    requires i < |jobs| && f(jobs[i])
    ensures Count(jobs, f) >= 1
  {
    if i < |jobs| - 1 {
      CountAtIndex(jobs[..|jobs| - 1], f, i);
    }
  }

  lemma QueuedNotActive(c: Cluster, p: Priority, i: nat)
    requires HasQueues(c) && IdsOk(c) && i < |c.queues[p]|
    ensures IndexOf(c.active, c.queues[p][i].id) == None
  {
    var id := c.queues[p][i].id;
    CountAtIndex(c.queues[p], HasId(id), i);
    var k := IndexOf(c.active, id);
    if k.Some? { CountAtIndex(c.active, HasId(id), k.value); }
    assert Total(c, HasId(id)) <= 1;
  }

  /** With the invariant, placement is a question of the quota alone. */
  lemma {:induction false} CountsUnderInv(config: Config, active: seq<Job>, gpus: seq<Gpu>, memory: int)
    requires memory <= config.gpuMemory && forall k :: 0 <= k < |gpus| ==> GpuOk(config, active, gpus[k])
    ensures Fitting(gpus, memory) == |gpus| - Busy(gpus) && Training(gpus, active) == Busy(gpus)
  {
    if gpus != [] {
      assert GpuOk(config, active, gpus[0]);
      forall k | 0 <= k < |gpus[1..]| ensures GpuOk(config, active, gpus[1..][k]) {
        assert GpuOk(config, active, gpus[k + 1]);
      }
      CountsUnderInv(config, active, gpus[1..], memory);
    }
  }

  lemma CanScheduleIffQuota(c: Cluster, job: Job)
    requires ConfigOk(c.config) && GpusOk(c.config, c.gpus, c.active) && JobOk(c.config, job)
    ensures CanSchedule(c, job) <==> Busy(c.gpus) + job.gpus <= c.config.maxTrainingGpus
    ensures CanSchedule(c, job) ==> job.gpus <= Fitting(c.gpus, job.memory)
  {
    CountsUnderInv(c.config, c.active, c.gpus, job.memory);
  }

  // ----- one step keeps the invariant and loses no job -----

  /** Every job stays somewhere, changed in status at most, and none is duplicated. */
  ghost predicate Conserves(c: Cluster, c': Cluster)
    requires HasQueues(c) && HasQueues(c')
  {
    forall f :: StatusBlind(f) ==> Total(c', f) == Total(c, f)
  }

  lemma HasIdBlind(id: string)
    ensures StatusBlind(HasId(id))
  {
  }

  lemma ConservesIds(c: Cluster, c': Cluster)
    requires HasQueues(c) && HasQueues(c') && Conserves(c, c') && IdsOk(c)
    ensures IdsOk(c')
  {
    forall id ensures Total(c', HasId(id)) <= 1 {
      HasIdBlind(id);
    }
  }

  lemma {:induction false} HeldNone(config: Config, active: seq<Job>, gpus: seq<Gpu>, id: string)
    requires IndexOf(active, id) == None && forall k :: 0 <= k < |gpus| ==> GpuOk(config, active, gpus[k])
    ensures Held(gpus, id) == 0
  {
    if gpus != [] {
      assert GpuOk(config, active, gpus[0]);
      forall k | 0 <= k < |gpus[1..]| ensures GpuOk(config, active, gpus[1..][k]) {
        assert GpuOk(config, active, gpus[k + 1]);
      }
      HeldNone(config, active, gpus[1..], id);
    }
  }

  lemma {:induction false} IndexOfAppend(jobs: seq<Job>, job: Job, id: string)
    ensures IndexOf(jobs + [job], id) ==
            if IndexOf(jobs, id).Some? then IndexOf(jobs, id) else if job.id == id then Some(|jobs|) else None
  {
    if jobs != [] {
      IndexOfAppend(jobs[1..], job, id);
      assert (jobs + [job])[1..] == jobs[1..] + [job];
    }
  }

  lemma AssignGpusOk(config: Config, gpus: seq<Gpu>, active: seq<Job>, job: Job)
    requires ConfigOk(config) && GpusOk(config, gpus, active) && JobOk(config, job)
    requires IndexOf(active, job.id) == None && Busy(gpus) + job.gpus <= config.maxTrainingGpus
    ensures GpusOk(config, Assign(gpus, job, job.gpus), active + [job])
    ensures Busy(Assign(gpus, job, job.gpus)) == Busy(gpus) + job.gpus
  {
    CountsUnderInv(config, active, gpus, job.memory);
    HeldNone(config, active, gpus, job.id);
    var gpus', active' := Assign(gpus, job, job.gpus), active + [job];
    AssignCounts(gpus, job, job.gpus, job.id);
    forall k | 0 <= k < |gpus'| ensures GpuOk(config, active', gpus'[k]) {
      AssignEach(gpus, job, job.gpus, k);
      assert GpuOk(config, active, gpus[k]);
      IndexOfAppend(active, job, if gpus'[k].job.Some? then gpus'[k].job.value else "");
    }
    forall i | 0 <= i < |active'| ensures Held(gpus', active'[i].id) == active'[i].gpus {
      AssignCounts(gpus, job, job.gpus, active'[i].id);
    }
  }

  lemma {:induction false} IndexOfRemove(jobs: seq<Job>, i: nat, id: string)
    requires i < |jobs| && DistinctIds(jobs) && id != jobs[i].id
    ensures IndexOf(jobs, id).Some? <==> IndexOf(RemoveAt(jobs, i), id).Some?
    ensures IndexOf(jobs, id).Some? ==>
              RemoveAt(jobs, i)[IndexOf(RemoveAt(jobs, i), id).value] == jobs[IndexOf(jobs, id).value]
  {
    var rest := RemoveAt(jobs, i);
    var k, m := IndexOf(jobs, id), IndexOf(rest, id);
    if k.Some? {
      var at := if k.value < i then k.value else k.value - 1;
      assert rest[at] == jobs[k.value];
      assert m.Some?;
    }
    if m.Some? {
      var at := if m.value < i then m.value else m.value + 1;
      assert jobs[at] == rest[m.value];
      assert k.Some?;
    }
  }

  lemma ReleaseGpusOk(config: Config, gpus: seq<Gpu>, active: seq<Job>, i: nat)
    requires GpusOk(config, gpus, active) && DistinctIds(active) && i < |active|
    ensures GpusOk(config, Release(gpus, active[i].id), RemoveAt(active, i))
    ensures DistinctIds(RemoveAt(active, i))
    ensures Busy(Release(gpus, active[i].id)) == Busy(gpus) - active[i].gpus
  {
    var id := active[i].id;
    var gpus', active' := Release(gpus, id), RemoveAt(active, i);
    ReleaseCounts(gpus, id, id);
    forall k | 0 <= k < |gpus'| ensures GpuOk(config, active', gpus'[k]) {
      ReleaseEach(gpus, id, k);
      assert GpuOk(config, active, gpus[k]);
      if gpus[k].job.Some? && gpus[k].job != Some(id) {
        IndexOfRemove(active, i, gpus[k].job.value);
      }
    }
    forall j | 0 <= j < |active'| ensures Held(gpus', active'[j].id) == active'[j].gpus {
      var at := if j < i then j else j + 1;
      assert active'[j] == active[at];
      ReleaseCounts(gpus, id, active[at].id);
    }
  }

  // Only queue p, the running jobs and the finished ones change.
  lemma TotalChanges(c: Cluster, c': Cluster, p: Priority, f: Job -> bool)
    requires HasQueues(c) && HasQueues(c') && c'.queues == c.queues[p := c'.queues[p]]
    ensures Total(c', f) - Total(c, f) ==
            Count(c'.queues[p], f) - Count(c.queues[p], f) + Count(c'.active, f) - Count(c.active, f)
            + Count(c'.completed, f) - Count(c.completed, f)
  {
    match p { case LOW => case MEDIUM => case HIGH => case CRITICAL => }
  }

  // The head of a queue becomes the last of the running jobs.
  lemma HeadMoves(q: seq<Job>, active: seq<Job>, job: Job, f: Job -> bool)
    requires q != [] && f(job) == f(q[0])
    ensures Count(q[1..], f) + Count(active + [job], f) == Count(q, f) + Count(active, f)
  {
    CountRemove(q, 0, f);
    assert RemoveAt(q, 0) == q[1..];
    CountConcat(active, [job], f);
    CountOne(job, f);
  }

  lemma ScheduleConserves(c: Cluster, p: Priority)
    requires HasQueues(c) && c.queues[p] != [] && IndexOf(c.active, c.queues[p][0].id) == None
    ensures Conserves(c, ScheduleHead(c, p))
  {
    forall f | StatusBlind(f) ensures Total(ScheduleHead(c, p), f) == Total(c, f) {
      TotalChanges(c, ScheduleHead(c, p), p, f);
      HeadMoves(c.queues[p], c.active, c.queues[p][0].(status := Running), f);
    }
  }

  lemma PreemptConserves(c: Cluster, i: nat)
    requires HasQueues(c) && i < |c.active|
    ensures Conserves(c, Preempt(c, i))
  {
    var job := c.active[i].(status := Preempted);
    forall f | StatusBlind(f) ensures Total(Preempt(c, i), f) == Total(c, f) {
      CountRemove(c.active, i, f);
      CountConcat([job], c.queues[job.priority], f);
      CountOne(job, f);
      match job.priority { case LOW => case MEDIUM => case HIGH => case CRITICAL => }
    }
  }

  lemma ScheduleInv(c: Cluster, p: Priority)
    requires Inv(c) && c.queues[p] != [] && CanSchedule(c, c.queues[p][0])
    ensures Inv(ScheduleHead(c, p)) && Conserves(c, ScheduleHead(c, p))
    ensures ScheduleHead(c, p).active == c.active + [c.queues[p][0].(status := Running)]
    ensures Busy(ScheduleHead(c, p).gpus) == Busy(c.gpus) + c.queues[p][0].gpus
  {
    var job := c.queues[p][0].(status := Running);
    assert QueueOk(c.config, p, c.queues[p]);
    QueuedNotActive(c, p, 0);
    CanScheduleIffQuota(c, c.queues[p][0]);
    AssignGpusOk(c.config, c.gpus, c.active, job);
    ScheduleConserves(c, p);
    ConservesIds(c, ScheduleHead(c, p));
  }

  lemma PreemptInv(c: Cluster, i: nat)
    requires Inv(c) && i < |c.active|
    ensures Inv(Preempt(c, i)) && Conserves(c, Preempt(c, i))
    ensures Busy(Preempt(c, i).gpus) == Busy(c.gpus) - c.active[i].gpus
  {
    ReleaseGpusOk(c.config, c.gpus, c.active, i);
    PreemptConserves(c, i);
    ConservesIds(c, Preempt(c, i));
    var c' := Preempt(c, i);
    forall p: Priority ensures QueueOk(c'.config, p, c'.queues[p]) {
      assert QueueOk(c.config, p, c.queues[p]);
    }
    forall k | 0 <= k < |c'.active| ensures JobOk(c'.config, c'.active[k]) {
      assert c'.active[k] == c.active[if k < i then k else k + 1];
    }
  }

  // ----- a phase -----

  lemma {:induction false} PhaseInv(c: Cluster, p: Priority)
    requires Inv(c)
    ensures Inv(Phase(c, p).0) && Conserves(c, Phase(c, p).0)
    decreases |c.queues[p]|, |c.active|
  {
    if c.queues[p] != [] {
      if CanSchedule(c, c.queues[p][0]) {
        ScheduleInv(c, p);
        PhaseInv(ScheduleHead(c, p), p);
      } else if p == CRITICAL && c.config.preemption && Target(c.active, c.queues[p][0]).Some? {
        var v := Target(c.active, c.queues[CRITICAL][0]).value;
        PreemptInv(c, v);
        PhaseInv(Preempt(c, v), p);
      }
    }
  }

  predicate HeadWaits(c: Cluster, p: Priority)
    requires HasQueues(c)
  {
    c.queues[p] != [] ==> !CanSchedule(c, c.queues[p][0])
  }

  predicate AllCritical(active: seq<Job>) {
    forall k :: 0 <= k < |active| ==> active[k].priority == CRITICAL
  }

  /** A phase stops at an empty queue or at a head that cannot be placed; with preemption,
      a CRITICAL head is only left waiting when no other job is running and the quota
      has no room for it. */
  lemma {:induction false} PhaseEnds(c: Cluster, p: Priority)
    requires Inv(c)
    ensures var c' := Phase(c, p).0;
            && HasQueues(c') && HeadWaits(c', p)
            && (p == CRITICAL && c.config.preemption && c'.queues[p] != [] ==>
                  AllCritical(c'.active) && Busy(c'.gpus) + c'.queues[p][0].gpus > c.config.maxTrainingGpus)
    decreases |c.queues[p]|, |c.active|
  {
    if c.queues[p] != [] {
      assert QueueOk(c.config, p, c.queues[p]);
      CanScheduleIffQuota(c, c.queues[p][0]);
      if CanSchedule(c, c.queues[p][0]) {
        ScheduleInv(c, p);
        PhaseEnds(ScheduleHead(c, p), p);
      } else if p == CRITICAL && c.config.preemption && Target(c.active, c.queues[p][0]).Some? {
        var v := Target(c.active, c.queues[CRITICAL][0]).value;
        PreemptInv(c, v);
        PhaseEnds(Preempt(c, v), p);
      }
    }
  }

  lemma HeadOnlyAdds(c: Cluster, p: Priority)
    requires Inv(c) && c.queues[p] != [] && CanSchedule(c, c.queues[p][0])
    ensures var c' := ScheduleHead(c, p);
            && Inv(c') && c'.config == c.config && c.active <= c'.active && Busy(c.gpus) <= Busy(c'.gpus)
            && |c'.active| == |c.active| + 1 && c'.active[|c.active|].priority == p
            && (forall o: Priority :: o != p ==> o in c'.queues && c'.queues[o] == c.queues[o])
  {
    assert QueueOk(c.config, p, c.queues[p]);
    ScheduleInv(c, p);
  }

  /** A phase below CRITICAL only moves heads of its own queue to the running jobs. */
  lemma {:induction false} LowerPhaseOnlyAdds(c: Cluster, p: Priority)
    requires Inv(c) && p != CRITICAL
    ensures var c' := Phase(c, p).0;
            && c.active <= c'.active && Busy(c.gpus) <= Busy(c'.gpus)
            && (forall o: Priority :: o != p ==> o in c'.queues && c'.queues[o] == c.queues[o])
            && (forall k :: |c.active| <= k < |c'.active| ==> c'.active[k].priority == p)
            && c'.config == c.config
    decreases |c.queues[p]|
  {
    if c.queues[p] != [] && CanSchedule(c, c.queues[p][0]) {
      HeadOnlyAdds(c, p);
      LowerPhaseOnlyAdds(ScheduleHead(c, p), p);
    }
  }

  /** What could not be placed before others took GPUs cannot be placed after. */
  lemma WaitingPersists(c: Cluster, c': Cluster, p: Priority)
    requires Inv(c) && Inv(c') && c'.config == c.config && c'.queues[p] == c.queues[p]
    requires HeadWaits(c, p) && Busy(c.gpus) <= Busy(c'.gpus)
    ensures HeadWaits(c', p)
  {
    if c.queues[p] != [] {
      assert QueueOk(c.config, p, c.queues[p]);
      CanScheduleIffQuota(c, c.queues[p][0]);
      CanScheduleIffQuota(c', c.queues[p][0]);
    }
  }

  // ----- a whole pass -----

  function AfterCritical(c: Cluster): Cluster
    requires HasQueues(c)
  {
    Phase(c, CRITICAL).0
  }

  lemma PassUnfolds(c: Cluster)
    requires Inv(c)
    ensures var c1 := AfterCritical(c);
            && Inv(c1) && Conserves(c, c1)
            && var c2 := Phase(c1, HIGH).0;
            && Inv(c2) && Conserves(c1, c2)
            && var c3 := Phase(c2, MEDIUM).0;
            && Inv(c3) && Conserves(c2, c3)
            && var c4 := Phase(c3, LOW).0;
            && Inv(c4) && Conserves(c3, c4) && Pass(c).0 == c4
  {
    PhaseInv(c, CRITICAL);
    var c1 := AfterCritical(c);
    PhaseInv(c1, HIGH);
    var c2 := Phase(c1, HIGH).0;
    PhaseInv(c2, MEDIUM);
    var c3 := Phase(c2, MEDIUM).0;
    PhaseInv(c3, LOW);
    var c4 := Phase(c3, LOW).0;
    assert PASS_ORDER[1..] == [HIGH, MEDIUM, LOW] && [HIGH, MEDIUM, LOW][1..] == [MEDIUM, LOW];
    assert [MEDIUM, LOW][1..] == [LOW] && [LOW][1..] == [];
    assert Phases(c4, []).0 == c4;
    assert Phases(c3, [LOW]).0 == c4;
    assert Phases(c2, [MEDIUM, LOW]).0 == c4;
    assert Phases(c1, [HIGH, MEDIUM, LOW]).0 == c4;
  }

  lemma PassInv(c: Cluster)
    requires Inv(c)
    ensures Inv(Pass(c).0) && Conserves(c, Pass(c).0)
  {
    PassUnfolds(c);
  }

  // What the three lower phases leave alone.
  lemma AfterCriticalPersists(c: Cluster)
    requires Inv(c)
    ensures var c1, c' := AfterCritical(c), Pass(c).0;
            && Inv(c1) && Inv(c') && c'.config == c1.config == c.config
            && c'.queues[CRITICAL] == c1.queues[CRITICAL]
            && c1.active <= c'.active && Busy(c1.gpus) <= Busy(c'.gpus)
            && (forall k :: |c1.active| <= k < |c'.active| ==> c'.active[k].priority != CRITICAL)
  {
    PassUnfolds(c);
    PhaseKeepsQueues(c, CRITICAL);
    var c1 := AfterCritical(c);
    var c2 := Phase(c1, HIGH).0;
    var c3 := Phase(c2, MEDIUM).0;
    LowerPhaseOnlyAdds(c1, HIGH);
    LowerPhaseOnlyAdds(c2, MEDIUM);
    LowerPhaseOnlyAdds(c3, LOW);
  }

  /** When a pass returns, no queue's head could be placed. */
  lemma PassLeavesNoPlaceableHead(c: Cluster, p: Priority)
    requires Inv(c)
    ensures Inv(Pass(c).0) && HeadWaits(Pass(c).0, p)
  {
    PassUnfolds(c);
    var c1 := AfterCritical(c);
    var c2 := Phase(c1, HIGH).0;
    var c3 := Phase(c2, MEDIUM).0;
    PhaseEnds(c, CRITICAL);
    PhaseEnds(c1, HIGH);
    PhaseEnds(c2, MEDIUM);
    PhaseEnds(c3, LOW);
    LowerPhaseOnlyAdds(c1, HIGH);
    LowerPhaseOnlyAdds(c2, MEDIUM);
    LowerPhaseOnlyAdds(c3, LOW);
    if p == CRITICAL { WaitingPersists(c1, c2, p); }
    if p == CRITICAL || p == HIGH { WaitingPersists(c2, c3, p); }
    if p != LOW { WaitingPersists(c3, Pass(c).0, p); }
  }

  // ----- when a CRITICAL job runs -----

  function CriticalGpus(active: seq<Job>): int {
    if active == [] then 0
    else CriticalGpus(active[..|active| - 1])
         + if active[|active| - 1].priority == CRITICAL then active[|active| - 1].gpus else 0
  }

  function ActiveGpus(active: seq<Job>): int {
    if active == [] then 0 else ActiveGpus(active[..|active| - 1]) + active[|active| - 1].gpus
  }

  function HeldByAll(gpus: seq<Gpu>, active: seq<Job>): nat {
    if active == [] then 0 else HeldByAll(gpus, active[..|active| - 1]) + Held(gpus, active[|active| - 1].id)
  }

  lemma {:induction false} HeldByAllStep(gpus: seq<Gpu>, active: seq<Job>)
    requires gpus != [] && DistinctIds(active)
    ensures HeldByAll(gpus, active) == HeldByAll(gpus[1..], active)
            + if exists i :: 0 <= i < |active| && gpus[0].job == Some(active[i].id) then 1 else 0
  {
    if active != [] {
      var n := |active| - 1;
      HeldByAllStep(gpus, active[..n]);
      if gpus[0].job == Some(active[n].id) {
        assert !exists i :: 0 <= i < |active[..n]| && gpus[0].job == Some(active[..n][i].id);
      } else if i :| 0 <= i < |active| && gpus[0].job == Some(active[i].id) {
        assert active[..n][i] == active[i];
      }
    }
  }

  lemma {:induction false} HeldByAllIsBusy(config: Config, gpus: seq<Gpu>, active: seq<Job>)
    requires DistinctIds(active) && forall k :: 0 <= k < |gpus| ==> GpuOk(config, active, gpus[k])
    ensures HeldByAll(gpus, active) == Busy(gpus)
  {
    if gpus == [] {
      HeldByAllNone(active);
    } else {
      assert GpuOk(config, active, gpus[0]);
      forall k | 0 <= k < |gpus[1..]| ensures GpuOk(config, active, gpus[1..][k]) {
        assert GpuOk(config, active, gpus[k + 1]);
      }
      HeldByAllStep(gpus, active);
      HeldByAllIsBusy(config, gpus[1..], active);
    }
  }

  lemma {:induction false} HeldByAllNone(active: seq<Job>)
    ensures HeldByAll([], active) == 0
  {
    if active != [] { HeldByAllNone(active[..|active| - 1]); }
  }

  lemma {:induction false} HeldByAllIsActiveGpus(gpus: seq<Gpu>, active: seq<Job>)
    requires forall i :: 0 <= i < |active| ==> Held(gpus, active[i].id) == active[i].gpus
    ensures HeldByAll(gpus, active) == ActiveGpus(active)
  {
    if active != [] { HeldByAllIsActiveGpus(gpus, active[..|active| - 1]); }
  }

  lemma {:induction false} CriticalAtMostActive(config: Config, active: seq<Job>)
    requires forall i :: 0 <= i < |active| ==> JobOk(config, active[i])
    ensures CriticalGpus(active) <= ActiveGpus(active)
    ensures AllCritical(active) ==> CriticalGpus(active) == ActiveGpus(active)
  {
    if active != [] {
      CriticalAtMostActive(config, active[..|active| - 1]);
    }
  }

  /** The busy GPUs are those of the running jobs, so at least those of the CRITICAL ones. */
  lemma CriticalGpusBusy(c: Cluster)
    requires Inv(c)
    ensures CriticalGpus(c.active) <= Busy(c.gpus)
    ensures AllCritical(c.active) ==> CriticalGpus(c.active) == Busy(c.gpus)
  {
    HeldByAllIsBusy(c.config, c.gpus, c.active);
    HeldByAllIsActiveGpus(c.gpus, c.active);
    CriticalAtMostActive(c.config, c.active);
  }

  lemma {:induction false} CriticalGpusConcat(a: seq<Job>, b: seq<Job>)
    ensures CriticalGpus(a + b) == CriticalGpus(a) + CriticalGpus(b)
  {
    if b == [] {
      assert a + b == a;
    } else {
      CriticalGpusConcat(a, b[..|b| - 1]);
      assert (a + b)[..|a + b| - 1] == a + b[..|b| - 1];
    }
  }

  lemma CriticalGpusRemove(active: seq<Job>, i: nat)
    requires i < |active| && active[i].priority != CRITICAL
    ensures CriticalGpus(RemoveAt(active, i)) == CriticalGpus(active)
  {
    SplitAt(active, i);
    CriticalGpusMiddle(active[..i], active[i], active[i + 1..]);
  }

  lemma CriticalGpusMiddle(a: seq<Job>, j: Job, b: seq<Job>)
    requires j.priority != CRITICAL
    ensures CriticalGpus(a + ([j] + b)) == CriticalGpus(a + b)
  {
    CriticalGpusConcat(a, [j] + b);
    CriticalGpusConcat([j], b);
    CriticalGpusConcat(a, b);
    assert [j][..0] == [];
  }

  lemma {:induction false} CriticalGpusNone(active: seq<Job>)
    requires forall i :: 0 <= i < |active| ==> active[i].priority != CRITICAL
    ensures CriticalGpus(active) == 0
  {
    if active != [] { CriticalGpusNone(active[..|active| - 1]); }
  }

  predicate IdRuns(c: Cluster, id: string) {
    IndexOf(c.active, id).Some?
  }

  predicate CriticalRuns(c: Cluster, id: string) {
    IdRuns(c, id) && c.active[IndexOf(c.active, id).value].priority == CRITICAL
  }

  lemma {:induction false} CriticalStays(c: Cluster, id: string)
    requires Inv(c) && CriticalRuns(c, id)
    ensures CriticalRuns(AfterCritical(c), id)
    decreases |c.queues[CRITICAL]|, |c.active|
  {
    if c.queues[CRITICAL] != [] {
      if CanSchedule(c, c.queues[CRITICAL][0]) {
        ScheduleInv(c, CRITICAL);
        IndexOfAppend(c.active, c.queues[CRITICAL][0].(status := Running), id);
        CriticalStays(ScheduleHead(c, CRITICAL), id);
      } else if c.config.preemption && Target(c.active, c.queues[CRITICAL][0]).Some? {
        var v := Target(c.active, c.queues[CRITICAL][0]).value;
        PreemptInv(c, v);
        IndexOfIs(c.active, v);
        IndexOfRemove(c.active, v, id);
        CriticalStays(Preempt(c, v), id);
      }
    }
  }

  /** With preemption, the head of the CRITICAL queue is placed in the CRITICAL phase
      exactly when the running CRITICAL jobs leave room for it in the quota. */
  lemma {:induction false} CriticalPhasePlacesHead(c: Cluster)
    requires Inv(c) && c.config.preemption && c.queues[CRITICAL] != []
    ensures CriticalRuns(AfterCritical(c), c.queues[CRITICAL][0].id)
            <==> CriticalGpus(c.active) + c.queues[CRITICAL][0].gpus <= c.config.maxTrainingGpus
    decreases |c.active|
  {
    var head := c.queues[CRITICAL][0];
    assert QueueOk(c.config, CRITICAL, c.queues[CRITICAL]);
    CanScheduleIffQuota(c, head);
    CriticalGpusBusy(c);
    QueuedNotActive(c, CRITICAL, 0);
    if CanSchedule(c, head) {
      ScheduleInv(c, CRITICAL);
      IndexOfAppend(c.active, head.(status := Running), head.id);
      CriticalStays(ScheduleHead(c, CRITICAL), head.id);
    } else if Target(c.active, head).Some? {
      var v := Target(c.active, c.queues[CRITICAL][0]).value;
      PreemptInv(c, v);
      CriticalGpusRemove(c.active, v);
      CriticalPhasePlacesHead(Preempt(c, v));
    }
  }

  /** The same of a whole pass: preemption succeeds exactly when it can. */
  lemma CriticalHeadRunsIff(c: Cluster)
    requires Inv(c) && c.config.preemption && c.queues[CRITICAL] != []
    ensures CriticalRuns(Pass(c).0, c.queues[CRITICAL][0].id)
            <==> CriticalGpus(c.active) + c.queues[CRITICAL][0].gpus <= c.config.maxTrainingGpus
  {
    var id := c.queues[CRITICAL][0].id;
    CriticalPhasePlacesHead(c);
    AfterCriticalPersists(c);
    RunsAfterMore(AfterCritical(c).active, Pass(c).0.active, id);
  }

  lemma {:induction false} IndexOfPrefix(a: seq<Job>, b: seq<Job>, id: string)
    requires a <= b && IndexOf(a, id).Some?
    ensures IndexOf(b, id) == IndexOf(a, id)
  {
    if a[0].id != id {
      IndexOfPrefix(a[1..], b[1..], id);
    }
  }

  lemma RunsAfterMore(a: seq<Job>, b: seq<Job>, id: string)
    requires a <= b && forall k :: |a| <= k < |b| ==> b[k].priority != CRITICAL
    ensures (IndexOf(a, id).Some? && a[IndexOf(a, id).value].priority == CRITICAL)
            <==> (IndexOf(b, id).Some? && b[IndexOf(b, id).value].priority == CRITICAL)
  {
    if IndexOf(a, id).Some? {
      IndexOfPrefix(a, b, id);
    } else if IndexOf(b, id).Some? {
      assert IndexOf(b, id).value >= |a|;
    }
  }

  /** At the end of a pass with preemption, a CRITICAL job still waiting does not fit in
      what the CRITICAL jobs themselves leave of the quota. */
  lemma WaitingCriticalMeansCriticalFull(c: Cluster)
    requires Inv(c) && c.config.preemption
    ensures var c' := Pass(c).0;
            && Inv(c')
            && (c'.queues[CRITICAL] != [] ==>
                  CriticalGpus(c'.active) + c'.queues[CRITICAL][0].gpus > c.config.maxTrainingGpus)
  {
    AfterCriticalPersists(c);
    PhaseEnds(c, CRITICAL);
    var a, b := AfterCritical(c).active, Pass(c).0.active;
    CriticalGpusBusy(AfterCritical(c));
    assert b == a + b[|a|..];
    CriticalGpusConcat(a, b[|a|..]);
    CriticalGpusNone(b[|a|..]);
  }

  // ----- runs -----

  datatype Op =
    | OpSubmit(id: string, named: Option<Priority>, gpus: nat, memory: nat)
    | OpComplete(id: string, success: bool)
    | OpCancel(id: string)

  function Step(c: Cluster, op: Op): Cluster
    requires HasQueues(c)
  {
    match op
    case OpSubmit(id, named, gpus, memory) => Submit(c, id, named, gpus, memory).0
    case OpComplete(id, success) => Complete(c, id, success).0
    case OpCancel(id) => Cancel(c, id).0
  }

  /** A submission must use an id that no known job has. */
  ghost predicate Fresh(c: Cluster, op: Op)
    requires HasQueues(c)
  {
    op.OpSubmit? ==> Total(c, HasId(op.id)) == 0
  }

  lemma EnqueueTotal(c: Cluster, job: Job, f: Job -> bool)
    requires HasQueues(c)
    ensures Total(Enqueue(c, job), f) == Total(c, f) + if f(job) then 1 else 0
  {
    CountConcat(c.queues[job.priority], [job], f);
    CountOne(job, f);
    match job.priority { case LOW => case MEDIUM => case HIGH => case CRITICAL => }
  }

  lemma EnqueueInv(c: Cluster, job: Job)
    requires Inv(c) && JobOk(c.config, job) && Total(c, HasId(job.id)) == 0
    ensures Inv(Enqueue(c, job))
    ensures forall f :: Total(Enqueue(c, job), f) == Total(c, f) + if f(job) then 1 else 0
  {
    var c' := Enqueue(c, job);
    forall f ensures Total(c', f) == Total(c, f) + if f(job) then 1 else 0 {
      EnqueueTotal(c, job, f);
    }
    forall p: Priority ensures QueueOk(c'.config, p, c'.queues[p]) {
      assert QueueOk(c.config, p, c.queues[p]);
    }
    forall id ensures Total(c', HasId(id)) <= 1 {
      assert Total(c, HasId(id)) <= 1;
    }
  }

  /** A submitted job is known from then on, with the priority named or MEDIUM and the requests
      cut down to what the cluster allows; nothing else changes hands. */
  lemma SubmitInv(c: Cluster, id: string, named: Option<Priority>, gpus: nat, memory: nat)
    requires Inv(c) && Total(c, HasId(id)) == 0
    ensures HasQueues(Submit(c, id, named, gpus, memory).0) && Inv(Submit(c, id, named, gpus, memory).0)
    ensures var job := Job(id, if named.Some? then named.value else MEDIUM,
                           if gpus < c.config.maxTrainingGpus then gpus else c.config.maxTrainingGpus,
                           if memory < c.config.gpuMemory then memory else c.config.gpuMemory, Pending);
            forall f :: StatusBlind(f) ==>
              Total(Submit(c, id, named, gpus, memory).0, f) == Total(c, f) + if f(job) then 1 else 0
  {
    var job := Request(c.config, id, named, gpus, memory);
    EnqueueInv(c, job);
    PassInv(Enqueue(c, job));
  }

  lemma FinishInv(c: Cluster, i: nat, success: bool)
    requires Inv(c) && i < |c.active|
    ensures Inv(Finish(c, i, success)) && Conserves(c, Finish(c, i, success))
  {
    var c' := Finish(c, i, success);
    var job := c.active[i].(status := if success then Completed else Failed);
    ReleaseGpusOk(c.config, c.gpus, c.active, i);
    forall f | StatusBlind(f) ensures Total(c', f) == Total(c, f) {
      CountRemove(c.active, i, f);
      CountConcat(c.completed, [job], f);
      CountOne(job, f);
    }
    ConservesIds(c, c');
    forall k | 0 <= k < |c'.active| ensures JobOk(c'.config, c'.active[k]) {
      assert c'.active[k] == c.active[if k < i then k else k + 1];
    }
  }

  /** The i-th active job ends and the queues are worked through again. */
  lemma CompleteInv(c: Cluster, i: nat, success: bool, c': Cluster)
    requires Inv(c) && i < |c.active| && c' == Pass(Finish(c, i, success)).0
    ensures Inv(c') && Conserves(c, c')
  {
    FinishInv(c, i, success);
    PassInv(Finish(c, i, success));
  }

  lemma WithdrawInv(c: Cluster, p: Priority, i: nat)
    requires Inv(c) && i < |c.queues[p]|
    ensures Inv(Withdraw(c, p, i)) && Conserves(c, Withdraw(c, p, i))
  {
    var c' := Withdraw(c, p, i);
    var job := c.queues[p][i].(status := Cancelled);
    forall f | StatusBlind(f) ensures Total(c', f) == Total(c, f) {
      CountRemove(c.queues[p], i, f);
      CountConcat(c.completed, [job], f);
      CountOne(job, f);
    }
    ConservesIds(c, c');
    forall o: Priority ensures QueueOk(c'.config, o, c'.queues[o]) {
      assert QueueOk(c.config, o, c.queues[o]);
    }
  }

  lemma {:induction false} CancelQueuedInv(c: Cluster, id: string, order: seq<Priority>)
    requires Inv(c)
    ensures Inv(CancelQueued(c, id, order).0) && Conserves(c, CancelQueued(c, id, order).0)
    decreases |order|
  {
    if order != [] {
      if IndexOf(c.queues[order[0]], id).Some? {
        WithdrawInv(c, order[0], IndexOf(c.queues[order[0]], id).value);
      } else {
        CancelQueuedInv(c, id, order[1..]);
      }
    }
  }

  lemma CancelInv(c: Cluster, id: string, c': Cluster)
    requires Inv(c) && c' == Cancel(c, id).0
    ensures Inv(c') && Conserves(c, c')
  {
    if IndexOf(c.active, id).Some? {
      CompleteInv(c, IndexOf(c.active, id).value, false, c');
    } else {
      CancelQueuedInv(c, id, CANCEL_ORDER);
    }
  }

  lemma StepInv(c: Cluster, op: Op)
    requires Inv(c) && Fresh(c, op)
    ensures Inv(Step(c, op))
    ensures !op.OpSubmit? ==> Conserves(c, Step(c, op))
  {
    match op
    case OpSubmit(id, named, gpus, memory) => SubmitInv(c, id, named, gpus, memory);
    case OpComplete(id, success) =>
      if IndexOf(c.active, id).Some? { CompleteInv(c, IndexOf(c.active, id).value, success, Step(c, op)); }
    case OpCancel(id) => CancelInv(c, id, Step(c, op));
  }

  lemma {:induction false} NoneBusy(gpus: seq<Gpu>)
    requires forall k :: 0 <= k < |gpus| ==> gpus[k].job == None
    ensures Busy(gpus) == 0
  {
    if gpus != [] { NoneBusy(gpus[1..]); }
  }

  lemma InitialInv(config: Config)
    requires ConfigOk(config)
    ensures Inv(Initial(config))
  {
    var c := Initial(config);
    NoneBusy(c.gpus);
    forall p: Priority ensures p in c.queues && c.queues[p] == [] {
      match p { case LOW => case MEDIUM => case HIGH => case CRITICAL => }
    }
  }

  /** A quota between 0 and 1 is the most whole GPUs that it covers, never more than there are. */
  lemma QuotaWithinCluster(totalGpus: nat, quota: real)
    requires 0.0 <= quota <= 1.0
    ensures var m := MaxTrainingGpus(totalGpus, quota);
            0 <= m <= totalGpus && m as real <= totalGpus as real * quota < m as real + 1.0
  {
    assert 0.0 <= totalGpus as real * quota <= totalGpus as real;
  }

  function AnyJob(): Job -> bool {
    (j: Job) => true
  }

  function Submissions(ops: seq<Op>): nat {
    if ops == [] then 0 else (if ops[0].OpSubmit? then 1 else 0) + Submissions(ops[1..])
  }

  /** The cluster after a run, or None once a submission reuses a known id. */
  ghost function Run(c: Cluster, ops: seq<Op>): Option<Cluster>
    requires Inv(c)
    decreases |ops|
  {
    if ops == [] then Some(c)
    else if !Fresh(c, ops[0]) then None
    else
      StepInv(c, ops[0]);
      Run(Step(c, ops[0]), ops[1..])
  }

  // A known job stays known, once.
  lemma KnownStays(c: Cluster, op: Op, id: string)
    requires Inv(c) && Fresh(c, op) && Total(c, HasId(id)) == 1
    ensures Inv(Step(c, op)) && Total(Step(c, op), HasId(id)) == 1
  {
    StepInv(c, op);
    HasIdBlind(id);
    if op.OpSubmit? { SubmitInv(c, op.id, op.named, op.gpus, op.memory); }
  }

  lemma SubmittedIsKnown(c: Cluster, op: Op)
    requires Inv(c) && Fresh(c, op) && op.OpSubmit?
    ensures Inv(Step(c, op)) && Total(Step(c, op), HasId(op.id)) == 1
  {
    StepInv(c, op);
    HasIdBlind(op.id);
    SubmitInv(c, op.id, op.named, op.gpus, op.memory);
  }

  lemma {:induction false} KnownStaysInRun(c: Cluster, ops: seq<Op>, id: string)
    requires Inv(c) && Run(c, ops).Some? && Total(c, HasId(id)) == 1
    ensures HasQueues(Run(c, ops).value) && Total(Run(c, ops).value, HasId(id)) == 1
    decreases |ops|
  {
    if ops != [] {
      KnownStays(c, ops[0], id);
      KnownStaysInRun(Step(c, ops[0]), ops[1..], id);
    }
  }

  lemma SubmittedFirst(c: Cluster, ops: seq<Op>)
    requires Inv(c) && ops != [] && Run(c, ops).Some? && ops[0].OpSubmit?
    ensures HasQueues(Run(c, ops).value) && Total(Run(c, ops).value, HasId(ops[0].id)) == 1
  {
    SubmittedIsKnown(c, ops[0]);
    KnownStaysInRun(Step(c, ops[0]), ops[1..], ops[0].id);
  }

  lemma {:induction false} SubmittedOnce(c: Cluster, ops: seq<Op>, i: nat)
    requires Inv(c) && Run(c, ops).Some? && i < |ops| && ops[i].OpSubmit?
    ensures HasQueues(Run(c, ops).value) && Total(Run(c, ops).value, HasId(ops[i].id)) == 1
    decreases |ops|
  {
    if i == 0 {
      SubmittedFirst(c, ops);
    } else {
      StepInv(c, ops[0]);
      assert ops[1..][i - 1] == ops[i];
      SubmittedOnce(Step(c, ops[0]), ops[1..], i - 1);
    }
  }

  lemma {:induction false} RunCounts(c: Cluster, ops: seq<Op>)
    requires Inv(c) && Run(c, ops).Some?
    ensures var c' := Run(c, ops).value;
            Inv(c') && Total(c', AnyJob()) == Total(c, AnyJob()) + Submissions(ops)
    decreases |ops|
  {
    if ops != [] {
      var op := ops[0];
      StepInv(c, op);
      assert StatusBlind(AnyJob());
      if op.OpSubmit? { SubmitInv(c, op.id, op.named, op.gpus, op.memory); }
      RunCounts(Step(c, op), ops[1..]);
    }
  }

  /** In every reachable cluster the invariant holds, each submitted job is in exactly one
      place, and the jobs in all places together are as many as were submitted. */
  lemma RunInv(c: Cluster, ops: seq<Op>)
    requires Inv(c) && Run(c, ops).Some?
    ensures var c' := Run(c, ops).value;
            && Inv(c') && Total(c', AnyJob()) == Total(c, AnyJob()) + Submissions(ops)
            && forall i :: 0 <= i < |ops| && ops[i].OpSubmit? ==> Total(c', HasId(ops[i].id)) == 1
  {
    RunCounts(c, ops);
    forall i | 0 <= i < |ops| && ops[i].OpSubmit? ensures Total(Run(c, ops).value, HasId(ops[i].id)) == 1 {
      SubmittedOnce(c, ops, i);
    }
  }
}
