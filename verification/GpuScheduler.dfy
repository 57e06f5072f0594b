/** The scheduler object: its GPUs updated in place, its queues and dictionaries as fields.
    No method asks for more than a well-formed object; `GpuSchedulerProofs` says what holds
    of the states these methods can reach. */
module GpuScheduler {
  import opened Wrappers
  import opened Model = GpuSchedulerModel

  lemma Regroup(done: seq<Gpu>, g: Gpu, rest: seq<Gpu>)
    ensures done + ([g] + rest) == (done + [g]) + rest
  {
  }

  lemma UpdateAt(done: seq<Gpu>, rest: seq<Gpu>, g: Gpu)
    requires rest != []
    ensures (done + rest)[|done| := g] == (done + [g]) + rest[1..]
  {
  }

  lemma AssignFits(done: seq<Gpu>, rest: seq<Gpu>, job: Job, need: int)
    requires rest != [] && need > 0 && rest[0].Fits(job.memory)
    ensures done + Assign(rest, job, need) ==
            (done + [Gpu(rest[0].totalMemory, job.memory, Some(job.id))]) + Assign(rest[1..], job, need - 1)
  {
  }

  lemma AssignSkips(done: seq<Gpu>, rest: seq<Gpu>, job: Job, need: int)
    requires rest != [] && need > 0 && !rest[0].Fits(job.memory)
    ensures done + Assign(rest, job, need) == (done + [rest[0]]) + Assign(rest[1..], job, need)
    ensures done + rest == (done + [rest[0]]) + rest[1..]
  {
  }

  class DistributedGPUScheduler {
    const config: Config
    const gpus: array<Gpu>
    var queues: map<Priority, seq<Job>>
    var active: seq<Job>
    var completed: seq<Job>

    ghost function View(): Cluster
      reads this, gpus
    {
      Cluster(config, gpus[..], queues, active, completed)
    }

    ghost predicate Valid()
      reads this, gpus
    {
      HasQueues(View())
    }

    constructor (totalGpus: nat, gpuMemory: int, maxTrainingQuota: real, preemption: bool)
      ensures Valid() && fresh(gpus)
      ensures View() == Initial(Config(totalGpus, gpuMemory, MaxTrainingGpus(totalGpus, maxTrainingQuota), preemption))
    {
      config := Config(totalGpus, gpuMemory, MaxTrainingGpus(totalGpus, maxTrainingQuota), preemption);
      gpus := new Gpu[totalGpus](_ => Gpu(gpuMemory, 0, None));
      queues := map[LOW := [], MEDIUM := [], HIGH := [], CRITICAL := []];
      active, completed := [], [];
      new;
      assert gpus[..] == FreshGpus(totalGpus, gpuMemory);
      forall p: Priority ensures p in queues {
        match p { case LOW => case MEDIUM => case HIGH => case CRITICAL => }
      }
    }

    method CanScheduleJob(job: Job) returns (can: bool)
      requires Valid()
      ensures can == CanSchedule(View(), job)
    {
      var available, training := 0, 0;
      for i := 0 to gpus.Length
        invariant available + Fitting(gpus[i..], job.memory) == Fitting(gpus[..], job.memory)
        invariant training + Training(gpus[i..], active) == Training(gpus[..], active)
      {
        assert gpus[i..][1..] == gpus[i + 1..];
        if gpus[i].Fits(job.memory) {
          available := available + 1;
        }
        if gpus[i].job.Some? && IndexOf(active, gpus[i].job.value).Some? {
          training := training + 1;
        }
      }
      can := available >= job.gpus && training + job.gpus <= config.maxTrainingGpus;
    }

    method AllocateGpus(job: Job)
      modifies gpus
      ensures gpus[..] == Assign(old(gpus[..]), job, job.gpus)
    {
      ghost var done, rest := [], gpus[..];
      var need, i := job.gpus, 0;
      while i < gpus.Length && need > 0
        invariant |done| == i <= gpus.Length && gpus[..] == done + rest
        invariant Assign(old(gpus[..]), job, job.gpus) == done + Assign(rest, job, need)
      {
        done, rest, need := AllocateOne(i, job, need, done, rest);
        i := i + 1;
      }
    }

    // GPU i goes to the job if it fits.
    method AllocateOne(i: nat, job: Job, need: int, ghost done: seq<Gpu>, ghost rest: seq<Gpu>)
      returns (ghost done': seq<Gpu>, ghost rest': seq<Gpu>, need': int)
      requires i < gpus.Length && gpus[..] == done + rest && |done| == i && need > 0
      modifies gpus
      ensures gpus[..] == done' + rest' && |done'| == i + 1
      ensures done + Assign(rest, job, need) == done' + Assign(rest', job, need')
    {
      var g := gpus[i];
      assert g == rest[0];
      done', rest', need' := done + [g], rest[1..], need;
      if g.Fits(job.memory) {
        AssignFits(done, rest, job, need);
        g := Gpu(g.totalMemory, job.memory, Some(job.id));
        SetGpu(i, g, done, rest);
        done', need' := done + [g], need - 1;
      } else {
        AssignSkips(done, rest, job, need);
      }
    }

    method SetGpu(i: nat, g: Gpu, ghost done: seq<Gpu>, ghost rest: seq<Gpu>)
      requires i < gpus.Length && gpus[..] == done + rest && |done| == i
      modifies gpus
      ensures gpus[..] == (done + [g]) + rest[1..]
    {
      UpdateAt(done, rest, g);
      gpus[i] := g;
    }

    method ReleaseGpus(id: string)
      modifies gpus
      ensures gpus[..] == Release(old(gpus[..]), id)
    {
      ghost var before, done, rest := gpus[..], [], gpus[..];
      for i := 0 to gpus.Length
        invariant |done| == i && gpus[..] == done + rest
        invariant Release(before, id) == done + Release(rest, id)
      {
        var g := gpus[i];
        assert g == rest[0];
        if g.job == Some(id) {
          g := Gpu(g.totalMemory, 0, None);
        }
        SetGpu(i, g, done, rest);
        Regroup(done, g, Release(rest[1..], id));
        done, rest := done + [g], rest[1..];
      }
    }

    method ScheduleJob(job: Job)
      requires Valid()
      modifies this`active, gpus
      ensures gpus[..] == Assign(old(gpus[..]), job.(status := Running), job.gpus)
      ensures active == Store(old(active), job.(status := Running))
    {
      var running := job.(status := Running);
      AllocateGpus(running);
      active := Store(active, running);
    }

    method TryPreemptForJob(job: Job) returns (preempted: bool)
      requires Valid()
      modifies this, gpus
      ensures Valid() && preempted == Target(old(active), job).Some?
      ensures View() == if preempted then Model.Preempt(old(View()), Target(old(active), job).value) else old(View())
    {
      var lowest: Option<nat> := None;
      for i := 0 to |active|
        invariant lowest == Victim(active[..i])
      {
        assert active[..i + 1][..i] == active[..i];
        var priority := if lowest.Some? then active[lowest.value].priority else CRITICAL;
        if active[i].priority.Value() < priority.Value() {
          lowest := Some(i);
        }
      }
      assert active[..|active|] == active;
      if lowest.Some? && active[lowest.value].priority.Value() < job.priority.Value() {
        PreemptJob(lowest.value);
        return true;
      }
      return false;
    }

    method PreemptJob(i: nat)
      requires Valid() && i < |active|
      modifies this, gpus
      ensures Valid() && View() == Model.Preempt(old(View()), i)
    {
      var job := active[i].(status := Preempted);
      ReleaseGpus(job.id);
      queues := queues[job.priority := [job] + queues[job.priority]];
      active := RemoveAt(active, i);
    }

    method TryScheduleJobs() returns (scheduledAny: bool)
      requires Valid()
      modifies this, gpus
      ensures Valid() && (View(), scheduledAny) == Pass(old(View()))
    {
      scheduledAny := false;
      ghost var start := View();
      for k := 0 to |PASS_ORDER|
        invariant Valid()
        invariant Pass(start) == (Phases(View(), PASS_ORDER[k..]).0, scheduledAny || Phases(View(), PASS_ORDER[k..]).1)
      {
        ghost var before, rest := View(), PASS_ORDER[k + 1..];
        assert PASS_ORDER[k..] == [PASS_ORDER[k]] + rest;
        PhaseKeepsQueues(before, PASS_ORDER[k]);
        var any := RunPhase(PASS_ORDER[k]);
        scheduledAny := scheduledAny || any;
      }
    }

    method RunPhase(p: Priority) returns (any: bool)
      requires Valid()
      modifies this, gpus
      ensures Valid() && (View(), any) == Phase(old(View()), p)
    {
      any := false;
      ghost var start := View();
      while queues[p] != []
        invariant Valid()
        invariant Phase(start, p) == (Phase(View(), p).0, any || Phase(View(), p).1)
        decreases |queues[p]|, |active|
      {
        var job := queues[p][0];
        var can := CanScheduleJob(job);
        if can {
          ScheduleJob(job);
          queues := queues[p := queues[p][1..]];
          any := true;
        } else {
          if p == CRITICAL && config.preemption {
            var preempted := TryPreemptForJob(job);
            if preempted {
              continue;
            }
          }
          break;
        }
      }
    }

    method SubmitJob(id: string, named: Option<Priority>, requestedGpus: int, requestedMemory: int)
      returns (scheduledAny: bool)
      requires Valid()
      modifies this, gpus
      ensures Valid() && (View(), scheduledAny) == Submit(old(View()), id, named, requestedGpus, requestedMemory)
    {
      var job := Request(config, id, named, requestedGpus, requestedMemory);
      queues := queues[job.priority := queues[job.priority] + [job]];
      scheduledAny := TryScheduleJobs();
    }

    method CompleteJob(id: string, success: bool) returns (found: bool)
      requires Valid()
      modifies this, gpus
      ensures Valid() && (View(), found) == Complete(old(View()), id, success)
    {
      var at := IndexOf(active, id);
      if at.None? {
        return false;
      }
      var job := active[at.value].(status := if success then Completed else Failed);
      ReleaseGpus(id);
      completed := completed + [job];
      active := RemoveAt(active, at.value);
      var _ := TryScheduleJobs();
      return true;
    }

    method CancelJob(id: string) returns (found: bool)
      requires Valid()
      modifies this, gpus
      ensures Valid() && (View(), found) == Cancel(old(View()), id)
    {
      if IndexOf(active, id).Some? {
        var _ := CompleteJob(id, false);
        return true;
      }
      for k := 0 to |CANCEL_ORDER|
        invariant View() == old(View())
        invariant CancelQueued(View(), id, CANCEL_ORDER) == CancelQueued(View(), id, CANCEL_ORDER[k..])
      {
        var p := CANCEL_ORDER[k];
        assert CANCEL_ORDER[k..][0] == p && CANCEL_ORDER[k..][1..] == CANCEL_ORDER[k + 1..];
        var at := IndexOf(queues[p], id);
        if at.Some? {
          var job := queues[p][at.value].(status := Cancelled);
          queues := queues[p := RemoveAt(queues[p], at.value)];
          completed := completed + [job];
          return true;
        }
      }
      return false;
    }
  }
}
