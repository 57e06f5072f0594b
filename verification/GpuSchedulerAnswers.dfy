/** What the scheduler answers its callers, what it records, and whom it serves first. */
module GpuSchedulerAnswers {
  import opened Wrappers
  import opened GpuSchedulerModel
  import opened GpuSchedulerProofs
  import opened GpuSchedulerHeads

  // ----- the answer of a pass -----

  // A CRITICAL job waits, and something it may preempt is running.
  predicate MayPreempt(c: Cluster)
    requires HasQueues(c)
  {
    c.config.preemption && c.queues[CRITICAL] != [] && !AllCritical(c.active)
  }

  // A preempted job is the head of its queue and would still fit.
  lemma PreemptedFits(c: Cluster, i: nat)
    requires Inv(c) && i < |c.active|
    ensures Inv(Preempt(c, i)) && !HeadWaits(Preempt(c, i), c.active[i].priority)
  {
    var c', p := Preempt(c, i), c.active[i].priority;
    PreemptInv(c, i);
    assert QueueOk(c'.config, p, c'.queues[p]);
    CanScheduleIffQuota(c', c'.queues[p][0]);
  }

  ghost predicate SomeHeadFits(c: Cluster)
    requires HasQueues(c)
  {
    exists p: Priority :: !HeadWaits(c, p)
  }

  // Either the CRITICAL phase starts a job, or it leaves one that can be started.
  lemma {:induction false} CriticalPhaseKeepsChance(c: Cluster)
    requires Inv(c) && (SomeHeadFits(c) || MayPreempt(c))
    ensures HasQueues(Phase(c, CRITICAL).0) && (Phase(c, CRITICAL).1 || SomeHeadFits(Phase(c, CRITICAL).0))
    decreases |c.active|
  {
    PhaseInv(c, CRITICAL);
    if c.queues[CRITICAL] != [] && !CanSchedule(c, c.queues[CRITICAL][0]) && c.config.preemption {
      var v := Target(c.active, c.queues[CRITICAL][0]);
      assert QueueOk(c.config, CRITICAL, c.queues[CRITICAL]);
      if v.Some? {
        PreemptedFits(c, v.value);
        CriticalPhaseKeepsChance(Preempt(c, v.value));
      }
    }
  }

  lemma LowerPhaseAnswer(c: Cluster, p: Priority)
    requires Inv(c) && p != CRITICAL
    ensures Phase(c, p).1 <==> !HeadWaits(c, p)
    ensures !Phase(c, p).1 ==> Phase(c, p).0 == c
  {
  }

  // An idle CRITICAL phase changes nothing.
  lemma CriticalPhaseIdle(c: Cluster)
    requires Inv(c) && HeadWaits(c, CRITICAL) && !MayPreempt(c)
    ensures Phase(c, CRITICAL) == (c, false)
  {
    if c.queues[CRITICAL] != [] && c.config.preemption {
      var v := Target(c.active, c.queues[CRITICAL][0]);
      assert v.None?;
    }
  }

  lemma PassAnswerUnfolds(c: Cluster)
    requires HasQueues(c)
    ensures HasQueues(Phase(c, CRITICAL).0)
    ensures Pass(c).1 <==> Phase(c, CRITICAL).1 || Phases(Phase(c, CRITICAL).0, [HIGH, MEDIUM, LOW]).1
  {
    PhaseKeepsQueues(c, CRITICAL);
    assert PASS_ORDER[1..] == [HIGH, MEDIUM, LOW];
  }

  lemma {:induction false} LowerPhasesAnswer(c: Cluster, order: seq<Priority>)
    requires Inv(c) && CRITICAL !in order
    ensures Phases(c, order).1 <==> exists k :: 0 <= k < |order| && !HeadWaits(c, order[k])
  {
    if order != [] {
      assert order[0] in order && forall p :: p in order[1..] ==> p in order;
      LowerPhaseAnswer(c, order[0]);
      PhaseInv(c, order[0]);
      if Phase(c, order[0]).1 {
        assert !HeadWaits(c, order[0]);
      } else {
        LowerPhasesAnswer(c, order[1..]);
        if k :| 0 <= k < |order[1..]| && !HeadWaits(c, order[1..][k]) { assert order[k + 1] == order[1..][k]; }
        if k :| 0 <= k < |order| && !HeadWaits(c, order[k]) { assert order[1..][k - 1] == order[k]; }
      }
    }
  }

  lemma ThreePhasesAnswer(c: Cluster)
    requires Inv(c) && HeadWaits(c, CRITICAL)
    ensures Phases(c, [HIGH, MEDIUM, LOW]).1 <==> SomeHeadFits(c)
  {
    var order := [HIGH, MEDIUM, LOW];
    LowerPhasesAnswer(c, order);
    if p: Priority :| !HeadWaits(c, p) {
      var k := match p case HIGH => 0 case MEDIUM => 1 case LOW => 2 case CRITICAL => 0;
      assert order[k] == p;
    }
  }

  /** A pass answers true exactly if some queue's head could be placed before it, or a CRITICAL
      job waited that may preempt a running job: even if the preemption does not make room for
      it, the pass starts another job in its place. */
  lemma PassAnswerIff(c: Cluster)
    requires Inv(c)
    ensures Pass(c).1 <==>
            || (exists p: Priority :: c.queues[p] != [] && CanSchedule(c, c.queues[p][0]))
            || (c.config.preemption && c.queues[CRITICAL] != [] && !AllCritical(c.active))
  {
    PassAnswerUnfolds(c);
    PhaseInv(c, CRITICAL);
    PhaseEnds(c, CRITICAL);
    ThreePhasesAnswer(Phase(c, CRITICAL).0);
    if SomeHeadFits(c) || MayPreempt(c) {
      CriticalPhaseKeepsChance(c);
    } else {
      assert HeadWaits(c, CRITICAL);
      CriticalPhaseIdle(c);
    }
    if p: Priority :| c.queues[p] != [] && CanSchedule(c, c.queues[p][0]) { assert !HeadWaits(c, p); }
    if p: Priority :| !HeadWaits(c, p) { assert CanSchedule(c, c.queues[p][0]); }
  }

  /** In a cluster whose heads all wait, a submission is answered with true exactly if the new
      job is alone in its queue and the quota has room for it, or a CRITICAL job now waits
      beside running jobs that it may preempt. */
  lemma SubmitAnswerIff(c: Cluster, id: string, named: Option<Priority>, gpus: nat, memory: nat)
    requires Inv(c) && HeadsWait(c) && Total(c, HasId(id)) == 0
    ensures var p := if named.Some? then named.value else MEDIUM;
            Submit(c, id, named, gpus, memory).1 <==>
            || (c.queues[p] == [] && (|| Busy(c.gpus) + gpus <= c.config.maxTrainingGpus
                                      || Busy(c.gpus) == 0))
            || (c.config.preemption && (c.queues[CRITICAL] != [] || p == CRITICAL)
                && exists k :: 0 <= k < |c.active| && c.active[k].priority != CRITICAL)
  {
    var p, job := if named.Some? then named.value else MEDIUM, Request(c.config, id, named, gpus, memory);
    var c1 := Enqueue(c, job);
    EnqueueInv(c, job);
    PassAnswerIff(c1);
    assert QueueOk(c1.config, p, c1.queues[p]);
    CanScheduleIffQuota(c1, job);
    NewHead(c, job);
  }

  // The new job is the only head that was not waiting before.
  lemma NewHead(c: Cluster, job: Job)
    requires Inv(c) && HeadsWait(c)
    ensures var c1 := Enqueue(c, job);
            (exists p: Priority :: c1.queues[p] != [] && CanSchedule(c1, c1.queues[p][0]))
            <==> c.queues[job.priority] == [] && CanSchedule(c1, job)
  {
    var c1 := Enqueue(c, job);
    forall p: Priority | c.queues[p] != [] ensures c1.queues[p] != [] && !CanSchedule(c1, c1.queues[p][0]) {
      assert HeadWaits(c, p);
    }
    if c.queues[job.priority] == [] { assert c1.queues[job.priority] == [job]; }
  }

  // ----- the answers of completion and cancellation -----

  lemma {:induction false} PhaseKeepsCompleted(c: Cluster, p: Priority)
    requires HasQueues(c)
    ensures Phase(c, p).0.completed == c.completed
    decreases |c.queues[p]|, |c.active|
  {
    if c.queues[p] != [] {
      if CanSchedule(c, c.queues[p][0]) {
        PhaseKeepsCompleted(ScheduleHead(c, p), p);
      } else if p == CRITICAL && c.config.preemption && Target(c.active, c.queues[p][0]).Some? {
        PhaseKeepsCompleted(Preempt(c, Target(c.active, c.queues[p][0]).value), p);
      }
    }
  }

  lemma {:induction false} PhasesKeepCompleted(c: Cluster, order: seq<Priority>)
    requires HasQueues(c)
    ensures Phases(c, order).0.completed == c.completed
    decreases |order|
  {
    if order != [] {
      PhaseKeepsQueues(c, order[0]);
      PhaseKeepsCompleted(c, order[0]);
      PhasesKeepCompleted(Phase(c, order[0]).0, order[1..]);
    }
  }

  /** Completing a job that runs answers true and adds just that job to the history, marked
      completed or failed; completing any other answers false and changes nothing. */
  lemma CompleteOutcome(c: Cluster, id: string, success: bool)
    requires HasQueues(c)
    ensures (exists k :: 0 <= k < |c.active| && c.active[k].id == id) <==> Complete(c, id, success).1
    ensures !Complete(c, id, success).1 ==> Complete(c, id, success).0 == c
    ensures forall k :: 0 <= k < |c.active| && DistinctIds(c.active) && c.active[k].id == id ==>
              Complete(c, id, success).0.completed ==
              c.completed + [c.active[k].(status := if success then Completed else Failed)]
  {
    var at := IndexOf(c.active, id);
    if at.Some? { PhasesKeepCompleted(Finish(c, at.value, success), PASS_ORDER); }
  }

  /** Cancelling answers true exactly for a job that runs or waits. */
  lemma CancelAnswerIff(c: Cluster, id: string)
    requires HasQueues(c)
    ensures Cancel(c, id).1 <==>
            || (exists k :: 0 <= k < |c.active| && c.active[k].id == id)
            || (exists p: Priority, k :: 0 <= k < |c.queues[p]| && c.queues[p][k].id == id)
    ensures !Cancel(c, id).1 ==> Cancel(c, id).0 == c
  {
    CancelQueuedAnswer(c, id, CANCEL_ORDER);
    forall p: Priority ensures p in CANCEL_ORDER {
      match p
      case LOW => assert CANCEL_ORDER[0] == p;
      case MEDIUM => assert CANCEL_ORDER[1] == p;
      case HIGH => assert CANCEL_ORDER[2] == p;
      case CRITICAL => assert CANCEL_ORDER[3] == p;
    }
  }

  lemma {:induction false} CancelQueuedAnswer(c: Cluster, id: string, order: seq<Priority>)
    requires HasQueues(c)
    ensures CancelQueued(c, id, order).1 <==>
            exists p: Priority, k :: p in order && 0 <= k < |c.queues[p]| && c.queues[p][k].id == id
    ensures !CancelQueued(c, id, order).1 ==> CancelQueued(c, id, order).0 == c
  {
    if order != [] {
      assert order[0] in order;
      assert forall p :: p in order <==> p == order[0] || p in order[1..];
      var at := IndexOf(c.queues[order[0]], id);
      if at == None { CancelQueuedAnswer(c, id, order[1..]); }
    }
  }

  /** A job cancelled while it waits goes to the history as cancelled, one that runs as failed;
      nothing else is recorded. */
  lemma CancelRecords(c: Cluster, id: string)
    requires HasQueues(c) && Cancel(c, id).1
    ensures exists x: Job ::
              && x.id == id && Cancel(c, id).0.completed == c.completed + [x]
              && (if exists k :: 0 <= k < |c.active| && c.active[k].id == id then x.status == Failed
                  else x.status == Cancelled && exists p: Priority, s :: x.(status := s) in c.queues[p])
  {
    var at := IndexOf(c.active, id);
    if at.Some? {
      PhasesKeepCompleted(Finish(c, at.value, false), PASS_ORDER);
      assert Cancel(c, id).0.completed == c.completed + [c.active[at.value].(status := Failed)];
    } else {
      var p, j := WithdrawnFrom(c, id, CANCEL_ORDER);
      var x := c.queues[p][j].(status := Cancelled);
      assert x.(status := c.queues[p][j].status) in c.queues[p];
    }
  }

  lemma {:induction false} WithdrawnFrom(c: Cluster, id: string, order: seq<Priority>) returns (p: Priority, j: nat)
    requires HasQueues(c) && CancelQueued(c, id, order).1
    ensures j < |c.queues[p]| && c.queues[p][j].id == id && CancelQueued(c, id, order).0 == Withdraw(c, p, j)
  {
    var at := IndexOf(c.queues[order[0]], id);
    if at.Some? {
      p, j := order[0], at.value;
    } else {
      p, j := WithdrawnFrom(c, id, order[1..]);
    }
  }

  // ----- who is served first -----

  /** A job gets the first GPUs that fit it, as many as it needs, and no others change. */
  lemma {:induction false} TakesFirstFitting(gpus: seq<Gpu>, job: Job, need: nat, k: nat)
    requires k < |gpus|
    ensures Assign(gpus, job, need)[k] ==
            if gpus[k].Fits(job.memory) && Fitting(gpus[..k], job.memory) < need
            then Gpu(gpus[k].totalMemory, job.memory, Some(job.id)) else gpus[k]
  {
    if k > 0 {
      assert gpus[..k][1..] == gpus[1..][..k - 1];
      if need > 0 {
        TakesFirstFitting(gpus[1..], job, if gpus[0].Fits(job.memory) then need - 1 else need, k - 1);
      }
    }
  }

  // Every running job ran before or is at least of priority p.
  predicate StartedNoneBelow(before: seq<Job>, active: seq<Job>, p: Priority) {
    forall k :: 0 <= k < |active| ==> active[k] in before || active[k].priority.Value() >= p.Value()
  }

  lemma {:induction false} CriticalPhaseStartsCritical(before: seq<Job>, c: Cluster)
    requires Inv(c) && StartedNoneBelow(before, c.active, CRITICAL)
    ensures StartedNoneBelow(before, Phase(c, CRITICAL).0.active, CRITICAL)
    decreases |c.queues[CRITICAL]|, |c.active|
  {
    if c.queues[CRITICAL] != [] {
      if CanSchedule(c, c.queues[CRITICAL][0]) {
        HeadOnlyAdds(c, CRITICAL);
        CriticalPhaseStartsCritical(before, ScheduleHead(c, CRITICAL));
      } else if c.config.preemption && Target(c.active, c.queues[CRITICAL][0]).Some? {
        var v := Target(c.active, c.queues[CRITICAL][0]).value;
        PreemptInv(c, v);
        CriticalPhaseStartsCritical(before, Preempt(c, v));
      }
    }
  }

  lemma LowerPhaseStarts(before: seq<Job>, c: Cluster, p: Priority)
    requires Inv(c) && p != CRITICAL && StartedNoneBelow(before, c.active, p)
    ensures Inv(Phase(c, p).0) && StartedNoneBelow(before, Phase(c, p).0.active, p)
  {
    PhaseInv(c, p);
    LowerPhaseOnlyAdds(c, p);
    var active := Phase(c, p).0.active;
    forall k | 0 <= k < |active| ensures active[k] in before || active[k].priority.Value() >= p.Value() {
      if k < |c.active| { assert active[k] == c.active[k]; }
    }
  }

  // The running jobs left no room for the head of queue p when its phase had ended, and later
  // phases only add to them.
  ghost predicate NoRoomBeside(before: seq<Job>, c: Cluster, p: Priority)
    requires HasQueues(c)
  {
    c.queues[p] != [] ==>
      exists k :: 0 <= k <= |c.active| && StartedNoneBelow(before, c.active[..k], p)
                  && ActiveGpus(c.active[..k]) + c.queues[p][0].gpus > c.config.maxTrainingGpus
  }

  lemma BusyIsActive(c: Cluster)
    requires Inv(c)
    ensures Busy(c.gpus) == ActiveGpus(c.active)
  {
    HeldByAllIsBusy(c.config, c.gpus, c.active);
    HeldByAllIsActiveGpus(c.gpus, c.active);
  }

  lemma PhaseNoRoom(before: seq<Job>, c: Cluster, p: Priority)
    requires Inv(c) && HeadWaits(c, p) && StartedNoneBelow(before, c.active, p)
    ensures NoRoomBeside(before, c, p)
  {
    if c.queues[p] != [] {
      assert QueueOk(c.config, p, c.queues[p]);
      CanScheduleIffQuota(c, c.queues[p][0]);
      BusyIsActive(c);
      assert c.active[..|c.active|] == c.active;
    }
  }

  lemma NoRoomStays(before: seq<Job>, c: Cluster, c': Cluster, p: Priority)
    requires HasQueues(c) && HasQueues(c') && NoRoomBeside(before, c, p)
    requires c'.queues[p] == c.queues[p] && c.active <= c'.active && c'.config == c.config
    ensures NoRoomBeside(before, c', p)
  {
    if c.queues[p] != [] {
      var k :| 0 <= k <= |c.active| && StartedNoneBelow(before, c.active[..k], p)
               && ActiveGpus(c.active[..k]) + c.queues[p][0].gpus > c.config.maxTrainingGpus;
      assert c'.active[..k] == c.active[..k];
    }
  }

  lemma LowerNoRoom(before: seq<Job>, c: Cluster, p: Priority, o: Priority)
    requires Inv(c) && p != CRITICAL && StartedNoneBelow(before, c.active, p)
    requires o != p ==> NoRoomBeside(before, c, o)
    ensures Inv(Phase(c, p).0) && NoRoomBeside(before, Phase(c, p).0, o)
  {
    LowerPhaseStarts(before, c, p);
    LowerPhaseOnlyAdds(c, p);
    PhaseEnds(c, p);
    if o == p {
      PhaseNoRoom(before, Phase(c, p).0, p);
    } else {
      NoRoomStays(before, c, Phase(c, p).0, o);
    }
  }

  lemma NoneBelowLower(before: seq<Job>, active: seq<Job>, p: Priority, o: Priority)
    requires StartedNoneBelow(before, active, p) && o.Value() <= p.Value()
    ensures StartedNoneBelow(before, active, o)
  {
  }

  /** A job left at the head of its queue has not lost its place to a job of lower priority:
      already without those that the pass started, the running jobs leave no room for it. */
  lemma HigherFirst(c: Cluster, p: Priority)
    requires Inv(c)
    ensures var c' := Pass(c).0;
            HasQueues(c') && (c'.queues[p] != [] ==>
              exists k :: 0 <= k <= |c'.active|
                && ActiveGpus(c'.active[..k]) + c'.queues[p][0].gpus > c'.config.maxTrainingGpus
                && forall j :: 0 <= j < k ==>
                     c'.active[j] in c.active || c'.active[j].priority.Value() >= p.Value())
  {
    PassUnfolds(c);
    var c1 := AfterCritical(c);
    var c2 := Phase(c1, HIGH).0;
    var c3 := Phase(c2, MEDIUM).0;
    CriticalPhaseStartsCritical(c.active, c);
    NoneBelowLower(c.active, c1.active, CRITICAL, HIGH);
    LowerPhaseStarts(c.active, c1, HIGH);
    NoneBelowLower(c.active, c2.active, HIGH, MEDIUM);
    LowerPhaseStarts(c.active, c2, MEDIUM);
    NoneBelowLower(c.active, c3.active, MEDIUM, LOW);
    PhaseEnds(c, CRITICAL);
    if p == CRITICAL { PhaseNoRoom(c.active, c1, CRITICAL); }
    if p == CRITICAL || p == HIGH { LowerNoRoom(c.active, c1, HIGH, p); }
    if p != LOW { LowerNoRoom(c.active, c2, MEDIUM, p); }
    LowerNoRoom(c.active, c3, LOW, p);
    NoRoomSpelled(c.active, Pass(c).0, p);
  }

  lemma NoRoomSpelled(before: seq<Job>, c: Cluster, p: Priority)
    requires HasQueues(c) && NoRoomBeside(before, c, p)
    ensures c.queues[p] != [] ==>
              exists k :: 0 <= k <= |c.active|
                && ActiveGpus(c.active[..k]) + c.queues[p][0].gpus > c.config.maxTrainingGpus
                && forall j :: 0 <= j < k ==>
                     c.active[j] in before || c.active[j].priority.Value() >= p.Value()
  {
    if c.queues[p] != [] {
      var k :| 0 <= k <= |c.active| && StartedNoneBelow(before, c.active[..k], p)
               && ActiveGpus(c.active[..k]) + c.queues[p][0].gpus > c.config.maxTrainingGpus;
      forall j | 0 <= j < k ensures c.active[j] in before || c.active[j].priority.Value() >= p.Value() {
        assert c.active[..k][j] == c.active[j];
      }
    }
  }
}
