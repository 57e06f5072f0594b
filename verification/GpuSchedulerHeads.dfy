/** When the heads of all queues wait for GPUs, over whole runs. */
module GpuSchedulerHeads {
  // A pass leaves no head that could be placed; what the operations between passes do to
  // that is the subject here.

  import opened Wrappers
  import opened GpuSchedulerModel
  import opened GpuSchedulerProofs

  /** No queue's head could be placed. */
  ghost predicate HeadsWait(c: Cluster)
    requires HasQueues(c)
  {
    forall p: Priority :: HeadWaits(c, p)
  }

  lemma PassSettles(c: Cluster)
    requires Inv(c)
    ensures Inv(Pass(c).0) && HeadsWait(Pass(c).0)
  {
    PassInv(c);
    forall p: Priority ensures HeadWaits(Pass(c).0, p) { PassLeavesNoPlaceableHead(c, p); }
  }

  /** Cancelling a queued job does not reschedule: afterwards all heads wait exactly if it was
      not the head, or the next job in its queue cannot be placed either. */
  lemma WithdrawSettledIff(c: Cluster, p: Priority, i: nat)
    requires Inv(c) && HeadsWait(c) && i < |c.queues[p]|
    ensures HeadsWait(Withdraw(c, p, i)) <==>
            i > 0 || |c.queues[p]| == 1 || Busy(c.gpus) + c.queues[p][1].gpus > c.config.maxTrainingGpus
  {
    var c' := Withdraw(c, p, i);
    forall o: Priority | o != p ensures HeadWaits(c', o) {
      assert HeadWaits(c, o) && c'.queues[o] == c.queues[o];
      SamePlacement(c, c', o);
    }
    assert HeadWaits(c, p);
    if i > 0 {
      SamePlacement(c, c', p);
      assert HeadsWait(c');
    } else {
      SecondPlaceable(c, p);
      if HeadWaits(c', p) { assert HeadsWait(c'); }
    }
  }

  lemma SecondPlaceable(c: Cluster, p: Priority)
    requires Inv(c) && c.queues[p] != []
    ensures HeadWaits(Withdraw(c, p, 0), p) <==>
            |c.queues[p]| == 1 || Busy(c.gpus) + c.queues[p][1].gpus > c.config.maxTrainingGpus
  {
    var c' := Withdraw(c, p, 0);
    WithdrawInv(c, p, 0);
    assert QueueOk(c'.config, p, c'.queues[p]);
    if |c.queues[p]| > 1 {
      assert c'.queues[p][0] == c.queues[p][1];
      CanScheduleIffQuota(c', c'.queues[p][0]);
    }
  }

  // Whether a head can be placed depends on the GPUs and the running jobs only.
  lemma SamePlacement(c: Cluster, c': Cluster, p: Priority)
    requires HasQueues(c) && HasQueues(c') && HeadWaits(c, p)
    requires c'.gpus == c.gpus && c'.active == c.active && c'.config == c.config
    requires c'.queues[p] != [] ==> c.queues[p] != [] && c'.queues[p][0] == c.queues[p][0]
    ensures HeadWaits(c', p)
  {
  }

  /** Where a cancellation finds a queued job: the first queue that has it, in the order of
      the search. */
  function QueuedAt(c: Cluster, id: string, order: seq<Priority>): (at: Option<(Priority, nat)>)
    requires HasQueues(c)
    ensures at.Some? ==> at.value.1 < |c.queues[at.value.0]|
  {
    if order == [] then None
    else
      match IndexOf(c.queues[order[0]], id)
      case Some(i) => Some((order[0], i))
      case None => QueuedAt(c, id, order[1..])
  }

  lemma {:induction false} CancelQueuedIs(c: Cluster, id: string, order: seq<Priority>)
    requires HasQueues(c)
    ensures CancelQueued(c, id, order).0 ==
            match QueuedAt(c, id, order)
            case Some(at) => Withdraw(c, at.0, at.1)
            case None => c
  {
    if order != [] && IndexOf(c.queues[order[0]], id) == None {
      CancelQueuedIs(c, id, order[1..]);
    }
  }

  /** The operation ends in a scheduling pass. */
  predicate Reschedules(c: Cluster, op: Op) {
    match op
    case OpSubmit(_, _, _, _) => true
    case OpComplete(id, _) => IndexOf(c.active, id).Some?
    case OpCancel(id) => IndexOf(c.active, id).Some?
  }

  /** The operation does not withdraw a queue's head whose successor could be placed. */
  predicate Spares(c: Cluster, op: Op)
    requires HasQueues(c)
  {
    if !op.OpCancel? || IndexOf(c.active, op.id).Some? then true
    else
      match QueuedAt(c, op.id, CANCEL_ORDER)
      case None => true
      case Some(at) =>
        var q := c.queues[at.0];
        at.1 > 0 || |q| == 1 || Busy(c.gpus) + q[1].gpus > c.config.maxTrainingGpus
  }

  lemma RescheduleSettles(c: Cluster, op: Op)
    requires Inv(c) && Fresh(c, op) && Reschedules(c, op)
    ensures Inv(Step(c, op)) && HeadsWait(Step(c, op))
  {
    match op
    case OpSubmit(id, named, gpus, memory) =>
      EnqueueInv(c, Request(c.config, id, named, gpus, memory));
      PassSettles(Enqueue(c, Request(c.config, id, named, gpus, memory)));
    case OpComplete(id, success) => FinishSettles(c, IndexOf(c.active, id).value, success);
    case OpCancel(id) => FinishSettles(c, IndexOf(c.active, id).value, false);
  }

  lemma FinishSettles(c: Cluster, i: nat, success: bool)
    requires Inv(c) && i < |c.active|
    ensures var c' := Pass(Finish(c, i, success)).0; Inv(c') && HeadsWait(c')
  {
    FinishInv(c, i, success);
    PassSettles(Finish(c, i, success));
  }

  /** One operation on a cluster whose heads all wait leaves them waiting exactly if it
      reschedules or spares the heads. */
  lemma StepSettledIff(c: Cluster, op: Op)
    requires Inv(c) && HeadsWait(c) && Fresh(c, op)
    ensures Inv(Step(c, op)) && (HeadsWait(Step(c, op)) <==> Reschedules(c, op) || Spares(c, op))
  {
    StepInv(c, op);
    if Reschedules(c, op) {
      RescheduleSettles(c, op);
    } else if op.OpCancel? {
      CancelQueuedIs(c, op.id, CANCEL_ORDER);
      var at := QueuedAt(c, op.id, CANCEL_ORDER);
      if at.Some? { WithdrawSettledIff(c, at.value.0, at.value.1); }
    }
  }

  /** Every operation of the run reschedules or spares the heads. */
  ghost predicate AllSettle(c: Cluster, ops: seq<Op>)
    requires Inv(c)
    decreases |ops|
  {
    ops != [] && Fresh(c, ops[0]) ==>
      && (Reschedules(c, ops[0]) || Spares(c, ops[0]))
      && (StepInv(c, ops[0]); AllSettle(Step(c, ops[0]), ops[1..]))
  }

  /** So in the clusters reached by such runs no queue's head could be placed. */
  lemma {:induction false} RunSettled(c: Cluster, ops: seq<Op>)
    requires Inv(c) && HeadsWait(c) && Run(c, ops).Some? && AllSettle(c, ops)
    ensures HasQueues(Run(c, ops).value) && HeadsWait(Run(c, ops).value)
    decreases |ops|
  {
    if ops != [] {
      StepSettledIff(c, ops[0]);
      RunSettled(Step(c, ops[0]), ops[1..]);
    }
  }

  lemma InitialSettled(config: Config)
    requires ConfigOk(config)
    ensures Inv(Initial(config)) && HeadsWait(Initial(config))
  {
    InitialInv(config);
    forall p: Priority ensures HeadWaits(Initial(config), p) {
      match p { case LOW => case MEDIUM => case HIGH => case CRITICAL => }
    }
  }
}
