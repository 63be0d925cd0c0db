/**
 * The fair queue in its surroundings: the job list, the interfaces of its flows and of its output, and
 * users that may do anything the interfaces allow, at any time. What is proved here is the order in
 * which things happen: a flow that sends again from its done handler is back in the queue before the
 * next scheduling decision.
 */
module FairQueueSystem {
  import opened Options
  import opened Lists
  import opened PendingJobs
  import opened PacketPass
  import Q = FairQueue
  import R = FairQueueRuns

  type Flow = Q.Flow

  /** The queue's own job, in which it decides what to send next. */
  const SCHEDULE := Own(0)

  /**
   * `status` is that of each flow's input, `lens` the length of the packet last sent to it; `out` is the status of the
   * output, and `asked` whether the packet's cancellation has been asked for there.
   */
  datatype System = System(jobs: seq<Job>, q: Q.Queue, status: map<Flow, Status>, lens: map<Flow, nat>, out: Status, asked: bool)

  function Initial(): System {
    System([], Q.Initial(), map[], map[], Idle, false)
  }

  datatype Action =
    | UserSend(flow: Flow, len: nat)
    | UserFlowInit(flow: Flow)
    | UserFlowFree(flow: Flow)
    | UserSetJob(n: nat)
    | UserUnsetJob(n: nat)
    | UserCancel
    | ReceiverDone
    | RunJob

  /** What the callers must observe, and nothing more; a job runs only if it is on top of the list. */
  predicate Enabled(cfg: Q.Config, s: System, a: Action) {
    match a
    case UserSend(f, len) => f in s.status && s.status[f].Idle? && len <= cfg.mtu
    case UserFlowInit(f) => f !in s.status
    case UserFlowFree(f) => f in s.status && s.q.sending != Some(f)
    case UserSetJob(n) => n > 0
    case UserUnsetJob(n) => n > 0
    case UserCancel => !s.out.Idle?
    case ReceiverDone => s.out.Busy?
    case RunJob => s.jobs != []
  }

  /** Passes a packet to the output if the queue has just started one. */
  ghost function StartOutput(s: System, q: Q.Queue): System {
    if s.q.sending.None? && q.sending.Some? then
      s.(q := q, out := OperationPending, asked := false, jobs := Set(s.jobs, Operation(Output)))
    else s.(q := q)
  }

  /** Runs the job `j`, which has been taken off the list; user handlers act afterwards. */
  ghost function Execute(cfg: Q.Config, s: System, j: Job): System
    requires CanExecute(cfg, s, j)
  {
    match j
    case Operation(Input(f)) =>
      StartOutput(s.(status := s.status[f := Busy]), Q.DoSend(s.q, f, s.lens[f]))
    case Done(Input(f)) => s.(status := s.status[f := Idle])
    case Operation(Output) => s.(out := Busy)
    case Done(Output) =>
      var f := s.q.sending.value;
      s.(q := Q.DoOutputDone(cfg, s.q), out := Idle, status := s.status[f := DonePending],
         jobs := Set(Set(s.jobs, SCHEDULE), Done(Input(f))))
    case RequestCancel(_) => s
    case Own(n) => if n == 0 then StartOutput(s, Q.DoScheduleJob(s.q)) else s
  }

  /** The assertions that the program makes when it runs the job. */
  predicate CanExecute(cfg: Q.Config, s: System, j: Job) {
    && Q.WellFormed(s.q)
    && match j
       case Operation(Input(f)) =>
         f in s.status && s.status[f].OperationPending? && f in s.lens && Q.Enabled(cfg, s.q, Q.Send(f, s.lens[f]))
       case Done(Input(f)) => f in s.status && s.status[f].DonePending?
       case Operation(Output) => s.out.OperationPending?
       case Done(Output) =>
         && s.out.DonePending? && Q.Enabled(cfg, s.q, Q.OutputDone) && s.q.previous.None? && !s.q.scheduled
         && s.q.sending.value in s.status && s.status[s.q.sending.value].Busy?
       case RequestCancel(id) => id == Output && s.out.Busy?
       case Own(n) => n == 0 ==> Q.Enabled(cfg, s.q, Q.ScheduleJob) && s.q.sending.None?
  }

  /** The jobs of a flow's input on the list are those that its status calls for. */
  predicate FlowJobs(s: System, f: Flow) {
    && (Operation(Input(f)) in s.jobs <==> f in s.status && s.status[f].OperationPending?)
    && (Done(Input(f)) in s.jobs <==> f in s.status && s.status[f].DonePending?)
    && RequestCancel(Input(f)) !in s.jobs
  }

  /** The same for the output and for the queue's own job. */
  predicate OwnJobs(s: System) {
    && (SCHEDULE in s.jobs <==> s.q.scheduled)
    && (Operation(Output) in s.jobs <==> s.out.OperationPending?)
    && (Done(Output) in s.jobs <==> s.out.DonePending?)
    && (RequestCancel(Output) in s.jobs ==> s.out.Busy? && s.asked)
    && (s.out.OperationPending? ==> !s.asked)
    && (s.out.Idle? <==> s.q.sending.None?)
  }

  /** The queue holds exactly the packets that its flows' inputs are busy with. */
  predicate FlowStatus(cfg: Q.Config, s: System, f: Flow) {
    && (f in s.status <==> f in s.q.time)
    && (f in s.status ==> (s.status[f].Busy? <==> f in s.q.queued || s.q.sending == Some(f)))
    && (f in s.status && s.status[f].OperationPending? ==> f in s.lens && s.lens[f] <= cfg.mtu)
  }

  ghost predicate FlowsMatch(cfg: Q.Config, s: System) {
    (forall f :: FlowJobs(s, f)) && (forall f :: FlowStatus(cfg, s, f))
  }

  /** Whatever the flow that has just finished still has on the list runs before the scheduling job. */
  predicate RequeueFirst(s: System) {
    s.q.previous.Some? ==>
      var f := s.q.previous.value;
      && (Operation(Input(f)) in s.jobs ==> Above(s.jobs, Operation(Input(f)), SCHEDULE))
      && (Done(Input(f)) in s.jobs ==> Above(s.jobs, Done(Input(f)), SCHEDULE))
  }

  ghost predicate Inv(cfg: Q.Config, s: System) {
    && NoDup(s.jobs)
    && Q.Inv(cfg, s.q) && !s.q.freeing
    && OwnJobs(s)
    && FlowsMatch(cfg, s)
    && RequeueFirst(s)
  }

  ghost function Step(cfg: Q.Config, s: System, a: Action): System
    requires Enabled(cfg, s, a)
    requires a.RunJob? ==> CanExecute(cfg, s.(jobs := s.jobs[1..]), s.jobs[0])
  {
    match a
    case UserSend(f, len) =>
      s.(status := s.status[f := OperationPending], lens := s.lens[f := len], jobs := Set(s.jobs, Operation(Input(f))))
    case UserFlowInit(f) => s.(q := Q.DoFlowInit(s.q, f), status := s.status[f := Idle])
    case UserFlowFree(f) =>
      s.(q := Q.DoFlowFree(s.q, f), status := s.status - {f},
         jobs := Without(Without(s.jobs, Done(Input(f))), Operation(Input(f))))
    case UserSetJob(n) => s.(jobs := Set(s.jobs, Own(n)))
    case UserUnsetJob(n) => s.(jobs := Without(s.jobs, Own(n)))
    case UserCancel =>
      if s.asked then s
      else if s.out.OperationPending? then
        s.(asked := true, out := DonePending, jobs := Set(Without(s.jobs, Operation(Output)), Done(Output)))
      else if s.out.Busy? then s.(asked := true, jobs := Set(s.jobs, RequestCancel(Output)))
      else s.(asked := true)
    case ReceiverDone =>
      s.(out := DonePending, jobs := Set(Without(s.jobs, RequestCancel(Output)), Done(Output)))
    case RunJob => Execute(cfg, s.(jobs := s.jobs[1..]), s.jobs[0])
  }

  lemma InitialInv(cfg: Q.Config)
    ensures Inv(cfg, Initial())
  {
  }

  /** No assertion of the program fails when a job runs. */
  lemma AssertionsHold(cfg: Q.Config, s: System)
    requires cfg.Valid() && Inv(cfg, s) && s.jobs != []
    ensures CanExecute(cfg, s.(jobs := s.jobs[1..]), s.jobs[0])
  {
    R.InvWellFormed(cfg, s.q);
    var j := s.jobs[0];
    assert j in s.jobs;
    if s.q.sending.Some? {
      assert FlowStatus(cfg, s, s.q.sending.value);
    }
    if (j.Operation? || j.Done? || j.RequestCancel?) && j.id.Input? {
      assert FlowJobs(s, j.id.n) && FlowStatus(cfg, s, j.id.n);
    }
  }

  // ---------- every action keeps the invariant ----------

  lemma PreviousScheduled(cfg: Q.Config, s: System)
    requires Inv(cfg, s)
    ensures s.q.previous.Some? ==> SCHEDULE in s.jobs
    ensures s.q.sending.Some? ==> SCHEDULE !in s.jobs && s.q.previous.None? && s.q.sending.value !in s.q.queued
  {
  }

  /** Putting a job on the list that is not the scheduling job. */
  lemma SetRequeue(s: System, x: Job, f: Flow)
    requires NoDup(s.jobs) && x != SCHEDULE && SCHEDULE in s.jobs
    requires Operation(Input(f)) in s.jobs ==> Above(s.jobs, Operation(Input(f)), SCHEDULE)
    requires Done(Input(f)) in s.jobs ==> Above(s.jobs, Done(Input(f)), SCHEDULE)
    ensures var jobs := Set(s.jobs, x);
            && (Operation(Input(f)) in jobs ==> Above(jobs, Operation(Input(f)), SCHEDULE))
            && (Done(Input(f)) in jobs ==> Above(jobs, Done(Input(f)), SCHEDULE))
  {
    SetMembers(s.jobs, x);
    SetAbove(s.jobs, x, Operation(Input(f)), SCHEDULE);
    SetAbove(s.jobs, x, Done(Input(f)), SCHEDULE);
  }

  /** Taking a job off the list that is not the scheduling job. */
  lemma UnsetRequeue(s: System, x: Job, f: Flow)
    requires NoDup(s.jobs) && x != SCHEDULE
    requires Operation(Input(f)) in s.jobs ==> Above(s.jobs, Operation(Input(f)), SCHEDULE)
    requires Done(Input(f)) in s.jobs ==> Above(s.jobs, Done(Input(f)), SCHEDULE)
    ensures var jobs := Without(s.jobs, x);
            && (Operation(Input(f)) in jobs ==> Above(jobs, Operation(Input(f)), SCHEDULE))
            && (Done(Input(f)) in jobs ==> Above(jobs, Done(Input(f)), SCHEDULE))
  {
    WithoutMembers(s.jobs, x);
    if Operation(Input(f)) in s.jobs && x != Operation(Input(f)) {
      WithoutAbove(s.jobs, x, Operation(Input(f)), SCHEDULE);
    }
    if Done(Input(f)) in s.jobs && x != Done(Input(f)) {
      WithoutAbove(s.jobs, x, Done(Input(f)), SCHEDULE);
    }
  }

  lemma SetKeeps(cfg: Q.Config, s: System, x: Job)
    requires Inv(cfg, s) && x != SCHEDULE
    ensures NoDup(Set(s.jobs, x)) && RequeueFirst(s.(jobs := Set(s.jobs, x)))
    ensures forall j :: j in Set(s.jobs, x) <==> j in s.jobs || j == x
  {
    SetMembers(s.jobs, x);
    PreviousScheduled(cfg, s);
    if s.q.previous.Some? {
      SetRequeue(s, x, s.q.previous.value);
    }
  }

  lemma UnsetKeeps(s: System, x: Job)
    requires NoDup(s.jobs) && RequeueFirst(s) && x != SCHEDULE
    ensures NoDup(Without(s.jobs, x)) && RequeueFirst(s.(jobs := Without(s.jobs, x)))
    ensures forall j :: j in Without(s.jobs, x) <==> j in s.jobs && j != x
  {
    WithoutMembers(s.jobs, x);
    if s.q.previous.Some? {
      UnsetRequeue(s, x, s.q.previous.value);
    }
  }

  lemma UserSendInv(cfg: Q.Config, s: System, f: Flow, len: nat)
    requires Inv(cfg, s) && Enabled(cfg, s, UserSend(f, len))
    ensures Inv(cfg, Step(cfg, s, UserSend(f, len)))
  {
    hide Q.Inv, Set, Above;
    SetKeeps(cfg, s, Operation(Input(f)));
    var s' := Step(cfg, s, UserSend(f, len));
    forall g ensures FlowJobs(s', g) && FlowStatus(cfg, s', g) {
      assert FlowJobs(s, g) && FlowStatus(cfg, s, g);
    }
  }

  lemma UserJobInv(cfg: Q.Config, s: System, a: Action)
    requires Inv(cfg, s) && Enabled(cfg, s, a) && (a.UserSetJob? || a.UserUnsetJob?)
    ensures Inv(cfg, Step(cfg, s, a))
  {
    hide Q.Inv, Set, Without, Above;
    SetKeeps(cfg, s, Own(a.n));
    UnsetKeeps(s, Own(a.n));
    var s' := Step(cfg, s, a);
    forall g ensures FlowJobs(s', g) && FlowStatus(cfg, s', g) {
      assert FlowJobs(s, g) && FlowStatus(cfg, s, g);
    }
  }

  lemma ReceiverDoneInv(cfg: Q.Config, s: System)
    requires Inv(cfg, s) && s.out.Busy?
    ensures Inv(cfg, Step(cfg, s, ReceiverDone))
  {
    hide Q.Inv, Set, Without, Above;
    PreviousScheduled(cfg, s);
    WithoutMembers(s.jobs, RequestCancel(Output));
    SetMembers(Without(s.jobs, RequestCancel(Output)), Done(Output));
    var s' := Step(cfg, s, ReceiverDone);
    forall g ensures FlowJobs(s', g) && FlowStatus(cfg, s', g) {
      assert FlowJobs(s, g) && FlowStatus(cfg, s, g);
    }
  }

  lemma UserCancelInv(cfg: Q.Config, s: System)
    requires Inv(cfg, s) && !s.out.Idle?
    ensures Inv(cfg, Step(cfg, s, UserCancel))
  {
    hide Q.Inv, Set, Without, Above;
    PreviousScheduled(cfg, s);
    WithoutMembers(s.jobs, Operation(Output));
    SetMembers(Without(s.jobs, Operation(Output)), Done(Output));
    SetMembers(s.jobs, RequestCancel(Output));
    var s' := Step(cfg, s, UserCancel);
    forall g ensures FlowJobs(s', g) && FlowStatus(cfg, s', g) {
      assert FlowJobs(s, g) && FlowStatus(cfg, s, g);
    }
  }

  lemma UserFlowInitInv(cfg: Q.Config, s: System, f: Flow)
    requires cfg.Valid() && Inv(cfg, s) && f !in s.status
    ensures Inv(cfg, Step(cfg, s, UserFlowInit(f)))
  {
    hide Q.Inv, Above;
    assert FlowStatus(cfg, s, f);
    R.InvWellFormed(cfg, s.q);
    R.StepInv(cfg, s.q, Q.FlowInit(f));
    var s' := Step(cfg, s, UserFlowInit(f));
    forall g ensures FlowJobs(s', g) && FlowStatus(cfg, s', g) {
      assert FlowJobs(s, g) && FlowStatus(cfg, s, g);
    }
  }

  lemma UserFlowFreeInv(cfg: Q.Config, s: System, f: Flow)
    requires cfg.Valid() && Inv(cfg, s) && Enabled(cfg, s, UserFlowFree(f))
    ensures Inv(cfg, Step(cfg, s, UserFlowFree(f)))
  {
    hide Q.Inv, Above, Without, Q.Remove;
    assert FlowStatus(cfg, s, f);
    R.InvWellFormed(cfg, s.q);
    R.StepInv(cfg, s.q, Q.FlowFree(f));
    UnsetKeeps(s, Done(Input(f)));
    UnsetKeeps(s.(jobs := Without(s.jobs, Done(Input(f)))), Operation(Input(f)));
    var s' := Step(cfg, s, UserFlowFree(f));
    forall g ensures FlowJobs(s', g) && FlowStatus(cfg, s', g) {
      assert FlowJobs(s, g) && FlowStatus(cfg, s, g);
    }
  }

  // ---------- running the top job ----------

  /** The packets that the queue holds: waiting or on their way. */
  predicate Holds(q: Q.Queue, f: Flow) {
    f in q.queued || q.sending == Some(f)
  }

  lemma ScheduleEffect(q: Q.Queue)
    requires Q.WellFormed(q) && q.queued.Keys != {} && q.sending.None?
    ensures var r := Q.Schedule(q);
            && r.sending.Some? && r.time == q.time && r.previous == q.previous && r.scheduled == q.scheduled && r.freeing == q.freeing
            && forall g :: Holds(r, g) <==> Holds(q, g)
  {
    var f := Q.First(q.time, q.queued.Keys);
    assert f in q.queued;
  }

  lemma SendEffect(cfg: Q.Config, q: Q.Queue, f: Flow, len: nat)
    requires Q.Inv(cfg, q) && Q.Enabled(cfg, q, Q.Send(f, len))
    ensures var r := Q.DoSend(q, f, len);
            && r.time.Keys == q.time.Keys && r.scheduled == q.scheduled && r.freeing == q.freeing
            && r.previous == (if q.previous == Some(f) then None else q.previous)
            && (q.sending.Some? ==> r.sending == q.sending)
            && (q.sending.None? && r.sending.Some? ==> r.previous.None?)
            && forall g :: Holds(r, g) <==> Holds(q, g) || g == f
  {
    R.InvWellFormed(cfg, q);
    hide Q.Schedule, Q.CurrentTime, Q.First;
    var time := if q.previous == Some(f) then q.time else q.time[f := Q.Max(q.time[f], Q.CurrentTime(q))];
    var q' := q.(time := time, queued := q.queued[f := len],
                 previous := if q.previous == Some(f) then None else q.previous);
    assert f in q'.queued;
    assert forall g :: Holds(q', g) <==> Holds(q, g) || g == f;
    if q.sending.None? && !q.scheduled {
      ScheduleEffect(q');
    }
  }

  lemma ScheduleJobEffect(cfg: Q.Config, q: Q.Queue)
    requires Q.Inv(cfg, q) && q.scheduled
    ensures var r := Q.DoScheduleJob(q);
            && r.time.Keys == q.time.Keys && !r.scheduled && r.previous.None? && r.freeing == q.freeing
            && forall g :: Holds(r, g) <==> Holds(q, g)
  {
    R.InvWellFormed(cfg, q);
    hide Q.Schedule;
    var q' := q.(previous := None, scheduled := false);
    assert forall g :: Holds(q', g) <==> Holds(q, g);
    if q.queued.Keys != {} {
      ScheduleEffect(q');
    }
  }

  lemma PopKeeps(s: System)
    requires NoDup(s.jobs) && s.jobs != [] && RequeueFirst(s)
    ensures NoDup(s.jobs[1..])
    ensures forall j :: j in s.jobs[1..] <==> j in s.jobs && j != s.jobs[0]
    ensures s.jobs[0] != SCHEDULE ==> RequeueFirst(s.(jobs := s.jobs[1..]))
  {
    assert s.jobs == [s.jobs[0]] + s.jobs[1..];
    if s.q.previous.Some? && s.jobs[0] != SCHEDULE {
      var f := s.q.previous.value;
      if Operation(Input(f)) in s.jobs && s.jobs[0] != Operation(Input(f)) {
        PopAbove(s.jobs, Operation(Input(f)), SCHEDULE);
      }
      if Done(Input(f)) in s.jobs && s.jobs[0] != Done(Input(f)) {
        PopAbove(s.jobs, Done(Input(f)), SCHEDULE);
      }
    }
  }

  lemma RunOperationInv(cfg: Q.Config, s: System, f: Flow)
    requires cfg.Valid() && Inv(cfg, s) && s.jobs != [] && s.jobs[0] == Operation(Input(f))
    ensures CanExecute(cfg, s.(jobs := s.jobs[1..]), s.jobs[0]) && Inv(cfg, Step(cfg, s, RunJob))
  {
    hide Q.Inv, Above, NoDup, Q.DoSend, Set, FlowsMatch;
    AssertionsHold(cfg, s);
    PopKeeps(s);
    SendEffect(cfg, s.q, f, s.lens[f]);
    R.InvWellFormed(cfg, s.q);
    R.StepInv(cfg, s.q, Q.Send(f, s.lens[f]));
    SetMembers(s.jobs[1..], Operation(Output));
    RunOperationFlows(cfg, s, f);
  }

  lemma RunOperationFlows(cfg: Q.Config, s: System, f: Flow)
    requires cfg.Valid() && Inv(cfg, s) && s.jobs != [] && s.jobs[0] == Operation(Input(f))
    requires CanExecute(cfg, s.(jobs := s.jobs[1..]), s.jobs[0])
    ensures FlowsMatch(cfg, Step(cfg, s, RunJob))
  {
    hide Q.Inv, Above, NoDup, Q.DoSend, Set;
    PopKeeps(s);
    SendEffect(cfg, s.q, f, s.lens[f]);
    SetMembers(s.jobs[1..], Operation(Output));
    var s' := Step(cfg, s, RunJob);
    forall g ensures FlowJobs(s', g) && FlowStatus(cfg, s', g) {
      assert FlowJobs(s, g) && FlowStatus(cfg, s, g);
      assert Holds(s'.q, g) <==> Holds(s.q, g) || g == f;
    }
  }

  lemma RunScheduleInv(cfg: Q.Config, s: System)
    requires cfg.Valid() && Inv(cfg, s) && s.jobs != [] && s.jobs[0] == SCHEDULE
    ensures CanExecute(cfg, s.(jobs := s.jobs[1..]), s.jobs[0]) && Inv(cfg, Step(cfg, s, RunJob))
  {
    hide Q.Inv, Above, NoDup, Q.DoScheduleJob, Set;
    AssertionsHold(cfg, s);
    PopKeeps(s);
    ScheduleJobEffect(cfg, s.q);
    R.InvWellFormed(cfg, s.q);
    R.StepInv(cfg, s.q, Q.ScheduleJob);
    SetMembers(s.jobs[1..], Operation(Output));
    var s' := Step(cfg, s, RunJob);
    forall g ensures FlowJobs(s', g) && FlowStatus(cfg, s', g) {
      assert FlowJobs(s, g) && FlowStatus(cfg, s, g);
      assert Holds(s'.q, g) <==> Holds(s.q, g);
    }
  }

  lemma OutputDoneKeys(cfg: Q.Config, q: Q.Queue)
    requires Q.WellFormed(q) && q.sending.Some?
    ensures Q.DoOutputDone(cfg, q).time.Keys == q.time.Keys
  {
  }

  lemma RunOutputDoneInv(cfg: Q.Config, s: System)
    requires cfg.Valid() && Inv(cfg, s) && s.jobs != [] && s.jobs[0] == Done(Output)
    ensures CanExecute(cfg, s.(jobs := s.jobs[1..]), s.jobs[0]) && Inv(cfg, Step(cfg, s, RunJob))
  {
    hide Q.Inv, Above, NoDup, Q.Increment, Set;
    AssertionsHold(cfg, s);
    PopKeeps(s);
    PreviousScheduled(cfg, s);
    R.InvWellFormed(cfg, s.q);
    R.StepInv(cfg, s.q, Q.OutputDone);
    OutputDoneKeys(cfg, s.q);
    var f := s.q.sending.value;
    var jobs := s.jobs[1..];
    SetMembers(jobs, SCHEDULE);
    SetMembers(Set(jobs, SCHEDULE), Done(Input(f)));
    SetAbove(Set(jobs, SCHEDULE), Done(Input(f)), Done(Input(f)), SCHEDULE);
    var s' := Step(cfg, s, RunJob);
    forall g ensures FlowJobs(s', g) && FlowStatus(cfg, s', g) {
      assert FlowJobs(s, g) && FlowStatus(cfg, s, g);
    }
    assert FlowJobs(s', f);
  }

  lemma RunOtherInv(cfg: Q.Config, s: System)
    requires cfg.Valid() && Inv(cfg, s) && s.jobs != []
    requires s.jobs[0] != SCHEDULE && s.jobs[0] != Done(Output) && !(s.jobs[0].Operation? && s.jobs[0].id.Input?)
    ensures CanExecute(cfg, s.(jobs := s.jobs[1..]), s.jobs[0]) && Inv(cfg, Step(cfg, s, RunJob))
  {
    hide Q.Inv, Above, NoDup, Q.WellFormed, Q.DoSend, Q.DoOutputDone, Q.DoScheduleJob, Set;
    AssertionsHold(cfg, s);
    PopKeeps(s);
    var s' := Step(cfg, s, RunJob);
    forall g ensures FlowJobs(s', g) && FlowStatus(cfg, s', g) {
      assert FlowJobs(s, g) && FlowStatus(cfg, s, g);
    }
  }

  /** Whatever users, the receiver and the job list do, the invariant holds and no assertion fails. */
  lemma StepInv(cfg: Q.Config, s: System, a: Action)
    requires cfg.Valid() && Inv(cfg, s) && Enabled(cfg, s, a)
    ensures a.RunJob? ==> CanExecute(cfg, s.(jobs := s.jobs[1..]), s.jobs[0])
    ensures Inv(cfg, Step(cfg, s, a))
  {
    hide Inv, Step, CanExecute;
    match a
    case UserSend(f, len) => UserSendInv(cfg, s, f, len);
    case UserFlowInit(f) => UserFlowInitInv(cfg, s, f);
    case UserFlowFree(f) => UserFlowFreeInv(cfg, s, f);
    case UserSetJob(n) => UserJobInv(cfg, s, a);
    case UserUnsetJob(n) => UserJobInv(cfg, s, a);
    case UserCancel => UserCancelInv(cfg, s);
    case ReceiverDone => ReceiverDoneInv(cfg, s);
    case RunJob =>
      var j := s.jobs[0];
      if j == SCHEDULE {
        RunScheduleInv(cfg, s);
      } else if j == Done(Output) {
        RunOutputDoneInv(cfg, s);
      } else if j.Operation? && j.id.Input? {
        RunOperationInv(cfg, s, j.id.n);
      } else {
        RunOtherInv(cfg, s);
      }
  }

  // ---------- requeue before reschedule ----------

  ghost predicate Possible(cfg: Q.Config, s: System, acts: seq<Action>)
    requires cfg.Valid() && Inv(cfg, s)
    decreases |acts|
  {
    acts == [] || (Enabled(cfg, s, acts[0]) && (StepInv(cfg, s, acts[0]); Possible(cfg, Step(cfg, s, acts[0]), acts[1..])))
  }

  ghost function Run(cfg: Q.Config, s: System, acts: seq<Action>): (r: System)
    requires cfg.Valid() && Inv(cfg, s) && Possible(cfg, s, acts)
    ensures Inv(cfg, r)
    decreases |acts|
  {
    if acts == [] then s else StepInv(cfg, s, acts[0]); Run(cfg, Step(cfg, s, acts[0]), acts[1..])
  }

  /**
   * Requeue before reschedule: in every run, when the scheduling job is about to run, the flow that
   * sent the last packet either is back in the queue, or has had its done handler called and has sent
   * nothing since. A Send made from the done handler can never miss the decision.
   */
  lemma RequeueBeforeReschedule(cfg: Q.Config, acts: seq<Action>)
    requires cfg.Valid() && (InitialInv(cfg); Possible(cfg, Initial(), acts))
    ensures (InitialInv(cfg);
             var s := Run(cfg, Initial(), acts);
             s.jobs != [] && s.jobs[0] == SCHEDULE && s.q.previous.Some? ==>
               var f := s.q.previous.value;
               && f in s.status && s.status[f].Idle?
               && Operation(Input(f)) !in s.jobs && Done(Input(f)) !in s.jobs)
  {
    InitialInv(cfg);
    var s := Run(cfg, Initial(), acts);
    if s.jobs != [] && s.jobs[0] == SCHEDULE && s.q.previous.Some? {
      var f := s.q.previous.value;
      R.InvWellFormed(cfg, s.q);
      assert FlowJobs(s, f) && FlowStatus(cfg, s, f);
    }
  }

  // ---------- the queue in the system is the queue by itself ----------

  /** The length of the packet that the user last sent to the flow. */
  function LastSent(past: seq<Action>, f: Flow): nat
    decreases |past|
  {
    if past == [] then 0
    else
      var a := past[|past| - 1];
      if a.UserSend? && a.flow == f then a.len else LastSent(past[..|past| - 1], f)
  }

  predicate LenAsSent(past: seq<Action>, s: System, f: Flow) {
    f in s.status && s.status[f].OperationPending? ==> f in s.lens && s.lens[f] == LastSent(past, f)
  }

  /** What an action is for the queue: the packets that reach it are those that users have sent. */
  function QueueEvents(past: seq<Action>, s: System, a: Action): seq<Q.Event>
    requires a.RunJob? ==> s.jobs != []
  {
    match a
    case UserFlowInit(f) => [Q.FlowInit(f)]
    case UserFlowFree(f) => [Q.FlowFree(f)]
    case RunJob =>
      (match s.jobs[0]
       case Operation(Input(f)) => [Q.Send(f, LastSent(past, f))]
       case Done(Output) => [Q.OutputDone]
       case Own(n) => if n == 0 then [Q.ScheduleJob] else []
       case _ => [])
    case _ => []
  }

  ghost function AllQueueEvents(cfg: Q.Config, past: seq<Action>, s: System, acts: seq<Action>): seq<Q.Event>
    requires cfg.Valid() && Inv(cfg, s) && Possible(cfg, s, acts)
    decreases |acts|
  {
    if acts == [] then []
    else
      StepInv(cfg, s, acts[0]);
      QueueEvents(past, s, acts[0]) + AllQueueEvents(cfg, past + [acts[0]], Step(cfg, s, acts[0]), acts[1..])
  }

  lemma StepLens(cfg: Q.Config, past: seq<Action>, s: System, a: Action, f: Flow)
    requires cfg.Valid() && Inv(cfg, s) && Enabled(cfg, s, a) && LenAsSent(past, s, f)
    requires a.RunJob? ==> CanExecute(cfg, s.(jobs := s.jobs[1..]), s.jobs[0])
    ensures LenAsSent(past + [a], Step(cfg, s, a), f)
  {
    assert (past + [a])[..|past|] == past;
    hide Inv, Set, Without, Q.DoSend, Q.DoOutputDone, Q.DoScheduleJob, Q.DoFlowFree, Q.WellFormed, Q.Enabled;
  }

  /** One action is at most one event of the queue, and its effect on the queue is that of the event. */
  lemma StepQueue(cfg: Q.Config, past: seq<Action>, s: System, a: Action)
    requires cfg.Valid() && Inv(cfg, s) && Enabled(cfg, s, a)
    requires forall f :: LenAsSent(past, s, f)
    ensures a.RunJob? ==> CanExecute(cfg, s.(jobs := s.jobs[1..]), s.jobs[0])
    ensures Q.WellFormed(s.q)
    ensures var evs, q' := QueueEvents(past, s, a), Step(cfg, s, a).q;
            if evs == [] then q' == s.q else evs == [evs[0]] && Q.Enabled(cfg, s.q, evs[0]) && q' == Q.Step(cfg, s.q, evs[0])
  {
    R.InvWellFormed(cfg, s.q);
    if a.UserFlowInit? || a.UserFlowFree? {
      assert FlowStatus(cfg, s, a.flow);
    } else if a.RunJob? {
      AssertionsHold(cfg, s);
      if s.jobs[0].Operation? && s.jobs[0].id.Input? {
        assert LenAsSent(past, s, s.jobs[0].id.n);
      }
    }
    hide Set, Without, Q.DoSend, Q.DoOutputDone, Q.DoScheduleJob, Q.DoFlowFree, Q.Inv, FlowsMatch;
  }

  /**
   * Whatever happens around it, the queue in the system goes through a run of the queue by itself, in which the packets
   * are those that users sent, with their lengths. What is proved of all runs of the queue holds of it here.
   */
  lemma {:induction false} QueueRuns(cfg: Q.Config, past: seq<Action>, s: System, acts: seq<Action>)
    requires cfg.Valid() && Inv(cfg, s) && Possible(cfg, s, acts)
    requires forall f :: LenAsSent(past, s, f)
    ensures var evs := AllQueueEvents(cfg, past, s, acts);
            R.Possible(cfg, s.q, evs) && R.Run(cfg, s.q, evs) == Run(cfg, s, acts).q
    decreases |acts|
  {
    hide Step, Inv, Q.Step, Q.Enabled, Q.WellFormed, QueueEvents, CanExecute, LenAsSent;
    if acts != [] {
      var a := acts[0];
      StepInv(cfg, s, a);
      StepQueue(cfg, past, s, a);
      forall f ensures LenAsSent(past + [a], Step(cfg, s, a), f) {
        StepLens(cfg, past, s, a, f);
      }
      QueueRuns(cfg, past + [a], Step(cfg, s, a), acts[1..]);
      var evs, rest := QueueEvents(past, s, a), AllQueueEvents(cfg, past + [a], Step(cfg, s, a), acts[1..]);
      if evs == [] {
        assert evs + rest == rest;
      } else {
        assert (evs + rest)[0] == evs[0] && (evs + rest)[1..] == rest;
      }
    }
  }

  lemma QueueRunsFromInitial(cfg: Q.Config, acts: seq<Action>)
    requires cfg.Valid() && (InitialInv(cfg); Possible(cfg, Initial(), acts))
    ensures (InitialInv(cfg);
             var evs := AllQueueEvents(cfg, [], Initial(), acts);
             && Q.Inv(cfg, Q.Initial()) && R.Possible(cfg, Q.Initial(), evs)
             && R.Run(cfg, Q.Initial(), evs) == Run(cfg, Initial(), acts).q)
  {
    InitialInv(cfg);
    QueueRuns(cfg, [], Initial(), acts);
  }

  // ---------- and so is its output ----------

  function OutputView(s: System): Interface {
    Interface(s.out, s.asked, Operation(Output) in s.jobs, RequestCancel(Output) in s.jobs, Done(Output) in s.jobs)
  }

  /** What an action is for the output; a packet is sent there when the queue starts one. */
  ghost function OutputEvents(cfg: Q.Config, s: System, a: Action): seq<PacketPass.Event>
    requires Enabled(cfg, s, a)
    requires a.RunJob? ==> CanExecute(cfg, s.(jobs := s.jobs[1..]), s.jobs[0])
  {
    match a
    case UserCancel => [AskCancel]
    case ReceiverDone => [Finish]
    case RunJob =>
      (match s.jobs[0]
       case Operation(Output) => [RunOperation]
       case RequestCancel(Output) => [RunCancel]
       case Done(Output) => [RunDone]
       case _ => if s.q.sending.None? && Step(cfg, s, a).q.sending.Some? then [Send] else [])
    case _ => []
  }

  ghost predicate OutputSteps(cfg: Q.Config, s: System, a: Action)
    requires Enabled(cfg, s, a)
    requires a.RunJob? ==> CanExecute(cfg, s.(jobs := s.jobs[1..]), s.jobs[0])
  {
    var evs, i, i' := OutputEvents(cfg, s, a), OutputView(s), OutputView(Step(cfg, s, a));
    if evs == [] then i' == i else evs == [evs[0]] && PacketPass.Enabled(i, evs[0]) && i' == PacketPass.Step(i, evs[0])
  }

  lemma StepOutput(cfg: Q.Config, s: System, a: Action)
    requires cfg.Valid() && Inv(cfg, s) && Enabled(cfg, s, a)
    ensures a.RunJob? ==> CanExecute(cfg, s.(jobs := s.jobs[1..]), s.jobs[0])
    ensures OutputSteps(cfg, s, a)
  {
    if a.RunJob? {
      AssertionsHold(cfg, s);
      RunOutput(cfg, s);
    } else {
      UserOutput(cfg, s, a);
    }
  }

  lemma UserOutput(cfg: Q.Config, s: System, a: Action)
    requires Inv(cfg, s) && Enabled(cfg, s, a) && !a.RunJob?
    ensures OutputSteps(cfg, s, a)
  {
    hide Q.Inv, Set, Without, Q.DoFlowFree, Q.DoFlowInit, FlowsMatch, RequeueFirst;
    match a
    case UserSend(f, _) => SetMembers(s.jobs, Operation(Input(f)));
    case UserFlowInit(_) =>
    case UserFlowFree(f) =>
      WithoutMembers(s.jobs, Done(Input(f)));
      WithoutMembers(Without(s.jobs, Done(Input(f))), Operation(Input(f)));
    case UserSetJob(n) => SetMembers(s.jobs, Own(n));
    case UserUnsetJob(n) => WithoutMembers(s.jobs, Own(n));
    case UserCancel =>
      WithoutMembers(s.jobs, Operation(Output));
      SetMembers(Without(s.jobs, Operation(Output)), Done(Output));
      SetMembers(s.jobs, RequestCancel(Output));
    case ReceiverDone =>
      WithoutMembers(s.jobs, RequestCancel(Output));
      SetMembers(Without(s.jobs, RequestCancel(Output)), Done(Output));
  }

  lemma RunOutput(cfg: Q.Config, s: System)
    requires cfg.Valid() && Inv(cfg, s) && s.jobs != []
    requires CanExecute(cfg, s.(jobs := s.jobs[1..]), s.jobs[0])
    ensures OutputSteps(cfg, s, RunJob)
  {
    hide Q.Inv, Set, Q.DoSend, Q.DoScheduleJob, Q.DoOutputDone, Q.WellFormed, Q.Enabled, FlowsMatch, NoDup, RequeueFirst;
    PopKeeps(s);
    var jobs, j := s.jobs[1..], s.jobs[0];
    if j == Done(Output) {
      SetMembers(jobs, SCHEDULE);
      SetMembers(Set(jobs, SCHEDULE), Done(Input(s.q.sending.value)));
    } else if j == SCHEDULE || (j.Operation? && j.id.Input?) {
      StartedOutput(cfg, s);
    }
  }

  /** The output is idle when the queue starts a packet. */
  lemma StartedOutput(cfg: Q.Config, s: System)
    requires cfg.Valid() && Inv(cfg, s) && s.jobs != [] && (s.jobs[0] == SCHEDULE || (s.jobs[0].Operation? && s.jobs[0].id.Input?))
    requires CanExecute(cfg, s.(jobs := s.jobs[1..]), s.jobs[0])
    ensures OutputSteps(cfg, s, RunJob)
  {
    hide Q.Inv, Set, Q.DoSend, Q.DoScheduleJob, Q.DoOutputDone, Q.WellFormed, Q.Enabled, FlowsMatch, NoDup, RequeueFirst;
    PopKeeps(s);
    SetMembers(s.jobs[1..], Operation(Output));
  }

  ghost function AllOutputEvents(cfg: Q.Config, s: System, acts: seq<Action>): seq<PacketPass.Event>
    requires cfg.Valid() && Inv(cfg, s) && Possible(cfg, s, acts)
    decreases |acts|
  {
    if acts == [] then []
    else
      StepInv(cfg, s, acts[0]);
      OutputEvents(cfg, s, acts[0]) + AllOutputEvents(cfg, Step(cfg, s, acts[0]), acts[1..])
  }

  /**
   * The output of the queue goes through a run of the interface by itself: a packet is sent there only when it is idle,
   * and a cancellation reaches the receiver as it does over any interface.
   */
  lemma {:induction false} OutputRuns(cfg: Q.Config, s: System, acts: seq<Action>)
    requires cfg.Valid() && Inv(cfg, s) && Possible(cfg, s, acts)
    ensures var evs := AllOutputEvents(cfg, s, acts);
            PacketPass.Possible(OutputView(s), evs) && PacketPass.Run(OutputView(s), evs) == OutputView(Run(cfg, s, acts))
    decreases |acts|
  {
    hide Inv, Step, Enabled, CanExecute, OutputEvents, OutputView, PacketPass.Step, PacketPass.Enabled;
    if acts != [] {
      StepInv(cfg, s, acts[0]);
      StepOutput(cfg, s, acts[0]);
      OutputRuns(cfg, Step(cfg, s, acts[0]), acts[1..]);
      var evs, rest := OutputEvents(cfg, s, acts[0]), AllOutputEvents(cfg, Step(cfg, s, acts[0]), acts[1..]);
      if evs == [] {
        assert evs + rest == rest;
      } else {
        assert (evs + rest)[0] == evs[0] && (evs + rest)[1..] == rest;
      }
    }
  }
}
