/** The interface through which a sender passes packets to a receiver: four states and three jobs. */
module PacketPass {
  import opened Lists
  import opened PendingJobs

  /** Which interface a job belongs to: one of the inputs of a component, or its output. */
  datatype Id = Input(n: nat) | Output

  /** The jobs of the interfaces, and those that components have of their own. */
  datatype Job = Operation(id: Id) | RequestCancel(id: Id) | Done(id: Id) | Own(n: nat)

  datatype Status = Idle | OperationPending | Busy | DonePending

  /** An interface together with which of its three jobs are pending. */
  datatype Interface = Interface(status: Status, cancelRequested: bool, operation: bool, cancel: bool, done: bool)

  const FRESH := Interface(Idle, false, false, false, false)

  /** The jobs that are pending are determined by the status, except whether a cancel is still to be passed on. */
  predicate Inv(i: Interface) {
    && (i.operation <==> i.status.OperationPending?)
    && (i.done <==> i.status.DonePending?)
    && (i.cancel ==> i.status.Busy? && i.cancelRequested)
    && (i.status.OperationPending? ==> !i.cancelRequested)
  }

  /**
   * What can happen: the sender sends or asks to cancel, the receiver finishes, or a pending job runs
   * and calls the receiver's operation or cancel handler or the sender's done handler.
   */
  datatype Event = Send | AskCancel | Finish | RunOperation | RunCancel | RunDone

  predicate Enabled(i: Interface, ev: Event) {
    match ev
    case Send => i.status.Idle?
    case AskCancel => !i.status.Idle?
    case Finish => i.status.Busy?
    case RunOperation => i.operation
    case RunCancel => i.cancel
    case RunDone => i.done
  }

  function Step(i: Interface, ev: Event): Interface
    requires Enabled(i, ev)
  {
    match ev
    case Send => i.(status := OperationPending, cancelRequested := false, operation := true)
    case AskCancel =>
      if i.cancelRequested then i
      else if i.status.OperationPending? then
        i.(cancelRequested := true, operation := false, done := true, status := DonePending)
      else if i.status.Busy? then i.(cancelRequested := true, cancel := true)
      else i.(cancelRequested := true)
    case Finish => i.(cancel := false, done := true, status := DonePending)
    case RunOperation => i.(operation := false, status := Busy)
    case RunCancel => i.(cancel := false)
    case RunDone => i.(done := false, status := Idle)
  }

  lemma StepInv(i: Interface, ev: Event)
    requires Inv(i) && Enabled(i, ev)
    ensures Inv(Step(i, ev))
  {
  }

  // ---------- one done for every send ----------

  ghost predicate Possible(i: Interface, evs: seq<Event>)
    decreases |evs|
  {
    evs == [] || (Enabled(i, evs[0]) && Possible(Step(i, evs[0]), evs[1..]))
  }

  ghost function Run(i: Interface, evs: seq<Event>): Interface
    requires Possible(i, evs)
    decreases |evs|
  {
    if evs == [] then i else Run(Step(i, evs[0]), evs[1..])
  }

  function Count(evs: seq<Event>, ev: Event): nat {
    if evs == [] then 0 else (if evs[0] == ev then 1 else 0) + Count(evs[1..], ev)
  }

  function Outstanding(i: Interface): nat {
    if i.status.Idle? then 0 else 1
  }

  function Started(i: Interface): nat {
    if i.status.OperationPending? then 1 else 0
  }

  /**
   * Every packet sent is answered by exactly one call of the done handler, whether or not, when and
   * how often its cancellation is asked for: at any point of any run at most one answer is missing,
   * and none once the interface is idle. The operation handler is called at most once per packet, and
   * the cancel handler at most once per call of the operation handler.
   */
  lemma {:induction false} OneDonePerSend(i: Interface, evs: seq<Event>)
    requires Inv(i) && Possible(i, evs)
    ensures var r := Run(i, evs);
            && Inv(r)
            && Outstanding(i) + Count(evs, Send) == Count(evs, RunDone) + Outstanding(r)
            && Count(evs, RunOperation) + Started(r) <= Started(i) + Count(evs, Send)
            && Count(evs, RunCancel) + Unasked(r) <= Unasked(i) + Count(evs, RunOperation)
    decreases |evs|
  {
    if evs != [] {
      StepInv(i, evs[0]);
      OneDonePerSend(Step(i, evs[0]), evs[1..]);
    }
  }

  /** Whether the cancel handler may still be called for the packet being worked on. */
  function Unasked(i: Interface): nat {
    if i.status.Busy? && (!i.cancelRequested || i.cancel) then 1 else 0
  }

  lemma {:induction false} CountIn(evs: seq<Event>, ev: Event)
    ensures ev in evs <==> Count(evs, ev) > 0
  {
    if evs != [] {
      CountIn(evs[1..], ev);
      assert evs == [evs[0]] + evs[1..];
    }
  }

  /**
   * A packet whose cancellation is asked for before its operation has started is never passed on: whatever
   * happens until another packet is sent, neither the operation nor the cancel handler is called, and the
   * done handler is called once, after which the interface is idle.
   */
  lemma {:induction false} CancelledBeforeStart(i: Interface, evs: seq<Event>)
    requires Inv(i) && i.status.OperationPending? && Possible(Step(i, AskCancel), evs) && Send !in evs
    ensures RunOperation !in evs && RunCancel !in evs
    ensures var r := Run(Step(i, AskCancel), evs);
            && Enabled(Step(i, AskCancel), RunDone)
            && Count(evs, RunDone) <= 1
            && (r.status.Idle? <==> RunDone in evs)
  {
    var r := Step(i, AskCancel);
    OneDonePerSend(r, evs);
    CountIn(evs, Send);
    CountIn(evs, RunOperation);
    CountIn(evs, RunCancel);
    CountIn(evs, RunDone);
  }

  // ---------- what the interface is doing, told from what has happened ----------

  /** What has happened since the last packet was sent. */
  function Since(past: seq<Event>): seq<Event>
    decreases |past|
  {
    if past == [] || past[|past| - 1] == Send then [] else Since(past[..|past| - 1]) + [past[|past| - 1]]
  }

  /**
   * A packet is with the receiver from the call of its operation handler until the receiver finishes, unless it was
   * cancelled before; and a cancellation that is asked for meanwhile, and only that, is passed on to the receiver.
   */
  predicate Told(past: seq<Event>, i: Interface) {
    var since := Since(past);
    && (i.status.Idle? <==> Send !in past || RunDone in since)
    && (i.status.OperationPending? <==> Send in past && RunOperation !in since && AskCancel !in since)
    && (i.status.Busy? <==> RunOperation in since && Finish !in since)
    && (i.cancelRequested <==> AskCancel in since)
    && (i.cancel <==> RunOperation in since && Finish !in since && AskCancel in since && RunCancel !in since)
    && (Finish in since ==> RunOperation in since)
    && (RunCancel in since ==> RunOperation in since && AskCancel in since)
  }

  lemma StepTold(past: seq<Event>, i: Interface, ev: Event)
    requires Inv(i) && Enabled(i, ev) && Told(past, i)
    ensures Told(past + [ev], Step(i, ev))
  {
    var past' := past + [ev];
    assert past'[..|past|] == past && past'[|past|] == ev;
    assert ev != Send ==> Since(past') == Since(past) + [ev];
    hide Since;
    NothingBefore(past);
  }

  lemma {:induction false} NothingBefore(past: seq<Event>)
    ensures Send !in past ==> Since(past) == past
    ensures forall ev :: ev in Since(past) ==> ev in past && ev != Send
    decreases |past|
  {
    if past != [] {
      NothingBefore(past[..|past| - 1]);
      assert past == past[..|past| - 1] + [past[|past| - 1]];
    }
  }

  lemma {:induction false} RunTold(past: seq<Event>, i: Interface, evs: seq<Event>)
    requires Inv(i) && Possible(i, evs) && Told(past, i)
    ensures Told(past + evs, Run(i, evs))
    decreases |evs|
  {
    hide Told, Step, Inv, Enabled;
    if evs == [] {
      assert past + evs == past;
    } else {
      StepInv(i, evs[0]);
      StepTold(past, i, evs[0]);
      RunTold(past + [evs[0]], Step(i, evs[0]), evs[1..]);
      assert past + [evs[0]] + evs[1..] == past + evs;
    }
  }

  /** What the interface is doing after every run, and whether a cancellation is still to be passed on. */
  lemma StatusExactly(evs: seq<Event>)
    requires Possible(FRESH, evs)
    ensures Told(evs, Run(FRESH, evs))
  {
    RunTold([], FRESH, evs);
    assert [] + evs == evs;
  }

  // ---------- the object ----------

  class PacketPassInterface {
    const id: Id
    const group: PendingGroup<Job>
    var status: Status
    var cancelRequested: bool

    ghost function View(): Interface
      reads this, group
    {
      Interface(status, cancelRequested, Operation(id) in group.jobs, RequestCancel(id) in group.jobs, Done(id) in group.jobs)
    }

    ghost predicate Valid()
      reads this, group
    {
      group.Valid() && Inv(View())
    }

    constructor (id: Id, group: PendingGroup<Job>)
      requires group.Valid() && Operation(id) !in group.jobs && RequestCancel(id) !in group.jobs && Done(id) !in group.jobs
      ensures Valid() && this.id == id && this.group == group && View() == FRESH
    {
      this.id, this.group := id, group;
      status, cancelRequested := Idle, false;
    }

    method SenderSend()
      requires Valid() && Enabled(View(), Send)
      modifies this, group
      ensures Valid() && View() == Step(old(View()), Send)
      ensures group.jobs == Set(old(group.jobs), Operation(id))
    {
      SetMembers(group.jobs, Operation(id));
      group.SetJob(Operation(id));
      status := OperationPending;
      cancelRequested := false;
    }

    method SenderRequestCancel()
      requires Valid() && Enabled(View(), AskCancel)
      modifies this, group
      ensures Valid() && View() == Step(old(View()), AskCancel)
    {
      if cancelRequested {
        return;
      }
      cancelRequested := true;
      if status.OperationPending? {
        WithoutMembers(group.jobs, Operation(id));
        group.UnsetJob(Operation(id));
        SetMembers(group.jobs, Done(id));
        group.SetJob(Done(id));
        status := DonePending;
      } else if status.Busy? {
        SetMembers(group.jobs, RequestCancel(id));
        group.SetJob(RequestCancel(id));
      }
    }

    method ProviderDone()
      requires Valid() && Enabled(View(), Finish)
      modifies this, group
      ensures Valid() && View() == Step(old(View()), Finish)
      ensures group.jobs == Set(Without(old(group.jobs), RequestCancel(id)), Done(id))
    {
      WithoutMembers(group.jobs, RequestCancel(id));
      group.UnsetJob(RequestCancel(id));
      SetMembers(group.jobs, Done(id));
      group.SetJob(Done(id));
      status := DonePending;
    }

    /** What the operation job does before it calls the receiver's handler; the job has been taken off the list. */
    method JobOperation()
      requires group.Valid() && Operation(id) !in group.jobs
      requires Inv(View().(operation := true))
      modifies this`status
      ensures Valid() && View() == Step(old(View()).(operation := true), RunOperation)
    {
      status := Busy;
    }

    /** What the done job does before it calls the sender's handler; the job has been taken off the list. */
    method JobDone()
      requires group.Valid() && Done(id) !in group.jobs
      requires Inv(View().(done := true))
      modifies this`status
      ensures Valid() && View() == Step(old(View()).(done := true), RunDone)
    {
      status := Idle;
    }
  }
}
