/** What the fair queue guarantees over whole runs: the invariant, fairness, and freedom from starvation. */
module FairQueueRuns {
  import opened Options
  import opened FairQueue

  // ---------- every transition keeps the invariant ----------

  lemma InvWellFormed(cfg: Config, q: Queue)
    requires Inv(cfg, q)
    ensures WellFormed(q) && Listed(q)
  {
  }

  lemma ScheduleInv(cfg: Config, q: Queue)
    requires WellFormed(q) && Listed(q) && TimesFit(q) && LensFit(cfg, q)
    requires q.queued.Keys != {} && q.sending.None? && q.previous.None? && !q.scheduled
    ensures Inv(cfg, Schedule(q))
  {
    var f := First(q.time, q.queued.Keys);
    assert f in q.queued && Schedule(q).queued.Keys == q.queued.Keys - {f};
    forall g | g in q.queued && g != f ensures q.time[f] <= q.time[g] {
      assert Before(q.time, f, g);
    }
  }

  lemma CurrentTimeFits(q: Queue)
    requires WellFormed(q) && TimesFit(q)
    ensures CurrentTime(q) <= MAX_TIME
    ensures q.sending.Some? ==> CurrentTime(q) == q.time[q.sending.value]
  {
    if q.sending.None? && q.queued.Keys != {} {
      assert First(q.time, q.queued.Keys) in q.queued;
    }
  }

  lemma SendInv(cfg: Config, q: Queue, f: Flow, len: nat)
    requires Inv(cfg, q) && Enabled(cfg, q, Send(f, len))
    ensures Inv(cfg, DoSend(q, f, len))
  {
    hide CurrentTime, Schedule, First;
    CurrentTimeFits(q);
    var time := if q.previous == Some(f) then q.time else q.time[f := Max(q.time[f], CurrentTime(q))];
    var q' := q.(time := time, queued := q.queued[f := len],
                 previous := if q.previous == Some(f) then None else q.previous);
    assert f in q'.queued;
    if q.sending.None? && !q.scheduled {
      ScheduleInv(cfg, q');
    }
  }

  lemma OutputDoneInv(cfg: Config, q: Queue)
    requires cfg.Valid() && Inv(cfg, q) && q.sending.Some?
    ensures Inv(cfg, DoOutputDone(cfg, q))
  {
    IncrementExact(q, q.sending.value, cfg.weight + q.sendingLen);
    hide Increment;
  }

  lemma {:induction false} RemoveListed(flows: seq<Flow>, f: Flow)
    requires NoDup(flows)
    ensures NoDup(Remove(flows, f))
    ensures forall g :: g in Remove(flows, f) <==> g in flows && g != f
  {
    if flows != [] {
      var x, rest := flows[0], flows[1..];
      assert flows == [x] + rest;
      assert x !in rest by {
        forall j | 0 <= j < |rest| ensures rest[j] != x {
          assert rest[j] == flows[j + 1];
        }
      }
      RemoveListed(rest, f);
    }
  }

  lemma FlowsInv(cfg: Config, q: Queue, ev: Event)
    requires Inv(cfg, q) && Enabled(cfg, q, ev) && (ev.FlowInit? || ev.FlowFree?)
    ensures Inv(cfg, Step(cfg, q, ev))
  {
    if ev.FlowFree? {
      RemoveListed(q.flows, ev.flow);
    }
  }

  /**
   * Every event keeps the invariant: no time ever passes the 64-bit maximum, the flow being sent is
   * never ahead of a queued one, and the queue never idles while a packet waits.
   */
  lemma StepInv(cfg: Config, q: Queue, ev: Event)
    requires cfg.Valid() && Inv(cfg, q) && Enabled(cfg, q, ev)
    ensures Inv(cfg, Step(cfg, q, ev))
  {
    match ev
    case Send(f, len) => SendInv(cfg, q, f, len);
    case OutputDone => OutputDoneInv(cfg, q);
    case ScheduleJob =>
      var q' := q.(previous := None, scheduled := false);
      if q.queued.Keys != {} { ScheduleInv(cfg, q'); }
    case FlowInit(f) => FlowsInv(cfg, q, ev);
    case FlowFree(f) => FlowsInv(cfg, q, ev);
    case PrepareFree =>
  }

  // ---------- pairwise fairness ----------

  /** The flow has a packet waiting or on its way, or may still send before the next decision. */
  predicate Active(q: Queue, f: Flow) {
    f in q.queued || q.sending == Some(f) || q.previous == Some(f)
  }

  /** The length of the packet that each flow was last given to send. */
  function Given(lens: map<Flow, nat>, ev: Event): map<Flow, nat> {
    if ev.Send? then lens[ev.flow := ev.len] else lens
  }

  function LenOf(lens: map<Flow, nat>, f: Flow): nat {
    if f in lens then lens[f] else 0
  }

  /** The queue knows of the packets that wait, and of the one on its way, the lengths they were given with. */
  predicate Known(q: Queue, lens: map<Flow, nat>) {
    && (forall f :: f in q.queued ==> f in lens && q.queued[f] == lens[f])
    && (q.sending.Some? ==> q.sending.value in lens && q.sendingLen == lens[q.sending.value])
  }

  lemma ScheduleKnown(q: Queue, lens: map<Flow, nat>)
    requires WellFormed(q) && q.queued.Keys != {} && q.sending.None? && Known(q, lens)
    ensures Known(Schedule(q), lens)
  {
  }

  lemma StepKnown(cfg: Config, q: Queue, lens: map<Flow, nat>, ev: Event)
    requires Inv(cfg, q) && Enabled(cfg, q, ev) && Known(q, lens)
    ensures Known(Step(cfg, q, ev), Given(lens, ev))
  {
    hide Schedule, CurrentTime, Increment;
    match ev
    case Send(f, len) => SendKnown(q, lens, f, len);
    case OutputDone =>
    case ScheduleJob =>
      if q.queued.Keys != {} {
        ScheduleKnown(q.(previous := None, scheduled := false), lens);
      }
    case FlowInit(f) =>
    case FlowFree(f) =>
    case PrepareFree =>
  }

  lemma SendKnown(q: Queue, lens: map<Flow, nat>, f: Flow, len: nat)
    requires WellFormed(q) && f in q.time && f !in q.queued && q.sending != Some(f) && Known(q, lens)
    ensures Known(DoSend(q, f, len), lens[f := len])
  {
    hide Schedule, CurrentTime;
    var time := if q.previous == Some(f) then q.time else q.time[f := Max(q.time[f], CurrentTime(q))];
    var q' := q.(time := time, queued := q.queued[f := len],
                 previous := if q.previous == Some(f) then None else q.previous);
    assert f in q'.queued;
    if q.sending.None? && !q.scheduled {
      ScheduleKnown(q', lens[f := len]);
    }
  }

  /** The weighted bytes that the event finishes sending for the flow, as it was given them. */
  function Served(cfg: Config, q: Queue, lens: map<Flow, nat>, ev: Event, f: Flow): nat {
    if ev.OutputDone? && q.sending == Some(f) then cfg.weight + LenOf(lens, f) else 0
  }

  function Gap(q: Queue, i: Flow, j: Flow): int
    requires i in q.time && j in q.time
  {
    (q.time[i] as int) - (q.time[j] as int)
  }

  function Abs(x: int): nat {
    if x < 0 then -x else x
  }

  predicate BothActive(q: Queue, i: Flow, j: Flow) {
    Active(q, i) && Active(q, j)
  }

  lemma ActiveHasTime(q: Queue, f: Flow)
    requires WellFormed(q) && Active(q, f)
    ensures f in q.time
  {
  }

  lemma DoneGap(cfg: Config, q: Queue, lens: map<Flow, nat>, i: Flow, j: Flow)
    requires cfg.Valid() && Inv(cfg, q) && Known(q, lens) && q.sending.Some? && i != j && BothActive(q, i, j)
    ensures var q' := DoOutputDone(cfg, q);
            && i in q.time && j in q.time && i in q'.time && j in q'.time
            && Gap(q', i, j) == Gap(q, i, j) + Served(cfg, q, lens, OutputDone, i) - Served(cfg, q, lens, OutputDone, j)
            && Abs(Gap(q', i, j)) <= Max(Abs(Gap(q, i, j)), cfg.Bound())
  {
    hide Increment, Subtract, Overflows, Listed;
    IncrementExact(q, q.sending.value, cfg.weight + q.sendingLen);
  }

  /** While both stay backlogged, the gap moves by exactly the difference in service, and stays bounded. */
  lemma StepGap(cfg: Config, q: Queue, lens: map<Flow, nat>, ev: Event, i: Flow, j: Flow)
    requires cfg.Valid() && Inv(cfg, q) && Known(q, lens) && Enabled(cfg, q, ev) && i != j
    requires BothActive(q, i, j) && BothActive(Step(cfg, q, ev), i, j)
    ensures var q' := Step(cfg, q, ev);
            && i in q.time && j in q.time && i in q'.time && j in q'.time
            && Gap(q', i, j) == Gap(q, i, j) + Served(cfg, q, lens, ev, i) - Served(cfg, q, lens, ev, j)
            && Abs(Gap(q', i, j)) <= Max(Abs(Gap(q, i, j)), cfg.Bound())
  {
    if ev.OutputDone? {
      DoneGap(cfg, q, lens, i, j);
    } else {
      hide DoSend, DoScheduleJob, DoFlowInit, DoFlowFree, Inv, Active;
      TimesKept(cfg, q, ev, i);
      TimesKept(cfg, q, ev, j);
    }
  }

  /** Only finishing a packet changes the time of a flow that stays backlogged. */
  lemma TimesKept(cfg: Config, q: Queue, ev: Event, f: Flow)
    requires cfg.Valid() && Inv(cfg, q) && Enabled(cfg, q, ev) && !ev.OutputDone?
    requires Active(q, f) && Active(Step(cfg, q, ev), f)
    ensures var q' := Step(cfg, q, ev);
            f in q.time && f in q'.time && q'.time[f] == q.time[f]
  {
    hide First, CurrentTime;
  }

  // ---------- runs ----------

  ghost predicate Possible(cfg: Config, q: Queue, evs: seq<Event>)
    requires cfg.Valid() && Inv(cfg, q)
    decreases |evs|
  {
    evs == [] || (Enabled(cfg, q, evs[0]) && (StepInv(cfg, q, evs[0]); Possible(cfg, Step(cfg, q, evs[0]), evs[1..])))
  }

  ghost function Run(cfg: Config, q: Queue, evs: seq<Event>): (r: Queue)
    requires cfg.Valid() && Inv(cfg, q) && Possible(cfg, q, evs)
    ensures Inv(cfg, r)
    decreases |evs|
  {
    if evs == [] then q else StepInv(cfg, q, evs[0]); Run(cfg, Step(cfg, q, evs[0]), evs[1..])
  }

  /** Both flows are backlogged in every state of the run. */
  ghost predicate StayActive(cfg: Config, q: Queue, evs: seq<Event>, i: Flow, j: Flow)
    requires cfg.Valid() && Inv(cfg, q) && Possible(cfg, q, evs)
    decreases |evs|
  {
    BothActive(q, i, j) && (evs == [] || (StepInv(cfg, q, evs[0]); StayActive(cfg, Step(cfg, q, evs[0]), evs[1..], i, j)))
  }

  ghost function AllGiven(lens: map<Flow, nat>, evs: seq<Event>): map<Flow, nat>
    decreases |evs|
  {
    if evs == [] then lens else AllGiven(Given(lens, evs[0]), evs[1..])
  }

  lemma {:induction false} RunKnown(cfg: Config, q: Queue, lens: map<Flow, nat>, evs: seq<Event>)
    requires cfg.Valid() && Inv(cfg, q) && Possible(cfg, q, evs) && Known(q, lens)
    ensures Known(Run(cfg, q, evs), AllGiven(lens, evs))
    decreases |evs|
  {
    if evs != [] {
      StepInv(cfg, q, evs[0]);
      hide Step, Inv, Enabled, Known, Given;
      StepKnown(cfg, q, lens, evs[0]);
      RunKnown(cfg, Step(cfg, q, evs[0]), Given(lens, evs[0]), evs[1..]);
    }
  }

  /** What a flow was last given is the length in its last Send event. */
  lemma {:induction false} GivenIsLast(lens: map<Flow, nat>, evs: seq<Event>, n: nat)
    requires n < |evs| && evs[n].Send? && forall i :: n < i < |evs| && evs[i].Send? ==> evs[i].flow != evs[n].flow
    ensures evs[n].flow in AllGiven(lens, evs) && AllGiven(lens, evs)[evs[n].flow] == evs[n].len
    decreases |evs|
  {
    if n == 0 {
      GivenKept(Given(lens, evs[0]), evs[1..], evs[0].flow);
    } else {
      GivenIsLast(Given(lens, evs[0]), evs[1..], n - 1);
    }
  }

  lemma {:induction false} GivenKept(lens: map<Flow, nat>, evs: seq<Event>, f: Flow)
    requires f in lens && forall i :: 0 <= i < |evs| && evs[i].Send? ==> evs[i].flow != f
    ensures f in AllGiven(lens, evs) && AllGiven(lens, evs)[f] == lens[f]
    decreases |evs|
  {
    if evs != [] {
      GivenKept(Given(lens, evs[0]), evs[1..], f);
    }
  }

  /**
   * In every run, the packet on its way has the length with which its flow last sent one, and so have those
   * that wait.
   */
  lemma LengthsAsGiven(cfg: Config, evs: seq<Event>, n: nat)
    requires cfg.Valid() && Inv(cfg, Initial()) && Possible(cfg, Initial(), evs)
    requires n < |evs| && evs[n].Send? && forall i :: n < i < |evs| && evs[i].Send? ==> evs[i].flow != evs[n].flow
    ensures var q, f := Run(cfg, Initial(), evs), evs[n].flow;
            && (q.sending == Some(f) ==> q.sendingLen == evs[n].len)
            && (f in q.queued ==> q.queued[f] == evs[n].len)
  {
    hide Run, Possible;
    RunKnown(cfg, Initial(), map[], evs);
    GivenIsLast(map[], evs, n);
  }

  /** The weighted bytes of the flow that were sent during the run, as the flow was given them. */
  ghost function Service(cfg: Config, q: Queue, lens: map<Flow, nat>, evs: seq<Event>, f: Flow): nat
    requires cfg.Valid() && Inv(cfg, q) && Possible(cfg, q, evs)
    decreases |evs|
  {
    if evs == [] then 0
    else
      StepInv(cfg, q, evs[0]);
      Served(cfg, q, lens, evs[0], f) + Service(cfg, Step(cfg, q, evs[0]), Given(lens, evs[0]), evs[1..], f)
  }

  /** Over any run, the service of two backlogged flows differs by exactly the change of their gap. */
  lemma {:induction false} RunGap(cfg: Config, q: Queue, lens: map<Flow, nat>, evs: seq<Event>, i: Flow, j: Flow)
    requires cfg.Valid() && Inv(cfg, q) && Known(q, lens) && Possible(cfg, q, evs) && StayActive(cfg, q, evs, i, j) && i != j
    ensures var q' := Run(cfg, q, evs);
            && i in q.time && j in q.time && i in q'.time && j in q'.time
            && Gap(q', i, j) == Gap(q, i, j) + Service(cfg, q, lens, evs, i) - Service(cfg, q, lens, evs, j)
            && Abs(Gap(q', i, j)) <= Max(Abs(Gap(q, i, j)), cfg.Bound())
    decreases |evs|
  {
    if evs == [] {
      ActiveHasTime(q, i);
      ActiveHasTime(q, j);
    } else {
      StepInv(cfg, q, evs[0]);
      hide Step, Inv, Enabled, Active, Served, Known, Given;
      StepGap(cfg, q, lens, evs[0], i, j);
      StepKnown(cfg, q, lens, evs[0]);
      RunGap(cfg, Step(cfg, q, evs[0]), Given(lens, evs[0]), evs[1..], i, j);
    }
  }

  /** A run goes on from where another ended. */
  ghost predicate GoesOn(cfg: Config, past: seq<Event>, evs: seq<Event>) {
    cfg.Valid() && Inv(cfg, Initial()) && Possible(cfg, Initial(), past) && Possible(cfg, Run(cfg, Initial(), past), evs)
  }

  /**
   * Pairwise fairness: after any run, two flows that are within one packet of each other and stay backlogged
   * are sent, of the bytes that they were given to send, amounts that differ by at most twice the largest
   * weighted packet, however long it goes on and however often times are renormalised.
   */
  lemma PairwiseFairness(cfg: Config, past: seq<Event>, evs: seq<Event>, i: Flow, j: Flow)
    requires GoesOn(cfg, past, evs) && i != j
    requires var q := Run(cfg, Initial(), past);
             StayActive(cfg, q, evs, i, j) && i in q.time && j in q.time && Abs(Gap(q, i, j)) <= cfg.Bound()
    ensures var q, lens := Run(cfg, Initial(), past), AllGiven(map[], past);
            Abs((Service(cfg, q, lens, evs, i) as int) - (Service(cfg, q, lens, evs, j) as int)) <= 2 * cfg.Bound()
  {
    hide Inv, Possible, StayActive, Run, Service, Known, AllGiven;
    InitialKnown();
    RunKnown(cfg, Initial(), map[], past);
    RunGap(cfg, Run(cfg, Initial(), past), AllGiven(map[], past), evs, i, j);
  }

  lemma InitialKnown()
    ensures Known(Initial(), map[])
  {
  }

  // ---------- no starvation ----------

  /** The most that the other flow may still be served before `f` is: what it is behind, and one packet. */
  function Allowance(cfg: Config, time: map<Flow, nat>, f: Flow, g: Flow): nat
    requires f in time && g in time
  {
    if g == f then 0 else FloorSub(time[f] + cfg.Bound(), time[g])
  }

  predicate Timed(time: map<Flow, nat>, flows: seq<Flow>) {
    forall i :: 0 <= i < |flows| ==> flows[i] in time
  }

  /** The sum of the allowances of all other flows. */
  function Deficit(cfg: Config, time: map<Flow, nat>, flows: seq<Flow>, f: Flow): nat
    requires f in time && Timed(time, flows)
  {
    if flows == [] then 0 else Allowance(cfg, time, f, flows[0]) + Deficit(cfg, time, flows[1..], f)
  }

  predicate AllowancesShrink(cfg: Config, time: map<Flow, nat>, time': map<Flow, nat>, flows: seq<Flow>, f: Flow)
    requires f in time && f in time' && Timed(time, flows) && Timed(time', flows)
  {
    forall i :: 0 <= i < |flows| ==> Allowance(cfg, time', f, flows[i]) <= Allowance(cfg, time, f, flows[i])
  }

  lemma TailsShrink(cfg: Config, time: map<Flow, nat>, time': map<Flow, nat>, flows: seq<Flow>, f: Flow)
    requires f in time && f in time' && Timed(time, flows) && Timed(time', flows) && flows != []
    requires AllowancesShrink(cfg, time, time', flows, f)
    ensures Timed(time, flows[1..]) && Timed(time', flows[1..]) && AllowancesShrink(cfg, time, time', flows[1..], f)
    ensures flows[0] in time && flows[0] in time' && Allowance(cfg, time', f, flows[0]) <= Allowance(cfg, time, f, flows[0])
  {
    hide Allowance;
    assert forall i :: 0 <= i < |flows| - 1 ==> flows[1..][i] == flows[i + 1];
  }

  lemma {:induction false} DeficitShrinks(cfg: Config, time: map<Flow, nat>, time': map<Flow, nat>, flows: seq<Flow>, f: Flow)
    requires f in time && f in time' && Timed(time, flows) && Timed(time', flows)
    requires AllowancesShrink(cfg, time, time', flows, f)
    ensures Deficit(cfg, time', flows, f) <= Deficit(cfg, time, flows, f)
  {
    if flows != [] {
      TailsShrink(cfg, time, time', flows, f);
      hide Allowance, AllowancesShrink, Timed;
      DeficitShrinks(cfg, time, time', flows[1..], f);
    }
  }

  lemma {:induction false} DeficitPays(cfg: Config, time: map<Flow, nat>, time': map<Flow, nat>, flows: seq<Flow>, f: Flow,
                                       s: Flow, cost: nat)
    requires f in time && f in time' && Timed(time, flows) && Timed(time', flows)
    requires AllowancesShrink(cfg, time, time', flows, f)
    requires s in flows && s in time && s in time' && Allowance(cfg, time', f, s) + cost <= Allowance(cfg, time, f, s)
    ensures Deficit(cfg, time', flows, f) + cost <= Deficit(cfg, time, flows, f)
  {
    TailsShrink(cfg, time, time', flows, f);
    assert flows == [flows[0]] + flows[1..];
    hide Allowance, AllowancesShrink, Timed;
    if s == flows[0] {
      DeficitShrinks(cfg, time, time', flows[1..], f);
    } else {
      DeficitPays(cfg, time, time', flows[1..], f, s, cost);
    }
  }

  lemma {:induction false} DeficitRemove(cfg: Config, time: map<Flow, nat>, flows: seq<Flow>, f: Flow, x: Flow)
    requires f in time && Timed(time, flows) && NoDup(flows) && x != f
    ensures Timed(time - {x}, Remove(flows, x))
    ensures Deficit(cfg, time - {x}, Remove(flows, x), f) <= Deficit(cfg, time, flows, f)
  {
    if flows != [] {
      var y, rest := flows[0], flows[1..];
      assert flows == [y] + rest;
      DeficitRemove(cfg, time, rest, f, x);
      assert x == y ==> x !in rest by {
        forall j | 0 <= j < |rest| && x == y ensures rest[j] != x {
          assert rest[j] == flows[j + 1];
        }
      }
      if x == y {
        RemoveAbsent(rest, x);
      } else {
        var r := [y] + Remove(rest, x);
        assert r[1..] == Remove(rest, x);
      }
    }
  }

  lemma {:induction false} RemoveAbsent(flows: seq<Flow>, x: Flow)
    requires x !in flows
    ensures Remove(flows, x) == flows
  {
    if flows != [] {
      RemoveAbsent(flows[1..], x);
    }
  }

  lemma ListedTimed(q: Queue)
    requires Listed(q)
    ensures Timed(q.time, q.flows)
  {
  }

  /** Each completion uses up as much of the deficit of a flow that waits as it cost, even when times are renormalised. */
  lemma DoneDeficit(cfg: Config, q: Queue, f: Flow)
    requires cfg.Valid() && Inv(cfg, q) && q.sending.Some? && f in q.queued
    ensures var time := DoOutputDone(cfg, q).time;
            && Timed(q.time, q.flows) && Timed(time, q.flows) && f in time
            && Deficit(cfg, time, q.flows, f) + cfg.weight + q.sendingLen <= Deficit(cfg, q.time, q.flows, f)
  {
    hide Increment, Subtract, Overflows, Deficit;
    ListedTimed(q);
    var s := q.sending.value;
    IncrementExact(q, s, cfg.weight + q.sendingLen);
    var time := DoOutputDone(cfg, q).time;
    assert AllowancesShrink(cfg, q.time, time, q.flows, f);
    DeficitPays(cfg, q.time, time, q.flows, f, s, cfg.weight + q.sendingLen);
  }

  lemma SendDeficit(cfg: Config, q: Queue, g: Flow, len: nat, f: Flow)
    requires cfg.Valid() && Inv(cfg, q) && Enabled(cfg, q, Send(g, len)) && f in q.queued
    ensures var q' := DoSend(q, g, len);
            && q'.flows == q.flows && Timed(q.time, q.flows) && Timed(q'.time, q.flows)
            && Deficit(cfg, q'.time, q.flows, f) <= Deficit(cfg, q.time, q.flows, f)
  {
    hide CurrentTime, First, Deficit;
    ListedTimed(q);
    var time := DoSend(q, g, len).time;
    assert AllowancesShrink(cfg, q.time, time, q.flows, f);
    DeficitShrinks(cfg, q.time, time, q.flows, f);
  }

  /** The weighted bytes that the event finishes sending, whoever was given them. */
  function CostOf(cfg: Config, q: Queue, lens: map<Flow, nat>, ev: Event): nat {
    if ev.OutputDone? && q.sending.Some? then cfg.weight + LenOf(lens, q.sending.value) else 0
  }

  lemma StepDeficit(cfg: Config, q: Queue, lens: map<Flow, nat>, ev: Event, f: Flow)
    requires cfg.Valid() && Inv(cfg, q) && Known(q, lens) && Enabled(cfg, q, ev) && !ev.FlowInit?
    requires f in q.queued && f in Step(cfg, q, ev).queued
    ensures var q' := Step(cfg, q, ev);
            && Timed(q.time, q.flows) && Timed(q'.time, q'.flows) && f in q'.time
            && Deficit(cfg, q'.time, q'.flows, f) + CostOf(cfg, q, lens, ev) <= Deficit(cfg, q.time, q.flows, f)
  {
    ListedTimed(q);
    match ev
    case Send(g, len) => SendDeficit(cfg, q, g, len, f);
    case OutputDone => DoneDeficit(cfg, q, f);
    case FlowFree(x) => DeficitRemove(cfg, q.time, q.flows, f, x);
    case ScheduleJob =>
    case PrepareFree =>
  }

  ghost predicate StaysQueued(cfg: Config, q: Queue, evs: seq<Event>, f: Flow)
    requires cfg.Valid() && Inv(cfg, q) && Possible(cfg, q, evs)
    decreases |evs|
  {
    f in q.queued && (evs == [] || (StepInv(cfg, q, evs[0]); StaysQueued(cfg, Step(cfg, q, evs[0]), evs[1..], f)))
  }

  /** The weighted bytes of all flows that were sent during the run, as the flows were given them. */
  ghost function TotalService(cfg: Config, q: Queue, lens: map<Flow, nat>, evs: seq<Event>): nat
    requires cfg.Valid() && Inv(cfg, q) && Possible(cfg, q, evs)
    decreases |evs|
  {
    if evs == [] then 0
    else
      StepInv(cfg, q, evs[0]);
      CostOf(cfg, q, lens, evs[0]) + TotalService(cfg, Step(cfg, q, evs[0]), Given(lens, evs[0]), evs[1..])
  }

  lemma {:induction false} DeficitBounds(cfg: Config, q: Queue, lens: map<Flow, nat>, evs: seq<Event>, f: Flow)
    requires cfg.Valid() && Inv(cfg, q) && Known(q, lens) && Possible(cfg, q, evs) && StaysQueued(cfg, q, evs, f)
    requires forall i :: 0 <= i < |evs| ==> !evs[i].FlowInit?
    ensures Timed(q.time, q.flows) && TotalService(cfg, q, lens, evs) <= Deficit(cfg, q.time, q.flows, f)
    decreases |evs|
  {
    ListedTimed(q);
    if evs != [] {
      StepInv(cfg, q, evs[0]);
      hide Step, Inv, Enabled, Deficit, CostOf, Known, Given;
      StepDeficit(cfg, q, lens, evs[0], f);
      StepKnown(cfg, q, lens, evs[0]);
      DeficitBounds(cfg, Step(cfg, q, evs[0]), Given(lens, evs[0]), evs[1..], f);
    }
  }

  /**
   * No starvation: after any run, while a packet of a flow waits and no flow is added, the bytes that all the
   * others together were given and are sent weigh no more than what each of them was behind when the wait
   * began and one packet of each, however long it goes on and however often times are renormalised.
   */
  lemma NoStarvation(cfg: Config, past: seq<Event>, evs: seq<Event>, f: Flow)
    requires GoesOn(cfg, past, evs) && StaysQueued(cfg, Run(cfg, Initial(), past), evs, f)
    requires forall i :: 0 <= i < |evs| ==> !evs[i].FlowInit?
    ensures var q := Run(cfg, Initial(), past);
            && f in q.time && Timed(q.time, q.flows)
            && TotalService(cfg, q, AllGiven(map[], past), evs) <= Deficit(cfg, q.time, q.flows, f)
  {
    assert f in Run(cfg, Initial(), past).queued;
    hide Possible, StaysQueued, Run, TotalService, Known, AllGiven, Deficit;
    InitialKnown();
    RunKnown(cfg, Initial(), map[], past);
    DeficitBounds(cfg, Run(cfg, Initial(), past), AllGiven(map[], past), evs, f);
  }

  function Completions(evs: seq<Event>): nat {
    if evs == [] then 0 else (if evs[0].OutputDone? then 1 else 0) + Completions(evs[1..])
  }

  /** Every packet costs something, so only so many can be sent before the one that waits. */
  lemma {:induction false} CompletionsCost(cfg: Config, q: Queue, lens: map<Flow, nat>, evs: seq<Event>)
    requires cfg.Valid() && Inv(cfg, q) && Possible(cfg, q, evs)
    ensures Completions(evs) <= TotalService(cfg, q, lens, evs)
    decreases |evs|
  {
    if evs != [] {
      StepInv(cfg, q, evs[0]);
      assert evs[0].OutputDone? ==> CostOf(cfg, q, lens, evs[0]) >= cfg.weight > 0;
      hide Step, Inv, CostOf, Enabled, Given;
      CompletionsCost(cfg, Step(cfg, q, evs[0]), Given(lens, evs[0]), evs[1..]);
    }
  }

  /** Work conservation: whenever a packet waits, either one is on its way or a decision can be taken at once. */
  lemma WorkConserving(cfg: Config, q: Queue, evs: seq<Event>)
    requires cfg.Valid() && Inv(cfg, q) && Possible(cfg, q, evs)
    ensures var r := Run(cfg, q, evs);
            r.queued.Keys != {} && !r.freeing ==>
              if r.sending.Some? then Enabled(cfg, r, OutputDone)
              else Enabled(cfg, r, ScheduleJob) && DoScheduleJob(r).sending.Some?
  {
  }
}
