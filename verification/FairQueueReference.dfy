/**
 * A simple reference for the fair queue, defined by itself: times that never wrap and are never
 * renormalised, and a flow that becomes active is raised to the least time of those that are. The queue
 * makes the decisions of the reference, event by event.
 */
module FairQueueReference {
  import opened Options
  import opened FairQueue
  import opened FairQueueRuns

  /**
   * `waiting` are the packets that wait, with their lengths, and `current` is the one on its way. Between its
   * end and the next decision its flow is the `last` one, and may send again without losing its place.
   */
  datatype Ref = Ref(time: map<Flow, nat>, waiting: map<Flow, nat>, current: Option<(Flow, nat)>, last: Option<Flow>,
                     decide: bool, freeing: bool)

  const EMPTY := Ref(map[], map[], None, None, false, false)

  /** The flows that have something to send, on its way, or may still send in their turn. */
  function Backlog(u: Ref): set<Flow> {
    u.waiting.Keys + (if u.current.Some? then {u.current.value.0} else {}) + (if u.last.Some? then {u.last.value} else {})
  }

  predicate Sane(u: Ref) {
    Backlog(u) <= u.time.Keys
  }

  /** The least time of the backlogged flows; `floor` if there are none. */
  ghost function LeastTime(u: Ref, floor: nat): nat
    requires Sane(u)
  {
    if Backlog(u) == {} then floor else u.time[First(u.time, Backlog(u))]
  }

  /** Starts the packet of the flow that is first in the order of times. */
  ghost function Start(u: Ref): Ref
    requires u.waiting.Keys <= u.time.Keys && u.waiting.Keys != {}
  {
    var f := First(u.time, u.waiting.Keys);
    u.(waiting := u.waiting - {f}, current := Some((f, u.waiting[f])))
  }

  predicate RefEnabled(cfg: Config, u: Ref, ev: Event) {
    match ev
    case Send(f, len) =>
      f in u.time && f !in u.waiting && !(u.current.Some? && u.current.value.0 == f) && len <= cfg.mtu && !u.freeing
    case OutputDone => u.current.Some? && !u.freeing
    case ScheduleJob => u.decide && !u.freeing
    case FlowInit(f) => f !in u.time && !u.freeing
    case FlowFree(f) => f in u.time && (u.freeing || !(u.current.Some? && u.current.value.0 == f))
    case PrepareFree => true
  }

  /** The reference transition: no 64-bit arithmetic, no renormalisation. */
  ghost function RefStep(cfg: Config, u: Ref, floor: nat, ev: Event): Ref
    requires Sane(u) && RefEnabled(cfg, u, ev)
  {
    match ev
    case Send(f, len) =>
      var time := if u.last == Some(f) then u.time[f] else Max(u.time[f], LeastTime(u, floor));
      var u' := u.(time := u.time[f := time], waiting := u.waiting[f := len], last := if u.last == Some(f) then None else u.last);
      assert f in u'.waiting;
      if u.current.None? && !u.decide then Start(u') else u'
    case OutputDone =>
      var (f, len) := u.current.value;
      u.(current := None, last := Some(f), decide := true, time := u.time[f := u.time[f] + cfg.weight + len])
    case ScheduleJob =>
      var u' := u.(last := None, decide := false);
      if u'.waiting.Keys == {} then u' else Start(u')
    case FlowInit(f) => u.(time := u.time[f := 0])
    case FlowFree(f) =>
      u.(time := u.time - {f}, waiting := u.waiting - {f},
         current := if u.current.Some? && u.current.value.0 == f then None else u.current,
         last := if u.last == Some(f) then None else u.last)
    case PrepareFree => u.(freeing := true)
  }

  /** What is on its way, with its length. */
  function OnItsWay(q: Queue): Option<(Flow, nat)> {
    if q.sending.Some? then Some((q.sending.value, q.sendingLen)) else None
  }

  /** The two agree on everything but times, and on times up to `floor`, to which idle flows are cut off. */
  predicate Simulates(q: Queue, u: Ref, floor: nat) {
    && u == Ref(u.time, q.queued, OnItsWay(q), q.previous, q.scheduled, q.freeing)
    && u.time.Keys == q.time.Keys
    && (forall f :: f in q.time ==> q.time[f] == FloorSub(u.time[f], floor))
    && (forall f :: f in q.time && Active(q, f) ==> floor <= u.time[f])
  }

  lemma BacklogIsActive(q: Queue, u: Ref, floor: nat)
    requires WellFormed(q) && Simulates(q, u, floor)
    ensures Sane(u) && forall f :: f in Backlog(u) <==> Active(q, f)
  {
  }

  /** The order of flows that are active is the same in both. */
  lemma FirstAgrees(q: Queue, u: Ref, floor: nat, s: set<Flow>)
    requires WellFormed(q) && Simulates(q, u, floor) && s != {} && s <= q.time.Keys && forall f :: f in s ==> Active(q, f)
    ensures First(q.time, s) == First(u.time, s)
  {
    var f := First(q.time, s);
    forall g | g in s ensures Before(u.time, f, g) {
      assert Before(q.time, f, g);
      assert Active(q, f) && Active(q, g);
    }
    FirstUnique(u.time, s, f);
  }

  lemma ScheduleAgrees(q: Queue, u: Ref, floor: nat)
    requires WellFormed(q) && Simulates(q, u, floor) && q.queued.Keys != {}
    requires q.sending.None? && q.previous.None?
    ensures Simulates(Schedule(q), Start(u), floor)
  {
    hide First;
    FirstAgrees(q, u, floor, q.queued.Keys);
    var f := First(q.time, q.queued.Keys);
    assert Active(q, f);
  }

  /** The time that a flow is raised to is the least of those that are sending, queued or previous, and 0 if none is. */
  lemma CurrentTimeIsLeast(cfg: Config, q: Queue)
    requires Inv(cfg, q)
    ensures (forall f :: f in q.time && Active(q, f) ==> CurrentTime(q) <= q.time[f])
    ensures (exists f :: f in q.time && Active(q, f)) ==> exists f :: f in q.time && Active(q, f) && q.time[f] == CurrentTime(q)
    ensures !(exists f :: f in q.time && Active(q, f)) ==> CurrentTime(q) == 0
  {
    if q.sending.Some? {
      assert Active(q, q.sending.value);
    } else {
      if q.queued.Keys != {} {
        var g := First(q.time, q.queued.Keys);
        assert Active(q, g);
        forall f | f in q.queued ensures q.time[g] <= q.time[f] {
          assert Before(q.time, g, f);
        }
      }
      if q.previous.Some? {
        assert Active(q, q.previous.value);
      }
    }
  }

  lemma CurrentTimeAgrees(cfg: Config, q: Queue, u: Ref, floor: nat)
    requires Inv(cfg, q) && Simulates(q, u, floor) && Sane(u)
    ensures LeastTime(u, floor) == CurrentTime(q) + floor
  {
    CurrentTimeIsLeast(cfg, q);
    BacklogIsActive(q, u, floor);
    hide CurrentTime, Inv;
    if Backlog(u) != {} {
      var g := First(u.time, Backlog(u));
      assert Active(q, g);
      var f :| f in q.time && Active(q, f) && q.time[f] == CurrentTime(q);
      assert f in Backlog(u) && Before(u.time, g, f);
    }
  }

  /** A packet is queued for a flow, in both, with times that agree. */
  lemma QueuedAgrees(q: Queue, u: Ref, floor: nat, f: Flow, len: nat, t: nat, v: nat)
    requires WellFormed(q) && Simulates(q, u, floor) && f in q.time && f !in q.queued && q.sending != Some(f)
    requires floor <= v && t == v - floor
    ensures Simulates(q.(time := q.time[f := t], queued := q.queued[f := len],
                         previous := if q.previous == Some(f) then None else q.previous),
                      u.(time := u.time[f := v], waiting := u.waiting[f := len],
                         last := if u.last == Some(f) then None else u.last), floor)
  {
    forall g | g in q.queued || q.sending == Some(g) || q.previous == Some(g) ensures Active(q, g) {
    }
  }

  lemma RaisedAgrees(cfg: Config, q: Queue, u: Ref, floor: nat, f: Flow) returns (t: nat, v: nat)
    requires Inv(cfg, q) && Sane(u) && Simulates(q, u, floor) && f in q.time
    ensures t == (if q.previous == Some(f) then q.time[f] else Max(q.time[f], CurrentTime(q)))
    ensures v == (if u.last == Some(f) then u.time[f] else Max(u.time[f], LeastTime(u, floor)))
    ensures floor <= v && t == v - floor
  {
    CurrentTimeAgrees(cfg, q, u, floor);
    hide CurrentTime, LeastTime;
    assert q.previous == Some(f) ==> Active(q, f);
    t := if q.previous == Some(f) then q.time[f] else Max(q.time[f], CurrentTime(q));
    v := if u.last == Some(f) then u.time[f] else Max(u.time[f], LeastTime(u, floor));
  }

  lemma SendAgrees(cfg: Config, q: Queue, u: Ref, floor: nat, f: Flow, len: nat)
    requires Inv(cfg, q) && Sane(u) && Simulates(q, u, floor) && Enabled(cfg, q, Send(f, len)) && RefEnabled(cfg, u, Send(f, len))
    ensures Simulates(DoSend(q, f, len), RefStep(cfg, u, floor, Send(f, len)), floor)
  {
    InvWellFormed(cfg, q);
    SimulatesFacts(cfg, q, u, floor, PrepareFree);
    assert u.current.Some? <==> q.sending.Some?;
    assert u.decide == q.scheduled && u.last == q.previous;
    hide CurrentTime, LeastTime, Schedule, Start, First, Simulates, Inv;
    var t, v := RaisedAgrees(cfg, q, u, floor, f);
    QueuedAgrees(q, u, floor, f, len, t, v);
    var time := if q.previous == Some(f) then q.time else q.time[f := Max(q.time[f], CurrentTime(q))];
    assert time == q.time[f := t];
    var q' := q.(time := time, queued := q.queued[f := len],
                 previous := if q.previous == Some(f) then None else q.previous);
    var u' := u.(time := u.time[f := v], waiting := u.waiting[f := len], last := if u.last == Some(f) then None else u.last);
    assert f in q'.queued && f in u'.waiting;
    assert Simulates(q', u', floor);
    if q.sending.None? && !q.scheduled {
      assert q'.previous.None? by { IdleHasNoPrevious(cfg, q); }
      ScheduleAgrees(q', u', floor);
    }
  }

  lemma IdleHasNoPrevious(cfg: Config, q: Queue)
    requires Inv(cfg, q) && !q.scheduled
    ensures q.previous.None?
  {
  }

  lemma OutputDoneAgrees(cfg: Config, q: Queue, u: Ref, floor: nat) returns (floor': nat)
    requires cfg.Valid() && Inv(cfg, q) && Sane(u) && Simulates(q, u, floor) && q.sending.Some? && !q.freeing
    ensures RefEnabled(cfg, u, OutputDone)
    ensures floor <= floor' && Simulates(DoOutputDone(cfg, q), RefStep(cfg, u, floor, OutputDone), floor')
  {
    hide Increment, Subtract, Overflows, Listed, LensFit, SendingLeads, Busy;
    var f, amount := q.sending.value, cfg.weight + q.sendingLen;
    SendingIsFinished(cfg, q);
    IncrementExact(q, f, amount);
    var back := if Overflows(q.time[f], amount) then Subtract(q.time, q.queued.Keys, f) else 0;
    floor' := floor + back;
    MovedBackAgrees(q, u, floor, f, amount, Increment(q.time, q.queued.Keys, f, amount), back);
  }

  lemma SendingIsFinished(cfg: Config, q: Queue)
    requires Inv(cfg, q) && q.sending.Some?
    ensures Finished(q, q.sending.value) && q.sendingLen <= cfg.mtu && q.previous.None?
  {
  }

  /** Moving all times back by the same amount, down to 0, is the same as raising the floor. */
  lemma MovedBackAgrees(q: Queue, u: Ref, floor: nat, f: Flow, amount: nat, time: map<Flow, nat>, back: nat)
    requires WellFormed(q) && Simulates(q, u, floor)
    requires q.sending == Some(f) && q.previous.None? && f !in q.queued
    requires MovedBack(q, f, amount, time, back) && back <= q.time[f] + amount
    ensures Simulates(q.(sending := None, previous := Some(f), scheduled := true, time := time),
                      u.(current := None, last := Some(f), decide := true, time := u.time[f := u.time[f] + amount]),
                      floor + back)
  {
    assert Active(q, f);
    forall g | g in q.queued ensures Active(q, g) {
    }
  }

  lemma FlowsAgree(cfg: Config, q: Queue, u: Ref, floor: nat, ev: Event)
    requires WellFormed(q) && Sane(u) && Simulates(q, u, floor) && Enabled(cfg, q, ev) && (ev.FlowInit? || ev.FlowFree?)
    requires RefEnabled(cfg, u, ev)
    ensures Simulates(Step(cfg, q, ev), RefStep(cfg, u, floor, ev), floor)
  {
    hide Remove;
  }

  lemma SimulatesFacts(cfg: Config, q: Queue, u: Ref, floor: nat, ev: Event)
    requires Simulates(q, u, floor)
    ensures Enabled(cfg, q, ev) <==> RefEnabled(cfg, u, ev)
    ensures WellFormed(q) ==> Sane(u)
    ensures u.current == OnItsWay(q)
    ensures Simulates(q.(freeing := true), u.(freeing := true), floor)
    ensures Simulates(q.(previous := None, scheduled := false), u.(last := None, decide := false), floor)
  {
  }

  /**
   * The queue refines the reference: for every event, the reference takes the same step, with the
   * same flow chosen, queued and sent; only the floor may rise, and only when a packet completes.
   */
  lemma RefinesReference(cfg: Config, q: Queue, u: Ref, floor: nat, ev: Event) returns (floor': nat)
    requires cfg.Valid() && Inv(cfg, q) && Sane(u) && Simulates(q, u, floor) && Enabled(cfg, q, ev)
    ensures RefEnabled(cfg, u, ev) && floor <= floor' && (!ev.OutputDone? ==> floor' == floor)
    ensures Simulates(Step(cfg, q, ev), RefStep(cfg, u, floor, ev), floor')
  {
    hide Simulates, Inv, WellFormed, Sane, DoSend, DoOutputDone, Schedule, Start, DoFlowInit, DoFlowFree, RefStep;
    InvWellFormed(cfg, q);
    SimulatesFacts(cfg, q, u, floor, ev);
    floor' := floor;
    match ev
    case Send(f, len) => SendAgrees(cfg, q, u, floor, f, len);
    case OutputDone => floor' := OutputDoneAgrees(cfg, q, u, floor);
    case ScheduleJob => ScheduleJobAgrees(cfg, q, u, floor);
    case FlowInit(f) => FlowsAgree(cfg, q, u, floor, ev);
    case FlowFree(f) => FlowsAgree(cfg, q, u, floor, ev);
    case PrepareFree => FreeingAgrees(cfg, q, u, floor);
  }

  lemma FreeingAgrees(cfg: Config, q: Queue, u: Ref, floor: nat)
    requires Simulates(q, u, floor) && Sane(u)
    ensures Simulates(q.(freeing := true), RefStep(cfg, u, floor, PrepareFree), floor)
  {
  }

  lemma ScheduleJobAgrees(cfg: Config, q: Queue, u: Ref, floor: nat)
    requires Inv(cfg, q) && Sane(u) && Simulates(q, u, floor) && q.scheduled && RefEnabled(cfg, u, ScheduleJob)
    ensures Simulates(DoScheduleJob(q), RefStep(cfg, u, floor, ScheduleJob), floor)
  {
    hide Schedule, Start, Listed, TimesFit, LensFit, SendingLeads;
    SimulatesFacts(cfg, q, u, floor, ScheduleJob);
    if q.queued.Keys != {} {
      ScheduleAgrees(q.(previous := None, scheduled := false), u.(last := None, decide := false), floor);
    }
  }

  /** The packets that are on their way after each of the events, each with its flow and its length. */
  ghost function Sent(cfg: Config, q: Queue, evs: seq<Event>): seq<Option<(Flow, nat)>>
    requires cfg.Valid() && Inv(cfg, q) && Possible(cfg, q, evs)
    decreases |evs|
  {
    if evs == [] then []
    else StepInv(cfg, q, evs[0]); [OnItsWay(Step(cfg, q, evs[0]))] + Sent(cfg, Step(cfg, q, evs[0]), evs[1..])
  }

  /** The floor never passes a flow that is backlogged. */
  predicate FloorBelow(u: Ref, floor: nat) {
    forall f :: f in u.time && f in Backlog(u) ==> floor <= u.time[f]
  }

  /**
   * A run of the reference, with the packet it has on its way after each event. The floor starts at
   * `floor` and is `floors[i]` after event `i`; it may rise when a packet completes, never above the
   * time of a backlogged flow.
   */
  ghost predicate RefRun(cfg: Config, u: Ref, floor: nat, evs: seq<Event>, floors: seq<nat>, sent: seq<Option<(Flow, nat)>>)
    requires |evs| == |floors| == |sent|
    decreases |evs|
  {
    evs == [] ||
    (&& Sane(u) && RefEnabled(cfg, u, evs[0])
     && var u' := RefStep(cfg, u, floor, evs[0]);
     && sent[0] == u'.current
     && floor <= floors[0] && (evs[0].OutputDone? || floors[0] == floor) && FloorBelow(u', floors[0])
     && RefRun(cfg, u', floors[0], evs[1..], floors[1..], sent[1..]))
  }

  lemma SimulatesFloor(q: Queue, u: Ref, floor: nat)
    requires Simulates(q, u, floor)
    ensures FloorBelow(u, floor) && u.current == OnItsWay(q)
  {
    forall f | f in u.time && f in Backlog(u) ensures floor <= u.time[f] {
      assert Active(q, f);
    }
  }

  lemma {:induction false} RunRefines(cfg: Config, q: Queue, u: Ref, floor: nat, evs: seq<Event>) returns (floors: seq<nat>)
    requires cfg.Valid() && Inv(cfg, q) && Possible(cfg, q, evs) && Simulates(q, u, floor)
    ensures |floors| == |evs| && |Sent(cfg, q, evs)| == |evs|
    ensures RefRun(cfg, u, floor, evs, floors, Sent(cfg, q, evs))
    decreases |evs|
  {
    if evs == [] {
      floors := [];
    } else {
      hide Step, RefStep, Inv, Enabled, RefEnabled, WellFormed, Sane, Simulates, FloorBelow;
      InvWellFormed(cfg, q);
      SimulatesFacts(cfg, q, u, floor, evs[0]);
      StepInv(cfg, q, evs[0]);
      var floor' := RefinesReference(cfg, q, u, floor, evs[0]);
      var q', u' := Step(cfg, q, evs[0]), RefStep(cfg, u, floor, evs[0]);
      SimulatesFloor(q', u', floor');
      var rest := RunRefines(cfg, q', u', floor', evs[1..]);
      floors := [floor'] + rest;
      assert floors[1..] == rest;
      assert Sent(cfg, q, evs)[1..] == Sent(cfg, q', evs[1..]);
    }
  }

  /** Every run of the queue from its initial state sends the packets of a run of the reference. */
  lemma SendsAsReference(cfg: Config, evs: seq<Event>)
    requires cfg.Valid() && Inv(cfg, Initial()) && Possible(cfg, Initial(), evs)
    ensures exists floors: seq<nat> :: |floors| == |evs| == |Sent(cfg, Initial(), evs)| &&
                                       RefRun(cfg, EMPTY, 0, evs, floors, Sent(cfg, Initial(), evs))
  {
    var floors := RunRefines(cfg, Initial(), EMPTY, 0, evs);
  }
}
