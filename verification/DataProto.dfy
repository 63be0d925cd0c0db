/**
 * Flows, their buffers and the sinks that the buffers send into. A buffer whose packet is on its way cannot
 * leave its sink at once: it is detached when the packet is done or when the sink goes away, and may by then
 * have another sink to go to, or no flow any more. Pointers are identifiers here; the requirements of the
 * functions are the assertions that the program makes.
 */
module DataProto {
  import opened Options
  import opened Lists

  type Id = nat

  /** Who a sink's queue is busy with: its own keep-alive flow or the queue flow of a buffer. */
  datatype Who = KeepAlive | Of(b: Id)

  datatype Sink = Sink(detaching: Option<Id>, sending: Option<Who>)

  datatype Flow = Flow(desired: Option<Id>, b: Id)

  datatype Buffer = Buffer(flow: Option<Id>, sink: Option<Id>)

  /** `freed` is the order in which buffers were freed, `next` the next buffer to be allocated. */
  datatype World = World(sinks: map<Id, Sink>, flows: map<Id, Flow>, buffers: map<Id, Buffer>, freed: seq<Id>, next: nat)

  function Initial(): World {
    World(map[], map[], map[], [], 0)
  }

  // ---------- buffers ----------

  predicate Attached(w: World, b: Id) {
    b in w.buffers && w.buffers[b].sink.Some? && w.buffers[b].sink.value in w.sinks
  }

  predicate IsBusy(w: World, b: Id)
    requires Attached(w, b)
  {
    w.sinks[w.buffers[b].sink.value].sending == Some(Of(b))
  }

  function BufferFree(w: World, b: Id): World
    requires b in w.buffers && w.buffers[b].sink.None?
  {
    w.(buffers := w.buffers - {b}, freed := w.freed + [b])
  }

  function BufferAttach(w: World, b: Id, s: Id): World
    requires b in w.buffers && w.buffers[b].sink.None? && s in w.sinks
  {
    w.(buffers := w.buffers[b := w.buffers[b].(sink := Some(s))])
  }

  /** A busy queue flow can be freed only if the sink is being freed; the queue then forgets its packet. */
  function BufferDetach(w: World, b: Id, freeing: bool): World
    requires Attached(w, b) && (freeing || !IsBusy(w, b))
  {
    var s := w.buffers[b].sink.value;
    var sink := w.sinks[s];
    w.(sinks := w.sinks[s := Sink(if sink.detaching == Some(b) then None else sink.detaching,
                                  if sink.sending == Some(Of(b)) then None else sink.sending)],
       buffers := w.buffers[b := w.buffers[b].(sink := None)])
  }

  function ScheduleDetach(w: World, b: Id): World
    requires Attached(w, b) && IsBusy(w, b)
    requires w.sinks[w.buffers[b].sink.value].detaching in {None, Some(b)}
  {
    var s := w.buffers[b].sink.value;
    w.(sinks := w.sinks[s := w.sinks[s].(detaching := Some(b))])
  }

  function FinishDetach(w: World, b: Id, freeing: bool): World
    requires Attached(w, b) && (freeing || !IsBusy(w, b))
    requires w.sinks[w.buffers[b].sink.value].detaching == Some(b)
    requires w.buffers[b].flow.Some? ==>
               w.buffers[b].flow.value in w.flows &&
               var d := w.flows[w.buffers[b].flow.value].desired; d.Some? ==> d.value in w.sinks
  {
    var w' := BufferDetach(w, b, freeing);
    match w.buffers[b].flow
    case None => BufferFree(w', b)
    case Some(f) =>
      match w.flows[f].desired
      case None => w'
      case Some(s) => BufferAttach(w', b, s)
  }

  // ---------- the invariant ----------

  /** A flow owns its buffer, and the buffer of a flow with a desired sink is in some sink. */
  predicate FlowOk(w: World, f: Id) {
    f in w.flows ==>
      var flow := w.flows[f];
      && flow.b in w.buffers && w.buffers[flow.b].flow == Some(f)
      && (flow.desired.Some? ==> flow.desired.value in w.sinks && w.buffers[flow.b].sink.Some?)
  }

  /**
   * A buffer's sink is alive, and is its flow's desired sink or one that it is being detached from; a
   * buffer without a flow is being detached.
   */
  predicate BufferOk(w: World, b: Id) {
    b in w.buffers ==>
      var buffer := w.buffers[b];
      && b < w.next
      && (buffer.flow.Some? ==> buffer.flow.value in w.flows && w.flows[buffer.flow.value].b == b)
      && (buffer.flow.None? ==> buffer.sink.Some?)
      && (buffer.sink.Some? ==>
            && buffer.sink.value in w.sinks
            && (w.sinks[buffer.sink.value].detaching == Some(b) ||
                (buffer.flow.Some? && w.flows[buffer.flow.value].desired == buffer.sink)))
  }

  /** The one buffer being detached from a sink is in it, and is what its queue is busy with. */
  predicate SinkOk(w: World, s: Id) {
    s in w.sinks ==>
      var sink := w.sinks[s];
      && (sink.detaching.Some? ==> sink.sending == Some(Of(sink.detaching.value)))
      && (sink.sending.Some? && sink.sending.value.Of? ==>
            sink.sending.value.b in w.buffers && w.buffers[sink.sending.value.b].sink == Some(s))
  }

  /** Every buffer ever allocated is either alive or has been freed, and none twice. */
  predicate FreedOk(w: World, b: Id) {
    && (b in w.buffers || b in w.freed <==> b < w.next)
    && !(b in w.buffers && b in w.freed)
  }

  ghost predicate Inv(w: World) {
    && (forall f :: FlowOk(w, f))
    && (forall b :: BufferOk(w, b))
    && (forall s :: SinkOk(w, s))
    && (forall b :: FreedOk(w, b))
    && NoDup(w.freed)
  }

  // ---------- what users and queues do ----------

  datatype Event =
    | SinkInit(s: Id)
    | SinkFree(s: Id)
    | FlowInit(f: Id)
    | FlowFree(f: Id)
    | FlowAttach(f: Id, s: Id)
    | FlowDetach(f: Id)
    | QueueStart(s: Id, who: Who)
    | QueueDone(s: Id)

  /** Whether some flow wants the sink, which the sink's counter of its users tells. */
  predicate Desired(w: World, s: Id) {
    exists f :: f in w.flows && w.flows[f].desired == Some(s)
  }

  /** What the interface demands of users; and a sink's queue sends one packet at a time, of one of its own flows. */
  predicate Enabled(w: World, ev: Event) {
    match ev
    case SinkInit(s) => s !in w.sinks
    case SinkFree(s) => s in w.sinks && !Desired(w, s)
    case FlowInit(f) => f !in w.flows
    case FlowFree(f) => f in w.flows && w.flows[f].desired.None?
    case FlowAttach(f, s) => f in w.flows && w.flows[f].desired.None? && s in w.sinks
    case FlowDetach(f) => f in w.flows && w.flows[f].desired.Some?
    case QueueStart(s, who) =>
      s in w.sinks && w.sinks[s].sending.None? && (who.Of? ==> who.b in w.buffers && w.buffers[who.b].sink == Some(s))
    case QueueDone(s) => s in w.sinks && w.sinks[s].sending.Some?
  }

  function DoFlowInit(w: World, f: Id): World {
    w.(flows := w.flows[f := Flow(None, w.next)], buffers := w.buffers[w.next := Buffer(Some(f), None)], next := w.next + 1)
  }

  /**
   * A buffer that is still in a sink although its flow wants none is busy. The branches of FlowFree and
   * FlowAttach that detach a buffer at once are therefore never taken.
   */
  lemma UnwantedIsBusy(w: World, b: Id)
    requires Inv(w) && Attached(w, b)
    requires w.buffers[b].flow.Some? ==> w.buffers[b].flow.value in w.flows && w.flows[w.buffers[b].flow.value].desired.None?
    ensures IsBusy(w, b) && w.sinks[w.buffers[b].sink.value].detaching == Some(b)
  {
    assert BufferOk(w, b) && SinkOk(w, w.buffers[b].sink.value);
  }

  ghost function DoFlowFree(w: World, f: Id): World
    requires Inv(w) && Enabled(w, FlowFree(f))
  {
    assert FlowOk(w, f);
    var b := w.flows[f].b;
    assert BufferOk(w, b);
    var w' := w.(flows := w.flows - {f});
    if w.buffers[b].sink.None? then BufferFree(w', b)
    else
      assert SinkOk(w, w.buffers[b].sink.value);
      if IsBusy(w, b) then
        var w'' := ScheduleDetach(w', b);
        w''.(buffers := w''.buffers[b := w''.buffers[b].(flow := None)])
      else assert false; w'
  }

  ghost function DoFlowAttach(w: World, f: Id, s: Id): World
    requires Inv(w) && Enabled(w, FlowAttach(f, s))
  {
    assert FlowOk(w, f);
    var b := w.flows[f].b;
    assert BufferOk(w, b);
    var w' :=
      if w.buffers[b].sink.None? then BufferAttach(w, b, s)
      else
        assert SinkOk(w, w.buffers[b].sink.value);
        if IsBusy(w, b) then ScheduleDetach(w, b) else assert false; w;
    w'.(flows := w'.flows[f := w'.flows[f].(desired := Some(s))])
  }

  ghost function DoFlowDetach(w: World, f: Id): World
    requires Inv(w) && Enabled(w, FlowDetach(f))
  {
    assert FlowOk(w, f);
    var b := w.flows[f].b;
    assert BufferOk(w, b) && SinkOk(w, w.buffers[b].sink.value);
    var w' := if IsBusy(w, b) then ScheduleDetach(w, b) else BufferDetach(w, b, false);
    w'.(flows := w'.flows[f := w'.flows[f].(desired := None)])
  }

  ghost function DoQueueDone(w: World, s: Id): World
    requires Inv(w) && Enabled(w, QueueDone(s))
  {
    var w' := w.(sinks := w.sinks[s := w.sinks[s].(sending := None)]);
    match w.sinks[s].detaching
    case None => w'
    case Some(b) =>
      assert SinkOk(w, s) && BufferOk(w, b);
      assert w.buffers[b].flow.Some? ==> FlowOk(w, w.buffers[b].flow.value);
      FinishDetach(w', b, false)
  }

  ghost function DoSinkFree(w: World, s: Id): World
    requires Inv(w) && Enabled(w, SinkFree(s))
  {
    var w' :=
      match w.sinks[s].detaching
      case None => w
      case Some(b) =>
        assert SinkOk(w, s) && BufferOk(w, b);
        assert w.buffers[b].flow.Some? ==> FlowOk(w, w.buffers[b].flow.value);
        FinishDetach(w, b, true);
    w'.(sinks := w'.sinks - {s})
  }

  ghost function Step(w: World, ev: Event): World
    requires Inv(w) && Enabled(w, ev)
  {
    match ev
    case SinkInit(s) => w.(sinks := w.sinks[s := Sink(None, None)])
    case SinkFree(s) => DoSinkFree(w, s)
    case FlowInit(f) => DoFlowInit(w, f)
    case FlowFree(f) => DoFlowFree(w, f)
    case FlowAttach(f, s) => DoFlowAttach(w, f, s)
    case FlowDetach(f) => DoFlowDetach(w, f)
    case QueueStart(s, who) => w.(sinks := w.sinks[s := w.sinks[s].(sending := Some(who))])
    case QueueDone(s) => DoQueueDone(w, s)
  }

  // ---------- every event keeps the invariant ----------

  lemma InitialInv()
    ensures Inv(Initial())
  {
  }

  lemma FreedOnce(w: World, w': World, b: Id)
    requires Inv(w) && b in w.buffers
    requires w'.next == w.next && w'.freed == w.freed + [b] && w'.buffers.Keys == w.buffers.Keys - {b}
    ensures NoDup(w'.freed) && forall c :: FreedOk(w', c)
  {
    assert FreedOk(w, b);
    NoDupSnoc(w.freed, b);
    forall c ensures FreedOk(w', c) {
      assert FreedOk(w, c);
    }
  }

  lemma FreedSame(w: World, w': World)
    requires Inv(w) && w'.next == w.next && w'.freed == w.freed && w'.buffers.Keys == w.buffers.Keys
    ensures NoDup(w'.freed) && forall c :: FreedOk(w', c)
  {
    forall c ensures FreedOk(w', c) {
      assert FreedOk(w, c);
    }
  }

  lemma SinkInitInv(w: World, s: Id)
    requires Inv(w) && Enabled(w, SinkInit(s))
    ensures Inv(Step(w, SinkInit(s)))
  {
    hide NoDup;
    var w' := Step(w, SinkInit(s));
    FreedSame(w, w');
    forall x ensures FlowOk(w', x) && BufferOk(w', x) && SinkOk(w', x) {
      assert FlowOk(w, x) && BufferOk(w, x) && SinkOk(w, x);
    }
  }

  lemma FlowInitInv(w: World, f: Id)
    requires Inv(w) && Enabled(w, FlowInit(f))
    ensures Inv(Step(w, FlowInit(f)))
  {
    hide NoDup;
    var w' := Step(w, FlowInit(f));
    assert FreedOk(w, w.next);
    forall x ensures FlowOk(w', x) && BufferOk(w', x) && SinkOk(w', x) && FreedOk(w', x) {
      assert FlowOk(w, x) && BufferOk(w, x) && SinkOk(w, x) && FreedOk(w, x);
    }
  }

  lemma QueueStartInv(w: World, s: Id, who: Who)
    requires Inv(w) && Enabled(w, QueueStart(s, who))
    ensures Inv(Step(w, QueueStart(s, who)))
  {
    hide NoDup;
    var w' := Step(w, QueueStart(s, who));
    FreedSame(w, w');
    forall x ensures FlowOk(w', x) && BufferOk(w', x) && SinkOk(w', x) {
      assert FlowOk(w, x) && BufferOk(w, x) && SinkOk(w, x);
    }
  }

  lemma FlowFreeInv(w: World, f: Id)
    requires Inv(w) && Enabled(w, FlowFree(f))
    ensures Inv(Step(w, FlowFree(f)))
  {
    hide NoDup;
    var w' := Step(w, FlowFree(f));
    var b := w.flows[f].b;
    assert FlowOk(w, f) && BufferOk(w, b);
    if w.buffers[b].sink.None? {
      FreedOnce(w, w', b);
    } else {
      UnwantedIsBusy(w, b);
      FreedSame(w, w');
    }
    forall x ensures FlowOk(w', x) && BufferOk(w', x) && SinkOk(w', x) {
      assert FlowOk(w, x) && BufferOk(w, x) && SinkOk(w, x);
    }
  }

  lemma FlowAttachInv(w: World, f: Id, s: Id)
    requires Inv(w) && Enabled(w, FlowAttach(f, s))
    ensures Inv(Step(w, FlowAttach(f, s)))
  {
    hide NoDup;
    var w' := Step(w, FlowAttach(f, s));
    var b := w.flows[f].b;
    assert FlowOk(w, f) && BufferOk(w, b);
    if w.buffers[b].sink.Some? {
      UnwantedIsBusy(w, b);
    }
    FreedSame(w, w');
    forall x ensures FlowOk(w', x) && BufferOk(w', x) && SinkOk(w', x) {
      assert FlowOk(w, x) && BufferOk(w, x) && SinkOk(w, x);
    }
  }

  lemma FlowDetachInv(w: World, f: Id)
    requires Inv(w) && Enabled(w, FlowDetach(f))
    ensures Inv(Step(w, FlowDetach(f)))
  {
    hide NoDup;
    var w' := Step(w, FlowDetach(f));
    var b := w.flows[f].b;
    assert FlowOk(w, f) && BufferOk(w, b) && SinkOk(w, w.buffers[b].sink.value);
    FreedSame(w, w');
    forall x ensures FlowOk(w', x) && BufferOk(w', x) && SinkOk(w', x) {
      assert FlowOk(w, x) && BufferOk(w, x) && SinkOk(w, x);
    }
  }

  lemma QueueDoneInv(w: World, s: Id)
    requires Inv(w) && Enabled(w, QueueDone(s))
    ensures Inv(Step(w, QueueDone(s)))
  {
    hide NoDup;
    var w' := Step(w, QueueDone(s));
    assert SinkOk(w, s);
    if w.sinks[s].detaching.Some? {
      var b := w.sinks[s].detaching.value;
      assert BufferOk(w, b);
      if w.buffers[b].flow.None? {
        FreedOnce(w, w', b);
      } else {
        assert FlowOk(w, w.buffers[b].flow.value);
        FreedSame(w, w');
      }
    } else {
      FreedSame(w, w');
    }
    forall x ensures FlowOk(w', x) && BufferOk(w', x) && SinkOk(w', x) {
      assert FlowOk(w, x) && BufferOk(w, x) && SinkOk(w, x);
    }
  }

  lemma SinkFreeInv(w: World, s: Id)
    requires Inv(w) && Enabled(w, SinkFree(s))
    ensures Inv(Step(w, SinkFree(s)))
  {
    hide NoDup;
    var w' := Step(w, SinkFree(s));
    assert SinkOk(w, s);
    if w.sinks[s].detaching.Some? {
      var b := w.sinks[s].detaching.value;
      assert BufferOk(w, b);
      if w.buffers[b].flow.None? {
        FreedOnce(w, w', b);
      } else {
        assert FlowOk(w, w.buffers[b].flow.value);
        FreedSame(w, w');
      }
    } else {
      FreedSame(w, w');
    }
    forall f ensures FlowOk(w', f) {
      assert FlowOk(w, f);
    }
    forall b ensures BufferOk(w', b) {
      assert BufferOk(w, b);
    }
    forall t ensures SinkOk(w', t) {
      assert SinkOk(w, t);
    }
  }

  lemma StepInv(w: World, ev: Event)
    requires Inv(w) && Enabled(w, ev)
    ensures Inv(Step(w, ev))
  {
    hide Inv, Step, Enabled;
    match ev
    case SinkInit(s) => SinkInitInv(w, s);
    case SinkFree(s) => SinkFreeInv(w, s);
    case FlowInit(f) => FlowInitInv(w, f);
    case FlowFree(f) => FlowFreeInv(w, f);
    case FlowAttach(f, s) => FlowAttachInv(w, f, s);
    case FlowDetach(f) => FlowDetachInv(w, f);
    case QueueStart(s, who) => QueueStartInv(w, s, who);
    case QueueDone(s) => QueueDoneInv(w, s);
  }

  // ---------- runs ----------

  ghost predicate Possible(w: World, evs: seq<Event>)
    requires Inv(w)
    decreases |evs|
  {
    evs == [] || (Enabled(w, evs[0]) && (StepInv(w, evs[0]); Possible(Step(w, evs[0]), evs[1..])))
  }

  ghost function Run(w: World, evs: seq<Event>): (r: World)
    requires Inv(w) && Possible(w, evs)
    ensures Inv(r)
    decreases |evs|
  {
    if evs == [] then w else StepInv(w, evs[0]); Run(Step(w, evs[0]), evs[1..])
  }

  /** The world after a run from nothing. */
  ghost predicate Reachable(w: World) {
    exists evs :: Reaches(evs, w)
  }

  ghost predicate Reaches(evs: seq<Event>, w: World) {
    InitialInv();
    Possible(Initial(), evs) && Run(Initial(), evs) == w
  }

  /**
   * Buffer ownership, in every world that can be reached: a buffer's sink is its flow's desired sink, or
   * the buffer is the one that is being detached from it, which is busy; it is never a sink that has been
   * freed. A buffer that has lost its flow is being detached.
   */
  lemma BufferOwnership(w: World, b: Id)
    requires Reachable(w) && b in w.buffers
    ensures var buffer := w.buffers[b];
            && (buffer.sink.Some? ==>
                  && buffer.sink.value in w.sinks
                  && ((buffer.flow.Some? && buffer.flow.value in w.flows && w.flows[buffer.flow.value].desired == buffer.sink) ||
                      (w.sinks[buffer.sink.value].detaching == Some(b) && w.sinks[buffer.sink.value].sending == Some(Of(b)))))
            && (buffer.flow.None? ==> buffer.sink.Some? && w.sinks[buffer.sink.value].detaching == Some(b))
  {
    InitialInv();
    var evs :| Reaches(evs, w);
    assert BufferOk(w, b);
    if w.buffers[b].sink.Some? {
      assert SinkOk(w, w.buffers[b].sink.value);
    }
  }

  /** Detaching is single: two buffers are never being detached from the same sink, nor one from two. */
  lemma DetachingIsSingle(w: World, s: Id, t: Id)
    requires Reachable(w) && s in w.sinks && t in w.sinks
    requires w.sinks[s].detaching.Some? && w.sinks[s].detaching == w.sinks[t].detaching
    ensures s == t
  {
    InitialInv();
    var evs :| Reaches(evs, w);
    assert SinkOk(w, s) && SinkOk(w, t);
  }

  /** Freeing a sink leaves no buffer behind that refers to it. */
  lemma SinkFreeLeavesNoBuffer(w: World, s: Id, b: Id)
    requires Inv(w) && Enabled(w, SinkFree(s)) && b in Step(w, SinkFree(s)).buffers
    ensures Step(w, SinkFree(s)).buffers[b].sink != Some(s)
  {
    SinkFreeInv(w, s);
    assert BufferOk(Step(w, SinkFree(s)), b);
  }

  /** How often a buffer has been freed. */
  ghost function TimesFreed(w: World, b: Id): nat {
    multiset(w.freed)[b]
  }

  lemma {:induction false} NoDupCount(ids: seq<Id>, b: Id)
    requires NoDup(ids)
    ensures multiset(ids)[b] == if b in ids then 1 else 0
  {
    if ids != [] {
      NoDupCount(ids[1..], b);
      assert ids == [ids[0]] + ids[1..];
    }
  }

  /**
   * Each buffer is freed exactly once: never while it is alive and never again afterwards; and when all
   * flows and sinks have gone, every buffer ever allocated has been freed.
   */
  lemma FreedExactlyOnce(w: World, b: Id)
    requires Reachable(w) && b < w.next
    ensures TimesFreed(w, b) == if b in w.buffers then 0 else 1
    ensures w.flows == map[] && w.sinks == map[] ==> TimesFreed(w, b) == 1
  {
    InitialInv();
    var evs :| Reaches(evs, w);
    assert FreedOk(w, b) && BufferOk(w, b);
    NoDupCount(w.freed, b);
  }

  /** A flow that keeps its desired sink gets there: once the packet in its old sink is done, its buffer is in the desired one. */
  lemma ReattachedWhenDone(w: World, f: Id)
    requires Inv(w) && f in w.flows && w.flows[f].desired.Some?
    requires FlowOk(w, f) && w.buffers[w.flows[f].b].sink != w.flows[f].desired
    ensures var s := w.buffers[w.flows[f].b].sink.value;
            && Enabled(w, QueueDone(s))
            && var w' := Step(w, QueueDone(s)); w'.flows == w.flows && w'.buffers[w.flows[f].b].sink == w.flows[f].desired
  {
    var b := w.flows[f].b;
    assert BufferOk(w, b) && SinkOk(w, w.buffers[b].sink.value);
  }
}
