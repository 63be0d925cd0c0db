/**
 * Where every buffer is, told from the events alone: the flow's last wish says where it goes, and a packet that is on
 * its way keeps it where it is until then.
 */
module DataProtoWishes {
  import opened Options
  import opened DataProto

  // ---------- what the events say ----------

  /** The sink that the flow was last told to send to, if any. */
  function Wanted(past: seq<Event>, f: Id): Option<Id>
    decreases |past|
  {
    if past == [] then None
    else
      match past[|past| - 1]
      case FlowAttach(g, s) => if g == f then Some(s) else Wanted(past[..|past| - 1], f)
      case FlowDetach(g) => if g == f then None else Wanted(past[..|past| - 1], f)
      case FlowInit(g) => if g == f then None else Wanted(past[..|past| - 1], f)
      case _ => Wanted(past[..|past| - 1], f)
  }

  /** How many flows there have been. */
  function Flows(past: seq<Event>): nat
    decreases |past|
  {
    if past == [] then 0 else Flows(past[..|past| - 1]) + if past[|past| - 1].FlowInit? then 1 else 0
  }

  /** The number of the flow among all that there have been, if it has not been freed. */
  function Number(past: seq<Event>, f: Id): Option<nat>
    decreases |past|
  {
    if past == [] then None
    else if past[|past| - 1] == FlowInit(f) then Some(Flows(past[..|past| - 1]))
    else if past[|past| - 1] == FlowFree(f) then None
    else Number(past[..|past| - 1], f)
  }

  /** Whether the sink has been made and not freed. */
  predicate Stands(past: seq<Event>, s: Id)
    decreases |past|
  {
    past != [] && var ev := past[|past| - 1];
    ev == SinkInit(s) || (ev != SinkFree(s) && Stands(past[..|past| - 1], s))
  }

  /** What the sink is sending: a packet that was started and is not done. */
  function OnItsWay(past: seq<Event>, s: Id): Option<Who>
    decreases |past|
  {
    if past == [] then None
    else
      match past[|past| - 1]
      case QueueStart(t, who) => if t == s then Some(who) else OnItsWay(past[..|past| - 1], s)
      case QueueDone(t) => if t == s then None else OnItsWay(past[..|past| - 1], s)
      case SinkInit(t) => if t == s then None else OnItsWay(past[..|past| - 1], s)
      case SinkFree(t) => if t == s then None else OnItsWay(past[..|past| - 1], s)
      case _ => OnItsWay(past[..|past| - 1], s)
  }

  // ---------- every run keeps to it ----------

  predicate FlowAgrees(past: seq<Event>, w: World, f: Id) {
    && (f in w.flows <==> Number(past, f).Some?)
    && (f in w.flows ==> w.flows[f].desired == Wanted(past, f) && w.flows[f].b == Number(past, f).value)
  }

  predicate SinkAgrees(past: seq<Event>, w: World, s: Id) {
    && (s in w.sinks <==> Stands(past, s))
    && (s in w.sinks ==> w.sinks[s].sending == OnItsWay(past, s))
  }

  ghost predicate Agrees(past: seq<Event>, w: World) {
    && (forall f :: FlowAgrees(past, w, f))
    && (forall s :: SinkAgrees(past, w, s))
    && w.next == Flows(past)
  }

  lemma StepFlow(past: seq<Event>, w: World, ev: Event, f: Id)
    requires Inv(w) && Enabled(w, ev) && FlowAgrees(past, w, f) && w.next == Flows(past)
    ensures FlowAgrees(past + [ev], Step(w, ev), f)
  {
    assert (past + [ev])[..|past|] == past;
    StepWish(w, ev, f);
    hide Inv, Step;
  }

  /** Only its user changes what a flow wants. */
  lemma StepWish(w: World, ev: Event, f: Id)
    requires Inv(w) && Enabled(w, ev)
    ensures var w' := Step(w, ev);
            && (f in w'.flows <==> ev == FlowInit(f) || (f in w.flows && ev != FlowFree(f)))
            && (f in w'.flows ==>
                  w'.flows[f] ==
                    if ev == FlowInit(f) then Flow(None, w.next)
                    else if ev == FlowDetach(f) then w.flows[f].(desired := None)
                    else if ev.FlowAttach? && ev.f == f then w.flows[f].(desired := Some(ev.s)) else w.flows[f])
  {
    hide Inv;
  }

  lemma StepSink(past: seq<Event>, w: World, ev: Event, s: Id)
    requires Inv(w) && Enabled(w, ev) && SinkAgrees(past, w, s)
    ensures SinkAgrees(past + [ev], Step(w, ev), s)
  {
    assert (past + [ev])[..|past|] == past;
    StepSending(w, ev, s);
    hide Inv, Step;
  }

  /** Only the queue starts and finishes packets; a sink that is freed forgets its own. */
  lemma StepSending(w: World, ev: Event, s: Id)
    requires Inv(w) && Enabled(w, ev)
    ensures var w' := Step(w, ev);
            && (s in w'.sinks <==> ev == SinkInit(s) || (s in w.sinks && ev != SinkFree(s)))
            && (s in w'.sinks ==>
                  w'.sinks[s].sending ==
                    if ev == SinkInit(s) || ev == QueueDone(s) then None
                    else if ev.QueueStart? && ev.s == s then Some(ev.who) else w.sinks[s].sending)
  {
    match ev
    case SinkFree(t) => assert SinkOk(w, t);
    case QueueDone(t) => assert SinkOk(w, t);
    case FlowAttach(f, t) => assert FlowOk(w, f) && BufferOk(w, w.flows[f].b);
    case FlowDetach(f) => assert FlowOk(w, f) && BufferOk(w, w.flows[f].b);
    case FlowFree(f) => assert FlowOk(w, f) && BufferOk(w, w.flows[f].b);
    case _ =>
  }

  lemma StepNext(past: seq<Event>, w: World, ev: Event)
    requires Inv(w) && Enabled(w, ev) && w.next == Flows(past)
    ensures Step(w, ev).next == Flows(past + [ev])
  {
    assert (past + [ev])[..|past|] == past;
    hide Inv;
  }

  lemma {:induction false} RunAgrees(past: seq<Event>, w: World, evs: seq<Event>)
    requires Inv(w) && Possible(w, evs) && Agrees(past, w)
    ensures Agrees(past + evs, Run(w, evs))
    decreases |evs|
  {
    if evs == [] {
      assert past + evs == past;
    } else {
      var w' := Step(w, evs[0]);
      forall f ensures FlowAgrees(past + [evs[0]], w', f) {
        StepFlow(past, w, evs[0], f);
      }
      forall s ensures SinkAgrees(past + [evs[0]], w', s) {
        StepSink(past, w, evs[0], s);
      }
      StepNext(past, w, evs[0]);
      StepInv(w, evs[0]);
      RunAgrees(past + [evs[0]], w', evs[1..]);
      assert past + [evs[0]] + evs[1..] == past + evs;
    }
  }

  lemma ReachedAgrees(evs: seq<Event>, w: World)
    requires Reaches(evs, w)
    ensures Inv(w) && Agrees(evs, w)
  {
    InitialInv();
    assert Agrees([], Initial());
    RunAgrees([], Initial(), evs);
    assert [] + evs == evs;
  }

  /** A flow wants the sink `s` exactly if the last it was told is to attach to `s`. */
  lemma DesiredIsLastWish(evs: seq<Event>, w: World, f: Id)
    requires Reaches(evs, w)
    ensures f in w.flows <==> Number(evs, f).Some?
    ensures f in w.flows ==> w.flows[f].desired == Wanted(evs, f)
  {
    ReachedAgrees(evs, w);
    assert FlowAgrees(evs, w, f);
  }

  /**
   * Where the buffer of a flow is, after every run: in the sink that is sending its packet, if there is one; otherwise
   * where the flow was last told to go, or nowhere if it was told to go nowhere.
   */
  lemma BufferIsWhereTold(evs: seq<Event>, w: World, f: Id)
    requires Reaches(evs, w) && Number(evs, f).Some?
    ensures var b: Id := Number(evs, f).value;
            && b in w.buffers && w.buffers[b].flow == Some(f)
            && (forall s: Id :: OnItsWay(evs, s) == Some(Of(b)) && Stands(evs, s) ==> w.buffers[b].sink == Some(s))
            && ((forall s: Id :: Stands(evs, s) ==> OnItsWay(evs, s) != Some(Of(b))) ==> w.buffers[b].sink == Wanted(evs, f))
  {
    ReachedAgrees(evs, w);
    assert FlowAgrees(evs, w, f) && FlowOk(w, f);
    var b: Id := Number(evs, f).value;
    assert BufferOk(w, b);
    forall s: Id | OnItsWay(evs, s) == Some(Of(b)) && Stands(evs, s) ensures w.buffers[b].sink == Some(s) {
      assert SinkAgrees(evs, w, s) && SinkOk(w, s);
    }
    if w.buffers[b].sink.Some? && w.buffers[b].sink != Wanted(evs, f) {
      var t := w.buffers[b].sink.value;
      assert SinkAgrees(evs, w, t) && SinkOk(w, t);
    }
  }

  ghost predicate HasFlow(evs: seq<Event>, b: Id) {
    exists f: Id :: Number(evs, f) == Some(b)
  }

  ghost predicate IsSent(evs: seq<Event>, b: Id) {
    exists s: Id :: Stands(evs, s) && OnItsWay(evs, s) == Some(Of(b))
  }

  /** A buffer is there exactly as long as its flow is, or its packet is on its way; then it is freed. */
  lemma BufferLivesExactly(evs: seq<Event>, w: World, b: Id)
    requires Reaches(evs, w)
    ensures b in w.buffers <==> HasFlow(evs, b) || IsSent(evs, b)
    ensures b in w.freed <==> b < Flows(evs) && !HasFlow(evs, b) && !IsSent(evs, b)
  {
    ReachedAgrees(evs, w);
    assert FreedOk(w, b);
    if b in w.buffers {
      assert BufferOk(w, b);
      if w.buffers[b].flow.Some? {
        var f: Id := w.buffers[b].flow.value;
        assert FlowAgrees(evs, w, f);
        assert Number(evs, f) == Some(b);
      } else {
        var t: Id := w.buffers[b].sink.value;
        assert SinkAgrees(evs, w, t) && SinkOk(w, t);
        assert Stands(evs, t) && OnItsWay(evs, t) == Some(Of(b));
      }
    }
    if HasFlow(evs, b) {
      var f: Id :| Number(evs, f) == Some(b);
      assert FlowAgrees(evs, w, f) && FlowOk(w, f);
    }
    if IsSent(evs, b) {
      var s: Id :| Stands(evs, s) && OnItsWay(evs, s) == Some(Of(b));
      assert SinkAgrees(evs, w, s) && SinkOk(w, s);
    }
  }
}
