/** The flows, buffers and sinks as they are changed in place, function by function. */
module DataProtoObject {
  import opened Options
  import opened DataProto

  class Objects {
    var sinks: map<Id, Sink>
    var flows: map<Id, Flow>
    var buffers: map<Id, Buffer>
    var next: nat
    ghost var freed: seq<Id>

    ghost function View(): World
      reads this
    {
      World(sinks, flows, buffers, freed, next)
    }

    ghost predicate Valid()
      reads this
    {
      Inv(View())
    }

    constructor ()
      ensures Valid() && View() == Initial()
    {
      sinks, flows, buffers, next, freed := map[], map[], map[], 0, [];
    }

    // ---------- buffers ----------

    method FlowBufferFree(b: Id)
      requires b in buffers && buffers[b].sink.None?
      modifies this
      ensures View() == BufferFree(old(View()), b)
    {
      buffers := buffers - {b};
      freed := freed + [b];
    }

    method FlowBufferAttach(b: Id, s: Id)
      requires b in buffers && buffers[b].sink.None? && s in sinks
      modifies this
      ensures View() == BufferAttach(old(View()), b, s)
    {
      buffers := buffers[b := buffers[b].(sink := Some(s))];
    }

    method FlowBufferDetach(b: Id, ghost freeing: bool)
      requires Attached(View(), b) && (freeing || !IsBusy(View(), b))
      modifies this
      ensures View() == BufferDetach(old(View()), b, freeing)
    {
      var s := buffers[b].sink.value;
      if sinks[s].sending == Some(Of(b)) {
        sinks := sinks[s := sinks[s].(sending := None)];
      }
      if sinks[s].detaching == Some(b) {
        sinks := sinks[s := sinks[s].(detaching := None)];
      }
      buffers := buffers[b := buffers[b].(sink := None)];
    }

    method FlowBufferScheduleDetach(b: Id)
      requires Attached(View(), b) && IsBusy(View(), b)
      requires sinks[buffers[b].sink.value].detaching in {None, Some(b)}
      modifies this
      ensures View() == ScheduleDetach(old(View()), b)
    {
      var s := buffers[b].sink.value;
      if sinks[s].detaching == Some(b) {
        assert sinks == sinks[s := sinks[s].(detaching := Some(b))];
        return;
      }
      sinks := sinks[s := sinks[s].(detaching := Some(b))];
    }

    method FlowBufferFinishDetach(b: Id, ghost freeing: bool)
      requires Attached(View(), b) && (freeing || !IsBusy(View(), b))
      requires sinks[buffers[b].sink.value].detaching == Some(b)
      requires buffers[b].flow.Some? ==>
                 buffers[b].flow.value in flows && var d := flows[buffers[b].flow.value].desired; d.Some? ==> d.value in sinks
      modifies this
      ensures View() == FinishDetach(old(View()), b, freeing)
    {
      FlowBufferDetach(b, freeing);
      if buffers[b].flow.None? {
        FlowBufferFree(b);
      } else if flows[buffers[b].flow.value].desired.Some? {
        FlowBufferAttach(b, flows[buffers[b].flow.value].desired.value);
      }
    }

    // ---------- what users and queues call ----------

    method SinkInit(s: Id)
      requires Valid() && Enabled(View(), Event.SinkInit(s))
      modifies this
      ensures Valid() && View() == Step(old(View()), Event.SinkInit(s))
    {
      StepInv(View(), Event.SinkInit(s));
      sinks := sinks[s := Sink(None, None)];
    }

    method SinkFree(s: Id)
      requires Valid() && Enabled(View(), Event.SinkFree(s))
      modifies this
      ensures Valid() && View() == Step(old(View()), Event.SinkFree(s))
    {
      ghost var w := View();
      StepInv(w, Event.SinkFree(s));
      if sinks[s].detaching.Some? {
        var b := sinks[s].detaching.value;
        assert SinkOk(w, s) && BufferOk(w, b);
        assert buffers[b].flow.Some? ==> FlowOk(w, buffers[b].flow.value);
        FlowBufferFinishDetach(b, true);
      }
      sinks := sinks - {s};
    }

    method FlowInit(f: Id)
      requires Valid() && Enabled(View(), Event.FlowInit(f))
      modifies this
      ensures Valid() && View() == Step(old(View()), Event.FlowInit(f))
    {
      StepInv(View(), Event.FlowInit(f));
      var b := next;
      next := next + 1;
      flows := flows[f := Flow(None, b)];
      buffers := buffers[b := Buffer(Some(f), None)];
    }

    method FlowFree(f: Id)
      requires Valid() && Enabled(View(), Event.FlowFree(f))
      modifies this
      ensures Valid() && View() == Step(old(View()), Event.FlowFree(f))
    {
      ghost var w := View();
      StepInv(w, Event.FlowFree(f));
      assert FlowOk(w, f) && BufferOk(w, flows[f].b);
      var b := flows[f].b;
      flows := flows - {f};
      if buffers[b].sink.None? {
        FlowBufferFree(b);
      } else {
        UnwantedIsBusy(w, b);
        FlowBufferScheduleDetach(b);
        buffers := buffers[b := buffers[b].(flow := None)];
      }
    }

    method FlowAttach(f: Id, s: Id)
      requires Valid() && Enabled(View(), Event.FlowAttach(f, s))
      modifies this
      ensures Valid() && View() == Step(old(View()), Event.FlowAttach(f, s))
    {
      ghost var w := View();
      StepInv(w, Event.FlowAttach(f, s));
      var b := flows[f].b;
      assert FlowOk(w, f) && BufferOk(w, b);
      if buffers[b].sink.None? {
        FlowBufferAttach(b, s);
      } else {
        UnwantedIsBusy(w, b);
        FlowBufferScheduleDetach(b);
      }
      flows := flows[f := flows[f].(desired := Some(s))];
    }

    method FlowDetach(f: Id)
      requires Valid() && Enabled(View(), Event.FlowDetach(f))
      modifies this
      ensures Valid() && View() == Step(old(View()), Event.FlowDetach(f))
    {
      ghost var w := View();
      StepInv(w, Event.FlowDetach(f));
      var b := flows[f].b;
      assert FlowOk(w, f) && BufferOk(w, b) && SinkOk(w, buffers[b].sink.value);
      if sinks[buffers[b].sink.value].sending == Some(Of(b)) {
        FlowBufferScheduleDetach(b);
      } else {
        FlowBufferDetach(b, false);
      }
      flows := flows[f := flows[f].(desired := None)];
    }

    /** The sink's queue starts sending a packet of one of its flows. */
    method QueueStart(s: Id, who: Who)
      requires Valid() && Enabled(View(), Event.QueueStart(s, who))
      modifies this
      ensures Valid() && View() == Step(old(View()), Event.QueueStart(s, who))
    {
      StepInv(View(), Event.QueueStart(s, who));
      sinks := sinks[s := sinks[s].(sending := Some(who))];
    }

    /** The packet is done; the busy handler, if one was set, finishes the detaching. */
    method QueueDone(s: Id)
      requires Valid() && Enabled(View(), Event.QueueDone(s))
      modifies this
      ensures Valid() && View() == Step(old(View()), Event.QueueDone(s))
    {
      ghost var w := View();
      StepInv(w, Event.QueueDone(s));
      sinks := sinks[s := sinks[s].(sending := None)];
      if sinks[s].detaching.Some? {
        var b := sinks[s].detaching.value;
        assert SinkOk(w, s) && BufferOk(w, b);
        assert buffers[b].flow.Some? ==> FlowOk(w, buffers[b].flow.value);
        FlowBufferFinishDetach(b, false);
      }
    }
  }
}
