/** The fair queue as the program runs it: fields updated in place, times shifted in a loop over the flows. */
module FairQueueObject {
  import opened Options
  import Q = FairQueue
  import R = FairQueueRuns

  class FairQueue {
    const cfg: Q.Config
    var flows: seq<Q.Flow>
    var time: map<Q.Flow, nat>
    var queued: map<Q.Flow, nat>
    var sending: Option<Q.Flow>
    var sendingLen: nat
    var previous: Option<Q.Flow>
    var scheduleJob: bool
    var freeing: bool

    ghost function View(): Q.Queue
      reads this
    {
      Q.Queue(flows, time, queued, sending, sendingLen, previous, scheduleJob, freeing)
    }

    ghost predicate Valid()
      reads this
    {
      cfg.Valid() && Q.Inv(cfg, View())
    }

    constructor (cfg: Q.Config)
      requires cfg.Valid()
      ensures Valid() && this.cfg == cfg && View() == Q.Initial()
    {
      this.cfg := cfg;
      flows, time, queued := [], map[], map[];
      sending, sendingLen, previous := None, 0, None;
      scheduleJob, freeing := false, false;
    }

    /** The queued flow that the tree has first. */
    method TreeFirst() returns (f: Q.Flow)
      requires queued.Keys <= time.Keys && queued.Keys != {}
      ensures f == Q.First(time, queued.Keys)
    {
      f :| f in queued;
      var seen, rest := {f}, queued.Keys - {f};
      while rest != {}
        invariant seen + rest == queued.Keys && Q.IsFirst(time, seen, f)
        decreases rest
      {
        var g :| g in rest;
        Q.FirstExtends(time, seen, f, g);
        if !Q.Before(time, f, g) {
          f := g;
        }
        seen, rest := seen + {g}, rest - {g};
      }
      assert seen == queued.Keys;
      Q.FirstUnique(time, queued.Keys, f);
    }

    method GetCurrentTime() returns (t: nat)
      requires Q.WellFormed(View())
      ensures t == Q.CurrentTime(View())
    {
      if sending.Some? {
        return time[sending.value];
      }
      var have := false;
      t := 0;
      if queued.Keys != {} {
        var first := TreeFirst();
        t, have := time[first], true;
      }
      if previous.Some? {
        if !have || time[previous.value] < t {
          t, have := time[previous.value], true;
        }
      }
    }

    /** Subtracts time from all flows; only the finished flow may go below zero and wrap around. */
    method SubtractFromAll(f: Q.Flow, subtract: nat)
      requires Q.Listed(View())
      modifies this`time
      ensures time == map g | g in old(time) :: Q.Shifted(old(time), f, subtract, g)
    {
      ghost var was := time;
      for i := 0 to |flows|
        invariant time.Keys == was.Keys
        invariant forall j :: 0 <= j < i ==> time[flows[j]] == Q.Shifted(was, f, subtract, flows[j])
        invariant forall j :: i <= j < |flows| ==> time[flows[j]] == was[flows[j]]
      {
        var g := flows[i];
        assert g in flows;
        if subtract > time[g] && g != f {
          time := time[g := 0];
        } else {
          time := time[g := Q.WrapSub(time[g], subtract)];
        }
      }
      forall g | g in was ensures time[g] == Q.Shifted(was, f, subtract, g) {
        assert g in flows;
        var j :| 0 <= j < |flows| && flows[j] == g;
      }
    }

    /** Adds the cost of a packet to the time of the flow that has just sent it. */
    method IncrementSentFlow(f: Q.Flow, amount: nat)
      requires queued.Keys <= time.Keys && Q.Listed(View()) && f in time
      modifies this`time
      ensures time == Q.Increment(old(time), queued.Keys, f, amount)
    {
      hide Q.WrapAdd, Q.Shifted, Q.First;
      if amount > Q.MAX_TIME - time[f] {
        var subtract;
        if queued.Keys == {} {
          subtract := time[f];
        } else {
          var first := TreeFirst();
          subtract := time[first];
        }
        SubtractFromAll(f, subtract);
      }
      time := time[f := Q.WrapAdd(time[f], amount)];
    }

    method Schedule()
      requires Q.WellFormed(View()) && queued.Keys != {}
      modifies this`queued, this`sending, this`sendingLen
      ensures View() == Q.Schedule(old(View()))
    {
      var f := TreeFirst();
      sendingLen := queued[f];
      queued := queued - {f};
      sending := Some(f);
    }

    /** A flow has a packet to send. */
    method InputSend(f: Q.Flow, len: nat)
      requires Valid() && Q.Enabled(cfg, View(), Q.Send(f, len))
      modifies this
      ensures Valid() && View() == Q.DoSend(old(View()), f, len)
    {
      hide Q.Inv, Q.CurrentTime, Q.Schedule;
      R.InvWellFormed(cfg, View());
      R.SendInv(cfg, View(), f, len);
      if previous == Some(f) {
        previous := None;
      } else {
        var now := GetCurrentTime();
        time := time[f := if time[f] > now then time[f] else now];
      }
      queued := queued[f := len];
      assert f in queued;
      if sending.None? && !scheduleJob {
        Schedule();
      }
    }

    /** The output has finished the packet; what to send next is decided in a job of its own. */
    method OutputDone()
      requires Valid() && Q.Enabled(cfg, View(), Q.OutputDone)
      modifies this
      ensures Valid() && View() == Q.DoOutputDone(cfg, old(View()))
    {
      hide Q.Inv, Q.Increment;
      R.InvWellFormed(cfg, View());
      R.OutputDoneInv(cfg, View());
      var f := sending.value;
      sending := None;
      previous := Some(f);
      IncrementSentFlow(f, cfg.weight + sendingLen);
      scheduleJob := true;
    }

    method ScheduleJobHandler()
      requires Valid() && Q.Enabled(cfg, View(), Q.ScheduleJob)
      modifies this
      ensures Valid() && View() == Q.DoScheduleJob(old(View()))
    {
      hide Q.Inv, Q.Schedule;
      R.InvWellFormed(cfg, View());
      R.StepInv(cfg, View(), Q.ScheduleJob);
      scheduleJob := false;
      previous := None;
      if queued.Keys != {} {
        Schedule();
      }
    }

    method FlowInit(f: Q.Flow)
      requires Valid() && Q.Enabled(cfg, View(), Q.FlowInit(f))
      modifies this
      ensures Valid() && View() == Q.DoFlowInit(old(View()), f)
    {
      hide Q.Inv;
      R.InvWellFormed(cfg, View());
      R.StepInv(cfg, View(), Q.FlowInit(f));
      time := time[f := 0];
      flows := flows + [f];
    }

    method FlowFree(f: Q.Flow)
      requires Valid() && Q.Enabled(cfg, View(), Q.FlowFree(f))
      modifies this
      ensures Valid() && View() == Q.DoFlowFree(old(View()), f)
    {
      hide Q.Inv, Q.Remove;
      R.InvWellFormed(cfg, View());
      R.StepInv(cfg, View(), Q.FlowFree(f));
      if sending == Some(f) {
        sending := None;
      }
      if previous == Some(f) {
        previous := None;
      }
      queued := queued - {f};
      flows := Q.Remove(flows, f);
      time := time - {f};
    }

    method PrepareFree()
      requires Valid()
      modifies this`freeing
      ensures Valid() && View() == old(View()).(freeing := true)
    {
      freeing := true;
    }
  }
}
