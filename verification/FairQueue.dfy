/**
 * The virtual-time fair queue: transitions on values, the invariant they keep, and what follows
 * for whole runs. The class that performs them is in module FairQueueObject.
 */
module FairQueue {
  import opened Options

  /** A flow; the number stands for its address, which breaks ties between equal times. */
  type Flow = nat

  const UINT64 := 0x1_0000_0000_0000_0000
  const MAX_TIME: nat := UINT64 - 1

  datatype Config = Config(mtu: nat, weight: nat)
  {
    /** What initialisation checks: a packet never weighs more than the largest time. */
    predicate Valid() {
      weight > 0 && mtu + weight <= MAX_TIME
    }

    /** The most that one packet can cost a flow. */
    function Bound(): nat {
      mtu + weight
    }
  }

  /** `queued` gives the length of the packet each queued flow wants to send. */
  datatype Queue = Queue(
    flows: seq<Flow>,
    time: map<Flow, nat>,
    queued: map<Flow, nat>,
    sending: Option<Flow>,
    sendingLen: nat,
    previous: Option<Flow>,
    scheduled: bool,
    freeing: bool)

  function Initial(): Queue {
    Queue([], map[], map[], None, 0, None, false, false)
  }

  // ---------- the queue order ----------

  predicate Before(time: map<Flow, nat>, f: Flow, g: Flow)
    requires f in time && g in time
  {
    time[f] < time[g] || (time[f] == time[g] && f <= g)
  }

  predicate IsFirst(time: map<Flow, nat>, s: set<Flow>, f: Flow)
    requires s <= time.Keys
  {
    f in s && forall g :: g in s ==> Before(time, f, g)
  }

  lemma {:induction false} FirstExists(time: map<Flow, nat>, s: set<Flow>)
    requires s <= time.Keys && s != {}
    ensures exists f :: IsFirst(time, s, f)
  {
    var x :| x in s;
    if s == {x} {
      assert IsFirst(time, s, x);
    } else {
      var rest := s - {x};
      assert s == rest + {x};
      FirstExists(time, rest);
      var f :| IsFirst(time, rest, f);
      assert IsFirst(time, s, if Before(time, f, x) then f else x);
    }
  }

  /** The queued flow with the least time, as the tree yields it. */
  ghost function First(time: map<Flow, nat>, s: set<Flow>): (f: Flow)
    requires s <= time.Keys && s != {}
    ensures IsFirst(time, s, f)
  {
    FirstExists(time, s);
    var f :| IsFirst(time, s, f);
    f
  }

  lemma FirstUnique(time: map<Flow, nat>, s: set<Flow>, f: Flow)
    requires s <= time.Keys && IsFirst(time, s, f)
    ensures f == First(time, s)
  {
  }

  lemma FirstExtends(time: map<Flow, nat>, s: set<Flow>, f: Flow, g: Flow)
    requires s <= time.Keys && g in time && IsFirst(time, s, f)
    ensures IsFirst(time, s + {g}, if Before(time, f, g) then f else g)
  {
  }

  // ---------- transitions ----------

  predicate WellFormed(q: Queue) {
    && q.queued.Keys <= q.time.Keys
    && (q.sending.Some? ==> q.sending.value in q.time)
    && (q.previous.Some? ==> q.previous.value in q.time)
  }

  function Max(a: int, b: int): int {
    if a > b then a else b
  }

  function FloorSub(a: nat, b: nat): nat {
    if a < b then 0 else a - b
  }

  ghost function CurrentTime(q: Queue): nat
    requires WellFormed(q)
  {
    if q.sending.Some? then q.time[q.sending.value]
    else if q.queued.Keys != {} then
      var t := q.time[First(q.time, q.queued.Keys)];
      if q.previous.Some? && q.time[q.previous.value] < t then q.time[q.previous.value] else t
    else if q.previous.Some? then q.time[q.previous.value]
    else 0
  }

  /** 64-bit subtraction and addition. */
  function WrapSub(a: nat, b: nat): (r: nat)
    ensures r < UINT64
  {
    (a - b) % UINT64
  }

  function WrapAdd(a: nat, b: nat): (r: nat)
    ensures r < UINT64
  {
    (a + b) % UINT64
  }

  predicate Overflows(time: nat, amount: nat) {
    amount > MAX_TIME - time
  }

  /** How much time is subtracted from all flows when that of the finished one would overflow. */
  ghost function Subtract(time: map<Flow, nat>, queued: set<Flow>, f: Flow): nat
    requires queued <= time.Keys && f in time
  {
    if queued == {} then time[f] else time[First(time, queued)]
  }

  /** A flow's time after subtracting; only the finished flow may wrap around. */
  function Shifted(time: map<Flow, nat>, f: Flow, subtract: nat, g: Flow): nat
    requires g in time
  {
    if subtract > time[g] && g != f then 0 else WrapSub(time[g], subtract)
  }

  /** Adds the cost of the packet just sent to the flow's time. */
  ghost function Increment(time: map<Flow, nat>, queued: set<Flow>, f: Flow, amount: nat): map<Flow, nat>
    requires queued <= time.Keys && f in time
  {
    if Overflows(time[f], amount) then
      var subtract := Subtract(time, queued, f);
      var shifted := map g | g in time :: Shifted(time, f, subtract, g);
      shifted[f := WrapAdd(shifted[f], amount)]
    else time[f := WrapAdd(time[f], amount)]
  }

  /** Starts sending the first queued packet. */
  ghost function Schedule(q: Queue): Queue
    requires WellFormed(q) && q.queued.Keys != {}
  {
    var f := First(q.time, q.queued.Keys);
    q.(queued := q.queued - {f}, sending := Some(f), sendingLen := q.queued[f])
  }

  datatype Event =
    | Send(flow: Flow, len: nat)
    | OutputDone
    | ScheduleJob
    | FlowInit(flow: Flow)
    | FlowFree(flow: Flow)
    | PrepareFree

  predicate Enabled(cfg: Config, q: Queue, ev: Event) {
    match ev
    case Send(f, len) => f in q.time && f !in q.queued && q.sending != Some(f) && len <= cfg.mtu && !q.freeing
    case OutputDone => q.sending.Some? && !q.freeing
    case ScheduleJob => q.scheduled && !q.freeing
    case FlowInit(f) => f !in q.time && !q.freeing
    case FlowFree(f) => f in q.time && (q.freeing || q.sending != Some(f))
    case PrepareFree => true
  }

  ghost function DoSend(q: Queue, f: Flow, len: nat): Queue
    requires WellFormed(q) && f in q.time
  {
    var time := if q.previous == Some(f) then q.time else q.time[f := Max(q.time[f], CurrentTime(q))];
    var q' := q.(time := time, queued := q.queued[f := len],
                 previous := if q.previous == Some(f) then None else q.previous);
    assert f in q'.queued;
    if q.sending.None? && !q.scheduled then Schedule(q') else q'
  }

  ghost function DoOutputDone(cfg: Config, q: Queue): Queue
    requires WellFormed(q) && q.sending.Some?
  {
    var f := q.sending.value;
    q.(sending := None, previous := Some(f), scheduled := true,
       time := Increment(q.time, q.queued.Keys, f, cfg.weight + q.sendingLen))
  }

  ghost function DoScheduleJob(q: Queue): Queue
    requires WellFormed(q)
  {
    var q := q.(previous := None, scheduled := false);
    if q.queued.Keys != {} then Schedule(q) else q
  }

  function DoFlowInit(q: Queue, f: Flow): Queue {
    q.(flows := q.flows + [f], time := q.time[f := 0])
  }

  function Remove(flows: seq<Flow>, f: Flow): seq<Flow> {
    if flows == [] then [] else if flows[0] == f then flows[1..] else [flows[0]] + Remove(flows[1..], f)
  }

  function DoFlowFree(q: Queue, f: Flow): Queue {
    q.(flows := Remove(q.flows, f), time := q.time - {f}, queued := q.queued - {f},
       sending := if q.sending == Some(f) then None else q.sending,
       previous := if q.previous == Some(f) then None else q.previous)
  }

  ghost function Step(cfg: Config, q: Queue, ev: Event): Queue
    requires WellFormed(q) && Enabled(cfg, q, ev)
  {
    match ev
    case Send(f, len) => DoSend(q, f, len)
    case OutputDone => DoOutputDone(cfg, q)
    case ScheduleJob => DoScheduleJob(q)
    case FlowInit(f) => DoFlowInit(q, f)
    case FlowFree(f) => DoFlowFree(q, f)
    case PrepareFree => q.(freeing := true)
  }

  // ---------- the invariant ----------

  predicate TimesFit(q: Queue) {
    forall f :: f in q.time ==> q.time[f] <= MAX_TIME
  }

  predicate LensFit(cfg: Config, q: Queue) {
    forall f :: f in q.queued ==> q.queued[f] <= cfg.mtu
  }

  /** The packet on its way belongs to a flow whose time no queued flow is behind. */
  predicate SendingLeads(q: Queue)
    requires WellFormed(q)
  {
    q.sending.Some? ==> forall g :: g in q.queued ==> q.time[q.sending.value] <= q.time[g]
  }

  /** At most one of a packet on its way and a pending scheduling decision; the last flow is remembered only for the latter. */
  predicate Phase(cfg: Config, q: Queue) {
    && (q.sending.Some? ==> !q.scheduled && q.previous.None? && q.sending.value !in q.queued && q.sendingLen <= cfg.mtu)
    && (q.previous.Some? ==> q.scheduled && q.previous.value !in q.queued)
  }

  /** Work conservation: a waiting packet means that one is on its way or that a decision is pending. */
  predicate Busy(q: Queue) {
    q.queued.Keys != {} && !q.freeing ==> q.sending.Some? || q.scheduled
  }

  ghost predicate NoDup(flows: seq<Flow>) {
    forall i, j :: 0 <= i < j < |flows| ==> flows[i] != flows[j]
  }

  ghost predicate Listed(q: Queue) {
    (forall f :: f in q.flows <==> f in q.time) && NoDup(q.flows)
  }

  ghost predicate Inv(cfg: Config, q: Queue) {
    && WellFormed(q)
    && Listed(q)
    && TimesFit(q)
    && LensFit(cfg, q)
    && SendingLeads(q)
    && Phase(cfg, q)
    && Busy(q)
  }

  lemma InitialInv(cfg: Config)
    ensures Inv(cfg, Initial())
  {
  }

  // ---------- renormalisation is exact ----------

  lemma WrapSubExact(a: nat, b: nat)
    requires b <= a < UINT64
    ensures WrapSub(a, b) == a - b
  {
  }

  /** Underflowing and then overflowing gives the true result when that is in range. */
  lemma WrapExact(a: nat, b: nat, c: nat)
    requires 0 <= a - b + c < UINT64
    ensures WrapAdd(WrapSub(a, b), c) == a - b + c
  {
    var k := (a - b) / UINT64;
    assert a - b == k * UINT64 + (a - b) % UINT64;
    assert WrapSub(a, b) + c == (a - b + c) - k * UINT64;
    ModShift(a - b + c, k);
  }

  lemma ModShift(x: int, k: int)
    requires 0 <= x < UINT64 && x - k * UINT64 >= 0
    ensures (x - k * UINT64) % UINT64 == x
  {
  }

  /** The conditions under which the queue adds to the time of the flow that has just sent. */
  predicate Finished(q: Queue, f: Flow) {
    && WellFormed(q) && TimesFit(q) && f in q.time && f !in q.queued
    && forall g :: g in q.queued ==> q.time[f] <= q.time[g]
  }

  /** The result of adding `amount` without any bound on times: everything moves back by `back`, down to 0. */
  predicate MovedBack(q: Queue, f: Flow, amount: nat, time: map<Flow, nat>, back: nat) {
    && time.Keys == q.time.Keys
    && f in q.time && time[f] == q.time[f] + amount - back
    && (forall g :: g in q.time && g != f ==> time[g] == FloorSub(q.time[g], back))
    && (forall g :: g in q.queued ==> g in q.time && back <= q.time[g])
  }

  /**
   * Renormalisation is exact. When the flow's time would overflow, the wrapping subtraction and
   * addition give it the true result, which lies in (0, amount]; queued flows lose the same amount
   * and none of them is cut off at 0; only flows that are not queued are.
   */
  lemma IncrementExact(q: Queue, f: Flow, amount: nat)
    requires Finished(q, f) && 0 < amount <= MAX_TIME
    ensures var time := Increment(q.time, q.queued.Keys, f, amount);
            var back := if Overflows(q.time[f], amount) then Subtract(q.time, q.queued.Keys, f) else 0;
            && MovedBack(q, f, amount, time, back)
            && (Overflows(q.time[f], amount) ==> 0 < time[f] <= amount && q.time[f] <= back)
            && (forall g :: g in time ==> time[g] <= MAX_TIME)
  {
    var time := Increment(q.time, q.queued.Keys, f, amount);
    hide WrapAdd, WrapSub, First;
    if Overflows(q.time[f], amount) {
      var back := Subtract(q.time, q.queued.Keys, f);
      WrapExact(q.time[f], back, amount);
      forall g | g in q.time && g != f ensures time[g] == FloorSub(q.time[g], back) {
        if back <= q.time[g] {
          WrapSubExact(q.time[g], back);
        }
      }
    } else {
      WrapExact(q.time[f], 0, amount);
      WrapZero(q.time[f]);
    }
  }

  /** Times move back as far as they can: the first of the queued flows is then at 0, and with none queued the finished one is. */
  lemma MovesBackFully(q: Queue, f: Flow, amount: nat)
    requires Finished(q, f) && 0 < amount <= MAX_TIME && Overflows(q.time[f], amount)
    ensures var time := Increment(q.time, q.queued.Keys, f, amount);
            && (q.queued.Keys != {} ==> exists g :: g in q.queued && time[g] == 0)
            && (q.queued.Keys == {} ==> time[f] == amount)
  {
    hide WrapAdd, WrapSub;
    IncrementExact(q, f, amount);
    if q.queued.Keys != {} {
      var g := First(q.time, q.queued.Keys);
      assert g in q.queued && Increment(q.time, q.queued.Keys, f, amount)[g] == 0;
    }
  }

  lemma WrapZero(a: nat)
    requires a < UINT64
    ensures WrapSub(a, 0) == a
  {
  }
}
