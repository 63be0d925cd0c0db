/**
 * Reassembly of frames from chunks that may be lost, duplicated, reordered or malformed.
 * This module gives the transitions of the assembler on values; the class that
 * performs them step by step is in module FragmentAssemblerObject.
 */
module FragmentAssembler {
  import opened Bytes
  import opened FragmentProto
  import opened Options

  /** The largest packet time (32-bit). */
  const MAX_TIME := UINT32_MAX

  datatype Config = Config(mtu: nat, numFrames: nat, numChunks: nat)
  {
    /** What the initialiser demands of its caller. */
    predicate Valid() {
      0 < numFrames < MAX_TIME && 0 < numChunks
    }
  }

  /** The part of a frame that a chunk fills. */
  datatype Span = Span(start: nat, len: nat)

  /** A frame being assembled; `length` is -1 until the last chunk has been seen. */
  datatype Entry = Entry(id: nat, time: nat, spans: seq<Span>, sum: nat, length: int, lengthSoFar: nat, buffer: bytes)

  /** The used entries, oldest first, and the buffers of the free entries in the order they will be reused. */
  datatype State = State(time: nat, used: seq<Entry>, free: seq<bytes>)

  function Initial(cfg: Config): State {
    State(0, [], seq(cfg.numFrames, i => seq(cfg.mtu, j => 0)))
  }

  /** The position of the entry with this id, or the length of the list. */
  function IndexOf(used: seq<Entry>, id: nat): (k: nat)
    ensures k <= |used|
    ensures k < |used| ==> used[k].id == id
    ensures forall j :: 0 <= j < k ==> used[j].id != id
  {
    if used == [] then 0
    else if used[0].id == id then 0
    else 1 + IndexOf(used[1..], id)
  }

  predicate TimedOut(cfg: Config, now: nat, e: Entry) {
    now - e.time > cfg.numFrames
  }

  function FreeEntry(st: State, k: nat): State
    requires k < |st.used|
  {
    State(st.time, st.used[..k] + st.used[k + 1..], st.free + [st.used[k].buffer])
  }

  function Fresh(id: nat, now: nat, buffer: bytes): Entry {
    Entry(id, now, [], 0, -1, 0, buffer)
  }

  /** Takes a free entry for `id`, evicting the oldest used one if there is none. */
  function Allocate(st: State, id: nat): State
    requires st.free != [] || st.used != []
  {
    var st := if st.free == [] then FreeEntry(st, 0) else st;
    State(st.time, st.used + [Fresh(id, st.time, st.free[0])], st.free[1..])
  }

  /** The state in which the last component is the position of an entry for `id` that has not timed out. */
  function Obtain(cfg: Config, st: State, id: nat): (r: (State, nat))
    requires |st.used| + |st.free| > 0
    ensures r.1 < |r.0.used|
  {
    var k := IndexOf(st.used, id);
    if k < |st.used| && !TimedOut(cfg, st.time, st.used[k]) then (st, k)
    else
      var st := if k < |st.used| then FreeEntry(st, k) else st;
      var st := Allocate(st, id);
      (st, |st.used| - 1)
  }

  predicate Overlap(a: Span, b: Span) {
    a.start + a.len > b.start && b.start + b.len > a.start
  }

  function SpanOf(c: Chunk): Span {
    Span(c.start, |c.payload|)
  }

  predicate OverlapsAny(spans: seq<Span>, s: Span) {
    exists i :: 0 <= i < |spans| && Overlap(spans[i], s)
  }

  /** Whether the chunk is consistent with what the entry already holds. */
  predicate Consistent(e: Entry, c: Chunk) {
    && !OverlapsAny(e.spans, SpanOf(c))
    && (if c.last then e.length < 0 && e.lengthSoFar <= c.End()
        else e.length >= 0 ==> c.End() <= e.length)
  }

  function Overwrite(buffer: bytes, start: nat, payload: bytes): (r: bytes)
    requires start + |payload| <= |buffer|
    ensures |r| == |buffer|
    ensures forall p :: 0 <= p < |buffer| ==>
                          r[p] == if start <= p < start + |payload| then payload[p - start] else buffer[p]
  {
    buffer[..start] + payload + buffer[start + |payload|..]
  }

  function Add(now: nat, e: Entry, c: Chunk): (r: Entry)
    requires c.End() <= |e.buffer|
    ensures r.id == e.id && |r.buffer| == |e.buffer|
  {
    Entry(e.id, now, e.spans + [SpanOf(c)], e.sum + |c.payload|,
          if c.last then c.End() else e.length,
          if !c.last && e.length < 0 && e.lengthSoFar < c.End() then c.End() else e.lengthSoFar,
          Overwrite(e.buffer, c.start, c.payload))
  }

  predicate Complete(e: Entry) {
    e.length >= 0 && e.sum >= e.length
  }

  predicate InBounds(cfg: Config, c: Chunk) {
    c.start <= cfg.mtu && |c.payload| <= cfg.mtu - c.start
  }

  /** Every buffer has the size of the output MTU, and the pool has its fixed number of entries. */
  predicate PoolShape(cfg: Config, st: State) {
    && |st.used| + |st.free| == cfg.numFrames
    && (forall i :: 0 <= i < |st.used| ==> |st.used[i].buffer| == cfg.mtu && st.used[i].length <= cfg.mtu)
    && (forall i :: 0 <= i < |st.free| ==> |st.free[i]| == cfg.mtu)
  }

  lemma FreeEntryShape(cfg: Config, st: State, k: nat)
    requires PoolShape(cfg, st) && k < |st.used|
    ensures PoolShape(cfg, FreeEntry(st, k))
  {
  }

  lemma ObtainShape(cfg: Config, st: State, id: nat)
    requires cfg.Valid() && PoolShape(cfg, st)
    ensures PoolShape(cfg, Obtain(cfg, st, id).0)
  {
  }

  /** Gives the chunk to the entry at `k`; the second component is the frame that it completes, if any. */
  function Deliver(cfg: Config, st: State, k: nat, c: Chunk): (State, Option<bytes>)
    requires k < |st.used| && PoolShape(cfg, st) && InBounds(cfg, c)
  {
    if !Consistent(st.used[k], c) then (FreeEntry(st, k), None)
    else
      var e := Add(st.time, st.used[k], c);
      var st := st.(used := st.used[k := e]);
      if Complete(e) then (FreeEntry(st, k), Some(e.buffer[..e.length]))
      else if |e.spans| == cfg.numChunks then (FreeEntry(st, k), None)
      else (st, None)
  }

  /** Processes one chunk, wherever it came from. */
  function ProcessChunk(cfg: Config, st: State, c: Chunk): (State, Option<bytes>)
    requires cfg.Valid() && PoolShape(cfg, st)
  {
    if !InBounds(cfg, c) then (st, None)
    else
      ObtainShape(cfg, st, c.id);
      var (st, k) := Obtain(cfg, st, c.id);
      Deliver(cfg, st, k, c)
  }

  // ---------- the packet clock ----------

  function Kept(cfg: Config, now: nat, e: Entry): seq<Entry> {
    if TimedOut(cfg, now, e) then [] else [e]
  }

  function Dropped(cfg: Config, now: nat, e: Entry): seq<bytes> {
    if TimedOut(cfg, now, e) then [e.buffer] else []
  }

  function Survivors(cfg: Config, now: nat, used: seq<Entry>): seq<Entry> {
    if used == [] then []
    else Survivors(cfg, now, used[..|used| - 1]) + Kept(cfg, now, used[|used| - 1])
  }

  function Expired(cfg: Config, now: nat, used: seq<Entry>): seq<bytes> {
    if used == [] then []
    else Expired(cfg, now, used[..|used| - 1]) + Dropped(cfg, now, used[|used| - 1])
  }

  /** What survives was there and has not timed out; what expired left its buffer; nothing is lost. */
  lemma {:induction false} SurvivorsFrom(cfg: Config, now: nat, used: seq<Entry>)
    ensures var alive := Survivors(cfg, now, used);
            forall i :: 0 <= i < |alive| ==> alive[i] in used && !TimedOut(cfg, now, alive[i])
    ensures var gone := Expired(cfg, now, used);
            forall i :: 0 <= i < |gone| ==> exists j :: 0 <= j < |used| && used[j].buffer == gone[i]
    ensures |Survivors(cfg, now, used)| + |Expired(cfg, now, used)| == |used|
  {
    if used != [] {
      var n := |used| - 1;
      SurvivorsFrom(cfg, now, used[..n]);
      var alive, gone := Survivors(cfg, now, used[..n]), Expired(cfg, now, used[..n]);
      forall i | 0 <= i < |alive| ensures alive[i] in used {
        assert alive[i] in used[..n];
      }
      forall i | 0 <= i < |gone| ensures exists j :: 0 <= j < |used| && used[j].buffer == gone[i] {
        var j :| 0 <= j < n && used[..n][j].buffer == gone[i];
        assert used[j].buffer == gone[i];
      }
    }
  }

  function MinTime(used: seq<Entry>): (t: nat)
    requires used != []
    ensures forall i :: 0 <= i < |used| ==> t <= used[i].time
    ensures exists i :: 0 <= i < |used| && t == used[i].time
  {
    var n := |used| - 1;
    if n == 0 then assert used[0].time <= used[0].time; used[0].time
    else
      var t := MinTime(used[..n]);
      assert forall i :: 0 <= i < n ==> used[..n][i] == used[i];
      if used[n].time < t then used[n].time else t
  }

  function ShiftTimes(used: seq<Entry>, d: nat): (r: seq<Entry>)
    requires forall i :: 0 <= i < |used| ==> d <= used[i].time
    ensures |r| == |used|
    ensures forall i :: 0 <= i < |used| ==> r[i] == used[i].(time := used[i].time - d)
  {
    if used == [] then [] else [used[0].(time := used[0].time - d)] + ShiftTimes(used[1..], d)
  }

  /** Removes the timed out entries and moves the clock back by the least remaining time. */
  function ReduceTimes(cfg: Config, st: State): State
    requires forall i :: 0 <= i < |st.used| ==> st.used[i].time <= st.time
  {
    SurvivorsFrom(cfg, st.time, st.used);
    var alive := Survivors(cfg, st.time, st.used);
    var free := st.free + Expired(cfg, st.time, st.used);
    if alive == [] then State(0, [], free)
    else State(st.time - MinTime(alive), ShiftTimes(alive, MinTime(alive)), free)
  }

  predicate TimesOk(st: State) {
    st.time <= MAX_TIME && forall i :: 0 <= i < |st.used| ==> st.used[i].time <= st.time
  }

  /** The end of a packet: the clock advances by one, after making room if it is at its maximum. */
  function Tick(cfg: Config, st: State): State
    requires TimesOk(st)
  {
    if st.time == MAX_TIME then
      var st := ReduceTimes(cfg, st);
      if st.used != [] then st.(time := st.time + 1) else st
    else st.(time := st.time + 1)
  }

  /**
   * At the maximal packet time, reducing leaves the age and the contents of every surviving
   * entry as they were, drops exactly the timed out ones, and always makes room for the clock
   * to advance.
   */
  lemma ReduceTimesKeepsAges(cfg: Config, st: State)
    requires cfg.Valid() && TimesOk(st)
    ensures var r := ReduceTimes(cfg, st);
            var alive := Survivors(cfg, st.time, st.used);
            && |r.used| == |alive|
            && (forall i :: 0 <= i < |alive| ==>
                  && r.used[i] == alive[i].(time := r.used[i].time)
                  && r.used[i].time <= r.time
                  && r.time - r.used[i].time == st.time - alive[i].time)
            && |r.used| + |r.free| == |st.used| + |st.free|
            && (st.time == MAX_TIME ==> r.time < MAX_TIME)
  {
    SurvivorsFrom(cfg, st.time, st.used);
    var alive := Survivors(cfg, st.time, st.used);
    hide Survivors, Expired, Kept, Dropped;
    if alive != [] && st.time == MAX_TIME {
      var i :| 0 <= i < |alive| && MinTime(alive) == alive[i].time;
      assert !TimedOut(cfg, st.time, alive[i]);
    }
  }

  lemma ReducedUsed(cfg: Config, st: State)
    requires PoolShape(cfg, st) && TimesOk(st)
    ensures forall e :: e in ReduceTimes(cfg, st).used ==> |e.buffer| == cfg.mtu && e.length <= cfg.mtu
  {
    SurvivorsFrom(cfg, st.time, st.used);
    var r, alive := ReduceTimes(cfg, st), Survivors(cfg, st.time, st.used);
    hide Survivors, Expired, MinTime;
    forall i | 0 <= i < |r.used| ensures |r.used[i].buffer| == cfg.mtu && r.used[i].length <= cfg.mtu {
      assert alive[i] in st.used;
    }
  }

  lemma ReducedFree(cfg: Config, st: State)
    requires PoolShape(cfg, st) && TimesOk(st)
    ensures forall b :: b in ReduceTimes(cfg, st).free ==> |b| == cfg.mtu
    ensures |ReduceTimes(cfg, st).used| + |ReduceTimes(cfg, st).free| == cfg.numFrames
  {
    SurvivorsFrom(cfg, st.time, st.used);
    var gone := Expired(cfg, st.time, st.used);
    hide Survivors, Expired, MinTime;
    forall i | 0 <= i < |gone| ensures |gone[i]| == cfg.mtu {
      var j :| 0 <= j < |st.used| && st.used[j].buffer == gone[i];
    }
  }

  lemma ReduceTimesShape(cfg: Config, st: State)
    requires PoolShape(cfg, st) && TimesOk(st)
    ensures PoolShape(cfg, ReduceTimes(cfg, st))
  {
    hide ReduceTimes;
    ReducedUsed(cfg, st);
    ReducedFree(cfg, st);
  }

  /** The clock never passes its maximum and never falls behind an entry, and the pool keeps its shape. */
  lemma TickKeeps(cfg: Config, st: State)
    requires cfg.Valid() && PoolShape(cfg, st) && TimesOk(st)
    ensures PoolShape(cfg, Tick(cfg, st)) && TimesOk(Tick(cfg, st))
  {
    if st.time == MAX_TIME {
      ReduceTimesShape(cfg, st);
      ReduceTimesKeepsAges(cfg, st);
    }
  }
}
