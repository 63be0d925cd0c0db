/**
 * What reassembly guarantees for every stream of chunks: the invariant of the pool and of each
 * entry, and the exact tiling of every emitted frame by chunks that were received under its id.
 */
module FragmentTiling {
  import opened Lists
  import opened Bytes
  import opened FragmentProto
  import opened Options
  import opened FragmentAssembler

  // ---------- spans that do not overlap ----------

  ghost predicate Disjoint(spans: seq<Span>) {
    forall i, j :: 0 <= i < j < |spans| ==> !Overlap(spans[i], spans[j])
  }

  ghost predicate Within(spans: seq<Span>, bound: nat) {
    forall i :: 0 <= i < |spans| ==> spans[i].start + spans[i].len <= bound
  }

  function SumLen(spans: seq<Span>): nat {
    if spans == [] then 0 else SumLen(spans[..|spans| - 1]) + spans[|spans| - 1].len
  }

  /** The positions from `a` up to and excluding `b`. */
  function Range(a: nat, b: nat): (r: set<nat>)
    requires a <= b
    ensures forall p :: p in r <==> a <= p < b
    ensures |r| == b - a
    decreases b - a
  {
    if a == b then {} else {a} + Range(a + 1, b)
  }

  predicate InSpan(s: Span, p: nat) {
    s.start <= p < s.start + s.len
  }

  predicate Covers(spans: seq<Span>, p: nat) {
    exists i :: 0 <= i < |spans| && InSpan(spans[i], p)
  }

  /** The positions that some span covers. */
  function Covered(spans: seq<Span>): set<nat> {
    if spans == [] then {}
    else
      var s := spans[|spans| - 1];
      Covered(spans[..|spans| - 1]) + Range(s.start, s.start + s.len)
  }

  lemma CoversSnoc(init: seq<Span>, s: Span, p: nat)
    ensures Covers(init + [s], p) <==> Covers(init, p) || InSpan(s, p)
  {
    var spans := init + [s];
    assert spans[|init|] == s;
    assert forall i :: 0 <= i < |init| ==> spans[i] == init[i];
  }

  lemma {:induction false} CoveredMeans(spans: seq<Span>, p: nat)
    ensures p in Covered(spans) <==> Covers(spans, p)
  {
    if spans != [] {
      var init, s := spans[..|spans| - 1], spans[|spans| - 1];
      CoveredMeans(init, p);
      CoversSnoc(init, s, p);
      assert spans == init + [s];
    }
  }

  lemma DisjointFromLast(spans: seq<Span>, p: nat)
    requires spans != [] && Disjoint(spans)
    requires p in Covered(spans[..|spans| - 1])
    ensures !InSpan(spans[|spans| - 1], p)
  {
    var init := spans[..|spans| - 1];
    CoveredMeans(init, p);
    var i :| 0 <= i < |init| && InSpan(init[i], p);
    assert !Overlap(spans[i], spans[|spans| - 1]);
  }

  /** Spans that do not overlap cover as many positions as their lengths add up to. */
  lemma {:induction false} CoveredSize(spans: seq<Span>)
    requires Disjoint(spans)
    ensures |Covered(spans)| == SumLen(spans)
  {
    if spans != [] {
      var init, s := spans[..|spans| - 1], spans[|spans| - 1];
      CoveredSize(init);
      var r := Range(s.start, s.start + s.len);
      forall p | p in Covered(init) ensures p !in r {
        DisjointFromLast(spans, p);
      }
      assert Covered(init) !! r;
    }
  }

  lemma CoveredWithin(spans: seq<Span>, bound: nat)
    requires Within(spans, bound)
    ensures Covered(spans) <= Range(0, bound)
  {
    forall p | p in Covered(spans) ensures p in Range(0, bound) {
      CoveredMeans(spans, p);
    }
  }

  /** Spans inside `[0, bound)` that do not overlap cannot add up to more, and add up to it only by covering it. */
  lemma SumBounded(spans: seq<Span>, bound: nat)
    requires Disjoint(spans) && Within(spans, bound)
    ensures SumLen(spans) <= bound
    ensures SumLen(spans) == bound ==> forall p: nat :: p < bound ==> Covers(spans, p)
  {
    CoveredSize(spans);
    CoveredWithin(spans, bound);
    SubsetSize(Covered(spans), Range(0, bound));
    if SumLen(spans) == bound {
      forall p: nat | p < bound ensures Covers(spans, p) {
        assert p in Range(0, bound);
        CoveredMeans(spans, p);
      }
    }
  }

  // ---------- the invariant of the pool ----------

  function Bound(e: Entry): nat {
    if e.length >= 0 then e.length else e.lengthSoFar
  }

  /** An entry between two chunks: its spans are disjoint, add up to `sum`, and leave something missing. */
  ghost predicate EntryOk(cfg: Config, e: Entry) {
    && |e.buffer| == cfg.mtu
    && |e.spans| < cfg.numChunks
    && Disjoint(e.spans)
    && Within(e.spans, Bound(e))
    && Bound(e) <= cfg.mtu
    && e.sum == SumLen(e.spans)
    && (e.length >= 0 ==> e.sum < e.length)
  }

  ghost predicate DistinctIds(used: seq<Entry>) {
    forall i, j :: 0 <= i < j < |used| ==> used[i].id != used[j].id
  }

  ghost predicate Inv(cfg: Config, st: State) {
    && PoolShape(cfg, st)
    && TimesOk(st)
    && DistinctIds(st.used)
    && (forall i :: 0 <= i < |st.used| ==> EntryOk(cfg, st.used[i]))
  }

  lemma InvFacts(cfg: Config, st: State)
    requires Inv(cfg, st)
    ensures PoolShape(cfg, st) && TimesOk(st) && |st.used| + |st.free| == cfg.numFrames
  {
  }

  lemma InvEntry(cfg: Config, st: State, k: nat)
    requires Inv(cfg, st) && k < |st.used|
    ensures EntryOk(cfg, st.used[k])
  {
  }

  lemma FreeEntryInv(cfg: Config, st: State, k: nat)
    requires Inv(cfg, st) && k < |st.used|
    ensures Inv(cfg, FreeEntry(st, k))
    ensures forall e :: e in FreeEntry(st, k).used ==> e in st.used && e.id != st.used[k].id
  {
    FreeEntryShape(cfg, st, k);
  }

  lemma FreshOk(cfg: Config, id: nat, now: nat, buffer: bytes)
    requires cfg.Valid() && |buffer| == cfg.mtu
    ensures EntryOk(cfg, Fresh(id, now, buffer))
  {
  }

  lemma AllocateInv(cfg: Config, st: State, id: nat)
    requires cfg.Valid() && Inv(cfg, st)
    requires forall e :: e in st.used ==> e.id != id
    ensures Inv(cfg, Allocate(st, id))
    ensures forall e :: e in Allocate(st, id).used ==> e in st.used || e.id == id
  {
    var st1 := st;
    if st.free == [] {
      FreeEntryInv(cfg, st, 0);
      st1 := FreeEntry(st, 0);
    }
    FreshOk(cfg, id, st1.time, st1.free[0]);
    var r := Allocate(st, id);
    assert r.used == st1.used + [Fresh(id, st1.time, st1.free[0])];
  }

  /** The used entries after obtaining one for `id`: those there were, and possibly a fresh one for `id`. */
  lemma ObtainInv(cfg: Config, st: State, id: nat)
    requires cfg.Valid() && Inv(cfg, st)
    ensures var (r, k) := Obtain(cfg, st, id);
            && Inv(cfg, r)
            && r.time == st.time
            && r.used[k].id == id
            && (r.used[k] in st.used || exists b :: r.used[k] == Fresh(id, st.time, b))
            && (forall e :: e in r.used ==> e in st.used || e.id == id)
  {
    var k := IndexOf(st.used, id);
    if k < |st.used| && !TimedOut(cfg, st.time, st.used[k]) {
    } else {
      var st1 := st;
      if k < |st.used| {
        FreeEntryInv(cfg, st, k);
        st1 := FreeEntry(st, k);
      }
      AllocateInv(cfg, st1, id);
    }
  }

  /** The entry obtained for `id`, and the others, which were there and have other ids. */
  lemma ObtainOthers(cfg: Config, st: State, id: nat)
    requires cfg.Valid() && Inv(cfg, st)
    ensures |st.used| + |st.free| > 0
    ensures var (r, k) := Obtain(cfg, st, id);
            && Inv(cfg, r) && r.used[k].id == id
            && (r.used[k] in st.used || exists b :: r.used[k] == Fresh(id, st.time, b))
            && (forall e :: e in FreeEntry(r, k).used ==> e in st.used && e.id != id)
  {
    InvFacts(cfg, st);
    ObtainInv(cfg, st, id);
    hide Inv, Obtain, FreeEntry;
    var (r, k) := Obtain(cfg, st, id);
    FreeEntryInv(cfg, r, k);
  }

  /** A consistent chunk keeps the entry's spans disjoint and inside its (possibly new) bound. */
  lemma AddKeeps(cfg: Config, now: nat, e: Entry, c: Chunk)
    requires EntryOk(cfg, e) && Consistent(e, c) && InBounds(cfg, c)
    ensures var r := Add(now, e, c);
            && |r.buffer| == cfg.mtu
            && |r.spans| <= cfg.numChunks
            && Disjoint(r.spans) && Within(r.spans, Bound(r)) && Bound(r) <= cfg.mtu
            && r.sum == SumLen(r.spans) <= Bound(r)
  {
    var r := Add(now, e, c);
    assert r.spans[..|r.spans| - 1] == e.spans;
    forall i, j | 0 <= i < j < |r.spans| ensures !Overlap(r.spans[i], r.spans[j]) {
    }
    SumBounded(r.spans, Bound(r));
  }

  lemma ReplaceInv(cfg: Config, st: State, k: nat, e: Entry)
    requires Inv(cfg, st) && k < |st.used|
    requires e.id == st.used[k].id && e.time == st.time && |e.buffer| == cfg.mtu && e.length <= cfg.mtu
    ensures Inv(cfg, FreeEntry(st.(used := st.used[k := e]), k))
    ensures EntryOk(cfg, e) ==> Inv(cfg, st.(used := st.used[k := e]))
  {
    FreeEntryInv(cfg, st, k);
    var st' := st.(used := st.used[k := e]);
    assert FreeEntry(st', k).used == FreeEntry(st, k).used;
    assert PoolShape(cfg, st');
    FreeEntryShape(cfg, st', k);
  }

  /**
   * Every chunk, however bad, keeps the invariant: the free and used entries make up the fixed
   * pool, ids are distinct, no entry is ahead of the clock, and an entry's chunks stay disjoint,
   * never more than it has room for and never adding up to more than its length.
   */
  lemma ProcessChunkInv(cfg: Config, st: State, c: Chunk)
    requires cfg.Valid() && Inv(cfg, st)
    ensures var st' := ProcessChunk(cfg, st, c).0;
            Inv(cfg, st') && st'.time == st.time
  {
    assert PoolShape(cfg, st);
    hide Inv, EntryOk, Obtain;
    if InBounds(cfg, c) {
      ObtainInv(cfg, st, c.id);
      var (st1, k) := Obtain(cfg, st, c.id);
      if Consistent(st1.used[k], c) {
        InvEntry(cfg, st1, k);
        AddKeeps(cfg, st1.time, st1.used[k], c);
        ReplaceInv(cfg, st1, k, Add(st1.time, st1.used[k], c));
      } else {
        FreeEntryInv(cfg, st1, k);
      }
    }
  }

  lemma {:induction false} SurvivorsDistinct(cfg: Config, now: nat, used: seq<Entry>)
    requires DistinctIds(used)
    ensures DistinctIds(Survivors(cfg, now, used))
  {
    if used != [] {
      var n := |used| - 1;
      SurvivorsDistinct(cfg, now, used[..n]);
      SurvivorsFrom(cfg, now, used[..n]);
      var rest := Survivors(cfg, now, used[..n]);
      forall i | 0 <= i < |rest| ensures rest[i].id != used[n].id {
        assert rest[i] in used[..n];
      }
    }
  }

  lemma EntryOkAnyTime(cfg: Config, e: Entry, now: nat)
    requires EntryOk(cfg, e)
    ensures EntryOk(cfg, e.(time := now))
  {
  }

  lemma ReduceTimesInv(cfg: Config, st: State)
    requires cfg.Valid() && Inv(cfg, st)
    ensures Inv(cfg, ReduceTimes(cfg, st))
  {
    ReduceTimesShape(cfg, st);
    ReduceTimesKeepsAges(cfg, st);
    SurvivorsDistinct(cfg, st.time, st.used);
    SurvivorsFrom(cfg, st.time, st.used);
    var alive := Survivors(cfg, st.time, st.used);
    var r := ReduceTimes(cfg, st);
    hide Survivors, EntryOk, MinTime, Expired, ShiftTimes;
    assert TimesOk(r);
    assert DistinctIds(r.used) by {
      forall i, j | 0 <= i < j < |r.used| ensures r.used[i].id != r.used[j].id {
        assert r.used[i].id == alive[i].id && r.used[j].id == alive[j].id;
      }
    }
    forall i | 0 <= i < |r.used| ensures EntryOk(cfg, r.used[i]) {
      assert alive[i] in st.used;
      EntryOkAnyTime(cfg, alive[i], r.used[i].time);
    }
  }

  lemma TickInv(cfg: Config, st: State)
    requires cfg.Valid() && Inv(cfg, st)
    ensures Inv(cfg, Tick(cfg, st))
  {
    TickKeeps(cfg, st);
    if st.time == MAX_TIME {
      ReduceTimesInv(cfg, st);
    }
  }

  // ---------- what an entry holds ----------

  ghost predicate Holds(buffer: bytes, c: Chunk) {
    c.End() <= |buffer| && forall p :: 0 <= p < |c.payload| ==> buffer[c.start + p] == c.payload[p]
  }

  /** Before the length is known no chunk was marked last; afterwards exactly one was, and it ends there. */
  ghost predicate LastMark(length: int, cs: seq<Chunk>) {
    if length < 0 then forall i :: 0 <= i < |cs| ==> !cs[i].last
    else exists k :: 0 <= k < |cs| && MarkedAt(length, cs, k)
  }

  ghost predicate MarkedAt(length: int, cs: seq<Chunk>, k: nat)
    requires k < |cs|
  {
    cs[k].last && cs[k].End() == length && forall i :: 0 <= i < |cs| && i != k ==> !cs[i].last
  }

  /** The entry's spans and buffer are those of the chunks `cs`, all received under its id. */
  ghost predicate Holding(e: Entry, cs: seq<Chunk>) {
    && |cs| == |e.spans|
    && (forall i :: 0 <= i < |cs| ==> cs[i].id == e.id && SpanOf(cs[i]) == e.spans[i] && Holds(e.buffer, cs[i]))
    && LastMark(e.length, cs)
  }

  /** The chunks cover every byte of the frame exactly once, each with the byte it carried. */
  ghost predicate Tiles(frame: bytes, cs: seq<Chunk>) {
    && (forall i :: 0 <= i < |cs| ==> cs[i].End() <= |frame| && Holds(frame, cs[i]))
    && (forall p: nat :: p < |frame| ==> CoveredOnce(cs, p))
    && LastMark(|frame|, cs)
  }

  ghost predicate CoveredOnce(cs: seq<Chunk>, p: nat) {
    exists i :: 0 <= i < |cs| && InSpan(SpanOf(cs[i]), p) && forall j :: 0 <= j < |cs| && j != i ==> !InSpan(SpanOf(cs[j]), p)
  }

  lemma LastMarkSnoc(length: int, cs: seq<Chunk>, c: Chunk)
    requires LastMark(length, cs)
    requires c.last ==> length < 0
    ensures LastMark(if c.last then c.End() else length, cs + [c])
  {
    var ds := cs + [c];
    if c.last {
      assert MarkedAt(c.End(), ds, |cs|);
    } else if length >= 0 {
      var k :| 0 <= k < |cs| && MarkedAt(length, cs, k);
      assert MarkedAt(length, ds, k);
    }
  }

  /** Writing a chunk that overlaps none of the recorded ones leaves their bytes alone. */
  lemma HoldsAfterOverwrite(buffer: bytes, c: Chunk, d: Chunk)
    requires Holds(buffer, c) && d.End() <= |buffer|
    requires !Overlap(SpanOf(c), SpanOf(d))
    ensures Holds(Overwrite(buffer, d.start, d.payload), c)
  {
  }

  lemma AddHolding(cfg: Config, now: nat, e: Entry, c: Chunk, cs: seq<Chunk>)
    requires EntryOk(cfg, e) && Holding(e, cs) && c.id == e.id
    requires Consistent(e, c) && InBounds(cfg, c)
    ensures Holding(Add(now, e, c), cs + [c])
  {
    var r := Add(now, e, c);
    LastMarkSnoc(e.length, cs, c);
    forall i | 0 <= i < |cs| ensures Holds(r.buffer, cs[i]) {
      assert !Overlap(e.spans[i], SpanOf(c));
      HoldsAfterOverwrite(e.buffer, cs[i], c);
    }
  }

  /** When the lengths add up to the frame's length, the frame is tiled exactly. */
  lemma CompleteTiles(cfg: Config, e: Entry, cs: seq<Chunk>)
    requires Disjoint(e.spans) && Within(e.spans, Bound(e)) && e.sum == SumLen(e.spans)
    requires Bound(e) <= |e.buffer|
    requires Holding(e, cs) && Complete(e)
    ensures e.sum == e.length && Tiles(e.buffer[..e.length], cs)
  {
    SumBounded(e.spans, e.length);
    var frame := e.buffer[..e.length];
    forall p: nat | p < |frame| ensures CoveredOnce(cs, p) {
      assert Covers(e.spans, p);
      var i :| 0 <= i < |e.spans| && InSpan(e.spans[i], p);
      assert InSpan(SpanOf(cs[i]), p);
      forall j | 0 <= j < |cs| && j != i ensures !InSpan(SpanOf(cs[j]), p) {
        assert !Overlap(e.spans[if i < j then i else j], e.spans[if i < j then j else i]);
      }
    }
  }

  // ---------- whole runs ----------

  /** What happens to the assembler: a chunk arrives, or the packet that carried the chunks is finished. */
  datatype Event = Arrive(chunk: ValidChunk) | EndOfPacket

  ghost function Step(cfg: Config, st: State, ev: Event): (r: (State, Option<bytes>))
    requires cfg.Valid() && Inv(cfg, st)
    ensures Inv(cfg, r.0)
  {
    match ev
    case Arrive(c) => ProcessChunkInv(cfg, st, c); ProcessChunk(cfg, st, c)
    case EndOfPacket => TickInv(cfg, st); (Tick(cfg, st), None)
  }

  /** A chunk in bounds is delivered to the entry obtained for it. */
  lemma ArriveIs(cfg: Config, st: State, c: ValidChunk)
    requires cfg.Valid() && Inv(cfg, st) && InBounds(cfg, c)
    ensures |st.used| + |st.free| > 0
    ensures var (st1, k) := Obtain(cfg, st, c.id);
            PoolShape(cfg, st1) && Step(cfg, st, Arrive(c)) == Deliver(cfg, st1, k, c)
  {
    InvFacts(cfg, st);
    ObtainShape(cfg, st, c.id);
    hide Inv, Obtain, Deliver, PoolShape;
  }

  lemma InitialInv(cfg: Config)
    requires cfg.Valid()
    ensures Inv(cfg, Initial(cfg))
  {
  }

  /** The state after the events `es`, and the frames emitted on the way. */
  ghost function Run(cfg: Config, st: State, es: seq<Event>): (r: (State, seq<bytes>))
    requires cfg.Valid() && Inv(cfg, st)
    ensures Inv(cfg, r.0)
    decreases |es|
  {
    if es == [] then (st, [])
    else
      var (st', out) := Step(cfg, st, es[0]);
      var (end, outs) := Run(cfg, st', es[1..]);
      (end, Emission(out) + outs)
  }

  function Emission(out: Option<bytes>): seq<bytes> {
    if out.Some? then [out.value] else []
  }

  lemma {:induction false} RunAppend(cfg: Config, st: State, es: seq<Event>, fs: seq<Event>)
    requires cfg.Valid() && Inv(cfg, st)
    ensures var (st', outs) := Run(cfg, st, es);
            var (end, more) := Run(cfg, st', fs);
            Run(cfg, st, es + fs) == (end, outs + more)
    decreases |es|
  {
    hide Step, Inv;
    if es == [] {
      assert es + fs == fs;
      assert Run(cfg, st, []) == (st, []);
      var more := Run(cfg, st, fs).1;
      assert [] + more == more;
    } else {
      var (st1, out) := Step(cfg, st, es[0]);
      RunAppend(cfg, st1, es[1..], fs);
      assert (es + fs)[1..] == es[1..] + fs;
      var (st2, outs) := Run(cfg, st1, es[1..]);
      var more := Run(cfg, st2, fs).1;
      assert Emission(out) + (outs + more) == Emission(out) + outs + more;
    }
  }

  ghost predicate Increasing(ix: seq<nat>) {
    forall i, j :: 0 <= i < j < |ix| ==> ix[i] < ix[j]
  }

  ghost predicate AreArrivals(es: seq<Event>, ix: seq<nat>) {
    forall i :: 0 <= i < |ix| ==> ix[i] < |es| && es[ix[i]].Arrive?
  }

  ghost function ChunksAt(es: seq<Event>, ix: seq<nat>): (cs: seq<Chunk>)
    requires AreArrivals(es, ix)
    ensures |cs| == |ix|
    ensures forall i :: 0 <= i < |ix| ==> cs[i] == es[ix[i]].chunk
  {
    seq(|ix|, i requires 0 <= i < |ix| => es[ix[i]].chunk)
  }

  /** No chunk that was in bounds and carried this id was left out since the first one recorded. */
  ghost predicate NoneSkipped(cfg: Config, es: seq<Event>, id: nat, ix: seq<nat>) {
    ix != [] ==>
      forall j :: ix[0] <= j < |es| && es[j].Arrive? && es[j].chunk.id == id && InBounds(cfg, es[j].chunk) ==> j in ix
  }

  /** The events at `ix` are the chunks of frame `id` received since its entry was allocated. */
  ghost predicate Since(cfg: Config, es: seq<Event>, id: nat, ix: seq<nat>) {
    Increasing(ix) && AreArrivals(es, ix) && NoneSkipped(cfg, es, id, ix)
  }

  ghost predicate Recorded(cfg: Config, e: Entry, es: seq<Event>, ix: seq<nat>) {
    ix != [] && Since(cfg, es, e.id, ix) && Holding(e, ChunksAt(es, ix))
  }

  /** Every used entry holds exactly the chunks at the positions that `h` gives for its id. */
  ghost predicate History(cfg: Config, st: State, es: seq<Event>, h: map<nat, seq<nat>>) {
    forall i :: 0 <= i < |st.used| ==> st.used[i].id in h && Recorded(cfg, st.used[i], es, h[st.used[i].id])
  }

  lemma SinceOther(cfg: Config, es: seq<Event>, ev: Event, id: nat, ix: seq<nat>)
    requires Since(cfg, es, id, ix)
    requires ev.Arrive? && InBounds(cfg, ev.chunk) ==> ev.chunk.id != id
    ensures Since(cfg, es + [ev], id, ix) && ChunksAt(es + [ev], ix) == ChunksAt(es, ix)
  {
    var fs := es + [ev];
    forall i | 0 <= i < |ix| ensures ix[i] < |fs| && fs[ix[i]] == es[ix[i]] {
      assert ix[i] < |es|;
    }
    assert forall j :: 0 <= j < |es| ==> fs[j] == es[j];
  }

  lemma SinceSnoc(cfg: Config, es: seq<Event>, c: ValidChunk, ix: seq<nat>)
    requires Since(cfg, es, c.id, ix)
    ensures Since(cfg, es + [Arrive(c)], c.id, ix + [|es|])
    ensures ChunksAt(es + [Arrive(c)], ix + [|es|]) == ChunksAt(es, ix) + [c]
  {
    var fs := es + [Arrive(c)];
    var jx := ix + [|es|];
    assert forall i :: 0 <= i < |ix| ==> jx[i] == ix[i] && fs[jx[i]] == es[ix[i]];
    assert jx[|ix|] == |es| && fs[|es|] == Arrive(c);
    assert AreArrivals(fs, jx);
    forall j | jx[0] <= j < |fs| && fs[j].Arrive? && fs[j].chunk.id == c.id && InBounds(cfg, fs[j].chunk)
      ensures j in jx
    {
      if j < |es| {
        assert ix != [];
        assert es[j] == fs[j];
        assert j in ix;
        var i :| 0 <= i < |ix| && ix[i] == j;
        assert jx[i] == j;
      }
    }
  }

  /** An entry of another id, or any entry when the event is not a chunk in bounds, keeps its record. */
  lemma RecordedOther(cfg: Config, e: Entry, es: seq<Event>, ev: Event, ix: seq<nat>, now: nat)
    requires Recorded(cfg, e, es, ix)
    requires ev.Arrive? && InBounds(cfg, ev.chunk) ==> ev.chunk.id != e.id
    ensures Recorded(cfg, e.(time := now), es + [ev], ix)
  {
    SinceOther(cfg, es, ev, e.id, ix);
  }

  lemma TickHistory(cfg: Config, st: State, es: seq<Event>, h: map<nat, seq<nat>>)
    requires cfg.Valid() && Inv(cfg, st) && History(cfg, st, es, h)
    ensures History(cfg, Tick(cfg, st), es + [EndOfPacket], h)
  {
    var r := Tick(cfg, st);
    ReduceTimesKeepsAges(cfg, st);
    SurvivorsFrom(cfg, st.time, st.used);
    var alive := Survivors(cfg, st.time, st.used);
    forall i | 0 <= i < |r.used| ensures r.used[i].id in h && Recorded(cfg, r.used[i], es + [EndOfPacket], h[r.used[i].id]) {
      var e := if st.time == MAX_TIME then alive[i] else st.used[i];
      assert e in st.used;
      assert r.used[i] == e.(time := r.used[i].time);
      RecordedOther(cfg, e, es, EndOfPacket, h[e.id], r.used[i].time);
    }
  }

  /** The chunks recorded for the entry that the chunk goes to, before the chunk itself. */
  ghost function Before(st: State, id: nat, e: Entry, h: map<nat, seq<nat>>): seq<nat> {
    if e in st.used && id in h then h[id] else []
  }

  lemma BeforeRecorded(cfg: Config, st: State, es: seq<Event>, h: map<nat, seq<nat>>, c: ValidChunk, e: Entry)
    requires History(cfg, st, es, h)
    requires e.id == c.id
    requires e in st.used || exists b :: e == Fresh(c.id, st.time, b)
    ensures var ix := Before(st, c.id, e, h);
            Since(cfg, es, c.id, ix) && Holding(e, ChunksAt(es, ix))
  {
  }

  /** The entries other than the chunk's own keep their record, whatever is recorded for its id. */
  lemma OthersRecorded(cfg: Config, st: State, es: seq<Event>, h: map<nat, seq<nat>>, c: ValidChunk,
                       others: State, ix: seq<nat>)
    requires History(cfg, st, es, h)
    requires forall e :: e in others.used ==> e in st.used && e.id != c.id
    ensures History(cfg, others, es + [Arrive(c)], h[c.id := ix])
  {
    var used := others.used;
    forall i | 0 <= i < |used|
      ensures used[i].id in h && used[i].id != c.id && Recorded(cfg, used[i], es + [Arrive(c)], h[used[i].id])
    {
      assert used[i] in used;
      RecordedOther(cfg, used[i], es, Arrive(c), h[used[i].id], used[i].time);
    }
  }

  /**
   * The frame emitted by the last event: it is tiled exactly by the chunks at some positions of
   * the run, which are all the in-bounds chunks that arrived under its id since the first of them.
   */
  ghost predicate EmittedFrom(cfg: Config, es: seq<Event>, frame: bytes, ix: seq<nat>) {
    && es != [] && es[|es| - 1].Arrive?
    && ix != [] && ix[|ix| - 1] == |es| - 1
    && Since(cfg, es, es[|es| - 1].chunk.id, ix)
    && (forall i :: 0 <= i < |ix| ==> es[ix[i]].chunk.id == es[|es| - 1].chunk.id)
    && Tiles(frame, ChunksAt(es, ix))
    && |ix| <= cfg.numChunks
  }

  /** The entry that a chunk has been added to has it on record, and if complete is the frame emitted. */
  lemma AddRecords(cfg: Config, now: nat, e: Entry, c: ValidChunk, es: seq<Event>, ix: seq<nat>)
    requires EntryOk(cfg, e) && e.id == c.id && Consistent(e, c) && InBounds(cfg, c)
    requires Since(cfg, es, c.id, ix) && Holding(e, ChunksAt(es, ix))
    ensures var r, fs, jx := Add(now, e, c), es + [Arrive(c)], ix + [|es|];
            && r.id == c.id
            && Recorded(cfg, r, fs, jx)
            && (Complete(r) ==> r.length <= |r.buffer| && EmittedFrom(cfg, fs, r.buffer[..r.length], jx))
  {
    hide Since, Holding, Tiles, Disjoint, Within;
    var r, fs, jx := Add(now, e, c), es + [Arrive(c)], ix + [|es|];
    SinceArrivals(cfg, es, c.id, ix);
    SinceSnoc(cfg, es, c, ix);
    SinceArrivals(cfg, fs, c.id, jx);
    AddKeeps(cfg, now, e, c);
    AddHolding(cfg, now, e, c, ChunksAt(es, ix));
    HoldingIds(r, ChunksAt(fs, jx));
    if Complete(r) {
      CompleteTiles(cfg, r, ChunksAt(fs, jx));
    }
  }

  lemma SinceArrivals(cfg: Config, es: seq<Event>, id: nat, ix: seq<nat>)
    requires Since(cfg, es, id, ix)
    ensures AreArrivals(es, ix)
  {
  }

  lemma HoldingIds(e: Entry, cs: seq<Chunk>)
    requires Holding(e, cs)
    ensures |cs| == |e.spans| && forall i :: 0 <= i < |cs| ==> cs[i].id == e.id
  {
  }

  /** The outcome of delivering a chunk, given the record of the entry it goes to. */
  lemma DeliverHistory(cfg: Config, st: State, k: nat, es: seq<Event>, ix: seq<nat>, c: ValidChunk, h: map<nat, seq<nat>>)
    requires Inv(cfg, st) && k < |st.used| && st.used[k].id == c.id
    requires InBounds(cfg, c)
    requires Since(cfg, es, c.id, ix) && Holding(st.used[k], ChunksAt(es, ix))
    requires c.id in h && h[c.id] == ix + [|es|]
    requires History(cfg, FreeEntry(st, k), es + [Arrive(c)], h)
    ensures var (st', out) := Deliver(cfg, st, k, c);
            && History(cfg, st', es + [Arrive(c)], h)
            && (out.Some? ==> EmittedFrom(cfg, es + [Arrive(c)], out.value, h[c.id]))
  {
    hide Inv, Since, Holding, History, Recorded, EmittedFrom, Consistent, Complete, Add, FreeEntry;
    InvFacts(cfg, st);
    InvEntry(cfg, st, k);
    if Consistent(st.used[k], c) {
      var r := Add(st.time, st.used[k], c);
      AddRecords(cfg, st.time, st.used[k], c, es, ix);
      KeptHistory(cfg, st, k, r, es + [Arrive(c)], h);
      FreedHistory(cfg, st, k, r, es + [Arrive(c)], h);
    }
  }

  lemma FreedHistory(cfg: Config, st: State, k: nat, r: Entry, es: seq<Event>, h: map<nat, seq<nat>>)
    requires k < |st.used| && History(cfg, FreeEntry(st, k), es, h)
    ensures History(cfg, FreeEntry(st.(used := st.used[k := r]), k), es, h)
  {
    assert FreeEntry(st.(used := st.used[k := r]), k).used == FreeEntry(st, k).used;
  }

  /** The record of the entry that a chunk goes to, and of the others, before the chunk is added. */
  lemma ObtainHistory(cfg: Config, st: State, es: seq<Event>, h: map<nat, seq<nat>>, c: ValidChunk)
    returns (ix: seq<nat>)
    requires cfg.Valid() && Inv(cfg, st) && History(cfg, st, es, h)
    ensures var (st1, k) := Obtain(cfg, st, c.id);
            && Inv(cfg, st1) && st1.used[k].id == c.id
            && Since(cfg, es, c.id, ix) && Holding(st1.used[k], ChunksAt(es, ix))
            && History(cfg, FreeEntry(st1, k), es + [Arrive(c)], h[c.id := ix + [|es|]])
  {
    hide *;
    ObtainOthers(cfg, st, c.id);
    var (st1, k) := Obtain(cfg, st, c.id);
    ix := Before(st, c.id, st1.used[k], h);
    BeforeRecorded(cfg, st, es, h, c, st1.used[k]);
    OthersRecorded(cfg, st, es, h, c, FreeEntry(st1, k), ix + [|es|]);
  }

  lemma ArriveHistory(cfg: Config, st: State, es: seq<Event>, h: map<nat, seq<nat>>, c: ValidChunk)
    returns (h': map<nat, seq<nat>>, ix: seq<nat>)
    requires cfg.Valid() && Inv(cfg, st) && History(cfg, st, es, h) && InBounds(cfg, c)
    ensures History(cfg, ProcessChunk(cfg, st, c).0, es + [Arrive(c)], h')
    ensures ProcessChunk(cfg, st, c).1.Some? ==>
              EmittedFrom(cfg, es + [Arrive(c)], ProcessChunk(cfg, st, c).1.value, ix)
  {
    assert |st.used| + |st.free| > 0;
    hide Inv, Obtain, Since, Holding, History, EmittedFrom, FreeEntry, Deliver;
    var before := ObtainHistory(cfg, st, es, h, c);
    ix := before + [|es|];
    h' := h[c.id := ix];
    var (st1, k) := Obtain(cfg, st, c.id);
    DeliverHistory(cfg, st1, k, es, before, c, h');
  }

  lemma KeptHistory(cfg: Config, st: State, k: nat, r: Entry, es: seq<Event>, h: map<nat, seq<nat>>)
    requires k < |st.used|
    requires History(cfg, FreeEntry(st, k), es, h)
    requires r.id in h && Recorded(cfg, r, es, h[r.id])
    ensures History(cfg, st.(used := st.used[k := r]), es, h)
  {
    var used := st.used[k := r];
    var others := FreeEntry(st, k).used;
    forall i | 0 <= i < |used| ensures used[i].id in h && Recorded(cfg, used[i], es, h[used[i].id]) {
      if i < k {
        assert used[i] == others[i];
      } else if i > k {
        assert used[i] == others[i - 1];
      }
    }
  }

  lemma StepHistory(cfg: Config, st: State, es: seq<Event>, h: map<nat, seq<nat>>, ev: Event)
    returns (h': map<nat, seq<nat>>, ix: seq<nat>)
    requires cfg.Valid() && Inv(cfg, st) && History(cfg, st, es, h)
    ensures History(cfg, Step(cfg, st, ev).0, es + [ev], h')
    ensures Step(cfg, st, ev).1.Some? ==> EmittedFrom(cfg, es + [ev], Step(cfg, st, ev).1.value, ix)
  {
    if ev.EndOfPacket? {
      TickHistory(cfg, st, es, h);
      h', ix := h, [];
    } else if InBounds(cfg, ev.chunk) {
      h', ix := ArriveHistory(cfg, st, es, h, ev.chunk);
    } else {
      forall i | 0 <= i < |st.used| ensures Recorded(cfg, st.used[i], es + [ev], h[st.used[i].id]) {
        RecordedOther(cfg, st.used[i], es, ev, h[st.used[i].id], st.used[i].time);
      }
      h', ix := h, [];
    }
  }

  /** The state after the events `es`, from the start. */
  ghost function StateAfter(cfg: Config, es: seq<Event>): (st: State)
    requires cfg.Valid()
    ensures Inv(cfg, st)
  {
    InitialInv(cfg);
    Run(cfg, Initial(cfg), es).0
  }

  /** What the event at position `n` of the run makes the assembler emit. */
  ghost function OutputAt(cfg: Config, es: seq<Event>, n: nat): Option<bytes>
    requires cfg.Valid() && n < |es|
  {
    Step(cfg, StateAfter(cfg, es[..n]), es[n]).1
  }

  ghost predicate Tiled(cfg: Config, es: seq<Event>, frame: bytes) {
    exists ix :: EmittedFrom(cfg, es, frame, ix)
  }

  /** The event at position `n` emits the frame, which the chunks received up to then tile exactly. */
  ghost predicate EmitsAt(cfg: Config, es: seq<Event>, frame: bytes, n: nat)
    requires cfg.Valid()
  {
    n < |es| && OutputAt(cfg, es, n) == Some(frame) && Tiled(cfg, es[..n + 1], frame)
  }

  ghost predicate EmitsAll(cfg: Config, es: seq<Event>, outs: seq<bytes>, ns: seq<nat>)
    requires cfg.Valid()
  {
    |ns| == |outs| && Increasing(ns) && forall k :: 0 <= k < |ns| ==> EmitsAt(cfg, es, outs[k], ns[k])
  }

  ghost predicate SilentElsewhere(cfg: Config, es: seq<Event>, ns: seq<nat>)
    requires cfg.Valid()
  {
    forall n :: 0 <= n < |es| && n !in ns ==> OutputAt(cfg, es, n) == None
  }

  /** The frames `outs` are emitted at the positions `ns`, one after the other, and nothing is emitted elsewhere. */
  ghost predicate Emissions(cfg: Config, es: seq<Event>, outs: seq<bytes>, ns: seq<nat>)
    requires cfg.Valid()
  {
    EmitsAll(cfg, es, outs, ns) && SilentElsewhere(cfg, es, ns)
  }

  /** What an event emits does not depend on what comes later. */
  lemma SameBefore(cfg: Config, es: seq<Event>, ev: Event, n: nat)
    requires cfg.Valid() && n < |es|
    ensures OutputAt(cfg, es + [ev], n) == OutputAt(cfg, es, n)
    ensures forall frame :: EmitsAt(cfg, es, frame, n) ==> EmitsAt(cfg, es + [ev], frame, n)
  {
    assert (es + [ev])[..n] == es[..n] && (es + [ev])[..n + 1] == es[..n + 1];
  }

  lemma LastOutput(cfg: Config, es: seq<Event>, ev: Event, ix: seq<nat>)
    requires cfg.Valid()
    requires var out := Step(cfg, StateAfter(cfg, es), ev).1;
             out.Some? ==> EmittedFrom(cfg, es + [ev], out.value, ix)
    ensures var out := Step(cfg, StateAfter(cfg, es), ev).1;
            OutputAt(cfg, es + [ev], |es|) == out && (out.Some? ==> EmitsAt(cfg, es + [ev], out.value, |es|))
  {
    hide Step, StateAfter, EmittedFrom;
    var fs := es + [ev];
    assert fs[..|es|] == es && fs[..|es| + 1] == fs;
  }

  lemma EmitsAllLater(cfg: Config, es: seq<Event>, ev: Event, outs: seq<bytes>, ns: seq<nat>)
    requires cfg.Valid() && EmitsAll(cfg, es, outs, ns)
    ensures EmitsAll(cfg, es + [ev], outs, ns)
    ensures forall k :: 0 <= k < |ns| ==> ns[k] < |es|
  {
    forall k | 0 <= k < |ns| ensures EmitsAt(cfg, es + [ev], outs[k], ns[k]) && ns[k] < |es| {
      assert EmitsAt(cfg, es, outs[k], ns[k]);
      SameBefore(cfg, es, ev, ns[k]);
    }
  }

  lemma EmitsAllSnoc(cfg: Config, es: seq<Event>, outs: seq<bytes>, ns: seq<nat>, frame: bytes, n: nat)
    requires cfg.Valid() && EmitsAll(cfg, es, outs, ns) && EmitsAt(cfg, es, frame, n)
    requires forall k :: 0 <= k < |ns| ==> ns[k] < n
    ensures EmitsAll(cfg, es, outs + [frame], ns + [n])
  {
    hide EmitsAt;
  }

  lemma SilentSnoc(cfg: Config, es: seq<Event>, ev: Event, ns: seq<nat>)
    requires cfg.Valid() && SilentElsewhere(cfg, es, ns)
    ensures SilentElsewhere(cfg, es + [ev], ns + [|es|])
    ensures OutputAt(cfg, es + [ev], |es|) == None ==> SilentElsewhere(cfg, es + [ev], ns)
  {
    var fs, ms := es + [ev], ns + [|es|];
    assert ms[|ns|] == |es|;
    forall n | 0 <= n < |es| && n !in ns ensures OutputAt(cfg, fs, n) == None {
      SameBefore(cfg, es, ev, n);
    }
    hide OutputAt;
    assert forall n :: n in ns ==> n in ms;
  }

  /** One more event adds an emission, at its own position, or none. */
  lemma EmissionsSnoc(cfg: Config, es: seq<Event>, ev: Event, outs: seq<bytes>, ns: seq<nat>, ix: seq<nat>)
    returns (ms: seq<nat>)
    requires cfg.Valid() && Emissions(cfg, es, outs, ns)
    requires var out := Step(cfg, StateAfter(cfg, es), ev).1;
             out.Some? ==> EmittedFrom(cfg, es + [ev], out.value, ix)
    ensures Emissions(cfg, es + [ev], outs + Emission(Step(cfg, StateAfter(cfg, es), ev).1), ms)
  {
    hide Step, StateAfter, EmittedFrom, EmitsAt, OutputAt, EmitsAll, SilentElsewhere;
    var out := Step(cfg, StateAfter(cfg, es), ev).1;
    LastOutput(cfg, es, ev, ix);
    EmitsAllLater(cfg, es, ev, outs, ns);
    SilentSnoc(cfg, es, ev, ns);
    if out.Some? {
      ms := ns + [|es|];
      EmitsAllSnoc(cfg, es + [ev], outs, ns, out.value, |es|);
    } else {
      ms := ns;
      assert outs + [] == outs;
    }
  }

  lemma StateAfterSnoc(cfg: Config, es: seq<Event>, ev: Event)
    requires cfg.Valid()
    ensures Inv(cfg, Initial(cfg))
    ensures var (st, out) := Step(cfg, StateAfter(cfg, es), ev);
            && StateAfter(cfg, es + [ev]) == st
            && Run(cfg, Initial(cfg), es + [ev]).1 == Run(cfg, Initial(cfg), es).1 + Emission(out)
  {
    InitialInv(cfg);
    hide Step, Inv;
    RunAppend(cfg, Initial(cfg), es, [ev]);
    var (st, out) := Step(cfg, StateAfter(cfg, es), ev);
    assert [ev][1..] == [] && Run(cfg, st, []) == (st, []);
    assert Emission(out) + [] == Emission(out);
  }

  lemma {:induction false} RunTiled(cfg: Config, es: seq<Event>) returns (h: map<nat, seq<nat>>, ns: seq<nat>)
    requires cfg.Valid()
    ensures Inv(cfg, Initial(cfg))
    ensures History(cfg, StateAfter(cfg, es), es, h)
    ensures Emissions(cfg, es, Run(cfg, Initial(cfg), es).1, ns)
    decreases |es|
  {
    InitialInv(cfg);
    if es == [] {
      h, ns := map[], [];
    } else {
      var n := |es| - 1;
      hide Step, StateAfter, Run, Inv, History, Emissions, EmittedFrom;
      var g, ms := RunTiled(cfg, es[..n]);
      assert es == es[..n] + [es[n]];
      StateAfterSnoc(cfg, es[..n], es[n]);
      var ix;
      h, ix := StepHistory(cfg, StateAfter(cfg, es[..n]), es[..n], g, es[n]);
      ns := EmissionsSnoc(cfg, es[..n], es[n], Run(cfg, Initial(cfg), es[..n]).1, ms, ix);
    }
  }

  /**
   * Exact tiling, for every run: whatever was lost, repeated, reordered or malformed, each frame is
   * emitted by a chunk of its own, and only when the chunks received under its id since its entry
   * was allocated, up to and including that one, cover its bytes exactly once, with exactly their bytes.
   */
  lemma EmittedFramesAreTiled(cfg: Config, es: seq<Event>) returns (ns: seq<nat>)
    requires cfg.Valid()
    ensures Inv(cfg, Initial(cfg))
    ensures Emissions(cfg, es, Run(cfg, Initial(cfg), es).1, ns)
  {
    var h;
    h, ns := RunTiled(cfg, es);
  }

  // ---------- packets ----------

  datatype InputResult = Emitted(st: State, rest: bytes, frame: bytes) | Finished(st: State)

  /** Works through a packet until a frame is complete or the packet is used up. */
  function ProcessInput(cfg: Config, st: State, data: bytes): (r: InputResult)
    requires cfg.Valid() && Inv(cfg, st)
    ensures Inv(cfg, r.st)
    ensures r.Emitted? ==> |r.rest| < |data|
    decreases |data|
  {
    match ReadChunk(data)
    case Malformed => TickInv(cfg, st); Finished(Tick(cfg, st))
    case Read(c, rest) =>
      ProcessChunkInv(cfg, st, c);
      var (st', out) := ProcessChunk(cfg, st, c);
      if out.Some? then Emitted(st', rest, out.value) else ProcessInput(cfg, st', rest)
  }

  /** A whole packet: after each frame has been taken by the output, processing resumes where it stopped. */
  ghost function FeedPacket(cfg: Config, st: State, data: bytes): (r: (State, seq<bytes>))
    requires cfg.Valid() && Inv(cfg, st)
    ensures Inv(cfg, r.0)
    decreases |data|
  {
    match ProcessInput(cfg, st, data)
    case Finished(st') => (st', [])
    case Emitted(st', rest, frame) =>
      var (end, frames) := FeedPacket(cfg, st', rest);
      (end, [frame] + frames)
  }

  function ArrivalsOf(cs: seq<ValidChunk>): (es: seq<Event>)
    ensures |es| == |cs|
    ensures forall i :: 0 <= i < |cs| ==> es[i] == Arrive(cs[i])
  {
    seq(|cs|, i requires 0 <= i < |cs| => Arrive(cs[i]))
  }

  function PacketEvents(data: bytes): seq<Event> {
    ArrivalsOf(ReadChunks(data)) + [EndOfPacket]
  }

  lemma FeedOneChunk(cfg: Config, st: State, data: bytes)
    requires cfg.Valid() && Inv(cfg, st)
    requires ReadChunk(data).Read?
    ensures var Read(c, rest) := ReadChunk(data);
            var (st', out) := Step(cfg, st, Arrive(c));
            var (end, frames) := FeedPacket(cfg, st', rest);
            FeedPacket(cfg, st, data) == (end, Emission(out) + frames)
  {
    hide Inv, ProcessChunk, Tick, ReadChunk;
    var Read(c, rest) := ReadChunk(data);
    var (st', out) := Step(cfg, st, Arrive(c));
    if out.None? {
      assert ProcessInput(cfg, st, data) == ProcessInput(cfg, st', rest);
      assert FeedPacket(cfg, st, data) == FeedPacket(cfg, st', rest);
      assert Emission(out) + FeedPacket(cfg, st', rest).1 == FeedPacket(cfg, st', rest).1;
    }
  }

  /** Stopping to send each frame makes no difference: a packet amounts to its chunks in turn, then a tick. */
  lemma {:induction false} PacketIsItsChunks(cfg: Config, st: State, data: bytes)
    requires cfg.Valid() && Inv(cfg, st)
    ensures FeedPacket(cfg, st, data) == Run(cfg, st, PacketEvents(data))
    decreases |data|
  {
    var es := PacketEvents(data);
    if ReadChunk(data).Malformed? {
      assert es == [EndOfPacket] && es[1..] == [];
      var (st', out) := Step(cfg, st, EndOfPacket);
      assert Run(cfg, st', []) == (st', []);
      assert Run(cfg, st, es) == (st', Emission(out) + []);
      assert Emission(out) + [] == [];
    } else {
      var Read(c, rest) := ReadChunk(data);
      assert es[0] == Arrive(c) && es[1..] == PacketEvents(rest);
      FeedOneChunk(cfg, st, data);
      PacketIsItsChunks(cfg, Step(cfg, st, Arrive(c)).0, rest);
    }
  }

  ghost function FeedPackets(cfg: Config, st: State, packets: seq<bytes>): (r: (State, seq<bytes>))
    requires cfg.Valid() && Inv(cfg, st)
    ensures Inv(cfg, r.0)
    decreases |packets|
  {
    if packets == [] then (st, [])
    else
      var (st', frames) := FeedPacket(cfg, st, packets[0]);
      var (end, more) := FeedPackets(cfg, st', packets[1..]);
      (end, frames + more)
  }

  function AllEvents(packets: seq<bytes>): seq<Event> {
    if packets == [] then [] else PacketEvents(packets[0]) + AllEvents(packets[1..])
  }

  lemma {:induction false} PacketsAreTheirChunks(cfg: Config, st: State, packets: seq<bytes>)
    requires cfg.Valid() && Inv(cfg, st)
    ensures FeedPackets(cfg, st, packets) == Run(cfg, st, AllEvents(packets))
    decreases |packets|
  {
    if packets != [] {
      PacketIsItsChunks(cfg, st, packets[0]);
      PacketsAreTheirChunks(cfg, FeedPacket(cfg, st, packets[0]).0, packets[1..]);
      RunAppend(cfg, st, PacketEvents(packets[0]), AllEvents(packets[1..]));
    }
  }

  /** The same for packets: every frame that arbitrary packets make the assembler emit is tiled exactly. */
  lemma PacketsEmitTiledFrames(cfg: Config, packets: seq<bytes>) returns (ns: seq<nat>)
    requires cfg.Valid()
    ensures Inv(cfg, Initial(cfg))
    ensures Emissions(cfg, AllEvents(packets), FeedPackets(cfg, Initial(cfg), packets).1, ns)
  {
    ns := EmittedFramesAreTiled(cfg, AllEvents(packets));
    PacketsAreTheirChunks(cfg, Initial(cfg), packets);
  }
}
