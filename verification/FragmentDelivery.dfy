/**
 * The converse of exact tiling: chunks that tile a frame make the assembler emit it, in whatever order
 * they arrive and whatever arrives in between, unless their entry is evicted or times out.
 */
module FragmentDelivery {
  import opened Bytes
  import opened FragmentProto
  import opened Lists
  import opened Options
  import opened FragmentAssembler
  import opened FragmentTiling

  // ---------- the events that concern a frame ----------

  predicate IsMine(cfg: Config, id: nat, ev: Event) {
    ev.Arrive? && ev.chunk.id == id && InBounds(cfg, ev.chunk)
  }

  /** The chunks in bounds that arrive under the id, in the order in which they arrive. */
  function Mine(cfg: Config, id: nat, es: seq<Event>): seq<ValidChunk> {
    if es == [] then [] else (if IsMine(cfg, id, es[0]) then [es[0].chunk] else []) + Mine(cfg, id, es[1..])
  }

  /** The ids of the other frames of which chunks arrive. */
  function OtherIds(cfg: Config, id: nat, es: seq<Event>): set<nat> {
    if es == [] then {}
    else (if es[0].Arrive? && InBounds(cfg, es[0].chunk) && es[0].chunk.id != id then {es[0].chunk.id} else {})
         + OtherIds(cfg, id, es[1..])
  }

  /** No more than `numFrames` packets end between one chunk of the frame and the next; `age` have already. */
  predicate Timely(cfg: Config, id: nat, age: nat, es: seq<Event>)
    decreases |es|
  {
    if es == [] then true
    else if es[0].EndOfPacket? then Timely(cfg, id, age + 1, es[1..])
    else if IsMine(cfg, id, es[0]) then age <= cfg.numFrames && Timely(cfg, id, 0, es[1..])
    else Timely(cfg, id, age, es[1..])
  }

  lemma {:induction false} TimelyYoung(cfg: Config, id: nat, age: nat, es: seq<Event>)
    requires Timely(cfg, id, age, es) && Mine(cfg, id, es) != []
    ensures age <= cfg.numFrames
    decreases |es|
  {
    if es[0].EndOfPacket? {
      TimelyYoung(cfg, id, age + 1, es[1..]);
    } else if !IsMine(cfg, id, es[0]) {
      TimelyYoung(cfg, id, age, es[1..]);
    }
  }

  // ---------- chunks that tile a frame ----------

  /** The chunks tile the frame, few enough of them for an entry; only an empty frame has an empty chunk. */
  ghost predicate Whole(cfg: Config, id: nat, frame: bytes, cs: seq<Chunk>) {
    && Tiles(frame, cs) && 0 < |cs| <= cfg.numChunks
    && (forall i :: 0 <= i < |cs| ==> cs[i].id == id && InBounds(cfg, cs[i]))
    && (|cs| > 1 ==> forall i :: 0 <= i < |cs| ==> cs[i].payload != [])
  }

  lemma OnceApart(cs: seq<Chunk>, p: nat, i: nat, j: nat)
    requires CoveredOnce(cs, p) && i < |cs| && j < |cs| && i != j
    ensures !InSpan(SpanOf(cs[i]), p) || !InSpan(SpanOf(cs[j]), p)
  {
  }

  /** Two chunks that share no position do not overlap, if neither is empty. */
  lemma WholeDisjoint(cfg: Config, id: nat, frame: bytes, cs: seq<Chunk>, i: nat, j: nat)
    requires Whole(cfg, id, frame, cs) && i < |cs| && j < |cs| && i != j
    ensures !Overlap(SpanOf(cs[i]), SpanOf(cs[j]))
  {
    var a, b := SpanOf(cs[i]), SpanOf(cs[j]);
    assert a.len > 0 && b.len > 0 && a.start + a.len <= |frame| && b.start + b.len <= |frame|;
    assert CoveredOnce(cs, a.start) && CoveredOnce(cs, b.start);
    hide Whole, CoveredOnce;
    OnceApart(cs, a.start, i, j);
    OnceApart(cs, b.start, i, j);
  }

  /** The last chunk is the one that ends with the frame, and there is only one. */
  lemma WholeLast(cfg: Config, id: nat, frame: bytes, cs: seq<Chunk>) returns (k: nat)
    requires Whole(cfg, id, frame, cs)
    ensures k < |cs| && MarkedAt(|frame|, cs, k) && |frame| <= cfg.mtu
  {
    k :| 0 <= k < |cs| && MarkedAt(|frame|, cs, k);
  }

  /** The length that an entry has noted is that of the frame, once it has the last chunk. */
  lemma PartMark(cfg: Config, id: nat, frame: bytes, cs: seq<Chunk>, k: nat, length: int)
    requires Whole(cfg, id, frame, cs) && k <= |cs| && LastMark(length, cs[..k])
    ensures length >= 0 ==> length == |frame| && forall j :: k <= j < |cs| ==> !cs[j].last
    ensures k == |cs| ==> length == |frame|
  {
    var l := WholeLast(cfg, id, frame, cs);
    if length >= 0 {
      var m :| 0 <= m < k && MarkedAt(length, cs[..k], m);
      assert cs[..k][m] == cs[m] && m == l;
    }
    assert k == |cs| ==> cs[..k] == cs;
  }

  // ---------- the entry of the frame ----------

  /** The entry holds the first `k` of the chunks. */
  ghost predicate Part(e: Entry, id: nat, frame: bytes, cs: seq<Chunk>, k: nat) {
    k <= |cs| && e.id == id && Holding(e, cs[..k]) && e.lengthSoFar <= |frame|
  }

  lemma PartAccepts(cfg: Config, e: Entry, id: nat, frame: bytes, cs: seq<Chunk>, k: nat)
    requires Whole(cfg, id, frame, cs) && k < |cs| && Part(e, id, frame, cs, k)
    ensures Consistent(e, cs[k])
  {
    var c := cs[k];
    forall i | 0 <= i < |e.spans| ensures !Overlap(e.spans[i], SpanOf(c)) {
      assert cs[..k][i] == cs[i];
      WholeDisjoint(cfg, id, frame, cs, i, k);
    }
    PartMark(cfg, id, frame, cs, k, e.length);
    var l := WholeLast(cfg, id, frame, cs);
  }

  /** When all the chunks are there, their lengths add up to the frame's. */
  lemma AllThere(cfg: Config, e: Entry, id: nat, frame: bytes, cs: seq<Chunk>)
    requires Whole(cfg, id, frame, cs) && Part(e, id, frame, cs, |cs|) && Disjoint(e.spans)
    ensures SumLen(e.spans) >= |frame|
  {
    assert cs[..|cs|] == cs;
    forall p | p in Range(0, |frame|) ensures p in Covered(e.spans) {
      assert CoveredOnce(cs, p);
      var i :| 0 <= i < |cs| && InSpan(SpanOf(cs[i]), p);
      assert InSpan(e.spans[i], p);
      CoveredMeans(e.spans, p);
    }
    SubsetSize(Range(0, |frame|), Covered(e.spans));
    CoveredSize(e.spans);
  }

  /** When one is missing, they do not. */
  lemma OneMissing(cfg: Config, e: Entry, id: nat, frame: bytes, cs: seq<Chunk>, k: nat)
    requires Whole(cfg, id, frame, cs) && 0 < k < |cs| && Part(e, id, frame, cs, k) && Disjoint(e.spans)
    ensures SumLen(e.spans) < |frame|
  {
    var d := SpanOf(cs[k]);
    var spans := e.spans + [d];
    assert spans[..|e.spans|] == e.spans;
    forall i | 0 <= i < |e.spans| ensures !Overlap(e.spans[i], d) && e.spans[i].start + e.spans[i].len <= |frame| {
      assert cs[..k][i] == cs[i];
      WholeDisjoint(cfg, id, frame, cs, i, k);
    }
    SumBounded(spans, |frame|);
  }

  /** What all the chunks have left in the buffer is the frame. */
  lemma AllHeld(cfg: Config, e: Entry, id: nat, frame: bytes, cs: seq<Chunk>)
    requires Whole(cfg, id, frame, cs) && Part(e, id, frame, cs, |cs|) && |frame| <= |e.buffer|
    ensures e.buffer[..|frame|] == frame
  {
    assert cs[..|cs|] == cs;
    forall p | 0 <= p < |frame| ensures e.buffer[p] == frame[p] {
      assert CoveredOnce(cs, p);
      var i :| 0 <= i < |cs| && InSpan(SpanOf(cs[i]), p);
      assert Holds(e.buffer, cs[i]) && Holds(frame, cs[i]);
      var q := p - cs[i].start;
      assert e.buffer[cs[i].start + q] == cs[i].payload[q] == frame[cs[i].start + q];
    }
  }

  lemma PartGrows(cfg: Config, now: nat, e: Entry, id: nat, frame: bytes, cs: seq<Chunk>, k: nat)
    requires Whole(cfg, id, frame, cs) && k < |cs| && Part(e, id, frame, cs, k) && EntryOk(cfg, e)
    ensures cs[k].End() <= |e.buffer|
    ensures var r := Add(now, e, cs[k]); Part(r, id, frame, cs, k + 1) && |r.spans| == k + 1
  {
    PartAccepts(cfg, e, id, frame, cs, k);
    assert cs[..k + 1] == cs[..k] + [cs[k]];
    AddHolding(cfg, now, e, cs[k], cs[..k]);
    hide Holding, Consistent, EntryOk, Tiles;
    HoldingSize(e, cs[..k]);
    var l := WholeLast(cfg, id, frame, cs);
    TilesEnd(frame, cs, k);
  }

  lemma HoldingSize(e: Entry, cs: seq<Chunk>)
    requires Holding(e, cs)
    ensures |e.spans| == |cs|
  {
  }

  lemma TilesEnd(frame: bytes, cs: seq<Chunk>, k: nat)
    requires Tiles(frame, cs) && k < |cs|
    ensures cs[k].End() <= |frame|
  {
  }

  /** Adding the next chunk: the entry is complete exactly when it was the last one missing. */
  lemma PartAdd(cfg: Config, now: nat, e: Entry, id: nat, frame: bytes, cs: seq<Chunk>, k: nat)
    requires Whole(cfg, id, frame, cs) && k < |cs| && Part(e, id, frame, cs, k) && EntryOk(cfg, e)
    ensures var r := Add(now, e, cs[k]);
            && Part(r, id, frame, cs, k + 1) && |r.spans| == k + 1
            && (Complete(r) <==> k + 1 == |cs|)
            && (Complete(r) ==> r.length == |frame| <= |r.buffer| && r.buffer[..r.length] == frame)
  {
    PartGrows(cfg, now, e, id, frame, cs, k);
    PartAccepts(cfg, e, id, frame, cs, k);
    assert InBounds(cfg, cs[k]);
    AddKeeps(cfg, now, e, cs[k]);
    var r := Add(now, e, cs[k]);
    assert LastMark(r.length, cs[..k + 1]);
    PartMark(cfg, id, frame, cs, k + 1, r.length);
    var l := WholeLast(cfg, id, frame, cs);
    hide Whole, Part, Disjoint, Within, Consistent, EntryOk, LastMark, Add;
    if k + 1 == |cs| {
      AllThere(cfg, r, id, frame, cs);
      AllHeld(cfg, r, id, frame, cs);
    } else {
      OneMissing(cfg, r, id, frame, cs, k + 1);
    }
  }

  // ---------- the entry among the others ----------

  /** The entry at `i` holds the first `k` chunks and is `age` packets old; the entries allocated after it have ids in `ids`. */
  ghost predicate HeldAt(st: State, i: nat, id: nat, frame: bytes, cs: seq<Chunk>, k: nat, age: nat, ids: set<nat>) {
    && i < |st.used| && Part(st.used[i], id, frame, cs, k) && st.time - st.used[i].time == age
    && forall j :: i < j < |st.used| ==> st.used[j].id in ids
  }

  ghost predicate Held(st: State, id: nat, frame: bytes, cs: seq<Chunk>, k: nat, age: nat, ids: set<nat>) {
    exists i: nat :: HeldAt(st, i, id, frame, cs, k, age, ids)
  }

  lemma FreeOther(st: State, n: nat, i: nat, id: nat, frame: bytes, cs: seq<Chunk>, k: nat, age: nat, ids: set<nat>)
    requires HeldAt(st, i, id, frame, cs, k, age, ids) && n < |st.used| && n != i
    ensures HeldAt(FreeEntry(st, n), if n < i then i - 1 else i, id, frame, cs, k, age, ids)
  {
    hide Part;
    var r, m := FreeEntry(st, n), if n < i then i - 1 else i;
    assert r.used[m] == st.used[i];
    forall j | m < j < |r.used| ensures r.used[j].id in ids {
      assert r.used[j] == st.used[if j < n then j else j + 1];
    }
  }

  function Ids(used: seq<Entry>): set<nat> {
    if used == [] then {} else {used[0].id} + Ids(used[1..])
  }

  lemma {:induction false} IdsMean(used: seq<Entry>, id: nat)
    ensures id in Ids(used) <==> exists j :: 0 <= j < |used| && used[j].id == id
  {
    if used != [] {
      IdsMean(used[1..], id);
      if id in Ids(used[1..]) {
        var j :| 0 <= j < |used| - 1 && used[1..][j].id == id;
        assert used[j + 1].id == id;
      }
      assert forall j :: 0 < j < |used| ==> used[j] == used[1..][j - 1];
    }
  }

  lemma {:induction false} IdsSize(used: seq<Entry>)
    requires DistinctIds(used)
    ensures |Ids(used)| == |used|
  {
    if used != [] {
      var rest := used[1..];
      assert DistinctIds(rest) by {
        forall i, j | 0 <= i < j < |rest| ensures rest[i].id != rest[j].id {
          assert rest[i] == used[i + 1] && rest[j] == used[j + 1];
        }
      }
      IdsSize(rest);
      IdsMean(rest, used[0].id);
      assert forall j :: 0 <= j < |rest| ==> rest[j] == used[j + 1];
    }
  }

  /** With fewer other ids about than there are entries, the frame's own is never the one to be evicted. */
  lemma NotOldest(cfg: Config, st: State, other: nat, i: nat, id: nat, frame: bytes, cs: seq<Chunk>, k: nat, age: nat, ids: set<nat>)
    requires Inv(cfg, st) && HeldAt(st, i, id, frame, cs, k, age, ids) && st.free == []
    requires forall j :: 0 <= j < |st.used| ==> st.used[j].id != other
    requires |ids + {other}| < cfg.numFrames
    ensures i > 0
  {
    InvFacts(cfg, st);
    IdsSize(st.used);
    hide Part, EntryOk, Inv;
    if i == 0 {
      forall x | x in Ids(st.used) ensures x in ids + {id} && x != other {
        IdsMean(st.used, x);
      }
      IdsMean(st.used, other);
      SubsetSize(Ids(st.used) + {other} - {id}, ids + {other});
      IdsMean(st.used, id);
    }
  }

  /** Making room for a frame of another id, and giving it an entry. */
  lemma AllocateOther(cfg: Config, st: State, other: nat, id: nat, frame: bytes, cs: seq<Chunk>, k: nat, age: nat, ids: set<nat>)
    requires cfg.Valid() && Inv(cfg, st) && Held(st, id, frame, cs, k, age, ids) && |ids + {other}| < cfg.numFrames
    requires forall j :: 0 <= j < |st.used| ==> st.used[j].id != other
    ensures Held(Allocate(st, other), id, frame, cs, k, age, ids + {other})
  {
    InvFacts(cfg, st);
    hide Part, Inv;
    var i: nat :| HeldAt(st, i, id, frame, cs, k, age, ids);
    var st1, m := st, i;
    if st.free == [] {
      NotOldest(cfg, st, other, i, id, frame, cs, k, age, ids);
      FreeOther(st, 0, i, id, frame, cs, k, age, ids);
      st1, m := FreeEntry(st, 0), i - 1;
    }
    assert HeldAt(Allocate(st, other), m, id, frame, cs, k, age, ids + {other});
  }

  /** The entry of the frame stays where it is when one of another id is replaced or freed. */
  lemma DeliverOther(cfg: Config, st: State, n: nat, c: Chunk, id: nat, frame: bytes, cs: seq<Chunk>, k: nat, age: nat, ids: set<nat>)
    requires PoolShape(cfg, st) && n < |st.used| && st.used[n].id == c.id != id && InBounds(cfg, c)
    requires Held(st, id, frame, cs, k, age, ids)
    ensures Held(Deliver(cfg, st, n, c).0, id, frame, cs, k, age, ids)
  {
    var i: nat :| HeldAt(st, i, id, frame, cs, k, age, ids);
    assert i != n;
    FreeOther(st, n, i, id, frame, cs, k, age, ids);
    if Consistent(st.used[n], c) {
      var r := Add(st.time, st.used[n], c);
      hide Part, Consistent, Complete, Add;
      var st1 := st.(used := st.used[n := r]);
      assert HeldAt(st1, i, id, frame, cs, k, age, ids);
      FreeOther(st1, n, i, id, frame, cs, k, age, ids);
    }
  }

  lemma ObtainOther(cfg: Config, st: State, other: nat, id: nat, frame: bytes, cs: seq<Chunk>, k: nat, age: nat, ids: set<nat>)
    requires cfg.Valid() && Inv(cfg, st) && Held(st, id, frame, cs, k, age, ids)
    requires other != id && |ids + {other}| < cfg.numFrames
    ensures Held(Obtain(cfg, st, other).0, id, frame, cs, k, age, ids + {other})
  {
    InvFacts(cfg, st);
    var n := IndexOf(st.used, other);
    if n < |st.used| {
      FreeEntryInv(cfg, st, n);
      hide Part, Inv, HeldAt, Allocate;
      var i: nat :| HeldAt(st, i, id, frame, cs, k, age, ids);
      HeldFacts(st, i, id, frame, cs, k, age, ids, other);
      FreeOther(st, n, i, id, frame, cs, k, age, ids);
      if TimedOut(cfg, st.time, st.used[n]) {
        AllocateOther(cfg, FreeEntry(st, n), other, id, frame, cs, k, age, ids);
      }
    } else {
      hide Part, Inv, Held, Allocate;
      AllocateOther(cfg, st, other, id, frame, cs, k, age, ids);
    }
  }

  lemma HeldFacts(st: State, i: nat, id: nat, frame: bytes, cs: seq<Chunk>, k: nat, age: nat, ids: set<nat>, other: nat)
    requires HeldAt(st, i, id, frame, cs, k, age, ids)
    ensures i < |st.used| && st.used[i].id == id && HeldAt(st, i, id, frame, cs, k, age, ids + {other})
  {
  }

  lemma PartId(e: Entry, id: nat, frame: bytes, cs: seq<Chunk>, k: nat)
    requires Part(e, id, frame, cs, k)
    ensures e.id == id
  {
  }

  /** A chunk of another frame. */
  lemma OtherChunk(cfg: Config, st: State, c: ValidChunk, id: nat, frame: bytes, cs: seq<Chunk>, k: nat, age: nat, ids: set<nat>)
    requires cfg.Valid() && Inv(cfg, st) && Held(st, id, frame, cs, k, age, ids)
    requires InBounds(cfg, c) && c.id != id && |ids + {c.id}| < cfg.numFrames
    ensures Held(Step(cfg, st, Arrive(c)).0, id, frame, cs, k, age, ids + {c.id})
  {
    hide Inv, Obtain, Held, Deliver, Step, PoolShape;
    ArriveIs(cfg, st, c);
    ObtainInv(cfg, st, c.id);
    ObtainOther(cfg, st, c.id, id, frame, cs, k, age, ids);
    var (st1, n) := Obtain(cfg, st, c.id);
    DeliverOther(cfg, st1, n, c, id, frame, cs, k, age, ids + {c.id});
  }

  // ---------- the end of a packet ----------

  lemma {:induction false} SurvivorsKeep(cfg: Config, now: nat, used: seq<Entry>, i: nat) returns (m: nat)
    requires i < |used| && !TimedOut(cfg, now, used[i])
    ensures var alive := Survivors(cfg, now, used);
            && m < |alive| && alive[m] == used[i]
            && forall j :: m < j < |alive| ==> alive[j] in used[i + 1..]
    decreases |used|
  {
    var n := |used| - 1;
    var alive := Survivors(cfg, now, used[..n]);
    if i == n {
      m := |alive|;
    } else {
      m := SurvivorsKeep(cfg, now, used[..n], i);
      var all := Survivors(cfg, now, used);
      forall j | m < j < |all| ensures all[j] in used[i + 1..] {
        if j < |alive| {
          assert all[j] in used[..n][i + 1..];
        } else {
          assert all[j] == used[n] == used[i + 1..][n - i - 1];
        }
      }
    }
  }

  lemma PartAnyTime(e: Entry, id: nat, frame: bytes, cs: seq<Chunk>, k: nat, now: nat)
    requires Part(e, id, frame, cs, k)
    ensures Part(e.(time := now), id, frame, cs, k)
  {
  }

  lemma ReduceHeld(cfg: Config, st: State, id: nat, frame: bytes, cs: seq<Chunk>, k: nat, age: nat, ids: set<nat>)
    requires cfg.Valid() && Inv(cfg, st) && Held(st, id, frame, cs, k, age, ids) && age <= cfg.numFrames
    ensures Held(ReduceTimes(cfg, st), id, frame, cs, k, age, ids)
  {
    InvFacts(cfg, st);
    hide Part, Inv, PoolShape, ReduceTimes, Survivors;
    var i: nat :| HeldAt(st, i, id, frame, cs, k, age, ids);
    var m := SurvivorsKeep(cfg, st.time, st.used, i);
    ReduceTimesKeepsAges(cfg, st);
    var r, alive := ReduceTimes(cfg, st), Survivors(cfg, st.time, st.used);
    PartAnyTime(st.used[i], id, frame, cs, k, r.used[m].time);
    forall j | m < j < |r.used| ensures r.used[j].id in ids {
      assert r.used[j].id == alive[j].id && alive[j] in st.used[i + 1..];
    }
    assert HeldAt(r, m, id, frame, cs, k, age, ids);
  }

  lemma TickHeld(cfg: Config, st: State, id: nat, frame: bytes, cs: seq<Chunk>, k: nat, age: nat, ids: set<nat>)
    requires cfg.Valid() && Inv(cfg, st) && Held(st, id, frame, cs, k, age, ids) && age <= cfg.numFrames
    ensures Held(Step(cfg, st, EndOfPacket).0, id, frame, cs, k, age + 1, ids)
  {
    hide Part, ReduceTimes;
    var st1 := st;
    if st.time == MAX_TIME {
      ReduceHeld(cfg, st, id, frame, cs, k, age, ids);
      st1 := ReduceTimes(cfg, st);
    }
    var i: nat :| HeldAt(st1, i, id, frame, cs, k, age, ids);
    assert HeldAt(Tick(cfg, st), i, id, frame, cs, k, age + 1, ids);
  }

  // ---------- the chunks of the frame ----------

  /** The entry takes the next chunk: the frame comes out with the last, and otherwise the entry stays. */
  lemma DeliverMine(cfg: Config, st: State, i: nat, id: nat, frame: bytes, cs: seq<Chunk>, k: nat, ids: set<nat>)
    requires Inv(cfg, st) && i < |st.used| && Part(st.used[i], id, frame, cs, k)
    requires forall j :: i < j < |st.used| ==> st.used[j].id in ids
    requires Whole(cfg, id, frame, cs) && k < |cs|
    ensures var (st', out) := Deliver(cfg, st, i, cs[k]);
            if k + 1 == |cs| then out == Some(frame) else out == None && Held(st', id, frame, cs, k + 1, 0, ids)
  {
    InvEntry(cfg, st, i);
    PartAccepts(cfg, st.used[i], id, frame, cs, k);
    PartAdd(cfg, st.time, st.used[i], id, frame, cs, k);
    hide Inv, EntryOk, Part, Consistent, Complete, Tiles;
    var r := Add(st.time, st.used[i], cs[k]);
    if k + 1 < |cs| {
      assert HeldAt(st.(used := st.used[i := r]), i, id, frame, cs, k + 1, 0, ids);
    }
  }

  lemma MineFirst(cfg: Config, st: State, id: nat, frame: bytes, cs: seq<ValidChunk>)
    requires cfg.Valid() && Inv(cfg, st) && Whole(cfg, id, frame, cs)
    requires forall e :: e in st.used && e.id == id ==> TimedOut(cfg, st.time, e)
    ensures var (st', out) := Step(cfg, st, Arrive(cs[0]));
            if |cs| == 1 then out == Some(frame) else out == None && Held(st', id, frame, cs, 1, 0, {})
  {
    InvFacts(cfg, st);
    ObtainInv(cfg, st, id);
    var (st1, n) := Obtain(cfg, st, id);
    assert cs[..0] == [];
    assert Part(st1.used[n], id, frame, cs, 0) && n == |st1.used| - 1;
    InvFacts(cfg, st1);
    hide Inv, Obtain, Deliver, Part;
    DeliverMine(cfg, st1, n, id, frame, cs, 0, {});
    assert Step(cfg, st, Arrive(cs[0])) == Deliver(cfg, st1, n, cs[0]);
  }

  lemma MineNext(cfg: Config, st: State, id: nat, frame: bytes, cs: seq<ValidChunk>, k: nat, age: nat, ids: set<nat>)
    requires cfg.Valid() && Inv(cfg, st) && Whole(cfg, id, frame, cs) && k < |cs|
    requires Held(st, id, frame, cs, k, age, ids) && age <= cfg.numFrames
    ensures var (st', out) := Step(cfg, st, Arrive(cs[k]));
            if k + 1 == |cs| then out == Some(frame) else out == None && Held(st', id, frame, cs, k + 1, 0, ids)
  {
    InvFacts(cfg, st);
    var i: nat :| HeldAt(st, i, id, frame, cs, k, age, ids);
    PartId(st.used[i], id, frame, cs, k);
    assert IndexOf(st.used, id) == i;
    assert Obtain(cfg, st, id) == (st, i);
    hide Inv, Obtain, Deliver, Part;
    DeliverMine(cfg, st, i, id, frame, cs, k, ids);
    assert Step(cfg, st, Arrive(cs[k])) == Deliver(cfg, st, i, cs[k]);
  }

  // ---------- the whole frame ----------

  /** What the event at `n` makes the assembler emit, in a run from `st`. */
  ghost function OutputFrom(cfg: Config, st: State, es: seq<Event>, n: nat): Option<bytes>
    requires cfg.Valid() && Inv(cfg, st) && n < |es|
  {
    Step(cfg, Run(cfg, st, es[..n]).0, es[n]).1
  }

  lemma OutputCons(cfg: Config, st: State, es: seq<Event>, n: nat)
    requires cfg.Valid() && Inv(cfg, st) && n < |es|
    ensures n == 0 ==> OutputFrom(cfg, st, es, n) == Step(cfg, st, es[0]).1
    ensures n > 0 ==> OutputFrom(cfg, st, es, n) == OutputFrom(cfg, Step(cfg, st, es[0]).0, es[1..], n - 1)
  {
    hide Step, Inv;
    if n > 0 {
      assert es[..n][1..] == es[1..][..n - 1] && es[..n][0] == es[0];
    }
  }

  /** Of the chunks of the frame, the last makes it come out and the others make nothing come out. */
  ghost predicate EmitsLast(cfg: Config, st: State, id: nat, frame: bytes, es: seq<Event>)
    requires cfg.Valid() && Inv(cfg, st)
  {
    && es != [] && OutputFrom(cfg, st, es, |es| - 1) == Some(frame)
    && forall n :: 0 <= n < |es| - 1 && IsMine(cfg, id, es[n]) ==> OutputFrom(cfg, st, es, n) == None
  }

  lemma EmitsLastCons(cfg: Config, st: State, id: nat, frame: bytes, es: seq<Event>)
    requires cfg.Valid() && Inv(cfg, st) && |es| > 1
    requires IsMine(cfg, id, es[0]) ==> Step(cfg, st, es[0]).1 == None
    requires EmitsLast(cfg, Step(cfg, st, es[0]).0, id, frame, es[1..])
    ensures EmitsLast(cfg, st, id, frame, es)
  {
    hide Step, Inv, OutputFrom;
    OutputCons(cfg, st, es, |es| - 1);
    forall n | 0 <= n < |es| - 1 && IsMine(cfg, id, es[n]) ensures OutputFrom(cfg, st, es, n) == None {
      OutputCons(cfg, st, es, n);
      if n > 0 {
        assert es[1..][n - 1] == es[n];
      }
    }
  }

  lemma MineCons(cfg: Config, id: nat, es: seq<Event>)
    requires es != []
    ensures if IsMine(cfg, id, es[0]) then
              Mine(cfg, id, es) != [] && Mine(cfg, id, es)[0] == es[0].chunk && Mine(cfg, id, es)[1..] == Mine(cfg, id, es[1..])
            else Mine(cfg, id, es) == Mine(cfg, id, es[1..])
  {
  }

  lemma {:induction false} MineLast(cfg: Config, id: nat, es: seq<Event>)
    requires es != [] && IsMine(cfg, id, es[|es| - 1])
    ensures Mine(cfg, id, es) != []
  {
    if |es| > 1 {
      MineLast(cfg, id, es[1..]);
    }
  }

  lemma SmallerIds(a: set<nat>, b: set<nat>, n: nat)
    requires a <= b && |b| < n
    ensures |a| < n
  {
    SubsetSize(a, b);
  }

  /** The rest of the frame, once it has begun. */
  lemma {:induction false} RestDelivered(cfg: Config, st: State, id: nat, frame: bytes, cs: seq<ValidChunk>, k: nat,
                                         age: nat, ids: set<nat>, all: set<nat>, es: seq<Event>)
    requires cfg.Valid() && Inv(cfg, st) && Whole(cfg, id, frame, cs) && k < |cs|
    requires Held(st, id, frame, cs, k, age, ids) && Timely(cfg, id, age, es)
    requires ids + OtherIds(cfg, id, es) <= all && |all| < cfg.numFrames
    requires Mine(cfg, id, es) == cs[k..] && es != [] && IsMine(cfg, id, es[|es| - 1])
    ensures EmitsLast(cfg, st, id, frame, es)
    decreases |es|
  {
    MineCons(cfg, id, es);
    TimelyYoung(cfg, id, age, es);
    hide Inv, Step, Whole, Held, EmitsLast, Mine;
    var ev, rest := es[0], es[1..];
    var st' := Step(cfg, st, ev).0;
    if IsMine(cfg, id, ev) {
      MineNext(cfg, st, id, frame, cs, k, age, ids);
      if |es| == 1 {
        MineNone(cfg, id, rest);
        assert k + 1 == |cs|;
        EmitsNow(cfg, st, id, frame, es);
      } else {
        MineLast(cfg, id, rest);
        assert k + 1 < |cs| && cs[k..][1..] == cs[k + 1..];
        RestDelivered(cfg, st', id, frame, cs, k + 1, 0, ids, all, rest);
        EmitsLastCons(cfg, st, id, frame, es);
      }
    } else {
      var ids' := ids;
      if ev.EndOfPacket? {
        TickHeld(cfg, st, id, frame, cs, k, age, ids);
      } else if InBounds(cfg, ev.chunk) {
        ids' := ids + {ev.chunk.id};
        SmallerIds(ids', all, cfg.numFrames);
        OtherChunk(cfg, st, ev.chunk, id, frame, cs, k, age, ids);
      } else {
        OutOfBounds(cfg, st, ev);
      }
      RestDelivered(cfg, st', id, frame, cs, k, if ev.EndOfPacket? then age + 1 else age, ids', all, rest);
      EmitsLastCons(cfg, st, id, frame, es);
    }
  }

  lemma MineNone(cfg: Config, id: nat, es: seq<Event>)
    requires es == []
    ensures Mine(cfg, id, es) == []
  {
  }

  lemma EmitsNow(cfg: Config, st: State, id: nat, frame: bytes, es: seq<Event>)
    requires cfg.Valid() && Inv(cfg, st) && |es| == 1 && Step(cfg, st, es[0]).1 == Some(frame)
    ensures EmitsLast(cfg, st, id, frame, es)
  {
    OutputCons(cfg, st, es, 0);
  }

  lemma OutOfBounds(cfg: Config, st: State, ev: Event)
    requires cfg.Valid() && Inv(cfg, st) && ev.Arrive? && !InBounds(cfg, ev.chunk)
    ensures Step(cfg, st, ev) == (st, None)
  {
  }

  /**
   * Delivery in any order. From any state of the pool with no live entry for the id, let chunks arrive
   * that tile a frame, in any order, mixed with anything else, so that the first event is one of them
   * and the last event is the last of them. If there are at most `numChunks` of them, fewer than
   * `numFrames` other ids turn up meanwhile, and never more than `numFrames` packets end between one
   * chunk of the frame and the next, then the frame is emitted at the last chunk and not before.
   */
  lemma TiledFrameIsEmitted(cfg: Config, st: State, id: nat, frame: bytes, es: seq<Event>)
    requires cfg.Valid() && Inv(cfg, st)
    requires forall e :: e in st.used && e.id == id ==> TimedOut(cfg, st.time, e)
    requires es != [] && IsMine(cfg, id, es[0]) && IsMine(cfg, id, es[|es| - 1])
    requires Whole(cfg, id, frame, Mine(cfg, id, es))
    requires |OtherIds(cfg, id, es)| < cfg.numFrames && Timely(cfg, id, 0, es)
    ensures EmitsLast(cfg, st, id, frame, es)
  {
    MineCons(cfg, id, es);
    WindowCons(cfg, id, es);
    hide Inv, Step, Whole, Held, EmitsLast, Mine, TimedOut, Timely, OtherIds, IsMine;
    var cs, rest := Mine(cfg, id, es), es[1..];
    MineFirst(cfg, st, id, frame, cs);
    if |es| == 1 {
      MineNone(cfg, id, rest);
      EmitsNow(cfg, st, id, frame, es);
    } else {
      MineLast(cfg, id, rest);
      RestDelivered(cfg, Step(cfg, st, es[0]).0, id, frame, cs, 1, 0, {}, OtherIds(cfg, id, es), rest);
      EmitsLastCons(cfg, st, id, frame, es);
    }
  }

  lemma WindowCons(cfg: Config, id: nat, es: seq<Event>)
    requires es != [] && IsMine(cfg, id, es[0])
    ensures Timely(cfg, id, 0, es) ==> Timely(cfg, id, 0, es[1..])
    ensures OtherIds(cfg, id, es[1..]) <= OtherIds(cfg, id, es)
    ensures es[0].Arrive?
  {
  }
}
