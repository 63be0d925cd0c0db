/**
 * Streams of chunks delivered in order: what the assembler makes of every stream that a
 * disassembler may produce, including frames cut into more chunks than an entry has room for.
 */
module FragmentStream {
  import opened Bytes
  import opened FragmentProto
  import opened Options
  import opened Sequences
  import A = FragmentAssembler
  import T = FragmentTiling

  // ---------- positions in a stream of chunks ----------

  /** `k` frames are complete; of the next one, `used` bytes in `n` chunks have gone by. */
  datatype Pos = Pos(k: nat, used: nat, n: nat)

  const START := Pos(0, 0, 0)

  /** Frames are numbered in order, modulo the range of the id. */
  function IdOf(k: nat): (id: nat)
    ensures id < FRAME_IDS
  {
    k % FRAME_IDS
  }

  lemma IdOfNext(k: nat)
    ensures NextId(IdOf(k)) == IdOf(k + 1)
  {
  }

  lemma SameId(j: nat, k: nat)
    requires j < k && IdOf(j) == IdOf(k)
    ensures j + FRAME_IDS <= k
  {
  }

  function After(p: Pos, c: Chunk): Pos {
    if c.last then Pos(p.k + 1, 0, 0) else Pos(p.k, p.used + |c.payload|, p.n + 1)
  }

  function AfterAll(p: Pos, cs: seq<ValidChunk>): Pos
    decreases |cs|
  {
    if cs == [] then p else AfterAll(After(p, cs[0]), cs[1..])
  }

  /** `c` is the next chunk of the frame at `p`. */
  predicate Continues(frames: seq<bytes>, p: Pos, c: Chunk) {
    && p.k < |frames|
    && var frame := frames[p.k];
    && c.id == IdOf(p.k)
    && c.start == p.used && c.End() <= |frame|
    && c.payload == frame[p.used..c.End()]
    && (c.last <==> c.End() == |frame|)
    && (!c.last ==> c.payload != [])
  }

  /** The chunks are those of the frames from `p` on, in order. */
  predicate Follows(frames: seq<bytes>, p: Pos, cs: seq<ValidChunk>)
    decreases |cs|
  {
    cs == [] || (Continues(frames, p, cs[0]) && Follows(frames, After(p, cs[0]), cs[1..]))
  }

  lemma {:induction false} FollowsAppend(frames: seq<bytes>, p: Pos, cs: seq<ValidChunk>, ds: seq<ValidChunk>)
    ensures AfterAll(p, cs + ds) == AfterAll(AfterAll(p, cs), ds)
    ensures Follows(frames, p, cs + ds) <==> Follows(frames, p, cs) && Follows(frames, AfterAll(p, cs), ds)
    decreases |cs|
  {
    if cs == [] {
      assert cs + ds == ds;
    } else {
      FollowsAppend(frames, After(p, cs[0]), cs[1..], ds);
      assert (cs + ds)[1..] == cs[1..] + ds;
    }
  }

  /** A stream stays one when more frames are begun after those it belongs to. */
  lemma {:induction false} FollowsMoreFrames(frames: seq<bytes>, more: seq<bytes>, p: Pos, cs: seq<ValidChunk>)
    requires Follows(frames, p, cs)
    ensures Follows(frames + more, p, cs)
    decreases |cs|
  {
    if cs != [] {
      assert (frames + more)[p.k] == frames[p.k];
      FollowsMoreFrames(frames, more, After(p, cs[0]), cs[1..]);
    }
  }

  /** How many chunks of the frame have gone by makes no difference to which chunk comes next. */
  lemma {:induction false} FollowsAnyCount(frames: seq<bytes>, p: Pos, n: nat, cs: seq<ValidChunk>)
    requires Follows(frames, p, cs)
    ensures Follows(frames, p.(n := n), cs)
    decreases |cs|
  {
    if cs != [] {
      var c := cs[0];
      assert After(p.(n := n), c) == After(p, c).(n := After(p.(n := n), c).n);
      FollowsAnyCount(frames, After(p, c), After(p.(n := n), c).n, cs[1..]);
    }
  }

  // ---------- the chunks that a frame was cut into ----------

  /** The number of chunks of each frame that ends in the stream, `n` of the first having gone by before. */
  function ChunkCounts(n: nat, cs: seq<ValidChunk>): (counts: seq<nat>)
    ensures |counts| <= |cs|
    ensures counts != [] ==> n < counts[0]
    decreases |cs|
  {
    if cs == [] then []
    else if cs[0].last then [n + 1] + ChunkCounts(0, cs[1..])
    else ChunkCounts(n + 1, cs[1..])
  }

  lemma {:induction false} CountsAppend(p: Pos, cs: seq<ValidChunk>, ds: seq<ValidChunk>)
    ensures ChunkCounts(p.n, cs + ds) == ChunkCounts(p.n, cs) + ChunkCounts(AfterAll(p, cs).n, ds)
    ensures AfterAll(p, cs).k == p.k + |ChunkCounts(p.n, cs)|
    decreases |cs|
  {
    if cs == [] {
      assert cs + ds == ds;
    } else {
      var p', all := After(p, cs[0]), cs + ds;
      CountsAppend(p', cs[1..], ds);
      assert all[0] == cs[0] && all[1..] == cs[1..] + ds;
      Assoc([p.n + 1], ChunkCounts(0, cs[1..]), ChunkCounts(AfterAll(p, cs).n, ds));
    }
  }

  lemma {:induction false} CountsInside(frames: seq<bytes>, p: Pos, cs: seq<ValidChunk>)
    requires Follows(frames, p, cs) && p.k <= |frames|
    ensures p.k + |ChunkCounts(p.n, cs)| <= |frames|
    decreases |cs|
  {
    if cs != [] {
      CountsInside(frames, After(p, cs[0]), cs[1..]);
    }
  }

  /** The frames, of those counted, that were cut into at most `limit` chunks. */
  function Fitting(limit: nat, frames: seq<bytes>, counts: seq<nat>): seq<bytes>
    requires |counts| <= |frames|
  {
    if counts == [] then []
    else (if counts[0] <= limit then [frames[0]] else []) + Fitting(limit, frames[1..], counts[1..])
  }

  lemma {:induction false} FittingAppend(limit: nat, frames: seq<bytes>, a: seq<nat>, b: seq<nat>)
    requires |a| + |b| <= |frames|
    ensures Fitting(limit, frames, a + b) == Fitting(limit, frames, a) + Fitting(limit, frames[|a|..], b)
  {
    if a == [] {
      assert a + b == b && frames[0..] == frames;
    } else {
      assert (a + b)[1..] == a[1..] + b && frames[1..][|a| - 1..] == frames[|a|..];
      FittingAppend(limit, frames[1..], a[1..], b);
    }
  }

  ghost predicate AllWithin(limit: nat, counts: seq<nat>) {
    forall i :: 0 <= i < |counts| ==> counts[i] <= limit
  }

  /** All the frames counted come out if and only if none of them was cut into too many chunks. */
  lemma {:induction false} FittingAll(limit: nat, frames: seq<bytes>, counts: seq<nat>)
    requires |counts| <= |frames|
    ensures |Fitting(limit, frames, counts)| <= |counts|
    ensures Fitting(limit, frames, counts) == frames[..|counts|] <==> AllWithin(limit, counts)
    ensures |Fitting(limit, frames, counts)| == |counts| <==> AllWithin(limit, counts)
  {
    if counts != [] {
      FittingAll(limit, frames[1..], counts[1..]);
      assert frames[..|counts|] == [frames[0]] + frames[1..][..|counts| - 1];
      if AllWithin(limit, counts[1..]) && counts[0] <= limit {
        forall i | 0 <= i < |counts| ensures counts[i] <= limit {
          assert i > 0 ==> counts[i] == counts[1..][i - 1];
        }
      } else if counts[0] <= limit {
        var i :| 0 <= i < |counts[1..]| && counts[1..][i] > limit;
        assert counts[i + 1] > limit;
      }
    }
  }

  // ---------- entries without a beginning ----------

  /** Nothing of the entry's frame begins at its first byte. */
  ghost predicate Headless(e: A.Entry) {
    forall i :: 0 <= i < |e.spans| ==> e.spans[i].start > 0
  }

  /** An entry that has no beginning, and is not given one, is never complete. */
  lemma HeadlessNeverCompletes(cfg: A.Config, now: nat, e: A.Entry, c: Chunk)
    requires T.EntryOk(cfg, e) && Headless(e)
    requires A.Consistent(e, c) && A.InBounds(cfg, c) && c.start > 0
    ensures Headless(A.Add(now, e, c)) && !A.Complete(A.Add(now, e, c))
  {
    var r := A.Add(now, e, c);
    T.AddKeeps(cfg, now, e, c);
    T.SumBounded(r.spans, T.Bound(r));
    assert r.length >= c.End() || r.length < 0;
    assert r.length > 0 && T.Covers(r.spans, 0) ==> !Headless(r);
  }

  // ---------- what the assembler is left with ----------

  /**
   * A stream of chunks of `frames` given to an assembler: `big` are the frames cut into more chunks
   * than it has room for, and no packet carries more than `dense` chunks.
   */
  datatype Env = Env(cfg: A.Config, frames: seq<bytes>, big: set<nat>, dense: nat)

  ghost predicate FramesFit(frames: seq<bytes>, mtu: nat) {
    forall i :: 0 <= i < |frames| ==> |frames[i]| <= mtu
  }

  /**
   * No id comes round again while what is left of a frame that did not fit may still be there: it makes
   * way for the next frame, or is dropped at once; or so few chunks go into a packet that it has timed
   * out by then; or the stream ends before.
   */
  predicate IdsApart(cfg: A.Config, total: nat, big: set<nat>, dense: nat) {
    || cfg.numFrames == 1
    || cfg.numChunks == 1
    || dense * (cfg.numFrames + 1) <= FRAME_IDS
    || forall j :: j in big ==> total <= j + FRAME_IDS
  }

  ghost predicate Fine(env: Env) {
    env.cfg.Valid() && FramesFit(env.frames, env.cfg.mtu) && IdsApart(env.cfg, |env.frames|, env.big, env.dense)
  }

  /** The most chunks that can have gone by in `age` packets, and `m` chunks of another. */
  function Room(dense: nat, age: int, m: nat): int {
    dense * age + m
  }

  /** The entry is what is left of frame `j`, which was too big, when the stream is at frame `k`. */
  ghost predicate LeftOf(env: Env, e: A.Entry, j: nat, k: nat, now: nat, m: nat) {
    && j in env.big && j <= k && e.id == IdOf(j) && Headless(e)
    && env.cfg.numChunks > 1 && (env.cfg.numFrames == 1 ==> k <= j + 1)
    && k - j <= Room(env.dense, now - e.time, m)
  }

  ghost predicate Left(env: Env, e: A.Entry, top: nat, k: nat, now: nat, m: nat) {
    exists j: nat :: j < top && LeftOf(env, e, j, k, now, m)
  }

  ghost predicate AllLeft(env: Env, es: seq<A.Entry>, top: nat, k: nat, now: nat, m: nat) {
    forall i :: 0 <= i < |es| ==> Left(env, es[i], top, k, now, m)
  }

  lemma MulLess(a: int, b: int, c: nat)
    requires a * c < b * c
    ensures a < b
  {
  }

  /** If a later frame has the same id, the entry has timed out. */
  lemma LeftIsOld(env: Env, e: A.Entry, k: nat, now: nat, m: nat)
    requires Fine(env) && Left(env, e, k, k, now, m) && k < |env.frames| && e.id == IdOf(k) && m < env.dense
    ensures A.TimedOut(env.cfg, now, e)
  {
    var j: nat :| j < k && LeftOf(env, e, j, k, now, m);
    SameId(j, k);
    if env.dense * (env.cfg.numFrames + 1) <= FRAME_IDS {
      var age, d := now - e.time, env.dense;
      assert d * (age + 1) == d * age + d;
      MulLess(env.cfg.numFrames + 1, age + 1, d);
    }
  }

  /** One more chunk has gone by, which may have ended the frame. */
  lemma LeftLater(env: Env, e: A.Entry, top: nat, k: nat, now: nat, m: nat, top': nat, k': nat)
    requires Left(env, e, top, k, now, m) && top <= top' && k <= k' <= k + 1
    requires k' == k || env.cfg.numFrames > 1
    ensures Left(env, e, top', k', now, m + 1)
  {
    var j: nat :| j < top && LeftOf(env, e, j, k, now, m);
    assert LeftOf(env, e, j, k', now, m + 1);
  }

  lemma AllLeftLater(env: Env, es: seq<A.Entry>, es': seq<A.Entry>, top: nat, k: nat, now: nat, m: nat, top': nat, k': nat)
    requires AllLeft(env, es, top, k, now, m) && top <= top' && k <= k' <= k + 1
    requires forall e :: e in es' ==> e in es
    requires k' == k || env.cfg.numFrames > 1 || es' == []
    ensures AllLeft(env, es', top', k', now, m + 1)
  {
    hide Left;
    forall i | 0 <= i < |es'| ensures Left(env, es'[i], top', k', now, m + 1) {
      assert es'[i] in es;
      LeftLater(env, es'[i], top, k, now, m, top', k');
    }
  }

  /** A packet has ended. */
  lemma LeftTick(env: Env, e: A.Entry, top: nat, k: nat, now: nat, m: nat, e': A.Entry, now': nat)
    requires Left(env, e, top, k, now, m) && m <= env.dense
    requires e' == e.(time := e'.time) && now' - e'.time == now - e.time + 1
    ensures Left(env, e', top, k, now', 0)
  {
    var j: nat :| j < top && LeftOf(env, e, j, k, now, m);
    var d, age := env.dense, now - e.time;
    assert d * (age + 1) == d * age + d;
    assert LeftOf(env, e', j, k, now', 0);
  }

  // ---------- the assembler follows the stream ----------

  /** The entry holds what has gone by of the frame at `p`. */
  ghost predicate EntryTracks(e: A.Entry, frame: bytes, p: Pos) {
    && e.id == IdOf(p.k)
    && |e.spans| == p.n
    && e.sum == p.used == e.lengthSoFar
    && e.length == -1
    && T.Within(e.spans, p.used)
    && p.used <= |frame| && p.used <= |e.buffer|
    && e.buffer[..p.used] == frame[..p.used]
  }

  ghost predicate LastTracks(env: Env, st: A.State, p: Pos, age: nat) {
    && p.k < |env.frames| && st.used != []
    && var e := st.used[|st.used| - 1];
    && EntryTracks(e, env.frames[p.k], p)
    && st.time - e.time <= age
  }

  function Others(st: A.State, p: Pos): seq<A.Entry> {
    if p.n == 0 || st.used == [] then st.used else st.used[..|st.used| - 1]
  }

  /** The last entry holds the frame at `p` so far, if it has begun; the others have no beginning. */
  ghost predicate HeadTracked(env: Env, st: A.State, p: Pos, age: nat, m: nat) {
    && T.Inv(env.cfg, st)
    && (if p.n == 0 then p.used == 0 else p.used > 0 && LastTracks(env, st, p, age))
    && AllLeft(env, Others(st, p), p.k, p.k, st.time, m)
  }

  /** The beginning of the frame `k` has been given up; no entry has one. */
  ghost predicate GoneTracked(env: Env, st: A.State, k: nat, m: nat) {
    && T.Inv(env.cfg, st)
    && k < |env.frames| && k in env.big
    && AllLeft(env, st.used, k + 1, k, st.time, m)
  }

  ghost predicate Tracked(env: Env, st: A.State, p: Pos, age: nat, m: nat) {
    if p.n < env.cfg.numChunks then HeadTracked(env, st, p, age, m)
    else p.used > 0 && GoneTracked(env, st, p.k, m)
  }

  /** With a single entry there are no others. */
  lemma NoOthers(cfg: A.Config, st: A.State, i: nat)
    requires T.Inv(cfg, st) && i < |st.used| && cfg.numFrames == 1
    ensures A.FreeEntry(st, i).used == []
  {
    T.InvFacts(cfg, st);
  }

  /** The entry that a chunk goes to is there already, or fresh and the last; the others were there and have other ids. */
  lemma ObtainCases(cfg: A.Config, st: A.State, id: nat)
    requires cfg.Valid() && T.Inv(cfg, st)
    ensures var (r, i) := A.Obtain(cfg, st, id);
            && T.Inv(cfg, r) && r.time == st.time && r.used[i].id == id
            && (if A.IndexOf(st.used, id) < |st.used| && !A.TimedOut(cfg, st.time, st.used[A.IndexOf(st.used, id)])
                then r == st && i == A.IndexOf(st.used, id)
                else i == |r.used| - 1 && r.used[i] == A.Fresh(id, st.time, r.used[i].buffer))
            && (forall e :: e in A.FreeEntry(r, i).used ==> e in st.used && e.id != id)
            && |A.FreeEntry(r, i).used| <= |st.used|
            && (cfg.numFrames > 1 || A.FreeEntry(r, i).used == [])
  {
    T.ObtainInv(cfg, st, id);
    T.ObtainOthers(cfg, st, id);
    var (r, i) := A.Obtain(cfg, st, id);
    if cfg.numFrames == 1 {
      NoOthers(cfg, r, i);
    }
  }

  lemma LastIsFound(cfg: A.Config, st: A.State, id: nat)
    requires T.Inv(cfg, st) && st.used != [] && st.used[|st.used| - 1].id == id
    ensures A.IndexOf(st.used, id) == |st.used| - 1
  {
    var k := A.IndexOf(st.used, id);
    assert st.used[|st.used| - 1].id == id;
  }

  /** The tracked entry, or a fresh one at the start of a frame, is the last; the others have no beginning. */
  lemma HeadObtain(env: Env, st: A.State, p: Pos, m: nat)
    requires Fine(env) && HeadTracked(env, st, p, 1, m) && p.k < |env.frames| && m < env.dense
    ensures var (r, i) := A.Obtain(env.cfg, st, IdOf(p.k));
            && T.Inv(env.cfg, r) && r.time == st.time && i == |r.used| - 1
            && EntryTracks(r.used[i], env.frames[p.k], p)
            && (forall e :: e in A.FreeEntry(r, i).used ==> e in Others(st, p))
            && |A.FreeEntry(r, i).used| <= |Others(st, p)|
            && (env.cfg.numFrames > 1 || A.FreeEntry(r, i).used == [])
  {
    var id := IdOf(p.k);
    hide Left, IdOf, A.Obtain, T.Inv;
    ObtainCases(env.cfg, st, id);
    var k := A.IndexOf(st.used, id);
    if p.n == 0 {
      if k < |st.used| {
        LeftIsOld(env, st.used[k], p.k, st.time, m);
      }
    } else {
      LastIsFound(env.cfg, st, id);
      assert A.FreeEntry(st, k).used == Others(st, p);
    }
  }

  lemma TrackAdd(cfg: A.Config, now: nat, e: A.Entry, frames: seq<bytes>, p: Pos, c: ValidChunk)
    requires |e.buffer| == cfg.mtu
    requires p.k < |frames| && |frames[p.k]| <= cfg.mtu
    requires EntryTracks(e, frames[p.k], p)
    requires Continues(frames, p, c)
    ensures A.InBounds(cfg, c) && A.Consistent(e, c)
    ensures var r := A.Add(now, e, c);
            && (A.Complete(r) <==> c.last)
            && |r.spans| == p.n + 1
            && |r.buffer| == cfg.mtu
            && (if c.last then r.length == |frames[p.k]| && r.buffer[..r.length] == frames[p.k]
                else EntryTracks(r, frames[p.k], After(p, c)))
  {
    var frame := frames[p.k];
    var r := A.Add(now, e, c);
    assert r.buffer[..c.End()] == frame[..c.End()] by {
      forall i | 0 <= i < c.End() ensures r.buffer[i] == frame[i] {
        if i < p.used {
          assert e.buffer[..p.used][i] == frame[..p.used][i];
        }
      }
    }
  }

  /** What is left in use when the last entry has been freed or replaced. */
  lemma LastEntry(st: A.State, r: A.Entry)
    requires st.used != []
    ensures var i := |st.used| - 1;
            var st' := st.(used := st.used[i := r]);
            && A.FreeEntry(st, i).used == st.used[..i]
            && A.FreeEntry(st', i).used == st.used[..i]
            && st'.used[..i] == st.used[..i] && st'.used[i] == r
  {
  }

  /** The state and the frame after the last entry has taken the next chunk of its frame. */
  lemma HeadDeliver(cfg: A.Config, st: A.State, frames: seq<bytes>, p: Pos, c: ValidChunk)
    requires A.PoolShape(cfg, st) && st.used != []
    requires p.k < |frames| && |frames[p.k]| <= cfg.mtu && Continues(frames, p, c) && p.n < cfg.numChunks
    requires EntryTracks(st.used[|st.used| - 1], frames[p.k], p)
    ensures A.InBounds(cfg, c)
    ensures var (st', out) := A.Deliver(cfg, st, |st.used| - 1, c);
            && st'.time == st.time
            && out == (if c.last then Some(frames[p.k]) else None)
            && (if c.last || p.n + 1 == cfg.numChunks then st'.used == st.used[..|st.used| - 1]
                else
                  && |st'.used| == |st.used| && st'.used[..|st.used| - 1] == st.used[..|st.used| - 1]
                  && st'.used[|st.used| - 1].time == st.time
                  && EntryTracks(st'.used[|st.used| - 1], frames[p.k], After(p, c)))
  {
    var i := |st.used| - 1;
    TrackAdd(cfg, st.time, st.used[i], frames, p, c);
    LastEntry(st, A.Add(st.time, st.used[i], c));
    hide EntryTracks, Continues, A.Consistent, A.Complete, A.FreeEntry;
  }

  lemma FineFacts(env: Env, k: nat)
    requires Fine(env)
    ensures env.cfg.Valid() && (k < |env.frames| ==> |env.frames[k]| <= env.cfg.mtu)
  {
  }

  /** The entries after one more chunk of a frame whose beginning is there, and the frame that comes out. */
  lemma HeadStep(env: Env, st: A.State, p: Pos, c: ValidChunk, m: nat) returns (others: seq<A.Entry>)
    requires Fine(env) && env.cfg.Valid() && HeadTracked(env, st, p, 1, m) && Continues(env.frames, p, c) && m < env.dense
    requires p.n < env.cfg.numChunks
    ensures (forall e :: e in others ==> e in Others(st, p)) && |others| <= |Others(st, p)|
    ensures env.cfg.numFrames > 1 || others == []
    ensures var (st', out) := T.Step(env.cfg, st, T.Arrive(c));
            && st'.time == st.time
            && out == (if c.last then Some(env.frames[p.k]) else None)
            && (if c.last || p.n + 1 == env.cfg.numChunks then st'.used == others
                else LastTracks(env, st', After(p, c), 0) && Others(st', After(p, c)) == others)
  {
    hide Fine, HeadTracked, Continues, T.Inv, EntryTracks, A.Obtain, A.Deliver, A.FreeEntry, IdOf, A.PoolShape, T.Step, A.InBounds;
    var cfg := env.cfg;
    FineFacts(env, p.k);
    ContinuesInBounds(cfg, env.frames, p, c);
    HeadInv(env, st, p, 1, m);
    HeadObtain(env, st, p, m);
    T.ArriveIs(cfg, st, c);
    var (st1, i) := A.Obtain(cfg, st, c.id);
    LastEntry(st1, st1.used[i]);
    HeadDeliver(cfg, st1, env.frames, p, c);
    others := st1.used[..i];
  }

  lemma ContinuesInBounds(cfg: A.Config, frames: seq<bytes>, p: Pos, c: ValidChunk)
    requires Continues(frames, p, c)
    ensures p.k < |frames| && c.id == IdOf(p.k) && (|frames[p.k]| <= cfg.mtu ==> A.InBounds(cfg, c))
  {
  }

  lemma HeadInv(env: Env, st: A.State, p: Pos, age: nat, m: nat)
    requires HeadTracked(env, st, p, age, m)
    ensures T.Inv(env.cfg, st)
  {
  }

  /**
   * One chunk of a frame whose beginning is there: the frame comes out at its last chunk, and is
   * given up when another one fills the entry.
   */
  lemma HeadChunk(env: Env, st: A.State, p: Pos, c: ValidChunk, m: nat)
    requires Fine(env) && HeadTracked(env, st, p, 1, m) && Continues(env.frames, p, c) && m < env.dense
    requires p.n < env.cfg.numChunks
    requires p.n + 1 >= env.cfg.numChunks && !c.last ==> p.k in env.big
    ensures var (st', out) := T.Step(env.cfg, st, T.Arrive(c));
            && out == (if c.last then Some(env.frames[p.k]) else None)
            && Tracked(env, st', After(p, c), 0, m + 1)
  {
    FineFacts(env, p.k);
    hide Fine, T.Inv, LastTracks, AllLeft, IdOf, T.Step;
    var others := HeadStep(env, st, p, c, m);
    var q := After(p, c);
    if c.last || p.n + 1 < env.cfg.numChunks {
      AllLeftLater(env, Others(st, p), others, p.k, p.k, st.time, m, q.k, q.k);
    } else {
      AllLeftLater(env, Others(st, p), others, p.k, p.k, st.time, m, p.k + 1, p.k);
    }
  }

  /** An entry without a beginning takes a chunk that is not one: it stays or goes, but is not complete. */
  lemma HeadlessDeliver(cfg: A.Config, st: A.State, i: nat, c: ValidChunk)
    requires T.Inv(cfg, st) && i < |st.used| && Headless(st.used[i])
    requires A.InBounds(cfg, c) && c.start > 0
    ensures var (st', out) := A.Deliver(cfg, st, i, c);
            && st'.time == st.time && out == None
            && forall e :: e in st'.used ==>
                             || e in A.FreeEntry(st, i).used
                             || (e.id == st.used[i].id && e.time == st.time && Headless(e) && cfg.numChunks > 1)
  {
    T.InvEntry(cfg, st, i);
    T.InvFacts(cfg, st);
    hide T.Inv, T.EntryOk, Headless, A.Consistent, A.Complete;
    if A.Consistent(st.used[i], c) {
      HeadlessNeverCompletes(cfg, st.time, st.used[i], c);
      var r := A.Add(st.time, st.used[i], c);
      assert A.FreeEntry(st.(used := st.used[i := r]), i).used == A.FreeEntry(st, i).used;
      forall e | e in st.used[i := r] ensures e == r || e in A.FreeEntry(st, i).used {
        var j :| 0 <= j < |st.used| && e == st.used[i := r][j];
        if j != i {
          assert e == A.FreeEntry(st, i).used[if j < i then j else j - 1];
        }
      }
    }
  }

  lemma ObtainHeadless(cfg: A.Config, st: A.State, id: nat)
    requires cfg.Valid() && T.Inv(cfg, st)
    requires forall e :: e in st.used && e.id == id ==> Headless(e)
    ensures |st.used| + |st.free| > 0 && var (r, i) := A.Obtain(cfg, st, id); Headless(r.used[i])
  {
    ObtainCases(cfg, st, id);
    hide A.Obtain, T.EntryOk, A.PoolShape;
    var (r, i) := A.Obtain(cfg, st, id);
    assert r == st ==> r.used[i] in st.used;
  }

  /**
   * A chunk that is not the beginning of its frame, when no entry with its id has a beginning: nothing
   * comes out, and still no entry with the id has a beginning.
   */
  lemma HeadlessChunk(cfg: A.Config, st: A.State, c: ValidChunk)
    requires cfg.Valid() && T.Inv(cfg, st)
    requires A.InBounds(cfg, c) && c.start > 0
    requires forall e :: e in st.used && e.id == c.id ==> Headless(e)
    ensures var (st', out) := T.Step(cfg, st, T.Arrive(c));
            && st'.time == st.time && out == None
            && forall e :: e in st'.used ==>
                             || (e in st.used && cfg.numFrames > 1)
                             || (e.id == c.id && e.time == st.time && Headless(e) && cfg.numChunks > 1)
  {
    hide T.Inv, A.Obtain, A.Deliver, A.FreeEntry, Headless, A.PoolShape, T.Step, A.InBounds;
    T.ArriveIs(cfg, st, c);
    ObtainCases(cfg, st, c.id);
    ObtainHeadless(cfg, st, c.id);
    var (st1, i) := A.Obtain(cfg, st, c.id);
    HeadlessDeliver(cfg, st1, i, c);
  }

  lemma AllHeadless(env: Env, es: seq<A.Entry>, top: nat, k: nat, now: nat, m: nat, e: A.Entry)
    requires AllLeft(env, es, top, k, now, m) && e in es
    ensures Headless(e)
  {
  }

  /** What is left after a chunk of the frame `k`, which has lost its beginning. */
  lemma LeftAfter(env: Env, es: seq<A.Entry>, es': seq<A.Entry>, k: nat, now: nat, m: nat, k': nat)
    requires AllLeft(env, es, k + 1, k, now, m) && k in env.big && k <= k' <= k + 1
    requires forall e :: e in es' ==>
                           || (e in es && (k' == k || env.cfg.numFrames > 1))
                           || (e.id == IdOf(k) && e.time == now && Headless(e) && env.cfg.numChunks > 1)
    ensures AllLeft(env, es', k + 1, k', now, m + 1)
  {
    forall i | 0 <= i < |es'| ensures Left(env, es'[i], k + 1, k', now, m + 1) {
      assert es'[i] in es';
      if es'[i].id == IdOf(k) && es'[i].time == now && Headless(es'[i]) && env.cfg.numChunks > 1 {
        assert LeftOf(env, es'[i], k, k', now, m + 1);
      } else {
        LeftLater(env, es'[i], k + 1, k, now, m, k + 1, k');
      }
    }
  }

  /** One chunk of a frame that has lost its beginning: nothing comes out. */
  lemma GoneChunk(env: Env, st: A.State, p: Pos, c: ValidChunk, m: nat)
    requires Fine(env) && GoneTracked(env, st, p.k, m)
    requires c.id == IdOf(p.k) && c.start > 0 && c.End() <= |env.frames[p.k]|
    ensures var (st', out) := T.Step(env.cfg, st, T.Arrive(c));
            && out == None
            && (if c.last then HeadTracked(env, st', Pos(p.k + 1, 0, 0), 0, m + 1) else GoneTracked(env, st', p.k, m + 1))
  {
    FineFacts(env, p.k);
    hide Fine, T.Inv, T.Step, IdOf, AllLeft, Headless;
    var st' := GoneStep(env, st, p.k, c, m);
    if c.last {
      LeftAfter(env, st.used, st'.used, p.k, st.time, m, p.k + 1);
    } else {
      LeftAfter(env, st.used, st'.used, p.k, st.time, m, p.k);
    }
  }

  lemma GoneStep(env: Env, st: A.State, k: nat, c: ValidChunk, m: nat) returns (st': A.State)
    requires env.cfg.Valid() && T.Inv(env.cfg, st) && AllLeft(env, st.used, k + 1, k, st.time, m)
    requires c.id == IdOf(k) && c.start > 0 && A.InBounds(env.cfg, c)
    ensures T.Step(env.cfg, st, T.Arrive(c)) == (st', None) && T.Inv(env.cfg, st') && st'.time == st.time
    ensures forall e :: e in st'.used ==>
                          || (e in st.used && env.cfg.numFrames > 1)
                          || (e.id == IdOf(k) && e.time == st.time && Headless(e) && env.cfg.numChunks > 1)
  {
    hide T.Inv, T.Step, IdOf, AllLeft, Headless;
    forall e | e in st.used ensures Headless(e) {
      AllHeadless(env, st.used, k + 1, k, st.time, m, e);
    }
    HeadlessChunk(env.cfg, st, c);
    st' := T.Step(env.cfg, st, T.Arrive(c)).0;
  }

  /** The tracked entry has a beginning, so a chunk that begins another frame under its id contradicts it. */
  lemma RestartInconsistent(cfg: A.Config, e: A.Entry, frame: bytes, p: Pos, c: Chunk)
    requires T.EntryOk(cfg, e) && EntryTracks(e, frame, p) && p.used > 0
    requires c.start == 0 && (c.payload != [] || c.last)
    ensures !A.Consistent(e, c)
  {
    T.SumBounded(e.spans, p.used);
    assert T.Covers(e.spans, 0);
    var i :| 0 <= i < |e.spans| && T.InSpan(e.spans[i], 0);
    assert c.payload != [] ==> A.Overlap(e.spans[i], A.SpanOf(c));
  }

  /** A frame that begins under the id of one that has begun already: both lose their beginning. */
  lemma RestartChunk(env: Env, st: A.State, p: Pos, c: ValidChunk, m: nat)
    requires Fine(env) && HeadTracked(env, st, p, 1, m) && p.n > 0 && p.k in env.big && m < env.dense
    requires c.id == IdOf(p.k) && c.start == 0 && (c.payload != [] || c.last) && A.InBounds(env.cfg, c)
    ensures var (st', out) := T.Step(env.cfg, st, T.Arrive(c));
            && out == None
            && (if c.last then HeadTracked(env, st', Pos(p.k + 1, 0, 0), 0, m + 1) else GoneTracked(env, st', p.k, m + 1))
  {
    var cfg := env.cfg;
    FineFacts(env, p.k);
    hide Fine, T.Inv, EntryTracks, A.Obtain, A.Consistent, IdOf, AllLeft, A.FreeEntry, T.Step, A.PoolShape;
    HeadObtain(env, st, p, m);
    T.ArriveIs(cfg, st, c);
    var (st1, i) := A.Obtain(cfg, st, c.id);
    T.InvEntry(cfg, st1, i);
    RestartInconsistent(cfg, st1.used[i], env.frames[p.k], p, c);
    var st' := T.Step(cfg, st, T.Arrive(c)).0;
    FreeKeepsTime(st1, i);
    AllLeftLater(env, Others(st, p), st'.used, p.k, p.k, st.time, m, p.k + 1, p.k + 1);
    AllLeftLater(env, Others(st, p), st'.used, p.k, p.k, st.time, m, p.k + 1, p.k);
  }

  lemma FreeKeepsTime(st: A.State, i: nat)
    requires i < |st.used|
    ensures A.FreeEntry(st, i).time == st.time
  {
  }

  /** One chunk of the stream. */
  lemma TrackChunk(env: Env, st: A.State, p: Pos, c: ValidChunk, m: nat)
    requires Fine(env) && Tracked(env, st, p, 1, m) && Continues(env.frames, p, c) && m < env.dense
    requires p.n + 1 >= env.cfg.numChunks && !c.last ==> p.k in env.big
    ensures var (st', out) := T.Step(env.cfg, st, T.Arrive(c));
            && out == (if c.last && p.n < env.cfg.numChunks then Some(env.frames[p.k]) else None)
            && Tracked(env, st', After(p, c), 0, m + 1)
  {
    assert env.cfg.numChunks > 0;
    hide T.Step, HeadTracked, GoneTracked, Fine, T.Inv;
    if p.n < env.cfg.numChunks {
      HeadChunk(env, st, p, c, m);
    } else {
      GoneChunk(env, st, p, c, m);
    }
  }

  // ---------- the end of a packet ----------

  /** The entry as it is when the clock has advanced by one: only its time may have changed. */
  ghost predicate Aged(e: A.Entry, now: nat, e': A.Entry, now': nat) {
    e' == e.(time := e'.time) && now' - e'.time == now - e.time + 1
  }

  ghost predicate AllAged(es: seq<A.Entry>, now: nat, es': seq<A.Entry>, now': nat) {
    |es'| == |es| && forall i :: 0 <= i < |es| ==> Aged(es[i], now, es'[i], now')
  }

  /** The entries that are still there when the clock has advanced. */
  function Staying(cfg: A.Config, st: A.State): seq<A.Entry> {
    if st.time == A.MAX_TIME then A.Survivors(cfg, st.time, st.used) else st.used
  }

  lemma TickAges(cfg: A.Config, st: A.State)
    requires cfg.Valid() && T.Inv(cfg, st)
    ensures AllAged(Staying(cfg, st), st.time, A.Tick(cfg, st).used, A.Tick(cfg, st).time)
  {
    hide A.Survivors, A.Expired, A.MinTime, T.EntryOk;
    A.ReduceTimesKeepsAges(cfg, st);
  }

  lemma StayingFrom(cfg: A.Config, st: A.State)
    ensures forall e :: e in Staying(cfg, st) ==> e in st.used
    ensures var n := |st.used| - 1;
            st.used != [] && !A.TimedOut(cfg, st.time, st.used[n]) ==>
              var es := Staying(cfg, st);
              && es != [] && es[|es| - 1] == st.used[n]
              && forall e :: e in es[..|es| - 1] ==> e in st.used[..n]
  {
    A.SurvivorsFrom(cfg, st.time, st.used);
    if st.used != [] {
      var n := |st.used| - 1;
      A.SurvivorsFrom(cfg, st.time, st.used[..n]);
      assert st.time == A.MAX_TIME && !A.TimedOut(cfg, st.time, st.used[n]) ==>
          Staying(cfg, st)[..|Staying(cfg, st)| - 1] == A.Survivors(cfg, st.time, st.used[..n]);
    }
  }

  lemma AllLeftTick(env: Env, es: seq<A.Entry>, top: nat, k: nat, now: nat, m: nat,
                    stay: seq<A.Entry>, es': seq<A.Entry>, now': nat)
    requires AllLeft(env, es, top, k, now, m) && m <= env.dense
    requires (forall e :: e in stay ==> e in es) && AllAged(stay, now, es', now')
    ensures AllLeft(env, es', top, k, now', 0)
  {
    hide Left;
    forall i | 0 <= i < |es'| ensures Left(env, es'[i], top, k, now', 0) {
      assert stay[i] in es;
      assert Aged(stay[i], now, es'[i], now');
      LeftTick(env, stay[i], top, k, now, m, es'[i], now');
    }
  }

  lemma TracksAnyTime(e: A.Entry, frame: bytes, p: Pos, now: nat)
    requires EntryTracks(e, frame, p)
    ensures EntryTracks(e.(time := now), frame, p)
  {
  }

  lemma LastTick(env: Env, st: A.State, p: Pos)
    requires env.cfg.Valid() && T.Inv(env.cfg, st) && LastTracks(env, st, p, 0)
    ensures A.TimesOk(st) && LastTracks(env, A.Tick(env.cfg, st), p, 1)
    ensures var stay, used := Staying(env.cfg, st), A.Tick(env.cfg, st).used;
            && stay != [] && |stay| == |used|
            && var rest, others := stay[..|stay| - 1], st.used[..|st.used| - 1];
               forall e :: e in rest ==> e in others
  {
    var cfg := env.cfg;
    T.InvFacts(cfg, st);
    TickAges(cfg, st);
    StayingFrom(cfg, st);
    var stay, r := Staying(cfg, st), A.Tick(cfg, st);
    var e := st.used[|st.used| - 1];
    assert !A.TimedOut(cfg, st.time, e);
    hide A.Tick, Staying, A.TimedOut, EntryTracks, T.Inv;
    var n := |stay| - 1;
    assert Aged(stay[n], st.time, r.used[n], r.time);
    TracksAnyTime(e, env.frames[p.k], p, r.used[n].time);
  }

  lemma HeadTick(env: Env, st: A.State, p: Pos, m: nat)
    requires Fine(env) && HeadTracked(env, st, p, 0, m) && m <= env.dense
    ensures HeadTracked(env, (T.TickInv(env.cfg, st); A.Tick(env.cfg, st)), p, 1, 0)
  {
    var cfg := env.cfg;
    T.TickInv(cfg, st);
    TickAges(cfg, st);
    StayingFrom(cfg, st);
    var stay, r := Staying(cfg, st), A.Tick(cfg, st);
    hide A.Tick, Staying, T.Inv, AllLeft, LastTracks;
    if p.n > 0 {
      LastTick(env, st, p);
      var n := |stay| - 1;
      AllLeftTick(env, Others(st, p), p.k, p.k, st.time, m, stay[..n], r.used[..n], r.time);
    } else {
      AllLeftTick(env, Others(st, p), p.k, p.k, st.time, m, stay, r.used, r.time);
    }
  }

  lemma TrackTick(env: Env, st: A.State, p: Pos, m: nat)
    requires Fine(env) && Tracked(env, st, p, 0, m) && m <= env.dense
    ensures T.Inv(env.cfg, st) && Tracked(env, T.Step(env.cfg, st, T.EndOfPacket).0, p, 1, 0)
  {
    var cfg := env.cfg;
    assert T.Inv(cfg, st);
    hide AllLeft, Staying, A.Tick;
    if p.n < cfg.numChunks {
      HeadTick(env, st, p, m);
    } else {
      T.TickInv(cfg, st);
      TickAges(cfg, st);
      StayingFrom(cfg, st);
      var r := A.Tick(cfg, st);
      AllLeftTick(env, st.used, p.k + 1, p.k, st.time, m, Staying(cfg, st), r.used, r.time);
    }
  }

  // ---------- packets ----------

  /** Those of the frames from number `k` on that were cut into too many chunks are in `big`. */
  ghost predicate Marked(env: Env, k: nat, counts: seq<nat>) {
    forall i :: 0 <= i < |counts| && counts[i] > env.cfg.numChunks ==> k + i in env.big
  }

  lemma MarkedTail(env: Env, k: nat, counts: seq<nat>)
    requires Marked(env, k, counts) && counts != []
    ensures Marked(env, k + 1, counts[1..])
  {
    forall i | 0 <= i < |counts| - 1 && counts[1..][i] > env.cfg.numChunks ensures k + 1 + i in env.big {
      assert counts[i + 1] == counts[1..][i];
    }
  }

  /** The frame that the stream is in is in `big` if it has been cut into too many chunks already. */
  ghost predicate MarkedAt(env: Env, p: Pos) {
    p.n >= env.cfg.numChunks ==> p.k in env.big
  }

  /** The stream goes on from `p` with `cs`, and frames of it that do not fit are in `big`. */
  ghost predicate Goes(env: Env, p: Pos, cs: seq<ValidChunk>) {
    && Follows(env.frames, p, cs) && p.k <= |env.frames|
    && Marked(env, p.k, ChunkCounts(p.n, cs)) && MarkedAt(env, AfterAll(p, cs))
  }

  /** A stream in which no frame ends stays in the same frame. */
  lemma {:induction false} NoFrameEnds(p: Pos, cs: seq<ValidChunk>)
    requires ChunkCounts(p.n, cs) == []
    ensures AfterAll(p, cs).k == p.k && AfterAll(p, cs).n >= p.n
    decreases |cs|
  {
    if cs != [] {
      NoFrameEnds(After(p, cs[0]), cs[1..]);
    }
  }

  lemma MarkedHere(env: Env, p: Pos, cs: seq<ValidChunk>)
    requires Goes(env, p, cs)
    ensures MarkedAt(env, p)
  {
    var counts := ChunkCounts(p.n, cs);
    if counts == [] {
      NoFrameEnds(p, cs);
    } else {
      assert counts[0] > env.cfg.numChunks ==> p.k + 0 in env.big;
    }
  }

  /** The frames that end in `cs` and fit. */
  ghost function Coming(env: Env, p: Pos, cs: seq<ValidChunk>): seq<bytes>
    requires Goes(env, p, cs)
  {
    CountsInside(env.frames, p, cs);
    Fitting(env.cfg.numChunks, env.frames[p.k..], ChunkCounts(p.n, cs))
  }

  /** What one chunk adds to the frames that end and fit. */
  lemma GoesOn(env: Env, p: Pos, cs: seq<ValidChunk>)
    requires Goes(env, p, cs) && cs != []
    ensures Continues(env.frames, p, cs[0]) && p.k < |env.frames|
    ensures p.n + 1 >= env.cfg.numChunks && !cs[0].last ==> p.k in env.big
    ensures Goes(env, After(p, cs[0]), cs[1..])
    ensures Coming(env, p, cs)
            == T.Emission(if cs[0].last && p.n < env.cfg.numChunks then Some(env.frames[p.k]) else None)
               + Coming(env, After(p, cs[0]), cs[1..])
  {
    var p', counts := After(p, cs[0]), ChunkCounts(p.n, cs);
    CountsInside(env.frames, p, cs);
    CountsInside(env.frames, p', cs[1..]);
    if cs[0].last {
      assert counts[1..] == ChunkCounts(0, cs[1..]);
      assert env.frames[p.k..][1..] == env.frames[p.k + 1..];
      MarkedTail(env, p.k, counts);
    }
    MarkedHere(env, p', cs[1..]);
  }

  /** The state after chunks of one packet, and the frames that come out. */
  ghost function Fed(cfg: A.Config, st: A.State, cs: seq<ValidChunk>): (r: (A.State, seq<bytes>))
    requires cfg.Valid() && T.Inv(cfg, st)
    ensures T.Inv(cfg, r.0)
  {
    T.Run(cfg, st, T.ArrivalsOf(cs))
  }

  lemma FedStep(cfg: A.Config, st: A.State, cs: seq<ValidChunk>)
    requires cfg.Valid() && T.Inv(cfg, st) && cs != []
    ensures var (st', out) := T.Step(cfg, st, T.Arrive(cs[0]));
            var (end, outs) := Fed(cfg, st', cs[1..]);
            Fed(cfg, st, cs) == (end, T.Emission(out) + outs)
  {
    hide T.Step, T.Inv;
    assert T.ArrivalsOf(cs)[1..] == T.ArrivalsOf(cs[1..]);
  }

  /** A packet's worth of the stream: the frames that end in it come out, in order, if they fit. */
  lemma {:induction false} TrackChunks(env: Env, st: A.State, p: Pos, cs: seq<ValidChunk>, age: nat, m: nat)
    requires env.cfg.Valid() && T.Inv(env.cfg, st) && age <= 1
    requires Fine(env) && Tracked(env, st, p, age, m) && m + |cs| <= env.dense && Goes(env, p, cs)
    ensures Tracked(env, Fed(env.cfg, st, cs).0, AfterAll(p, cs), if cs == [] then age else 0, m + |cs|)
    ensures Fed(env.cfg, st, cs).1 == Coming(env, p, cs)
    decreases |cs|
  {
    hide T.Step, T.Inv, Fine, Goes, Coming, Tracked, Fed, Continues;
    if cs == [] {
      ComingNone(env, p);
      assert Fed(env.cfg, st, []) == (st, []) by { FedNone(env.cfg, st); }
    } else {
      var c, p' := cs[0], After(p, cs[0]);
      GoesOn(env, p, cs);
      Tolerant(env, st, p, age, m);
      TrackChunk(env, st, p, c, m);
      TrackChunks(env, T.Step(env.cfg, st, T.Arrive(c)).0, p', cs[1..], 0, m + 1);
      FedStep(env.cfg, st, cs);
    }
  }

  lemma FedNone(cfg: A.Config, st: A.State)
    requires cfg.Valid() && T.Inv(cfg, st)
    ensures Fed(cfg, st, []) == (st, [])
  {
  }

  lemma ComingNone(env: Env, p: Pos)
    requires Goes(env, p, [])
    ensures Coming(env, p, []) == []
  {
  }

  lemma Tolerant(env: Env, st: A.State, p: Pos, age: nat, m: nat)
    requires Tracked(env, st, p, age, m) && age <= 1
    ensures Tracked(env, st, p, 1, m)
  {
  }

  lemma EndAlone(cfg: A.Config, st: A.State)
    requires cfg.Valid() && T.Inv(cfg, st)
    ensures T.Run(cfg, st, [T.EndOfPacket]) == (T.Step(cfg, st, T.EndOfPacket).0, [])
  {
    var (end, out) := T.Step(cfg, st, T.EndOfPacket);
    assert [T.EndOfPacket][1..] == [];
    assert T.Run(cfg, end, []) == (end, []);
    assert T.Emission(out) + [] == [];
  }

  /** A packet amounts to its chunks, then a tick. */
  lemma PacketIsFed(cfg: A.Config, st: A.State, cs: seq<ValidChunk>)
    requires cfg.Valid() && T.Inv(cfg, st)
    ensures var (st', outs) := Fed(cfg, st, cs);
            T.FeedPacket(cfg, st, EncodeChunks(cs)) == (T.Step(cfg, st', T.EndOfPacket).0, outs)
  {
    hide T.Inv, T.FeedPacket, T.Step;
    T.PacketIsItsChunks(cfg, st, EncodeChunks(cs));
    ReadChunksEncoded(cs);
    T.RunAppend(cfg, st, T.ArrivalsOf(cs), [T.EndOfPacket]);
    var (st', outs) := Fed(cfg, st, cs);
    EndAlone(cfg, st');
    assert outs + [] == outs;
  }

  lemma PacketEnds(env: Env, st: A.State, p: Pos, cs: seq<ValidChunk>)
    requires env.cfg.Valid() && T.Inv(env.cfg, st) && |cs| <= env.dense && Fine(env)
    requires Tracked(env, Fed(env.cfg, st, cs).0, AfterAll(p, cs), 0, |cs|)
    ensures var (st', outs) := T.FeedPacket(env.cfg, st, EncodeChunks(cs));
            Tracked(env, st', AfterAll(p, cs), 1, 0) && outs == Fed(env.cfg, st, cs).1
  {
    hide Tracked, Fine, T.Inv, T.FeedPacket, AfterAll, T.Step, Fed;
    PacketIsFed(env.cfg, st, cs);
    TrackTick(env, Fed(env.cfg, st, cs).0, AfterAll(p, cs), |cs|);
  }

  /** A whole packet of the stream. */
  lemma TrackPacket(env: Env, st: A.State, p: Pos, cs: seq<ValidChunk>)
    requires env.cfg.Valid() && T.Inv(env.cfg, st)
    requires Fine(env) && Tracked(env, st, p, 1, 0) && 0 < |cs| <= env.dense && Goes(env, p, cs)
    ensures var (st', outs) := T.FeedPacket(env.cfg, st, EncodeChunks(cs));
            Tracked(env, st', AfterAll(p, cs), 1, 0) && outs == Coming(env, p, cs)
  {
    hide Tracked, Fine, Goes, Coming, T.Inv, T.FeedPacket, AfterAll, T.Step;
    TrackChunks(env, st, p, cs, 1, 0);
    PacketEnds(env, st, p, cs);
  }

  function Flatten(css: seq<seq<ValidChunk>>): seq<ValidChunk> {
    if css == [] then [] else css[0] + Flatten(css[1..])
  }

  function EncodePackets(css: seq<seq<ValidChunk>>): (ps: seq<bytes>)
    ensures |ps| == |css|
  {
    if css == [] then [] else [EncodeChunks(css[0])] + EncodePackets(css[1..])
  }

  /** Every packet holds between one and `dense` chunks. */
  ghost predicate Packed(css: seq<seq<ValidChunk>>, dense: nat) {
    forall i :: 0 <= i < |css| ==> 0 < |css[i]| <= dense
  }

  lemma MarkedSplit(env: Env, k: nat, a: seq<nat>, b: seq<nat>)
    requires Marked(env, k, a + b)
    ensures Marked(env, k, a) && Marked(env, k + |a|, b)
  {
    forall i | 0 <= i < |a| && a[i] > env.cfg.numChunks ensures k + i in env.big {
      assert (a + b)[i] == a[i];
    }
    forall i | 0 <= i < |b| && b[i] > env.cfg.numChunks ensures k + |a| + i in env.big {
      assert (a + b)[|a| + i] == b[i];
      assert k + (|a| + i) in env.big;
    }
  }

  lemma {:induction false} FeedAppend(cfg: A.Config, st: A.State, a: seq<bytes>, b: seq<bytes>)
    requires cfg.Valid() && T.Inv(cfg, st)
    ensures var (st', outs) := T.FeedPackets(cfg, st, a);
            var (end, more) := T.FeedPackets(cfg, st', b);
            T.FeedPackets(cfg, st, a + b) == (end, outs + more)
    decreases |a|
  {
    hide T.Inv, T.FeedPacket;
    if a == [] {
      assert a + b == b;
      EmptyUnit(T.FeedPackets(cfg, st, b).1);
    } else {
      var (st1, frames) := T.FeedPacket(cfg, st, a[0]);
      assert (a + b)[1..] == a[1..] + b;
      FeedAppend(cfg, st1, a[1..], b);
      var (st', outs) := T.FeedPackets(cfg, st1, a[1..]);
      Assoc(frames, outs, T.FeedPackets(cfg, st', b).1);
    }
  }

  lemma {:induction false} PacketsAppend(css: seq<seq<ValidChunk>>, dss: seq<seq<ValidChunk>>)
    ensures EncodePackets(css + dss) == EncodePackets(css) + EncodePackets(dss)
    ensures Flatten(css + dss) == Flatten(css) + Flatten(dss)
  {
    hide EncodeChunks;
    var all := css + dss;
    if css == [] {
      assert all == dss;
      EmptyUnit(EncodePackets(dss));
      EmptyUnit(Flatten(dss));
    } else {
      PacketsAppend(css[1..], dss);
      assert all[0] == css[0] && all[1..] == css[1..] + dss;
      Assoc([EncodeChunks(css[0])], EncodePackets(css[1..]), EncodePackets(dss));
      Assoc(css[0], Flatten(css[1..]), Flatten(dss));
    }
  }

  /** A stream that goes on with two parts goes on with the first, and from its end with the second. */
  lemma GoesSplit(env: Env, p: Pos, cs: seq<ValidChunk>, ds: seq<ValidChunk>)
    requires Goes(env, p, cs + ds)
    ensures AfterAll(p, cs + ds) == AfterAll(AfterAll(p, cs), ds)
    ensures Goes(env, p, cs) && Goes(env, AfterAll(p, cs), ds)
    ensures Coming(env, p, cs + ds) == Coming(env, p, cs) + Coming(env, AfterAll(p, cs), ds)
  {
    var q := AfterAll(p, cs);
    var a, b := ChunkCounts(p.n, cs), ChunkCounts(q.n, ds);
    FollowsAppend(env.frames, p, cs, ds);
    CountsAppend(p, cs, ds);
    CountsInside(env.frames, p, cs);
    CountsInside(env.frames, q, ds);
    MarkedSplit(env, p.k, a, b);
    MarkedHere(env, q, ds);
    FittingAppend(env.cfg.numChunks, env.frames[p.k..], a, b);
    assert env.frames[p.k..][|a|..] == env.frames[q.k..];
  }

  /**
   * What the assembler makes of every stream of chunks of `frames`, however it is cut into packets:
   * of the frames whose chunks have all gone by, those cut into at most `numChunks` chunks come out,
   * in order, past any number of clock reductions; what is left of the others never does any harm.
   */
  lemma {:induction false} AssemblerDecodes(env: Env, st: A.State, p: Pos, css: seq<seq<ValidChunk>>)
    requires env.cfg.Valid() && T.Inv(env.cfg, st)
    requires Fine(env) && Tracked(env, st, p, 1, 0)
    requires Packed(css, env.dense) && Goes(env, p, Flatten(css))
    ensures var (st', outs) := T.FeedPackets(env.cfg, st, EncodePackets(css));
            Tracked(env, st', AfterAll(p, Flatten(css)), 1, 0) && outs == Coming(env, p, Flatten(css))
    decreases |css|
  {
    hide Tracked, Fine, Goes, Coming, T.Inv, T.FeedPacket;
    if css == [] {
      ComingNone(env, p);
    } else {
      hide AfterAll;
      GoesSplit(env, p, css[0], Flatten(css[1..]));
      TrackPacket(env, st, p, css[0]);
      var (st', outs) := T.FeedPacket(env.cfg, st, EncodeChunks(css[0]));
      assert Packed(css[1..], env.dense);
      AssemblerDecodes(env, st', AfterAll(p, css[0]), css[1..]);
      assert EncodePackets(css)[1..] == EncodePackets(css[1..]);
    }
  }
}
