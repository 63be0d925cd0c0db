/**
 * Why the round trip excludes cancelling a frame of which chunks have been written: the disassembler then
 * gives the next frame the same id, and the assembler takes its chunks for a repetition.
 */
module FragmentCancel {
  import opened Bytes
  import opened Sequences
  import opened FragmentProto
  import opened FragmentStream
  import opened FragmentRoundTrip
  import opened Options
  import A = FragmentAssembler
  import T = FragmentTiling
  import D = FragmentDisassembler

  /** What is left does not depend on which frames the stream belongs to. */
  lemma LeftAnyFrames(env: Env, frames: seq<bytes>, es: seq<A.Entry>, top: nat, k: nat, now: nat, m: nat)
    requires AllLeft(env, es, top, k, now, m)
    ensures AllLeft(env.(frames := frames), es, top, k, now, m)
  {
    forall i | 0 <= i < |es| ensures Left(env.(frames := frames), es[i], top, k, now, m) {
      assert Left(env, es[i], top, k, now, m);
      var j: nat :| j < top && LeftOf(env, es[i], j, k, now, m);
      assert LeftOf(env.(frames := frames), es[i], j, k, now, m);
    }
  }

  lemma TrackedAnyFrames(env: Env, frames: seq<bytes>, st: A.State, k: nat, m: nat)
    ensures GoneTracked(env, st, k, m) && k < |frames| ==> GoneTracked(env.(frames := frames), st, k, m)
    ensures HeadTracked(env, st, Pos(k, 0, 0), 0, m) ==> HeadTracked(env.(frames := frames), st, Pos(k, 0, 0), 0, m)
  {
    hide AllLeft, T.Inv;
    if GoneTracked(env, st, k, m) {
      LeftAnyFrames(env, frames, st.used, k + 1, k, st.time, m);
    }
    if HeadTracked(env, st, Pos(k, 0, 0), 0, m) {
      LeftAnyFrames(env, frames, st.used, k, k, st.time, m);
    }
  }

  /** The position before the first chunk of a frame that is bound to be lost. */
  function LostAt(env: Env, k: nat): Pos {
    Pos(k, 0, env.cfg.numChunks)
  }

  lemma BeginsFrame(cfg: A.Config, frames: seq<bytes>, k: nat, n: nat, c: ValidChunk)
    requires Continues(frames, Pos(k, 0, n), c) && FramesFit(frames, cfg.mtu)
    ensures A.InBounds(cfg, c) && c.id == IdOf(k) && c.start == 0 && (c.payload != [] || c.last) && k < |frames|
  {
  }

  /** The first chunk of another frame, given the id of the frame at `p`. */
  lemma RestartTracked(env: Env, frames: seq<bytes>, st: A.State, p: Pos, c: ValidChunk)
    requires env.cfg.Valid() && T.Inv(env.cfg, st)
    requires Fine(env) && HeadTracked(env, st, p, 1, 0) && p.n > 0 && p.k in env.big && env.dense > 0
    requires Continues(frames, LostAt(env, p.k), c) && FramesFit(frames, env.cfg.mtu)
    ensures var (st', out) := T.Step(env.cfg, st, T.Arrive(c));
            out == None && Tracked(env.(frames := frames), st', After(LostAt(env, p.k), c), 0, 1)
  {
    hide T.Inv, T.Step, Fine, HeadTracked, GoneTracked, Continues, FramesFit, IdOf, A.InBounds;
    BeginsFrame(env.cfg, frames, p.k, env.cfg.numChunks, c);
    RestartChunk(env, st, p, c, 0);
    var st' := T.Step(env.cfg, st, T.Arrive(c)).0;
    TrackedAnyFrames(env, frames, st', if c.last then p.k + 1 else p.k, 1);
  }

  /** The packet that begins with that chunk. */
  lemma RestartPacket(env: Env, frames: seq<bytes>, st: A.State, p: Pos, cs: seq<ValidChunk>)
    requires env.cfg.Valid() && T.Inv(env.cfg, st) && Fine(env) && Fine(env.(frames := frames))
    requires HeadTracked(env, st, p, 1, 0) && p.n > 0 && p.k in env.big
    requires 0 < |cs| <= env.dense && Goes(env.(frames := frames), LostAt(env, p.k), cs)
    ensures var env' := env.(frames := frames);
            var (st', outs) := T.FeedPacket(env.cfg, st, EncodeChunks(cs));
            && Tracked(env', st', AfterAll(LostAt(env, p.k), cs), 1, 0)
            && outs == Coming(env', LostAt(env, p.k), cs)
  {
    var env', p0, c := env.(frames := frames), LostAt(env, p.k), cs[0];
    GoesOn(env', p0, cs);
    assert FramesFit(frames, env.cfg.mtu);
    hide Fine, Goes, Coming, HeadTracked, Tracked, T.Inv, T.Step, T.FeedPacket, Fed, Continues, FramesFit;
    RestartTracked(env, frames, st, p, c);
    TrackChunks(env', T.Step(env.cfg, st, T.Arrive(c)).0, After(p0, c), cs[1..], 0, 1);
    FedStep(env.cfg, st, cs);
    PacketEnds(env', st, p0, cs);
    EmptyUnit(Coming(env', After(p0, c), cs[1..]));
  }

  lemma RestartDecodes(env: Env, frames: seq<bytes>, st: A.State, p: Pos, css: seq<seq<ValidChunk>>)
    requires env.cfg.Valid() && T.Inv(env.cfg, st) && Fine(env) && Fine(env.(frames := frames))
    requires HeadTracked(env, st, p, 1, 0) && p.n > 0 && p.k in env.big
    requires css != [] && Packed(css, env.dense) && Goes(env.(frames := frames), LostAt(env, p.k), Flatten(css))
    ensures T.FeedPackets(env.cfg, st, EncodePackets(css)).1
            == Coming(env.(frames := frames), LostAt(env, p.k), Flatten(css))
  {
    var env', p0 := env.(frames := frames), LostAt(env, p.k);
    hide Fine, Goes, Coming, HeadTracked, Tracked, T.Inv, T.FeedPacket, AfterAll;
    GoesSplit(env', p0, css[0], Flatten(css[1..]));
    RestartPacket(env, frames, st, p, css[0]);
    var (st', outs) := T.FeedPacket(env.cfg, st, EncodeChunks(css[0]));
    assert Packed(css[1..], env.dense);
    AssemblerDecodes(env', st', AfterAll(p0, css[0]), css[1..]);
    assert EncodePackets(css)[1..] == EncodePackets(css[1..]);
  }

  // ---------- the stream of the frames sent after the cancelled one ----------

  /** Pretending that `n` chunks of the first frame have gone by adds to its count and to nothing else. */
  lemma {:induction false} CountsFrom(p: Pos, n: nat, cs: seq<ValidChunk>)
    requires p.n <= n
    ensures var a, b := ChunkCounts(p.n, cs), ChunkCounts(n, cs);
            && |a| == |b| && (a != [] ==> a[1..] == b[1..] && AfterAll(p.(n := n), cs) == AfterAll(p, cs))
    decreases |cs|
  {
    if cs != [] && !cs[0].last {
      CountsFrom(After(p, cs[0]), n + 1, cs[1..]);
    }
  }

  /** Of frames that all fit, the first of which is lost, the others come out. */
  lemma LostGoes(env: Env, k: nat, cs: seq<ValidChunk>)
    requires k < |env.frames| && k in env.big
    requires Follows(env.frames, Pos(k, 0, 0), cs) && AllWithin(env.cfg.numChunks, ChunkCounts(0, cs))
    requires AfterAll(Pos(k, 0, 0), cs).k == |env.frames| && AfterAll(Pos(k, 0, 0), cs).used == 0
    requires AfterAll(Pos(k, 0, 0), cs).n == 0
    ensures Goes(env, LostAt(env, k), cs)
    ensures Coming(env, LostAt(env, k), cs) == env.frames[k + 1..]
  {
    var p0, limit := LostAt(env, k), env.cfg.numChunks;
    var a, b := ChunkCounts(0, cs), ChunkCounts(limit, cs);
    FollowsAnyCount(env.frames, Pos(k, 0, 0), limit, cs);
    CountsAppend(Pos(k, 0, 0), cs, []);
    CountsFrom(Pos(k, 0, 0), limit, cs);
    assert cs + [] == cs;
    forall i | 0 <= i < |b| ensures i == 0 || b[i] <= limit {
      assert i > 0 ==> b[i] == b[1..][i - 1] == a[1..][i - 1] == a[i];
    }
    assert Goes(env, p0, cs);
    FittingAll(limit, env.frames[k + 1..], a[1..]);
    assert AllWithin(limit, a[1..]);
    assert env.frames[k..][1..] == env.frames[k + 1..];
    assert b[0] > limit;
    assert Coming(env, p0, cs) == [] + Fitting(limit, env.frames[k + 1..], b[1..]);
  }

  // ---------- the run ----------

  /** The run up to the cancellation: the frames before are out, and the beginning of the cancelled one is held. */
  lemma UntilCancel(dcfg: D.Config, env: Env, tr: Trace, done: seq<bytes>, css: seq<seq<ValidChunk>>, cs: seq<ValidChunk>)
    returns (p: Pos)
    requires dcfg.Valid() && env.cfg.Valid() && dcfg.inputMtu <= env.cfg.mtu
    requires Explained(dcfg, env.cfg.numChunks, Origin([], 0), tr, done, css, cs)
    requires AllWithin(env.cfg.numChunks, ChunkCounts(0, Flatten(css)))
    requires AfterAll(START, Flatten(css)).n < env.cfg.numChunks
    requires tr.st.input.Some? && tr.st.input.value.used > 0
    requires env == Env(env.cfg, done + [tr.st.input.value.frame], {|done|}, MaxPerPacket(dcfg))
    ensures Fine(env) && T.Inv(env.cfg, A.Initial(env.cfg))
    ensures var (st, outs) := T.FeedPackets(env.cfg, A.Initial(env.cfg), tr.packets);
            HeadTracked(env, st, p, 1, 0) && p.n > 0 && p.k == |done| && outs == done
  {
    var limit := env.cfg.numChunks;
    p := AfterAll(START, Flatten(css));
    assert cs == [] && Flatten(css) + [] == Flatten(css);
    EmptyUnit(EncodePackets(css));
    HeldArePacked(dcfg, [], tr.packets, tr.st.out, css, cs);
    BegunFits(dcfg, tr.st, done, env.cfg.mtu);
    InitialTracked(env);
    CountsAppend(START, Flatten(css), []);
    FittingAll(limit, env.frames, ChunkCounts(0, Flatten(css)));
    assert env.frames[0..] == env.frames && env.frames[..|done|] == done;
    hide SlotsSuffice, Advanced, Follows, ChunkCounts, AfterAll, Flatten, T.FeedPackets;
    AssemblerDecodes(env, A.Initial(env.cfg), START, css);
  }

  /** Cancelling with nothing written, or starting afresh after a frame of which something was, keeps the run explained. */
  lemma AfterCancel(cfg: D.Config, slots: nat, tr: Trace, done: seq<bytes>, css: seq<seq<ValidChunk>>, cs: seq<ValidChunk>)
    requires cfg.Valid() && Explained(cfg, slots, Origin([], 0), tr, done, css, cs) && tr.st.input.Some?
    ensures var tr' := Advance(cfg, tr, D.Cancel);
            && tr'.sent == done && tr'.packets == tr.packets
            && Explained(cfg, slots, Origin(tr.packets, |done|), tr', done, [], [])
            && (tr.st.input.value.used == 0 ==> Explained(cfg, slots, Origin([], 0), tr', done, css, cs))
  {
    assert tr.sent[..|tr.sent| - 1] == done;
    assert EncodePackets([]) == [] && tr.packets + [] == tr.packets;
    assert Flatten([]) + [] == [];
    assert Follows(done, Pos(|done|, 0, 0), []);
  }

  /** The stream of a drained run that began with frame `o.k`. */
  lemma DrainedStream(cfg: D.Config, slots: nat, o: Origin, tr: Trace, done: seq<bytes>,
                      css: seq<seq<ValidChunk>>, cs: seq<ValidChunk>)
    requires cfg.Valid() && Explained(cfg, slots, o, tr, done, css, cs) && Drained(tr.st)
    ensures var p, stream := Pos(o.k, 0, 0), Flatten(css);
            && Follows(tr.sent, p, stream)
            && AfterAll(p, stream) == Pos(|tr.sent|, 0, 0)
            && FramesFit(tr.sent, cfg.inputMtu) && tr.packets == o.packets + EncodePackets(css)
            && Packed(css, MaxPerPacket(cfg))
  {
    hide Follows, SlotsSuffice;
    EncodedNonEmpty(cs);
    EmptyUnit(Flatten(css));
    EmptyUnit(done);
    HeldArePacked(cfg, o.packets, tr.packets, tr.st.out, css, cs);
  }

  /** The frames sent after one that was cancelled too late: the first of them is lost, and no other. */
  lemma SinceCancel(dcfg: D.Config, env: Env, st: A.State, p: Pos, tr: Trace, before: seq<bytes>, done: seq<bytes>,
                    css: seq<seq<ValidChunk>>, cs: seq<ValidChunk>)
    requires dcfg.Valid() && dcfg.inputMtu <= env.cfg.mtu && AllWithin(env.cfg.numChunks, ChunkCounts(0, Flatten(css)))
    requires env.cfg.Valid() && T.Inv(env.cfg, st) && Fine(env)
    requires env.dense == MaxPerPacket(dcfg) && env.big == {p.k} && IdsApart(env.cfg, |tr.sent|, {p.k}, env.dense)
    requires HeadTracked(env, st, p, 1, 0) && p.n > 0
    requires Explained(dcfg, env.cfg.numChunks, Origin(before, p.k), tr, done, css, cs)
    requires Drained(tr.st) && p.k < |tr.sent|
    ensures tr.packets == before + EncodePackets(css)
    ensures T.FeedPackets(env.cfg, st, EncodePackets(css)).1 == tr.sent[p.k + 1..]
  {
    var env' := env.(frames := tr.sent);
    hide Explained, Follows, AfterAll, HeadTracked, T.Inv, T.FeedPackets, IdsApart, Goes, Coming;
    DrainedStream(dcfg, env.cfg.numChunks, Origin(before, p.k), tr, done, css, cs);
    assert css != [] by {
      if css == [] {
        AfterNothing(Pos(p.k, 0, 0));
      }
    }
    assert FramesFit(tr.sent, env.cfg.mtu);
    LostGoes(env', p.k, Flatten(css));
    RestartDecodes(env, tr.sent, st, p, css);
  }

  lemma AfterNothing(p: Pos)
    ensures AfterAll(p, Flatten([])) == p
  {
  }

  /** The packets finished after those in `before`. */
  function Later(before: seq<bytes>, packets: seq<bytes>): seq<bytes> {
    if |before| <= |packets| then packets[|before|..] else []
  }

  /**
   * No frame is cut into more than `limit` chunks: none of those that end before the cancel or after it, and
   * the cancelled one had fewer when it was cancelled.
   */
  ghost predicate FewChunks(limit: nat, before: seq<bytes>, packets: seq<bytes>) {
    && AllWithin(limit, CutInto(before)) && AfterAll(START, ChunksIn(before)).n < limit
    && AllWithin(limit, CutInto(Later(before, packets)))
  }

  lemma {:induction false} ChunksInAppend(a: seq<bytes>, b: seq<bytes>)
    ensures ChunksIn(a + b) == ChunksIn(a) + ChunksIn(b)
    decreases |a|
  {
    hide ReadChunks;
    if a == [] {
      assert a + b == b;
    } else {
      assert (a + b)[0] == a[0] && (a + b)[1..] == a[1..] + b;
      ChunksInAppend(a[1..], b);
      Assoc(ReadChunks(a[0]), ChunksIn(a[1..]), ChunksIn(b));
    }
  }

  lemma LaterIs(before: seq<bytes>, css: seq<seq<ValidChunk>>)
    ensures CutInto(Later(before, before + EncodePackets(css))) == ChunkCounts(0, Flatten(css))
  {
    assert (before + EncodePackets(css))[|before|..] == EncodePackets(css);
    ChunksInEncoded(css);
  }

  /** The chunks of a run in which a frame waits are all in finished packets. */
  lemma WaitingStream(cfg: D.Config, slots: nat, tr: Trace, done: seq<bytes>, css: seq<seq<ValidChunk>>, cs: seq<ValidChunk>)
    requires cfg.Valid() && Explained(cfg, slots, Origin([], 0), tr, done, css, cs) && tr.st.input.Some?
    ensures ChunksIn(tr.packets) == Flatten(css)
    ensures tr.st.input.value.used == 0 ==> AfterAll(START, Flatten(css)).n == 0
  {
    EmptyUnit(EncodePackets(css));
    EmptyUnit(Flatten(css));
    ChunksInEncoded(css);
    hide Follows, ChunkCounts;
  }

  /** A frame cancelled in time: the run is an allowed one throughout. */
  lemma TimelyCancel(dcfg: D.Config, acfg: A.Config, before: seq<bytes>, more: seq<seq<ValidChunk>>, tr: Trace,
                     done: seq<bytes>, css: seq<seq<ValidChunk>>, cs: seq<ValidChunk>)
    requires dcfg.Valid() && acfg.Valid() && dcfg.inputMtu <= acfg.mtu && Drained(tr.st)
    requires Explained(dcfg, acfg.numChunks, Origin([], 0), tr, done, css, cs)
    requires tr.packets == before + EncodePackets(more) && FewChunks(acfg.numChunks, before, tr.packets)
    requires AfterAll(START, ChunksIn(before)).n == 0
    ensures T.Inv(acfg, A.Initial(acfg)) && T.FeedPackets(acfg, A.Initial(acfg), tr.packets).1 == tr.sent
  {
    var limit, later := acfg.numChunks, EncodePackets(more);
    hide Explained, T.FeedPackets, T.Inv, ChunkCounts, AfterAll, EncodePackets, ChunksIn;
    assert Later(before, tr.packets) == later;
    ChunksInAppend(before, later);
    CountsAppend(START, ChunksIn(before), ChunksIn(later));
    WithinAppend(limit, CutInto(before), CutInto(later));
    ExplainedCounts(dcfg, limit, tr, done, css, cs);
    ExplainedDecodes(dcfg, acfg, tr, done, css, cs);
    FittingAll(limit, tr.sent, CutInto(tr.packets));
  }

  /**
   * Cancelling, exactly. Take any allowed run, cancel the frame that is waiting, and go on with any
   * allowed run in which at least one more frame is sent and the disassembler ends up drained, to an
   * assembler with as many chunk slots as any frame takes. Everything that was sent comes out if and only
   * if the cancel came before any chunk of the frame was written; otherwise exactly the next frame is lost.
   * If that is the only frame sent afterwards, ids are apart.
   */
  lemma CancelExactly(dcfg: D.Config, acfg: A.Config, evs: seq<D.Event>, more: seq<D.Event>)
    requires dcfg.Valid() && acfg.Valid() && dcfg.inputMtu <= acfg.mtu
    requires AllAllowed(dcfg, EMPTY, evs)
    requires var tr := AdvanceAll(dcfg, EMPTY, evs);
             && tr.st.input.Some?
             && var tr1 := Advance(dcfg, tr, D.Cancel);
             && AllAllowed(dcfg, tr1, more)
             && var tr2 := AdvanceAll(dcfg, tr1, more);
             && Drained(tr2.st) && |tr1.sent| < |tr2.sent|
             && FewChunks(acfg.numChunks, tr.packets, tr2.packets)
             && IdsApart(acfg, |tr2.sent|, {|tr1.sent|}, MaxPerPacket(dcfg))
    ensures T.Inv(acfg, A.Initial(acfg))
    ensures var tr := AdvanceAll(dcfg, EMPTY, evs);
            var tr1 := Advance(dcfg, tr, D.Cancel);
            var tr2 := AdvanceAll(dcfg, tr1, more);
            var frames := T.FeedPackets(acfg, A.Initial(acfg), tr2.packets).1;
            && (tr.st.input.value.used > 0 ==> frames == tr1.sent + tr2.sent[|tr1.sent| + 1..])
            && (frames == tr2.sent <==> tr.st.input.value.used == 0)
  {
    hide Explained, T.FeedPackets, AdvanceAll, AllAllowed, IdsApart, T.Inv, HeadTracked, Fine, AfterAll, ChunksIn, Later;
    var slots := acfg.numChunks;
    EmptyExplained(dcfg, slots);
    var done, css, cs := RunExplained(dcfg, slots, Origin([], 0), EMPTY, evs, [], [], []);
    var tr := AdvanceAll(dcfg, EMPTY, evs);
    WaitingStream(dcfg, slots, tr, done, css, cs);
    AfterCancel(dcfg, slots, tr, done, css, cs);
    var tr1 := Advance(dcfg, tr, D.Cancel);
    var tr2 := AdvanceAll(dcfg, tr1, more);
    var done2, css2, cs2 := RunExplained(dcfg, slots, Origin(tr.packets, |done|), tr1, more, done, [], []);
    DrainedStream(dcfg, slots, Origin(tr.packets, |done|), tr2, done2, css2, cs2);
    if tr.st.input.value.used == 0 {
      var done3, css3, cs3 := RunExplained(dcfg, slots, Origin([], 0), tr1, more, done, css, cs);
      TimelyCancel(dcfg, acfg, tr.packets, css2, tr2, done3, css3, cs3);
    } else {
      LaterIs(tr.packets, css2);
      var env := Env(acfg, done + [tr.st.input.value.frame], {|done|}, MaxPerPacket(dcfg));
      var p := UntilCancel(dcfg, env, tr, done, css, cs);
      var st := T.FeedPackets(acfg, A.Initial(acfg), tr.packets).0;
      SinceCancel(dcfg, env, st, p, tr2, tr.packets, done2, css2, cs2);
      FeedAppend(acfg, A.Initial(acfg), tr.packets, EncodePackets(css2));
    }
  }

  /** Slots that suffice for every frame of the disassembler are as many as any frame takes. */
  lemma SlotsAreEnough(dcfg: D.Config, slots: nat, evs: seq<D.Event>, more: seq<D.Event>)
    requires dcfg.Valid() && SlotsSuffice(dcfg, slots) && AllAllowed(dcfg, EMPTY, evs)
    requires var tr := AdvanceAll(dcfg, EMPTY, evs);
             tr.st.input.Some? && AllAllowed(dcfg, Advance(dcfg, tr, D.Cancel), more)
    ensures var tr := AdvanceAll(dcfg, EMPTY, evs);
            FewChunks(slots, tr.packets, AdvanceAll(dcfg, Advance(dcfg, tr, D.Cancel), more).packets)
  {
    hide Explained, AdvanceAll, AllAllowed, SlotsSuffice, AfterAll, ChunksIn, Later;
    EmptyExplained(dcfg, slots);
    var done, css, cs := RunExplained(dcfg, slots, Origin([], 0), EMPTY, evs, [], [], []);
    var tr := AdvanceAll(dcfg, EMPTY, evs);
    WaitingStream(dcfg, slots, tr, done, css, cs);
    ExplainedWithin(dcfg, slots, Origin([], 0), tr, done, css, cs);
    AfterCancel(dcfg, slots, tr, done, css, cs);
    var o, tr1 := Origin(tr.packets, |done|), Advance(dcfg, tr, D.Cancel);
    var done2, css2, cs2 := RunExplained(dcfg, slots, o, tr1, more, done, [], []);
    ExplainedWithin(dcfg, slots, o, AdvanceAll(dcfg, tr1, more), done2, css2, cs2);
    LaterIs(tr.packets, css2);
  }

  /** With slots that suffice, the frames that end in the finished packets, and one that waits, have taken no more. */
  lemma ExplainedWithin(cfg: D.Config, slots: nat, o: Origin, tr: Trace, done: seq<bytes>,
                        css: seq<seq<ValidChunk>>, cs: seq<ValidChunk>)
    requires cfg.Valid() && SlotsSuffice(cfg, slots) && Explained(cfg, slots, o, tr, done, css, cs)
    ensures AllWithin(slots, ChunkCounts(0, Flatten(css))) && tr.packets == o.packets + EncodePackets(css)
    ensures tr.st.input.Some? && o.k == 0 ==> AfterAll(START, Flatten(css)).n < slots
  {
    var counts := ChunkCounts(0, Flatten(css));
    CountsAppend(Pos(o.k, 0, 0), Flatten(css), cs);
    forall i | 0 <= i < |counts| ensures counts[i] <= slots {
      assert counts[i] == ChunkCounts(0, Flatten(css) + cs)[i];
    }
    if tr.st.input.Some? && o.k == 0 {
      EmptyUnit(Flatten(css));
      var p := AfterAll(START, Flatten(css));
      SlotLeft(cfg, slots, p.used, p.n);
    }
  }

  // ---------- a run in which a frame is lost ----------

  const DCFG := D.Config(2, HEADER_SIZE + 1, -1, -1)
  const ACFG := A.Config(2, 1, 3)

  const BEFORE: seq<D.Event> := [D.Recv, D.Send([1, 2])]
  const AFTER: seq<D.Event> := [D.Recv, D.Send([3, 4]), D.Recv]

  lemma FillOne(frame: bytes, used: nat)
    requires |frame| == 2 && used < 2
    ensures D.Fill(DCFG, 0, frame, used, []).0 == used + 1 && |D.Fill(DCFG, 0, frame, used, []).1| == HEADER_SIZE + 1
  {
    assert frame[used..used + 1] == [frame[used]];
    var c := D.NextChunk(DCFG, 0, frame, used, 0);
    assert [] + EncodeChunk(c) == EncodeChunk(c);
  }

  lemma AllowedTwo(tr: Trace, a: D.Event, b: D.Event)
    requires D.Inv(DCFG, tr.st) && Allowed(DCFG, tr.st, a) && Allowed(DCFG, Advance(DCFG, tr, a).st, b)
    ensures AllAllowed(DCFG, tr, [a, b])
    ensures AdvanceAll(DCFG, tr, [a, b]) == Advance(DCFG, Advance(DCFG, tr, a), b)
  {
    hide D.Inv, D.Step;
    var tr' := Advance(DCFG, tr, a);
    var tr'' := Advance(DCFG, tr', b);
    assert [a, b][1..] == [b] && [b][1..] == [];
    assert AllAllowed(DCFG, tr'', []) && AdvanceAll(DCFG, tr'', []) == tr'';
    assert AllAllowed(DCFG, tr', [b]) && AdvanceAll(DCFG, tr', [b]) == tr'';
  }

  lemma AllowedThree(tr: Trace, a: D.Event, b: D.Event, c: D.Event)
    requires D.Inv(DCFG, tr.st) && Allowed(DCFG, tr.st, a)
    requires var tr' := Advance(DCFG, tr, a);
             Allowed(DCFG, tr'.st, b) && Allowed(DCFG, Advance(DCFG, tr', b).st, c)
    ensures AllAllowed(DCFG, tr, [a, b, c])
    ensures AdvanceAll(DCFG, tr, [a, b, c]) == Advance(DCFG, Advance(DCFG, Advance(DCFG, tr, a), b), c)
  {
    AllowedTwo(Advance(DCFG, tr, a), b, c);
    assert [a, b, c][1..] == [b, c];
  }

  /** The frame [1, 2] is cancelled after its first chunk, and [3, 4] is then sent in full, but nothing comes out. */
  lemma LateCancel()
    ensures AllAllowed(DCFG, EMPTY, BEFORE)
    ensures var tr := AdvanceAll(DCFG, EMPTY, BEFORE);
            && tr.st.input == Some(D.Input([1, 2], 1))
            && var tr1 := Advance(DCFG, tr, D.Cancel);
            && AllAllowed(DCFG, tr1, AFTER)
            && var tr2 := AdvanceAll(DCFG, tr1, AFTER);
            && Drained(tr2.st) && tr2.sent == [[3, 4]]
            && T.Inv(ACFG, A.Initial(ACFG))
            && T.FeedPackets(ACFG, A.Initial(ACFG), tr2.packets).1 == []
  {
    FillOne([1, 2], 0);
    FillOne([3, 4], 0);
    FillOne([3, 4], 1);
    hide D.Fill, AllAllowed, AdvanceAll, T.FeedPackets, T.Inv;
    var t1 := Advance(DCFG, EMPTY, D.Recv);
    var t2 := Advance(DCFG, t1, D.Send([1, 2]));
    assert t2.st == D.State(0, Some(D.Input([1, 2], 1)), None, false);
    AllowedTwo(EMPTY, D.Recv, D.Send([1, 2]));
    var t3 := Advance(DCFG, t2, D.Cancel);
    var t4 := Advance(DCFG, t3, D.Recv);
    var t5 := Advance(DCFG, t4, D.Send([3, 4]));
    assert t5.st == D.State(0, Some(D.Input([3, 4], 1)), None, false);
    var t6 := Advance(DCFG, t5, D.Recv);
    assert t6.st == D.State(1, None, None, false) && t6.sent == [[3, 4]] && t3.sent == [];
    AllowedThree(t3, D.Recv, D.Send([3, 4]), D.Recv);
    SlotsAreEnough(DCFG, ACFG.numChunks, BEFORE, AFTER);
    CancelExactly(DCFG, ACFG, BEFORE, AFTER);
  }
}
