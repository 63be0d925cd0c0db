/**
 * The fragmentation round trip: frames that are split, packed into packets and delivered in order
 * come out of the assembler as they went into the disassembler, if they were cut into few enough chunks.
 */
module FragmentRoundTrip {
  import opened Bytes
  import opened Sequences
  import opened FragmentProto
  import opened FragmentStream
  import opened Options
  import A = FragmentAssembler
  import T = FragmentTiling
  import D = FragmentDisassembler

  // ---------- the disassembler produces the stream ----------

  /** The number of chunks that the client reserves for a frame (`fragmentproto_max_chunks_for_frame`). */
  function MaxChunksForFrame(carrierMtu: nat, frameMtu: nat): nat
    requires carrierMtu > HEADER_SIZE
  {
    var c := carrierMtu - HEADER_SIZE;
    (if frameMtu % c > 0 then frameMtu / c + 1 else frameMtu / c) + 1
  }

  /** Whether a chunk may always fill the rest of a packet. */
  predicate FillsPackets(cfg: D.Config) {
    cfg.chunkMtu < 0 || cfg.outputMtu <= cfg.chunkMtu + HEADER_SIZE
  }

  /**
   * Chunk slots that suffice for every frame of the disassembler: one per byte always does; what
   * the client reserves does when chunks may fill packets, which is how it configures them.
   */
  predicate SlotsSuffice(cfg: D.Config, slots: nat)
    requires cfg.Valid()
  {
    && slots > 0
    && (cfg.inputMtu <= slots || (FillsPackets(cfg) && MaxChunksForFrame(cfg.outputMtu, cfg.inputMtu) <= slots))
  }

  /** Bytes in `n` chunks of which all but the first fill a packet, and the first is not empty. */
  function Reach(cfg: D.Config, n: nat): int
    requires cfg.Valid()
  {
    1 + (n - 1) * (cfg.outputMtu - HEADER_SIZE)
  }

  /** How far `n` chunks must have advanced in a frame that is not finished. */
  predicate Advanced(cfg: D.Config, used: nat, n: nat)
    requires cfg.Valid()
  {
    && n <= used && (used > 0 ==> n > 0)
    && (FillsPackets(cfg) && n > 0 ==> Reach(cfg, n) <= used)
  }

  lemma QuotientBound(n: nat, c: nat, m: nat)
    requires c > 0 && n * c < m
    ensures n < if m % c > 0 then m / c + 1 else m / c
  {
    var q, r := m / c, m % c;
    assert m == q * c + r;
    if r > 0 {
      assert (q + 1) * c == q * c + c;
      MulLess(n, q + 1, c);
    } else {
      MulLess(n, q, c);
    }
  }

  /** There is a slot left for as long as the frame is not finished. */
  lemma SlotLeft(cfg: D.Config, slots: nat, used: nat, n: nat)
    requires cfg.Valid() && SlotsSuffice(cfg, slots) && Advanced(cfg, used, n)
    requires n == 0 || used < cfg.inputMtu
    ensures n < slots
  {
    if n > 0 && slots < cfg.inputMtu {
      QuotientBound(n - 1, cfg.outputMtu - HEADER_SIZE, cfg.inputMtu);
    }
  }

  lemma AdvanceMore(cfg: D.Config, used: nat, n: nat, len: nat)
    requires cfg.Valid() && Advanced(cfg, used, n) && len > 0
    requires FillsPackets(cfg) && n > 0 ==> len == cfg.outputMtu - HEADER_SIZE
    ensures Advanced(cfg, used + len, n + 1)
  {
    if FillsPackets(cfg) && n > 0 {
      assert (n - 1) * len + len == n * len;
    }
  }

  /** The next chunk of a frame continues the stream and advances far enough. */
  lemma NextChunkContinues(cfg: D.Config, slots: nat, frames: seq<bytes>, p: Pos, outUsed: nat)
    requires cfg.Valid() && p.k < |frames|
    requires p.used <= |frames[p.k]| <= cfg.inputMtu && (p.n > 0 ==> p.used < |frames[p.k]|)
    requires D.OutAvail(cfg, outUsed) > 0 && (FillsPackets(cfg) && p.n > 0 ==> outUsed == 0)
    requires Advanced(cfg, p.used, p.n)
    ensures var c := D.NextChunk(cfg, IdOf(p.k), frames[p.k], p.used, outUsed);
            && Continues(frames, p, c)
            && (!c.last ==> Advanced(cfg, c.End(), p.n + 1))
            && (!c.last && FillsPackets(cfg) ==> |c.payload| == D.OutAvail(cfg, outUsed))
            && (c.last && SlotsSuffice(cfg, slots) ==> p.n < slots)
  {
    var c := D.NextChunk(cfg, IdOf(p.k), frames[p.k], p.used, outUsed);
    hide Advanced, SlotsSuffice;
    if c.last {
      if SlotsSuffice(cfg, slots) {
        SlotLeft(cfg, slots, p.used, p.n);
      }
    } else {
      AdvanceMore(cfg, p.used, p.n, |c.payload|);
    }
  }

  lemma CountsCons(n: nat, c: ValidChunk, cs: seq<ValidChunk>)
    ensures ([c] + cs)[1..] == cs
    ensures ChunkCounts(n, [c] + cs) == if c.last then [n + 1] + ChunkCounts(0, cs) else ChunkCounts(n + 1, cs)
    ensures ChunkCounts(n, []) == []
  {
    assert ([c] + cs)[1..] == cs;
  }

  lemma EncodeCons(out: bytes, c: ValidChunk, cs: seq<ValidChunk>)
    ensures out + EncodeChunks([c] + cs) == out + EncodeChunk(c) + EncodeChunks(cs)
    ensures ([c] + cs)[1..] == cs
    ensures cs == [] ==> EncodeChunks(cs) == [] && out + EncodeChunks([c] + cs) == out + EncodeChunk(c)
  {
    hide EncodeChunk;
    assert ([c] + cs)[1..] == cs;
  }

  /** Filling a packet appends chunks that continue the stream, and no more of them than suffice. */
  lemma {:induction false} FillFollows(cfg: D.Config, slots: nat, frames: seq<bytes>, p: Pos, out: bytes)
    returns (cs: seq<ValidChunk>)
    requires cfg.Valid() && p.k < |frames|
    requires p.used <= |frames[p.k]| <= cfg.inputMtu && (p.n > 0 ==> p.used < |frames[p.k]|)
    requires D.OutAvail(cfg, |out|) > 0 && (FillsPackets(cfg) && p.n > 0 ==> out == [])
    requires Advanced(cfg, p.used, p.n)
    ensures var (used, out') := D.Fill(cfg, IdOf(p.k), frames[p.k], p.used, out);
            var q := AfterAll(p, cs);
            && cs != [] && out' == out + EncodeChunks(cs)
            && Follows(frames, p, cs)
            && (if used == |frames[p.k]| then q == Pos(p.k + 1, 0, 0)
                else q.k == p.k && q.used == used && Advanced(cfg, used, q.n))
    ensures SlotsSuffice(cfg, slots) ==> AllWithin(slots, ChunkCounts(p.n, cs))
    decreases |frames[p.k]| - p.used
  {
    hide Advanced, FillsPackets, SlotsSuffice, Continues, ChunkCounts, EncodeChunk, IdOf, D.NextChunk;
    var c := D.NextChunk(cfg, IdOf(p.k), frames[p.k], p.used, |out|);
    NextChunkContinues(cfg, slots, frames, p, |out|);
    var out1 := out + EncodeChunk(c);
    if !c.last && D.OutAvail(cfg, |out1|) > 0 {
      var p' := After(p, c);
      ContinuesFacts(frames, p, c);
      var ds := FillFollows(cfg, slots, frames, p', out1);
      cs := [c] + ds;
      EncodeCons(out, c, ds);
      CountsCons(p.n, c, ds);
    } else {
      cs := [c] + [];
      EncodeCons(out, c, []);
      CountsCons(p.n, c, []);
    }
  }

  lemma ContinuesFacts(frames: seq<bytes>, p: Pos, c: ValidChunk)
    requires Continues(frames, p, c)
    ensures c.End() == p.used + |c.payload| && (c.last <==> c.End() == |frames[p.k]|) && (!c.last ==> |c.payload| > 0)
  {
  }

  // ---------- runs of the disassembler ----------

  /** The disassembler's state, the packets it has finished, and the frames given to it and not cancelled. */
  datatype Trace = Trace(st: D.State, packets: seq<bytes>, sent: seq<bytes>)

  function Advance(cfg: D.Config, tr: Trace, ev: D.Event): (r: Trace)
    requires cfg.Valid() && D.Inv(cfg, tr.st) && D.Enabled(cfg, tr.st, ev)
    ensures D.Inv(cfg, r.st)
  {
    var (st, eff) := D.Step(cfg, tr.st, ev);
    Trace(st,
          tr.packets + (if eff.packet.Some? then [eff.packet.value] else []),
          match ev
          case Send(frame) => tr.sent + [frame]
          case Cancel => if tr.sent == [] then [] else tr.sent[..|tr.sent| - 1]
          case _ => tr.sent)
  }

  /** A frame may be cancelled as long as no chunk of it has been written. */
  predicate Allowed(cfg: D.Config, st: D.State, ev: D.Event) {
    D.Enabled(cfg, st, ev) && (ev.Cancel? ==> st.input.value.used == 0)
  }

  predicate AllAllowed(cfg: D.Config, tr: Trace, evs: seq<D.Event>)
    requires cfg.Valid() && D.Inv(cfg, tr.st)
    decreases |evs|
  {
    evs == [] || (Allowed(cfg, tr.st, evs[0]) && AllAllowed(cfg, Advance(cfg, tr, evs[0]), evs[1..]))
  }

  function AdvanceAll(cfg: D.Config, tr: Trace, evs: seq<D.Event>): (r: Trace)
    requires cfg.Valid() && D.Inv(cfg, tr.st) && AllAllowed(cfg, tr, evs)
    ensures D.Inv(cfg, r.st)
    decreases |evs|
  {
    if evs == [] then tr else AdvanceAll(cfg, Advance(cfg, tr, evs[0]), evs[1..])
  }

  function Waiting(st: D.State): seq<bytes> {
    if st.input.Some? then [st.input.value.frame] else []
  }

  function UsedOf(st: D.State): nat {
    if st.input.Some? then st.input.value.used else 0
  }

  /** The frames of which chunks have been written: those done, and the current one once it has begun. */
  function Begun(st: D.State, done: seq<bytes>): seq<bytes> {
    if UsedOf(st) > 0 then done + Waiting(st) else done
  }

  /** Where a stream of chunks began: the packets finished and the number of frames completed by then. */
  datatype Origin = Origin(packets: seq<bytes>, k: nat)

  /** The packets finished since and the one being filled are the chunks `css` and `cs`, encoded. */
  ghost predicate PacketsHold(cfg: D.Config, before: seq<bytes>, packets: seq<bytes>, out: Option<bytes>,
                              css: seq<seq<ValidChunk>>, cs: seq<ValidChunk>) {
    && packets == before + EncodePackets(css)
    && (forall i :: 0 <= i < |css| ==> css[i] != [] && |EncodeChunks(css[i])| <= cfg.outputMtu)
    && if out.Some? then out.value == EncodeChunks(cs) else cs == []
  }

  /** The stream of chunks `sent` belongs to the frames `frames` from `from` on, and has reached frame `k`, byte `used`. */
  ghost predicate Reached(cfg: D.Config, slots: nat, from: nat, frames: seq<bytes>, sent: seq<ValidChunk>, k: nat, used: nat)
    requires cfg.Valid()
  {
    var p := AfterAll(Pos(from, 0, 0), sent);
    && Follows(frames, Pos(from, 0, 0), sent)
    && p.k == k && p.used == used && Advanced(cfg, used, p.n)
    && (SlotsSuffice(cfg, slots) ==> AllWithin(slots, ChunkCounts(0, sent)))
  }

  /** The packets finished so far and the one being filled hold the chunks of the frames begun so far. */
  ghost predicate Explained(cfg: D.Config, slots: nat, o: Origin, tr: Trace, done: seq<bytes>,
                            css: seq<seq<ValidChunk>>, cs: seq<ValidChunk>)
    requires cfg.Valid()
  {
    && D.Inv(cfg, tr.st)
    && PacketsHold(cfg, o.packets, tr.packets, tr.st.out, css, cs)
    && tr.sent == done + Waiting(tr.st)
    && FramesFit(done, cfg.inputMtu)
    && tr.st.frameId == IdOf(|done|)
    && Reached(cfg, slots, o.k, Begun(tr.st, done), Flatten(css) + cs, |done|, UsedOf(tr.st))
  }

  lemma PacketsSnoc(css: seq<seq<ValidChunk>>, cs: seq<ValidChunk>)
    ensures EncodePackets(css + [cs]) == EncodePackets(css) + [EncodeChunks(cs)]
    ensures Flatten(css + [cs]) == Flatten(css) + cs
  {
    hide EncodeChunks;
    PacketsAppend(css, [cs]);
    assert [cs][1..] == [] && EncodePackets([]) == [] && Flatten([]) == [];
    EmptyUnit(cs);
  }

  lemma WithinAppend(limit: nat, a: seq<nat>, b: seq<nat>)
    requires AllWithin(limit, a) && AllWithin(limit, b)
    ensures AllWithin(limit, a + b)
  {
  }

  /** Writing chunks of the frame after `done` extends the stream, from where it was to where it is. */
  lemma FillReaches(cfg: D.Config, slots: nat, from: nat, done: seq<bytes>, input: D.Input, sent: seq<ValidChunk>, out: bytes)
    returns (more: seq<ValidChunk>)
    requires cfg.Valid()
    requires |input.frame| <= cfg.inputMtu && input.used <= |input.frame|
    requires input.used > 0 ==> input.used < |input.frame| && out == []
    requires D.OutAvail(cfg, |out|) > 0
    requires Reached(cfg, slots, from, if input.used > 0 then done + [input.frame] else done, sent, |done|, input.used)
    ensures var (used, out') := D.Fill(cfg, IdOf(|done|), input.frame, input.used, out);
            && more != [] && out' == out + EncodeChunks(more)
            && (if used == |input.frame| then Reached(cfg, slots, from, done + [input.frame], sent + more, |done| + 1, 0)
                else Reached(cfg, slots, from, done + [input.frame], sent + more, |done|, used))
  {
    var frames := done + [input.frame];
    var start := Pos(from, 0, 0);
    var p := AfterAll(start, sent);
    if input.used == 0 {
      FollowsMoreFrames(done, [input.frame], start, sent);
    }
    assert frames[p.k] == input.frame;
    assert p.n > 0 ==> p.used > 0;
    hide Follows, AfterAll, ChunkCounts, SlotsSuffice;
    more := FillFollows(cfg, slots, frames, p, out);
    FollowsAppend(frames, start, sent, more);
    CountsAppend(start, sent, more);
    if SlotsSuffice(cfg, slots) {
      WithinAppend(slots, ChunkCounts(0, sent), ChunkCounts(p.n, more));
    }
  }

  /** Appending chunks to the packet being filled, and finishing it or not. */
  lemma PacketGrows(cfg: D.Config, before: seq<bytes>, packets: seq<bytes>, out: bytes, css: seq<seq<ValidChunk>>,
                    cs: seq<ValidChunk>, more: seq<ValidChunk>, finished: bool)
    returns (css': seq<seq<ValidChunk>>, cs': seq<ValidChunk>)
    requires PacketsHold(cfg, before, packets, Some(out), css, cs) && more != []
    requires |out + EncodeChunks(more)| <= cfg.outputMtu
    ensures var out' := out + EncodeChunks(more);
            PacketsHold(cfg, before, packets + (if finished then [out'] else []),
                        if finished then None else Some(out'), css', cs')
    ensures Flatten(css') + cs' == Flatten(css) + cs + more
  {
    hide EncodeChunks, EncodePackets, Flatten;
    EncodeChunksAppend(cs, more);
    if finished {
      css', cs' := css + [cs + more], [];
      PacketsSnoc(css, cs + more);
      Assoc(before, EncodePackets(css), [EncodeChunks(cs + more)]);
    } else {
      css', cs' := css, cs + more;
      EmptyUnit(packets);
    }
  }

  lemma FitsSnoc(done: seq<bytes>, frame: bytes, mtu: nat)
    requires FramesFit(done, mtu) && |frame| <= mtu
    ensures FramesFit(done + [frame], mtu)
  {
  }

  /** One write: the frame, the packet or both may be finished by it. */
  lemma WriteExplained(cfg: D.Config, slots: nat, o: Origin, packets: seq<bytes>, done: seq<bytes>,
                       css: seq<seq<ValidChunk>>, cs: seq<ValidChunk>, input: D.Input, out: bytes)
    returns (done': seq<bytes>, css': seq<seq<ValidChunk>>, cs': seq<ValidChunk>)
    requires cfg.Valid()
    requires PacketsHold(cfg, o.packets, packets, Some(out), css, cs) && FramesFit(done, cfg.inputMtu)
    requires |input.frame| <= cfg.inputMtu && input.used <= |input.frame|
    requires input.used > 0 ==> input.used < |input.frame| && out == []
    requires D.OutAvail(cfg, |out|) > 0
    requires Reached(cfg, slots, o.k, if input.used > 0 then done + [input.frame] else done, Flatten(css) + cs, |done|, input.used)
    ensures var (st, eff) := D.WriteChunks(cfg, IdOf(|done|), input, out);
            Explained(cfg, slots, o,
                      Trace(st, packets + (if eff.packet.Some? then [eff.packet.value] else []), done + [input.frame]),
                      done', css', cs')
  {
    hide PacketsHold, Reached, D.Fill, D.Inv, D.OutAvail, FramesFit, Flatten, IdOf, NextId;
    IdOfNext(|done|);
    FitsSnoc(done, input.frame, cfg.inputMtu);
    EmptyUnit(done + [input.frame]);
    var more := FillReaches(cfg, slots, o.k, done, input, Flatten(css) + cs, out);
    var (st, eff) := D.WriteChunks(cfg, IdOf(|done|), input, out);
    done' := if eff.inputDone then done + [input.frame] else done;
    css', cs' := PacketGrows(cfg, o.packets, packets, out, css, cs, more, eff.packet.Some?);
  }

  /** Every allowed event keeps the packets explained. */
  lemma StepExplained(cfg: D.Config, slots: nat, o: Origin, tr: Trace, ev: D.Event, done: seq<bytes>,
                      css: seq<seq<ValidChunk>>, cs: seq<ValidChunk>)
    returns (done': seq<bytes>, css': seq<seq<ValidChunk>>, cs': seq<ValidChunk>)
    requires cfg.Valid()
    requires Explained(cfg, slots, o, tr, done, css, cs) && Allowed(cfg, tr.st, ev)
    ensures Explained(cfg, slots, o, Advance(cfg, tr, ev), done', css', cs')
  {
    hide Reached, D.WriteChunks, Flatten, IdOf;
    done', css', cs' := done, css, cs;
    match ev
    case Send(frame) =>
      assert tr.sent == done;
      if tr.st.out.Some? {
        done', css', cs' := WriteExplained(cfg, slots, o, tr.packets, done, css, cs, D.Input(frame, 0), tr.st.out.value);
      }
    case Recv =>
      if tr.st.input.Some? {
        done', css', cs' := WriteExplained(cfg, slots, o, tr.packets, done, css, cs, tr.st.input.value, []);
      }
    case TimerFires =>
      css', cs' := css + [cs], [];
      PacketsSnoc(css, cs);
      assert Flatten(css) + cs + [] == Flatten(css) + cs;
      Assoc(o.packets, EncodePackets(css), [EncodeChunks(cs)]);
    case Cancel =>
      assert tr.sent[..|tr.sent| - 1] == done;
  }

  lemma {:induction false} RunExplained(cfg: D.Config, slots: nat, o: Origin, tr: Trace, evs: seq<D.Event>,
                                        done: seq<bytes>, css: seq<seq<ValidChunk>>, cs: seq<ValidChunk>)
    returns (done': seq<bytes>, css': seq<seq<ValidChunk>>, cs': seq<ValidChunk>)
    requires cfg.Valid()
    requires Explained(cfg, slots, o, tr, done, css, cs) && AllAllowed(cfg, tr, evs)
    ensures Explained(cfg, slots, o, AdvanceAll(cfg, tr, evs), done', css', cs')
    decreases |evs|
  {
    assert D.Inv(cfg, tr.st);
    hide Explained, D.Inv, Allowed, Advance;
    if evs == [] {
      done', css', cs' := done, css, cs;
    } else {
      done', css', cs' := StepExplained(cfg, slots, o, tr, evs[0], done, css, cs);
      done', css', cs' := RunExplained(cfg, slots, o, Advance(cfg, tr, evs[0]), evs[1..], done', css', cs');
    }
  }

  const EMPTY := Trace(D.Initial(), [], [])

  /** Nothing is left in the disassembler: no frame waits, and no chunk is in an unfinished packet. */
  predicate Drained(st: D.State) {
    st.input.None? && (st.out.Some? ==> st.out.value == [])
  }

  lemma EmptyExplained(cfg: D.Config, slots: nat)
    requires cfg.Valid()
    ensures Explained(cfg, slots, Origin([], 0), EMPTY, [], [], [])
  {
  }

  // ---------- the two together ----------

  /** Every chunk takes a header's worth of the packet at least. */
  lemma {:induction false} EncodedSize(cs: seq<ValidChunk>)
    ensures HEADER_SIZE * |cs| <= |EncodeChunks(cs)|
  {
    if cs != [] {
      EncodedSize(cs[1..]);
    }
  }

  /** The most chunks that a packet of the disassembler can hold. */
  function MaxPerPacket(cfg: D.Config): nat {
    cfg.outputMtu / HEADER_SIZE
  }

  lemma HeldArePacked(cfg: D.Config, before: seq<bytes>, packets: seq<bytes>, out: Option<bytes>,
                      css: seq<seq<ValidChunk>>, cs: seq<ValidChunk>)
    requires PacketsHold(cfg, before, packets, out, css, cs)
    ensures Packed(css, MaxPerPacket(cfg))
  {
    forall i | 0 <= i < |css| ensures 0 < |css[i]| <= MaxPerPacket(cfg) {
      EncodedSize(css[i]);
    }
  }

  /** All the chunks that packets carry. */
  function ChunksIn(packets: seq<bytes>): seq<ValidChunk> {
    if packets == [] then [] else ReadChunks(packets[0]) + ChunksIn(packets[1..])
  }

  lemma {:induction false} ChunksInEncoded(css: seq<seq<ValidChunk>>)
    ensures ChunksIn(EncodePackets(css)) == Flatten(css)
  {
    if css != [] {
      ReadChunksEncoded(css[0]);
      ChunksInEncoded(css[1..]);
      assert EncodePackets(css)[1..] == EncodePackets(css[1..]);
    }
  }

  /** Into how many chunks each frame that ends in the packets was cut, as seen on the wire. */
  function CutInto(packets: seq<bytes>): seq<nat> {
    ChunkCounts(0, ChunksIn(packets))
  }

  /** The frames that were cut into more than `limit` chunks. */
  function Oversized(limit: nat, counts: seq<nat>): set<nat> {
    set k | 0 <= k < |counts| && counts[k] > limit
  }

  lemma InitialTracked(env: Env)
    requires env.cfg.Valid()
    ensures T.Inv(env.cfg, A.Initial(env.cfg)) && Tracked(env, A.Initial(env.cfg), START, 1, 0)
  {
    T.InitialInv(env.cfg);
  }

  /** The frames that a stream belongs to: those up to where it breaks off. */
  function Covered(frames: seq<bytes>, cs: seq<ValidChunk>): seq<bytes> {
    var k := AfterAll(START, cs).k;
    if k < |frames| then frames[..k + 1] else frames
  }

  lemma {:induction false} FollowsCovered(frames: seq<bytes>, p: Pos, cs: seq<ValidChunk>, top: nat)
    requires Follows(frames, p, cs) && AfterAll(p, cs).k < top <= |frames|
    ensures Follows(frames[..top], p, cs) && p.k <= AfterAll(p, cs).k
    decreases |cs|
  {
    if cs != [] {
      FollowsCovered(frames, After(p, cs[0]), cs[1..], top);
    }
  }

  /** A stream of frames that fit, with the frames that are too big for the assembler. */
  lemma StreamGoes(acfg: A.Config, frames: seq<bytes>, cs: seq<ValidChunk>, total: nat, dense: nat) returns (env: Env)
    requires acfg.Valid() && FramesFit(frames, acfg.mtu) && |frames| <= total
    requires Follows(frames, START, cs)
    requires IdsApart(acfg, total, Oversized(acfg.numChunks, ChunkCounts(0, cs)), dense)
    ensures env.cfg == acfg && env.dense == dense && env.frames == Covered(frames, cs)
    ensures Fine(env) && Goes(env, START, cs)
  {
    var counts := ChunkCounts(0, cs);
    var q := AfterAll(START, cs);
    env := Env(acfg, Covered(frames, cs), Oversized(acfg.numChunks, counts) + {q.k}, dense);
    if q.k < |frames| {
      FollowsCovered(frames, START, cs, q.k + 1);
    }
    CountsInside(frames, START, cs);
    CountsAppend(START, cs, []);
  }

  lemma {:induction false} FittingCovered(limit: nat, frames: seq<bytes>, more: seq<bytes>, counts: seq<nat>)
    requires |counts| <= |frames| && frames <= more
    ensures Fitting(limit, more, counts) == Fitting(limit, frames, counts)
  {
    if counts != [] {
      FittingCovered(limit, frames[1..], more[1..], counts[1..]);
    }
  }

  lemma BegunFits(cfg: D.Config, st: D.State, done: seq<bytes>, mtu: nat)
    requires D.Inv(cfg, st) && FramesFit(done, cfg.inputMtu) && cfg.inputMtu <= mtu
    ensures FramesFit(Begun(st, done), mtu) && Begun(st, done) <= done + Waiting(st)
  {
  }

  /** What the assembler makes of packets that are explained: of the frames whose chunks are all in them, those that fit. */
  lemma ExplainedDecodes(dcfg: D.Config, acfg: A.Config, tr: Trace, done: seq<bytes>,
                         css: seq<seq<ValidChunk>>, cs: seq<ValidChunk>)
    requires dcfg.Valid() && acfg.Valid() && dcfg.inputMtu <= acfg.mtu
    requires Explained(dcfg, acfg.numChunks, Origin([], 0), tr, done, css, cs)
    requires IdsApart(acfg, |tr.sent|, Oversized(acfg.numChunks, ChunkCounts(0, Flatten(css))), MaxPerPacket(dcfg))
    ensures T.Inv(acfg, A.Initial(acfg))
    ensures var counts := ChunkCounts(0, Flatten(css));
            && |counts| <= |tr.sent|
            && T.FeedPackets(acfg, A.Initial(acfg), tr.packets).1 == Fitting(acfg.numChunks, tr.sent, counts)
  {
    var stream, frames := Flatten(css), Begun(tr.st, done);
    EmptyUnit(EncodePackets(css));
    HeldArePacked(dcfg, [], tr.packets, tr.st.out, css, cs);
    BegunFits(dcfg, tr.st, done, acfg.mtu);
    FollowsAppend(frames, START, stream, cs);
    hide Follows, AfterAll, Flatten, IdsApart, PacketsHold, T.FeedPackets, ChunkCounts, FramesFit, Fine, Goes, Tracked;
    var env := StreamGoes(acfg, frames, stream, |tr.sent|, MaxPerPacket(dcfg));
    InitialTracked(env);
    AssemblerDecodes(env, A.Initial(acfg), START, css);
    ComingFrom(env, stream, tr.sent);
  }

  lemma ComingFrom(env: Env, cs: seq<ValidChunk>, sent: seq<bytes>)
    requires Goes(env, START, cs) && env.frames <= sent
    ensures |ChunkCounts(0, cs)| <= |sent|
    ensures Coming(env, START, cs) == Fitting(env.cfg.numChunks, sent, ChunkCounts(0, cs))
  {
    CountsInside(env.frames, START, cs);
    assert env.frames[0..] == env.frames;
    FittingCovered(env.cfg.numChunks, env.frames, sent, ChunkCounts(0, cs));
  }

  lemma EncodedNonEmpty(cs: seq<ValidChunk>)
    ensures cs != [] ==> EncodeChunks(cs) != []
  {
    if cs != [] {
      assert |EncodeChunk(cs[0])| > 0;
    }
  }

  /** Once the disassembler is drained, all the frames that were sent have ended, and in few enough chunks if slots suffice. */
  lemma ExplainedCounts(cfg: D.Config, slots: nat, tr: Trace, done: seq<bytes>,
                        css: seq<seq<ValidChunk>>, cs: seq<ValidChunk>)
    requires cfg.Valid() && Explained(cfg, slots, Origin([], 0), tr, done, css, cs)
    ensures CutInto(tr.packets) == ChunkCounts(0, Flatten(css))
    ensures |CutInto(tr.packets)| <= |tr.sent|
    ensures Drained(tr.st) ==> |CutInto(tr.packets)| == |tr.sent|
    ensures SlotsSuffice(cfg, slots) ==> AllWithin(slots, CutInto(tr.packets))
  {
    hide SlotsSuffice, Follows, Advanced;
    EmptyUnit(EncodePackets(css));
    ChunksInEncoded(css);
    var counts := ChunkCounts(0, Flatten(css));
    CountsAppend(START, Flatten(css), cs);
    CountsAppend(START, Flatten(css) + cs, []);
    EncodedNonEmpty(cs);
    if SlotsSuffice(cfg, slots) {
      forall i | 0 <= i < |counts| ensures counts[i] <= slots {
        assert counts[i] == ChunkCounts(0, Flatten(css) + cs)[i];
      }
    }
  }

  /**
   * The fragmentation round trip. Take any run of a fresh disassembler, with frames of any lengths,
   * any output and chunk sizes and any latency, in which no frame is cancelled once a chunk of it
   * has been written. Feed the packets to a fresh assembler that has room for the frames. Of the
   * frames whose chunks are all in the packets, which are all of them once the disassembler is
   * drained, it emits exactly those that were cut into at most `numChunks` chunks, in order.
   */
  lemma RoundTrip(dcfg: D.Config, acfg: A.Config, evs: seq<D.Event>)
    requires dcfg.Valid() && acfg.Valid() && dcfg.inputMtu <= acfg.mtu
    requires AllAllowed(dcfg, EMPTY, evs)
    requires var tr := AdvanceAll(dcfg, EMPTY, evs);
             IdsApart(acfg, |tr.sent|, Oversized(acfg.numChunks, CutInto(tr.packets)), MaxPerPacket(dcfg))
    ensures T.Inv(acfg, A.Initial(acfg))
    ensures var tr := AdvanceAll(dcfg, EMPTY, evs);
            var counts := CutInto(tr.packets);
            && |counts| <= |tr.sent| && (Drained(tr.st) ==> |counts| == |tr.sent|)
            && T.FeedPackets(acfg, A.Initial(acfg), tr.packets).1 == Fitting(acfg.numChunks, tr.sent, counts)
  {
    hide Explained, T.FeedPackets, AdvanceAll, AllAllowed, IdsApart;
    EmptyExplained(dcfg, acfg.numChunks);
    var tr := AdvanceAll(dcfg, EMPTY, evs);
    var done, css, cs := RunExplained(dcfg, acfg.numChunks, Origin([], 0), EMPTY, evs, [], [], []);
    ExplainedCounts(dcfg, acfg.numChunks, tr, done, css, cs);
    ExplainedDecodes(dcfg, acfg, tr, done, css, cs);
  }

  lemma ExplainedAll(dcfg: D.Config, acfg: A.Config, tr: Trace, done: seq<bytes>,
                     css: seq<seq<ValidChunk>>, cs: seq<ValidChunk>)
    requires dcfg.Valid() && acfg.Valid() && dcfg.inputMtu <= acfg.mtu && SlotsSuffice(dcfg, acfg.numChunks)
    requires Explained(dcfg, acfg.numChunks, Origin([], 0), tr, done, css, cs)
    ensures T.Inv(acfg, A.Initial(acfg))
    ensures var frames := T.FeedPackets(acfg, A.Initial(acfg), tr.packets).1;
            frames <= tr.sent && (Drained(tr.st) ==> frames == tr.sent)
  {
    hide Explained, T.FeedPackets, SlotsSuffice, CutInto;
    ExplainedCounts(dcfg, acfg.numChunks, tr, done, css, cs);
    ExplainedDecodes(dcfg, acfg, tr, done, css, cs);
    FittingAll(acfg.numChunks, tr.sent, CutInto(tr.packets));
  }

  /**
   * With enough chunk slots everything comes out, past any number of wrapped ids: what is emitted is a
   * prefix of the frames sent, and all of them once the disassembler is drained.
   */
  lemma RoundTripWithSlots(dcfg: D.Config, acfg: A.Config, evs: seq<D.Event>)
    requires dcfg.Valid() && acfg.Valid() && dcfg.inputMtu <= acfg.mtu
    requires SlotsSuffice(dcfg, acfg.numChunks)
    requires AllAllowed(dcfg, EMPTY, evs)
    ensures T.Inv(acfg, A.Initial(acfg))
    ensures var tr := AdvanceAll(dcfg, EMPTY, evs);
            var frames := T.FeedPackets(acfg, A.Initial(acfg), tr.packets).1;
            frames <= tr.sent && (Drained(tr.st) ==> frames == tr.sent)
  {
    hide Explained, T.FeedPackets, AdvanceAll, AllAllowed, SlotsSuffice;
    EmptyExplained(dcfg, acfg.numChunks);
    var done, css, cs := RunExplained(dcfg, acfg.numChunks, Origin([], 0), EMPTY, evs, [], [], []);
    ExplainedAll(dcfg, acfg, AdvanceAll(dcfg, EMPTY, evs), done, css, cs);
  }
}
