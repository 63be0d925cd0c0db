/**
 * A frame that was cut into too many chunks is missed for good, whatever happens later to what is left
 * of it: the chunks of a frame never make more than one frame come out.
 */
module FragmentReuse {
  import opened Bytes
  import opened Sequences
  import opened FragmentProto
  import opened FragmentStream
  import opened FragmentRoundTrip
  import opened Options
  import A = FragmentAssembler
  import T = FragmentTiling
  import D = FragmentDisassembler

  // ---------- a frame comes out at most once ----------

  /** The chunks that arrive. */
  function ChunksOf(es: seq<T.Event>): seq<ValidChunk> {
    if es == [] then [] else (if es[0].Arrive? then [es[0].chunk] else []) + ChunksOf(es[1..])
  }

  lemma ChunksOfCons(es: seq<T.Event>)
    requires es != []
    ensures es[0].Arrive? ==> ChunksOf(es) != [] && ChunksOf(es)[0] == es[0].chunk && ChunksOf(es)[1..] == ChunksOf(es[1..])
    ensures es[0].EndOfPacket? ==> ChunksOf(es) == ChunksOf(es[1..])
  {
  }

  /** No entry with this id has a beginning. */
  ghost predicate NoHead(st: A.State, id: nat) {
    forall e :: e in st.used && e.id == id ==> Headless(e)
  }

  lemma TickNoHead(cfg: A.Config, st: A.State, id: nat)
    requires cfg.Valid() && T.Inv(cfg, st) && NoHead(st, id)
    ensures NoHead(T.Step(cfg, st, T.EndOfPacket).0, id)
  {
    TickAges(cfg, st);
    StayingFrom(cfg, st);
    var stay, r := Staying(cfg, st), T.Step(cfg, st, T.EndOfPacket).0;
    hide T.Inv, A.Tick, Staying;
    forall e | e in r.used && e.id == id ensures Headless(e) {
      var i :| 0 <= i < |r.used| && r.used[i] == e;
      assert Aged(stay[i], st.time, e, r.time) && stay[i] in st.used;
    }
  }

  lemma DeliverEmits(cfg: A.Config, st: A.State, i: nat, c: ValidChunk)
    requires A.PoolShape(cfg, st) && i < |st.used| && A.InBounds(cfg, c)
    ensures var (st', out) := A.Deliver(cfg, st, i, c);
            out.Some? ==> st'.used == A.FreeEntry(st, i).used
  {
    if A.Consistent(st.used[i], c) {
      var r := A.Add(st.time, st.used[i], c);
      hide A.Consistent, A.Complete, A.PoolShape, A.Add;
      assert A.FreeEntry(st.(used := st.used[i := r]), i).used == A.FreeEntry(st, i).used;
    }
  }

  /** Once a frame has come out, no entry has its id. */
  lemma EmittedIsGone(cfg: A.Config, st: A.State, c: ValidChunk)
    requires cfg.Valid() && T.Inv(cfg, st)
    ensures var (st', out) := T.Step(cfg, st, T.Arrive(c));
            out.Some? ==> forall e :: e in st'.used ==> e.id != c.id
  {
    if A.InBounds(cfg, c) {
      hide T.Inv, A.Obtain, A.PoolShape, A.Deliver, T.Step;
      T.ArriveIs(cfg, st, c);
      ObtainCases(cfg, st, c.id);
      var (st1, i) := A.Obtain(cfg, st, c.id);
      DeliverEmits(cfg, st1, i, c);
    }
  }

  function Bit(b: bool): nat {
    if b then 1 else 0
  }

  /** The frame at `p` has been missed or has come out already: it will not come out again. */
  ghost predicate Spent(st: A.State, p: Pos) {
    p.used > 0 && NoHead(st, IdOf(p.k))
  }

  lemma OnceChunk(cfg: A.Config, frames: seq<bytes>, st: A.State, p: Pos, c: ValidChunk, spent: bool)
    returns (spent': bool)
    requires cfg.Valid() && T.Inv(cfg, st) && FramesFit(frames, cfg.mtu) && Continues(frames, p, c)
    requires spent ==> Spent(st, p)
    ensures var (st', out) := T.Step(cfg, st, T.Arrive(c));
            && Bit(out.Some?) + Bit(spent) <= Bit(c.last) + Bit(spent')
            && (spent' ==> Spent(st', After(p, c)))
  {
    assert |frames[p.k]| <= cfg.mtu;
    var (st', out) := T.Step(cfg, st, T.Arrive(c));
    hide T.Inv, T.Step, Headless, IdOf;
    spent' := !c.last && (spent || out.Some?);
    if spent {
      HeadlessChunk(cfg, st, c);
    } else {
      EmittedIsGone(cfg, st, c);
    }
  }

  lemma TickSpent(cfg: A.Config, st: A.State, p: Pos)
    requires cfg.Valid() && T.Inv(cfg, st) && Spent(st, p)
    ensures Spent(T.Step(cfg, st, T.EndOfPacket).0, p)
  {
    TickNoHead(cfg, st, IdOf(p.k));
  }

  lemma RunSize(cfg: A.Config, st: A.State, es: seq<T.Event>)
    requires cfg.Valid() && T.Inv(cfg, st) && es != []
    ensures var (st', out) := T.Step(cfg, st, es[0]);
            |T.Run(cfg, st, es).1| == Bit(out.Some?) + |T.Run(cfg, st', es[1..]).1|
  {
  }

  lemma StreamCons(frames: seq<bytes>, p: Pos, cs: seq<ValidChunk>)
    requires Follows(frames, p, cs)
    ensures cs != [] ==>
              var c, p' := cs[0], After(p, cs[0]);
              && Continues(frames, p, c) && Follows(frames, p', cs[1..])
              && |ChunkCounts(p.n, cs)| == Bit(c.last) + |ChunkCounts(p'.n, cs[1..])|
              && AfterAll(p, cs) == AfterAll(p', cs[1..])
  {
  }

  /** From any state, the chunks of a frame make at most one frame come out. */
  lemma {:induction false} AtMostOnce(cfg: A.Config, frames: seq<bytes>, st: A.State, p: Pos, es: seq<T.Event>, spent: bool)
    returns (spent': bool)
    requires cfg.Valid() && T.Inv(cfg, st) && FramesFit(frames, cfg.mtu) && Follows(frames, p, ChunksOf(es))
    requires spent ==> Spent(st, p)
    ensures |T.Run(cfg, st, es).1| + Bit(spent) <= |ChunkCounts(p.n, ChunksOf(es))| + Bit(spent')
    ensures spent' ==> AfterAll(p, ChunksOf(es)).used > 0
    decreases |es|
  {
    if es == [] {
      spent' := spent;
    } else {
      ChunksOfCons(es);
      RunSize(cfg, st, es);
      StreamCons(frames, p, ChunksOf(es));
      hide T.Inv, T.Step, FramesFit, Continues, Spent, ChunksOf, T.Run, ChunkCounts, AfterAll, Follows;
      if es[0].Arrive? {
        var next := OnceChunk(cfg, frames, st, p, es[0].chunk, spent);
        spent' := AtMostOnce(cfg, frames, T.Step(cfg, st, es[0]).0, After(p, es[0].chunk), es[1..], next);
      } else {
        if spent {
          TickSpent(cfg, st, p);
        }
        TickSilent(cfg, st);
        spent' := AtMostOnce(cfg, frames, T.Step(cfg, st, es[0]).0, p, es[1..], spent);
      }
    }
  }

  lemma TickSilent(cfg: A.Config, st: A.State)
    requires cfg.Valid() && T.Inv(cfg, st)
    ensures T.Step(cfg, st, T.EndOfPacket).1 == None
  {
  }

  // ---------- a frame in too many chunks is missed for good ----------

  /** No packet is without chunks; `age` says whether the last event was the end of one. */
  predicate Lively(age: nat, es: seq<T.Event>)
    decreases |es|
  {
    es == [] || (if es[0].Arrive? then Lively(0, es[1..]) else age == 0 && Lively(1, es[1..]))
  }

  /** Frames all of which fit leave nothing behind. */
  lemma NothingLeft(env: Env, es: seq<A.Entry>, top: nat, k: nat, now: nat, m: nat)
    requires AllLeft(env, es, top, k, now, m) && env.big == {}
    ensures es == []
  {
    assert es == [] || Left(env, es[0], top, k, now, m);
  }

  /** The chunk that fills the entry without completing the frame. */
  lemma FullChunk(env: Env, st: A.State, p: Pos, c: ValidChunk, m: nat)
    requires Fine(env) && env.cfg.Valid() && env.big == {} && HeadTracked(env, st, p, 1, m)
    requires Continues(env.frames, p, c) && m < env.dense && !c.last && p.n + 1 == env.cfg.numChunks
    ensures T.Step(env.cfg, st, T.Arrive(c)).1 == None
    ensures T.Step(env.cfg, st, T.Arrive(c)).0.used == []
    ensures Spent(T.Step(env.cfg, st, T.Arrive(c)).0, After(p, c))
  {
    NothingLeft(env, Others(st, p), p.k, p.k, st.time, m);
    var others := HeadStep(env, st, p, c, m);
  }

  lemma HeadTolerant(env: Env, st: A.State, p: Pos, age: nat, m: nat)
    requires HeadTracked(env, st, p, age, m) && age <= 1
    ensures HeadTracked(env, st, p, 1, m)
  {
  }

  /** One event while every frame so far has fitted: the stream stays tracked, or the frame at `p` is spent unseen. */
  lemma FittingEvent(env: Env, st: A.State, p: Pos, es: seq<T.Event>, age: nat, m: nat)
    requires Fine(env) && env.cfg.Valid() && env.big == {} && T.Inv(env.cfg, st)
    requires HeadTracked(env, st, p, age, m) && age <= 1 && p.n < env.cfg.numChunks && m + |es| < env.dense
    requires es != [] && Lively(age, es) && Follows(env.frames, p, ChunksOf(es))
    ensures var (st', out) := T.Step(env.cfg, st, es[0]);
            if es[0].EndOfPacket? then HeadTracked(env, st', p, 1, 0) && out == None
            else
              var q := After(p, es[0].chunk);
              && (q.n < env.cfg.numChunks ==> HeadTracked(env, st', q, 0, m + 1) && out.Some? == es[0].chunk.last)
              && (q.n >= env.cfg.numChunks ==> Spent(st', q) && out == None)
  {
    ChunksOfCons(es);
    StreamCons(env.frames, p, ChunksOf(es));
    hide Fine, HeadTracked, T.Inv, Continues, Follows, ChunksOf, Spent, A.Tick;
    if es[0].Arrive? {
      HeadTolerant(env, st, p, age, m);
      var c := es[0].chunk;
      if p.n + 1 < env.cfg.numChunks || c.last {
        HeadChunk(env, st, p, c, m);
      } else {
        FullChunk(env, st, p, c, m);
      }
    } else {
      HeadTick(env, st, p, m);
    }
  }

  lemma WithinCons(limit: nat, p: Pos, cs: seq<ValidChunk>)
    requires cs != [] && !AllWithin(limit, ChunkCounts(p.n, cs)) && After(p, cs[0]).n < limit && p.n < limit
    ensures !AllWithin(limit, ChunkCounts(After(p, cs[0]).n, cs[1..]))
  {
    if cs[0].last {
      var counts := ChunkCounts(p.n, cs);
      var i :| 0 <= i < |counts| && counts[i] > limit;
      assert counts[i] == ChunkCounts(0, cs[1..])[i - 1];
    }
  }

  /** If a frame is cut into too many chunks, fewer frames come out than went in, whatever comes after it. */
  lemma {:induction false} ShortByOne(env: Env, st: A.State, p: Pos, es: seq<T.Event>, age: nat, m: nat)
    requires Fine(env) && env.cfg.Valid() && env.big == {} && T.Inv(env.cfg, st)
    requires HeadTracked(env, st, p, age, m) && age <= 1 && p.n < env.cfg.numChunks && m + |es| < env.dense
    requires Lively(age, es) && Follows(env.frames, p, ChunksOf(es)) && AfterAll(p, ChunksOf(es)).used == 0
    requires !AllWithin(env.cfg.numChunks, ChunkCounts(p.n, ChunksOf(es)))
    ensures |T.Run(env.cfg, st, es).1| < |ChunkCounts(p.n, ChunksOf(es))|
    decreases |es|
  {
    if es != [] {
      ChunksOfCons(es);
      RunSize(env.cfg, st, es);
      StreamCons(env.frames, p, ChunksOf(es));
      FittingEvent(env, st, p, es, age, m);
      assert FramesFit(env.frames, env.cfg.mtu);
      hide Fine, HeadTracked, T.Inv, T.Step, FramesFit, Continues, Spent, ChunksOf, T.Run, ChunkCounts, AfterAll, Follows, AllWithin;
      var st' := T.Step(env.cfg, st, es[0]).0;
      if es[0].Arrive? {
        var q := After(p, es[0].chunk);
        if q.n < env.cfg.numChunks {
          WithinCons(env.cfg.numChunks, p, ChunksOf(es));
          ShortByOne(env, st', q, es[1..], 0, m + 1);
        } else {
          var spent' := AtMostOnce(env.cfg, env.frames, st', q, es[1..], true);
        }
      } else {
        ShortByOne(env, st', p, es[1..], 1, 0);
      }
    }
  }

  // ---------- packets ----------

  lemma {:induction false} EventsOfArrivals(cs: seq<ValidChunk>, es: seq<T.Event>, age: nat)
    ensures ChunksOf(T.ArrivalsOf(cs) + es) == cs + ChunksOf(es)
    ensures Lively(if cs == [] then age else 0, es) ==> Lively(age, T.ArrivalsOf(cs) + es)
    decreases |cs|
  {
    var all := T.ArrivalsOf(cs) + es;
    if cs == [] {
      assert all == es;
    } else {
      EventsOfArrivals(cs[1..], es, 0);
      assert all[0] == T.Arrive(cs[0]) && all[1..] == T.ArrivalsOf(cs[1..]) + es;
    }
  }

  lemma EventsOfPacket(css: seq<seq<ValidChunk>>)
    requires css != []
    ensures T.AllEvents(EncodePackets(css))
            == T.ArrivalsOf(css[0]) + ([T.EndOfPacket] + T.AllEvents(EncodePackets(css[1..])))
  {
    hide EncodeChunks, ReadChunks, T.ArrivalsOf;
    ReadChunksEncoded(css[0]);
    var packets := EncodePackets(css);
    assert packets[0] == EncodeChunks(css[0]) && packets[1..] == EncodePackets(css[1..]);
    Assoc(T.ArrivalsOf(css[0]), [T.EndOfPacket], T.AllEvents(packets[1..]));
  }

  lemma {:induction false} EventsOfPackets(css: seq<seq<ValidChunk>>, dense: nat)
    requires Packed(css, dense)
    ensures ChunksOf(T.AllEvents(EncodePackets(css))) == Flatten(css)
    ensures Lively(1, T.AllEvents(EncodePackets(css)))
  {
    if css != [] {
      EventsOfPackets(css[1..], dense);
      EventsOfPacket(css);
      hide T.AllEvents, EncodePackets, T.ArrivalsOf;
      var rest := T.AllEvents(EncodePackets(css[1..]));
      var es := [T.EndOfPacket] + rest;
      assert es[1..] == rest;
      EventsOfArrivals(css[0], es, 1);
      EmptyUnit(ChunksOf(rest));
    }
  }

  /** A stream that ends with a frame, one of whose frames was cut into too many chunks. */
  lemma ShortStream(acfg: A.Config, frames: seq<bytes>, css: seq<seq<ValidChunk>>, dense: nat)
    requires acfg.Valid() && FramesFit(frames, acfg.mtu) && Packed(css, dense)
    requires Follows(frames, START, Flatten(css)) && AfterAll(START, Flatten(css)).used == 0
    requires !AllWithin(acfg.numChunks, ChunkCounts(0, Flatten(css)))
    ensures T.Inv(acfg, A.Initial(acfg))
    ensures |T.FeedPackets(acfg, A.Initial(acfg), EncodePackets(css)).1| < |ChunkCounts(0, Flatten(css))|
  {
    var es := T.AllEvents(EncodePackets(css));
    var env := Env(acfg, frames, {}, |es| + 1);
    InitialTracked(env);
    EventsOfPackets(css, dense);
    T.PacketsAreTheirChunks(acfg, A.Initial(acfg), EncodePackets(css));
    ShortByOne(env, A.Initial(acfg), START, es, 1, 0);
  }

  /**
   * All or not all, without conditions. Take any run of a fresh disassembler in which no frame is cancelled
   * once a chunk of it has been written and which ends drained, and feed the packets to a fresh assembler
   * that has room for the frames. Everything that was sent comes out if and only if every frame was cut
   * into at most `numChunks` chunks; and never more frames than were sent.
   */
  lemma RoundTripExactly(dcfg: D.Config, acfg: A.Config, evs: seq<D.Event>)
    requires dcfg.Valid() && acfg.Valid() && dcfg.inputMtu <= acfg.mtu
    requires AllAllowed(dcfg, EMPTY, evs) && Drained(AdvanceAll(dcfg, EMPTY, evs).st)
    ensures T.Inv(acfg, A.Initial(acfg))
    ensures var tr := AdvanceAll(dcfg, EMPTY, evs);
            var frames := T.FeedPackets(acfg, A.Initial(acfg), tr.packets).1;
            && |frames| <= |tr.sent|
            && (frames == tr.sent <==> AllWithin(acfg.numChunks, CutInto(tr.packets)))
  {
    hide T.FeedPackets, AdvanceAll, AllAllowed, AllWithin, CutInto, T.Inv;
    var tr := AdvanceAll(dcfg, EMPTY, evs);
    if AllWithin(acfg.numChunks, CutInto(tr.packets)) {
      NoneOversized(acfg.numChunks, CutInto(tr.packets));
      RoundTrip(dcfg, acfg, evs);
      FittingAll(acfg.numChunks, tr.sent, CutInto(tr.packets));
    } else {
      hide Explained;
      EmptyExplained(dcfg, acfg.numChunks);
      var done, css, cs := RunExplained(dcfg, acfg.numChunks, Origin([], 0), EMPTY, evs, [], [], []);
      ExplainedShort(dcfg, acfg, tr, done, css, cs);
    }
  }

  lemma NoneOversized(limit: nat, counts: seq<nat>)
    requires AllWithin(limit, counts)
    ensures Oversized(limit, counts) == {}
  {
  }

  lemma ExplainedShort(dcfg: D.Config, acfg: A.Config, tr: Trace, done: seq<bytes>,
                       css: seq<seq<ValidChunk>>, cs: seq<ValidChunk>)
    requires dcfg.Valid() && acfg.Valid() && dcfg.inputMtu <= acfg.mtu && Drained(tr.st)
    requires Explained(dcfg, acfg.numChunks, Origin([], 0), tr, done, css, cs)
    requires !AllWithin(acfg.numChunks, CutInto(tr.packets))
    ensures T.Inv(acfg, A.Initial(acfg))
    ensures |T.FeedPackets(acfg, A.Initial(acfg), tr.packets).1| < |tr.sent|
  {
    hide AllWithin, CutInto, SlotsSuffice, T.FeedPackets, Follows, T.Inv, Advanced, ChunkCounts;
    ExplainedCounts(dcfg, acfg.numChunks, tr, done, css, cs);
    EncodedNonEmpty(cs);
    EmptyUnit(Flatten(css));
    EmptyUnit(EncodePackets(css));
    HeldArePacked(dcfg, [], tr.packets, tr.st.out, css, cs);
    BegunFits(dcfg, tr.st, done, acfg.mtu);
    ShortStream(acfg, Begun(tr.st, done), css, MaxPerPacket(dcfg));
  }
}
