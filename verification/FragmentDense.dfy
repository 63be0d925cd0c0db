/**
 * When ids come round too soon: how densely packets must be filled for what is left of a frame that was
 * cut into too many chunks to spoil a later frame with the same id.
 */
module FragmentDense {
  import opened Bytes
  import opened Sequences
  import opened FragmentProto
  import opened FragmentStream
  import opened FragmentRoundTrip
  import opened FragmentReuse
  import opened Options
  import A = FragmentAssembler
  import T = FragmentTiling

  // ---------- a stream in which a later frame is spoiled ----------

  /** The pool can keep what is left of a frame of more than `numChunks` bytes while other frames come and go. */
  predicate CanKeep(cfg: A.Config) {
    cfg.Valid() && cfg.numFrames > 1 && 1 < cfg.numChunks < cfg.mtu && cfg.numChunks <= UINT16_MAX
  }

  /** The part of the first frame that arrives in chunk `i`, of which the entry can take `numChunks`. */
  function Head(cfg: A.Config, i: nat): (c: ValidChunk)
    requires CanKeep(cfg) && i <= cfg.numChunks
  {
    Chunk(0, i, [0], i == cfg.numChunks)
  }

  /** First the last chunk of the first frame, then empty frames. */
  function Item(cfg: A.Config, i: nat): (c: ValidChunk)
    requires CanKeep(cfg)
  {
    if i == 0 then Head(cfg, cfg.numChunks) else Chunk(IdOf(i), 0, [], true)
  }

  /** Before item `i`: nothing is left of the first frame yet, or its end is, as old as `age`. */
  ghost predicate Keeps(cfg: A.Config, st: A.State, i: nat, age: nat) {
    && T.Inv(cfg, st)
    && if i == 0 then st.used == [] && age == 0
       else |st.used| == 1 && st.used[0].id == 0 && st.used[0].length >= 0 && st.time - st.used[0].time == age
  }

  lemma ItemFirst(cfg: A.Config, st: A.State)
    requires CanKeep(cfg) && Keeps(cfg, st, 0, 0)
    ensures var (st', out) := T.Step(cfg, st, T.Arrive(Item(cfg, 0)));
            out == None && Keeps(cfg, st', 1, 0)
  {
    var c := Item(cfg, 0);
    var (st1, k) := A.Obtain(cfg, st, 0);
    T.InvFacts(cfg, st);
    assert st1.used == [A.Fresh(0, st.time, st.free[0])] && k == 0;
    var e := A.Add(st1.time, st1.used[0], c);
    assert e.spans == [A.SpanOf(c)] && !A.Complete(e);
    assert st1.used[0 := e] == [e];
  }

  lemma EmptyFrame(cfg: A.Config, st: A.State, c: ValidChunk)
    requires A.PoolShape(cfg, st) && |st.used| == 2 && st.used[1] == A.Fresh(c.id, st.time, st.used[1].buffer)
    requires c.start == 0 && c.payload == [] && c.last
    ensures A.Deliver(cfg, st, 1, c).0.used == [st.used[0]] && A.Deliver(cfg, st, 1, c).0.time == st.time
    ensures A.Deliver(cfg, st, 1, c).1 == Some([])
  {
    var r := A.Add(st.time, st.used[1], c);
    assert A.Consistent(st.used[1], c) && A.Complete(r) && r.length == 0;
    hide A.Consistent, A.Add, A.PoolShape;
    assert A.FreeEntry(st.(used := st.used[1 := r]), 1).used == [st.used[0]];
    assert r.buffer[..0] == [];
  }

  lemma ItemEmpty(cfg: A.Config, st: A.State, i: nat, age: nat)
    requires CanKeep(cfg) && 0 < i < FRAME_IDS && Keeps(cfg, st, i, age)
    ensures var (st', out) := T.Step(cfg, st, T.Arrive(Item(cfg, i)));
            out == Some([]) && Keeps(cfg, st', i + 1, age)
  {
    T.InvFacts(cfg, st);
    T.ObtainInv(cfg, st, i);
    var (st1, k) := A.Obtain(cfg, st, i);
    assert A.IndexOf(st.used, i) == 1;
    assert st1.used == [st.used[0], A.Fresh(i, st.time, st.free[0])] && k == 1;
    T.InvFacts(cfg, st1);
    hide T.Inv, A.Obtain, A.Deliver, A.PoolShape;
    EmptyFrame(cfg, st1, Item(cfg, i));
    assert T.Step(cfg, st, T.Arrive(Item(cfg, i))) == A.Deliver(cfg, st1, 1, Item(cfg, i));
  }

  /** The empty frame under the same id is rejected, for as long as the entry has not timed out. */
  lemma ItemSpoiled(cfg: A.Config, st: A.State, age: nat)
    requires CanKeep(cfg) && Keeps(cfg, st, FRAME_IDS, age) && age <= cfg.numFrames
    ensures T.Step(cfg, st, T.Arrive(Item(cfg, FRAME_IDS))).1 == None
  {
    assert A.IndexOf(st.used, 0) == 0;
    assert A.Obtain(cfg, st, 0) == (st, 0);
  }

  function Comes(i: nat): nat {
    Bit(0 < i < FRAME_IDS)
  }

  lemma ItemStep(cfg: A.Config, st: A.State, i: nat, age: nat)
    requires CanKeep(cfg) && i <= FRAME_IDS && Keeps(cfg, st, i, age) && age <= cfg.numFrames
    ensures var (st', out) := T.Step(cfg, st, T.Arrive(Item(cfg, i)));
            Bit(out.Some?) == Comes(i) && (i < FRAME_IDS ==> Keeps(cfg, st', i + 1, age))
  {
    hide T.Step, Keeps, Item;
    if i == 0 {
      assert age == 0 by { KeepsFirst(cfg, st, age); }
      ItemFirst(cfg, st);
    } else if i < FRAME_IDS {
      ItemEmpty(cfg, st, i, age);
    } else {
      ItemSpoiled(cfg, st, age);
    }
  }

  lemma KeepsFirst(cfg: A.Config, st: A.State, age: nat)
    requires Keeps(cfg, st, 0, age)
    ensures age == 0
  {
  }

  lemma ItemTick(cfg: A.Config, st: A.State, i: nat, age: nat)
    requires cfg.Valid() && 0 < i && Keeps(cfg, st, i, age) && age <= cfg.numFrames
    ensures Keeps(cfg, T.Step(cfg, st, T.EndOfPacket).0, i, age + 1)
  {
    TickAges(cfg, st);
    StayingFrom(cfg, st);
    A.SurvivorsFrom(cfg, st.time, st.used);
    T.TickInv(cfg, st);
    var stay, r := Staying(cfg, st), A.Tick(cfg, st);
    assert stay[0] == st.used[0] && |stay| == 1;
    hide A.Tick, T.Inv;
    assert Aged(stay[0], st.time, r.used[0], r.time);
  }

  // ---------- its packets ----------

  function Items(cfg: A.Config, i: nat, n: nat): (cs: seq<ValidChunk>)
    requires CanKeep(cfg)
    ensures |cs| == n
    decreases n
  {
    if n == 0 then [] else [Item(cfg, i)] + Items(cfg, i + 1, n - 1)
  }

  lemma {:induction false} ItemsAppend(cfg: A.Config, i: nat, m: nat, n: nat)
    requires CanKeep(cfg)
    ensures Items(cfg, i, m + n) == Items(cfg, i, m) + Items(cfg, i + m, n)
    decreases m
  {
    if m > 0 {
      ItemsAppend(cfg, i + 1, m - 1, n);
    }
  }

  /** The items from `i` on, as many to a packet as go in. */
  function Cuts(cfg: A.Config, dense: nat, i: nat, n: nat): seq<seq<ValidChunk>>
    requires CanKeep(cfg) && dense > 0
    decreases n
  {
    if n <= dense then [Items(cfg, i, n)] else [Items(cfg, i, dense)] + Cuts(cfg, dense, i + dense, n - dense)
  }

  lemma {:induction false} CutsAre(cfg: A.Config, dense: nat, i: nat, n: nat)
    requires CanKeep(cfg) && dense > 0 && n > 0
    ensures Flatten(Cuts(cfg, dense, i, n)) == Items(cfg, i, n) && Packed(Cuts(cfg, dense, i, n), dense)
    decreases n
  {
    var css := Cuts(cfg, dense, i, n);
    if n <= dense {
      assert css[1..] == [];
      EmptyUnit(Items(cfg, i, n));
    } else {
      CutsAre(cfg, dense, i + dense, n - dense);
      ItemsAppend(cfg, i, dense, n - dense);
      assert css[1..] == Cuts(cfg, dense, i + dense, n - dense);
    }
  }

  /** How many of the `n` items from `i` on make a frame come out. */
  function Outs(i: nat, n: nat): nat
    decreases n
  {
    if n == 0 then 0 else Comes(i) + Outs(i + 1, n - 1)
  }

  lemma {:induction false} OutsAppend(i: nat, m: nat, n: nat)
    ensures Outs(i, m + n) == Outs(i, m) + Outs(i + m, n)
    decreases m
  {
    if m > 0 {
      OutsAppend(i + 1, m - 1, n);
    }
  }

  lemma {:induction false} OutsAll(i: nat, n: nat)
    requires i + n == FRAME_IDS + 1
    ensures 0 < i ==> Outs(i, n) == FRAME_IDS - i || n == 0
    ensures i == 0 ==> Outs(i, n) == FRAME_IDS - 1
    decreases n
  {
    if n > 0 {
      OutsAll(i + 1, n - 1);
    }
  }

  /** The state after `n` items of one packet, and how many frames come out. */
  ghost function FedItems(cfg: A.Config, st: A.State, i: nat, n: nat): (r: (A.State, nat))
    requires CanKeep(cfg) && T.Inv(cfg, st)
    ensures T.Inv(cfg, r.0)
  {
    var (st', outs) := Fed(cfg, st, Items(cfg, i, n));
    (st', |outs|)
  }

  lemma FedItem(cfg: A.Config, st: A.State, i: nat, n: nat)
    requires CanKeep(cfg) && T.Inv(cfg, st) && n > 0
    ensures var (st', out) := T.Step(cfg, st, T.Arrive(Item(cfg, i)));
            var (end, outs) := FedItems(cfg, st', i + 1, n - 1);
            FedItems(cfg, st, i, n) == (end, Bit(out.Some?) + outs)
  {
    hide T.Inv, T.Step, Fed, Item;
    var cs := Items(cfg, i, n);
    assert cs[0] == Item(cfg, i) && cs[1..] == Items(cfg, i + 1, n - 1);
    FedStep(cfg, st, cs);
  }

  lemma {:induction false} ItemsRun(cfg: A.Config, st: A.State, i: nat, n: nat, age: nat)
    requires CanKeep(cfg) && i + n <= FRAME_IDS + 1 && T.Inv(cfg, st)
    requires (i <= FRAME_IDS ==> Keeps(cfg, st, i, age)) && age <= cfg.numFrames
    ensures FedItems(cfg, st, i, n).1 == Outs(i, n)
    ensures i + n <= FRAME_IDS ==> Keeps(cfg, FedItems(cfg, st, i, n).0, i + n, age)
    decreases n
  {
    hide T.Inv, T.Step, Keeps, Item;
    if n == 0 {
      FedNone(cfg, st);
    } else {
      hide FedItems;
      ItemStep(cfg, st, i, age);
      FedItem(cfg, st, i, n);
      ItemsRun(cfg, T.Step(cfg, st, T.Arrive(Item(cfg, i))).0, i + 1, n - 1, age);
    }
  }

  /** A packet of items. */
  lemma ItemsPacket(cfg: A.Config, st: A.State, i: nat, n: nat, age: nat, rest: seq<seq<ValidChunk>>)
    requires CanKeep(cfg) && i + n <= FRAME_IDS + 1 && T.Inv(cfg, st) && n > 0
    requires Keeps(cfg, st, i, age) && age <= cfg.numFrames
    ensures var st' := T.FeedPacket(cfg, st, EncodeChunks(Items(cfg, i, n))).0;
            && |T.FeedPackets(cfg, st, EncodePackets([Items(cfg, i, n)] + rest)).1|
               == Outs(i, n) + |T.FeedPackets(cfg, st', EncodePackets(rest)).1|
            && (i + n <= FRAME_IDS ==> Keeps(cfg, st', i + n, age + 1))
  {
    var cs := Items(cfg, i, n);
    var packets := EncodePackets([cs] + rest);
    assert ([cs] + rest)[1..] == rest;
    assert packets[0] == EncodeChunks(cs) && packets[1..] == EncodePackets(rest);
    PacketIsFed(cfg, st, cs);
    hide T.Inv, T.Step, Keeps, Fed, T.FeedPacket, EncodeChunks, EncodePackets, Items, Outs;
    ItemsRun(cfg, st, i, n, age);
    if i + n <= FRAME_IDS {
      ItemTick(cfg, Fed(cfg, st, cs).0, i + n, age);
    }
  }

  /** One packet after another: the first frame's end is still there when its id comes round. */
  lemma {:induction false} CutsRun(cfg: A.Config, st: A.State, dense: nat, i: nat, n: nat, age: nat)
    requires CanKeep(cfg) && dense > 0 && n > 0 && i + n == FRAME_IDS + 1
    requires T.Inv(cfg, st) && Keeps(cfg, st, i, age) && age <= cfg.numFrames
    requires n <= dense * (cfg.numFrames - age + 1)
    ensures |T.FeedPackets(cfg, st, EncodePackets(Cuts(cfg, dense, i, n))).1| == Outs(i, n)
    decreases n
  {
    hide T.Inv, Keeps, T.FeedPacket, T.FeedPackets, EncodePackets, Items, Outs;
    var m := if n <= dense then n else dense;
    var rest := if n <= dense then [] else Cuts(cfg, dense, i + dense, n - dense);
    ItemsPacket(cfg, st, i, m, age, rest);
    var st' := T.FeedPacket(cfg, st, EncodeChunks(Items(cfg, i, m))).0;
    if n <= dense {
      FeedNothing(cfg, st');
      EmptyUnit([Items(cfg, i, m)]);
    } else {
      MoreRoom(dense, cfg.numFrames - age, n);
      CutsRun(cfg, st', dense, i + dense, n - dense, age + 1);
      OutsAppend(i, dense, n - dense);
    }
  }

  lemma FeedNothing(cfg: A.Config, st: A.State)
    requires cfg.Valid() && T.Inv(cfg, st)
    ensures T.FeedPackets(cfg, st, EncodePackets([])) == (st, [])
  {
  }

  lemma MoreRoom(dense: nat, left: nat, n: nat)
    requires dense < n <= dense * (left + 1)
    ensures left > 0 && n - dense <= dense * left
  {
    assert dense * (left + 1) == dense * left + dense;
  }

  // ---------- the first frame ----------

  function BigFrame(cfg: A.Config): bytes {
    seq(cfg.numChunks + 1, i => 0)
  }

  /** The first `n` chunks of the first frame, each in a packet of its own. */
  function Heads(cfg: A.Config, n: nat): seq<seq<ValidChunk>>
    requires CanKeep(cfg) && n <= cfg.numChunks
  {
    if n == 0 then [] else Heads(cfg, n - 1) + [[Head(cfg, n - 1)]]
  }

  lemma HeadContinues(cfg: A.Config, frames: seq<bytes>, i: nat)
    requires CanKeep(cfg) && i <= cfg.numChunks && frames != [] && frames[0] == BigFrame(cfg)
    ensures Continues(frames, Pos(0, i, i), Head(cfg, i))
  {
    assert BigFrame(cfg)[i..i + 1] == [0];
  }

  lemma {:induction false} HeadsFollow(cfg: A.Config, frames: seq<bytes>, n: nat, dense: nat)
    requires CanKeep(cfg) && n <= cfg.numChunks && frames != [] && frames[0] == BigFrame(cfg) && dense > 0
    ensures var cs := Flatten(Heads(cfg, n));
            && Follows(frames, START, cs) && AfterAll(START, cs) == Pos(0, n, n) && ChunkCounts(0, cs) == []
            && Packed(Heads(cfg, n), dense)
    decreases n
  {
    if n > 0 {
      hide BigFrame, Head, Continues;
      HeadsFollow(cfg, frames, n - 1, dense);
      var css, c := Heads(cfg, n - 1), Head(cfg, n - 1);
      HeadContinues(cfg, frames, n - 1);
      HeadPasses(cfg, frames, n - 1);
      PacketsSnoc(css, [c]);
      FollowsAppend(frames, START, Flatten(css), [c]);
      CountsAppend(START, Flatten(css), [c]);
      CountsAppend(START, Flatten(css) + [c], []);
    }
  }

  lemma HeadPasses(cfg: A.Config, frames: seq<bytes>, i: nat)
    requires CanKeep(cfg) && i < cfg.numChunks && Continues(frames, Pos(0, i, i), Head(cfg, i))
    ensures Follows(frames, Pos(0, i, i), [Head(cfg, i)])
    ensures AfterAll(Pos(0, i, i), [Head(cfg, i)]) == Pos(0, i + 1, i + 1)
  {
    assert [Head(cfg, i)][1..] == [];
  }

  /** A packet with the chunk that fills the entry leaves nothing in use. */
  lemma FullPacket(env: Env, st: A.State, p: Pos, c: ValidChunk)
    requires Fine(env) && env.cfg.Valid() && env.big == {} && env.dense > 0 && T.Inv(env.cfg, st)
    requires HeadTracked(env, st, p, 1, 0) && Continues(env.frames, p, c) && !c.last && p.n + 1 == env.cfg.numChunks
    ensures T.FeedPacket(env.cfg, st, EncodeChunks([c])).1 == []
    ensures Keeps(env.cfg, T.FeedPacket(env.cfg, st, EncodeChunks([c])).0, 0, 0)
  {
    var cfg := env.cfg;
    hide T.Inv, T.FeedPacket, T.Step, Fed, Fine, HeadTracked, Continues, Spent;
    FullChunk(env, st, p, c, 0);
    var st1 := T.Step(cfg, st, T.Arrive(c)).0;
    assert [c][1..] == [];
    FedStep(cfg, st, [c]);
    FedNone(cfg, st1);
    PacketIsFed(cfg, st, [c]);
    TickNothing(cfg, st1);
  }

  lemma TickNothing(cfg: A.Config, st: A.State)
    requires cfg.Valid() && T.Inv(cfg, st) && st.used == []
    ensures T.Step(cfg, st, T.EndOfPacket).0.used == []
  {
    TickAges(cfg, st);
    A.SurvivorsFrom(cfg, st.time, st.used);
  }

  lemma HeadsGo(cfg: A.Config, env: Env, n: nat)
    requires CanKeep(cfg) && env == Env(cfg, [BigFrame(cfg)], {}, 1) && n < cfg.numChunks
    ensures Fine(env) && Packed(Heads(cfg, n), 1)
    ensures var cs := Flatten(Heads(cfg, n));
            Goes(env, START, cs) && Coming(env, START, cs) == [] && AfterAll(START, cs) == Pos(0, n, n)
  {
    HeadsFollow(cfg, env.frames, n, 1);
  }

  lemma HeadsHeld(cfg: A.Config, env: Env, n: nat)
    requires CanKeep(cfg) && env == Env(cfg, [BigFrame(cfg)], {}, 1) && n < cfg.numChunks
    ensures T.Inv(cfg, A.Initial(cfg))
    ensures var (st, outs) := T.FeedPackets(cfg, A.Initial(cfg), EncodePackets(Heads(cfg, n)));
            outs == [] && HeadTracked(env, st, Pos(0, n, n), 1, 0)
  {
    hide T.Inv, T.FeedPackets, HeadTracked, BigFrame, EncodePackets, Fine, Goes, Coming, Flatten, AfterAll, A.Initial, Heads;
    InitialTracked(env);
    HeadsGo(cfg, env, n);
    AssemblerDecodes(env, A.Initial(cfg), START, Heads(cfg, n));
  }

  /** After the chunks that fill the entry, the first frame has been given up and nothing is in use. */
  lemma HeadsRun(cfg: A.Config)
    requires CanKeep(cfg)
    ensures T.Inv(cfg, A.Initial(cfg))
    ensures var (st, outs) := T.FeedPackets(cfg, A.Initial(cfg), EncodePackets(Heads(cfg, cfg.numChunks)));
            outs == [] && Keeps(cfg, st, 0, 0)
  {
    var n := cfg.numChunks - 1;
    var env, css, c := Env(cfg, [BigFrame(cfg)], {}, 1), Heads(cfg, n), Head(cfg, n);
    assert Heads(cfg, n + 1) == css + [[c]] && Fine(env);
    HeadContinues(cfg, env.frames, n);
    hide T.Inv, T.FeedPackets, T.FeedPacket, HeadTracked, Keeps, Continues, BigFrame, EncodeChunks, EncodePackets,
      Fine, A.Initial, Heads;
    HeadsHeld(cfg, env, n);
    var st := T.FeedPackets(cfg, A.Initial(cfg), EncodePackets(css)).0;
    FullPacket(env, st, Pos(0, n, n), c);
    PacketsSnoc(css, [c]);
    FeedOne(cfg, st, EncodeChunks([c]));
    FeedAppend(cfg, A.Initial(cfg), EncodePackets(css), [EncodeChunks([c])]);
  }

  lemma FeedOne(cfg: A.Config, st: A.State, packet: bytes)
    requires cfg.Valid() && T.Inv(cfg, st)
    ensures T.FeedPackets(cfg, st, [packet]) == T.FeedPacket(cfg, st, packet)
  {
    hide T.Inv, T.FeedPacket;
    var (st', outs) := T.FeedPacket(cfg, st, packet);
    assert [packet][1..] == [] && T.FeedPackets(cfg, st', []) == (st', []);
    EmptyUnit(outs);
  }

  // ---------- the whole stream ----------

  lemma {:induction false} EmptiesFollow(cfg: A.Config, frames: seq<bytes>, i: nat, n: nat)
    requires CanKeep(cfg) && 0 < i && i + n <= |frames|
    requires forall j :: i <= j < i + n ==> frames[j] == []
    ensures var cs := Items(cfg, i, n);
            && Follows(frames, Pos(i, 0, 0), cs) && AfterAll(Pos(i, 0, 0), cs) == Pos(i + n, 0, 0)
            && |ChunkCounts(0, cs)| == n && AllWithin(1, ChunkCounts(0, cs))
    decreases n
  {
    if n > 0 {
      EmptiesFollow(cfg, frames, i + 1, n - 1);
      var cs := Items(cfg, i, n);
      assert cs[1..] == Items(cfg, i + 1, n - 1);
      assert frames[i][0..0] == [];
    }
  }

  function Spoiling(cfg: A.Config, dense: nat): seq<seq<ValidChunk>>
    requires CanKeep(cfg) && dense > 0
  {
    Heads(cfg, cfg.numChunks) + Cuts(cfg, dense, 0, FRAME_IDS + 1)
  }

  /** All the empty frames come out but the last. */
  lemma SpoilingRun(cfg: A.Config, dense: nat)
    requires CanKeep(cfg) && dense > 0 && FRAME_IDS < dense * (cfg.numFrames + 1)
    ensures T.Inv(cfg, A.Initial(cfg))
    ensures |T.FeedPackets(cfg, A.Initial(cfg), EncodePackets(Spoiling(cfg, dense))).1| == FRAME_IDS - 1
  {
    var heads, tail := Heads(cfg, cfg.numChunks), Cuts(cfg, dense, 0, FRAME_IDS + 1);
    hide T.Inv, T.FeedPackets, Keeps, EncodePackets, Cuts, Heads, A.Initial, Outs;
    HeadsRun(cfg);
    CutsRun(cfg, T.FeedPackets(cfg, A.Initial(cfg), EncodePackets(heads)).0, dense, 0, FRAME_IDS + 1, 0);
    OutsAll(0, FRAME_IDS + 1);
    PacketsAppend(heads, tail);
    FeedAppend(cfg, A.Initial(cfg), EncodePackets(heads), EncodePackets(tail));
  }

  /** The end of the first frame and the empty frames continue the stream. */
  lemma ItemsFollow(cfg: A.Config, frames: seq<bytes>)
    requires CanKeep(cfg)
    requires |frames| == FRAME_IDS + 1 && frames[0] == BigFrame(cfg) && forall i :: 0 < i < |frames| ==> frames[i] == []
    ensures var n, cs := cfg.numChunks, Items(cfg, 0, FRAME_IDS + 1);
            && Follows(frames, Pos(0, n, n), cs) && AfterAll(Pos(0, n, n), cs) == Pos(|frames|, 0, 0)
            && ChunkCounts(n, cs) == [n + 1] + ChunkCounts(0, cs[1..])
            && |ChunkCounts(0, cs[1..])| == FRAME_IDS && AllWithin(n, ChunkCounts(0, cs[1..]))
  {
    var n := cfg.numChunks;
    var last, empties := Item(cfg, 0), Items(cfg, 1, FRAME_IDS);
    HeadContinues(cfg, frames, n);
    EmptiesFollow(cfg, frames, 1, FRAME_IDS);
    hide Continues, BigFrame;
    var cs := [last] + empties;
    assert Items(cfg, 0, FRAME_IDS + 1) == cs && cs[1..] == empties;
    hide Items;
    assert last.last;
  }

  lemma StreamFollows(cfg: A.Config, frames: seq<bytes>, dense: nat)
    requires CanKeep(cfg) && dense > 0
    requires |frames| == FRAME_IDS + 1 && frames[0] == BigFrame(cfg) && forall i :: 0 < i < |frames| ==> frames[i] == []
    ensures var cs := Flatten(Spoiling(cfg, dense));
            && Packed(Spoiling(cfg, dense), dense)
            && Follows(frames, START, cs) && AfterAll(START, cs) == Pos(|frames|, 0, 0)
            && |ChunkCounts(0, cs)| == |frames|
            && |Fitting(cfg.numChunks, frames, ChunkCounts(0, cs))| == FRAME_IDS
  {
    var n := cfg.numChunks;
    var heads, tail := Heads(cfg, n), Cuts(cfg, dense, 0, FRAME_IDS + 1);
    var cs := Items(cfg, 0, FRAME_IDS + 1);
    hide Heads, Cuts, BigFrame, Items, Follows, ChunkCounts, AfterAll, Flatten;
    HeadsFollow(cfg, frames, n, dense);
    ItemsFollow(cfg, frames);
    CutsAre(cfg, dense, 0, FRAME_IDS + 1);
    PacketsAppend(heads, tail);
    FollowsAppend(frames, START, Flatten(heads), cs);
    CountsAppend(START, Flatten(heads), cs);
    var counts := ChunkCounts(0, cs[1..]);
    EmptyUnit([n + 1] + counts);
    assert ([n + 1] + counts)[1..] == counts;
    FittingAll(n, frames[1..], counts);
  }

  /**
   * The condition that keeps ids apart cannot be weakened: for every assembler that can keep what is left of a
   * frame, and packets dense enough for the id to come round in time, there is a stream of frames that fit
   * its MTU of which it emits one fewer than were cut into at most `numChunks` chunks.
   */
  lemma DenseStreamSpoils(cfg: A.Config, dense: nat) returns (frames: seq<bytes>, css: seq<seq<ValidChunk>>)
    requires CanKeep(cfg) && FRAME_IDS < dense * (cfg.numFrames + 1)
    ensures FramesFit(frames, cfg.mtu) && Packed(css, dense)
    ensures Follows(frames, START, Flatten(css)) && AfterAll(START, Flatten(css)) == Pos(|frames|, 0, 0)
    ensures T.Inv(cfg, A.Initial(cfg)) && |ChunkCounts(0, Flatten(css))| <= |frames|
    ensures |T.FeedPackets(cfg, A.Initial(cfg), EncodePackets(css)).1| + 1
            == |Fitting(cfg.numChunks, frames, ChunkCounts(0, Flatten(css)))|
  {
    frames := [BigFrame(cfg)] + seq(FRAME_IDS, i => []);
    css := Spoiling(cfg, dense);
    hide T.Inv, T.FeedPackets, EncodePackets, Spoiling, A.Initial, Follows, AfterAll, ChunkCounts, Flatten, Fitting;
    StreamFollows(cfg, frames, dense);
    SpoilingRun(cfg, dense);
  }
}
