/**
 * How the disassembler packs chunks into packets: each chunk is as long as the limits allow, a packet is
 * finished when it is full or its time is up, and until then every frame that has room goes into it.
 */
module FragmentPacking {
  import opened Bytes
  import opened Sequences
  import opened FragmentProto
  import opened Options
  import D = FragmentDisassembler

  // ---------- runs ----------

  /** The events can happen one after the other; a frame may be cancelled at any time that it waits. */
  ghost predicate Possible(cfg: D.Config, st: D.State, evs: seq<D.Event>)
    requires cfg.Valid() && D.Inv(cfg, st)
    decreases |evs|
  {
    evs == [] || (D.Enabled(cfg, st, evs[0]) && Possible(cfg, D.Step(cfg, st, evs[0]).0, evs[1..]))
  }

  /** What the events do, one after the other. */
  ghost function Effects(cfg: D.Config, st: D.State, evs: seq<D.Event>): (effs: seq<D.Effects>)
    requires cfg.Valid() && D.Inv(cfg, st) && Possible(cfg, st, evs)
    ensures |effs| == |evs|
    decreases |evs|
  {
    if evs == [] then []
    else
      var (st', eff) := D.Step(cfg, st, evs[0]);
      [eff] + Effects(cfg, st', evs[1..])
  }

  ghost function After(cfg: D.Config, st: D.State, evs: seq<D.Event>): (r: D.State)
    requires cfg.Valid() && D.Inv(cfg, st) && Possible(cfg, st, evs)
    ensures D.Inv(cfg, r)
    decreases |evs|
  {
    if evs == [] then st else After(cfg, D.Step(cfg, st, evs[0]).0, evs[1..])
  }

  // ---------- the length of a chunk ----------

  /**
   * The chunks begin at position `at` of a packet. None is longer than the configured limit or reaches
   * beyond the packet, and one that is not the last of its frame is as long as one of the two allows.
   */
  predicate Packed(cfg: D.Config, at: nat, cs: seq<ValidChunk>)
    decreases |cs|
  {
    cs == [] ||
    (var end := at + HEADER_SIZE + |cs[0].payload|;
     && (cfg.chunkMtu > 0 ==> |cs[0].payload| <= cfg.chunkMtu) && end <= cfg.outputMtu
     && (!cs[0].last ==> |cs[0].payload| == cfg.chunkMtu || end == cfg.outputMtu)
     && Packed(cfg, end, cs[1..]))
  }

  lemma {:induction false} PackedAppend(cfg: D.Config, at: nat, cs: seq<ValidChunk>, ds: seq<ValidChunk>)
    requires Packed(cfg, at, cs) && Packed(cfg, at + |EncodeChunks(cs)|, ds)
    ensures Packed(cfg, at, cs + ds)
    decreases |cs|
  {
    if cs == [] {
      assert cs + ds == ds;
    } else {
      assert (cs + ds)[0] == cs[0] && (cs + ds)[1..] == cs[1..] + ds;
      PackedAppend(cfg, at + HEADER_SIZE + |cs[0].payload|, cs[1..], ds);
    }
  }

  /** The chunks that filling a packet adds to it. */
  lemma {:induction false} FillPacked(cfg: D.Config, id: nat, frame: bytes, used: nat, out: bytes) returns (cs: seq<ValidChunk>)
    requires cfg.Valid() && id <= UINT16_MAX && used <= |frame| <= UINT16_MAX && D.OutAvail(cfg, |out|) > 0
    ensures D.Fill(cfg, id, frame, used, out).1 == out + EncodeChunks(cs) && Packed(cfg, |out|, cs)
    decreases |frame| - used
  {
    D.NextChunkProgress(cfg, id, frame, used, |out|);
    var c := D.NextChunk(cfg, id, frame, used, |out|);
    assert Packed(cfg, |out|, [c]) by {
      assert [c][1..] == [];
    }
    EncodeOne(c);
    hide EncodeChunk, EncodeChunks, D.NextChunk, Packed;
    var used', out' := c.End(), out + EncodeChunk(c);
    if used' < |frame| && D.OutAvail(cfg, |out'|) > 0 {
      var ds := FillPacked(cfg, id, frame, used', out');
      cs := [c] + ds;
      EncodeChunksAppend([c], ds);
      Assoc(out, EncodeChunk(c), EncodeChunks(ds));
      PackedAppend(cfg, |out|, [c], ds);
    } else {
      cs := [c];
    }
  }

  lemma EncodeOne(c: ValidChunk)
    ensures EncodeChunks([c]) == EncodeChunk(c)
  {
    assert [c][1..] == [] && EncodeChunks([]) == [];
    EmptyUnit(EncodeChunk(c));
  }

  /** The bytes are those of chunks packed into the beginning of a packet. */
  ghost predicate Full(cfg: D.Config, bs: bytes) {
    exists cs: seq<ValidChunk> :: bs == EncodeChunks(cs) && Packed(cfg, 0, cs)
  }

  ghost predicate OpenOk(cfg: D.Config, st: D.State) {
    st.out.Some? ==> Full(cfg, st.out.value)
  }

  lemma FillFull(cfg: D.Config, id: nat, frame: bytes, used: nat, out: bytes)
    requires cfg.Valid() && id <= UINT16_MAX && used <= |frame| <= UINT16_MAX && D.OutAvail(cfg, |out|) > 0 && Full(cfg, out)
    ensures Full(cfg, D.Fill(cfg, id, frame, used, out).1)
  {
    var cs: seq<ValidChunk> :| out == EncodeChunks(cs) && Packed(cfg, 0, cs);
    var ds := FillPacked(cfg, id, frame, used, out);
    EncodeChunksAppend(cs, ds);
    PackedAppend(cfg, 0, cs, ds);
  }

  lemma NothingFull(cfg: D.Config)
    ensures Full(cfg, [])
  {
    assert EncodeChunks([]) == [] && Packed(cfg, 0, []);
  }

  lemma StepFull(cfg: D.Config, st: D.State, ev: D.Event)
    requires cfg.Valid() && D.Inv(cfg, st) && D.Enabled(cfg, st, ev) && OpenOk(cfg, st)
    ensures var (st', eff) := D.Step(cfg, st, ev);
            OpenOk(cfg, st') && (eff.packet.Some? ==> Full(cfg, eff.packet.value))
  {
    hide Full, D.Fill;
    NothingFull(cfg);
    match ev
    case Send(frame) =>
      if st.out.Some? {
        FillFull(cfg, st.frameId, frame, 0, st.out.value);
      }
    case Recv =>
      if st.input.Some? {
        FillFull(cfg, st.frameId, st.input.value.frame, st.input.value.used, []);
      }
    case TimerFires =>
    case Cancel =>
  }

  // ---------- when a packet is finished ----------

  /** There is no room in the packet for another chunk with a byte in it. */
  predicate NoRoom(cfg: D.Config, packet: bytes) {
    cfg.outputMtu - |packet| <= HEADER_SIZE
  }

  /** What one event does to packets: which chunks they hold, and when they are finished. */
  ghost predicate PacksWell(cfg: D.Config, ev: D.Event, eff: D.Effects, st: D.State) {
    && (eff.packet.Some? ==> Full(cfg, eff.packet.value) && (ev.TimerFires? || NoRoom(cfg, eff.packet.value) || cfg.latency < 0))
    && (st.out.Some? && st.out.value != [] ==> cfg.latency >= 0 && st.timer && !NoRoom(cfg, st.out.value))
  }

  /**
   * In every run: the chunks of a finished packet are as long as the limits allow and no longer; a packet is
   * finished only by the latency timer, or because it is full, or because there is no latency; and one that is
   * begun and not finished has room, and its timer runs.
   */
  lemma {:induction false} EveryPacket(cfg: D.Config, st: D.State, evs: seq<D.Event>, n: nat)
    requires cfg.Valid() && D.Inv(cfg, st) && OpenOk(cfg, st) && Possible(cfg, st, evs) && n < |evs|
    ensures Possible(cfg, st, evs[..n + 1])
    ensures PacksWell(cfg, evs[n], Effects(cfg, st, evs)[n], After(cfg, st, evs[..n + 1]))
    decreases |evs|
  {
    hide Full;
    StepFull(cfg, st, evs[0]);
    var (st', eff) := D.Step(cfg, st, evs[0]);
    assert evs[..n + 1][0] == evs[0] && evs[..n + 1][1..] == evs[1..][..n];
    if n == 0 {
      assert evs[1..][..0] == [];
      assert After(cfg, st, evs[..1]) == st';
      StepFinishes(cfg, st, evs[0]);
    } else {
      hide D.Step, D.Inv, D.Enabled, OpenOk, PacksWell;
      EveryPacket(cfg, st', evs[1..], n - 1);
    }
  }

  lemma StepFinishes(cfg: D.Config, st: D.State, ev: D.Event)
    requires cfg.Valid() && D.Inv(cfg, st) && D.Enabled(cfg, st, ev) && OpenOk(cfg, st)
    ensures PacksWell(cfg, ev, D.Step(cfg, st, ev).1, D.Step(cfg, st, ev).0)
  {
    StepFull(cfg, st, ev);
    hide Full, D.Fill;
  }

  /** The chunks that a packet of a run carries are the ones that it is packed with. */
  lemma FullMeans(cfg: D.Config, packet: bytes)
    requires Full(cfg, packet)
    ensures packet == EncodeChunks(ReadChunks(packet)) && Packed(cfg, 0, ReadChunks(packet))
  {
    var cs: seq<ValidChunk> :| packet == EncodeChunks(cs) && Packed(cfg, 0, cs);
    ReadChunksEncoded(cs);
  }

  // ---------- what goes into a packet ----------

  /** The chunks of a frame from `used` on, cut by the configured limit alone. */
  function Pieces(cfg: D.Config, id: nat, frame: bytes, used: nat): (cs: seq<ValidChunk>)
    requires cfg.Valid() && id <= UINT16_MAX && used <= |frame| <= UINT16_MAX
    ensures cs != []
    decreases |frame| - used
  {
    if 0 < cfg.chunkMtu < |frame| - used then
      [Chunk(id, used, frame[used..used + cfg.chunkMtu], false)] + Pieces(cfg, id, frame, used + cfg.chunkMtu)
    else [Chunk(id, used, frame[used..], true)]
  }

  lemma PiecesSize(cfg: D.Config, id: nat, frame: bytes, used: nat)
    requires cfg.Valid() && id <= UINT16_MAX && used <= |frame| <= UINT16_MAX
    ensures var cs := Pieces(cfg, id, frame, used);
            && EncodeChunks(cs) == EncodeChunk(cs[0]) + EncodeChunks(cs[1..])
            && |EncodeChunks(cs)| >= HEADER_SIZE + |cs[0].payload|
  {
  }

  /** A frame whose chunks leave room goes into the packet as it is. */
  lemma {:induction false} FillWhole(cfg: D.Config, id: nat, frame: bytes, used: nat, out: bytes)
    requires cfg.Valid() && id <= UINT16_MAX && used <= |frame| <= UINT16_MAX && D.OutAvail(cfg, |out|) > 0
    requires !NoRoom(cfg, out + EncodeChunks(Pieces(cfg, id, frame, used)))
    ensures D.Fill(cfg, id, frame, used, out) == (|frame|, out + EncodeChunks(Pieces(cfg, id, frame, used)))
    decreases |frame| - used
  {
    var cs := Pieces(cfg, id, frame, used);
    var c := D.NextChunk(cfg, id, frame, used, |out|);
    PiecesSize(cfg, id, frame, used);
    assert frame[used..] == frame[used..|frame|];
    assert c == cs[0];
    Assoc(out, EncodeChunk(c), EncodeChunks(cs[1..]));
    if 0 < cfg.chunkMtu < |frame| - used {
      assert cs[1..] == Pieces(cfg, id, frame, c.End());
      hide EncodeChunk, D.NextChunk;
      FillWhole(cfg, id, frame, c.End(), out + EncodeChunk(c));
    } else {
      assert cs[1..] == [];
      EmptyUnit(out + EncodeChunk(c));
    }
  }

  function Sends(frames: seq<bytes>): (evs: seq<D.Event>)
    ensures |evs| == |frames|
  {
    if frames == [] then [] else [D.Send(frames[0])] + Sends(frames[1..])
  }

  /** The chunks of frames, one frame after the other. */
  function AllPieces(cfg: D.Config, id: nat, frames: seq<bytes>): seq<ValidChunk>
    requires cfg.Valid() && id < FRAME_IDS && forall i :: 0 <= i < |frames| ==> |frames[i]| <= UINT16_MAX
    decreases |frames|
  {
    if frames == [] then [] else Pieces(cfg, id, frames[0], 0) + AllPieces(cfg, NextId(id), frames[1..])
  }

  /** A packet is open and nothing waits. */
  predicate Filling(st: D.State) {
    st.out.Some? && st.input.None?
  }

  lemma SendWhole(cfg: D.Config, st: D.State, frame: bytes)
    requires cfg.Valid() && cfg.latency >= 0 && D.Inv(cfg, st) && Filling(st) && |frame| <= cfg.inputMtu
    requires !NoRoom(cfg, st.out.value + EncodeChunks(Pieces(cfg, st.frameId, frame, 0)))
    ensures D.Step(cfg, st, D.Send(frame))
            == (D.State(NextId(st.frameId), None, Some(st.out.value + EncodeChunks(Pieces(cfg, st.frameId, frame, 0))), true),
                D.Effects(true, None))
  {
    FillWhole(cfg, st.frameId, frame, 0, st.out.value);
    hide D.Fill, Pieces;
  }

  lemma NoRoomLonger(cfg: D.Config, a: bytes, b: bytes)
    requires !NoRoom(cfg, a + b)
    ensures !NoRoom(cfg, a)
  {
  }

  /**
   * With a latency, frames that are given one after the other while their chunks leave room in the packet are
   * all taken at once, no packet is finished meanwhile, and the packet that the timer then finishes holds
   * what it held before and the chunks of all of them, in order.
   */
  lemma {:induction false} TimerSendsAll(cfg: D.Config, st: D.State, frames: seq<bytes>)
    requires cfg.Valid() && cfg.latency >= 0 && D.Inv(cfg, st) && Filling(st) && (frames != [] || st.out.value != [])
    requires forall i :: 0 <= i < |frames| ==> |frames[i]| <= cfg.inputMtu
    requires !NoRoom(cfg, st.out.value + EncodeChunks(AllPieces(cfg, st.frameId, frames)))
    ensures var evs := Sends(frames) + [D.TimerFires];
            && Possible(cfg, st, evs)
            && (forall i :: 0 <= i < |frames| ==> Effects(cfg, st, evs)[i] == D.Effects(true, None))
            && Effects(cfg, st, evs)[|frames|] == D.Effects(false, Some(st.out.value + EncodeChunks(AllPieces(cfg, st.frameId, frames))))
    decreases |frames|
  {
    var evs := Sends(frames) + [D.TimerFires];
    if frames == [] {
      assert evs == [D.TimerFires] && evs[1..] == [];
      EmptyUnit(st.out.value);
    } else {
      var first, rest := Pieces(cfg, st.frameId, frames[0], 0), AllPieces(cfg, NextId(st.frameId), frames[1..]);
      EncodeChunksAppend(first, rest);
      hide EncodeChunks, Pieces, D.Fill;
      Assoc(st.out.value, EncodeChunks(first), EncodeChunks(rest));
      NoRoomLonger(cfg, st.out.value + EncodeChunks(first), EncodeChunks(rest));
      SendWhole(cfg, st, frames[0]);
      PiecesNotNothing(cfg, st.frameId, frames[0], st.out.value);
      var (st', eff) := D.Step(cfg, st, evs[0]);
      assert evs[0] == D.Send(frames[0]) && evs[1..] == Sends(frames[1..]) + [D.TimerFires];
      TimerSendsAll(cfg, st', frames[1..]);
      hide Effects, D.Step, AllPieces, Sends;
      forall i | 0 <= i < |frames| ensures Effects(cfg, st, evs)[i] == D.Effects(true, None) {
        EffectsCons(cfg, st, evs, i);
      }
      EffectsCons(cfg, st, evs, |frames|);
    }
  }

  lemma EffectsCons(cfg: D.Config, st: D.State, evs: seq<D.Event>, i: nat)
    requires cfg.Valid() && D.Inv(cfg, st) && Possible(cfg, st, evs) && i < |evs|
    ensures var (st', eff) := D.Step(cfg, st, evs[0]);
            Effects(cfg, st, evs)[i] == if i == 0 then eff else Effects(cfg, st', evs[1..])[i - 1]
  {
    hide D.Step, D.Inv;
  }

  lemma PiecesNotNothing(cfg: D.Config, id: nat, frame: bytes, out: bytes)
    requires cfg.Valid() && id <= UINT16_MAX && |frame| <= UINT16_MAX
    ensures out + EncodeChunks(Pieces(cfg, id, frame, 0)) != []
  {
    PiecesSize(cfg, id, frame, 0);
  }

  // ---------- frames and their answers ----------

  function Count(evs: seq<D.Event>): nat {
    if evs == [] then 0 else (if evs[0].Send? then 1 else 0) + Count(evs[1..])
  }

  function Answers(effs: seq<D.Effects>): nat {
    if effs == [] then 0 else (if effs[0].inputDone then 1 else 0) + Answers(effs[1..])
  }

  function Outstanding(st: D.State): nat {
    if st.input.Some? then 1 else 0
  }

  /** In every run, each frame is answered once, when it has been written in full or cancelled, and not before. */
  lemma {:induction false} OneAnswerPerFrame(cfg: D.Config, st: D.State, evs: seq<D.Event>)
    requires cfg.Valid() && D.Inv(cfg, st) && Possible(cfg, st, evs)
    ensures Outstanding(st) + Count(evs) == Answers(Effects(cfg, st, evs)) + Outstanding(After(cfg, st, evs))
    decreases |evs|
  {
    if evs != [] {
      var (st', eff) := D.Step(cfg, st, evs[0]);
      AnswerExactly(cfg, st, evs[0]);
      hide D.Step, D.Inv, D.Enabled;
      OneAnswerPerFrame(cfg, st', evs[1..]);
      assert Effects(cfg, st, evs)[1..] == Effects(cfg, st', evs[1..]);
    }
  }

  lemma AnswerExactly(cfg: D.Config, st: D.State, ev: D.Event)
    requires cfg.Valid() && D.Inv(cfg, st) && D.Enabled(cfg, st, ev)
    ensures var (st', eff) := D.Step(cfg, st, ev);
            eff.inputDone <==> (st.input.Some? || ev.Send?) && st'.input.None?
  {
    hide D.Fill;
  }
}
