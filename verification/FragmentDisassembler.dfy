/**
 * Splitting frames into chunks and packing the chunks into packets. This module gives the
 * transitions on values; the class that performs them is in module FragmentDisassemblerObject.
 */
module FragmentDisassembler {
  import opened Bytes
  import opened FragmentProto
  import opened Options

  /** `chunkMtu` negative means no explicit limit; `latency` negative means packets are sent at once. */
  datatype Config = Config(inputMtu: nat, outputMtu: nat, chunkMtu: int, latency: int)
  {
    /** What the initialiser demands of its caller. */
    predicate Valid() {
      inputMtu <= UINT16_MAX && outputMtu > HEADER_SIZE && chunkMtu != 0
    }
  }

  /** A frame being split, and how much of it has been written. */
  datatype Input = Input(frame: bytes, used: nat)

  /** `out` is what has been written to the packet being filled, if there is one. */
  datatype State = State(frameId: nat, input: Option<Input>, out: Option<bytes>, timer: bool)

  function Initial(): State {
    State(0, None, None, false)
  }

  /** What a transition tells the two interfaces: the frame is done with; a packet is finished. */
  datatype Effects = Effects(inputDone: bool, packet: Option<bytes>)

  const NONE := Effects(false, None)

  /** Payload bytes that still fit the packet after one more header. */
  function OutAvail(cfg: Config, outUsed: nat): int {
    cfg.outputMtu - outUsed - HEADER_SIZE
  }

  function ChunkLen(cfg: Config, inAvail: nat, outAvail: nat): (len: nat)
    ensures len <= inAvail && len <= outAvail
    ensures cfg.chunkMtu != 0 && outAvail > 0 && inAvail > 0 ==> len > 0
  {
    var len := if inAvail < outAvail then inAvail else outAvail;
    if 0 < cfg.chunkMtu < len then cfg.chunkMtu else len
  }

  /** The next chunk of the frame, as long as the frame, the packet and the configuration allow. */
  function NextChunk(cfg: Config, id: nat, frame: bytes, used: nat, outUsed: nat): (c: ValidChunk)
    requires id <= UINT16_MAX && used <= |frame| <= UINT16_MAX && OutAvail(cfg, outUsed) > 0
    ensures c.id == id && c.start == used && c.End() <= |frame| && c.payload == frame[used..c.End()]
    ensures |c.payload| <= OutAvail(cfg, outUsed)
    ensures c.last <==> c.End() == |frame|
  {
    var len := ChunkLen(cfg, |frame| - used, OutAvail(cfg, outUsed));
    Chunk(id, used, frame[used..used + len], len == |frame| - used)
  }

  lemma NextChunkProgress(cfg: Config, id: nat, frame: bytes, used: nat, outUsed: nat)
    requires cfg.Valid() && id <= UINT16_MAX && used <= |frame| <= UINT16_MAX && OutAvail(cfg, outUsed) > 0
    ensures var c := NextChunk(cfg, id, frame, used, outUsed);
            c.End() < |frame| ==> |c.payload| > 0
  {
  }

  /** Writes chunks until the frame or the packet is exhausted; at least one is written. */
  function Fill(cfg: Config, id: nat, frame: bytes, used: nat, out: bytes): (r: (nat, bytes))
    requires cfg.Valid() && id <= UINT16_MAX && used <= |frame| <= UINT16_MAX && OutAvail(cfg, |out|) > 0
    ensures used <= r.0 <= |frame| && |out| < |r.1| <= cfg.outputMtu
    ensures r.0 == |frame| || OutAvail(cfg, |r.1|) <= 0
    ensures r.0 > 0 || frame == []
    decreases |frame| - used
  {
    var c := NextChunk(cfg, id, frame, used, |out|);
    var used', out' := c.End(), out + EncodeChunk(c);
    if used' < |frame| && OutAvail(cfg, |out'|) > 0 then Fill(cfg, id, frame, used', out') else (used', out')
  }

  /** The invariant: input waits only when there is no packet to fill, and a started packet has its timer. */
  predicate Inv(cfg: Config, st: State) {
    && st.frameId < FRAME_IDS
    && (st.out.Some? ==> st.input.None? && OutAvail(cfg, |st.out.value|) > 0)
    && (st.input.Some? ==> |st.input.value.frame| <= cfg.inputMtu && st.input.value.used <= |st.input.value.frame|)
    && (st.input.Some? && st.input.value.used > 0 ==> st.input.value.used < |st.input.value.frame|)
    && (st.timer <==> st.out.Some? && st.out.value != [])
    && (st.timer ==> cfg.latency >= 0)
  }

  /** Writes chunks of the frame `input` to the packet `out`, and finishes whichever of them is exhausted. */
  function WriteChunks(cfg: Config, id: nat, input: Input, out: bytes): (r: (State, Effects))
    requires cfg.Valid() && id < FRAME_IDS && OutAvail(cfg, |out|) > 0
    requires |input.frame| <= cfg.inputMtu && input.used <= |input.frame|
    ensures Inv(cfg, r.0)
  {
    var (used, out) := Fill(cfg, id, input.frame, input.used, out);
    var frameDone := used == |input.frame|;
    var packetDone := OutAvail(cfg, |out|) <= 0 || cfg.latency < 0;
    (State(if frameDone then NextId(id) else id,
           if frameDone then None else Some(Input(input.frame, used)),
           if packetDone then None else Some(out),
           !packetDone),
     Effects(frameDone, if packetDone then Some(out) else None))
  }

  /** What can happen: a frame is given, a packet is asked for, the latency timer fires, the frame is cancelled. */
  datatype Event = Send(frame: bytes) | Recv | TimerFires | Cancel

  predicate Enabled(cfg: Config, st: State, ev: Event) {
    match ev
    case Send(frame) => st.input.None? && |frame| <= cfg.inputMtu
    case Recv => st.out.None?
    case TimerFires => st.timer
    case Cancel => st.input.Some?
  }

  function Step(cfg: Config, st: State, ev: Event): (r: (State, Effects))
    requires cfg.Valid() && Inv(cfg, st) && Enabled(cfg, st, ev)
    ensures Inv(cfg, r.0)
  {
    match ev
    case Send(frame) =>
      if st.out.None? then (st.(input := Some(Input(frame, 0))), NONE)
      else WriteChunks(cfg, st.frameId, Input(frame, 0), st.out.value)
    case Recv =>
      if st.input.None? then (st.(out := Some([])), NONE)
      else WriteChunks(cfg, st.frameId, st.input.value, [])
    case TimerFires => (st.(out := None, timer := false), Effects(false, st.out))
    case Cancel => (st.(input := None), Effects(true, None))
  }
}
