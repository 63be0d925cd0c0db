/** The disassembler as the program runs it: fields updated in place, chunks written into the caller's buffer. */
module FragmentDisassemblerObject {
  import opened Bytes
  import opened FragmentProto
  import opened Options
  import Memory
  import D = FragmentDisassembler

  class Disassembler {
    const cfg: D.Config
    var inLen: int
    var input: bytes
    var inUsed: nat
    var out: array?<byte>
    var outUsed: nat
    var frameId: nat
    var timerRunning: bool

    ghost predicate Shape()
      reads this
    {
      && cfg.Valid() && frameId < FRAME_IDS
      && -1 <= inLen && (inLen >= 0 ==> |input| == inLen <= cfg.inputMtu && inUsed <= inLen)
      && (out != null ==> out.Length == cfg.outputMtu && outUsed <= out.Length)
    }

    /** What the fields stand for. */
    ghost function View(): D.State
      reads this, out
      requires Shape()
    {
      D.State(frameId,
              if inLen < 0 then None else Some(D.Input(input, inUsed)),
              if out == null then None else Some(out[..outUsed]),
              timerRunning)
    }

    ghost predicate Valid()
      reads this, out
    {
      Shape() && D.Inv(cfg, View())
    }

    constructor (cfg: D.Config)
      requires cfg.Valid()
      ensures Valid() && this.cfg == cfg && View() == D.Initial()
    {
      this.cfg := cfg;
      inLen, input, inUsed := -1, [], 0;
      out, outUsed := null, 0;
      frameId, timerRunning := 0, false;
    }

    ghost predicate Ready()
      reads this
    {
      Shape() && inLen >= 0 && out != null && D.OutAvail(cfg, outUsed) > 0
    }

    /** Writes the header and the payload of the next chunk at the end of the output packet. */
    method WriteOneChunk()
      requires Ready()
      modifies this`inUsed, this`outUsed, out
      ensures Shape()
      ensures var c := old(D.NextChunk(cfg, frameId, input, inUsed, outUsed));
              inUsed == c.End() && out[..outUsed] == old(out[..outUsed]) + EncodeChunk(c)
    {
      hide EncodeHeader;
      var inAvail, outAvail := inLen - inUsed, D.OutAvail(cfg, outUsed);
      var len := if inAvail < outAvail then inAvail else outAvail;
      if cfg.chunkMtu > 0 {
        len := if len < cfg.chunkMtu then len else cfg.chunkMtu;
      }
      var header := EncodeHeader(frameId, inUsed, len, len == inAvail);
      var payload := input[inUsed..inUsed + len];
      assert header + payload == EncodeChunk(D.NextChunk(cfg, frameId, input, inUsed, outUsed));
      Memory.CopyBoth(out, outUsed, header, payload);
      inUsed := inUsed + len;
      outUsed := outUsed + HEADER_SIZE + len;
    }

    /** Writes chunks to the output packet until the input or the packet is exhausted. */
    method FillPacket()
      requires Ready()
      modifies this`inUsed, this`outUsed, out
      ensures Shape()
      ensures (inUsed, out[..outUsed]) == old(D.Fill(cfg, frameId, input, inUsed, out[..outUsed]))
    {
      hide D.NextChunk, EncodeChunk;
      ghost var expected := D.Fill(cfg, frameId, input, inUsed, out[..outUsed]);
      while true
        invariant Ready()
        invariant expected == D.Fill(cfg, frameId, input, inUsed, out[..outUsed])
        decreases inLen - inUsed
      {
        ghost var c := D.NextChunk(cfg, frameId, input, inUsed, outUsed);
        D.NextChunkProgress(cfg, frameId, input, inUsed, outUsed);
        WriteOneChunk();
        if !(inUsed < inLen && D.OutAvail(cfg, outUsed) > 0) {
          break;
        }
      }
    }

    /** Writes chunks, and finishes whichever of the frame and the packet is exhausted. */
    method WriteChunks() returns (eff: D.Effects)
      requires Ready() && (timerRunning ==> cfg.latency >= 0)
      modifies this, out
      ensures Valid()
      ensures (View(), eff) == old(D.WriteChunks(cfg, frameId, D.Input(input, inUsed), out[..outUsed]))
    {
      FillPacket();
      eff := D.NONE;
      if inUsed == inLen {
        inLen := -1;
        frameId := NextId(frameId);
        eff := eff.(inputDone := true);
      }
      if D.OutAvail(cfg, outUsed) <= 0 || cfg.latency < 0 {
        eff := eff.(packet := Some(out[..outUsed]));
        out := null;
        if cfg.latency >= 0 {
          timerRunning := false;
        }
      } else if !timerRunning {
        timerRunning := true;
      }
    }

    /** A frame to send: it waits if there is no packet to write to. */
    method InputSend(data: bytes) returns (eff: D.Effects)
      requires Valid() && inLen == -1 && |data| <= cfg.inputMtu
      modifies this, out
      ensures Valid()
      ensures (View(), eff) == D.Step(cfg, old(View()), D.Send(data))
    {
      inLen, input, inUsed := |data|, data, 0;
      if out == null {
        return D.NONE;
      }
      eff := WriteChunks();
    }

    /** The frame is cancelled; its id is not used up. */
    method InputRequestCancel() returns (eff: D.Effects)
      requires Valid() && inLen >= 0
      modifies this`inLen
      ensures Valid()
      ensures (View(), eff) == D.Step(cfg, old(View()), D.Cancel)
    {
      inLen := -1;
      eff := D.Effects(true, None);
    }

    /** A buffer to fill: it waits if there is no frame. */
    method OutputRecv(data: array<byte>) returns (eff: D.Effects)
      requires Valid() && out == null && data.Length == cfg.outputMtu
      modifies this, data
      ensures Valid()
      ensures (View(), eff) == D.Step(cfg, old(View()), D.Recv)
    {
      out, outUsed := data, 0;
      assert out[..0] == [];
      if inLen < 0 {
        return D.NONE;
      }
      eff := WriteChunks();
    }

    /** The packet has waited long enough. */
    method TimerHandler() returns (eff: D.Effects)
      requires Valid() && timerRunning
      modifies this`out, this`timerRunning
      ensures Valid()
      ensures (View(), eff) == D.Step(cfg, old(View()), D.TimerFires)
    {
      timerRunning := false;
      eff := D.Effects(false, Some(out[..outUsed]));
      out := null;
    }
  }
}
