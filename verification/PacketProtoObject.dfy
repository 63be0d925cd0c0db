/** The stream decoder and encoder as objects working in place on their buffers. */
module PacketProtoObject {
  import opened Bytes
  import opened Options
  import opened Memory
  import opened PacketProto

  /** Where a packet of `len` bytes and what follows it are in the buffer. */
  lemma CutOff(all: bytes, start: nat, used: nat, len: nat)
    requires start + used <= |all| && HEADER + len <= used
    ensures var pending := all[start..start + used];
            && pending[HEADER..HEADER + len] == all[start + HEADER..start + HEADER + len]
            && pending[HEADER + len..] == all[start + HEADER + len..start + used]
  {
    var pending := all[start..start + used];
    var inside, there := pending[HEADER..HEADER + len], all[start + HEADER..start + HEADER + len];
    forall i | 0 <= i < len ensures inside[i] == there[i] {
      assert inside[i] == pending[HEADER + i] == all[start + HEADER + i];
    }
    assert inside == there;
    assert pending[HEADER + len..] == all[start + HEADER + len..start + used];
  }

  class Decoder {
    const outputMtu: nat
    const buf: array<byte>
    var bufStart: nat
    var bufUsed: nat

    /** The packet that the output is busy with, as a place in the buffer; none while data is awaited. */
    var sending: Option<(nat, nat)>

    ghost predicate Shaped()
      reads this, buf
    {
      && outputMtu <= MAX_PAYLOAD && buf.Length == BufSize(outputMtu)
      && bufStart + bufUsed <= buf.Length
      && (sending.Some? ==> sending.value.0 + sending.value.1 <= bufStart && sending.value.1 <= MAX_PAYLOAD)
    }

    ghost function View(): State
      requires Shaped()
      reads this, buf
    {
      var pending := buf[bufStart..bufStart + bufUsed];
      match sending
      case None => Receiving(bufStart, pending)
      case Some(p) => Sending(bufStart, pending, buf[p.0..p.0 + p.1])
    }

    ghost predicate Valid()
      reads this, buf
    {
      Shaped() && Inv(outputMtu, View())
    }

    /** Where the next data goes, and how much of it there may be. */
    method Request() returns (at: nat, len: nat)
      requires Valid() && sending.None?
      ensures 0 < len && at + len == buf.Length
      ensures at == bufStart + bufUsed && len == Room(outputMtu, View())
    {
      at, len := bufStart + bufUsed, buf.Length - (bufStart + bufUsed);
    }

    constructor (mtu: nat)
      ensures Valid() && fresh(buf) && outputMtu == DecoderMtu(mtu) && View() == Initial()
    {
      outputMtu := DecoderMtu(mtu);
      buf := new byte[BufSize(DecoderMtu(mtu))](_ => 0);
      bufStart, bufUsed := 0, 0;
      sending := None;
    }

    /** Moves what is pending to the beginning of the buffer. */
    method Wrap()
      requires Shaped() && sending.None?
      modifies this`bufStart, buf
      ensures Shaped() && bufStart == 0 && buf[0..bufUsed] == old(buf[bufStart..bufStart + bufUsed])
    {
      Copy(buf, 0, buf[bufStart..bufStart + bufUsed]);
      bufStart := 0;
    }

    /** Passes the packet that is pending first to the output, where it is in the buffer. */
    method Submit(dataLen: nat)
      requires Shaped() && HEADER + dataLen <= bufUsed && dataLen <= MAX_PAYLOAD
      modifies this
      ensures Shaped() && sending.Some?
      ensures var pending := old(buf[bufStart..bufStart + bufUsed]);
              View() == Sending(old(bufStart) + HEADER + dataLen, pending[HEADER + dataLen..], pending[HEADER..HEADER + dataLen])
    {
      CutOff(buf[..], bufStart, bufUsed, dataLen);
      bufStart := bufStart + HEADER + dataLen;
      bufUsed := bufUsed - (HEADER + dataLen);
      sending := Some((bufStart - dataLen, dataLen));
    }

    /** Looks for a packet in what is pending; `error` is whether the user is told of an error. */
    method ProcessData() returns (error: bool)
      requires Shaped()
      modifies this, buf
      ensures Valid()
      ensures var (s, out) := Process(outputMtu, old(bufStart), old(buf[bufStart..bufStart + bufUsed]));
              View() == s && (error <==> out == Some(Error)) && (sending.Some? <==> out.Some? && out.value.Packet?)
      ensures sending.Some? ==> buf[..] == old(buf[..])
    {
      hide FromLe16, Inv;
      ghost var pending := buf[bufStart..bufStart + bufUsed];
      ProcessInv(outputMtu, bufStart, pending);
      sending, error := None, false;
      if bufUsed >= HEADER {
        var dataLen := FromLe16(buf[bufStart..bufStart + bufUsed]);
        if dataLen > outputMtu {
          error := true;
        } else if bufUsed - HEADER >= dataLen {
          Submit(dataLen);
          return;
        }
      }
      if error {
        bufStart, bufUsed := 0, 0;
      } else if bufStart + bufUsed == buf.Length {
        Wrap();
      }
    }

    /** The input has put `data` where it was asked to, and reports that. */
    method InputDone(data: bytes) returns (error: bool)
      requires Valid() && Enabled(outputMtu, View(), Data(data))
      modifies this, buf
      ensures Valid()
      ensures View() == Step(outputMtu, old(View()), Data(data)).0
      ensures error <==> Step(outputMtu, old(View()), Data(data)).1 == Some(Error)
    {
      hide Process, Inv;
      ghost var pending := buf[bufStart..bufStart + bufUsed];
      Copy(buf, bufStart + bufUsed, data);
      assert buf[bufStart..bufStart + bufUsed] == buf[..bufStart + bufUsed][bufStart..];
      assert buf[bufStart..bufStart + bufUsed + |data|] == pending + data;
      bufUsed := bufUsed + |data|;
      error := ProcessData();
    }

    /** The output is done with the packet. */
    method OutputDone() returns (error: bool)
      requires Valid() && sending.Some?
      modifies this, buf
      ensures Valid()
      ensures View() == Step(outputMtu, old(View()), Done).0
      ensures error <==> Step(outputMtu, old(View()), Done).1 == Some(Error)
    {
      hide Process, Inv;
      error := ProcessData();
    }

    /** Forgets what is pending. The buffer is not touched: neither a packet being sent nor data being received moves. */
    method Reset()
      requires Valid()
      modifies this`bufStart, this`bufUsed, this`sending
      ensures Valid() && View() == Step(outputMtu, old(View()), Event.Reset).0
      ensures bufStart + bufUsed == old(bufStart + bufUsed)
    {
      bufStart := bufStart + bufUsed;
      bufUsed := 0;
    }
  }

  /** The encoder: packets from its input are received right behind the place of their header. */
  class Encoder {
    const inputMtu: nat
    var outputPacket: array?<byte>

    ghost predicate Valid()
      reads this
    {
      inputMtu <= MAX_PAYLOAD && (outputPacket != null ==> outputPacket.Length >= HEADER + inputMtu)
    }

    constructor (inputMtu: nat)
      requires inputMtu <= MAX_PAYLOAD
      ensures Valid() && this.inputMtu == inputMtu && outputPacket == null
    {
      this.inputMtu := inputMtu;
      outputPacket := null;
    }

    /** The output asks for a packet into `data`; the payload is asked for into `data` from `at` on. */
    method OutputRecv(data: array<byte>) returns (at: nat)
      requires Valid() && outputPacket == null && data.Length >= HEADER + inputMtu
      modifies this
      ensures Valid() && outputPacket == data && at == HEADER
    {
      outputPacket := data;
      at := HEADER;
    }

    /** The payload has arrived; completes the packet for the output. */
    method InputDone(inLen: nat) returns (outLen: nat)
      requires Valid() && outputPacket != null && inLen <= inputMtu
      modifies this, outputPacket
      ensures Valid() && outputPacket == null
      ensures outLen == HEADER + inLen <= old(outputPacket).Length
      ensures old(outputPacket)[..outLen] == Encode(old(outputPacket[HEADER..HEADER + inLen]))
    {
      ghost var payload := outputPacket[HEADER..HEADER + inLen];
      Copy(outputPacket, 0, Le16(inLen));
      assert outputPacket[HEADER..HEADER + inLen] == outputPacket[HEADER..][..inLen] == payload;
      assert outputPacket[..HEADER + inLen] == outputPacket[..HEADER] + outputPacket[HEADER..HEADER + inLen];
      outputPacket := null;
      outLen := HEADER + inLen;
    }
  }
}
