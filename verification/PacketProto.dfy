/**
 * Packets over a stream: each is sent as its length and its bytes, and the decoder cuts a stream that
 * arrives in arbitrary pieces back into packets, inside one buffer of fixed size.
 */
module PacketProto {
  import opened Bytes
  import opened Options
  import opened Sequences

  const HEADER := 2
  const MAX_PAYLOAD := UINT16_MAX

  function Encode(p: bytes): (bs: bytes)
    requires |p| <= MAX_PAYLOAD
    ensures |bs| == HEADER + |p|
  {
    Le16(|p|) + p
  }

  type Payload = p: bytes | |p| <= MAX_PAYLOAD

  function EncodeAll(ps: seq<Payload>): (bs: bytes)
  {
    if ps == [] then [] else Encode(ps[0]) + EncodeAll(ps[1..])
  }

  // ---------- the decoder ----------

  /** The decoder's MTU is cut down to what a length can express; the buffer holds one packet of it. */
  function DecoderMtu(outputMtu: nat): (mtu: nat)
    ensures mtu <= MAX_PAYLOAD
  {
    if outputMtu <= MAX_PAYLOAD then outputMtu else MAX_PAYLOAD
  }

  function BufSize(mtu: nat): nat {
    HEADER + mtu
  }

  /**
   * `pending` is what the buffer holds from `start` on. The decoder is always doing exactly one thing:
   * receiving into the rest of the buffer, or sending the packet right before `start`.
   */
  datatype State =
    | Receiving(start: nat, pending: bytes)
    | Sending(start: nat, pending: bytes, packet: Payload)

  datatype Output = Packet(packet: Payload) | Error

  function Initial(): State {
    Receiving(0, [])
  }

  /** Cuts one packet off the buffer, or asks for more data; the second result is what the user sees of it. */
  function Process(mtu: nat, start: nat, pending: bytes): (State, Option<Output>)
    requires mtu <= MAX_PAYLOAD
  {
    if |pending| >= HEADER && FromLe16(pending) > mtu then (Receiving(0, []), Some(Error))
    else if |pending| >= HEADER && |pending| - HEADER >= FromLe16(pending) then
      var len := FromLe16(pending);
      var packet := pending[HEADER..HEADER + len];
      (Sending(start + HEADER + len, pending[HEADER + len..], packet), Some(Packet(packet)))
    else
      (Receiving(if start + |pending| == BufSize(mtu) then 0 else start, pending), None)
  }

  datatype Event = Data(data: bytes) | Done | Reset

  function Room(mtu: nat, s: State): int {
    BufSize(mtu) - (s.start + |s.pending|)
  }

  /** Data comes when asked for, some but no more than that; a send completes when there is one. */
  predicate Enabled(mtu: nat, s: State, ev: Event) {
    match ev
    case Data(data) => s.Receiving? && 0 < |data| <= Room(mtu, s)
    case Done => s.Sending?
    case Reset => true
  }

  function Step(mtu: nat, s: State, ev: Event): (State, Option<Output>)
    requires mtu <= MAX_PAYLOAD && Enabled(mtu, s, ev)
  {
    match ev
    case Data(data) => Process(mtu, s.start, s.pending + data)
    case Done => Process(mtu, s.start, s.pending)
    case Reset => (s.(start := s.start + |s.pending|, pending := []), None)
  }

  /** The header, if there, announces no more than the MTU, and the packet is not there in full. */
  predicate Incomplete(mtu: nat, pending: bytes) {
    |pending| >= HEADER ==> FromLe16(pending) <= mtu && |pending| - HEADER < FromLe16(pending)
  }

  /** The request for data is never empty, and the packet being sent lies in the buffer before what is pending. */
  predicate Inv(mtu: nat, s: State) {
    && s.start + |s.pending| <= BufSize(mtu)
    && (s.Receiving? ==> Incomplete(mtu, s.pending) && Room(mtu, s) > 0)
    && (s.Sending? ==> |s.packet| <= mtu && HEADER + |s.packet| <= s.start)
  }

  lemma ProcessInv(mtu: nat, start: nat, pending: bytes)
    requires mtu <= MAX_PAYLOAD && start + |pending| <= BufSize(mtu)
    ensures Inv(mtu, Process(mtu, start, pending).0)
  {
  }

  lemma StepInv(mtu: nat, s: State, ev: Event)
    requires mtu <= MAX_PAYLOAD && Inv(mtu, s) && Enabled(mtu, s, ev)
    ensures Inv(mtu, Step(mtu, s, ev).0)
  {
    match ev
    case Data(data) => ProcessInv(mtu, s.start, s.pending + data);
    case Done => ProcessInv(mtu, s.start, s.pending);
    case Reset =>
  }

  // ---------- conservation ----------

  /** What has come in and gone out since the last reset or error. */
  datatype History = History(stream: bytes, packets: seq<Payload>)

  function Note(h: History, ev: Event, out: Option<Output>): History {
    if ev.Reset? || out == Some(Error) then History([], [])
    else
      History(if ev.Data? then h.stream + ev.data else h.stream,
              if out.Some? then h.packets + [out.value.packet] else h.packets)
  }

  /** Every byte received has gone out as part of a packet or is pending, in order. */
  predicate Conserved(s: State, h: History) {
    h.stream == EncodeAll(h.packets) + s.pending
  }

  lemma {:induction false} EncodeAllSnoc(ps: seq<Payload>, p: Payload)
    ensures EncodeAll(ps + [p]) == EncodeAll(ps) + Encode(p)
  {
    if ps == [] {
      assert (ps + [p])[1..] == [];
    } else {
      EncodeAllSnoc(ps[1..], p);
      assert (ps + [p])[1..] == ps[1..] + [p];
      Assoc(Encode(ps[0]), EncodeAll(ps[1..]), Encode(p));
    }
  }

  lemma Le16Decode(bs: bytes)
    requires |bs| >= HEADER
    ensures Le16(FromLe16(bs)) == bs[..HEADER]
  {
  }

  /** The packet that is cut off is the one that the pending bytes begin with. */
  lemma ProcessSplits(mtu: nat, start: nat, pending: bytes)
    requires mtu <= MAX_PAYLOAD
    ensures var (s, out) := Process(mtu, start, pending);
            match out
            case None => s.pending == pending && s.Receiving?
            case Some(Packet(p)) => s == Sending(s.start, s.pending, p) && |p| <= mtu && pending == Encode(p) + s.pending
            case Some(Error) => s == Initial() && |pending| >= HEADER && FromLe16(pending) > mtu
  {
    var (s, out) := Process(mtu, start, pending);
    if out.Some? && out.value.Packet? {
      Le16Decode(pending);
      var len := FromLe16(pending);
      assert pending == pending[..HEADER] + pending[HEADER..HEADER + len] + pending[HEADER + len..];
    }
  }

  lemma ProcessConserves(mtu: nat, start: nat, pending: bytes, packets: seq<Payload>)
    requires mtu <= MAX_PAYLOAD
    ensures var (s, out) := Process(mtu, start, pending);
            out != Some(Error) ==>
              EncodeAll(if out.Some? then packets + [out.value.packet] else packets) + s.pending == EncodeAll(packets) + pending
  {
    hide Process, Encode;
    ProcessSplits(mtu, start, pending);
    var (s, out) := Process(mtu, start, pending);
    if out.Some? && out.value.Packet? {
      EncodeAllSnoc(packets, out.value.packet);
      Assoc(EncodeAll(packets), Encode(out.value.packet), s.pending);
    }
  }

  lemma StepConserves(mtu: nat, s: State, h: History, ev: Event)
    requires mtu <= MAX_PAYLOAD && Enabled(mtu, s, ev) && Conserved(s, h)
    ensures var (s', out) := Step(mtu, s, ev); Conserved(s', Note(h, ev, out))
  {
    hide Process, EncodeAll;
    NoPackets();
    match ev
    case Data(data) =>
      ProcessConserves(mtu, s.start, s.pending + data, h.packets);
      ProcessSplits(mtu, s.start, s.pending + data);
      Assoc(EncodeAll(h.packets), s.pending, data);
    case Done =>
      ProcessConserves(mtu, s.start, s.pending, h.packets);
      ProcessSplits(mtu, s.start, s.pending);
    case Reset =>
  }

  lemma NoPackets()
    ensures EncodeAll([]) == []
  {
  }

  // ---------- runs ----------

  ghost predicate Possible(mtu: nat, s: State, evs: seq<Event>)
    requires mtu <= MAX_PAYLOAD
    decreases |evs|
  {
    evs == [] || (Enabled(mtu, s, evs[0]) && Possible(mtu, Step(mtu, s, evs[0]).0, evs[1..]))
  }

  function Run(mtu: nat, s: State, h: History, evs: seq<Event>): (State, History)
    requires mtu <= MAX_PAYLOAD && Possible(mtu, s, evs)
    decreases |evs|
  {
    if evs == [] then (s, h)
    else
      var (s', out) := Step(mtu, s, evs[0]);
      Run(mtu, s', Note(h, evs[0], out), evs[1..])
  }

  lemma {:induction false} RunInv(mtu: nat, s: State, h: History, evs: seq<Event>)
    requires mtu <= MAX_PAYLOAD && Possible(mtu, s, evs) && Inv(mtu, s) && Conserved(s, h)
    ensures var (s', h') := Run(mtu, s, h, evs); Inv(mtu, s') && Conserved(s', h')
    decreases |evs|
  {
    hide Step, Inv, Conserved, Enabled, Note;
    if evs != [] {
      var (s', out) := Step(mtu, s, evs[0]);
      StepInv(mtu, s, evs[0]);
      StepConserves(mtu, s, h, evs[0]);
      RunInv(mtu, s', Note(h, evs[0], out), evs[1..]);
    }
  }

  lemma InitialInv(mtu: nat)
    requires mtu <= MAX_PAYLOAD
    ensures Inv(mtu, Initial()) && Conserved(Initial(), History([], []))
  {
  }

  /**
   * Every run, on any stream and with any resets and errors: the decoder asks for a positive number of
   * bytes inside its buffer, and what has come in since the last reset or error is what has gone out
   * followed by what is pending.
   */
  lemma EveryRun(mtu: nat, evs: seq<Event>)
    requires mtu <= MAX_PAYLOAD && Possible(mtu, Initial(), evs)
    ensures var (s, h) := Run(mtu, Initial(), History([], []), evs);
            && (s.Receiving? ==> 0 < Room(mtu, s) && s.start + |s.pending| + Room(mtu, s) == BufSize(mtu))
            && h.stream == EncodeAll(h.packets) + s.pending
            && (s.Receiving? ==> Incomplete(mtu, s.pending))
  {
    InitialInv(mtu);
    RunInv(mtu, Initial(), History([], []), evs);
  }

  // ---------- where bytes are, and who waits for whom ----------

  /** Where in the buffer the next byte goes. */
  function Place(s: State): nat {
    s.start + |s.pending|
  }

  /**
   * Bytes go to consecutive places, and what is pending is moved to the front only when the buffer is full and nothing
   * can be cut off. A reset moves nothing: data that has been asked for still has its place, and a packet is still sent.
   */
  lemma BytesInPlace(mtu: nat, s: State, ev: Event)
    requires mtu <= MAX_PAYLOAD && Inv(mtu, s) && Enabled(mtu, s, ev)
    ensures var (s', out) := Step(mtu, s, ev);
            var end := Place(s) + if ev.Data? then |ev.data| else 0;
            && (ev.Reset? ==>
                  && s'.pending == [] && Place(s') == Place(s) && (s'.Sending? <==> s.Sending?)
                  && (s.Sending? ==> s'.packet == s.packet))
            && (!ev.Reset? && out == None ==> s'.Receiving? && s'.start == if end == BufSize(mtu) then 0 else s.start)
            && (out.Some? && out.value.Packet? ==> Place(s') == end)
  {
    hide Process, Inv;
    match ev
    case Data(data) => CutInPlace(mtu, s.start, s.pending + data);
    case Done => CutInPlace(mtu, s.start, s.pending);
    case Reset =>
  }

  lemma CutInPlace(mtu: nat, start: nat, pending: bytes)
    requires mtu <= MAX_PAYLOAD
    ensures var (s, out) := Process(mtu, start, pending);
            && (out == None ==> s.Receiving? && s.start == if start + |pending| == BufSize(mtu) then 0 else start)
            && (out.Some? && out.value.Packet? ==> Place(s) == start + |pending|)
  {
  }

  /** How many packets go out in a run, and how many are done. */
  ghost function Sent(mtu: nat, s: State, evs: seq<Event>): nat
    requires mtu <= MAX_PAYLOAD && Possible(mtu, s, evs)
    decreases |evs|
  {
    if evs == [] then 0
    else
      var (s', out) := Step(mtu, s, evs[0]);
      (if out.Some? && out.value.Packet? then 1 else 0) + Sent(mtu, s', evs[1..])
  }

  function Dones(evs: seq<Event>): nat {
    if evs == [] then 0 else (if evs[0].Done? then 1 else 0) + Dones(evs[1..])
  }

  function Unanswered(s: State): nat {
    if s.Sending? then 1 else 0
  }

  /** One packet goes out at a time, and none goes out or is forgotten before it is done, whatever is reset or wrong. */
  lemma {:induction false} OneAtATime(mtu: nat, s: State, evs: seq<Event>, h: History)
    requires mtu <= MAX_PAYLOAD && Possible(mtu, s, evs)
    ensures Unanswered(s) + Sent(mtu, s, evs) == Dones(evs) + Unanswered(Run(mtu, s, h, evs).0)
    decreases |evs|
  {
    if evs != [] {
      var (s', out) := Step(mtu, s, evs[0]);
      StepAnswers(mtu, s, evs[0]);
      hide Step, Enabled;
      OneAtATime(mtu, s', evs[1..], Note(h, evs[0], out));
    }
  }

  lemma StepAnswers(mtu: nat, s: State, ev: Event)
    requires mtu <= MAX_PAYLOAD && Enabled(mtu, s, ev)
    ensures var (s', out) := Step(mtu, s, ev);
            Unanswered(s) + (if out.Some? && out.value.Packet? then 1 else 0) == (if ev.Done? then 1 else 0) + Unanswered(s')
  {
  }

  // ---------- the round trip ----------

  lemma FirstLength(p: Payload, rest: bytes)
    ensures FromLe16(Encode(p) + rest) == |p|
  {
    assert (Encode(p) + rest)[0] == Le16(|p|)[0] && (Encode(p) + rest)[1] == Le16(|p|)[1];
  }

  /** A stream can be cut into packets in one way only. */
  lemma SamePacket(p: Payload, q: Payload, s: bytes, t: bytes)
    requires Encode(p) + s <= Encode(q) + t
    ensures p == q && s <= t
  {
    FirstLength(p, s);
    FirstLength(q, t);
    var a, b := Encode(p) + s, Encode(q) + t;
    assert a[0] == b[0] && a[1] == b[1];
    assert a[HEADER..HEADER + |p|] == p;
    assert b[HEADER..HEADER + |p|] == q;
    assert a == b[..|a|];
    assert a[HEADER + |p|..] == s && b[HEADER + |p|..] == t;
  }

  lemma {:induction false} PacketsArePrefix(es: seq<Payload>, pending: bytes, ps: seq<Payload>)
    requires EncodeAll(es) + pending <= EncodeAll(ps)
    ensures es <= ps && pending <= EncodeAll(ps[|es|..])
    decreases |es|
  {
    hide Encode;
    if es != [] {
      Assoc(Encode(es[0]), EncodeAll(es[1..]), pending);
      if ps != [] {
        SamePacket(es[0], ps[0], EncodeAll(es[1..]) + pending, EncodeAll(ps[1..]));
        PacketsArePrefix(es[1..], pending, ps[1..]);
        assert ps[1..][|es| - 1..] == ps[|es|..];
        assert es == [es[0]] + es[1..] && ps == [ps[0]] + ps[1..];
      }
    }
  }

  /** Nothing incomplete can be all that is left of a stream of whole packets. */
  lemma NothingLeft(mtu: nat, pending: bytes, ps: seq<Payload>)
    requires Incomplete(mtu, pending) && pending == EncodeAll(ps)
    ensures ps == []
  {
    if ps != [] {
      FirstLength(ps[0], EncodeAll(ps[1..]));
    }
  }

  /** What is pending of a stream of packets within the MTU never announces more than the MTU. */
  lemma NoErrorLeft(mtu: nat, pending: bytes, ps: seq<Payload>)
    requires pending <= EncodeAll(ps) && |pending| >= HEADER
    requires forall i :: 0 <= i < |ps| ==> |ps[i]| <= mtu
    ensures FromLe16(pending) <= mtu
  {
    FirstLength(ps[0], EncodeAll(ps[1..]));
    assert pending[0] == EncodeAll(ps)[0] && pending[1] == EncodeAll(ps)[1];
  }

  predicate WithinMtu(mtu: nat, ps: seq<Payload>) {
    forall i :: 0 <= i < |ps| ==> |ps[i]| <= mtu
  }

  /** The bytes delivered by a run. */
  function Delivered(evs: seq<Event>): bytes {
    if evs == [] then [] else (if evs[0].Data? then evs[0].data else []) + Delivered(evs[1..])
  }

  ghost predicate NoReset(evs: seq<Event>) {
    forall i :: 0 <= i < |evs| ==> !evs[i].Reset?
  }

  lemma StepNoError(mtu: nat, s: State, h: History, ev: Event, ps: seq<Payload>)
    requires mtu <= MAX_PAYLOAD && Enabled(mtu, s, ev) && Conserved(s, h) && WithinMtu(mtu, ps) && !ev.Reset?
    requires (if ev.Data? then h.stream + ev.data else h.stream) <= EncodeAll(ps)
    ensures Step(mtu, s, ev).1 != Some(Error)
  {
    hide EncodeAll;
    var pending := if ev.Data? then s.pending + ev.data else s.pending;
    if ev.Data? {
      Assoc(EncodeAll(h.packets), s.pending, ev.data);
    }
    PacketsArePrefix(h.packets, pending, ps);
    if |pending| >= HEADER {
      NoErrorLeft(mtu, pending, ps[|h.packets|..]);
    }
  }

  /** Without resets and errors the history is that of the whole run. */
  lemma {:induction false} RunHistory(mtu: nat, s: State, h: History, evs: seq<Event>, ps: seq<Payload>)
    requires mtu <= MAX_PAYLOAD && Possible(mtu, s, evs) && NoReset(evs) && Conserved(s, h) && WithinMtu(mtu, ps)
    requires h.stream + Delivered(evs) <= EncodeAll(ps)
    ensures var (_, h') := Run(mtu, s, h, evs); h'.stream == h.stream + Delivered(evs)
    decreases |evs|
  {
    hide Step, Conserved, WithinMtu, EncodeAll, Enabled;
    if evs != [] {
      var (s', out) := Step(mtu, s, evs[0]);
      var first := if evs[0].Data? then evs[0].data else [];
      Assoc(h.stream, first, Delivered(evs[1..]));
      EmptyUnit(h.stream);
      assert h.stream + first <= EncodeAll(ps);
      StepNoError(mtu, s, h, evs[0], ps);
      StepConserves(mtu, s, h, evs[0]);
      RunHistory(mtu, s', Note(h, evs[0], out), evs[1..], ps);
    }
  }

  /**
   * Round trip: packets within the decoder's MTU, encoded one after the other and delivered in any
   * non-empty pieces, come out as they are and in order; and they have all come out once everything has
   * been delivered and the decoder waits for more.
   */
  lemma RoundTrip(mtu: nat, ps: seq<Payload>, evs: seq<Event>)
    requires mtu <= MAX_PAYLOAD && WithinMtu(mtu, ps)
    requires Possible(mtu, Initial(), evs) && NoReset(evs) && Delivered(evs) <= EncodeAll(ps)
    ensures var (s, h) := Run(mtu, Initial(), History([], []), evs);
            && h.packets <= ps
            && (Delivered(evs) == EncodeAll(ps) && s.Receiving? ==> h.packets == ps)
  {
    hide WithinMtu, Possible, Run, EncodeAll, NoReset, Incomplete;
    var h0 := History([], []);
    EmptyUnit(Delivered(evs));
    InitialInv(mtu);
    RunHistory(mtu, Initial(), h0, evs, ps);
    EveryRun(mtu, evs);
    var (s, h) := Run(mtu, Initial(), h0, evs);
    PacketsArePrefix(h.packets, s.pending, ps);
    if Delivered(evs) == EncodeAll(ps) && s.Receiving? {
      EncodeAllSplit(ps, |h.packets|);
      assert h.packets == ps[..|h.packets|];
      Cancel(EncodeAll(h.packets), s.pending, EncodeAll(ps[|h.packets|..]));
      NothingLeft(mtu, s.pending, ps[|h.packets|..]);
    }
  }

  lemma {:induction false} EncodeAllSplit(ps: seq<Payload>, k: nat)
    requires k <= |ps|
    ensures EncodeAll(ps) == EncodeAll(ps[..k]) + EncodeAll(ps[k..])
  {
    if k == 0 {
      assert ps[0..] == ps;
    } else {
      EncodeAllSplit(ps[1..], k - 1);
      assert ps[1..][..k - 1] == ps[..k][1..];
      assert ps[1..][k - 1..] == ps[k..];
      Assoc(Encode(ps[0]), EncodeAll(ps[..k][1..]), EncodeAll(ps[k..]));
    }
  }

  // ---------- errors ----------

  /** After whole packets within the MTU the stream goes on with a length above it. */
  ghost predicate Oversized(mtu: nat, ps: seq<Payload>, rest: bytes, stream: bytes) {
    stream == EncodeAll(ps) + rest && WithinMtu(mtu, ps) && |rest| >= HEADER && FromLe16(rest) > mtu
  }

  ghost predicate Bad(mtu: nat, stream: bytes) {
    exists ps: seq<Payload>, rest: bytes :: Oversized(mtu, ps, rest, stream)
  }

  lemma BadStays(mtu: nat, stream: bytes, more: bytes)
    requires Bad(mtu, stream)
    ensures Bad(mtu, stream + more)
  {
    var ps: seq<Payload>, rest: bytes :| Oversized(mtu, ps, rest, stream);
    Assoc(EncodeAll(ps), rest, more);
    assert Oversized(mtu, ps, rest + more, stream + more);
  }

  /** A stream that has been cut into packets, with nothing but the beginning of one left, is not of that kind. */
  lemma {:induction false} NotBad(mtu: nat, es: seq<Payload>, pending: bytes, ps: seq<Payload>, rest: bytes)
    requires WithinMtu(mtu, es) && Incomplete(mtu, pending)
    ensures !Oversized(mtu, ps, rest, EncodeAll(es) + pending)
    decreases |es|
  {
    EmptyUnit(pending);
    EmptyUnit(rest);
    if es != [] {
      Assoc(Encode(es[0]), EncodeAll(es[1..]), pending);
      FirstLength(es[0], EncodeAll(es[1..]) + pending);
    }
    if ps != [] {
      Assoc(Encode(ps[0]), EncodeAll(ps[1..]), rest);
      FirstLength(ps[0], EncodeAll(ps[1..]) + rest);
    }
    if es != [] && ps != [] {
      NotBad(mtu, es[1..], pending, ps[1..], rest);
      SameTail(es[0], ps[0], EncodeAll(es[1..]) + pending, EncodeAll(ps[1..]) + rest);
    }
  }

  lemma SameTail(p: Payload, q: Payload, s: bytes, t: bytes)
    ensures Encode(p) + s == Encode(q) + t ==> s == t
  {
    if Encode(p) + s == Encode(q) + t {
      SamePacket(p, q, s, t);
      SamePacket(q, p, t, s);
    }
  }

  predicate ErrorFree(mtu: nat, s: State, evs: seq<Event>)
    requires mtu <= MAX_PAYLOAD && Possible(mtu, s, evs)
    decreases |evs|
  {
    evs == [] || (Step(mtu, s, evs[0]).1 != Some(Error) && ErrorFree(mtu, Step(mtu, s, evs[0]).0, evs[1..]))
  }

  /** One event: an error is reported only on a stream of that kind; otherwise the packets stay within the MTU. */
  lemma StepErrors(mtu: nat, s: State, h: History, ev: Event)
    requires mtu <= MAX_PAYLOAD && Enabled(mtu, s, ev) && !ev.Reset? && Conserved(s, h) && WithinMtu(mtu, h.packets)
    ensures var (s', out) := Step(mtu, s, ev);
            if out == Some(Error) then Bad(mtu, h.stream + Delivered([ev]))
            else Note(h, ev, out).stream == h.stream + Delivered([ev]) && WithinMtu(mtu, Note(h, ev, out).packets)
  {
    hide Process, EncodeAll, Bad;
    assert [ev][1..] == [] && Delivered([]) == [];
    match ev
    case Data(data) =>
      EmptyUnit(data);
      Assoc(EncodeAll(h.packets), s.pending, data);
      ProcessErrors(mtu, s.start, s.pending + data, h.packets);
    case Done =>
      EmptyUnit(h.stream);
      ProcessErrors(mtu, s.start, s.pending, h.packets);
  }

  lemma ProcessErrors(mtu: nat, start: nat, pending: bytes, packets: seq<Payload>)
    requires mtu <= MAX_PAYLOAD && WithinMtu(mtu, packets)
    ensures var (_, out) := Process(mtu, start, pending);
            if out == Some(Error) then Bad(mtu, EncodeAll(packets) + pending)
            else WithinMtu(mtu, if out.Some? then packets + [out.value.packet] else packets)
  {
    hide Process, EncodeAll, Encode, FromLe16;
    ProcessSplits(mtu, start, pending);
    if Process(mtu, start, pending).1 == Some(Error) {
      assert Oversized(mtu, packets, pending, EncodeAll(packets) + pending);
    }
  }

  lemma {:induction false} RunErrors(mtu: nat, s: State, h: History, evs: seq<Event>)
    requires mtu <= MAX_PAYLOAD && Possible(mtu, s, evs) && NoReset(evs) && Conserved(s, h) && WithinMtu(mtu, h.packets)
    ensures !ErrorFree(mtu, s, evs) ==> Bad(mtu, h.stream + Delivered(evs))
    ensures ErrorFree(mtu, s, evs) ==>
              var (_, h') := Run(mtu, s, h, evs); h'.stream == h.stream + Delivered(evs) && WithinMtu(mtu, h'.packets)
    decreases |evs|
  {
    EmptyUnit(h.stream);
    if evs != [] {
      hide Step, Conserved, WithinMtu, EncodeAll, Enabled, Bad, Note;
      var ev, rest := evs[0], evs[1..];
      StepErrors(mtu, s, h, ev);
      DeliveredCons(evs);
      Assoc(h.stream, Delivered([ev]), Delivered(rest));
      var (s', out) := Step(mtu, s, ev);
      if out == Some(Error) {
        BadStays(mtu, h.stream + Delivered([ev]), Delivered(rest));
      } else {
        StepConserves(mtu, s, h, ev);
        RunErrors(mtu, s', Note(h, ev, out), rest);
      }
    }
  }

  lemma DeliveredCons(evs: seq<Event>)
    requires evs != []
    ensures Delivered(evs) == Delivered([evs[0]]) + Delivered(evs[1..])
  {
    assert [evs[0]][1..] == [] && Delivered([]) == [];
    EmptyUnit(if evs[0].Data? then evs[0].data else []);
  }

  /**
   * Errors, exactly. For every way of delivering a stream after which the decoder waits for more: no error has
   * been reported if and only if the stream does not consist of whole packets within the MTU followed by a
   * length above it.
   */
  lemma ErrorExactly(mtu: nat, evs: seq<Event>)
    requires mtu <= MAX_PAYLOAD && Possible(mtu, Initial(), evs) && NoReset(evs)
    requires Run(mtu, Initial(), History([], []), evs).0.Receiving?
    ensures ErrorFree(mtu, Initial(), evs) <==> !Bad(mtu, Delivered(evs))
  {
    hide Possible, Run, EncodeAll, NoReset, Incomplete, ErrorFree;
    var h0 := History([], []);
    InitialInv(mtu);
    EmptyUnit(Delivered(evs));
    RunErrors(mtu, Initial(), h0, evs);
    EveryRun(mtu, evs);
    var (s, h) := Run(mtu, Initial(), h0, evs);
    if ErrorFree(mtu, Initial(), evs) {
      forall ps: seq<Payload>, rest: bytes ensures !Oversized(mtu, ps, rest, Delivered(evs)) {
        NotBad(mtu, h.packets, s.pending, ps, rest);
      }
    }
  }
}
