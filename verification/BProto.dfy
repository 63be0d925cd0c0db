/**
 * The serialisation that the generator emits code for, over an arbitrary message declaration. A message
 * is a sequence of entries, each an id, a type code and a payload; the generated writer appends entries
 * and the generated parser checks them and hands out the values of each field.
 */
module BProto {
  import opened Bytes
  import opened Options

  const HEADER := 4
  const LENGTH := 4
  const DATA := 5
  const CONSTDATA := 6

  // ---------- entries on the wire ----------

  predicate IsUInt(code: nat) {
    1 <= code <= 4
  }

  predicate IsBlob(code: nat) {
    code == DATA || code == CONSTDATA
  }

  function Width(code: nat): nat
    requires IsUInt(code)
  {
    if code == 1 then 1 else if code == 2 then 2 else if code == 3 then 4 else 8
  }

  datatype Entry = Entry(id: nat, code: nat, payload: bytes) {
    predicate Valid() {
      && id <= UINT16_MAX
      && (IsUInt(code) || IsBlob(code))
      && (IsUInt(code) ==> |payload| == Width(code))
      && (IsBlob(code) ==> |payload| <= UINT32_MAX)
    }
  }

  type WireEntry = e: Entry | e.Valid() witness Entry(0, 1, [0])

  function Size(e: Entry): (n: nat)
    ensures n >= HEADER
  {
    HEADER + (if IsBlob(e.code) then LENGTH else 0) + |e.payload|
  }

  function EncodeHeader(id: nat, code: nat): (bs: bytes)
    requires id <= UINT16_MAX && code <= UINT16_MAX
    ensures |bs| == HEADER
  {
    Le16(id) + Le16(code)
  }

  function EncodeBody(code: nat, payload: bytes): bytes {
    if IsBlob(code) then LittleEndian(|payload|, LENGTH) + payload else payload
  }

  function EncodeEntry(e: WireEntry): (bs: bytes)
    ensures |bs| == Size(e)
  {
    EncodeHeader(e.id, e.code) + EncodeBody(e.code, e.payload)
  }

  function EncodeEntries(es: seq<WireEntry>): (bs: bytes)
  {
    if es == [] then [] else EncodeEntry(es[0]) + EncodeEntries(es[1..])
  }

  /** Reads what follows a header with type code `code`. */
  function ReadBody(code: nat, buf: bytes): Option<bytes> {
    if IsUInt(code) then
      if |buf| < Width(code) then None else Some(buf[..Width(code)])
    else if IsBlob(code) then
      if |buf| < LENGTH then None
      else
        var len := FromLittleEndian(buf[..LENGTH]);
        if |buf| - LENGTH < len then None else Some(buf[LENGTH..LENGTH + len])
    else None
  }

  /** Reads one entry off the front of `buf`; every rejection that does not depend on the declaration is `None`. */
  function ReadEntry(buf: bytes): Option<Entry> {
    if |buf| < HEADER then None
    else
      var id := FromLe16(buf);
      var code := FromLe16(buf[2..]);
      match ReadBody(code, buf[HEADER..])
      case None => None
      case Some(payload) => Some(Entry(id, code, payload))
  }

  // ---------- reading is the inverse of writing ----------

  lemma Le16Inverse(v: nat, bs: bytes)
    requires |bs| >= 2
    ensures FromLe16(bs) == v <==> v <= UINT16_MAX && bs[..2] == Le16(v)
  {
    if v <= UINT16_MAX && bs[..2] == Le16(v) {
      assert bs[0] == Le16(v)[0] && bs[1] == Le16(v)[1];
    }
  }

  lemma {:induction false} LittleEndianInverse(bs: bytes)
    ensures LittleEndian(FromLittleEndian(bs), |bs|) == bs
  {
    if bs != [] {
      LittleEndianInverse(bs[1..]);
      assert bs == [bs[0]] + bs[1..];
    }
  }

  lemma Span256Four()
    ensures Span256(LENGTH) == UINT32_MAX + 1
  {
    assert Span256(1) == 256 && Span256(2) == 0x1_0000 && Span256(3) == 0x100_0000;
  }

  lemma LengthRoundTrip(len: nat, bs: bytes)
    requires |bs| == LENGTH
    ensures FromLittleEndian(bs) == len <==> len <= UINT32_MAX && bs == LittleEndian(len, LENGTH)
  {
    Span256Four();
    LittleEndianInverse(bs);
    if len <= UINT32_MAX {
      LittleEndianRoundTrip(len, LENGTH);
    }
  }

  /** The header can be read back, and only from its own encoding. */
  lemma HeaderExact(id: nat, code: nat, buf: bytes)
    requires |buf| >= HEADER
    ensures FromLe16(buf) == id && FromLe16(buf[2..]) == code <==>
            id <= UINT16_MAX && code <= UINT16_MAX && buf[..HEADER] == EncodeHeader(id, code)
  {
    Le16Inverse(id, buf);
    Le16Inverse(code, buf[2..]);
    assert buf[2..][..2] == buf[2..HEADER];
    assert buf[..HEADER] == buf[..2] + buf[2..HEADER];
    if id <= UINT16_MAX && code <= UINT16_MAX && buf[..HEADER] == EncodeHeader(id, code) {
      assert buf[..2] == buf[..HEADER][..2] == Le16(id);
      assert buf[2..HEADER] == buf[..HEADER][2..] == Le16(code);
    }
  }

  lemma BodyExact(code: nat, payload: bytes, buf: bytes)
    ensures ReadBody(code, buf) == Some(payload) <==>
            && Entry(0, code, payload).Valid()
            && |EncodeBody(code, payload)| <= |buf|
            && buf[..|EncodeBody(code, payload)|] == EncodeBody(code, payload)
  {
    if IsBlob(code) && |buf| >= LENGTH {
      var head := buf[..LENGTH];
      LengthRoundTrip(|payload|, head);
      LengthRoundTrip(FromLittleEndian(head), head);
      if LENGTH + |payload| <= |buf| {
        assert buf[..LENGTH + |payload|] == head + buf[LENGTH..LENGTH + |payload|];
        assert (LittleEndian(|payload|, LENGTH) + payload)[..LENGTH] == LittleEndian(|payload|, LENGTH);
        assert (LittleEndian(|payload|, LENGTH) + payload)[LENGTH..] == payload;
        assert buf[..LENGTH + |payload|][..LENGTH] == head;
        assert buf[..LENGTH + |payload|][LENGTH..] == buf[LENGTH..LENGTH + |payload|];
      }
    }
  }

  /** An entry is read exactly when the buffer starts with its encoding. */
  lemma ReadEntryExact(buf: bytes, e: Entry)
    ensures ReadEntry(buf) == Some(e) <==> e.Valid() && Size(e) <= |buf| && buf[..Size(e)] == EncodeEntry(e)
  {
    hide ReadBody, EncodeHeader, FromLe16, Entry.Valid;
    if |buf| >= HEADER {
      HeaderExact(e.id, e.code, buf);
      BodyExact(e.code, e.payload, buf[HEADER..]);
      SizeIsEncoded(e);
      if e.Valid() && Size(e) <= |buf| {
        SplitHeader(buf, Size(e), e);
      }
      ValidParts(e);
    } else {
      ValidParts(e);
    }
  }

  lemma ValidParts(e: Entry)
    ensures e.Valid() <==> e.id <= UINT16_MAX && Entry(0, e.code, e.payload).Valid()
    ensures e.Valid() ==> e.code <= UINT16_MAX
  {
  }

  lemma SizeIsEncoded(e: Entry)
    ensures Size(e) == HEADER + |EncodeBody(e.code, e.payload)|
  {
  }

  lemma SplitHeader(buf: bytes, size: nat, e: WireEntry)
    requires HEADER <= size == Size(e) <= |buf|
    ensures buf[..size] == EncodeEntry(e) <==>
            buf[..HEADER] == EncodeHeader(e.id, e.code) && buf[HEADER..][..size - HEADER] == EncodeBody(e.code, e.payload)
  {
    var header, body := EncodeHeader(e.id, e.code), EncodeBody(e.code, e.payload);
    assert buf[HEADER..][..size - HEADER] == buf[HEADER..size];
    assert buf[..size] == buf[..HEADER] + buf[HEADER..size];
    assert (header + body)[..HEADER] == header && (header + body)[HEADER..] == body;
    assert buf[..size][..HEADER] == buf[..HEADER] && buf[..size][HEADER..] == buf[HEADER..size];
  }
}
