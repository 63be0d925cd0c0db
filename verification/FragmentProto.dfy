/** The chunk format shared by the fragment disassembler and assembler. */
module FragmentProto {
  import opened Bytes

  /** The packed size of the chunk header: frame_id, chunk_start, chunk_len (16 bits each), is_last (8 bits). */
  const HEADER_SIZE := 7

  /** Frame identifiers are 16-bit and wrap. */
  const FRAME_IDS := 0x1_0000

  function NextId(id: nat): (r: nat)
    ensures r < FRAME_IDS
  {
    (id + 1) % FRAME_IDS
  }

  /** One chunk of a frame, as it travels in a packet. */
  datatype Chunk = Chunk(id: nat, start: nat, payload: bytes, last: bool)
  {
    predicate Valid() {
      id <= UINT16_MAX && start <= UINT16_MAX && |payload| <= UINT16_MAX
    }

    function End(): nat {
      start + |payload|
    }
  }

  type ValidChunk = c: Chunk | c.Valid() witness Chunk(0, 0, [], false)

  function EncodeHeader(id: nat, start: nat, len: nat, last: bool): (bs: bytes)
    requires id <= UINT16_MAX && start <= UINT16_MAX && len <= UINT16_MAX
    ensures |bs| == HEADER_SIZE
  {
    Le16(id) + Le16(start) + Le16(len) + [if last then 1 else 0]
  }

  function EncodeChunk(c: ValidChunk): (bs: bytes)
    ensures |bs| == HEADER_SIZE + |c.payload|
  {
    EncodeHeader(c.id, c.start, |c.payload|, c.last) + c.payload
  }

  function EncodeChunks(cs: seq<ValidChunk>): (bs: bytes)
  {
    if cs == [] then [] else EncodeChunk(cs[0]) + EncodeChunks(cs[1..])
  }

  /** The outcome of reading one chunk off the front of the remaining packet. */
  datatype ReadResult = Malformed | Read(chunk: ValidChunk, rest: bytes)

  /** Reads one chunk; `Malformed` is every case in which the assembler abandons the packet. */
  function ReadChunk(data: bytes): (r: ReadResult)
    ensures r.Read? ==> |r.rest| < |data|
  {
    if |data| < HEADER_SIZE then Malformed
    else if data[6] != 0 && data[6] != 1 then Malformed
    else
      var len := FromLe16(data[4..6]);
      var body := data[HEADER_SIZE..];
      if |body| < len then Malformed
      else Read(Chunk(FromLe16(data[0..2]), FromLe16(data[2..4]), body[..len], data[6] == 1), body[len..])
  }

  /** Reading undoes writing, whatever follows in the packet. */
  lemma ReadEncoded(c: ValidChunk, rest: bytes)
    ensures ReadChunk(EncodeChunk(c) + rest) == Read(c, rest)
  {
    var data := EncodeChunk(c) + rest;
    assert data[0..2] == Le16(c.id);
    assert data[2..4] == Le16(c.start);
    assert data[4..6] == Le16(|c.payload|);
    assert data[HEADER_SIZE..] == c.payload + rest;
    assert (c.payload + rest)[..|c.payload|] == c.payload;
    assert (c.payload + rest)[|c.payload|..] == rest;
  }

  lemma FieldExact(field: bytes)
    requires |field| == 2
    ensures Le16(FromLe16(field)) == field
  {
  }

  /** A chunk is read exactly off the packets that begin with its encoding; every other packet is abandoned. */
  lemma ReadExactly(data: bytes, c: ValidChunk, rest: bytes)
    ensures ReadChunk(data) == Read(c, rest) <==> data == EncodeChunk(c) + rest
  {
    if ReadChunk(data) == Read(c, rest) {
      FieldExact(data[0..2]);
      FieldExact(data[2..4]);
      FieldExact(data[4..6]);
      HeaderSplit(data);
      assert data[HEADER_SIZE..] == c.payload + rest;
    } else if data == EncodeChunk(c) + rest {
      ReadEncoded(c, rest);
    }
  }

  lemma HeaderSplit(data: bytes)
    requires |data| >= HEADER_SIZE
    ensures data == data[0..2] + data[2..4] + data[4..6] + [data[6]] + data[HEADER_SIZE..]
  {
  }

  /** All the chunks of a packet, up to the first one that cannot be read. */
  function ReadChunks(data: bytes): (cs: seq<ValidChunk>)
    decreases |data|
  {
    match ReadChunk(data)
    case Malformed => []
    case Read(c, rest) => [c] + ReadChunks(rest)
  }

  lemma {:induction false} ReadChunksEncoded(cs: seq<ValidChunk>)
    ensures ReadChunks(EncodeChunks(cs)) == cs
  {
    if cs != [] {
      ReadEncoded(cs[0], EncodeChunks(cs[1..]));
      ReadChunksEncoded(cs[1..]);
    }
  }

  lemma {:induction false} EncodeChunksAppend(cs: seq<ValidChunk>, ds: seq<ValidChunk>)
    ensures EncodeChunks(cs + ds) == EncodeChunks(cs) + EncodeChunks(ds)
  {
    if cs == [] {
      assert cs + ds == ds;
    } else {
      EncodeChunksAppend(cs[1..], ds);
      assert (cs + ds)[1..] == cs[1..] + ds;
    }
  }
}
