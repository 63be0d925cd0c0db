/** The generated writer as an object, and the whole way from its Add calls to the parser's Gets. */
module BProtoWriter {
  import opened Bytes
  import opened Sequences
  import opened Memory
  import opened BProto
  import opened BProtoMessage
  import opened BProtoParser

  lemma {:induction false} EncodeSnoc(es: seq<WireEntry>, e: WireEntry)
    ensures EncodeEntries(es + [e]) == EncodeEntries(es) + EncodeEntry(e)
  {
    hide EncodeEntry;
    if es == [] {
      assert (es + [e])[1..] == [];
    } else {
      EncodeSnoc(es[1..], e);
      assert (es + [e])[1..] == es[1..] + [e];
      Assoc(EncodeEntry(es[0]), EncodeEntries(es[1..]), EncodeEntry(e));
    }
  }

  lemma {:induction false} ToEntriesSnoc(schema: Schema, adds: seq<Add>, a: Add)
    requires ValidAdds(schema, adds) && ValidAdd(schema, a)
    ensures ValidAdds(schema, adds + [a])
    ensures ToEntries(schema, adds + [a]) == ToEntries(schema, adds) + [ToEntry(schema, a)]
  {
    hide ValidAdd, ToEntry;
    if adds == [] {
      assert (adds + [a])[1..] == [];
    } else {
      ToEntriesSnoc(schema, adds[1..], a);
      assert (adds + [a])[1..] == adds[1..] + [a];
    }
  }

  lemma EncodeAdds(schema: Schema, adds: seq<Add>, a: Add)
    requires ValidAdds(schema, adds) && ValidAdd(schema, a)
    ensures ValidAdds(schema, adds + [a])
    ensures Encode(schema, adds + [a]) == Encode(schema, adds) + EncodeEntry(ToEntry(schema, a))
  {
    ToEntriesSnoc(schema, adds, a);
    EncodeSnoc(ToEntries(schema, adds), ToEntry(schema, a));
  }

  lemma {:induction false} AddedSnoc(f: nat, adds: seq<Add>, a: Add)
    ensures Added(f, adds + [a]) == Added(f, adds) + if a.field == f then [a.value] else []
  {
    if adds == [] {
      assert (adds + [a])[1..] == [];
    } else {
      AddedSnoc(f, adds[1..], a);
      assert (adds + [a])[1..] == adds[1..] + [a];
    }
  }

  ghost predicate Counted(schema: Schema, adds: seq<Add>, counts: seq<nat>) {
    |counts| == |schema| && forall f :: 0 <= f < |schema| ==> counts[f] == |Added(f, adds)|
  }

  lemma CountedSnoc(schema: Schema, adds: seq<Add>, counts: seq<nat>, a: Add)
    requires Counted(schema, adds, counts) && a.field < |schema|
    ensures Counted(schema, adds + [a], counts[a.field := counts[a.field] + 1])
  {
    forall f | 0 <= f < |schema| ensures |Added(f, adds + [a])| == counts[f] + if a.field == f then 1 else 0 {
      AddedSnoc(f, adds, a);
    }
  }

  /** Replacing the last value added by another one for the same field. */
  lemma CountedSame(schema: Schema, adds: seq<Add>, counts: seq<nat>, a: Add, b: Add)
    requires Counted(schema, adds + [a], counts) && a.field == b.field
    ensures Counted(schema, adds + [b], counts)
  {
    forall f | 0 <= f < |schema| ensures |Added(f, adds + [a])| == |Added(f, adds + [b])| {
      AddedSnoc(f, adds, a);
      AddedSnoc(f, adds, b);
    }
  }

  lemma CountedShape(schema: Schema, adds: seq<Add>, counts: seq<nat>)
    requires Counted(schema, adds, counts)
    ensures |counts| == |schema|
  {
  }

  lemma EncodedBlob(schema: Schema, a: Add)
    requires ValidAdd(schema, a) && a.value.Blob?
    ensures EncodeEntry(ToEntry(schema, a)) ==
            EncodeHeader(schema[a.field].id, Code(schema[a.field].kind)) + (LittleEndian(|a.value.data|, LENGTH) + a.value.data)
  {
  }

  /** The last entry's data is at the very end, after bytes that depend on its length only. */
  lemma BlobEnds(schema: Schema, a: Add, all: bytes, before: bytes)
    requires ValidAdd(schema, a) && a.value.Blob? && all == before + EncodeEntry(ToEntry(schema, a))
    ensures |all| == |before| + HEADER + LENGTH + |a.value.data|
    ensures var n := |all| - |a.value.data|;
            && all[..n] == before + EncodeHeader(schema[a.field].id, Code(schema[a.field].kind)) + LittleEndian(|a.value.data|, LENGTH)
            && all == all[..n] + a.value.data
  {
    hide LittleEndian, EncodeHeader;
    var header, length := EncodeHeader(schema[a.field].id, Code(schema[a.field].kind)), LittleEndian(|a.value.data|, LENGTH);
    EncodedBlob(schema, a);
    assert all == before + header + length + a.value.data;
  }

  lemma Refilled(schema: Schema, prefix: seq<Add>, last: Add, data: bytes, counts: seq<nat>)
    requires ValidAdds(schema, prefix + [last]) && last.value.Blob? && |last.value.data| == |data|
    requires Counted(schema, prefix + [last], counts)
    ensures var filled := last.(value := Blob(data));
            && ValidAdds(schema, prefix + [filled]) && Counted(schema, prefix + [filled], counts)
            && |data| <= |Encode(schema, prefix + [last])|
            && Encode(schema, prefix + [filled]) ==
               Encode(schema, prefix + [last])[..|Encode(schema, prefix + [last])| - |data|] + data
  {
    hide Encode, Counted, EncodeEntry, EncodeHeader, LittleEndian;
    var filled := last.(value := Blob(data));
    var adds := prefix + [last];
    assert forall i :: 0 <= i < |prefix| ==> prefix[i] == adds[i];
    assert adds[|prefix|] == last;
    EncodeAdds(schema, prefix, last);
    EncodeAdds(schema, prefix, filled);
    CountedSame(schema, prefix, counts, last, filled);
    BlobEnds(schema, last, Encode(schema, prefix + [last]), Encode(schema, prefix));
    BlobEnds(schema, filled, Encode(schema, prefix + [filled]), Encode(schema, prefix));
  }

  class Writer {
    const schema: Schema
    const out: array<byte>
    var used: nat
    var counts: seq<nat>
    ghost var adds: seq<Add>

    /** The output holds the encoding of what has been added. */
    ghost predicate Valid()
      reads this, out
    {
      && ValidSchema(schema)
      && ValidAdds(schema, adds)
      && used <= out.Length && out[..used] == Encode(schema, adds)
      && Counted(schema, adds, counts)
    }

    constructor (schema: Schema, out: array<byte>)
      requires ValidSchema(schema)
      ensures Valid() && this.schema == schema && this.out == out && adds == []
    {
      this.schema, this.out := schema, out;
      used, counts, adds := 0, seq(|schema|, _ => 0), [];
    }

    /** What an Add asserts of the counts. */
    predicate MayAdd(f: nat)
      requires f < |schema| && |counts| == |schema|
      reads this
    {
      schema[f].cardinality.Optional? || schema[f].cardinality.Required? ==> counts[f] == 0
    }

    method AddUInt(f: nat, v: nat)
      requires Valid() && f < |schema| && schema[f].kind.UInt? && v < Span256(schema[f].kind.width) && MayAdd(f)
      requires used + HEADER + schema[f].kind.width <= out.Length
      modifies this, out
      ensures Valid() && adds == old(adds) + [Add(f, Number(v))]
    {
      hide ValidAdds, Encode, Added, EncodeHeader, LittleEndian, Span256;
      ghost var a := Add(f, Number(v));
      ghost var before := out[..used];
      assert ValidField(schema[f]);
      assert ValidAdd(schema, a);
      EncodeAdds(schema, adds, a);
      CountedSnoc(schema, adds, counts, a);
      var header, body := EncodeHeader(schema[f].id, Code(schema[f].kind)), LittleEndian(v, schema[f].kind.width);
      Copy(out, used, header);
      used := used + |header|;
      Copy(out, used, body);
      used := used + |body|;
      Assoc(before, header, body);
      counts := counts[f := counts[f] + 1];
      adds := adds + [a];
    }

    /** Writes the header of a data entry and reserves room for its `len` bytes at `dest`. */
    method Reserve(f: nat, len: nat) returns (dest: nat)
      requires Valid() && f < |schema| && !schema[f].kind.UInt? && MayAdd(f)
      requires len <= UINT32_MAX && (schema[f].kind.ConstData? ==> len == schema[f].kind.size)
      requires used + HEADER + LENGTH + len <= out.Length
      modifies this, out
      ensures Valid() && dest + len == used
      ensures adds == old(adds) + [Add(f, Blob(out[dest..dest + len]))]
    {
      hide ValidAdds, Encode, Added, EncodeHeader, LittleEndian, EncodeEntry, ToEntry, Counted;
      ghost var before := out[..used];
      assert ValidField(schema[f]);
      var header, length := EncodeHeader(schema[f].id, Code(schema[f].kind)), LittleEndian(len, LENGTH);
      CountedShape(schema, adds, counts);
      CopyBoth(out, used, header, length);
      dest := used + |header| + |length|;
      used := dest;
      used := used + len;
      ghost var data := out[dest..used];
      ghost var a := Add(f, Blob(data));
      EncodeAdds(schema, adds, a);
      CountedSnoc(schema, adds, counts, a);
      assert out[..used] == out[..dest] + data;
      EncodedBlob(schema, a);
      Assoc(header, length, data);
      Assoc(before, header + length, data);
      counts := counts[f := counts[f] + 1];
      adds := adds + [a];
    }

    method AddData(f: nat, len: nat) returns (dest: nat)
      requires Valid() && f < |schema| && schema[f].kind.Data? && MayAdd(f)
      requires len <= UINT32_MAX && used + HEADER + LENGTH + len <= out.Length
      modifies this, out
      ensures Valid() && dest + len == used
      ensures adds == old(adds) + [Add(f, Blob(out[dest..dest + len]))]
    {
      dest := Reserve(f, len);
    }

    method AddConstData(f: nat) returns (dest: nat)
      requires Valid() && f < |schema| && schema[f].kind.ConstData? && MayAdd(f)
      requires used + HEADER + LENGTH + schema[f].kind.size <= out.Length
      modifies this, out
      ensures Valid() && dest + schema[f].kind.size == used
      ensures adds == old(adds) + [Add(f, Blob(out[dest..dest + schema[f].kind.size]))]
    {
      dest := Reserve(f, schema[f].kind.size);
    }

    /** What the caller does next: fills the room it was given. */
    method Fill(dest: nat, data: bytes)
      requires Valid() && adds != [] && dest + |data| == used
      requires adds[|adds| - 1].value.Blob? && |adds[|adds| - 1].value.data| == |data|
      modifies out, this`adds
      ensures Valid() && adds == old(adds[..|adds| - 1] + [adds[|adds| - 1].(value := Blob(data))])
    {
      hide ValidSchema, Encode, Added, ValidAdds, Counted;
      ghost var prefix, last := adds[..|adds| - 1], adds[|adds| - 1];
      assert adds == prefix + [last];
      Refilled(schema, prefix, last, data, counts);
      Copy(out, dest, data);
      adds := prefix + [last.(value := Blob(data))];
      assert out[..used] == out[..dest] + data;
    }

    /** Returns the length of a message that the parser accepts. */
    method Finish() returns (len: nat)
      requires Valid() && forall f :: 0 <= f < |schema| ==> CardinalityOk(schema[f].cardinality, counts[f])
      ensures len <= out.Length && out[..len] == Encode(schema, adds) && Accepts(schema, out[..len])
    {
      hide ValidAdds, ValidSchema, Encode;
      RoundTrip(schema, adds);
      len := used;
    }
  }

  /** The message that a writer finishes is accepted, and every field then holds the values added to it. */
  method Receive(w: Writer, p: Parser)
    requires w.Valid()
    requires forall g :: 0 <= g < |w.schema| ==> CardinalityOk(w.schema[g].cardinality, w.counts[g])
    modifies p
    ensures p.Valid() && p.schema == w.schema
    ensures forall g :: 0 <= g < |w.schema| ==> p.Remaining(g) == Added(g, w.adds)
  {
    hide ValidAdds, ValidSchema, Encode, Parser.Valid, Parser.Remaining, CardinalityOk, Counted;
    RoundTrip(w.schema, w.adds);
    CountedShape(w.schema, w.adds, w.counts);
    var len := w.Finish();
    var message := w.out[..len];
    var ok := p.Init(w.schema, message);
  }

  /**
   * The whole way: everything added is written, accepted and, field by field, read back by Gets in the
   * order in which it was added, until Gets fail and nothing is left.
   */
  method SendAndReceive(w: Writer, p: Parser) returns (got: seq<seq<Value>>, done: bool)
    requires w.Valid()
    requires forall g :: 0 <= g < |w.schema| ==> CardinalityOk(w.schema[g].cardinality, w.counts[g])
    modifies p
    ensures |got| == |w.schema| && forall f :: 0 <= f < |w.schema| ==> got[f] == Added(f, w.adds)
    ensures done
  {
    hide ValidAdds, ValidSchema, Encode, Parser.Valid, Parser.Remaining, CardinalityOk, Counted;
    Receive(w, p);
    got := [];
    for f := 0 to |w.schema|
      invariant p.Valid() && p.schema == w.schema
      invariant |got| == f && forall g :: 0 <= g < f ==> got[g] == Added(g, w.adds)
      invariant forall g :: 0 <= g < |p.schema| ==> p.Remaining(g) == if g < f then [] else Added(g, w.adds)
    {
      var vs := p.GetAll(f);
      got := got + [vs];
    }
    done := p.GotEverything();
  }
}
