/** Message declarations, what the generated parser accepts, and the round trip with the generated writer. */
module BProtoMessage {
  import opened Bytes
  import opened Options
  import opened Sequences
  import opened BProto

  datatype Kind = UInt(width: nat) | Data | ConstData(size: nat)

  datatype Cardinality = Repeated | RequiredRepeated | Optional | Required

  datatype Field = Field(id: nat, kind: Kind, cardinality: Cardinality)

  type Schema = seq<Field>

  function Code(kind: Kind): (code: nat)
    ensures IsUInt(code) || IsBlob(code)
    ensures IsBlob(code) <==> !kind.UInt?
  {
    match kind
    case UInt(width) => if width == 1 then 1 else if width == 2 then 2 else if width == 4 then 3 else 4
    case Data => DATA
    case ConstData(_) => CONSTDATA
  }

  predicate ValidField(f: Field) {
    && f.id <= UINT16_MAX
    && (f.kind.UInt? ==> f.kind.width in {1, 2, 4, 8})
    && (f.kind.ConstData? ==> f.kind.size <= UINT32_MAX)
  }

  /** The parser has one switch per integer type and one for both kinds of data; this is the field's label in them. */
  predicate Labels(f: Field, id: nat, code: nat) {
    f.id == id && (Code(f.kind) == code || (IsBlob(Code(f.kind)) && IsBlob(code)))
  }

  /** No switch of the generated parser has the same label twice. */
  ghost predicate ValidSchema(schema: Schema) {
    && (forall i :: 0 <= i < |schema| ==> ValidField(schema[i]))
    && (forall i, j :: 0 <= i < j < |schema| ==> !Labels(schema[i], schema[j].id, Code(schema[j].kind)))
  }

  /** The label at which the parser's switches arrive. */
  function Case(schema: Schema, id: nat, code: nat): (r: Option<nat>)
    ensures r.Some? ==> r.value < |schema| && Labels(schema[r.value], id, code)
    ensures r.None? ==> forall i :: 0 <= i < |schema| ==> !Labels(schema[i], id, code)
  {
    if schema == [] then None
    else if Labels(schema[|schema| - 1], id, code) then Some(|schema| - 1)
    else Case(schema[..|schema| - 1], id, code)
  }

  /** The entry carries a value of the field, as a Get decides it. */
  predicate Is(f: Field, e: Entry) {
    f.id == e.id && Code(f.kind) == e.code
  }

  predicate Known(schema: Schema, e: Entry) {
    var c := Case(schema, e.id, e.code);
    && c.Some?
    && Code(schema[c.value].kind) == e.code
    && (schema[c.value].kind.ConstData? ==> |e.payload| == schema[c.value].kind.size)
  }

  ghost predicate AllKnown(schema: Schema, es: seq<Entry>) {
    forall i :: 0 <= i < |es| ==> Known(schema, es[i])
  }

  /** The entries of a message, if the parser goes through all of it. */
  function Parse(schema: Schema, buf: bytes): Option<seq<WireEntry>>
    decreases |buf|
  {
    if buf == [] then Some([])
    else
      match ReadEntry(buf)
      case None => None
      case Some(e) =>
        ReadEntryExact(buf, e);
        if !Known(schema, e) then None
        else
          match Parse(schema, buf[Size(e)..])
          case None => None
          case Some(es) => Some([e] + es)
  }

  /** Parsing inverts encoding in both directions: the entries found are the only ones that spell the buffer. */
  lemma {:induction false} ParseExact(schema: Schema, buf: bytes, es: seq<WireEntry>)
    ensures Parse(schema, buf) == Some(es) <==> EncodeEntries(es) == buf && AllKnown(schema, es)
    decreases |buf|
  {
    hide Known, ReadEntry, EncodeEntry;
    if buf == [] {
    } else {
      match ReadEntry(buf)
      case None =>
        if es != [] && EncodeEntries(es) == buf {
          EncodedFirst(es);
          ReadEntryExact(buf, es[0]);
        }
      case Some(e) =>
        ReadEntryExact(buf, e);
        if es != [] {
          ReadEntryExact(buf, es[0]);
          ParseExact(schema, buf[Size(e)..], es[1..]);
          EncodedSplit(es, buf);
          AllKnownSplit(schema, es);
          assert es == [es[0]] + es[1..];
        }
    }
  }

  lemma EncodedFirst(es: seq<WireEntry>)
    requires es != []
    ensures Size(es[0]) <= |EncodeEntries(es)| && EncodeEntries(es)[..Size(es[0])] == EncodeEntry(es[0])
  {
  }

  lemma EncodedSplit(es: seq<WireEntry>, buf: bytes)
    requires es != []
    ensures EncodeEntries(es) == buf <==>
            Size(es[0]) <= |buf| && buf[..Size(es[0])] == EncodeEntry(es[0]) && EncodeEntries(es[1..]) == buf[Size(es[0])..]
  {
    var head, tail := EncodeEntry(es[0]), EncodeEntries(es[1..]);
    assert (head + tail)[..|head|] == head && (head + tail)[|head|..] == tail;
    if |head| <= |buf| {
      assert buf == buf[..|head|] + buf[|head|..];
    }
  }

  lemma AllKnownSplit(schema: Schema, es: seq<Entry>)
    requires es != []
    ensures AllKnown(schema, es) <==> Known(schema, es[0]) && AllKnown(schema, es[1..])
  {
    if Known(schema, es[0]) && AllKnown(schema, es[1..]) {
      forall i | 0 <= i < |es| ensures Known(schema, es[i]) {
        assert i > 0 ==> es[i] == es[1..][i - 1];
      }
    }
  }

  // ---------- values ----------

  datatype Value = Number(n: nat) | Blob(data: bytes)

  function ToValue(e: Entry): Value {
    if IsUInt(e.code) then Number(FromLittleEndian(e.payload)) else Blob(e.payload)
  }

  /** The values of one field, in the order in which they are in the message. */
  function Values(f: Field, es: seq<Entry>): (vs: seq<Value>)
  {
    if es == [] then []
    else (if Is(f, es[0]) then [ToValue(es[0])] else []) + Values(f, es[1..])
  }

  lemma {:induction false} ValuesAppend(f: Field, es: seq<Entry>, ds: seq<Entry>)
    ensures Values(f, es + ds) == Values(f, es) + Values(f, ds)
  {
    hide Is, ToValue;
    if es == [] {
      assert es + ds == ds;
    } else {
      ValuesAppend(f, es[1..], ds);
      Assoc(if Is(f, es[0]) then [ToValue(es[0])] else [], Values(f, es[1..]), Values(f, ds));
      assert (es + ds)[1..] == es[1..] + ds;
    }
  }

  predicate CardinalityOk(c: Cardinality, count: nat) {
    match c
    case Repeated => true
    case RequiredRepeated => count >= 1
    case Optional => count <= 1
    case Required => count == 1
  }

  ghost predicate Complete(schema: Schema, es: seq<Entry>) {
    forall f :: 0 <= f < |schema| ==> CardinalityOk(schema[f].cardinality, |Values(schema[f], es)|)
  }

  /** The buffers that the generated parser accepts. */
  ghost predicate Accepts(schema: Schema, buf: bytes) {
    Parse(schema, buf).Some? && Complete(schema, Parse(schema, buf).value)
  }

  // ---------- what the writer is asked to add ----------

  datatype Add = Add(field: nat, value: Value)

  predicate Fits(kind: Kind, v: Value) {
    match kind
    case UInt(width) => v.Number? && v.n < Span256(width)
    case Data => v.Blob? && |v.data| <= UINT32_MAX
    case ConstData(size) => v.Blob? && |v.data| == size
  }

  predicate ValidAdd(schema: Schema, a: Add) {
    a.field < |schema| && ValidField(schema[a.field]) && Fits(schema[a.field].kind, a.value)
  }

  ghost predicate ValidAdds(schema: Schema, adds: seq<Add>) {
    forall i :: 0 <= i < |adds| ==> ValidAdd(schema, adds[i])
  }

  function Payload(kind: Kind, v: Value): bytes
    requires Fits(kind, v)
  {
    if kind.UInt? then LittleEndian(v.n, kind.width) else v.data
  }

  function ToEntry(schema: Schema, a: Add): (e: WireEntry)
    requires ValidAdd(schema, a)
  {
    var f := schema[a.field];
    Entry(f.id, Code(f.kind), Payload(f.kind, a.value))
  }

  function ToEntries(schema: Schema, adds: seq<Add>): (es: seq<WireEntry>)
    requires ValidAdds(schema, adds)
    ensures |es| == |adds|
  {
    if adds == [] then [] else [ToEntry(schema, adds[0])] + ToEntries(schema, adds[1..])
  }

  /** The bytes that the writer produces. */
  function Encode(schema: Schema, adds: seq<Add>): bytes
    requires ValidAdds(schema, adds)
  {
    EncodeEntries(ToEntries(schema, adds))
  }

  /** The values added to one field, in order. */
  function Added(f: nat, adds: seq<Add>): seq<Value> {
    if adds == [] then []
    else (if adds[0].field == f then [adds[0].value] else []) + Added(f, adds[1..])
  }

  lemma ToValueInverse(schema: Schema, a: Add)
    requires ValidAdd(schema, a)
    ensures ToValue(ToEntry(schema, a)) == a.value
  {
    var kind := schema[a.field].kind;
    if kind.UInt? {
      LittleEndianRoundTrip(a.value.n, kind.width);
    }
  }

  /** In a valid declaration the label of an added entry leads back to the field it was added to. */
  lemma CaseOfField(schema: Schema, f: nat)
    requires ValidSchema(schema) && f < |schema|
    ensures Case(schema, schema[f].id, Code(schema[f].kind)) == Some(f)
  {
    var c := Case(schema, schema[f].id, Code(schema[f].kind));
    assert Labels(schema[f], schema[f].id, Code(schema[f].kind));
    assert Labels(schema[f], schema[c.value].id, Code(schema[c.value].kind));
  }

  lemma AddedIsKnown(schema: Schema, a: Add)
    requires ValidSchema(schema) && ValidAdd(schema, a)
    ensures Known(schema, ToEntry(schema, a))
    ensures forall f :: 0 <= f < |schema| ==> (Is(schema[f], ToEntry(schema, a)) <==> f == a.field)
  {
    CaseOfField(schema, a.field);
    forall f | 0 <= f < |schema| ensures Is(schema[f], ToEntry(schema, a)) <==> f == a.field {
      CaseOfField(schema, f);
    }
  }

  lemma {:induction false} AddedValues(schema: Schema, adds: seq<Add>, f: nat)
    requires ValidSchema(schema) && ValidAdds(schema, adds) && f < |schema|
    ensures Values(schema[f], ToEntries(schema, adds)) == Added(f, adds)
  {
    hide ValidSchema, Is, ValidAdd, ToEntry, ToValue;
    if adds != [] {
      AddedValues(schema, adds[1..], f);
      assert ValidAdd(schema, adds[0]);
      AddedIsKnown(schema, adds[0]);
      ToValueInverse(schema, adds[0]);
      assert ToEntries(schema, adds)[1..] == ToEntries(schema, adds[1..]);
    }
  }

  lemma {:induction false} AddedAllKnown(schema: Schema, adds: seq<Add>)
    requires ValidSchema(schema) && ValidAdds(schema, adds)
    ensures AllKnown(schema, ToEntries(schema, adds))
  {
    hide ValidSchema, Known, ValidAdd, ToEntry;
    if adds != [] {
      AddedAllKnown(schema, adds[1..]);
      var es := ToEntries(schema, adds);
      assert ValidAdd(schema, adds[0]);
      AddedIsKnown(schema, adds[0]);
      assert es[1..] == ToEntries(schema, adds[1..]);
      AllKnownSplit(schema, es);
    }
  }

  /** The cardinalities, as the writer's Finish checks them. */
  ghost predicate CompleteAdds(schema: Schema, adds: seq<Add>) {
    forall f :: 0 <= f < |schema| ==> CardinalityOk(schema[f].cardinality, |Added(f, adds)|)
  }

  /**
   * Round trip: the parser accepts what the writer produced exactly when the cardinalities were met, and
   * then finds for each field the values added to it, in the order in which they were added.
   */
  lemma RoundTrip(schema: Schema, adds: seq<Add>)
    requires ValidSchema(schema) && ValidAdds(schema, adds)
    ensures Parse(schema, Encode(schema, adds)) == Some(ToEntries(schema, adds))
    ensures Accepts(schema, Encode(schema, adds)) <==> CompleteAdds(schema, adds)
    ensures forall f :: 0 <= f < |schema| ==> Values(schema[f], ToEntries(schema, adds)) == Added(f, adds)
  {
    hide ValidSchema, ValidAdds, CardinalityOk, AllKnown;
    AddedAllKnown(schema, adds);
    forall f | 0 <= f < |schema| ensures Values(schema[f], ToEntries(schema, adds)) == Added(f, adds) {
      AddedValues(schema, adds, f);
    }
    ParseExact(schema, Encode(schema, adds), ToEntries(schema, adds));
    if Accepts(schema, Encode(schema, adds)) {
      forall f | 0 <= f < |schema| ensures CardinalityOk(schema[f].cardinality, |Added(f, adds)|) {
        assert Values(schema[f], ToEntries(schema, adds)) == Added(f, adds);
      }
    }
  }

  // ---------- every accepted buffer was written by some writer ----------

  function FromEntry(schema: Schema, e: WireEntry): (a: Add)
    requires Known(schema, e)
  {
    Add(Case(schema, e.id, e.code).value, ToValue(e))
  }

  lemma WidthOf(kind: Kind)
    requires kind.UInt? && kind.width in {1, 2, 4, 8}
    ensures Width(Code(kind)) == kind.width
  {
  }

  lemma FromEntryInverse(schema: Schema, e: WireEntry)
    requires ValidSchema(schema) && Known(schema, e)
    ensures ValidAdd(schema, FromEntry(schema, e)) && ToEntry(schema, FromEntry(schema, e)) == e
  {
    var f := schema[Case(schema, e.id, e.code).value];
    assert ValidField(f);
    if f.kind.UInt? {
      WidthOf(f.kind);
      LittleEndianInverse(e.payload);
    }
  }

  function FromEntries(schema: Schema, es: seq<WireEntry>): (adds: seq<Add>)
    requires AllKnown(schema, es)
    ensures |adds| == |es|
  {
    if es == [] then [] else [FromEntry(schema, es[0])] + FromEntries(schema, es[1..])
  }

  lemma {:induction false} FromEntriesInverse(schema: Schema, es: seq<WireEntry>)
    requires ValidSchema(schema) && AllKnown(schema, es)
    ensures ValidAdds(schema, FromEntries(schema, es)) && ToEntries(schema, FromEntries(schema, es)) == es
  {
    hide ValidSchema, Known, ValidAdd, ToEntry, FromEntry;
    if es != [] {
      assert Known(schema, es[0]);
      FromEntriesInverse(schema, es[1..]);
      FromEntryInverse(schema, es[0]);
      var adds := FromEntries(schema, es);
      assert adds[1..] == FromEntries(schema, es[1..]);
      forall i | 0 <= i < |adds| ensures ValidAdd(schema, adds[i]) {
        assert i > 0 ==> adds[i] == adds[1..][i - 1];
      }
    }
  }

  /** The parser accepts nothing but the writer's output. */
  lemma AcceptedIsWritten(schema: Schema, buf: bytes) returns (adds: seq<Add>)
    requires ValidSchema(schema) && Accepts(schema, buf)
    ensures ValidAdds(schema, adds) && CompleteAdds(schema, adds) && Encode(schema, adds) == buf
  {
    hide ValidSchema, ValidAdds, CardinalityOk, AllKnown, CompleteAdds, Complete;
    var es := Parse(schema, buf).value;
    ParseExact(schema, buf, es);
    FromEntriesInverse(schema, es);
    adds := FromEntries(schema, es);
    RoundTrip(schema, adds);
  }
}
