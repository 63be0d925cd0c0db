/** The generated parser as an object, over any valid message declaration. */
module BProtoParser {
  import opened Bytes
  import opened Options
  import opened BProto
  import opened BProtoMessage
  import opened BProtoCursor

  lemma ReadDirect(buf: bytes, at: nat)
    requires at + HEADER <= |buf|
    ensures var code := FromLe16(buf[at + 2..]);
            && FromLe16(buf[at..][2..]) == code
            && buf[at..][HEADER..] == buf[at + HEADER..]
            && ReadEntry(buf[at..]) == (
                 match ReadBody(code, buf[at + HEADER..])
                 case None => None
                 case Some(payload) => Some(Entry(FromLe16(buf[at..]), code, payload)))
  {
    hide FromLe16, ReadBody;
    assert buf[at..][2..] == buf[at + 2..];
    assert buf[at..][HEADER..] == buf[at + HEADER..];
  }

  lemma ReadBodyDirect(buf: bytes, at: nat, code: nat)
    requires at <= |buf| && IsBlob(code)
    ensures |buf| - at < LENGTH ==> ReadBody(code, buf[at..]).None?
    ensures |buf| - at >= LENGTH ==>
              var len := FromLittleEndian(buf[at..at + LENGTH]);
              if |buf| - at - LENGTH < len then ReadBody(code, buf[at..]).None?
              else ReadBody(code, buf[at..]) == Some(buf[at + LENGTH..at + LENGTH + len])
  {
    hide FromLittleEndian;
    if |buf| - at >= LENGTH {
      assert buf[at..][..LENGTH] == buf[at..at + LENGTH];
      var len := FromLittleEndian(buf[at..at + LENGTH]);
      if |buf| - at - LENGTH >= len {
        assert buf[at..][LENGTH..LENGTH + len] == buf[at + LENGTH..at + LENGTH + len];
      }
    }
  }

  /** What the entry at `at` is, if the parser does not reject it there. */
  function Checked(schema: Schema, buf: bytes, at: nat): Option<WireEntry>
    requires at <= |buf|
  {
    match ReadEntry(buf[at..])
    case None => None
    case Some(e) => ReadEntryExact(buf[at..], e); if Known(schema, e) then Some(e) else None
  }

  /** The generated switches: checks the entry at `entryPos`, and finds its field and its end. */
  method CheckEntry(schema: Schema, buf: bytes, entryPos: nat) returns (ok: bool, f: nat, end: nat)
    requires entryPos < |buf|
    ensures ok <==> Checked(schema, buf, entryPos).Some?
    ensures ok ==> var e := Checked(schema, buf, entryPos).value;
                   Case(schema, e.id, e.code) == Some(f) && end == entryPos + Size(e) <= |buf|
  {
    hide FromLe16, FromLittleEndian, Case, ReadEntry;
    ok, f, end := false, 0, entryPos;
    var left := |buf| - entryPos;
    if left < HEADER {
      TooShort(buf, entryPos);
      return;
    }
    ReadDirect(buf, entryPos);
    var id := FromLe16(buf[entryPos..]);
    var code := FromLe16(buf[entryPos + 2..]);
    var pos := entryPos + HEADER;
    left := left - HEADER;
    var payloadLen;
    if IsUInt(code) {
      if left < Width(code) {
        return;
      }
      payloadLen := Width(code);
      assert buf[pos..][..payloadLen] == buf[pos..pos + payloadLen];
    } else if IsBlob(code) {
      ReadBodyDirect(buf, pos, code);
      if left < LENGTH {
        return;
      }
      payloadLen := FromLittleEndian(buf[pos..pos + LENGTH]);
      pos := pos + LENGTH;
      left := left - LENGTH;
      if left < payloadLen {
        return;
      }
    } else {
      return;
    }
    assert ReadEntry(buf[entryPos..]) == Some(Entry(id, code, buf[pos..pos + payloadLen]));
    var c := Case(schema, id, code);
    if c.None? {
      return;
    }
    if IsBlob(code) {
      if code != Code(schema[c.value].kind) {
        return;
      }
      if schema[c.value].kind.ConstData? && payloadLen != schema[c.value].kind.size {
        return;
      }
    }
    ok, f, end := true, c.value, pos + payloadLen;
  }

  lemma TooShort(buf: bytes, at: nat)
    requires at <= |buf| && |buf| - at < HEADER
    ensures ReadEntry(buf[at..]).None?
  {
  }

  /** One round of the parser's loop, on what remains to be parsed. */
  lemma ParseNext(schema: Schema, buf: bytes, at: nat)
    requires at < |buf|
    ensures Checked(schema, buf, at).None? ==> Parse(schema, buf[at..]).None?
    ensures Checked(schema, buf, at).Some? ==>
              var e := Checked(schema, buf, at).value;
              && at + Size(e) <= |buf|
              && Parse(schema, buf[at..]) == (
                   match Parse(schema, buf[at + Size(e)..])
                   case None => None
                   case Some(es) => Some([e] + es))
  {
    hide ReadEntry, Known;
    if Checked(schema, buf, at).Some? {
      var e := Checked(schema, buf, at).value;
      ReadEntryExact(buf[at..], e);
      assert buf[at..][Size(e)..] == buf[at + Size(e)..];
    }
  }

  /** `es` has been parsed up to `at`; the rest decides. */
  ghost predicate ParsedTo(schema: Schema, buf: bytes, at: nat, es: seq<WireEntry>) {
    && at == Offset(es, |es|) <= |buf|
    && Parse(schema, buf) == (
         match Parse(schema, buf[at..])
         case None => None
         case Some(rest) => Some(es + rest))
  }

  lemma ParsedNext(schema: Schema, buf: bytes, at: nat, es: seq<WireEntry>)
    requires at < |buf| && ParsedTo(schema, buf, at, es)
    ensures Checked(schema, buf, at).None? ==> Parse(schema, buf).None?
    ensures Checked(schema, buf, at).Some? ==>
              var e := Checked(schema, buf, at).value;
              at + Size(e) <= |buf| && ParsedTo(schema, buf, at + Size(e), es + [e])
  {
    hide Parse, Checked, Size;
    ParseNext(schema, buf, at);
    if Checked(schema, buf, at).Some? {
      var e := Checked(schema, buf, at).value;
      OffsetPrefix(es, [e], |es|);
      OffsetNext(es + [e], |es|);
      if Parse(schema, buf[at + Size(e)..]).Some? {
        var rest := Parse(schema, buf[at + Size(e)..]).value;
        assert es + [e] + rest == es + ([e] + rest);
      }
    }
  }

  lemma ParsedAll(schema: Schema, buf: bytes, es: seq<WireEntry>)
    requires ParsedTo(schema, buf, |buf|, es)
    ensures Parse(schema, buf) == Some(es)
  {
    assert buf[|buf|..] == [];
    assert es + [] == es;
  }

  /** The entries before `es` are none, so all of `buf` is still to be parsed. */
  lemma ParsedNone(schema: Schema, buf: bytes)
    ensures ParsedTo(schema, buf, 0, [])
  {
    assert buf[0..] == buf;
    if Parse(schema, buf).Some? {
      assert [] + Parse(schema, buf).value == Parse(schema, buf).value;
    }
  }

  /** The parser's record of one field while it goes through the message. */
  ghost predicate SeenAll(schema: Schema, es: seq<WireEntry>, bufLen: nat, start: seq<nat>, span: seq<nat>,
                          counts: seq<nat>, lo: seq<nat>, hi: seq<nat>)
  {
    && |start| == |span| == |counts| == |lo| == |hi| == |schema|
    && forall f :: 0 <= f < |schema| ==> SeenOne(schema[f], es, bufLen, start[f], span[f], counts[f], lo[f], hi[f])
  }

  predicate SeenOne(f: Field, es: seq<WireEntry>, bufLen: nat, start: nat, span: nat, count: nat, lo: nat, hi: nat) {
    Seen(f, es, bufLen, start, span, lo, hi) && count == |Values(f, es)|
  }

  /** Only the field whose label was reached has the entry's value. */
  lemma CaseIs(schema: Schema, e: Entry, f: nat, g: nat)
    requires ValidSchema(schema) && Known(schema, e) && Case(schema, e.id, e.code) == Some(f) && g < |schema|
    ensures Is(schema[g], e) <==> g == f
  {
    if Is(schema[g], e) {
      CaseOfField(schema, g);
    }
  }

  lemma SeenOneOther(f: Field, es: seq<WireEntry>, e: WireEntry, bufLen: nat, start: nat, span: nat, count: nat, lo: nat, hi: nat)
    requires SeenOne(f, es, bufLen, start, span, count, lo, hi) && !Is(f, e)
    ensures SeenOne(f, es + [e], bufLen, start, span, count, lo, hi)
  {
    hide Seen, Is, Values;
    SeenOther(f, es, e, bufLen, start, span, lo, hi);
    ValuesSnoc(f, es, e);
  }

  lemma SeenOneSame(f: Field, es: seq<WireEntry>, e: WireEntry, bufLen: nat, start: nat, span: nat, count: nat, lo: nat, hi: nat)
    requires SeenOne(f, es, bufLen, start, span, count, lo, hi) && Is(f, e) && Offset(es, |es|) < bufLen
    ensures var start' := if start == bufLen then Offset(es, |es|) else start;
            var lo' := if start == bufLen then |es| else lo;
            var end := Offset(es, |es|) + Size(e);
            && start' <= end
            && SeenOne(f, es + [e], bufLen, start', end - start', count + 1, lo', |es| + 1)
  {
    hide Seen, Is, Values;
    SeenSame(f, es, e, bufLen, start, span, lo, hi);
    ValuesSnoc(f, es, e);
  }

  lemma SeenAllNext(schema: Schema, es: seq<WireEntry>, e: WireEntry, bufLen: nat, f: nat,
                    start: seq<nat>, span: seq<nat>, counts: seq<nat>, lo: seq<nat>, hi: seq<nat>)
    requires ValidSchema(schema) && Known(schema, e) && Case(schema, e.id, e.code) == Some(f)
    requires SeenAll(schema, es, bufLen, start, span, counts, lo, hi) && Offset(es, |es|) < bufLen
    ensures var entryPos, end := Offset(es, |es|), Offset(es, |es|) + Size(e);
            var start' := if start[f] == bufLen then start[f := entryPos] else start;
            && start'[f] <= end
            && SeenAll(schema, es + [e], bufLen, start', span[f := end - start'[f]], counts[f := counts[f] + 1],
                       if start[f] == bufLen then lo[f := |es|] else lo, hi[f := |es| + 1])
  {
    hide SeenOne, Is, Offset, ValidSchema, Known, Case, Size;
    CaseIs(schema, e, f, f);
    assert SeenOne(schema[f], es, bufLen, start[f], span[f], counts[f], lo[f], hi[f]);
    SeenOneSame(schema[f], es, e, bufLen, start[f], span[f], counts[f], lo[f], hi[f]);
    forall g | 0 <= g < |schema| && g != f
      ensures SeenOne(schema[g], es + [e], bufLen, start[g], span[g], counts[g], lo[g], hi[g])
    {
      CaseIs(schema, e, f, g);
      SeenOneOther(schema[g], es, e, bufLen, start[g], span[g], counts[g], lo[g], hi[g]);
    }
  }

  lemma SeenAllNone(schema: Schema, bufLen: nat, zeros: seq<nat>, ends: seq<nat>)
    requires |zeros| == |ends| == |schema|
    requires forall f :: 0 <= f < |schema| ==> zeros[f] == 0 && ends[f] == bufLen
    ensures SeenAll(schema, [], bufLen, ends, zeros, zeros, zeros, zeros)
  {
  }

  /** The checks of the cardinalities, one field after the other. */
  method CheckCounts(schema: Schema, counts: seq<nat>) returns (ok: bool)
    requires |counts| == |schema|
    ensures ok <==> forall f :: 0 <= f < |schema| ==> CardinalityOk(schema[f].cardinality, counts[f])
  {
    for f := 0 to |schema|
      invariant forall g :: 0 <= g < f ==> CardinalityOk(schema[g].cardinality, counts[g])
    {
      if !CardinalityOk(schema[f].cardinality, counts[f]) {
        return false;
      }
    }
    return true;
  }

  /** What is known once the message has been gone through. */
  lemma SeenAllDone(schema: Schema, es: seq<WireEntry>, start: seq<nat>, span: seq<nat>, counts: seq<nat>,
                    lo: seq<nat>, hi: seq<nat>)
    returns (lo': seq<nat>, hi': seq<nat>)
    requires SeenAll(schema, es, Offset(es, |es|), start, span, counts, lo, hi)
    ensures |lo'| == |hi'| == |schema|
    ensures forall f :: 0 <= f < |schema| ==> AtStart(schema[f], es, start[f], span[f], lo'[f], hi'[f])
    ensures Complete(schema, es) <==> forall f :: 0 <= f < |schema| ==> CardinalityOk(schema[f].cardinality, counts[f])
  {
    hide Seen, Cursor, Values, Offset, CardinalityOk;
    lo' := seq(|schema|, f requires 0 <= f < |schema| => if Values(schema[f], es) == [] then |es| else lo[f]);
    hi' := seq(|schema|, f requires 0 <= f < |schema| => if Values(schema[f], es) == [] then |es| else hi[f]);
    forall f | 0 <= f < |schema| ensures AtStart(schema[f], es, start[f], span[f], lo'[f], hi'[f]) {
      assert SeenOne(schema[f], es, Offset(es, |es|), start[f], span[f], counts[f], lo[f], hi[f]);
      SeenToCursor(schema[f], es, start[f], span[f], lo[f], hi[f]);
      CursorBounds(schema[f], es, start[f], span[f], 0, lo'[f], hi'[f], lo'[f]);
      CursorAtStart(schema[f], es, start[f], span[f], lo'[f], hi'[f]);
    }
    forall f | 0 <= f < |schema| ensures counts[f] == |Values(schema[f], es)| {
      assert SeenOne(schema[f], es, Offset(es, |es|), start[f], span[f], counts[f], lo[f], hi[f]);
    }
  }

  /** A cursor at the beginning of its span, with all the field's values before it. */
  predicate AtStart(f: Field, es: seq<WireEntry>, start: nat, span: nat, lo: nat, hi: nat) {
    lo <= |es| && Cursor(f, es, start, span, 0, lo, hi, lo) && Values(f, es[lo..]) == Values(f, es)
  }

  lemma CursorBounds(f: Field, es: seq<WireEntry>, start: nat, span: nat, pos: nat, lo: nat, hi: nat, k: nat)
    requires Cursor(f, es, start, span, pos, lo, hi, k)
    ensures lo <= k <= hi <= |es|
  {
  }

  lemma CheckedKnown(schema: Schema, buf: bytes, at: nat)
    requires at <= |buf| && Checked(schema, buf, at).Some?
    ensures Known(schema, Checked(schema, buf, at).value)
  {
  }

  lemma SeenAllShape(schema: Schema, es: seq<WireEntry>, bufLen: nat, start: seq<nat>, span: seq<nat>,
                     counts: seq<nat>, lo: seq<nat>, hi: seq<nat>)
    requires SeenAll(schema, es, bufLen, start, span, counts, lo, hi)
    ensures |start| == |span| == |counts| == |lo| == |hi| == |schema|
  {
  }

  lemma ParsedAt(schema: Schema, buf: bytes, at: nat, es: seq<WireEntry>)
    requires ParsedTo(schema, buf, at, es)
    ensures at == Offset(es, |es|) <= |buf|
  {
  }

  /** Reads the entry at `at`. The assertions are those of the generated code: `left` bytes are in the span. */
  method ReadOut(buf: bytes, at: nat, left: nat, ghost e: Entry) returns (id: nat, code: nat, payload: bytes, end: nat)
    requires at <= |buf| && ReadEntry(buf[at..]) == Some(e) && Size(e) <= left
    ensures id == e.id && code == e.code && payload == e.payload && end == at + Size(e)
  {
    hide FromLe16, FromLittleEndian, ReadEntry;
    EntryLayout(buf, at, e);
    assert left >= HEADER;
    id, code := FromLe16(buf[at..]), FromLe16(buf[at + 2..]);
    end := at + HEADER;
    var rest := left - HEADER;
    if IsUInt(code) {
      assert rest >= Width(code);
      payload := buf[end..end + Width(code)];
      end := end + Width(code);
    } else {
      assert IsBlob(code);
      assert rest >= LENGTH;
      var len := FromLittleEndian(buf[end..end + LENGTH]);
      end := end + LENGTH;
      rest := rest - LENGTH;
      assert rest >= len;
      payload := buf[end..end + len];
      end := end + len;
    }
  }

  class Parser {
    var schema: Schema
    var buf: bytes
    var start: seq<nat>
    var span: seq<nat>
    var pos: seq<nat>
    ghost var entries: seq<WireEntry>
    ghost var lo: seq<nat>
    ghost var hi: seq<nat>
    ghost var at: seq<nat>

    ghost predicate Shaped()
      reads this
    {
      |start| == |span| == |pos| == |lo| == |hi| == |at| == |schema|
    }

    ghost predicate CursorOk(f: nat)
      requires Shaped() && f < |schema|
      reads this
    {
      Cursor(schema[f], entries, start[f], span[f], pos[f], lo[f], hi[f], at[f])
    }

    /** The buffer was accepted, and every cursor is at an entry boundary inside its span. */
    ghost predicate Valid()
      reads this
    {
      && ValidSchema(schema)
      && Parse(schema, buf) == Some(entries)
      && Complete(schema, entries)
      && Shaped()
      && forall f :: 0 <= f < |schema| ==> CursorOk(f)
    }

    /** The values that Gets of the field have yet to return. */
    ghost function Remaining(f: nat): seq<Value>
      requires Valid() && f < |schema|
      reads this
    {
      assert CursorOk(f);
      Values(schema[f], entries[at[f]..])
    }

    constructor ()
    {
    }

    /** Goes through the message, noting where each field's entries begin and end and how many there are. */
    method Scan() returns (ok: bool, counts: seq<nat>, ghost es: seq<WireEntry>, ghost first: seq<nat>, ghost last: seq<nat>)
      requires ValidSchema(schema) && |start| == |span| == |schema|
      requires forall f :: 0 <= f < |schema| ==> start[f] == |buf| && span[f] == 0
      modifies this`start, this`span
      ensures ok <==> Parse(schema, buf).Some?
      ensures ok ==> Parse(schema, buf) == Some(es) && |buf| == Offset(es, |es|)
      ensures ok ==> SeenAll(schema, es, |buf|, start, span, counts, first, last)
    {
      hide Parse, Checked, ValidSchema, Case, Values, SeenAll, Offset, ParsedTo, Size, Known;
      counts := seq(|schema|, _ => 0);
      es, first, last := [], counts, counts;
      var p: nat := 0;
      ParsedNone(schema, buf);
      assert span == counts;
      SeenAllNone(schema, |buf|, counts, start);
      while p < |buf|
        invariant ParsedTo(schema, buf, p, es) && p <= |buf|
        invariant SeenAll(schema, es, |buf|, start, span, counts, first, last)
      {
        SeenAllShape(schema, es, |buf|, start, span, counts, first, last);
        ParsedAt(schema, buf, p, es);
        ParsedNext(schema, buf, p, es);
        var good, f, end := CheckEntry(schema, buf, p);
        if !good {
          return false, counts, es, first, last;
        }
        ghost var e := Checked(schema, buf, p).value;
        CheckedKnown(schema, buf, p);
        SeenAllNext(schema, es, e, |buf|, f, start, span, counts, first, last);
        if start[f] == |buf| {
          start := start[f := p];
          first := first[f := |es|];
        }
        span := span[f := end - start[f]];
        counts := counts[f := counts[f] + 1];
        last := last[f := |es| + 1];
        es := es + [e];
        p := end;
      }
      ParsedAt(schema, buf, p, es);
      ParsedAll(schema, buf, es);
      ok := true;
    }

    /** Accepts exactly the well-formed messages that meet the cardinalities; then every field is unread. */
    method Init(schema: Schema, buf: bytes) returns (ok: bool)
      requires ValidSchema(schema)
      modifies this
      ensures this.schema == schema && this.buf == buf
      ensures ok <==> Accepts(schema, buf)
      ensures ok ==> Valid()
      ensures ok ==> forall f :: 0 <= f < |schema| ==> Remaining(f) == Values(schema[f], Parse(schema, buf).value)
    {
      hide Parse, ValidSchema, Values, SeenAll, Offset, Cursor, CardinalityOk, Complete;
      this.schema, this.buf := schema, buf;
      start := seq(|schema|, _ => |buf|);
      span := seq(|schema|, _ => 0);
      pos := seq(|schema|, _ => 0);
      var counts;
      ok, counts, entries, lo, hi := Scan();
      if !ok {
        return;
      }
      SeenAllShape(schema, entries, |buf|, start, span, counts, lo, hi);
      ok := CheckCounts(schema, counts);
      lo, hi := SeenAllDone(schema, entries, start, span, counts, lo, hi);
      at := lo;
      assert forall f :: 0 <= f < |schema| ==> AtStart(schema[f], entries, start[f], span[f], lo[f], hi[f]);
    }

    /** One round of a Get's loop: moves the cursor past an entry and looks whether it is one of the field. */
    method GetNext(f: nat) returns (r: Option<Value>)
      requires Valid() && f < |schema| && pos[f] < span[f]
      modifies this`pos, this`at
      ensures Valid()
      ensures old(at[f]) < |entries| && at == old(at)[f := old(at[f]) + 1]
      ensures forall g :: 0 <= g < |schema| && g != f ==> pos[g] == old(pos[g])
      ensures var e := entries[old(at[f])]; r == if Is(schema[f], e) then Some(ToValue(e)) else None
    {
      hide Parse, ValidSchema, Values, Cursor, Complete, Offset, FromLe16, FromLittleEndian, EncodeEntries, ReadEntry;
      assert CursorOk(f);
      CursorMoves(schema[f], entries, start[f], span[f], pos[f], lo[f], hi[f], at[f]);
      ParseExact(schema, buf, entries);
      CursorBounds(schema[f], entries, start[f], span[f], pos[f], lo[f], hi[f], at[f]);
      ghost var e := entries[at[f]];
      var id, code, payload, end := ReadOut(buf, start[f] + pos[f], span[f] - pos[f], e);
      pos := pos[f := end - start[f]];
      at := at[f := at[f] + 1];
      forall g | 0 <= g < |schema| ensures CursorOk(g) {
        assert g != f ==> old(CursorOk(g));
      }
      r := if code == Code(schema[f].kind) && id == schema[f].id
      then Some(if IsUInt(code) then Number(FromLittleEndian(payload)) else Blob(payload)) else None;
    }

    /** Returns the field's next value, or fails when there is none; no other field is affected. */
    method Get(f: nat) returns (r: Option<Value>)
      requires Valid() && f < |schema|
      modifies this`pos, this`at
      ensures Valid()
      ensures old(Remaining(f)) == [] ==> r == None && Remaining(f) == []
      ensures old(Remaining(f)) != [] ==> r == Some(old(Remaining(f))[0]) && Remaining(f) == old(Remaining(f))[1..]
      ensures forall g :: 0 <= g < |schema| && g != f ==> Remaining(g) == old(Remaining(g)) && pos[g] == old(pos[g])
    {
      hide Parse, ValidSchema, Values, Cursor, Complete, Offset, Is, ToValue;
      r := None;
      assert CursorOk(f);
      while pos[f] < span[f]
        invariant Valid()
        invariant r.None? && Remaining(f) == old(Remaining(f))
        invariant |at| == |old(at)| && forall g :: 0 <= g < |schema| && g != f ==> at[g] == old(at[g]) && pos[g] == old(pos[g])
        decreases |entries| - at[f]
      {
        assert CursorOk(f);
        CursorBounds(schema[f], entries, start[f], span[f], pos[f], lo[f], hi[f], at[f]);
        ghost var k := at[f];
        var v := GetNext(f);
        ValuesTail(schema[f], entries, k);
        if v.Some? {
          return v;
        }
      }
      assert CursorOk(f);
      CursorDone(schema[f], entries, start[f], span[f], pos[f], lo[f], hi[f], at[f]);
    }

    /** Makes all the field's values available again. */
    method Reset(f: nat)
      requires Valid() && f < |schema|
      modifies this`pos, this`at
      ensures Valid()
      ensures Remaining(f) == Values(schema[f], entries)
      ensures forall g :: 0 <= g < |schema| && g != f ==> Remaining(g) == old(Remaining(g)) && pos[g] == old(pos[g])
    {
      hide Parse, ValidSchema, Values, Complete, Offset, Is;
      assert CursorOk(f);
      pos := pos[f := 0];
      at := at[f := lo[f]];
      forall g | 0 <= g < |schema| ensures CursorOk(g) {
        assert g != f ==> old(CursorOk(g));
      }
      CursorAtStart(schema[f], entries, start[f], span[f], lo[f], hi[f]);
    }

    /** Passes over all the field's remaining values. */
    method Forward(f: nat)
      requires Valid() && f < |schema|
      modifies this`pos, this`at
      ensures Valid()
      ensures Remaining(f) == []
      ensures forall g :: 0 <= g < |schema| && g != f ==> Remaining(g) == old(Remaining(g)) && pos[g] == old(pos[g])
    {
      hide Parse, ValidSchema, Values, Complete, Offset, Is;
      assert CursorOk(f);
      pos := pos[f := span[f]];
      at := at[f := hi[f]];
      forall g | 0 <= g < |schema| ensures CursorOk(g) {
        assert g != f ==> old(CursorOk(g));
      }
    }

    /** Holds exactly when no field has a value left to be returned. */
    method GotEverything() returns (r: bool)
      requires Valid()
      ensures r <==> forall f :: 0 <= f < |schema| ==> Remaining(f) == []
    {
      hide Parse, ValidSchema, Values, Complete, Cursor;
      forall f | 0 <= f < |schema| ensures pos[f] == span[f] <==> Remaining(f) == [] {
        assert CursorOk(f);
        CursorDone(schema[f], entries, start[f], span[f], pos[f], lo[f], hi[f], at[f]);
      }
      r := forall f :: 0 <= f < |schema| ==> pos[f] == span[f];
    }

    /** Getting a field until that fails yields all the values it had left, in order. */
    method GetAll(f: nat) returns (vs: seq<Value>)
      requires Valid() && f < |schema|
      modifies this`pos, this`at
      ensures Valid()
      ensures vs == old(Remaining(f)) && Remaining(f) == []
      ensures forall g :: 0 <= g < |schema| && g != f ==> Remaining(g) == old(Remaining(g))
    {
      hide Valid, Remaining;
      vs := [];
      var v := Get(f);
      while v.Some?
        invariant Valid()
        invariant forall g :: 0 <= g < |schema| && g != f ==> Remaining(g) == old(Remaining(g))
        invariant old(Remaining(f)) == vs + (if v.Some? then [v.value] else []) + Remaining(f)
        invariant v.None? ==> Remaining(f) == []
        decreases |Remaining(f)|, if v.Some? then 1 else 0
      {
        vs := vs + [v.value];
        v := Get(f);
      }
    }
  }
}
