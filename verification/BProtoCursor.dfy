/**
 * Where the generated parser's cursors stand. A field's span reaches from its first entry to the end of its
 * last one, with entries of other fields in between, and a cursor moves over it entry by entry.
 */
module BProtoCursor {
  import opened Bytes
  import opened Options
  import opened BProto
  import opened BProtoMessage

  /** Where the entry `k` begins. */
  function Offset(es: seq<WireEntry>, k: nat): (n: nat)
    requires k <= |es|
  {
    if k == 0 then 0 else Offset(es, k - 1) + Size(es[k - 1])
  }

  lemma {:induction false} OffsetMonotone(es: seq<WireEntry>, i: nat, j: nat)
    requires i <= j <= |es|
    ensures Offset(es, i) <= Offset(es, j)
    ensures i < j ==> Offset(es, i) + Size(es[i]) <= Offset(es, j)
  {
    if i < j {
      OffsetMonotone(es, i, j - 1);
    }
  }

  lemma {:induction false} OffsetPrefix(es: seq<WireEntry>, ds: seq<WireEntry>, k: nat)
    requires k <= |es|
    ensures Offset(es + ds, k) == Offset(es, k)
  {
    if k > 0 {
      OffsetPrefix(es, ds, k - 1);
    }
  }

  /** What is left of the message at an entry boundary encodes the entries from there on. */
  lemma {:induction false} EncodedFrom(es: seq<WireEntry>, k: nat)
    requires k <= |es|
    ensures Offset(es, k) <= |EncodeEntries(es)| && EncodeEntries(es)[Offset(es, k)..] == EncodeEntries(es[k..])
  {
    hide EncodeEntry;
    if k == 0 {
      assert es[0..] == es;
    } else {
      EncodedFrom(es, k - 1);
      assert es[k - 1..][1..] == es[k..];
      var all := EncodeEntries(es);
      var e := EncodeEntry(es[k - 1]);
      DropHead(all, Offset(es, k - 1), e, EncodeEntries(es[k..]));
    }
  }

  lemma DropHead(all: bytes, at: nat, head: bytes, tail: bytes)
    requires at <= |all| && all[at..] == head + tail
    ensures at + |head| <= |all| && all[at + |head|..] == tail
  {
    assert all[at + |head|..] == all[at..][|head|..];
  }

  lemma EntryAt(es: seq<WireEntry>, k: nat)
    requires k < |es|
    ensures Offset(es, k) <= |EncodeEntries(es)| && ReadEntry(EncodeEntries(es)[Offset(es, k)..]) == Some(es[k])
  {
    EncodedFrom(es, k);
    EncodedFirst(es[k..]);
    ReadEntryExact(EncodeEntries(es)[Offset(es, k)..], es[k]);
  }

  /** How the parts of an entry lie in the buffer. */
  lemma EntryLayout(buf: bytes, at: nat, e: Entry)
    requires at <= |buf| && ReadEntry(buf[at..]) == Some(e)
    ensures e.Valid() && at + Size(e) <= |buf|
    ensures FromLe16(buf[at..]) == e.id && FromLe16(buf[at + 2..]) == e.code
    ensures IsUInt(e.code) ==> e.payload == buf[at + HEADER..at + HEADER + Width(e.code)]
    ensures IsBlob(e.code) ==> FromLittleEndian(buf[at + HEADER..at + HEADER + LENGTH]) == |e.payload|
    ensures IsBlob(e.code) ==> e.payload == buf[at + HEADER + LENGTH..at + HEADER + LENGTH + |e.payload|]
  {
    hide FromLe16, FromLittleEndian, EncodeEntry;
    ReadEntryExact(buf[at..], e);
    assert buf[at..][2..] == buf[at + 2..];
    assert buf[at..][HEADER..] == buf[at + HEADER..];
    if IsBlob(e.code) {
      assert buf[at + HEADER..][..LENGTH] == buf[at + HEADER..at + HEADER + LENGTH];
    }
  }

  // ---------- spans ----------

  /** What the parser knows of a field after the entries `es`; `lo` and `hi` are the entries its span begins and ends with. */
  predicate Seen(f: Field, es: seq<WireEntry>, bufLen: nat, start: nat, span: nat, lo: nat, hi: nat) {
    if Values(f, es) == [] then start == bufLen && span == 0
    else
      && lo < hi <= |es|
      && Values(f, es[..lo]) == [] && Is(f, es[lo])
      && Values(f, es[hi..]) == [] && Is(f, es[hi - 1])
      && start == Offset(es, lo) && start + span == Offset(es, hi)
  }

  lemma ValuesOne(f: Field, e: Entry)
    ensures Values(f, [e]) == if Is(f, e) then [ToValue(e)] else []
  {
    assert [e][1..] == [];
  }

  lemma ValuesSnoc(f: Field, es: seq<Entry>, e: Entry)
    ensures Values(f, es + [e]) == Values(f, es) + if Is(f, e) then [ToValue(e)] else []
  {
    ValuesOne(f, e);
    ValuesAppend(f, es, [e]);
  }

  lemma SnocSlices(es: seq<WireEntry>, e: WireEntry, lo: nat, hi: nat)
    requires lo <= hi <= |es|
    ensures (es + [e])[..lo] == es[..lo] && (es + [e])[hi..] == es[hi..] + [e]
  {
  }

  /** An entry of another field changes nothing. */
  lemma SeenOther(f: Field, es: seq<WireEntry>, e: WireEntry, bufLen: nat, start: nat, span: nat, lo: nat, hi: nat)
    requires Seen(f, es, bufLen, start, span, lo, hi) && !Is(f, e)
    ensures Seen(f, es + [e], bufLen, start, span, lo, hi)
  {
    hide Is, Values, Offset;
    ValuesSnoc(f, es, e);
    if Values(f, es) != [] {
      SnocSlices(es, e, lo, hi);
      ValuesSnoc(f, es[hi..], e);
      OffsetPrefix(es, [e], lo);
      OffsetPrefix(es, [e], hi);
    }
  }

  lemma LastOffset(es: seq<WireEntry>, e: WireEntry)
    ensures Offset(es + [e], |es|) == Offset(es, |es|)
    ensures Offset(es + [e], |es| + 1) == Offset(es, |es|) + Size(e)
  {
    OffsetPrefix(es, [e], |es|);
  }

  /** The first entry of the field is its span. */
  lemma SeenFirst(f: Field, es: seq<WireEntry>, e: WireEntry, bufLen: nat)
    requires Values(f, es) == [] && Is(f, e)
    ensures Seen(f, es + [e], bufLen, Offset(es, |es|), Size(e), |es|, |es| + 1)
  {
    hide Is, Values, Offset, Size;
    var es' := es + [e];
    ValuesSnoc(f, es, e);
    LastOffset(es, e);
    assert es'[..|es|] == es && es'[|es'|..] == [];
    NoValues(f);
  }

  /** A later one extends the span up to its end. */
  lemma SeenAgain(f: Field, es: seq<WireEntry>, e: WireEntry, bufLen: nat, start: nat, span: nat, lo: nat, hi: nat)
    requires Seen(f, es, bufLen, start, span, lo, hi) && Values(f, es) != [] && Is(f, e)
    ensures start <= Offset(es, |es|) + Size(e)
    ensures Seen(f, es + [e], bufLen, start, Offset(es, |es|) + Size(e) - start, lo, |es| + 1)
  {
    hide Is, Values, Offset, Size;
    var es' := es + [e];
    ValuesSnoc(f, es, e);
    LastOffset(es, e);
    SnocSlices(es, e, lo, hi);
    OffsetPrefix(es, [e], lo);
    OffsetMonotone(es, lo, |es|);
    assert es'[|es'|..] == [];
    NoValues(f);
  }

  lemma SeenStart(f: Field, es: seq<WireEntry>, bufLen: nat, start: nat, span: nat, lo: nat, hi: nat)
    requires Seen(f, es, bufLen, start, span, lo, hi) && Offset(es, |es|) < bufLen
    ensures start == bufLen <==> Values(f, es) == []
  {
    hide Is, Values, Offset;
    if Values(f, es) != [] {
      OffsetMonotone(es, lo, |es|);
    }
  }

  /** An entry of the field begins its span, or extends it up to its end. */
  lemma SeenSame(f: Field, es: seq<WireEntry>, e: WireEntry, bufLen: nat, start: nat, span: nat, lo: nat, hi: nat)
    requires Seen(f, es, bufLen, start, span, lo, hi) && Is(f, e) && Offset(es, |es|) < bufLen
    ensures start == bufLen <==> Values(f, es) == []
    ensures var start' := if start == bufLen then Offset(es, |es|) else start;
            var lo' := if start == bufLen then |es| else lo;
            var end := Offset(es, |es|) + Size(e);
            && start' <= end
            && Seen(f, es + [e], bufLen, start', end - start', lo', |es| + 1)
  {
    hide Seen, Is, Values, Offset, Size;
    SeenStart(f, es, bufLen, start, span, lo, hi);
    if Values(f, es) == [] {
      SeenFirst(f, es, e, bufLen);
    } else {
      SeenAgain(f, es, e, bufLen, start, span, lo, hi);
    }
  }

  lemma NoValues(f: Field)
    ensures Values(f, []) == []
  {
  }

  // ---------- cursors ----------

  /**
   * The cursor invariant. The span is that of the field's entries `lo..hi`, and the cursor is at the
   * beginning of the entry `k` in that range, or at its end.
   */
  predicate Cursor(f: Field, es: seq<WireEntry>, start: nat, span: nat, pos: nat, lo: nat, hi: nat, k: nat) {
    && lo <= k <= hi <= |es|
    && start == Offset(es, lo) && start + span == Offset(es, hi) && start + pos == Offset(es, k)
    && Values(f, es[..lo]) == [] && Values(f, es[hi..]) == []
    && (lo < hi ==> Is(f, es[hi - 1]))
  }

  /** After all entries every cursor is at the beginning of its span. */
  lemma SeenToCursor(f: Field, es: seq<WireEntry>, start: nat, span: nat, lo: nat, hi: nat)
    requires Seen(f, es, Offset(es, |es|), start, span, lo, hi)
    ensures var none := Values(f, es) == [];
            Cursor(f, es, start, span, 0, if none then |es| else lo, if none then |es| else hi, if none then |es| else lo)
  {
    if Values(f, es) == [] {
      assert es[..|es|] == es;
      assert es[|es|..] == [];
    }
  }

  lemma {:induction false} ValuesTail(f: Field, es: seq<Entry>, k: nat)
    requires k < |es|
    ensures Values(f, es[k..]) == (if Is(f, es[k]) then [ToValue(es[k])] else []) + Values(f, es[k + 1..])
  {
    assert es[k..][1..] == es[k + 1..];
  }

  lemma ValuesSuffix(f: Field, es: seq<Entry>, j: nat, k: nat)
    requires j <= k <= |es|
    ensures Values(f, es[j..]) == Values(f, es[j..k]) + Values(f, es[k..])
  {
    assert es[j..] == es[j..k] + es[k..];
    ValuesAppend(f, es[j..k], es[k..]);
  }

  /** Nothing before the span counts: a cursor at its beginning has all the values before it. */
  lemma CursorAtStart(f: Field, es: seq<WireEntry>, start: nat, span: nat, lo: nat, hi: nat)
    requires Cursor(f, es, start, span, 0, lo, hi, lo)
    ensures Values(f, es[lo..]) == Values(f, es)
  {
    assert es == es[..lo] + es[lo..];
    ValuesAppend(f, es[..lo], es[lo..]);
  }

  /** The cursor is at the end of its span exactly when no value of the field is left. */
  lemma CursorDone(f: Field, es: seq<WireEntry>, start: nat, span: nat, pos: nat, lo: nat, hi: nat, k: nat)
    requires Cursor(f, es, start, span, pos, lo, hi, k)
    ensures pos <= span
    ensures pos == span <==> k == hi
    ensures pos == span <==> Values(f, es[k..]) == []
  {
    hide Is, Values;
    OffsetMonotone(es, k, hi);
    if k < hi {
      ValuesSuffix(f, es, k, hi - 1);
      ValuesTail(f, es, hi - 1);
    }
  }

  lemma OffsetNext(es: seq<WireEntry>, k: nat)
    requires k < |es|
    ensures Offset(es, k + 1) == Offset(es, k) + Size(es[k])
  {
  }

  /** Before its end the cursor has a whole entry in front of it, inside the span, and can be moved past it. */
  lemma CursorMoves(f: Field, es: seq<WireEntry>, start: nat, span: nat, pos: nat, lo: nat, hi: nat, k: nat)
    requires Cursor(f, es, start, span, pos, lo, hi, k) && pos < span
    ensures k < hi && pos + Size(es[k]) <= span
    ensures start + pos <= |EncodeEntries(es)| && ReadEntry(EncodeEntries(es)[start + pos..]) == Some(es[k])
    ensures Cursor(f, es, start, span, pos + Size(es[k]), lo, hi, k + 1)
  {
    hide Is, Values, EncodeEntries, ReadEntry, Size, Offset;
    CursorDone(f, es, start, span, pos, lo, hi, k);
    OffsetMonotone(es, k, hi);
    OffsetNext(es, k);
    EntryAt(es, k);
  }
}
