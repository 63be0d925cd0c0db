/** Copying into a fixed-size buffer, as `memcpy` and `memmove` do. */
module Memory {
  import opened Bytes

  method Copy(a: array<byte>, at: nat, data: bytes)
    requires at + |data| <= a.Length
    modifies a
    ensures a[..at] == old(a[..at])
    ensures a[at..at + |data|] == data
    ensures a[at + |data|..] == old(a[at + |data|..])
    ensures a[..at + |data|] == old(a[..at]) + data
  {
    forall i | 0 <= i < |data| {
      a[at + i] := data[i];
    }
  }

  /** Two copies one after the other, of a header and what it announces. */
  method CopyBoth(a: array<byte>, at: nat, header: bytes, payload: bytes)
    requires at + |header| + |payload| <= a.Length
    modifies a
    ensures a[..at + |header| + |payload|] == old(a[..at]) + (header + payload)
  {
    ghost var before := a[..at];
    Copy(a, at, header);
    Copy(a, at + |header|, payload);
    assert before + header + payload == before + (header + payload);
  }
}
