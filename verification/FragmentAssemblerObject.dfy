/**
 * The assembler as the program runs it: a fixed pool of entries, a list of used and a list of free
 * ones, and an index of the used ones by frame id, all updated in place.
 */
module FragmentAssemblerObject {
  import opened Bytes
  import opened FragmentProto
  import opened Options
  import A = FragmentAssembler
  import T = FragmentTiling
  import Seqs = Sequences

  type Slot = nat

  // ---------- lists of slots ----------

  predicate InPool(n: nat, slots: seq<Slot>) {
    forall i :: 0 <= i < |slots| ==> slots[i] < n
  }

  predicate NoDup(slots: seq<Slot>) {
    forall i, j :: 0 <= i < j < |slots| ==> slots[i] != slots[j]
  }

  /** Every slot of the pool is in exactly one of the two lists, once. */
  predicate Partition(n: nat, used: seq<Slot>, free: seq<Slot>) {
    InPool(n, used) && InPool(n, free) && |used| + |free| == n && NoDup(used + free)
  }

  function Position(slots: seq<Slot>, x: Slot): (k: nat)
    requires x in slots
    ensures k < |slots| && slots[k] == x
  {
    if slots[0] == x then 0 else 1 + Position(slots[1..], x)
  }

  function Without(slots: seq<Slot>, k: nat): seq<Slot>
    requires k < |slots|
  {
    slots[..k] + slots[k + 1..]
  }

  function Pick(es: seq<A.Entry>, slots: seq<Slot>): (r: seq<A.Entry>)
    requires InPool(|es|, slots)
    ensures |r| == |slots|
    ensures forall i :: 0 <= i < |slots| ==> r[i] == es[slots[i]]
  {
    seq(|slots|, i requires 0 <= i < |slots| => es[slots[i]])
  }

  function Buffers(es: seq<A.Entry>, slots: seq<Slot>): (r: seq<bytes>)
    requires InPool(|es|, slots)
    ensures |r| == |slots|
    ensures forall i :: 0 <= i < |slots| ==> r[i] == es[slots[i]].buffer
  {
    seq(|slots|, i requires 0 <= i < |slots| => es[slots[i]].buffer)
  }

  /** What the pool and its lists stand for. */
  function PoolView(time: nat, es: seq<A.Entry>, used: seq<Slot>, free: seq<Slot>): A.State
    requires InPool(|es|, used) && InPool(|es|, free)
  {
    A.State(time, Pick(es, used), Buffers(es, free))
  }

  /** The index finds exactly the used entries, by their ids. */
  predicate Indexed(es: seq<A.Entry>, used: seq<Slot>, tree: map<nat, Slot>)
    requires InPool(|es|, used)
  {
    && (forall i :: 0 <= i < |used| ==> es[used[i]].id in tree && tree[es[used[i]].id] == used[i])
    && (forall id :: id in tree ==> tree[id] in used)
    && (forall id :: id in tree ==> tree[id] < |es| && es[tree[id]].id == id)
  }

  lemma MovePartition(n: nat, used: seq<Slot>, free: seq<Slot>, k: nat)
    requires Partition(n, used, free) && k < |used|
    ensures Partition(n, Without(used, k), free + [used[k]])
  {
    var all := used + free;
    var r := Without(used, k) + (free + [used[k]]);
    forall i, j | 0 <= i < j < |r| ensures r[i] != r[j] {
      var i' := if i < k then i else i + 1;
      assert r[i] == all[i'];
      assert j < |r| - 1 ==> r[j] == all[if j < k then j else j + 1];
      assert j == |r| - 1 ==> r[j] == all[k];
    }
  }

  lemma TakePartition(n: nat, used: seq<Slot>, free: seq<Slot>)
    requires Partition(n, used, free) && free != []
    ensures Partition(n, used + [free[0]], free[1..])
  {
    assert used + [free[0]] + free[1..] == used + free;
  }

  lemma MoveView(time: nat, es: seq<A.Entry>, used: seq<Slot>, free: seq<Slot>, k: nat)
    requires Partition(|es|, used, free) && k < |used|
    ensures InPool(|es|, Without(used, k)) && InPool(|es|, free + [used[k]])
    ensures PoolView(time, es, Without(used, k), free + [used[k]]) == A.FreeEntry(PoolView(time, es, used, free), k)
  {
    assert Pick(es, Without(used, k)) == Pick(es, used)[..k] + Pick(es, used)[k + 1..];
    assert Buffers(es, free + [used[k]]) == Buffers(es, free) + [Pick(es, used)[k].buffer];
  }

  lemma UpdateView(time: nat, es: seq<A.Entry>, used: seq<Slot>, free: seq<Slot>, k: nat, e: A.Entry)
    requires Partition(|es|, used, free) && k < |used|
    ensures PoolView(time, es[used[k] := e], used, free) ==
            PoolView(time, es, used, free).(used := Pick(es, used)[k := e])
  {
    var fs := es[used[k] := e];
    forall i | 0 <= i < |used| ensures Pick(fs, used)[i] == Pick(es, used)[k := e][i] {
      assert i != k ==> (used + free)[i] != (used + free)[k];
    }
    assert Pick(fs, used) == Pick(es, used)[k := e];
    forall i | 0 <= i < |free| ensures Buffers(fs, free)[i] == Buffers(es, free)[i] {
      assert (used + free)[|used| + i] != (used + free)[k];
    }
    assert Buffers(fs, free) == Buffers(es, free);
  }

  lemma TakeView(time: nat, es: seq<A.Entry>, used: seq<Slot>, free: seq<Slot>, id: nat)
    requires Partition(|es|, used, free) && free != []
    ensures var slot := free[0];
            var fs := es[slot := A.Fresh(id, time, es[slot].buffer)];
            && InPool(|fs|, used + [slot]) && InPool(|fs|, free[1..])
            && PoolView(time, fs, used + [slot], free[1..]) == A.Allocate(PoolView(time, es, used, free), id)
  {
    var slot := free[0];
    var fs := es[slot := A.Fresh(id, time, es[slot].buffer)];
    var all := used + free;
    assert all[|used|] == slot;
    forall i | 0 <= i < |used| ensures fs[used[i]] == es[used[i]] {
      assert all[i] != all[|used|];
    }
    assert Pick(fs, used + [slot]) == Pick(es, used) + [A.Fresh(id, time, es[slot].buffer)];
    forall i | 0 <= i < |free| - 1 ensures fs[free[1..][i]] == es[free[i + 1]] {
      assert all[|used|] != all[|used| + i + 1];
    }
    assert Buffers(fs, free[1..]) == Buffers(es, free)[1..];
  }

  /** The index agrees with a search of the used list. */
  lemma LookupAgrees(es: seq<A.Entry>, used: seq<Slot>, tree: map<nat, Slot>, id: nat)
    requires InPool(|es|, used) && Indexed(es, used, tree)
    ensures var k := A.IndexOf(Pick(es, used), id);
            (id in tree <==> k < |used|) && (id in tree ==> tree[id] == used[k] && tree[id] < |es| && es[tree[id]].id == id)
  {
    var k := A.IndexOf(Pick(es, used), id);
    if id in tree {
      var i := Position(used, tree[id]);
      assert Pick(es, used)[i].id == id;
      assert k <= i;
      assert es[used[k]].id == id;
    }
  }

  lemma IndexedWithout(es: seq<A.Entry>, used: seq<Slot>, free: seq<Slot>, tree: map<nat, Slot>, k: nat)
    requires Partition(|es|, used, free) && Indexed(es, used, tree) && k < |used|
    ensures Indexed(es, Without(used, k), tree - {es[used[k]].id})
  {
    var left := Without(used, k);
    var tree' := tree - {es[used[k]].id};
    forall i | 0 <= i < |left| ensures es[left[i]].id in tree' && tree'[es[left[i]].id] == left[i] {
      var j := if i < k then i else i + 1;
      assert left[i] == used[j];
      assert (used + free)[j] != (used + free)[k];
    }
    forall id | id in tree' ensures tree'[id] in left {
      var j := Position(used, tree[id]);
      assert j != k;
      assert left[if j < k then j else j - 1] == tree[id];
    }
  }

  lemma IndexedWith(es: seq<A.Entry>, used: seq<Slot>, free: seq<Slot>, tree: map<nat, Slot>, e: A.Entry)
    requires Partition(|es|, used, free) && Indexed(es, used, tree) && free != [] && e.id !in tree
    ensures Indexed(es[free[0] := e], used + [free[0]], tree[e.id := free[0]])
  {
    var fs := es[free[0] := e];
    var all := used + free;
    assert all[|used|] == free[0];
    forall i | 0 <= i < |used| ensures fs[used[i]] == es[used[i]] {
      assert all[i] != all[|used|];
    }
    forall id | id in tree ensures tree[id] != free[0] {
      assert used[Position(used, tree[id])] == tree[id];
      assert all[Position(used, tree[id])] != all[|used|];
    }
  }

  lemma IndexedUpdate(es: seq<A.Entry>, used: seq<Slot>, tree: map<nat, Slot>, slot: Slot, e: A.Entry)
    requires InPool(|es|, used) && Indexed(es, used, tree) && slot in used && e.id == es[slot].id
    ensures Indexed(es[slot := e], used, tree)
  {
  }

  lemma PositionOf(n: nat, used: seq<Slot>, free: seq<Slot>, k: nat)
    requires Partition(n, used, free) && k < |used|
    ensures used[k] < n && used[k] in used && Position(used, used[k]) == k
  {
    var all, j := used + free, Position(used, used[k]);
    assert all[j] == all[k];
  }

  lemma SurvivalSnoc(cfg: A.Config, now: nat, used: seq<A.Entry>, e: A.Entry)
    ensures A.Survivors(cfg, now, used + [e]) == A.Survivors(cfg, now, used) + A.Kept(cfg, now, e)
    ensures A.Expired(cfg, now, used + [e]) == A.Expired(cfg, now, used) + A.Dropped(cfg, now, e)
    ensures A.MinTime(used + [e]) == if used == [] || e.time < A.MinTime(used) then e.time else A.MinTime(used)
  {
    hide A.Kept, A.Dropped;
    assert (used + [e])[..|used|] == used;
  }

  /** What the scan for timed out entries has established after looking at the first `j` of them. */
  ghost predicate Scanned(cfg: A.Config, was: A.State, now: A.State, j: nat, i: nat, least: Option<nat>) {
    && j <= |was.used|
    && var alive := A.Survivors(cfg, was.time, was.used[..j]);
    && i == |alive|
    && now == A.State(was.time, alive + was.used[j..], was.free + A.Expired(cfg, was.time, was.used[..j]))
    && least == if alive == [] then None else Some(A.MinTime(alive))
  }

  lemma ScannedNone(cfg: A.Config, was: A.State)
    ensures Scanned(cfg, was, was, 0, 0, None)
  {
    assert was.used[..0] == [] && was.used[0..] == was.used;
    assert [] + was.used == was.used && was.free + [] == was.free;
  }

  lemma ScannedAll(cfg: A.Config, was: A.State, now: A.State, i: nat, least: Option<nat>)
    requires Scanned(cfg, was, now, |was.used|, i, least)
    ensures var alive := A.Survivors(cfg, was.time, was.used);
            && now == A.State(was.time, alive, was.free + A.Expired(cfg, was.time, was.used))
            && least == if alive == [] then None else Some(A.MinTime(alive))
  {
    hide A.Survivors, A.Expired, A.MinTime;
    var n := |was.used|;
    assert was.used[..n] == was.used && was.used[n..] == [];
    var alive := A.Survivors(cfg, was.time, was.used);
    assert alive + [] == alive;
  }

  lemma ScannedAt(cfg: A.Config, was: A.State, now: A.State, j: nat, i: nat, least: Option<nat>)
    requires Scanned(cfg, was, now, j, i, least) && j < |was.used|
    ensures i < |now.used| && now.used[i] == was.used[j]
  {
    hide A.Survivors, A.Expired, A.MinTime;
    Seqs.NextOf(was.used, j);
    Seqs.AfterPrefix(A.Survivors(cfg, was.time, was.used[..j]), was.used[j], was.used[j + 1..]);
  }

  lemma ScannedDrop(cfg: A.Config, was: A.State, now: A.State, j: nat, i: nat, least: Option<nat>)
    requires Scanned(cfg, was, now, j, i, least) && j < |was.used| && i < |now.used|
    requires A.TimedOut(cfg, was.time, was.used[j])
    ensures Scanned(cfg, was, A.FreeEntry(now, i), j + 1, i, least)
  {
    hide A.Survivors, A.Expired, A.MinTime;
    var e, seen := was.used[j], was.used[..j];
    var alive, gone := A.Survivors(cfg, was.time, seen), A.Expired(cfg, was.time, seen);
    Seqs.NextOf(was.used, j);
    SurvivalSnoc(cfg, was.time, seen, e);
    Seqs.AfterPrefix(alive, e, was.used[j + 1..]);
    Seqs.Assoc(was.free, gone, [e.buffer]);
    Seqs.EmptyUnit(alive);
  }

  lemma ScannedKeep(cfg: A.Config, was: A.State, now: A.State, j: nat, i: nat, least: Option<nat>)
    requires Scanned(cfg, was, now, j, i, least) && j < |was.used|
    requires !A.TimedOut(cfg, was.time, was.used[j])
    ensures var t := was.used[j].time;
            Scanned(cfg, was, now, j + 1, i + 1, Some(if least.None? || t < least.value then t else least.value))
  {
    hide A.Survivors, A.Expired, A.MinTime;
    var e, seen := was.used[j], was.used[..j];
    var alive := A.Survivors(cfg, was.time, seen);
    Seqs.NextOf(was.used, j);
    SurvivalSnoc(cfg, was.time, seen, e);
    SurvivalSnoc(cfg, was.time, alive, e);
    Seqs.AfterPrefix(alive, e, was.used[j + 1..]);
    Seqs.EmptyUnit(A.Expired(cfg, was.time, seen));
  }

  /** The times of the first `i` used entries have been moved back by `d`. */
  ghost predicate Shifting(was: A.State, now: A.State, d: nat, i: nat)
    requires forall k :: 0 <= k < |was.used| ==> d <= was.used[k].time
  {
    i <= |was.used| && now == was.(used := A.ShiftTimes(was.used, d)[..i] + was.used[i..])
  }

  lemma ShiftingStep(was: A.State, now: A.State, d: nat, i: nat)
    requires forall k :: 0 <= k < |was.used| ==> d <= was.used[k].time
    requires Shifting(was, now, d, i) && i < |was.used|
    ensures |now.used| == |was.used| && now.used[i] == was.used[i]
    ensures var e := was.used[i];
            Shifting(was, now.(used := now.used[i := e.(time := e.time - d)]), d, i + 1)
  {
    var e, shifted := was.used[i], A.ShiftTimes(was.used, d);
    hide A.ShiftTimes;
    assert now.used[i := shifted[i]] == shifted[..i + 1] + was.used[i + 1..];
  }

  lemma ShiftingEnds(was: A.State, now: A.State, d: nat)
    requires forall k :: 0 <= k < |was.used| ==> d <= was.used[k].time
    ensures Shifting(was, was, d, 0)
    ensures Shifting(was, now, d, |was.used|) ==> now == was.(used := A.ShiftTimes(was.used, d))
  {
    var shifted := A.ShiftTimes(was.used, d);
    assert shifted[..0] + was.used[0..] == was.used;
    assert shifted[..|was.used|] + was.used[|was.used|..] == shifted;
  }

  lemma AbandonedPacket(cfg: A.Config, st: A.State, data: bytes)
    requires cfg.Valid() && T.Inv(cfg, st) && (ReadChunk(data).Malformed? || data == [])
    ensures A.TimesOk(st) && T.ProcessInput(cfg, st, data) == T.Finished(A.Tick(cfg, st))
  {
  }

  /** The times of the survivors, moved back by the least of them. */
  lemma ReducedIs(cfg: A.Config, st: A.State)
    requires A.TimesOk(st)
    ensures var alive := A.Survivors(cfg, st.time, st.used);
            var free := st.free + A.Expired(cfg, st.time, st.used);
            if alive == [] then A.ReduceTimes(cfg, st) == A.State(0, [], free)
            else
              && A.MinTime(alive) <= st.time
              && (forall i :: 0 <= i < |alive| ==> A.MinTime(alive) <= alive[i].time)
              && A.ReduceTimes(cfg, st)
                 == A.State(st.time - A.MinTime(alive), A.ShiftTimes(alive, A.MinTime(alive)), free)
  {
    A.SurvivorsFrom(cfg, st.time, st.used);
    hide A.Survivors, A.Expired, A.ShiftTimes;
    var alive := A.Survivors(cfg, st.time, st.used);
    if alive != [] {
      assert alive[0] in st.used;
    }
  }

  class Assembler {
    const cfg: A.Config
    var time: nat
    const entries: array<A.Entry>
    var used: seq<Slot>
    var free: seq<Slot>
    var tree: map<nat, Slot>

    // the packet being worked through, if any
    var inLen: int
    var input: bytes
    var inPos: nat

    ghost predicate Shape()
      reads this, entries
    {
      && cfg.Valid() && entries.Length == cfg.numFrames
      && Partition(entries.Length, used, free)
      && Indexed(entries[..], used, tree)
    }

    ghost function View(): A.State
      reads this, entries
      requires Shape()
    {
      PoolView(time, entries[..], used, free)
    }

    lemma ViewFacts()
      requires Shape()
      ensures View().time == time && |View().used| == |used| && |View().used| + |View().free| == cfg.numFrames > 0
    {
    }

    ghost predicate Valid()
      reads this, entries
    {
      && Shape() && T.Inv(cfg, View())
      && -1 <= inLen && (inLen >= 0 ==> |input| == inLen && inPos <= inLen)
    }

    constructor (cfg: A.Config)
      requires cfg.Valid()
      ensures Valid() && this.cfg == cfg && View() == A.Initial(cfg) && inLen == -1 && fresh(entries)
    {
      this.cfg := cfg;
      time := 0;
      entries := new A.Entry[cfg.numFrames](i => A.Fresh(0, 0, seq(cfg.mtu, j => 0)));
      used := [];
      free := seq(cfg.numFrames, i => i);
      tree := map[];
      inLen, input, inPos := -1, [], 0;
      new;
      T.InitialInv(cfg);
      assert Buffers(entries[..], free) == A.Initial(cfg).free;
      assert Pick(entries[..], used) == [];
    }

    method FreeFrame(slot: Slot)
      requires Shape() && slot in used
      modifies this`used, this`free, this`tree
      ensures Shape()
      ensures View() == A.FreeEntry(old(View()), Position(old(used), slot))
      ensures tree == old(tree) - {entries[slot].id} && |used| == |old(used)| - 1
    {
      var k := Position(used, slot);
      MovePartition(entries.Length, used, free, k);
      MoveView(time, entries[..], used, free, k);
      IndexedWithout(entries[..], used, free, tree, k);
      used := Without(used, k);
      tree := tree - {entries[slot].id};
      free := free + [slot];
    }

    method FreeOldestFrame()
      requires Shape() && used != []
      modifies this`used, this`free, this`tree
      ensures Shape()
      ensures View() == A.FreeEntry(old(View()), 0)
      ensures tree == old(tree - {entries[used[0]].id})
    {
      assert Position(used, used[0]) == 0;
      FreeFrame(used[0]);
    }

    /** Takes the first free entry for `id`. */
    method TakeFreeFrame(id: nat) returns (slot: Slot)
      requires Shape() && id !in tree && free != []
      modifies this`used, this`free, this`tree, entries
      ensures Shape()
      ensures View() == A.Allocate(old(View()), id)
      ensures used != [] && used[|used| - 1] == slot
    {
      hide Indexed, NoDup, PoolView, A.Allocate, T.Inv;
      slot := free[0];
      var e := A.Fresh(id, time, entries[slot].buffer);
      TakeView(time, entries[..], used, free, id);
      TakePartition(entries.Length, used, free);
      IndexedWith(entries[..], used, free, tree, e);
      ghost var es := entries[..];
      free := free[1..];
      entries[slot] := e;
      assert entries[..] == es[slot := e];
      used := used + [slot];
      tree := tree[id := slot];
    }

    method AllocateNewFrame(id: nat) returns (slot: Slot)
      requires Shape() && id !in tree
      modifies this`used, this`free, this`tree, entries
      ensures Shape()
      ensures View() == A.Allocate(old(View()), id)
      ensures slot in used && Position(used, slot) == |View().used| - 1
    {
      hide Indexed, NoDup;
      if free == [] {
        FreeOldestFrame();
      }
      slot := TakeFreeFrame(id);
      PositionOf(entries.Length, used, free, |used| - 1);
    }

    /** Finds the used entry with this id through the index. */
    method Lookup(id: nat) returns (found: Option<Slot>)
      requires Shape()
      ensures var k := A.IndexOf(View().used, id);
              match found
              case None => id !in tree && k == |View().used|
              case Some(slot) =>
                && slot in used && Position(used, slot) == k && k < |View().used|
                && slot < entries.Length && entries[slot] == View().used[k] && entries[slot].id == id
    {
      LookupAgrees(entries[..], used, tree, id);
      ghost var k := A.IndexOf(View().used, id);
      if id !in tree {
        return None;
      }
      PositionOf(entries.Length, used, free, k);
      return Some(tree[id]);
    }

    /** The entry for `id`: the one in use, unless it has timed out, or a new one. */
    method ObtainFrame(id: nat) returns (slot: Slot)
      requires Shape()
      modifies this`used, this`free, this`tree, entries
      ensures Shape() && slot in used
      ensures A.Obtain(cfg, old(View()), id) == (View(), Position(used, slot))
    {
      hide Shape, View, Position, A.Allocate, A.FreeEntry, A.IndexOf;
      ViewFacts();
      var found := Lookup(id);
      if found.None? {
        slot := AllocateNewFrame(id);
      } else {
        slot := found.value;
        if time - entries[slot].time > cfg.numFrames {
          FreeFrame(slot);
          slot := AllocateNewFrame(id);
        }
      }
    }

    /** Replaces an entry in place, keeping its id. */
    method UpdateEntry(slot: Slot, e: A.Entry)
      requires Shape() && slot in used && e.id == entries[slot].id
      modifies entries
      ensures Shape()
      ensures View() == old(View()).(used := old(View()).used[Position(used, slot) := e])
      ensures entries[slot] == e
    {
      UpdateView(time, entries[..], used, free, Position(used, slot), e);
      IndexedUpdate(entries[..], used, tree, slot, e);
      ghost var es := entries[..];
      entries[slot] := e;
      assert entries[..] == es[slot := e];
    }

    /** Whether the chunk overlaps one already recorded for the entry. */
    method FindOverlap(slot: Slot, c: A.Span) returns (found: bool)
      requires slot < entries.Length
      ensures found <==> A.OverlapsAny(entries[slot].spans, c)
    {
      var spans := entries[slot].spans;
      for i := 0 to |spans|
        invariant forall j :: 0 <= j < i ==> !A.Overlap(spans[j], c)
      {
        if A.Overlap(spans[i], c) {
          return true;
        }
      }
      return false;
    }

    lemma DeliverFacts(slot: Slot, c: ValidChunk)
      requires Shape() && slot in used && A.PoolShape(cfg, View()) && A.InBounds(cfg, c)
      ensures slot < entries.Length && Position(used, slot) < |View().used| && View().used[Position(used, slot)] == entries[slot]
      ensures |entries[slot].buffer| == cfg.mtu && c.End() <= cfg.mtu && A.Add(time, entries[slot], c).length <= cfg.mtu
    {
    }

    /** Gives a chunk to an entry: rejects it with the entry, keeps it, or completes the frame. */
    method DeliverChunk(slot: Slot, c: ValidChunk) returns (frame: Option<bytes>)
      requires Shape() && slot in used && A.PoolShape(cfg, View()) && A.InBounds(cfg, c)
      modifies this`used, this`free, this`tree, entries
      ensures Shape()
      ensures (View(), frame) == A.Deliver(cfg, old(View()), Position(old(used), slot), c)
    {
      hide Indexed, Partition, A.PoolShape, A.FreeEntry, A.OverlapsAny, A.Add, Position;
      DeliverFacts(slot, c);
      ghost var k := Position(used, slot);
      var e := entries[slot];
      var overlap := FindOverlap(slot, A.SpanOf(c));
      var bad := if c.last then e.length >= 0 || e.lengthSoFar > c.End() else e.length >= 0 && c.End() > e.length;
      if overlap || bad {
        FreeFrame(slot);
        return None;
      }
      e := A.Add(time, e, c);
      UpdateEntry(slot, e);
      if e.length < 0 || e.sum < e.length {
        if |e.spans| == cfg.numChunks {
          FreeFrame(slot);
        }
        return None;
      }
      FreeFrame(slot);
      return Some(e.buffer[..e.length]);
    }

    method ProcessChunk(c: ValidChunk) returns (frame: Option<bytes>)
      requires Shape() && T.Inv(cfg, View())
      modifies this`used, this`free, this`tree, entries
      ensures Shape() && T.Inv(cfg, View())
      ensures (View(), frame) == A.ProcessChunk(cfg, old(View()), c)
    {
      T.ProcessChunkInv(cfg, View(), c);
      A.ObtainShape(cfg, View(), c.id);
      assert A.PoolShape(cfg, View());
      hide T.Inv, Indexed, Partition, A.Obtain, A.Deliver;
      if c.start > cfg.mtu || |c.payload| > cfg.mtu - c.start {
        return None;
      }
      var slot := ObtainFrame(c.id);
      frame := DeliverChunk(slot, c);
    }

    /** One step of the scan for timed out entries. */
    method ScanOne(i: nat, least: Option<nat>, ghost was: A.State, ghost j: nat) returns (i': nat, least': Option<nat>)
      requires Shape() && i < |used| && j < |was.used| && Scanned(cfg, was, View(), j, i, least)
      modifies this`used, this`free, this`tree
      ensures Shape() && Scanned(cfg, was, View(), j + 1, i', least')
      ensures |used| - i' == |old(used)| - i - 1
    {
      assert time == was.time;
      hide Indexed, Partition, Scanned, Position, A.FreeEntry, A.Survivors, A.Expired, A.MinTime;
      var slot := used[i];
      PositionOf(entries.Length, used, free, i);
      ScannedAt(cfg, was, View(), j, i, least);
      assert entries[slot] == was.used[j];
      i', least' := i, least;
      if time - entries[slot].time > cfg.numFrames {
        ScannedDrop(cfg, was, View(), j, i, least);
        FreeFrame(slot);
      } else {
        ScannedKeep(cfg, was, View(), j, i, least);
        if least.None? || entries[slot].time < least.value {
          least' := Some(entries[slot].time);
        }
        i' := i + 1;
      }
    }

    /** Removes the timed out entries and finds the least time among the others. */
    method DropTimedOut() returns (least: Option<nat>)
      requires Shape() && A.TimesOk(View())
      modifies this`used, this`free, this`tree
      ensures Shape()
      ensures var st, alive := old(View()), A.Survivors(cfg, time, old(View()).used);
              && View() == A.State(time, alive, st.free + A.Expired(cfg, time, st.used))
              && least == if alive == [] then None else Some(A.MinTime(alive))
    {
      hide Indexed, Partition, Scanned, A.Survivors, A.Expired, A.MinTime;
      ghost var was := View();
      ghost var j := 0;
      var i: nat := 0;
      least := None;
      ScannedNone(cfg, was);
      while i < |used|
        invariant Shape() && j <= |was.used| && Scanned(cfg, was, View(), j, i, least)
        invariant |used| - i == |was.used| - j
      {
        i, least := ScanOne(i, least, was, j);
        j := j + 1;
      }
      ScannedAll(cfg, was, View(), i, least);
    }

    method SubtractOne(i: nat, d: nat, ghost was: A.State)
      requires Shape() && forall k :: 0 <= k < |was.used| ==> d <= was.used[k].time
      requires i < |used| == |was.used| && Shifting(was, View(), d, i)
      modifies entries
      ensures Shape() && Shifting(was, View(), d, i + 1)
    {
      hide Indexed, Partition, Shifting, Position;
      var slot := used[i];
      PositionOf(entries.Length, used, free, i);
      ShiftingStep(was, View(), d, i);
      assert entries[slot] == was.used[i];
      UpdateEntry(slot, entries[slot].(time := entries[slot].time - d));
    }

    /** Moves the times of the used entries back by `d`. */
    method SubtractTimes(d: nat)
      requires Shape() && forall i :: 0 <= i < |View().used| ==> d <= View().used[i].time
      modifies entries
      ensures Shape()
      ensures View() == old(View()).(used := A.ShiftTimes(old(View()).used, d))
    {
      ghost var was := View();
      hide Indexed, Partition, Shifting, A.ShiftTimes;
      ShiftingEnds(was, was, d);
      for i := 0 to |used|
        invariant Shape() && Shifting(was, View(), d, i)
      {
        SubtractOne(i, d, was);
      }
      ShiftingEnds(was, View(), d);
    }

    method ReduceTimes()
      requires Shape() && A.TimesOk(View())
      modifies this`time, this`used, this`free, this`tree, entries
      ensures Shape()
      ensures View() == A.ReduceTimes(cfg, old(View()))
    {
      hide Indexed, Partition, Pick, Buffers, A.ReduceTimes, A.Survivors, A.Expired, A.ShiftTimes, A.MinTime;
      ReducedIs(cfg, View());
      var least := DropTimedOut();
      if least.None? {
        time := 0;
        return;
      }
      SubtractTimes(least.value);
      time := time - least.value;
    }

    /** The end of a packet: the clock advances, after making room for it if it is at its maximum. */
    method AdvanceClock()
      requires Shape() && T.Inv(cfg, View())
      modifies this`time, this`used, this`free, this`tree, entries
      ensures Shape() && T.Inv(cfg, View())
      ensures View() == A.Tick(cfg, old(View()))
    {
      hide Indexed, Partition, Pick, Buffers, T.Inv, A.ReduceTimes, A.TimesOk;
      T.TickInv(cfg, View());
      T.InvFacts(cfg, View());
      if time == A.MAX_TIME {
        ReduceTimes();
        if used != [] {
          time := time + 1;
        }
      } else {
        time := time + 1;
      }
    }

    /** Reads a chunk header and its data at the current position; `ok` is false if the packet is to be abandoned. */
    method ReadOne() returns (c: ValidChunk, ok: bool)
      requires inLen == |input| && inPos <= inLen
      modifies this`inPos
      ensures inPos <= inLen
      ensures match ReadChunk(old(input[inPos..]))
              case Malformed => !ok
              case Read(d, rest) => ok && c == d && input[inPos..] == rest && inPos > old(inPos)
    {
      ghost var data := input[inPos..];
      c, ok := Chunk(0, 0, [], false), false;
      if inLen - inPos < HEADER_SIZE {
        return;
      }
      var at := inPos;
      inPos := inPos + HEADER_SIZE;
      assert data[0..2] == input[at..at + 2] && data[2..4] == input[at + 2..at + 4];
      assert data[4..6] == input[at + 4..at + 6] && data[6] == input[at + 6];
      assert data[HEADER_SIZE..] == input[inPos..];
      var id, start, len := FromLe16(input[at..at + 2]), FromLe16(input[at + 2..at + 4]), FromLe16(input[at + 4..at + 6]);
      var isLast := input[at + 6];
      if isLast != 0 && isLast != 1 {
        return;
      }
      if inLen - inPos < len {
        return;
      }
      c, ok := Chunk(id, start, input[inPos..inPos + len], isLast == 1), true;
      assert input[inPos..][..len] == c.payload && input[inPos..][len..] == input[inPos + len..];
      inPos := inPos + len;
    }

    /** Works through the packet at hand until a frame is complete or the packet is used up. */
    method ProcessInput() returns (frame: Option<bytes>)
      requires Valid() && inLen >= 0
      modifies this, entries
      ensures Valid()
      ensures match T.ProcessInput(cfg, old(View()), old(input[inPos..]))
              case Emitted(st, rest, f) => View() == st && frame == Some(f) && inLen >= 0 && input[inPos..] == rest
              case Finished(st) => View() == st && frame == None && inLen == -1
    {
      hide Indexed, Partition, T.Inv, A.ProcessChunk, A.Tick, ReadChunk;
      ghost var expected := T.ProcessInput(cfg, View(), input[inPos..]);
      while inPos < inLen
        invariant Valid() && inLen >= 0
        invariant expected == T.ProcessInput(cfg, View(), input[inPos..])
        decreases inLen - inPos
      {
        ghost var data := input[inPos..];
        var c, ok := ReadOne();
        if !ok {
          AbandonedPacket(cfg, View(), data);
          break;
        }
        frame := ProcessChunk(c);
        if frame.Some? {
          return;
        }
      }
      AbandonedPacket(cfg, View(), input[inLen..]);
      assert expected == T.Finished(A.Tick(cfg, View()));
      AdvanceClock();
      inLen := -1;
      frame := None;
    }

    /** A packet arrives; the first frame it completes, if any, is to be sent before processing goes on. */
    method InputSend(data: bytes) returns (frame: Option<bytes>)
      requires Valid() && inLen == -1
      modifies this, entries
      ensures Valid()
      ensures match T.ProcessInput(cfg, old(View()), data)
              case Emitted(st, rest, f) => View() == st && frame == Some(f) && inLen >= 0 && input[inPos..] == rest
              case Finished(st) => View() == st && frame == None && inLen == -1
    {
      inLen, input, inPos := |data|, data, 0;
      assert input[0..] == data;
      frame := ProcessInput();
    }

    /** The frame has been sent: processing goes on where it stopped. */
    method OutputDone() returns (frame: Option<bytes>)
      requires Valid() && inLen >= 0
      modifies this, entries
      ensures Valid()
      ensures match T.ProcessInput(cfg, old(View()), old(input[inPos..]))
              case Emitted(st, rest, f) => View() == st && frame == Some(f) && inLen >= 0 && input[inPos..] == rest
              case Finished(st) => View() == st && frame == None && inLen == -1
    {
      frame := ProcessInput();
    }
  }

  /** A whole packet, frame by frame: the calls together do what `FeedPacket` says. */
  method Feed(a: Assembler, data: bytes) returns (frames: seq<bytes>)
    requires a.Valid() && a.inLen == -1
    modifies a, a.entries
    ensures a.Valid() && a.inLen == -1
    ensures (a.View(), frames) == T.FeedPacket(a.cfg, old(a.View()), data)
  {
    hide T.Inv, T.ProcessInput;
    ghost var expected := T.FeedPacket(a.cfg, a.View(), data);
    frames := [];
    var frame := a.InputSend(data);
    Seqs.EmptyUnit(expected.1);
    while frame.Some?
      invariant a.Valid() && (frame.Some? ==> a.inLen >= 0) && (frame.None? ==> a.inLen == -1)
      invariant match frame
                case Some(f) =>
                  var (st, more) := T.FeedPacket(a.cfg, a.View(), a.input[a.inPos..]);
                  expected == (st, frames + ([f] + more))
                case None => expected == (a.View(), frames)
      decreases if frame.Some? then |a.input[a.inPos..]| + 1 else 0
    {
      ghost var (st, more) := T.FeedPacket(a.cfg, a.View(), a.input[a.inPos..]);
      Seqs.Assoc(frames, [frame.value], more);
      frames := frames + [frame.value];
      Seqs.EmptyUnit(frames);
      frame := a.OutputDone();
    }
  }
}
