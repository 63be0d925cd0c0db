/**
 * The table as it is stored: every peer has a fixed number of entries, each on its free list or on its used
 * list, and the used entries of all peers are indexed by address in one tree.
 */
module MacEntries {
  import opened Lists
  import T = MacTable

  type Peer = T.Peer

  type Mac = T.Mac

  /** An entry of a peer's array. */
  type Slot = nat

  datatype Pool = Pool(free: map<Peer, seq<Slot>>, used: map<Peer, seq<Slot>>, mac: map<(Peer, Slot), Mac>, tree: map<Mac, (Peer, Slot)>)

  /** The addresses in a list of a peer's entries. */
  function MacsOf(mac: map<(Peer, Slot), Mac>, p: Peer, slots: seq<Slot>): (r: seq<Mac>)
    requires forall k :: 0 <= k < |slots| ==> (p, slots[k]) in mac
    ensures |r| == |slots|
    ensures forall k :: 0 <= k < |slots| ==> r[k] == mac[(p, slots[k])]
  {
    if slots == [] then [] else [mac[(p, slots[0])]] + MacsOf(mac, p, slots[1..])
  }

  // ---------- the invariant ----------

  /** A peer's free and used lists share out its entries. */
  ghost predicate Shared(max: nat, free: seq<Slot>, used: seq<Slot>) {
    && NoDup(free) && NoDup(used) && |free| + |used| == max
    && (forall i: Slot :: i in free ==> i < max && i !in used)
    && (forall i: Slot :: i in used ==> i < max)
  }

  ghost predicate PeerOk(max: nat, pool: Pool, p: Peer) {
    && (p in pool.free <==> p in pool.used)
    && (p in pool.used ==> Shared(max, pool.free[p], pool.used[p]))
  }

  predicate EntryOk(pool: Pool, e: (Peer, Slot)) {
    e.0 in pool.used && e.1 in pool.used[e.0] ==>
      e in pool.mac && pool.mac[e] in pool.tree && pool.tree[pool.mac[e]] == e
  }

  predicate TreeOk(pool: Pool, m: Mac) {
    m in pool.tree ==>
      var e := pool.tree[m];
      e.0 in pool.used && e.1 in pool.used[e.0] && e in pool.mac && pool.mac[e] == m
  }

  /** The tree is the disjoint union of the used lists, and each peer's entries are shared out. */
  ghost predicate Inv(max: nat, pool: Pool) {
    && max > 0
    && (forall p: Peer :: PeerOk(max, pool, p))
    && (forall e: (Peer, Slot) :: EntryOk(pool, e))
    && (forall m: Mac :: TreeOk(pool, m))
  }

  ghost predicate Stored(pool: Pool, p: Peer) {
    p in pool.used ==> forall k :: 0 <= k < |pool.used[p]| ==> (p, pool.used[p][k]) in pool.mac
  }

  lemma InvStored(max: nat, pool: Pool, p: Peer)
    requires Inv(max, pool)
    ensures Stored(pool, p)
  {
    if p in pool.used {
      forall k | 0 <= k < |pool.used[p]| ensures (p, pool.used[p][k]) in pool.mac {
        assert EntryOk(pool, (p, pool.used[p][k]));
      }
    }
  }

  ghost predicate AllStored(pool: Pool) {
    forall p: Peer :: Stored(pool, p)
  }

  /** The table that the entries represent. */
  ghost function View(max: nat, pool: Pool): T.Table
    requires AllStored(pool)
  {
    T.Table(max, map p | p in pool.used :: assert Stored(pool, p); MacsOf(pool.mac, p, pool.used[p]))
  }

  lemma InvAllStored(max: nat, pool: Pool)
    requires Inv(max, pool)
    ensures AllStored(pool)
  {
    forall p: Peer ensures Stored(pool, p) {
      InvStored(max, pool, p);
    }
  }

  // ---------- lists of entries and lists of addresses ----------

  lemma {:induction false} MacsWithout(mac: map<(Peer, Slot), Mac>, p: Peer, slots: seq<Slot>, i: Slot)
    requires forall k :: 0 <= k < |slots| ==> (p, slots[k]) in mac
    requires (p, i) in mac && forall k :: 0 <= k < |slots| && mac[(p, slots[k])] == mac[(p, i)] ==> slots[k] == i
    ensures forall k :: 0 <= k < |Without(slots, i)| ==> (p, Without(slots, i)[k]) in mac
    ensures MacsOf(mac, p, Without(slots, i)) == Without(MacsOf(mac, p, slots), mac[(p, i)])
  {
    if slots != [] {
      MacsWithout(mac, p, slots[1..], i);
      assert MacsOf(mac, p, slots)[1..] == MacsOf(mac, p, slots[1..]);
      if slots[0] != i {
        assert ([slots[0]] + Without(slots[1..], i))[1..] == Without(slots[1..], i);
      }
    }
  }

  lemma {:induction false} MacsSnoc(mac: map<(Peer, Slot), Mac>, p: Peer, slots: seq<Slot>, i: Slot)
    requires (p, i) in mac && forall k :: 0 <= k < |slots| ==> (p, slots[k]) in mac
    ensures forall k :: 0 <= k < |slots + [i]| ==> (p, (slots + [i])[k]) in mac
    ensures MacsOf(mac, p, slots + [i]) == MacsOf(mac, p, slots) + [mac[(p, i)]]
  {
    var r := MacsOf(mac, p, slots + [i]);
    assert |r| == |slots| + 1;
    forall k | 0 <= k < |r| ensures r[k] == (MacsOf(mac, p, slots) + [mac[(p, i)]])[k] {
    }
  }

  /** Another entry's address does not matter. */
  lemma MacsSame(mac: map<(Peer, Slot), Mac>, mac': map<(Peer, Slot), Mac>, p: Peer, slots: seq<Slot>)
    requires forall k :: 0 <= k < |slots| ==> (p, slots[k]) in mac && (p, slots[k]) in mac' && mac'[(p, slots[k])] == mac[(p, slots[k])]
    ensures MacsOf(mac', p, slots) == MacsOf(mac, p, slots)
  {
    var r, r' := MacsOf(mac, p, slots), MacsOf(mac', p, slots);
    forall k | 0 <= k < |r| ensures r'[k] == r[k] {
    }
  }

  // ---------- the four things that are done to the lists ----------

  /** Moves a used entry to the end of its list. */
  function Refresh(pool: Pool, o: Peer, i: Slot): Pool
    requires o in pool.used
  {
    pool.(used := pool.used[o := Without(pool.used[o], i) + [i]])
  }

  /** Takes a used entry out of the tree and gives it back to its peer. */
  function Release(pool: Pool, q: Peer, i: Slot): Pool
    requires q in pool.used && q in pool.free && (q, i) in pool.mac
  {
    pool.(tree := pool.tree - {pool.mac[(q, i)]},
          used := pool.used[q := Without(pool.used[q], i)],
          free := pool.free[q := pool.free[q] + [i]])
  }

  /** Uses the first free entry for `m`. */
  function TakeFree(pool: Pool, o: Peer, m: Mac): Pool
    requires o in pool.used && o in pool.free && pool.free[o] != []
  {
    var i := pool.free[o][0];
    Pool(pool.free[o := pool.free[o][1..]], pool.used[o := pool.used[o] + [i]], pool.mac[(o, i) := m], pool.tree[m := (o, i)])
  }

  /** Uses the peer's oldest entry for `m`. */
  function Reuse(pool: Pool, o: Peer, m: Mac): Pool
    requires o in pool.used && pool.used[o] != [] && (o, pool.used[o][0]) in pool.mac
  {
    var i := pool.used[o][0];
    pool.(used := pool.used[o := pool.used[o][1..] + [i]], mac := pool.mac[(o, i) := m],
          tree := (pool.tree - {pool.mac[(o, i)]})[m := (o, i)])
  }

  /** The table with one list replaced. */
  function With(t: T.Table, p: Peer, list: seq<Mac>): T.Table {
    t.(lists := t.lists[p := list])
  }

  ghost predicate IsUsed(pool: Pool, p: Peer, i: Slot) {
    p in pool.used && i in pool.used[p]
  }

  lemma Facts(max: nat, pool: Pool, p: Peer, i: Slot)
    requires Inv(max, pool) && IsUsed(pool, p, i)
    ensures p in pool.free && Shared(max, pool.free[p], pool.used[p]) && (p, i) in pool.mac && Stored(pool, p)
    ensures pool.mac[(p, i)] in pool.tree && pool.tree[pool.mac[(p, i)]] == (p, i)
    ensures forall k :: 0 <= k < |pool.used[p]| && pool.mac[(p, pool.used[p][k])] == pool.mac[(p, i)] ==> pool.used[p][k] == i
  {
    InvStored(max, pool, p);
    assert PeerOk(max, pool, p) && EntryOk(pool, (p, i));
    forall k | 0 <= k < |pool.used[p]| && pool.mac[(p, pool.used[p][k])] == pool.mac[(p, i)] ensures pool.used[p][k] == i {
      assert EntryOk(pool, (p, pool.used[p][k]));
    }
  }

  lemma SharedMove(max: nat, free: seq<Slot>, used: seq<Slot>, i: Slot)
    requires Shared(max, free, used) && i in used
    ensures Shared(max, free + [i], Without(used, i)) && Shared(max, free, Without(used, i) + [i])
  {
    WithoutMembers(used, i);
    WithoutSize(used, i);
    NoDupSnoc(free, i);
    NoDupSnoc(Without(used, i), i);
  }

  lemma SharedTake(max: nat, free: seq<Slot>, used: seq<Slot>)
    requires Shared(max, free, used) && free != []
    ensures Shared(max, free[1..], used + [free[0]])
  {
    forall i: Slot | i in free[1..] ensures i in free && i != free[0] {
      TailMembers(free, i);
    }
    NoDupSnoc(used, free[0]);
  }

  lemma SharedReuse(max: nat, free: seq<Slot>, used: seq<Slot>)
    requires Shared(max, free, used) && used != []
    ensures Shared(max, free, used[1..] + [used[0]])
  {
    forall i: Slot ensures i in used[1..] + [used[0]] <==> i in used {
      TailMembers(used, i);
    }
    NoDupSnoc(used[1..], used[0]);
  }

  /** Two pools that differ in one peer's list represent tables that differ in its list. */
  lemma ViewWith(max: nat, pool: Pool, pool': Pool, p: Peer, list: seq<Mac>)
    requires AllStored(pool) && AllStored(pool') && p in pool.used && pool'.used.Keys == pool.used.Keys
    requires Stored(pool', p) && MacsOf(pool'.mac, p, pool'.used[p]) == list
    requires forall q: Peer :: q in pool.used && q != p ==> pool'.used[q] == pool.used[q]
    requires forall e: (Peer, Slot) :: e in pool.mac && e.0 != p ==> e in pool'.mac && pool'.mac[e] == pool.mac[e]
    ensures View(max, pool') == With(View(max, pool), p, list)
  {
    hide MacsOf;
    var t, t' := With(View(max, pool), p, list), View(max, pool');
    forall q: Peer | q in t.lists ensures t'.lists[q] == t.lists[q] {
      if q != p {
        assert Stored(pool, q) && Stored(pool', q);
        MacsSame(pool.mac, pool'.mac, q, pool.used[q]);
      }
    }
    assert t.lists.Keys == t'.lists.Keys;
    assert t.lists == t'.lists;
  }

  lemma RefreshInv(max: nat, pool: Pool, o: Peer, i: Slot)
    requires Inv(max, pool) && IsUsed(pool, o, i)
    ensures Inv(max, Refresh(pool, o, i))
  {
    hide Shared, NoDup, Without;
    var pool' := Refresh(pool, o, i);
    Facts(max, pool, o, i);
    SharedMove(max, pool.free[o], pool.used[o], i);
    SharedMembers(max, pool.free[o], pool.used[o], i);
    forall p: Peer ensures PeerOk(max, pool', p) {
      assert PeerOk(max, pool, p);
    }
    forall e: (Peer, Slot) ensures EntryOk(pool', e) {
      assert EntryOk(pool, e);
    }
    forall m: Mac ensures TreeOk(pool', m) {
      assert TreeOk(pool, m);
    }
  }

  lemma SharedMembers(max: nat, free: seq<Slot>, used: seq<Slot>, i: Slot)
    requires Shared(max, free, used) && i in used
    ensures forall j: Slot :: j in Without(used, i) <==> j in used && j != i
    ensures forall j: Slot :: j in Without(used, i) + [i] <==> j in used
  {
    WithoutMembers(used, i);
  }

  lemma RefreshView(max: nat, pool: Pool, o: Peer, i: Slot)
    requires Inv(max, pool) && IsUsed(pool, o, i) && (o, i) in pool.mac
    requires AllStored(pool) && AllStored(Refresh(pool, o, i))
    ensures View(max, Refresh(pool, o, i)) ==
            With(View(max, pool), o, Without(View(max, pool).lists[o], pool.mac[(o, i)]) + [pool.mac[(o, i)]])
  {
    hide Inv, Shared, NoDup, Without;
    Facts(max, pool, o, i);
    MacsWithout(pool.mac, o, pool.used[o], i);
    MacsSnoc(pool.mac, o, Without(pool.used[o], i), i);
    assert Stored(pool, o) && Stored(Refresh(pool, o, i), o);
    ViewWith(max, pool, Refresh(pool, o, i), o, Without(View(max, pool).lists[o], pool.mac[(o, i)]) + [pool.mac[(o, i)]]);
  }

  lemma ReleaseInv(max: nat, pool: Pool, q: Peer, i: Slot)
    requires Inv(max, pool) && IsUsed(pool, q, i) && q in pool.free && (q, i) in pool.mac
    ensures Inv(max, Release(pool, q, i))
  {
    hide Shared, NoDup, Without;
    var pool' := Release(pool, q, i);
    Facts(max, pool, q, i);
    SharedMove(max, pool.free[q], pool.used[q], i);
    SharedMembers(max, pool.free[q], pool.used[q], i);
    forall p: Peer ensures PeerOk(max, pool', p) {
      assert PeerOk(max, pool, p);
    }
    forall e: (Peer, Slot) ensures EntryOk(pool', e) {
      assert EntryOk(pool, e);
    }
    forall m: Mac ensures TreeOk(pool', m) {
      assert TreeOk(pool, m);
    }
  }

  lemma ReleaseView(max: nat, pool: Pool, q: Peer, i: Slot)
    requires Inv(max, pool) && IsUsed(pool, q, i) && q in pool.free && (q, i) in pool.mac
    requires AllStored(pool) && AllStored(Release(pool, q, i))
    ensures View(max, Release(pool, q, i)) == With(View(max, pool), q, Without(View(max, pool).lists[q], pool.mac[(q, i)]))
  {
    hide Inv, Shared, NoDup, Without;
    Facts(max, pool, q, i);
    MacsWithout(pool.mac, q, pool.used[q], i);
    assert Stored(pool, q) && Stored(Release(pool, q, i), q);
    ViewWith(max, pool, Release(pool, q, i), q, Without(View(max, pool).lists[q], pool.mac[(q, i)]));
  }

  lemma TakeFreeInv(max: nat, pool: Pool, o: Peer, m: Mac)
    requires Inv(max, pool) && o in pool.used && o in pool.free && pool.free[o] != [] && m !in pool.tree
    ensures Inv(max, TakeFree(pool, o, m))
  {
    hide NoDup;
    var pool' := TakeFree(pool, o, m);
    assert PeerOk(max, pool, o);
    SharedTake(max, pool.free[o], pool.used[o]);
    var i := pool.free[o][0];
    assert i in pool.free[o] && i !in pool.used[o];
    forall p: Peer ensures PeerOk(max, pool', p) {
      assert PeerOk(max, pool, p);
    }
    forall e: (Peer, Slot) ensures EntryOk(pool', e) {
      assert EntryOk(pool, e);
    }
    forall n: Mac ensures TreeOk(pool', n) {
      assert TreeOk(pool, n);
    }
  }

  lemma TakeFreeView(max: nat, pool: Pool, o: Peer, m: Mac)
    requires Inv(max, pool) && o in pool.used && o in pool.free && pool.free[o] != []
    requires AllStored(pool) && AllStored(TakeFree(pool, o, m))
    ensures View(max, TakeFree(pool, o, m)) == With(View(max, pool), o, View(max, pool).lists[o] + [m])
  {
    hide NoDup;
    var pool' := TakeFree(pool, o, m);
    assert PeerOk(max, pool, o);
    var i := pool.free[o][0];
    assert i in pool.free[o] && i !in pool.used[o];
    assert Stored(pool, o) && Stored(pool', o);
    MacsSame(pool.mac, pool'.mac, o, pool.used[o]);
    MacsSnoc(pool'.mac, o, pool.used[o], i);
    ViewWith(max, pool, pool', o, View(max, pool).lists[o] + [m]);
  }

  lemma ReuseInv(max: nat, pool: Pool, o: Peer, m: Mac)
    requires Inv(max, pool) && o in pool.used && pool.used[o] != [] && (o, pool.used[o][0]) in pool.mac && m !in pool.tree
    ensures Inv(max, Reuse(pool, o, m))
  {
    hide NoDup;
    var pool' := Reuse(pool, o, m);
    var i := pool.used[o][0];
    assert PeerOk(max, pool, o);
    SharedReuse(max, pool.free[o], pool.used[o]);
    assert pool.used[o] == [i] + pool.used[o][1..];
    assert EntryOk(pool, (o, i));
    forall p: Peer ensures PeerOk(max, pool', p) {
      assert PeerOk(max, pool, p);
    }
    forall e: (Peer, Slot) ensures EntryOk(pool', e) {
      assert EntryOk(pool, e);
    }
    forall n: Mac ensures TreeOk(pool', n) {
      assert TreeOk(pool, n);
    }
  }

  lemma ReuseView(max: nat, pool: Pool, o: Peer, m: Mac)
    requires Inv(max, pool) && o in pool.used && pool.used[o] != [] && (o, pool.used[o][0]) in pool.mac
    requires AllStored(pool) && AllStored(Reuse(pool, o, m))
    ensures View(max, Reuse(pool, o, m)) == With(View(max, pool), o, View(max, pool).lists[o][1..] + [m])
  {
    var pool' := Reuse(pool, o, m);
    var i := pool.used[o][0];
    assert PeerOk(max, pool, o);
    TailMembers(pool.used[o], i);
    assert Stored(pool, o) && Stored(pool', o);
    MacsSame(pool.mac, pool'.mac, o, pool.used[o][1..]);
    MacsSnoc(pool'.mac, o, pool.used[o][1..], i);
    ViewWith(max, pool, pool', o, View(max, pool).lists[o][1..] + [m]);
  }

  // ---------- the entries represent a table ----------

  /** The tree finds exactly what the table holds. */
  lemma TreeIsTable(max: nat, pool: Pool, p: Peer, m: Mac)
    requires Inv(max, pool) && AllStored(pool)
    ensures T.Holds(View(max, pool), p, m) <==> m in pool.tree && pool.tree[m].0 == p
  {
    assert TreeOk(pool, m);
    if p in pool.used {
      assert Stored(pool, p);
      var slots := pool.used[p];
      var list := MacsOf(pool.mac, p, slots);
      if m in list {
        var k :| 0 <= k < |list| && list[k] == m;
        assert EntryOk(pool, (p, slots[k]));
      }
      if m in pool.tree && pool.tree[m].0 == p {
        var k :| 0 <= k < |slots| && slots[k] == pool.tree[m].1;
        assert list[k] == m;
      }
    }
  }

  lemma {:induction false} MacsNoDup(max: nat, pool: Pool, p: Peer, slots: seq<Slot>)
    requires Inv(max, pool) && p in pool.used && NoDup(slots) && forall k :: 0 <= k < |slots| ==> slots[k] in pool.used[p]
    requires forall k :: 0 <= k < |slots| ==> (p, slots[k]) in pool.mac
    ensures NoDup(MacsOf(pool.mac, p, slots))
  {
    if slots != [] {
      MacsNoDup(max, pool, p, slots[1..]);
      var list := MacsOf(pool.mac, p, slots);
      assert list[1..] == MacsOf(pool.mac, p, slots[1..]);
      forall k | 1 <= k < |slots| ensures list[k] != list[0] {
        assert EntryOk(pool, (p, slots[k])) && EntryOk(pool, (p, slots[0]));
        assert slots[k] == slots[1..][k - 1];
      }
    }
  }

  lemma ViewInv(max: nat, pool: Pool)
    requires Inv(max, pool) && AllStored(pool)
    ensures T.Inv(View(max, pool))
  {
    var t := View(max, pool);
    forall p: Peer ensures T.ListOk(t, p) {
      if p in pool.used {
        assert PeerOk(max, pool, p) && Stored(pool, p);
        MacsNoDup(max, pool, p, pool.used[p]);
      }
    }
    forall m: Mac ensures T.Single(t, m) {
      forall p: Peer, q: Peer | T.Holds(t, p, m) && T.Holds(t, q, m) ensures p == q {
        TreeIsTable(max, pool, p, m);
        TreeIsTable(max, pool, q, m);
      }
    }
  }

  /** An address that nobody holds is in no list. */
  lemma Unclaimed(max: nat, pool: Pool, m: Mac)
    requires Inv(max, pool) && AllStored(pool) && m !in pool.tree
    ensures var t := View(max, pool); forall p: Peer :: p in t.lists ==> Without(t.lists[p], m) == t.lists[p]
  {
    var t := View(max, pool);
    forall p: Peer | p in t.lists ensures Without(t.lists[p], m) == t.lists[p] {
      TreeIsTable(max, pool, p, m);
      WithoutAbsent(t.lists[p], m);
    }
  }

  lemma ClaimedElsewhere(max: nat, pool: Pool, m: Mac)
    requires Inv(max, pool) && AllStored(pool) && m in pool.tree
    ensures var t := View(max, pool); forall p: Peer :: p in t.lists && p != pool.tree[m].0 ==> Without(t.lists[p], m) == t.lists[p]
  {
    var t := View(max, pool);
    forall p: Peer | p in t.lists && p != pool.tree[m].0 ensures Without(t.lists[p], m) == t.lists[p] {
      TreeIsTable(max, pool, p, m);
      WithoutAbsent(t.lists[p], m);
    }
  }

  /** Claiming an address in an order that suits the lists. */
  lemma Claims(t: T.Table, t1: T.Table, o: Peer, m: Mac, list: seq<Mac>)
    requires T.Inv(t) && o in t.lists && t1.lists.Keys == t.lists.Keys && t1.max == t.max
    requires forall p: Peer :: p in t.lists && p != o ==> t1.lists[p] == Without(t.lists[p], m)
    requires list == T.Claimed(t.max, t.lists[o], m)
    ensures With(t1, o, list) == T.AddMac(t, o, m)
  {
    hide Without, T.Claimed;
    var r, s := With(t1, o, list), T.AddMac(t, o, m);
    assert r.lists.Keys == s.lists.Keys;
    assert r.lists == s.lists;
  }

  lemma PeerFacts(max: nat, pool: Pool, o: Peer)
    requires Inv(max, pool) && o in pool.used
    ensures o in pool.free && max > 0 && Stored(pool, o)
    ensures |pool.free[o]| + |pool.used[o]| == max
    ensures forall k :: 0 <= k < |pool.used[o]| ==> (o, pool.used[o][k]) in pool.mac
  {
    InvStored(max, pool, o);
    assert PeerOk(max, pool, o);
  }

  lemma EntryFacts(max: nat, pool: Pool, m: Mac)
    requires Inv(max, pool) && m in pool.tree
    ensures var e := pool.tree[m]; IsUsed(pool, e.0, e.1) && e.0 in pool.free && e in pool.mac && pool.mac[e] == m
  {
    assert TreeOk(pool, m);
    assert PeerOk(max, pool, pool.tree[m].0);
  }

  lemma ViewKeys(max: nat, pool: Pool)
    requires AllStored(pool)
    ensures View(max, pool).lists.Keys == pool.used.Keys && View(max, pool).max == max
  {
  }

  /** A peer that already holds the address has room for it. */
  lemma RefreshClaims(t: T.Table, o: Peer, m: Mac)
    requires T.Inv(t) && T.Holds(t, o, m)
    ensures T.Claimed(t.max, t.lists[o], m) == Without(t.lists[o], m) + [m]
  {
    assert T.ListOk(t, o);
    WithoutSize(t.lists[o], m);
  }

  /** The addresses of the first `k` used entries of a peer. */
  ghost function MacSet(pool: Pool, o: Peer, k: nat): set<Mac>
    requires o in pool.used && k <= |pool.used[o]|
    requires forall j :: 0 <= j < |pool.used[o]| ==> (o, pool.used[o][j]) in pool.mac
  {
    set j | 0 <= j < k :: pool.mac[(o, pool.used[o][j])]
  }

  function NewPeer(max: nat, pool: Pool, o: Peer): Pool {
    pool.(free := pool.free[o := seq(max, k => k)], used := pool.used[o := []])
  }

  ghost function NoPeer(pool: Pool, o: Peer): Pool
    requires o in pool.used && Stored(pool, o)
  {
    pool.(free := pool.free - {o}, used := pool.used - {o}, tree := pool.tree - MacSet(pool, o, |pool.used[o]|))
  }

  lemma {:induction false} CountingNoDup(slots: seq<Slot>, from: nat)
    requires forall k :: 0 <= k < |slots| ==> slots[k] == from + k
    ensures NoDup(slots)
  {
    if slots != [] {
      CountingNoDup(slots[1..], from + 1);
    }
  }

  lemma NewPeerInv(max: nat, pool: Pool, o: Peer)
    requires Inv(max, pool) && AllStored(pool) && o !in pool.used
    ensures Inv(max, NewPeer(max, pool, o)) && AllStored(NewPeer(max, pool, o))
    ensures View(max, NewPeer(max, pool, o)) == With(View(max, pool), o, [])
  {
    var pool' := NewPeer(max, pool, o);
    CountingNoDup(pool'.free[o], 0);
    forall p: Peer ensures PeerOk(max, pool', p) {
      assert PeerOk(max, pool, p);
    }
    forall e: (Peer, Slot) ensures EntryOk(pool', e) {
      assert EntryOk(pool, e);
    }
    forall m: Mac ensures TreeOk(pool', m) {
      assert TreeOk(pool, m);
    }
    InvAllStored(max, pool');
    assert View(max, pool').lists == With(View(max, pool), o, []).lists;
  }

  lemma InMacSet(max: nat, pool: Pool, o: Peer, m: Mac)
    requires Inv(max, pool) && o in pool.used && Stored(pool, o)
    ensures m in pool.tree && pool.tree[m].0 == o ==> m in MacSet(pool, o, |pool.used[o]|)
  {
    assert TreeOk(pool, m);
    if m in pool.tree && pool.tree[m].0 == o {
      var j :| 0 <= j < |pool.used[o]| && pool.used[o][j] == pool.tree[m].1;
      assert pool.mac[(o, pool.used[o][j])] == m;
    }
  }

  lemma NoPeerInv(max: nat, pool: Pool, o: Peer)
    requires Inv(max, pool) && AllStored(pool) && o in pool.used && Stored(pool, o)
    ensures Inv(max, NoPeer(pool, o)) && AllStored(NoPeer(pool, o))
    ensures View(max, NoPeer(pool, o)) == View(max, pool).(lists := View(max, pool).lists - {o})
  {
    var pool' := NoPeer(pool, o);
    var slots := pool.used[o];
    forall p: Peer ensures PeerOk(max, pool', p) {
      assert PeerOk(max, pool, p);
    }
    forall e: (Peer, Slot) ensures EntryOk(pool', e) {
      assert EntryOk(pool, e);
      if e.0 in pool'.used && e.1 in pool'.used[e.0] {
        forall j | 0 <= j < |slots| ensures pool.mac[(o, slots[j])] != pool.mac[e] {
          assert EntryOk(pool, (o, slots[j]));
        }
      }
    }
    forall m: Mac ensures TreeOk(pool', m) {
      assert TreeOk(pool, m);
      InMacSet(max, pool, o, m);
    }
    InvAllStored(max, pool');
    assert View(max, pool').lists == View(max, pool).lists - {o};
  }
}
