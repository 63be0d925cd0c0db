/** The stored address table, changed in place. */
module MacEntriesObject {
  import opened Options
  import opened Lists
  import T = MacTable
  import opened MacEntries

  class Macs {
    const max: nat
    var free: map<Peer, seq<Slot>>
    var used: map<Peer, seq<Slot>>
    var mac: map<(Peer, Slot), Mac>
    var tree: map<Mac, (Peer, Slot)>

    ghost function Pool(): Pool
      reads this
    {
      MacEntries.Pool(free, used, mac, tree)
    }

    ghost predicate Valid()
      reads this
    {
      Inv(max, Pool()) && AllStored(Pool())
    }

    /** The table that the entries represent. */
    ghost function Table(): T.Table
      requires Valid()
      reads this
    {
      View(max, Pool())
    }

    constructor (max: nat)
      requires max > 0
      ensures Valid() && this.max == max && Table() == T.Table(max, map[])
    {
      this.max := max;
      free, used, mac, tree := map[], map[], map[], map[];
    }

    /** The peer that an address is known to be at. */
    method Lookup(m: Mac) returns (r: Option<Peer>)
      requires Valid()
      ensures forall p: Peer :: r == Some(p) <==> T.Holds(Table(), p, m)
    {
      hide Inv;
      forall p: Peer ensures T.Holds(Table(), p, m) <==> m in tree && tree[m].0 == p {
        TreeIsTable(max, Pool(), p, m);
      }
      if m in tree {
        r := Some(tree[m].0);
      } else {
        r := None;
      }
    }

    /** Moves an entry to the end of its peer's used list. */
    method MoveToEnd(o: Peer, i: Slot)
      requires Valid() && IsUsed(Pool(), o, i)
      modifies this
      ensures Valid() && Pool() == Refresh(old(Pool()), o, i)
    {
      RefreshInv(max, Pool(), o, i);
      InvAllStored(max, Refresh(Pool(), o, i));
      used := used[o := Without(used[o], i)];
      used := used[o := used[o] + [i]];
      assert Pool() == Refresh(old(Pool()), o, i);
    }

    /** Takes an entry out of the tree and returns it to its peer's free list. */
    method GiveBack(q: Peer, i: Slot)
      requires Valid() && IsUsed(Pool(), q, i) && q in free && (q, i) in mac
      modifies this
      ensures Valid() && Pool() == Release(old(Pool()), q, i)
    {
      ReleaseInv(max, Pool(), q, i);
      InvAllStored(max, Release(Pool(), q, i));
      tree := tree - {mac[(q, i)]};
      used := used[q := Without(used[q], i)];
      free := free[q := free[q] + [i]];
    }

    /** Acquires an entry for an address that is nowhere: a free one, or else the oldest. */
    method Acquire(o: Peer, m: Mac)
      requires Valid() && o in used && m !in tree
      modifies this
      ensures Valid() && T.Inv(old(Table()))
      ensures o in old(Table()).lists && Table() == With(old(Table()), o, T.Claimed(max, old(Table()).lists[o], m))
    {
      hide Inv, Shared, T.Inv, AllStored;
      ViewInv(max, Pool());
      Unclaimed(max, Pool(), m);
      PeerFacts(max, Pool(), o);
      if free[o] != [] {
        TakeFreeInv(max, Pool(), o, m);
        InvAllStored(max, TakeFree(Pool(), o, m));
        TakeFreeView(max, Pool(), o, m);
        var i := free[o][0];
        free := free[o := free[o][1..]];
        mac := mac[(o, i) := m];
        used := used[o := used[o] + [i]];
        tree := tree[m := (o, i)];
      } else {
        ReuseInv(max, Pool(), o, m);
        InvAllStored(max, Reuse(Pool(), o, m));
        ReuseView(max, Pool(), o, m);
        var i := used[o][0];
        tree := tree - {mac[(o, i)]};
        used := used[o := used[o][1..]];
        mac := mac[(o, i) := m];
        used := used[o := used[o] + [i]];
        tree := tree[m := (o, i)];
        assert used == old(used)[o := old(used)[o][1..] + [i]];
        assert Pool() == Reuse(old(Pool()), o, m);
      }
    }

    /** Registers an address with a peer: the entries change as the table does. */
    method AddMacToPeer(o: Peer, m: Mac)
      requires Valid() && o in used
      modifies this
      ensures Valid() && T.Inv(old(Table())) && Table() == T.AddMac(old(Table()), o, m)
    {
      hide Inv, T.Inv, AllStored, View, T.Claimed, Without;
      ghost var t := Table();
      ViewInv(max, Pool());
      ViewKeys(max, Pool());
      if m in tree {
        var (q, i) := tree[m];
        EntryFacts(max, Pool(), m);
        ClaimedElsewhere(max, Pool(), m);
        if q == o {
          RefreshInv(max, Pool(), o, i);
          InvAllStored(max, Refresh(Pool(), o, i));
          RefreshView(max, Pool(), o, i);
          TreeIsTable(max, Pool(), o, m);
          RefreshClaims(t, o, m);
          MoveToEnd(o, i);
          Claims(t, t, o, m, T.Claimed(max, t.lists[o], m));
          return;
        }
        ReleaseInv(max, Pool(), q, i);
        InvAllStored(max, Release(Pool(), q, i));
        ReleaseView(max, Pool(), q, i);
        GiveBack(q, i);
        assert Table() == With(t, q, Without(t.lists[q], m));
      } else {
        Unclaimed(max, Pool(), m);
      }
      ghost var t1 := Table();
      Acquire(o, m);
      Claims(t, t1, o, m, T.Claimed(max, t1.lists[o], m));
    }

    method PeerInit(o: Peer)
      requires Valid() && o !in used
      modifies this
      ensures Valid() && Table() == T.Step(old(Table()), T.PeerInit(o))
    {
      NewPeerInv(max, Pool(), o);
      var slots: seq<Slot> := [];
      for i := 0 to max
        invariant |slots| == i && forall k :: 0 <= k < i ==> slots[k] == k
        invariant unchanged(this)
      {
        slots := slots + [i];
      }
      assert slots == seq(max, k => k);
      free := free[o := slots];
      used := used[o := []];
    }

    /** Takes the peer's used entries out of the tree, one after the other, and forgets the peer. */
    method PeerFree(o: Peer)
      requires Valid() && o in used
      modifies this
      ensures Valid() && Table() == T.Step(old(Table()), T.PeerFree(o))
    {
      ghost var pool := Pool();
      PeerFacts(max, pool, o);
      NoPeerInv(max, pool, o);
      for k := 0 to |used[o]|
        invariant free == pool.free && used == pool.used && mac == pool.mac
        invariant tree == pool.tree - MacSet(pool, o, k)
      {
        tree := tree - {mac[(o, used[o][k])]};
      }
      free, used := free - {o}, used - {o};
    }
  }
}
