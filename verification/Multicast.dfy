/**
 * The index from the 23 bits of a group address that its Ethernet address carries to the group entries of
 * all peers. The entries with the same 23 bits, the signature, are linked in a list; one of them is the
 * master, and only masters are in the tree.
 */
module Multicast {
  import opened Lists

  type Peer = nat

  type Group = nat

  type Sig = nat

  /** A group entry in use: a peer is in a group at most once. */
  type Entry = (Peer, Group)

  const SIGS := 0x80_0000

  function SigOf(g: Group): Sig {
    g % SIGS
  }

  /** `lists` are the linked lists of entries, `at` says which one an entry is in. */
  datatype Index = Index(lists: map<nat, seq<Entry>>, at: map<Entry, nat>, master: set<Entry>, tree: map<Sig, Entry>, next: nat)

  function Empty(): Index {
    Index(map[], map[], {}, map[], 0)
  }

  // ---------- linked lists ----------

  function InsertAfter(list: seq<Entry>, ref: Entry, e: Entry): seq<Entry> {
    if list == [] then []
    else if list[0] == ref then [ref, e] + list[1..]
    else [list[0]] + InsertAfter(list[1..], ref, e)
  }

  /** The entry after `e`, or the one before it if `e` is the last. */
  function NextOrPrev(list: seq<Entry>, e: Entry): (r: Entry)
    requires e in list && |list| > 1
    ensures r in list
  {
    if list[0] == e then list[1]
    else if list[1] == e && |list| == 2 then list[0]
    else if list[1] == e then list[2]
    else NextOrPrev(list[1..], e)
  }

  lemma {:induction false} InsertMembers(list: seq<Entry>, ref: Entry, e: Entry)
    requires NoDup(list) && ref in list && e !in list
    ensures NoDup(InsertAfter(list, ref, e))
    ensures forall x: Entry :: x in InsertAfter(list, ref, e) <==> x in list || x == e
  {
    var r := InsertAfter(list, ref, e);
    if list[0] == ref {
      assert r[1..] == [e] + list[1..] && r[1..][1..] == list[1..];
      assert list == [ref] + list[1..];
    } else {
      InsertMembers(list[1..], ref, e);
      assert r[1..] == InsertAfter(list[1..], ref, e);
      assert list == [list[0]] + list[1..];
    }
  }

  lemma {:induction false} NextIsOther(list: seq<Entry>, e: Entry)
    requires NoDup(list) && e in list && |list| > 1
    ensures NextOrPrev(list, e) != e
  {
    assert list == [list[0]] + list[1..];
    if list[0] == e {
      assert list[1] in list[1..];
    } else if list[1] == e && |list| > 2 {
      assert list[1..] == [list[1]] + list[1..][1..];
      assert list[2] in list[1..][1..];
    } else if list[1] != e {
      NextIsOther(list[1..], e);
    }
  }

  // ---------- the two operations ----------

  function Add(ix: Index, e: Entry): Index
    requires Sound(ix, SigOf(e.1))
  {
    var sig := SigOf(e.1);
    if sig in ix.tree then
      var master := ix.tree[sig];
      var l := ix.at[master];
      ix.(lists := ix.lists[l := InsertAfter(ix.lists[l], master, e)], at := ix.at[e := l], master := ix.master - {e})
    else
      Index(ix.lists[ix.next := [e]], ix.at[e := ix.next], ix.master + {e}, ix.tree[sig := e], ix.next + 1)
  }

  function Remove(ix: Index, e: Entry): Index
    requires e in ix.at && ix.at[e] in ix.lists && e in ix.lists[ix.at[e]]
  {
    var l := ix.at[e];
    var sig := SigOf(e.1);
    var rest := Without(ix.lists[l], e);
    var lists := if |ix.lists[l]| == 1 then ix.lists - {l} else ix.lists[l := rest];
    if e in ix.master && |ix.lists[l]| > 1 then
      var m := NextOrPrev(ix.lists[l], e);
      Index(lists, ix.at - {e}, ix.master - {e} + {m}, ix.tree[sig := m], ix.next)
    else
      Index(lists, ix.at - {e}, ix.master - {e}, if e in ix.master then ix.tree - {sig} else ix.tree, ix.next)
  }

  // ---------- the invariant ----------

  /** What a lookup finds can be followed to its list. */
  predicate Sound(ix: Index, sig: Sig) {
    sig in ix.tree ==> ix.tree[sig] in ix.at && ix.at[ix.tree[sig]] in ix.lists
  }

  /** An entry is in its list, and its signature's master is in that list too; only the entry in the tree is a master. */
  predicate EntryOk(ix: Index, e: Entry) {
    && (e in ix.at ==>
          && ix.at[e] in ix.lists && e in ix.lists[ix.at[e]]
          && SigOf(e.1) in ix.tree
          && ix.tree[SigOf(e.1)] in ix.at && ix.at[ix.tree[SigOf(e.1)]] == ix.at[e]
          && (e in ix.master <==> ix.tree[SigOf(e.1)] == e))
    && (e in ix.master ==> e in ix.at)
  }

  /** Which entries are in a list. */
  predicate InList(ix: Index, l: nat, e: Entry) {
    l in ix.lists && e in ix.lists[l]
  }

  ghost predicate ListOk(ix: Index, l: nat) {
    l in ix.lists ==>
      && l < ix.next && NoDup(ix.lists[l]) && ix.lists[l] != []
      && (forall e: Entry :: InList(ix, l, e) ==> e in ix.at && ix.at[e] == l)
      && (forall e: Entry, f: Entry :: InList(ix, l, e) && InList(ix, l, f) ==> SigOf(e.1) == SigOf(f.1))
  }

  predicate TreeOk(ix: Index, s: Sig) {
    s in ix.tree ==> ix.tree[s] in ix.at && SigOf(ix.tree[s].1) == s
  }

  ghost predicate Inv(ix: Index) {
    && (forall e: Entry :: EntryOk(ix, e))
    && (forall l: nat :: ListOk(ix, l))
    && (forall s: Sig :: TreeOk(ix, s))
  }

  lemma InvSound(ix: Index, s: Sig)
    requires Inv(ix)
    ensures Sound(ix, s)
  {
    assert TreeOk(ix, s);
    if s in ix.tree {
      assert EntryOk(ix, ix.tree[s]);
    }
  }

  lemma AddInv(ix: Index, e: Entry)
    requires Inv(ix) && e !in ix.at && Sound(ix, SigOf(e.1))
    ensures Inv(Add(ix, e))
  {
    hide SigOf, NoDup, InsertAfter;
    var ix' := Add(ix, e);
    var sig := SigOf(e.1);
    assert TreeOk(ix, sig) && EntryOk(ix, e);
    if sig in ix.tree {
      var m := ix.tree[sig];
      var l := ix.at[m];
      assert EntryOk(ix, m) && ListOk(ix, l);
      assert InList(ix, l, m) && !InList(ix, l, e);
      InsertMembers(ix.lists[l], m, e);
      forall x: Entry ensures InList(ix', l, x) <==> InList(ix, l, x) || x == e {
      }
      forall k: nat ensures ListOk(ix', k) {
        assert ListOk(ix, k);
        InsertedList(ix, ix', l, k, e);
      }
    } else {
      NoDupOne(e);
      forall k: nat ensures ListOk(ix', k) {
        assert ListOk(ix, k);
        StartedList(ix, ix', k, e);
      }
    }
    forall x: Entry ensures EntryOk(ix', x) {
      assert EntryOk(ix, x);
      assert ListOk(ix, ix.next);
    }
    forall s: Sig ensures TreeOk(ix', s) {
      assert TreeOk(ix, s);
    }
  }

  lemma NoDupOne(e: Entry)
    ensures NoDup([e])
  {
    assert [e][1..] == [];
  }

  lemma InsertedList(ix: Index, ix': Index, l: nat, k: nat, e: Entry)
    requires ListOk(ix, k) && ListOk(ix, l) && l in ix.lists && e !in ix.at
    requires ix'.next == ix.next && ix'.at == ix.at[e := l] && ix'.lists.Keys == ix.lists.Keys
    requires NoDup(ix'.lists[l]) && ix'.lists[l] != []
    requires forall j: nat :: j in ix.lists && j != l ==> ix'.lists[j] == ix.lists[j]
    requires forall x: Entry :: InList(ix', l, x) <==> InList(ix, l, x) || x == e
    requires exists m: Entry :: InList(ix, l, m) && SigOf(m.1) == SigOf(e.1)
    ensures ListOk(ix', k)
  {
    if k in ix.lists && k != l {
      forall x: Entry ensures InList(ix', k, x) <==> InList(ix, k, x) {
      }
    }
  }

  lemma StartedList(ix: Index, ix': Index, k: nat, e: Entry)
    requires ListOk(ix, k) && e !in ix.at && NoDup([e])
    requires ix'.next == ix.next + 1 && ix'.at == ix.at[e := ix.next] && ix'.lists == ix.lists[ix.next := [e]]
    ensures ListOk(ix', k)
  {
    if k in ix.lists && k != ix.next {
      forall x: Entry ensures InList(ix', k, x) <==> InList(ix, k, x) {
      }
    }
  }

  lemma RemovedList(ix: Index, ix': Index, l: nat, k: nat, e: Entry)
    requires ListOk(ix, k) && ListOk(ix, l) && l in ix.lists && e in ix.at && ix.at[e] == l
    requires ix'.next == ix.next && ix'.at == ix.at - {e}
    requires ix'.lists == if |ix.lists[l]| == 1 then ix.lists - {l} else ix.lists[l := Without(ix.lists[l], e)]
    ensures ListOk(ix', k)
  {
    WithoutMembers(ix.lists[l], e);
    forall x: Entry ensures InList(ix', k, x) ==> InList(ix, k, x) && x != e {
      if InList(ix', k, x) && k != l {
        assert InList(ix, k, x);
      }
    }
    if k == l && |ix.lists[l]| > 1 && e in ix.lists[l] {
      WithoutSize(ix.lists[l], e);
    }
  }

  /** With a single entry in the list nothing else has its signature; otherwise the rest stays together. */
  lemma RemoveInv(ix: Index, e: Entry)
    requires Inv(ix) && e in ix.at && ix.at[e] in ix.lists && e in ix.lists[ix.at[e]]
    ensures Inv(Remove(ix, e))
  {
    hide SigOf, NoDup, Without, NextOrPrev;
    var ix' := Remove(ix, e);
    var l := ix.at[e];
    assert EntryOk(ix, e) && ListOk(ix, l);
    forall k: nat ensures ListOk(ix', k) {
      assert ListOk(ix, k);
      RemovedList(ix, ix', l, k, e);
    }
    if |ix.lists[l]| > 1 {
      NextIsOther(ix.lists[l], e);
      assert InList(ix, l, e) && InList(ix, l, NextOrPrev(ix.lists[l], e));
    }
    WithoutMembers(ix.lists[l], e);
    forall x: Entry ensures EntryOk(ix', x) {
      RemovedEntry(ix, e, x);
    }
    forall s: Sig ensures TreeOk(ix', s) {
      assert TreeOk(ix, s);
    }
  }

  lemma RemovedEntry(ix: Index, e: Entry, x: Entry)
    requires Inv(ix) && e in ix.at && ix.at[e] in ix.lists && e in ix.lists[ix.at[e]]
    ensures EntryOk(Remove(ix, e), x)
  {
    hide SigOf, NoDup, Without, NextOrPrev;
    var l := ix.at[e];
    assert EntryOk(ix, e) && EntryOk(ix, x) && ListOk(ix, l);
    WithoutMembers(ix.lists[l], e);
    SameList(ix, e, x);
    if x in ix.at {
      assert EntryOk(ix, ix.tree[SigOf(x.1)]);
    }
    if |ix.lists[l]| > 1 {
      NextIsOther(ix.lists[l], e);
      assert InList(ix, l, NextOrPrev(ix.lists[l], e));
    } else {
      assert ix.lists[l] == [e];
    }
  }

  /** Two entries have the same signature exactly when they are in the same list. */
  lemma SameList(ix: Index, e: Entry, f: Entry)
    requires Inv(ix) && e in ix.at
    ensures f in ix.at ==> (SigOf(e.1) == SigOf(f.1) <==> ix.at[e] == ix.at[f])
  {
    hide SigOf, NoDup;
    assert EntryOk(ix, e) && EntryOk(ix, f) && ListOk(ix, ix.at[e]);
    if f in ix.at && ix.at[e] == ix.at[f] {
      assert InList(ix, ix.at[e], e) && InList(ix, ix.at[e], f);
    }
  }

  // ---------- runs ----------

  datatype Op = AddOp(e: Entry) | RemoveOp(e: Entry)

  predicate Enabled(ix: Index, op: Op) {
    if op.AddOp? then op.e !in ix.at else op.e in ix.at
  }

  ghost function Apply(ix: Index, op: Op): (r: Index)
    requires Inv(ix) && Enabled(ix, op)
    ensures Inv(r)
    ensures r.at.Keys == if op.AddOp? then ix.at.Keys + {op.e} else ix.at.Keys - {op.e}
  {
    assert EntryOk(ix, op.e);
    InvSound(ix, SigOf(op.e.1));
    match op
    case AddOp(e) => AddInv(ix, e); Add(ix, e)
    case RemoveOp(e) => RemoveInv(ix, e); Remove(ix, e)
  }

  ghost predicate Possible(ix: Index, ops: seq<Op>)
    requires Inv(ix)
    decreases |ops|
  {
    ops == [] || (Enabled(ix, ops[0]) && Possible(Apply(ix, ops[0]), ops[1..]))
  }

  ghost function Run(ix: Index, ops: seq<Op>): (r: Index)
    requires Inv(ix) && Possible(ix, ops)
    ensures Inv(r)
    decreases |ops|
  {
    if ops == [] then ix else Run(Apply(ix, ops[0]), ops[1..])
  }

  /** The entries that are there, whatever the index looks like. */
  function Members(ms: set<Entry>, ops: seq<Op>): set<Entry>
    decreases |ops|
  {
    if ops == [] then ms
    else Members(if ops[0].AddOp? then ms + {ops[0].e} else ms - {ops[0].e}, ops[1..])
  }

  lemma {:induction false} RunMembers(ix: Index, ops: seq<Op>)
    requires Inv(ix) && Possible(ix, ops)
    ensures Run(ix, ops).at.Keys == Members(ix.at.Keys, ops)
    decreases |ops|
  {
    hide Inv, Enabled;
    if ops != [] {
      RunMembers(Apply(ix, ops[0]), ops[1..]);
    }
  }

  lemma EmptyInv()
    ensures Inv(Empty())
  {
  }

  /** The list of the entries with a signature, as a lookup finds it. */
  function Found(ix: Index, s: Sig): seq<Entry>
    requires Sound(ix, s)
  {
    if s in ix.tree then ix.lists[ix.at[ix.tree[s]]] else []
  }

  /** A lookup finds the entries with the signature, each once, and nothing else; one of them is the master. */
  lemma FoundExactly(ix: Index, s: Sig)
    requires Inv(ix) && Sound(ix, s)
    ensures NoDup(Found(ix, s))
    ensures forall e: Entry :: e in Found(ix, s) <==> e in ix.at && SigOf(e.1) == s
    ensures s in ix.tree <==> Found(ix, s) != []
    ensures forall e: Entry :: e in Found(ix, s) ==> (e in ix.master <==> s in ix.tree && ix.tree[s] == e)
  {
    hide SigOf, NoDup;
    NoDupNone();
    assert TreeOk(ix, s);
    if s in ix.tree {
      var m := ix.tree[s];
      assert EntryOk(ix, m) && ListOk(ix, ix.at[m]);
      forall e: Entry ensures e in Found(ix, s) <==> e in ix.at && SigOf(e.1) == s {
        assert EntryOk(ix, e);
        SameList(ix, m, e);
        assert e in Found(ix, s) ==> InList(ix, ix.at[m], e);
      }
    }
    forall e: Entry ensures e in ix.at ==> EntryOk(ix, e) {
      assert EntryOk(ix, e);
    }
  }

  lemma NoDupNone()
    ensures NoDup<Entry>([])
  {
  }

  /**
   * After any joins, evictions, expiries and departures: the index holds, for every signature, one list of
   * exactly the entries that are there with that signature, and one of them is the only master.
   */
  lemma IndexAgrees(ops: seq<Op>, s: Sig)
    requires (EmptyInv(); Possible(Empty(), ops))
    ensures (EmptyInv();
             var ix := Run(Empty(), ops);
             InvSound(ix, s);
             && NoDup(Found(ix, s))
             && (forall e: Entry :: e in Found(ix, s) <==> e in Members({}, ops) && SigOf(e.1) == s)
             && (s in ix.tree <==> Found(ix, s) != [])
             && (forall e: Entry :: e in Found(ix, s) ==> (e in ix.master <==> s in ix.tree && ix.tree[s] == e)))
  {
    hide Inv, Possible, Run, Members, NoDup, Found, Sound, SigOf;
    EmptyInv();
    var ix := Run(Empty(), ops);
    InvSound(ix, s);
    RunMembers(Empty(), ops);
    assert Empty().at.Keys == {};
    FoundExactly(ix, s);
  }
}
