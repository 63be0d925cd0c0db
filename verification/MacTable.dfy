/**
 * Which peer is behind which Ethernet address. Each peer has a list of the addresses it was last seen
 * sending from, oldest first and of bounded length; seeing an address at one peer takes it from any other.
 */
module MacTable {
  import opened Options
  import opened Lists

  type Peer = nat

  type Mac = nat

  datatype Table = Table(max: nat, lists: map<Peer, seq<Mac>>)

  /** The list of the peer that `mac` has just been seen at: it becomes the newest, and the oldest makes room if need be. */
  function Claimed(max: nat, list: seq<Mac>, mac: Mac): seq<Mac>
    requires max > 0
  {
    var rest := Without(list, mac);
    (if |rest| == max then rest[1..] else rest) + [mac]
  }

  function AddMac(t: Table, o: Peer, mac: Mac): Table
    requires t.max > 0
  {
    t.(lists := map p | p in t.lists :: if p == o then Claimed(t.max, t.lists[p], mac) else Without(t.lists[p], mac))
  }

  datatype Event = Seen(peer: Peer, mac: Mac) | PeerInit(peer: Peer) | PeerFree(peer: Peer)

  predicate Enabled(t: Table, ev: Event) {
    if ev.PeerInit? then ev.peer !in t.lists else ev.peer in t.lists
  }

  function Step(t: Table, ev: Event): Table
    requires t.max > 0 && Enabled(t, ev)
  {
    match ev
    case Seen(p, mac) => AddMac(t, p, mac)
    case PeerInit(p) => t.(lists := t.lists[p := []])
    case PeerFree(p) => t.(lists := t.lists - {p})
  }

  /** The peer that a frame to `mac` is sent to. */
  predicate Holds(t: Table, p: Peer, mac: Mac) {
    p in t.lists && mac in t.lists[p]
  }

  // ---------- the invariant ----------

  predicate ListOk(t: Table, p: Peer) {
    p in t.lists ==> |t.lists[p]| <= t.max && NoDup(t.lists[p])
  }

  /** No address is at two peers. */
  ghost predicate Single(t: Table, mac: Mac) {
    forall p: Peer, q: Peer :: Holds(t, p, mac) && Holds(t, q, mac) ==> p == q
  }

  ghost predicate Inv(t: Table) {
    && t.max > 0
    && (forall p: Peer :: ListOk(t, p))
    && (forall mac: Mac :: Single(t, mac))
  }

  lemma ClaimedMembers(max: nat, list: seq<Mac>, mac: Mac)
    requires max > 0 && NoDup(list) && |list| <= max
    ensures var r := Claimed(max, list, mac);
            && NoDup(r) && |r| <= max && mac in r
            && (forall m: Mac :: m in r && m != mac ==> m in list)
            && (forall m: Mac :: m in list && m != mac && m !in r ==> |Without(list, mac)| == max && m == Without(list, mac)[0])
  {
    WithoutMembers(list, mac);
    var rest := Without(list, mac);
    var kept := if |rest| == max then rest[1..] else rest;
    if |rest| == max {
      TailMembers(rest, mac);
      assert rest == [rest[0]] + rest[1..];
    }
    NoDupSnoc(kept, mac);
  }

  lemma StepInv(t: Table, ev: Event)
    requires Inv(t) && Enabled(t, ev)
    ensures Inv(Step(t, ev))
  {
    hide NoDup, Without, Claimed;
    var t' := Step(t, ev);
    forall p: Peer ensures ListOk(t', p) {
      assert ListOk(t, p);
      EmptyOk();
      if ev.Seen? && p in t.lists {
        ClaimedMembers(t.max, t.lists[p], ev.mac);
        WithoutMembers(t.lists[p], ev.mac);
      }
    }
    forall m: Mac ensures Single(t', m) {
      assert Single(t, m);
      forall p: Peer, q: Peer | Holds(t', p, m) && Holds(t', q, m) ensures p == q {
        HeldBefore(t, ev, p, m);
        HeldBefore(t, ev, q, m);
      }
    }
  }

  /** Nobody gets hold of an address without being seen with it, and nobody keeps one seen elsewhere. */
  lemma HeldBefore(t: Table, ev: Event, p: Peer, m: Mac)
    requires Inv(t) && Enabled(t, ev) && Holds(Step(t, ev), p, m)
    ensures if ev.Seen? && m == ev.mac then p == ev.peer else Holds(t, p, m)
  {
    assert ListOk(t, p);
    if ev.Seen? {
      ClaimedMembers(t.max, t.lists[p], ev.mac);
      WithoutMembers(t.lists[p], ev.mac);
    }
  }

  lemma EmptyOk()
    ensures NoDup<Mac>([])
  {
  }

  // ---------- what the table knows about the past ----------

  /** The peer that `mac` was last seen at, unless that peer has gone. */
  function LastSeen(h: seq<Event>, mac: Mac): Option<Peer> {
    if h == [] then None
    else
      var before, ev := LastSeen(h[..|h| - 1], mac), h[|h| - 1];
      if ev.Seen? && ev.mac == mac then Some(ev.peer)
      else if ev.PeerFree? && before == Some(ev.peer) then None
      else before
  }

  /** The other addresses seen at `p` since `mac` was last seen anywhere. */
  function Since(h: seq<Event>, p: Peer, mac: Mac): set<Mac> {
    if h == [] then {}
    else
      var before, ev := Since(h[..|h| - 1], p, mac), h[|h| - 1];
      if ev.Seen? && ev.mac == mac then {}
      else if ev.Seen? && ev.peer == p then before + {ev.mac}
      else before
  }

  lemma Snoc(h: seq<Event>, ev: Event)
    ensures (h + [ev])[..|h|] == h && (h + [ev])[|h|] == ev
  {
  }

  lemma LastSeenSnoc(h: seq<Event>, ev: Event, mac: Mac)
    ensures LastSeen(h + [ev], mac) ==
            if ev.Seen? && ev.mac == mac then Some(ev.peer)
            else if ev.PeerFree? && LastSeen(h, mac) == Some(ev.peer) then None
            else LastSeen(h, mac)
  {
    Snoc(h, ev);
  }

  lemma SinceSnoc(h: seq<Event>, ev: Event, p: Peer, mac: Mac)
    ensures Since(h + [ev], p, mac) ==
            if ev.Seen? && ev.mac == mac then {}
            else if ev.Seen? && ev.peer == p then Since(h, p, mac) + {ev.mac}
            else Since(h, p, mac)
  {
    Snoc(h, ev);
  }

  /** Whoever holds an address was the last to be seen with it. */
  ghost predicate HeldBySeen(t: Table, h: seq<Event>, mac: Mac) {
    forall p: Peer :: Holds(t, p, mac) ==> LastSeen(h, mac) == Some(p)
  }

  /** What comes after an address in a list has been seen since. */
  ghost predicate NewerSeen(t: Table, h: seq<Event>, p: Peer) {
    p in t.lists ==> forall a: Mac, b: Mac :: Above(t.lists[p], a, b) ==> b in Since(h, p, a)
  }

  /** An address that was not taken away is lost only after as many others as a list has room for. */
  predicate Kept(t: Table, h: seq<Event>, mac: Mac) {
    LastSeen(h, mac).Some? ==>
      var p := LastSeen(h, mac).value;
      p in t.lists && (mac in t.lists[p] || |Since(h, p, mac)| >= t.max)
  }

  ghost predicate Knows(t: Table, h: seq<Event>) {
    && (forall mac: Mac :: HeldBySeen(t, h, mac))
    && (forall p: Peer :: NewerSeen(t, h, p))
    && (forall mac: Mac :: Kept(t, h, mac))
  }

  lemma SeenHeld(t: Table, h: seq<Event>, ev: Event, mac: Mac)
    requires Inv(t) && ev.Seen? && Enabled(t, ev) && HeldBySeen(t, h, mac)
    ensures HeldBySeen(Step(t, ev), h + [ev], mac)
  {
    hide NoDup, Without, Claimed, LastSeen;
    LastSeenSnoc(h, ev, mac);
    forall p: Peer | Holds(Step(t, ev), p, mac) ensures LastSeen(h + [ev], mac) == Some(p) {
      HeldBefore(t, ev, p, mac);
    }
  }

  lemma ClaimedAbove(max: nat, list: seq<Mac>, mac: Mac, a: Mac, b: Mac)
    requires max > 0 && NoDup(list) && Above(Claimed(max, list, mac), a, b)
    ensures a != mac && (Above(list, a, b) || b == mac)
  {
    WithoutMembers(list, mac);
    var rest := Without(list, mac);
    var kept := if |rest| == max then rest[1..] else rest;
    if |rest| == max {
      TailMembers(rest, mac);
    }
    AboveSnoc(kept, mac, a, b);
    if Above(kept, a, b) {
      AboveMembers(kept, a, b);
      if |rest| == max {
        AboveTail(rest, a, b);
      }
      AboveWithout(list, mac, a, b);
    }
  }

  lemma SeenNewer(t: Table, h: seq<Event>, ev: Event, p: Peer)
    requires Inv(t) && ev.Seen? && Enabled(t, ev) && NewerSeen(t, h, p)
    ensures NewerSeen(Step(t, ev), h + [ev], p)
  {
    hide NoDup, Without, Claimed, Since, Above;
    var t' := Step(t, ev);
    if p in t.lists {
      assert ListOk(t, p);
      forall a: Mac, b: Mac | Above(t'.lists[p], a, b) ensures b in Since(h + [ev], p, a) {
        SinceSnoc(h, ev, p, a);
        if p == ev.peer {
          ClaimedAbove(t.max, t.lists[p], ev.mac, a, b);
        } else {
          AboveMembers(t'.lists[p], a, b);
          WithoutMembers(t.lists[p], ev.mac);
          AboveWithout(t.lists[p], ev.mac, a, b);
        }
      }
    }
  }

  /** The first of a list comes before all the others. */
  lemma FirstAbove(list: seq<Mac>, b: Mac)
    requires NoDup(list) && list != [] && b in list[1..]
    ensures Above(list, list[0], b)
  {
    assert list == [list[0]] + list[1..];
  }

  /** When the oldest address is dropped, a whole list of others has been seen since. */
  lemma DroppedAfter(t: Table, h: seq<Event>, ev: Event, mac: Mac)
    requires Inv(t) && ev.Seen? && Enabled(t, ev) && NewerSeen(t, h, ev.peer) && ev.mac != mac
    requires var rest := Without(t.lists[ev.peer], ev.mac); |rest| == t.max && rest[0] == mac
    ensures |Since(h + [ev], ev.peer, mac)| >= t.max
  {
    var p := ev.peer;
    var rest := Without(t.lists[p], ev.mac);
    assert ListOk(t, p);
    WithoutMembers(t.lists[p], ev.mac);
    forall b: Mac | b in rest[1..] ensures b in Since(h, p, mac) {
      FirstAbove(rest, b);
      AboveWithout(t.lists[p], ev.mac, mac, b);
    }
    SinceSnoc(h, ev, p, mac);
    TailMembers(rest, ev.mac);
    var others := set x | x in rest[1..];
    NoDupSize(rest[1..]);
    assert ev.mac !in others;
    SubsetSize(others + {ev.mac}, Since(h + [ev], p, mac));
  }

  lemma SeenKept(t: Table, h: seq<Event>, ev: Event, mac: Mac)
    requires Inv(t) && ev.Seen? && Enabled(t, ev) && NewerSeen(t, h, ev.peer) && Kept(t, h, mac)
    ensures Kept(Step(t, ev), h + [ev], mac)
  {
    hide NoDup, Without, Claimed, LastSeen, Since, Inv, NewerSeen;
    InvAt(t, ev.peer);
    LastSeenSnoc(h, ev, mac);
    if mac == ev.mac {
      ClaimedMembers(t.max, t.lists[ev.peer], mac);
    } else if LastSeen(h, mac).Some? {
      var p := LastSeen(h, mac).value;
      InvAt(t, p);
      SinceSnoc(h, ev, p, mac);
      SubsetSize(Since(h, p, mac), Since(h + [ev], p, mac));
      if mac in t.lists[p] {
        ClaimedMembers(t.max, t.lists[p], ev.mac);
        WithoutMembers(t.lists[p], ev.mac);
        if p == ev.peer && mac !in Claimed(t.max, t.lists[p], ev.mac) {
          DroppedAfter(t, h, ev, mac);
        }
      }
    }
  }

  lemma InvAt(t: Table, p: Peer)
    requires Inv(t)
    ensures t.max > 0
    ensures p in t.lists ==> |t.lists[p]| <= t.max && NoDup(t.lists[p])
  {
    assert ListOk(t, p);
  }

  lemma OtherKnows(t: Table, h: seq<Event>, ev: Event)
    requires Inv(t) && !ev.Seen? && Enabled(t, ev) && Knows(t, h)
    ensures Knows(Step(t, ev), h + [ev])
  {
    hide LastSeen, Since;
    var t' := Step(t, ev);
    forall mac: Mac ensures HeldBySeen(t', h + [ev], mac) && Kept(t', h + [ev], mac) {
      assert HeldBySeen(t, h, mac) && Kept(t, h, mac);
      LastSeenSnoc(h, ev, mac);
      if LastSeen(h, mac).Some? {
        SinceSnoc(h, ev, LastSeen(h, mac).value, mac);
      }
      forall p: Peer | Holds(t', p, mac) ensures Holds(t, p, mac) {
      }
    }
    forall p: Peer ensures NewerSeen(t', h + [ev], p) {
      assert NewerSeen(t, h, p);
      if p in t'.lists {
        forall a: Mac, b: Mac | Above(t'.lists[p], a, b) ensures b in Since(h + [ev], p, a) {
          SinceSnoc(h, ev, p, a);
        }
      }
    }
  }

  lemma StepKnows(t: Table, h: seq<Event>, ev: Event)
    requires Inv(t) && Enabled(t, ev) && Knows(t, h)
    ensures Knows(Step(t, ev), h + [ev])
  {
    hide Step, Inv, Enabled, HeldBySeen, NewerSeen, Kept;
    InvAt(t, ev.peer);
    if ev.Seen? {
      forall mac: Mac ensures HeldBySeen(Step(t, ev), h + [ev], mac) && Kept(Step(t, ev), h + [ev], mac) {
        SeenHeld(t, h, ev, mac);
        SeenKept(t, h, ev, mac);
      }
      forall p: Peer ensures NewerSeen(Step(t, ev), h + [ev], p) {
        SeenNewer(t, h, ev, p);
      }
    } else {
      OtherKnows(t, h, ev);
    }
  }

  // ---------- runs ----------

  /** Whether the events can happen, one after the other. */
  ghost predicate Possible(max: nat, h: seq<Event>)
    requires max > 0
    decreases |h|, 0
  {
    h == [] || (Possible(max, h[..|h| - 1]) && Enabled(Run(max, h[..|h| - 1]), h[|h| - 1]))
  }

  /** The table after them. */
  function Run(max: nat, h: seq<Event>): (t: Table)
    requires max > 0 && Possible(max, h)
    ensures t.max == max
    decreases |h|, 1
  {
    if h == [] then Table(max, map[]) else Step(Run(max, h[..|h| - 1]), h[|h| - 1])
  }

  lemma RunSnoc(max: nat, h: seq<Event>, ev: Event)
    requires max > 0 && Possible(max, h) && Enabled(Run(max, h), ev)
    ensures Possible(max, h + [ev]) && Run(max, h + [ev]) == Step(Run(max, h), ev)
  {
    Snoc(h, ev);
  }

  lemma {:induction false} RunKnows(max: nat, h: seq<Event>)
    requires max > 0 && Possible(max, h)
    ensures Inv(Run(max, h)) && Knows(Run(max, h), h)
    decreases |h|
  {
    hide Inv, Knows, Step, Enabled;
    if h == [] {
      NothingKnown(max);
    } else {
      var before, ev := h[..|h| - 1], h[|h| - 1];
      RunKnows(max, before);
      StepInv(Run(max, before), ev);
      StepKnows(Run(max, before), before, ev);
      assert h == before + [ev];
    }
  }

  lemma NothingKnown(max: nat)
    requires max > 0
    ensures Inv(Table(max, map[])) && Knows(Table(max, map[]), [])
  {
  }

  /**
   * After every run: an address is held by at most one peer, which is the last one seen sending from it
   * and still there; and an address is forgotten only if it has been seen elsewhere, if its peer has gone,
   * or if as many other addresses as a peer may have were seen at the peer since.
   */
  lemma LeastRecentlyUsed(max: nat, h: seq<Event>, mac: Mac)
    requires max > 0 && Possible(max, h)
    ensures forall p: Peer :: Holds(Run(max, h), p, mac) ==> LastSeen(h, mac) == Some(p)
    ensures var last := LastSeen(h, mac);
            last.Some? && |Since(h, last.value, mac)| < max ==> Holds(Run(max, h), last.value, mac)
  {
    RunKnows(max, h);
    assert HeldBySeen(Run(max, h), h, mac) && Kept(Run(max, h), h, mac);
  }
}
