/**
 * Deciding which peers a frame goes to: one peer for a known address, the members of a group for multicast,
 * everybody otherwise. A decision is handed out one peer at a time.
 */
module FrameDecider {
  import opened Options
  import opened Lists
  import T = MacTable
  import opened Multicast

  /** Ethernet addresses are numbers of 48 bits. */
  const BROADCAST := 0xFFFF_FFFF_FFFF
  const MULTICAST_PREFIX := 0x01_005E

  predicate IsMulticast(mac: T.Mac) {
    mac / 0x100_0000 == MULTICAST_PREFIX
  }

  function SigOfMac(mac: T.Mac): Sig {
    mac % SIGS
  }

  /** The Ethernet address of a group, as section 6.4 of RFC 1112 defines it. */
  function GroupMac(g: Group): T.Mac {
    MULTICAST_PREFIX * 0x100_0000 + g % 0x80_0000
  }

  lemma GroupMacSig(g: Group)
    ensures IsMulticast(GroupMac(g)) && GroupMac(g) != BROADCAST && SigOfMac(GroupMac(g)) == SigOf(g)
  {
    var low := g % 0x80_0000;
    assert MULTICAST_PREFIX * 0x100_0000 == SIGS * (MULTICAST_PREFIX * 2);
    ModOfSum(MULTICAST_PREFIX * 2, low);
  }

  lemma ModOfSum(k: nat, low: nat)
    requires low < SIGS
    ensures (SIGS * k + low) % SIGS == low
  {
  }

  // ---------- state ----------

  datatype Config = Config(maxMacs: nat, maxGroups: nat, interval: nat, lmqt: nat) {
    predicate Valid() {
      maxMacs > 0 && maxGroups > 0
    }
  }

  /**
   * What is left of a decision: the peers or the group entries that have yet to be handed out. The iterator of
   * a decision on group members stands on the first of its entries. That entry knows of it only while it is
   * linked; when an entry goes that does not, the decision is astray and stands on what has been released.
   */
  datatype Decision =
    | Nothing
    | Unicast(peer: Peer)
    | Flood(peers: seq<Peer>)
    | Members(entries: seq<Entry>, linked: bool)
    | Astray(entries: seq<Entry>)

  /** Whether the decision is one on group members. */
  predicate Open(decision: Decision) {
    decision.Members? || decision.Astray?
  }

  /** `groups` are each peer's groups, the one joined least recently first; `ends` is when each membership ends. */
  datatype Decider = Decider(peers: seq<Peer>, macs: T.Table, groups: map<Peer, seq<Group>>, ends: map<Entry, int>,
                             ix: Index, decision: Decision)

  predicate IsMember(d: Decider, e: Entry) {
    e.0 in d.groups && e.1 in d.groups[e.0]
  }

  predicate GroupsOk(cfg: Config, d: Decider, p: Peer) {
    && (p in d.groups <==> p in d.peers)
    && (p in d.macs.lists <==> p in d.peers)
    && (p in d.groups ==> NoDup(d.groups[p]) && |d.groups[p]| <= cfg.maxGroups)
  }

  predicate EntryOk(d: Decider, e: Entry) {
    && (e in d.ix.at <==> IsMember(d, e))
    && (e in d.ends <==> IsMember(d, e))
  }

  /** A decision speaks of nobody who has gone, unless it is astray. */
  ghost predicate DecisionOk(d: Decider) {
    match d.decision
    case Nothing => true
    case Unicast(p) => p in d.peers
    case Flood(ps) => NoDup(ps) && forall p: Peer :: p in ps ==> p in d.peers
    case Members(es, _) => NoDup(es) && forall e: Entry :: e in es ==> IsMember(d, e)
    case Astray(_) => true
  }

  ghost predicate Inv(cfg: Config, d: Decider) {
    && cfg.Valid()
    && T.Inv(d.macs) && d.macs.max == cfg.maxMacs
    && NoDup(d.peers)
    && Multicast.Inv(d.ix)
    && (forall p: Peer :: GroupsOk(cfg, d, p))
    && (forall e: Entry :: EntryOk(d, e))
    && DecisionOk(d)
  }

  function Initial(cfg: Config): Decider {
    Decider([], T.Table(cfg.maxMacs, map[]), map[], map[], Empty(), Nothing)
  }

  // ---------- groups ----------

  /** An entry goes: a linked iterator moves on from it, one that is not stays where it is. */
  function Skip(decision: Decision, e: Entry): Decision {
    match decision
    case Members(es, linked) =>
      if !linked && es != [] && es[0] == e then Astray(es) else Members(Without(es, e), linked)
    case _ => decision
  }

  /** Takes a membership out of the index, and out of a decision that has yet to come to it. */
  function Leave(d: Decider, e: Entry): Decider
    requires e.0 in d.groups && e in d.ix.at && d.ix.at[e] in d.ix.lists && e in d.ix.lists[d.ix.at[e]]
  {
    d.(groups := d.groups[e.0 := Without(d.groups[e.0], e.1)], ends := d.ends - {e}, ix := Remove(d.ix, e),
       decision := Skip(d.decision, e))
  }

  /** Puts a new membership into the index; it comes right after the master, also in a decision that has yet to come to that. */
  function Enter(d: Decider, e: Entry, end: int): Decider
    requires e.0 in d.groups && Sound(d.ix, SigOf(e.1))
  {
    var sig := SigOf(e.1);
    d.(groups := d.groups[e.0 := d.groups[e.0] + [e.1]], ends := d.ends[e := end], ix := Add(d.ix, e),
       decision := if d.decision.Members? && sig in d.ix.tree && d.ix.tree[sig] in d.decision.entries
                   then d.decision.(entries := InsertAfter(d.decision.entries, d.ix.tree[sig], e)) else d.decision)
  }

  lemma EntryFacts(cfg: Config, d: Decider, e: Entry)
    requires Inv(cfg, d) && IsMember(d, e)
    ensures e in d.ix.at && d.ix.at[e] in d.ix.lists && e in d.ix.lists[d.ix.at[e]]
    ensures e.0 in d.peers && NoDup(d.groups[e.0]) && |d.groups[e.0]| <= cfg.maxGroups
  {
    assert EntryOk(d, e) && Multicast.EntryOk(d.ix, e) && GroupsOk(cfg, d, e.0);
  }

  lemma LeaveInv(cfg: Config, d: Decider, e: Entry)
    requires Inv(cfg, d) && IsMember(d, e)
    requires e in d.ix.at && d.ix.at[e] in d.ix.lists && e in d.ix.lists[d.ix.at[e]]
    ensures Inv(cfg, Leave(d, e))
    ensures forall x: Entry :: IsMember(Leave(d, e), x) <==> IsMember(d, x) && x != e
  {
    hide T.Inv, Multicast.Inv, NoDup, Without, Remove;
    var d' := Leave(d, e);
    EntryFacts(cfg, d, e);
    RemoveInv(d.ix, e);
    RemoveKeys(d.ix, e);
    WithoutMembers(d.groups[e.0], e.1);
    forall x: Entry ensures IsMember(d', x) <==> IsMember(d, x) && x != e {
    }
    forall p: Peer ensures GroupsOk(cfg, d', p) {
      assert GroupsOk(cfg, d, p);
    }
    forall x: Entry ensures EntryOk(d', x) {
      assert EntryOk(d, x);
    }
    if d.decision.Members? {
      WithoutMembers(d.decision.entries, e);
    }
  }

  lemma RemoveKeys(ix: Index, e: Entry)
    requires e in ix.at && ix.at[e] in ix.lists && e in ix.lists[ix.at[e]]
    ensures Remove(ix, e).at.Keys == ix.at.Keys - {e}
  {
  }

  lemma AddKeys(ix: Index, e: Entry)
    requires Sound(ix, SigOf(e.1))
    ensures Add(ix, e).at.Keys == ix.at.Keys + {e}
  {
  }

  lemma EnterInv(cfg: Config, d: Decider, e: Entry, end: int)
    requires Inv(cfg, d) && e.0 in d.groups && !IsMember(d, e) && |d.groups[e.0]| < cfg.maxGroups && Sound(d.ix, SigOf(e.1))
    ensures Inv(cfg, Enter(d, e, end))
    ensures forall x: Entry :: IsMember(Enter(d, e, end), x) <==> IsMember(d, x) || x == e
  {
    hide T.Inv, Multicast.Inv, NoDup, Add, InsertAfter, SigOf;
    var d' := Enter(d, e, end);
    assert EntryOk(d, e) && GroupsOk(cfg, d, e.0);
    AddInv(d.ix, e);
    AddKeys(d.ix, e);
    NoDupSnoc(d.groups[e.0], e.1);
    forall x: Entry ensures IsMember(d', x) <==> IsMember(d, x) || x == e {
    }
    forall p: Peer ensures GroupsOk(cfg, d', p) {
      assert GroupsOk(cfg, d, p);
    }
    forall x: Entry ensures EntryOk(d', x) {
      assert EntryOk(d, x);
    }
    if d.decision.Members? && SigOf(e.1) in d.ix.tree && d.ix.tree[SigOf(e.1)] in d.decision.entries {
      InsertMembers(d.decision.entries, d.ix.tree[SigOf(e.1)], e);
    }
  }

  /** Ends the peer's oldest membership if it can have no more. */
  ghost function MakeRoom(cfg: Config, d: Decider, o: Peer): (r: Decider)
    requires Inv(cfg, d) && o in d.peers
    ensures Inv(cfg, r) && o in r.groups
  {
    assert GroupsOk(cfg, d, o);
    if |d.groups[o]| < cfg.maxGroups then d
    else
      var e := (o, d.groups[o][0]);
      assert IsMember(d, e);
      EntryFacts(cfg, d, e);
      LeaveInv(cfg, d, e);
      Leave(d, e)
  }

  /** A membership report of a peer. */
  ghost function Join(cfg: Config, d: Decider, o: Peer, g: Group, now: int): Decider
    requires Inv(cfg, d) && o in d.peers
  {
    assert GroupsOk(cfg, d, o);
    if g in d.groups[o] then
      d.(groups := d.groups[o := Without(d.groups[o], g) + [g]], ends := d.ends[(o, g) := now + cfg.interval])
    else
      var d' := MakeRoom(cfg, d, o);
      InvSound(d'.ix, SigOf(g));
      Enter(d', (o, g), now + cfg.interval)
  }

  /** The membership that a join ends, if the peer has no room for another. */
  ghost predicate Evicted(cfg: Config, d: Decider, o: Peer, g: Group, e: Entry) {
    o in d.groups && g !in d.groups[o] && d.groups[o] != [] && |d.groups[o]| == cfg.maxGroups && e == (o, d.groups[o][0])
  }

  lemma JoinAgain(cfg: Config, d: Decider, o: Peer, g: Group, now: int)
    requires Inv(cfg, d) && o in d.peers && IsMember(d, (o, g))
    ensures Inv(cfg, Join(cfg, d, o, g, now))
    ensures forall x: Entry :: IsMember(Join(cfg, d, o, g, now), x) <==> IsMember(d, x)
  {
    hide T.Inv, Multicast.Inv, NoDup, Without;
    assert GroupsOk(cfg, d, o);
    var d' := Join(cfg, d, o, g, now);
    WithoutMembers(d.groups[o], g);
    WithoutSize(d.groups[o], g);
    NoDupSnoc(Without(d.groups[o], g), g);
    forall x: Entry ensures IsMember(d', x) <==> IsMember(d, x) {
    }
    forall p: Peer ensures GroupsOk(cfg, d', p) {
      assert GroupsOk(cfg, d, p);
    }
    forall x: Entry ensures EntryOk(d', x) {
      assert EntryOk(d, x);
    }
  }

  /** A join adds one membership and ends at most the peer's oldest one. */
  lemma JoinInv(cfg: Config, d: Decider, o: Peer, g: Group, now: int)
    requires Inv(cfg, d) && o in d.peers
    ensures Inv(cfg, Join(cfg, d, o, g, now))
    ensures forall x: Entry :: IsMember(Join(cfg, d, o, g, now), x) <==> (IsMember(d, x) && !Evicted(cfg, d, o, g, x)) || x == (o, g)
  {
    hide Multicast.Inv, NoDup, Without, Leave, Enter;
    assert GroupsOk(cfg, d, o);
    if g in d.groups[o] {
      JoinAgain(cfg, d, o, g, now);
    } else if |d.groups[o]| < cfg.maxGroups {
      InvSound(d.ix, SigOf(g));
      EnterInv(cfg, d, (o, g), now + cfg.interval);
    } else {
      var e := (o, d.groups[o][0]);
      assert IsMember(d, e);
      EntryFacts(cfg, d, e);
      LeaveInv(cfg, d, e);
      LeaveRoom(cfg, d, e);
      InvSound(Leave(d, e).ix, SigOf(g));
      EnterInv(cfg, Leave(d, e), (o, g), now + cfg.interval);
    }
  }

  lemma LeaveRoom(cfg: Config, d: Decider, e: Entry)
    requires Inv(cfg, d) && IsMember(d, e)
    requires e in d.ix.at && d.ix.at[e] in d.ix.lists && e in d.ix.lists[d.ix.at[e]]
    ensures var d' := Leave(d, e); e.0 in d'.groups && |d'.groups[e.0]| < cfg.maxGroups
  {
    assert GroupsOk(cfg, d, e.0);
    WithoutSize(d.groups[e.0], e.1);
  }

  // ---------- peers ----------

  function NewPeer(d: Decider, o: Peer): Decider {
    d.(peers := d.peers + [o], macs := d.macs.(lists := d.macs.lists[o := []]), groups := d.groups[o := []],
       decision := if d.decision.Flood? && d.decision.peers != [] then Flood(d.decision.peers + [o]) else d.decision)
  }

  lemma NewPeerInv(cfg: Config, d: Decider, o: Peer)
    requires Inv(cfg, d) && o !in d.peers
    ensures Inv(cfg, NewPeer(d, o))
  {
    hide T.Inv, Multicast.Inv;
    var d' := NewPeer(d, o);
    assert GroupsOk(cfg, d, o);
    MacInit(d.macs, o);
    NoDupSnoc(d.peers, o);
    forall p: Peer ensures GroupsOk(cfg, d', p) {
      assert GroupsOk(cfg, d, p);
    }
    forall x: Entry ensures EntryOk(d', x) {
      assert EntryOk(d, x);
    }
    if d.decision.Flood? {
      NoDupSnoc(d.decision.peers, o);
    }
  }

  lemma MacInit(t: T.Table, o: Peer)
    requires T.Inv(t) && o !in t.lists
    ensures T.Inv(t.(lists := t.lists[o := []]))
  {
    T.StepInv(t, T.PeerInit(o));
  }

  /** Ends all memberships of a peer. */
  ghost function LeaveAll(cfg: Config, d: Decider, o: Peer): (r: Decider)
    requires Inv(cfg, d) && o in d.groups
    ensures Inv(cfg, r) && o in r.groups && r.groups[o] == [] && r.peers == d.peers && r.macs == d.macs
    ensures Open(r.decision) <==> Open(d.decision)
    ensures !Open(d.decision) ==> r.decision == d.decision
    decreases |d.groups[o]|
  {
    if d.groups[o] == [] then d
    else
      var e := (o, d.groups[o][0]);
      assert IsMember(d, e);
      EntryFacts(cfg, d, e);
      LeaveInv(cfg, d, e);
      WithoutSize(d.groups[o], e.1);
      LeaveAll(cfg, Leave(d, e), o)
  }

  /** The others keep their memberships. */
  lemma {:induction false} LeaveAllMembers(cfg: Config, d: Decider, o: Peer)
    requires Inv(cfg, d) && o in d.groups
    ensures forall x: Entry :: IsMember(LeaveAll(cfg, d, o), x) <==> IsMember(d, x) && x.0 != o
    decreases |d.groups[o]|
  {
    hide Inv, Leave;
    if d.groups[o] == [] {
      forall x: Entry ensures IsMember(d, x) ==> x.0 != o {
      }
    } else {
      var e := (o, d.groups[o][0]);
      assert IsMember(d, e);
      EntryFacts(cfg, d, e);
      LeaveInv(cfg, d, e);
      LeaveSize(cfg, d, e);
      LeaveAllMembers(cfg, Leave(d, e), o);
    }
  }

  lemma LeaveSize(cfg: Config, d: Decider, e: Entry)
    requires Inv(cfg, d) && IsMember(d, e)
    requires e in d.ix.at && d.ix.at[e] in d.ix.lists && e in d.ix.lists[d.ix.at[e]]
    ensures var d' := Leave(d, e); e.0 in d'.groups && |d'.groups[e.0]| < |d.groups[e.0]|
  {
    assert GroupsOk(cfg, d, e.0);
    WithoutSize(d.groups[e.0], e.1);
  }

  /** A decision that has yet to come to a peer passes it over; the group entries have been dealt with. */
  function PassOver(decision: Decision, o: Peer): Decision {
    match decision
    case Unicast(p) => if p == o then Nothing else decision
    case Flood(ps) => Flood(Without(ps, o))
    case _ => decision
  }

  /** A peer goes: its memberships and addresses with it, and it is taken out of a decision that has yet to come to it. */
  ghost function FreePeer(cfg: Config, d: Decider, o: Peer): Decider
    requires Inv(cfg, d) && o in d.groups
  {
    var r := LeaveAll(cfg, d, o);
    r.(peers := Without(r.peers, o), macs := r.macs.(lists := r.macs.lists - {o}), groups := r.groups - {o},
       decision := PassOver(r.decision, o))
  }

  lemma FreePeerInv(cfg: Config, d: Decider, o: Peer)
    requires Inv(cfg, d) && o in d.groups
    ensures Inv(cfg, FreePeer(cfg, d, o))
    ensures forall x: Entry :: IsMember(FreePeer(cfg, d, o), x) <==> IsMember(d, x) && x.0 != o
  {
    hide T.Inv, Multicast.Inv, LeaveAll;
    LeaveAllMembers(cfg, d, o);
    var r := LeaveAll(cfg, d, o);
    var d' := FreePeer(cfg, d, o);
    assert GroupsOk(cfg, r, o);
    MacFree(r.macs, o);
    WithoutMembers(r.peers, o);
    forall x: Entry ensures IsMember(d', x) <==> IsMember(r, x) {
    }
    forall p: Peer ensures GroupsOk(cfg, d', p) {
      assert GroupsOk(cfg, r, p);
    }
    forall x: Entry ensures EntryOk(d', x) {
      assert EntryOk(r, x);
    }
    if r.decision.Flood? {
      WithoutMembers(r.decision.peers, o);
    }
  }

  lemma MacFree(t: T.Table, o: Peer)
    requires T.Inv(t) && o in t.lists
    ensures T.Inv(t.(lists := t.lists - {o}))
  {
    T.StepInv(t, T.PeerFree(o));
  }

  lemma SeenInv(cfg: Config, d: Decider, o: Peer, mac: T.Mac)
    requires Inv(cfg, d) && o in d.peers
    ensures Inv(cfg, d.(macs := T.AddMac(d.macs, o, mac)))
  {
    hide T.Inv, Multicast.Inv, NoDup;
    assert GroupsOk(cfg, d, o);
    MacSeen(d.macs, o, mac);
    var d' := d.(macs := T.AddMac(d.macs, o, mac));
    forall p: Peer ensures GroupsOk(cfg, d', p) {
      assert GroupsOk(cfg, d, p);
    }
    forall x: Entry ensures EntryOk(d', x) {
      assert EntryOk(d, x);
    }
  }

  lemma MacSeen(t: T.Table, o: Peer, mac: T.Mac)
    requires T.Inv(t)
    ensures T.AddMac(t, o, mac).lists.Keys == t.lists.Keys && T.AddMac(t, o, mac).max == t.max
    ensures o in t.lists ==> T.Inv(T.AddMac(t, o, mac))
  {
    if o in t.lists {
      T.StepInv(t, T.Seen(o, mac));
    }
  }

  // ---------- decisions ----------

  /** What matters of a frame; a query is an IGMP query for one group. */
  datatype Igmp = NotIgmp | OtherIgmp | Query(group: Group)

  datatype Frame = Short | Frame(dest: T.Mac, igmp: Igmp)

  /** Goes through the entries with the group's signature and lowers the ends of the group's memberships. */
  function Lowered(ends: map<Entry, int>, list: seq<Entry>, g: Group, limit: int): (r: map<Entry, int>)
    ensures r.Keys == ends.Keys
  {
    if list == [] then ends
    else
      var e := list[0];
      Lowered(if e.1 == g && e in ends && ends[e] > limit then ends[e := limit] else ends, list[1..], g, limit)
  }

  lemma {:induction false} LoweredExactly(ends: map<Entry, int>, list: seq<Entry>, g: Group, limit: int, e: Entry)
    requires e in ends
    ensures Lowered(ends, list, g, limit)[e] == if e in list && e.1 == g && ends[e] > limit then limit else ends[e]
    decreases |list|
  {
    if list != [] {
      var f := list[0];
      LoweredExactly(if f.1 == g && f in ends && ends[f] > limit then ends[f := limit] else ends, list[1..], g, limit, e);
    }
  }

  /** Who a frame to `mac` is for, if that is known. */
  ghost function HolderOf(t: T.Table, mac: T.Mac): (r: Option<Peer>)
    ensures r.Some? ==> T.Holds(t, r.value, mac)
    ensures r.None? ==> forall p: Peer :: !T.Holds(t, p, mac)
  {
    if exists p: Peer :: T.Holds(t, p, mac) then
      var p: Peer :| T.Holds(t, p, mac);
      Some(p)
    else None
  }

  ghost function Choose(d: Decider, frame: Frame): Decision
    requires frame.Frame? && Sound(d.ix, SigOfMac(frame.dest))
  {
    if !frame.igmp.NotIgmp? || frame.dest == BROADCAST then Flood(d.peers)
    else if IsMulticast(frame.dest) then
      var list := Found(d.ix, SigOfMac(frame.dest));
      if list == [] then Nothing else Members(list, true)
    else
      match HolderOf(d.macs, frame.dest)
      case Some(p) => Unicast(p)
      case None => Flood(d.peers)
  }

  /** The decision on a frame by itself. */
  ghost function Fresh(cfg: Config, d: Decider, frame: Frame): Decision
    requires Inv(cfg, d)
  {
    if frame.Short? then Nothing else InvSound(d.ix, SigOfMac(frame.dest)); Choose(d, frame)
  }

  /** While a decision on group members is open a new frame is not looked at; only the iterator is unlinked. */
  ghost function Decide(cfg: Config, d: Decider, frame: Frame, now: int): Decider
    requires Inv(cfg, d)
  {
    if d.decision.Members? then d.(decision := Members(d.decision.entries, false))
    else if d.decision.Astray? then d
    else if frame.Frame? && frame.igmp.Query? then
      InvSound(d.ix, SigOf(frame.igmp.group));
      d.(ends := Lowered(d.ends, Found(d.ix, SigOf(frame.igmp.group)), frame.igmp.group, now + cfg.lmqt),
         decision := Fresh(cfg, d, frame))
    else d.(decision := Fresh(cfg, d, frame))
  }

  /** Hands out one peer of the decision. */
  function Next(d: Decider): (Option<Peer>, Decider) {
    match d.decision
    case Nothing => (None, d)
    case Unicast(p) => (Some(p), d.(decision := Nothing))
    case Flood(ps) => if ps == [] then (None, d.(decision := Nothing)) else (Some(ps[0]), d.(decision := Flood(ps[1..])))
    case Members(es, _) =>
      if es == [] then (None, d.(decision := Nothing)) else (Some(es[0].0), d.(decision := Members(es[1..], true)))
    case Astray(es) =>
      if es == [] then (None, d.(decision := Nothing)) else (Some(es[0].0), d.(decision := Astray(es[1..])))
  }

  function PeersOf(es: seq<Entry>): (ps: seq<Peer>)
    ensures |ps| == |es|
    ensures forall k :: 0 <= k < |es| ==> ps[k] == es[k].0
  {
    if es == [] then [] else [es[0].0] + PeersOf(es[1..])
  }

  /** Everyone a decision is yet to be handed out to. */
  function Pending(decision: Decision): seq<Peer> {
    match decision
    case Nothing => []
    case Unicast(p) => [p]
    case Flood(ps) => ps
    case Members(es, _) => PeersOf(es)
    case Astray(es) => PeersOf(es)
  }

  /** Asking for the next destination hands out the pending ones in order; after the last one the decision is over. */
  lemma NextHandsOut(d: Decider)
    ensures var (r, d') := Next(d);
            && d' == d.(decision := d'.decision)
            && (Pending(d.decision) == [] ==> r == None && d'.decision == Nothing)
            && (Pending(d.decision) != [] ==> r == Some(Pending(d.decision)[0]) && Pending(d'.decision) == Pending(d.decision)[1..])
  {
    if Open(d.decision) && d.decision.entries != [] {
      assert PeersOf(d.decision.entries)[1..] == PeersOf(d.decision.entries[1..]);
    }
  }

  lemma FreshOk(cfg: Config, d: Decider, frame: Frame)
    requires Inv(cfg, d)
    ensures DecisionOk(d.(decision := Fresh(cfg, d, frame)))
  {
    hide T.Inv, Multicast.Inv, NoDup, Found, SigOf;
    var d' := d.(decision := Fresh(cfg, d, frame));
    if frame.Frame? {
      InvSound(d.ix, SigOfMac(frame.dest));
      FoundExactly(d.ix, SigOfMac(frame.dest));
      forall e: Entry | e in Found(d.ix, SigOfMac(frame.dest)) ensures IsMember(d', e) {
        assert EntryOk(d, e);
      }
      if HolderOf(d.macs, frame.dest).Some? {
        assert GroupsOk(cfg, d, HolderOf(d.macs, frame.dest).value);
      }
    }
  }

  lemma DecideInv(cfg: Config, d: Decider, frame: Frame, now: int)
    requires Inv(cfg, d)
    ensures Inv(cfg, Decide(cfg, d, frame, now))
  {
    hide T.Inv, Multicast.Inv, NoDup, Found, SigOf, Fresh, Lowered;
    FreshOk(cfg, d, frame);
    var d' := Decide(cfg, d, frame, now);
    forall p: Peer ensures GroupsOk(cfg, d', p) {
      assert GroupsOk(cfg, d, p);
    }
    forall x: Entry ensures EntryOk(d', x) {
      assert EntryOk(d, x);
    }
  }

  lemma NextInv(cfg: Config, d: Decider)
    requires Inv(cfg, d)
    ensures Inv(cfg, Next(d).1)
  {
    hide T.Inv, Multicast.Inv;
    var d' := Next(d).1;
    forall p: Peer ensures GroupsOk(cfg, d', p) {
      assert GroupsOk(cfg, d, p);
    }
    forall x: Entry ensures EntryOk(d', x) {
      assert EntryOk(d, x);
    }
    match d.decision
    case Nothing =>
    case Unicast(p) =>
    case Flood(ps) =>
      if ps != [] {
        forall p: Peer | p in ps[1..] ensures p in d.peers {
          TailMembers(ps, p);
        }
      }
    case Members(es, _) =>
      if es != [] {
        forall e: Entry | e in es[1..] ensures IsMember(d', e) {
          TailMembers(es, e);
        }
      }
    case Astray(_) =>
  }

  // ---------- what a decision is ----------

  /**
   * A frame goes to: nobody if it is too short; all peers if it is IGMP or broadcast; for a group, once for
   * every membership with the address's signature and to nobody else; for any other address, to the one
   * peer that holds it, or to all peers if none does.
   */
  lemma DecisionExactly(cfg: Config, d: Decider, frame: Frame, now: int)
    requires Inv(cfg, d) && !Open(d.decision)
    ensures var r := Decide(cfg, d, frame, now).decision;
            match frame
            case Short => r == Nothing
            case Frame(dest, igmp) =>
              if !igmp.NotIgmp? || dest == BROADCAST then Pending(r) == d.peers
              else if IsMulticast(dest) then
                exists es: seq<Entry> ::
                  NoDup(es) && Pending(r) == PeersOf(es) &&
                  forall e: Entry :: e in es <==> IsMember(d, e) && SigOf(e.1) == SigOfMac(dest)
              else
                match HolderOf(d.macs, dest)
                case Some(p) => Pending(r) == [p]
                case None => Pending(r) == d.peers
  {
    hide T.Inv, Multicast.Inv, NoDup, Found, SigOf, Lowered;
    if frame.Frame? && frame.igmp.NotIgmp? && frame.dest != BROADCAST && IsMulticast(frame.dest) {
      InvSound(d.ix, SigOfMac(frame.dest));
      var es := Found(d.ix, SigOfMac(frame.dest));
      FoundExactly(d.ix, SigOfMac(frame.dest));
      forall e: Entry ensures e in es <==> IsMember(d, e) && SigOf(e.1) == SigOfMac(frame.dest) {
        assert EntryOk(d, e);
      }
      assert Pending(Decide(cfg, d, frame, now).decision) == PeersOf(es);
    }
  }

  lemma InitialInv(cfg: Config)
    requires cfg.Valid()
    ensures Inv(cfg, Initial(cfg))
  {
    EmptyInv();
    T.NothingKnown(cfg.maxMacs);
  }

  /** A group-specific query lowers the ends of that group's memberships to the last member query time, and no others. */
  lemma QueryLowersExactly(cfg: Config, d: Decider, dest: T.Mac, g: Group, now: int, e: Entry)
    requires Inv(cfg, d) && !Open(d.decision) && IsMember(d, e) && e in d.ends
    ensures var d' := Decide(cfg, d, Frame(dest, Query(g)), now);
            && e in d'.ends
            && d'.ends[e] == if e.1 == g && d.ends[e] > now + cfg.lmqt then now + cfg.lmqt else d.ends[e]
  {
    hide T.Inv, Multicast.Inv, NoDup, Found, SigOf, Lowered, Fresh;
    InvSound(d.ix, SigOf(g));
    FoundExactly(d.ix, SigOf(g));
    assert EntryOk(d, e);
    LoweredExactly(d.ends, Found(d.ix, SigOf(g)), g, now + cfg.lmqt, e);
  }

  // ---------- runs ----------

  datatype Event =
    | PeerInit(peer: Peer)
    | PeerFree(peer: Peer)
    | Seen(peer: Peer, mac: T.Mac)
    | Joined(peer: Peer, group: Group, now: int)
    | Expired(entry: Entry)
    | Analyze(frame: Frame, now: int)
    | NextDestination

  predicate Enabled(d: Decider, ev: Event) {
    match ev
    case PeerInit(p) => p !in d.peers
    case PeerFree(p) => p in d.peers
    case Seen(p, _) => p in d.peers
    case Joined(p, _, _) => p in d.peers
    case Expired(e) => IsMember(d, e)
    case Analyze(_, _) => true
    case NextDestination => true
  }

  ghost function Step(cfg: Config, d: Decider, ev: Event): Decider
    requires Inv(cfg, d) && Enabled(d, ev)
  {
    match ev
    case PeerInit(p) => NewPeer(d, p)
    case PeerFree(p) => assert GroupsOk(cfg, d, p); FreePeer(cfg, d, p)
    case Seen(p, mac) => d.(macs := T.AddMac(d.macs, p, mac))
    case Joined(p, g, now) => Join(cfg, d, p, g, now)
    case Expired(e) => EntryFacts(cfg, d, e); Leave(d, e)
    case Analyze(frame, now) => Decide(cfg, d, frame, now)
    case NextDestination => Next(d).1
  }

  /** Every event keeps the table, the index and the memberships in agreement, and a decision that is not astray free of peers that have gone. */
  lemma StepInv(cfg: Config, d: Decider, ev: Event)
    requires Inv(cfg, d) && Enabled(d, ev)
    ensures Inv(cfg, Step(cfg, d, ev))
  {
    match ev
    case PeerInit(p) => NewPeerInv(cfg, d, p);
    case PeerFree(p) =>
      assert GroupsOk(cfg, d, p);
      FreePeerInv(cfg, d, p);
    case Seen(p, mac) => SeenInv(cfg, d, p, mac);
    case Joined(p, g, now) => JoinInv(cfg, d, p, g, now);
    case Expired(e) =>
      EntryFacts(cfg, d, e);
      LeaveInv(cfg, d, e);
    case Analyze(frame, now) => DecideInv(cfg, d, frame, now);
    case NextDestination => NextInv(cfg, d);
  }

  /** Whether the events can happen one after the other, from nothing. */
  ghost predicate Possible(cfg: Config, evs: seq<Event>)
    requires cfg.Valid()
    decreases |evs|, 0
  {
    evs == [] || (Possible(cfg, evs[..|evs| - 1]) && Enabled(Run(cfg, evs[..|evs| - 1]), evs[|evs| - 1]))
  }

  ghost function Run(cfg: Config, evs: seq<Event>): (d: Decider)
    requires cfg.Valid() && Possible(cfg, evs)
    ensures Inv(cfg, d)
    decreases |evs|, 1
  {
    if evs == [] then InitialInv(cfg); Initial(cfg)
    else
      var d, ev := Run(cfg, evs[..|evs| - 1]), evs[|evs| - 1];
      StepInv(cfg, d, ev);
      Step(cfg, d, ev)
  }

  /** The events that concern the address table. */
  function MacEvents(evs: seq<Event>): seq<T.Event> {
    if evs == [] then []
    else
      MacEvents(evs[..|evs| - 1]) +
      match evs[|evs| - 1]
      case PeerInit(p) => [T.PeerInit(p)]
      case PeerFree(p) => [T.PeerFree(p)]
      case Seen(p, mac) => [T.Seen(p, mac)]
      case _ => []
  }

  /** Nothing else touches the address table. */
  lemma StepMacs(cfg: Config, d: Decider, ev: Event)
    requires Inv(cfg, d) && Enabled(d, ev)
    ensures match ev
            case PeerInit(p) => p !in d.macs.lists && Step(cfg, d, ev).macs == T.Step(d.macs, T.PeerInit(p))
            case PeerFree(p) => p in d.macs.lists && Step(cfg, d, ev).macs == T.Step(d.macs, T.PeerFree(p))
            case Seen(p, mac) => p in d.macs.lists && Step(cfg, d, ev).macs == T.Step(d.macs, T.Seen(p, mac))
            case _ => Step(cfg, d, ev).macs == d.macs
  {
    hide Multicast.Inv, NoDup, Leave, Enter, Fresh;
    match ev
    case PeerInit(p) => assert GroupsOk(cfg, d, p);
    case PeerFree(p) => assert GroupsOk(cfg, d, p);
    case Seen(p, mac) => assert GroupsOk(cfg, d, p);
    case Joined(p, g, now) => JoinMacs(cfg, d, p, g, now);
    case Expired(e) => LeaveMacs(cfg, d, e);
    case Analyze(frame, now) =>
    case NextDestination =>
  }

  lemma LeaveMacs(cfg: Config, d: Decider, e: Entry)
    requires Inv(cfg, d) && IsMember(d, e)
    ensures Step(cfg, d, Expired(e)).macs == d.macs
  {
  }

  lemma JoinMacs(cfg: Config, d: Decider, o: Peer, g: Group, now: int)
    requires Inv(cfg, d) && o in d.peers
    ensures Join(cfg, d, o, g, now).macs == d.macs
  {
  }

  lemma NoMacEvents(cfg: Config)
    requires cfg.Valid()
    ensures T.Possible(cfg.maxMacs, []) && T.Run(cfg.maxMacs, []) == Initial(cfg).macs
  {
  }

  lemma {:induction false} RunMacs(cfg: Config, evs: seq<Event>)
    requires cfg.Valid() && Possible(cfg, evs)
    ensures T.Possible(cfg.maxMacs, MacEvents(evs)) && Run(cfg, evs).macs == T.Run(cfg.maxMacs, MacEvents(evs))
    decreases |evs|
  {
    hide Inv, Step, T.Step, T.Possible, T.Run;
    if evs == [] {
      NoMacEvents(cfg);
    } else {
      var before, ev := evs[..|evs| - 1], evs[|evs| - 1];
      RunMacs(cfg, before);
      StepMacs(cfg, Run(cfg, before), ev);
      var h := MacEvents(before);
      match ev
      case PeerInit(p) => T.RunSnoc(cfg.maxMacs, h, T.PeerInit(p));
      case PeerFree(p) => T.RunSnoc(cfg.maxMacs, h, T.PeerFree(p));
      case Seen(p, mac) => T.RunSnoc(cfg.maxMacs, h, T.Seen(p, mac));
      case _ => assert h + [] == h;
    }
  }

  /** In every run, a frame to a known address goes to the peer that was last seen sending from it. */
  lemma UnicastGoesToLastSeen(cfg: Config, evs: seq<Event>, mac: T.Mac)
    requires cfg.Valid() && Possible(cfg, evs)
    ensures HolderOf(Run(cfg, evs).macs, mac).Some? ==>
              T.LastSeen(MacEvents(evs), mac) == HolderOf(Run(cfg, evs).macs, mac)
  {
    RunMacs(cfg, evs);
    T.LeastRecentlyUsed(cfg.maxMacs, MacEvents(evs), mac);
  }
}
