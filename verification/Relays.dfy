/**
 * Which peer reaches us how: over a link of its own, through a relay, or not at all while it waits for one.
 * The relays, the peers waiting and the users of each relay are kept in lists. The requirements of the
 * functions are the assertions that the program makes.
 */
module Relays {
  import opened Options
  import opened Lists

  type Id = nat

  datatype Peer = Peer(haveLink: bool, isRelay: bool, relaying: Option<Id>, waiting: bool, users: seq<Id>)

  datatype State = State(peers: map<Id, Peer>, relays: seq<Id>, waiting: seq<Id>)

  function Initial(): State {
    State(map[], [], [])
  }

  const FRESH := Peer(false, false, None, false, [])

  // ---------- the invariant ----------

  /** Having a link, relaying and waiting exclude each other; a relay has a link; the lists mirror the flags. */
  predicate PeerOk(s: State, p: Id) {
    && (p in s.relays <==> p in s.peers && s.peers[p].isRelay)
    && (p in s.waiting <==> p in s.peers && s.peers[p].waiting)
    && (p in s.peers ==>
          var x := s.peers[p];
          && !(x.haveLink && x.relaying.Some?) && !(x.haveLink && x.waiting) && !(x.relaying.Some? && x.waiting)
          && (x.isRelay ==> x.haveLink)
          && NoDup(x.users)
          && (x.relaying.Some? ==> Uses(s, p, x.relaying.value)))
  }

  predicate Uses(s: State, u: Id, r: Id) {
    r in s.peers && s.peers[r].isRelay && u in s.peers[r].users
  }

  /** The users of a relay are those that relay through it. */
  predicate UserOk(s: State, r: Id, u: Id) {
    r in s.peers && u in s.peers[r].users ==> s.peers[r].isRelay && u in s.peers && s.peers[u].relaying == Some(r)
  }

  ghost predicate Linked(s: State) {
    && NoDup(s.relays) && NoDup(s.waiting)
    && (forall p: Id :: PeerOk(s, p))
    && (forall r: Id, u: Id :: UserOk(s, r, u))
  }

  /** Nobody waits while there is a relay. */
  predicate Served(s: State) {
    s.waiting == [] || s.relays == []
  }

  ghost predicate Inv(s: State) {
    Linked(s) && Served(s)
  }

  // ---------- single steps ----------

  predicate Unconnected(s: State, p: Id) {
    p in s.peers && !s.peers[p].haveLink && !s.peers[p].isRelay && s.peers[p].relaying.None? && !s.peers[p].waiting
  }

  function InitLink(s: State, p: Id): State
    requires Unconnected(s, p)
  {
    s.(peers := s.peers[p := s.peers[p].(haveLink := true)])
  }

  function FreeLink(s: State, p: Id): State
    requires p in s.peers && s.peers[p].haveLink && !s.peers[p].isRelay && s.peers[p].relaying.None? && !s.peers[p].waiting
  {
    s.(peers := s.peers[p := s.peers[p].(haveLink := false)])
  }

  function RegisterNeedRelay(s: State, p: Id): State
    requires Unconnected(s, p)
  {
    s.(peers := s.peers[p := s.peers[p].(waiting := true)], waiting := s.waiting + [p])
  }

  function UnregisterNeedRelay(s: State, p: Id): State
    requires p in s.peers && s.peers[p].waiting && !s.peers[p].haveLink && s.peers[p].relaying.None? && !s.peers[p].isRelay
  {
    s.(peers := s.peers[p := s.peers[p].(waiting := false)], waiting := Without(s.waiting, p))
  }

  function InstallRelaying(s: State, p: Id, r: Id): State
    requires Unconnected(s, p) && r in s.peers && s.peers[r].isRelay && s.peers[r].haveLink && p != r
  {
    s.(peers := s.peers[p := s.peers[p].(relaying := Some(r))][r := s.peers[r].(users := s.peers[r].users + [p])])
  }

  predicate Relayed(s: State, p: Id) {
    && p in s.peers && s.peers[p].relaying.Some? && !s.peers[p].haveLink && !s.peers[p].waiting
    && var r := s.peers[p].relaying.value; r != p && r in s.peers && s.peers[r].isRelay && s.peers[r].haveLink
  }

  function FreeRelaying(s: State, p: Id): State
    requires Relayed(s, p)
  {
    var r := s.peers[p].relaying.value;
    s.(peers := s.peers[p := s.peers[p].(relaying := None)][r := s.peers[r].(users := Without(s.peers[r].users, p))])
  }

  lemma InitLinkLinked(s: State, p: Id)
    requires Linked(s) && Unconnected(s, p)
    ensures Linked(InitLink(s, p))
  {
    var s' := InitLink(s, p);
    forall q: Id ensures PeerOk(s', q) {
      assert PeerOk(s, q);
    }
    forall r: Id, u: Id ensures UserOk(s', r, u) {
      assert UserOk(s, r, u);
    }
  }

  lemma FreeLinkLinked(s: State, p: Id)
    requires Linked(s) && p in s.peers && s.peers[p].haveLink && !s.peers[p].isRelay
    ensures s.peers[p].relaying.None? && !s.peers[p].waiting && Linked(FreeLink(s, p))
  {
    assert PeerOk(s, p);
    var s' := FreeLink(s, p);
    forall q: Id ensures PeerOk(s', q) {
      assert PeerOk(s, q);
    }
    forall r: Id, u: Id ensures UserOk(s', r, u) {
      assert UserOk(s, r, u);
    }
  }

  /** When a link is freed nobody relays through the peer. */
  lemma FreedLinkIsUnused(s: State, p: Id, u: Id)
    requires Linked(s) && p in s.peers && !s.peers[p].isRelay && u in s.peers
    ensures s.peers[u].relaying != Some(p)
  {
    assert PeerOk(s, u);
  }

  lemma RegisterLinked(s: State, p: Id)
    requires Linked(s) && Unconnected(s, p)
    ensures Linked(RegisterNeedRelay(s, p))
  {
    var s' := RegisterNeedRelay(s, p);
    assert PeerOk(s, p);
    NoDupSnoc(s.waiting, p);
    forall q: Id ensures PeerOk(s', q) {
      assert PeerOk(s, q);
    }
    forall r: Id, u: Id ensures UserOk(s', r, u) {
      assert UserOk(s, r, u);
    }
  }

  lemma UnregisterLinked(s: State, p: Id)
    requires Linked(s) && p in s.peers && s.peers[p].waiting
    ensures !s.peers[p].haveLink && s.peers[p].relaying.None? && !s.peers[p].isRelay
    ensures Linked(UnregisterNeedRelay(s, p)) && Unconnected(UnregisterNeedRelay(s, p), p)
  {
    assert PeerOk(s, p);
    var s' := UnregisterNeedRelay(s, p);
    WithoutMembers(s.waiting, p);
    forall q: Id ensures PeerOk(s', q) {
      assert PeerOk(s, q);
    }
    forall r: Id, u: Id ensures UserOk(s', r, u) {
      assert UserOk(s, r, u);
    }
  }

  lemma InstallLinked(s: State, p: Id, r: Id)
    requires Linked(s) && Unconnected(s, p) && r in s.relays
    ensures r in s.peers && s.peers[r].isRelay && s.peers[r].haveLink && p != r
    ensures Linked(InstallRelaying(s, p, r))
  {
    assert PeerOk(s, r) && PeerOk(s, p) && UserOk(s, r, p);
    var s' := InstallRelaying(s, p, r);
    NoDupSnoc(s.peers[r].users, p);
    forall q: Id ensures PeerOk(s', q) {
      assert PeerOk(s, q);
    }
    forall q: Id, u: Id ensures UserOk(s', q, u) {
      assert UserOk(s, q, u);
      assert UserOk(s, q, p);
    }
  }

  lemma RelayingIsRelayed(s: State, p: Id)
    requires Linked(s) && p in s.peers && s.peers[p].relaying.Some?
    ensures Relayed(s, p)
  {
    assert PeerOk(s, p) && PeerOk(s, s.peers[p].relaying.value);
  }

  lemma FreeRelayingLinked(s: State, p: Id)
    requires Linked(s) && Relayed(s, p)
    ensures Linked(FreeRelaying(s, p)) && Unconnected(FreeRelaying(s, p), p)
  {
    var r := s.peers[p].relaying.value;
    var s' := FreeRelaying(s, p);
    assert PeerOk(s, p) && PeerOk(s, r);
    WithoutMembers(s.peers[r].users, p);
    forall q: Id ensures PeerOk(s', q) {
      assert PeerOk(s, q);
    }
    forall q: Id, u: Id ensures UserOk(s', q, u) {
      assert UserOk(s, q, u);
    }
  }

  // ---------- assigning relays ----------

  /** Gives the first relay to everyone who waits. */
  ghost function AssignRelays(s: State): (r: State)
    requires Linked(s)
    ensures Inv(r) && r.relays == s.relays && r.peers.Keys == s.peers.Keys
    decreases |s.waiting|
  {
    if Served(s) then s
    else
      var s1 := AssignOne(s);
      AssignRelays(s1)
  }

  ghost function AssignOne(s: State): (r: State)
    requires Linked(s) && !Served(s)
    ensures Linked(r) && r.relays == s.relays && r.peers.Keys == s.peers.Keys && |r.waiting| < |s.waiting|
  {
    var p := s.waiting[0];
    assert PeerOk(s, p);
    UnregisterLinked(s, p);
    InstallLinked(UnregisterNeedRelay(s, p), p, s.relays[0]);
    WithoutSize(s.waiting, p);
    InstallRelaying(UnregisterNeedRelay(s, p), p, s.relays[0])
  }

  /** What assigning does to each peer, said without going through the list. */
  lemma {:induction false} AssignExactly(s: State, p: Id)
    requires Linked(s) && p in s.peers
    ensures var x, y := s.peers[p], AssignRelays(s).peers[p];
            && y.haveLink == x.haveLink && y.isRelay == x.isRelay
            && (s.relays != [] ==> !y.waiting && y.relaying == if x.waiting then Some(s.relays[0]) else x.relaying)
            && (s.relays == [] ==> y == x)
    decreases |s.waiting|
  {
    hide Linked;
    LinkedAt(s, p);
    if !Served(s) {
      var s1 := AssignOne(s);
      AssignExactly(s1, p);
    }
  }

  lemma LinkedAt(s: State, p: Id)
    requires Linked(s)
    ensures PeerOk(s, p)
  {
  }

  // ---------- what happens to a peer ----------

  /** Turns the users of a relay into waiting peers, one after the other. */
  ghost function DropUsers(s: State, r: Id): (t: State)
    requires Linked(s) && r in s.peers && s.peers[r].isRelay
    ensures Linked(t) && t.relays == s.relays && t.peers.Keys == s.peers.Keys
    ensures t.peers[r] == s.peers[r].(users := [])
    decreases |s.peers[r].users|
  {
    if s.peers[r].users == [] then s
    else
      var u := s.peers[r].users[0];
      assert UserOk(s, r, u) && PeerOk(s, r);
      RelayingIsRelayed(s, u);
      FreeRelayingLinked(s, u);
      RegisterLinked(FreeRelaying(s, u), u);
      WithoutSize(s.peers[r].users, u);
      DropUsers(RegisterNeedRelay(FreeRelaying(s, u), u), r)
  }

  /** Takes a relay without users off the list. */
  function StopRelay(s: State, r: Id): State
    requires r in s.peers
  {
    s.(peers := s.peers[r := s.peers[r].(isRelay := false)], relays := Without(s.relays, r))
  }

  lemma StopRelayLinked(s: State, r: Id)
    requires Linked(s) && r in s.peers && s.peers[r].isRelay && s.peers[r].users == []
    ensures Linked(StopRelay(s, r))
  {
    var s' := StopRelay(s, r);
    WithoutMembers(s.relays, r);
    forall q: Id ensures PeerOk(s', q) {
      assert PeerOk(s, q);
    }
    forall q: Id, u: Id ensures UserOk(s', q, u) {
      assert UserOk(s, q, u);
    }
  }

  ghost function DisableRelayProvider(s: State, r: Id): (t: State)
    requires Linked(s) && r in s.peers && s.peers[r].isRelay
    ensures Inv(t) && t.peers.Keys == s.peers.Keys
  {
    var s1 := DropUsers(s, r);
    StopRelayLinked(s1, r);
    AssignRelays(StopRelay(s1, r))
  }

  /** A peer that no longer is a relay still has its link, and nothing else. */
  lemma DisabledRelay(s: State, r: Id)
    requires Linked(s) && r in s.peers && s.peers[r].isRelay
    ensures var x := DisableRelayProvider(s, r).peers[r];
            x.haveLink && !x.isRelay && x.relaying.None? && !x.waiting
  {
    hide Linked;
    LinkedAt(s, r);
    var s1 := DropUsers(s, r);
    StopRelayLinked(s1, r);
    AssignExactly(StopRelay(s1, r), r);
  }

  ghost function EnableRelayProvider(s: State, r: Id): (t: State)
    requires Linked(s) && r in s.peers && s.peers[r].haveLink && !s.peers[r].isRelay
    ensures Inv(t) && t.peers.Keys == s.peers.Keys
  {
    StartRelayLinked(s, r);
    AssignRelays(StartRelay(s, r))
  }

  function StartRelay(s: State, r: Id): State
    requires r in s.peers
  {
    s.(peers := s.peers[r := s.peers[r].(isRelay := true, users := [])], relays := s.relays + [r])
  }

  lemma StartRelayLinked(s: State, r: Id)
    requires Linked(s) && r in s.peers && s.peers[r].haveLink && !s.peers[r].isRelay
    ensures Linked(StartRelay(s, r))
  {
    var s' := StartRelay(s, r);
    assert PeerOk(s, r);
    NoDupSnoc(s.relays, r);
    NoUsers();
    forall q: Id ensures PeerOk(s', q) {
      assert PeerOk(s, q);
    }
    forall q: Id, u: Id ensures UserOk(s', q, u) {
      assert UserOk(s, q, u);
    }
  }

  lemma NoUsers()
    ensures NoDup<Id>([])
  {
  }

  /** Gives up whatever connection the peer has. */
  ghost function Cleanup(s: State, p: Id): (t: State)
    requires Inv(s) && p in s.peers
    ensures Inv(t) && Unconnected(t, p) && t.peers.Keys == s.peers.Keys
  {
    assert PeerOk(s, p);
    var x := s.peers[p];
    if x.haveLink then
      var s1 := if x.isRelay then DisableRelayProvider(s, p) else s;
      assert x.isRelay ==> (DisabledRelay(s, p); true);
      FreeLinkLinked(s1, p);
      FreeLink(s1, p)
    else if x.relaying.Some? then
      RelayingIsRelayed(s, p);
      FreeRelayingLinked(s, p);
      FreeRelaying(s, p)
    else if x.waiting then
      UnregisterLinked(s, p);
      UnregisterNeedRelay(s, p)
    else s
  }

  ghost function NeedRelay(s: State, p: Id): (t: State)
    requires Inv(s) && p in s.peers && !s.peers[p].isRelay
    ensures Inv(t) && t.peers.Keys == s.peers.Keys
  {
    assert PeerOk(s, p);
    var x := s.peers[p];
    if x.waiting then s
    else
      var s1 :=
        if x.haveLink then FreeLinkLinked(s, p); FreeLink(s, p)
        else if x.relaying.Some? then RelayingIsRelayed(s, p); FreeRelayingLinked(s, p); FreeRelaying(s, p)
        else s;
      RegisterLinked(s1, p);
      AssignRelays(RegisterNeedRelay(s1, p))
  }

  /** A peer in need of a relay gets the first one there is; it waits only if there is none. */
  lemma NeedRelayOutcome(s: State, p: Id)
    requires Inv(s) && p in s.peers && !s.peers[p].isRelay
    ensures var t := NeedRelay(s, p);
            && !t.peers[p].haveLink
            && (s.relays == [] ==> t.peers[p].waiting)
            && (s.relays != [] ==> t.peers[p].relaying == Some(s.relays[0]))
  {
    LinkedAt(s, p);
    var x := s.peers[p];
    if !x.waiting {
      if x.haveLink {
        FreeLinkLinked(s, p);
        RegisterLinked(FreeLink(s, p), p);
        AssignExactly(RegisterNeedRelay(FreeLink(s, p), p), p);
      } else if x.relaying.Some? {
        RelayingIsRelayed(s, p);
        FreeRelayingLinked(s, p);
        RegisterLinked(FreeRelaying(s, p), p);
        AssignExactly(RegisterNeedRelay(FreeRelaying(s, p), p), p);
      } else {
        RegisterLinked(s, p);
        AssignExactly(RegisterNeedRelay(s, p), p);
      }
    }
  }

  lemma {:induction false} DropUsersExactly(s: State, r: Id, u: Id)
    requires Linked(s) && r in s.peers && s.peers[r].isRelay && u in s.peers
    ensures var t := DropUsers(s, r);
            if u in s.peers[r].users then t.peers[u].waiting && t.peers[u].relaying.None?
            else u != r ==> t.peers[u] == s.peers[u]
    decreases |s.peers[r].users|
  {
    hide Linked;
    LinkedAt(s, r);
    if s.peers[r].users != [] {
      var v := s.peers[r].users[0];
      UserAt(s, r, v);
      RelayingIsRelayed(s, v);
      FreeRelayingLinked(s, v);
      RegisterLinked(FreeRelaying(s, v), v);
      WithoutSize(s.peers[r].users, v);
      WithoutMembers(s.peers[r].users, v);
      DropUsersExactly(RegisterNeedRelay(FreeRelaying(s, v), v), r, u);
    }
  }

  lemma UserAt(s: State, r: Id, u: Id)
    requires Linked(s)
    ensures UserOk(s, r, u)
  {
  }

  /** When a relay goes, each of its users moves to the first of the others, or waits if there is none. */
  lemma DisableMovesUsers(s: State, r: Id, u: Id)
    requires Linked(s) && r in s.peers && s.peers[r].isRelay && u in s.peers[r].users && u in s.peers
    ensures var t, others := DisableRelayProvider(s, r), Without(s.relays, r);
            && (others == [] ==> t.peers[u].waiting && t.peers[u].relaying.None?)
            && (others != [] ==> !t.peers[u].waiting && t.peers[u].relaying == Some(others[0]))
  {
    hide Linked;
    UserAt(s, r, u);
    LinkedAt(s, r);
    DropUsersExactly(s, r, u);
    var s1 := DropUsers(s, r);
    StopRelayLinked(s1, r);
    AssignExactly(StopRelay(s1, r), u);
  }

  // ---------- runs ----------

  datatype Event =
    | AddPeer(p: Id)
    | RemovePeer(p: Id)
    | LinkUp(p: Id, relayServer: bool)
    | LinkDown(p: Id)
    | AskRelay(p: Id)
    | NewLink(p: Id, ok: bool)
    | Reset(p: Id)

  predicate Enabled(s: State, ev: Event) {
    match ev
    case AddPeer(p) => p !in s.peers
    case RemovePeer(p) => p in s.peers
    case LinkUp(p, _) => p in s.peers && s.peers[p].haveLink
    case LinkDown(p) => p in s.peers && s.peers[p].haveLink
    case AskRelay(p) => p in s.peers && !s.peers[p].isRelay
    case NewLink(p, _) => p in s.peers
    case Reset(p) => p in s.peers
  }

  lemma AddPeerInv(s: State, p: Id)
    requires Inv(s) && p !in s.peers
    ensures Inv(s.(peers := s.peers[p := FRESH]))
  {
    var s' := s.(peers := s.peers[p := FRESH]);
    NoUsers();
    forall q: Id ensures PeerOk(s', q) {
      assert PeerOk(s, q);
    }
    forall r: Id, u: Id ensures UserOk(s', r, u) {
      assert UserOk(s, r, u);
    }
  }

  lemma RemovePeerInv(s: State, p: Id)
    requires Inv(s) && Unconnected(s, p)
    ensures Inv(s.(peers := s.peers - {p}))
  {
    var s' := s.(peers := s.peers - {p});
    assert PeerOk(s, p);
    forall q: Id ensures PeerOk(s', q) {
      assert PeerOk(s, q);
    }
    forall r: Id, u: Id ensures UserOk(s', r, u) {
      assert UserOk(s, r, u);
    }
  }

  ghost function Step(s: State, ev: Event): (t: State)
    requires Inv(s) && Enabled(s, ev)
    ensures Inv(t)
  {
    match ev
    case AddPeer(p) => AddPeerInv(s, p); s.(peers := s.peers[p := FRESH])
    case RemovePeer(p) => RemovePeerInv(Cleanup(s, p), p); var t := Cleanup(s, p); t.(peers := t.peers - {p})
    case LinkUp(p, relayServer) => if relayServer && !s.peers[p].isRelay then EnableRelayProvider(s, p) else s
    case LinkDown(p) => if s.peers[p].isRelay then DisableRelayProvider(s, p) else s
    case AskRelay(p) => NeedRelay(s, p)
    case NewLink(p, ok) =>
      var t := Cleanup(s, p);
      if ok then InitLinkLinked(t, p); InitLink(t, p) else t
    case Reset(p) => Cleanup(s, p)
  }

  ghost predicate Possible(s: State, evs: seq<Event>)
    requires Inv(s)
    decreases |evs|
  {
    evs == [] || (Enabled(s, evs[0]) && Possible(Step(s, evs[0]), evs[1..]))
  }

  ghost function Run(s: State, evs: seq<Event>): (r: State)
    requires Inv(s) && Possible(s, evs)
    ensures Inv(r)
    decreases |evs|
  {
    if evs == [] then s else Run(Step(s, evs[0]), evs[1..])
  }

  lemma InitialInv()
    ensures Inv(Initial())
  {
  }

  /**
   * After every handler of every run: a peer has a link, relays or waits, but no two of these; relays have
   * links; the lists mirror the flags without duplicates; and nobody waits while there is a relay.
   */
  lemma AllocatorInvariant(evs: seq<Event>, p: Id)
    requires (InitialInv(); Possible(Initial(), evs))
    ensures (InitialInv();
             var s := Run(Initial(), evs);
             && NoDup(s.relays) && NoDup(s.waiting)
             && (s.relays == [] || s.waiting == [])
             && (p in s.relays <==> p in s.peers && s.peers[p].isRelay)
             && (p in s.waiting <==> p in s.peers && s.peers[p].waiting)
             && (p in s.peers ==>
                   var x := s.peers[p];
                   && !(x.haveLink && x.relaying.Some?) && !(x.haveLink && x.waiting) && !(x.relaying.Some? && x.waiting)
                   && (x.isRelay ==> x.haveLink)
                   && (forall u: Id :: u in x.users <==> u in s.peers && s.peers[u].relaying == Some(p))
                   && (x.relaying.Some? ==> x.relaying.value in s.peers && s.peers[x.relaying.value].isRelay)))
  {
    InitialInv();
    var s := Run(Initial(), evs);
    assert PeerOk(s, p);
    forall u: Id ensures p in s.peers ==> (u in s.peers[p].users <==> u in s.peers && s.peers[u].relaying == Some(p)) {
      assert UserOk(s, p, u) && PeerOk(s, u);
    }
  }
}
