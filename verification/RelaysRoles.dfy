/**
 * Which peer reaches us how after every run, told without lists of users and of those who wait: each peer has one role,
 * and those who need a relay all go through the one that has been a relay for longest.
 */
module RelaysRoles {
  import opened Options
  import opened Lists
  import opened Relays

  datatype Role = Apart | Direct | Provider | Through(relay: Id) | Pending

  /** The roles of the peers, and the relays in the order in which they became relays. */
  datatype Roles = Roles(of: map<Id, Role>, relays: seq<Id>)

  /** Whoever waits goes through the first relay, if there is one. */
  function Settle(t: Roles): Roles {
    if t.relays == [] then t
    else t.(of := map p | p in t.of :: if t.of[p] == Pending then Through(t.relays[0]) else t.of[p])
  }

  function Become(t: Roles, p: Id, role: Role): Roles {
    t.(of := t.of[p := role])
  }

  /** Whoever went through the relay waits. */
  function Abandon(t: Roles, r: Id): Roles {
    t.(of := map p | p in t.of :: if t.of[p] == Through(r) then Pending else t.of[p])
  }

  function Demote(t: Roles, r: Id): Roles {
    Settle(Become(Abandon(t, r).(relays := Without(t.relays, r)), r, Direct))
  }

  function Part(t: Roles, p: Id): Roles {
    Become(if p in t.of && t.of[p] == Provider then Demote(t, p) else t, p, Apart)
  }

  function Next(t: Roles, ev: Event): Roles {
    match ev
    case AddPeer(p) => Become(t, p, Apart)
    case RemovePeer(p) => var t' := Part(t, p); t'.(of := t'.of - {p})
    case LinkUp(p, relayServer) =>
      if relayServer && p in t.of && t.of[p] == Direct then Settle(Become(t, p, Provider).(relays := t.relays + [p])) else t
    case LinkDown(p) => if p in t.of && t.of[p] == Provider then Demote(t, p) else t
    case AskRelay(p) => Settle(Become(t, p, Pending))
    case NewLink(p, ok) => if ok then Become(Part(t, p), p, Direct) else Part(t, p)
    case Reset(p) => Part(t, p)
  }

  function Follow(t: Roles, evs: seq<Event>): Roles
    decreases |evs|
  {
    if evs == [] then t else Follow(Next(t, evs[0]), evs[1..])
  }

  // ---------- the allocator keeps to it ----------

  function RoleOf(x: Peer): Role {
    if x.haveLink then (if x.isRelay then Provider else Direct)
    else if x.relaying.Some? then Through(x.relaying.value)
    else if x.waiting then Pending
    else Apart
  }

  predicate RoleIs(s: State, t: Roles, p: Id) {
    && (p in s.peers <==> p in t.of)
    && (p in s.peers ==> RoleOf(s.peers[p]) == t.of[p])
  }

  ghost predicate Agrees(s: State, t: Roles) {
    && (forall p: Id :: RoleIs(s, t, p))
    && s.relays == t.relays
  }

  lemma RoleAt(s: State, t: Roles, p: Id)
    requires Agrees(s, t)
    ensures RoleIs(s, t, p)
  {
  }

  lemma SettleAgrees(s: State, t: Roles)
    requires Linked(s) && Agrees(s, t)
    ensures Agrees(AssignRelays(s), Settle(t))
  {
    hide Linked, Agrees, AssignRelays;
    assert s.relays == t.relays by { AgreesOnRelays(s, t); }
    forall p: Id ensures RoleIs(AssignRelays(s), Settle(t), p) {
      RoleAt(s, t, p);
      LinkedAt(s, p);
      if p in s.peers {
        AssignExactly(s, p);
      }
    }
    AgreesIf(AssignRelays(s), Settle(t));
  }

  lemma AgreesOnRelays(s: State, t: Roles)
    requires Agrees(s, t)
    ensures s.relays == t.relays
  {
  }

  lemma AgreesIf(s: State, t: Roles)
    requires s.relays == t.relays && forall p: Id :: RoleIs(s, t, p)
    ensures Agrees(s, t)
  {
  }

  lemma AbandonAgrees(s: State, t: Roles, r: Id)
    requires Linked(s) && Agrees(s, t) && r in s.peers && s.peers[r].isRelay
    ensures Agrees(DropUsers(s, r), Abandon(t, r))
  {
    hide Linked, Agrees, DropUsers;
    AgreesOnRelays(s, t);
    forall p: Id ensures RoleIs(DropUsers(s, r), Abandon(t, r), p) {
      RoleAt(s, t, p);
      if p in s.peers {
        DroppedRole(s, r, p);
      }
    }
    AgreesIf(DropUsers(s, r), Abandon(t, r));
  }

  /** Exactly those who relayed through the peer wait. */
  lemma DroppedRole(s: State, r: Id, p: Id)
    requires Linked(s) && r in s.peers && s.peers[r].isRelay && p in s.peers
    ensures RoleOf(DropUsers(s, r).peers[p]) == if RoleOf(s.peers[p]) == Through(r) then Pending else RoleOf(s.peers[p])
  {
    LinkedAt(s, p);
    LinkedAt(s, r);
    UserAt(s, r, p);
    LinkedAt(DropUsers(s, r), p);
    DropUsersExactly(s, r, p);
    hide Linked, DropUsers;
  }

  lemma DemoteAgrees(s: State, t: Roles, r: Id)
    requires Linked(s) && Agrees(s, t) && r in s.peers && s.peers[r].isRelay
    ensures Agrees(DisableRelayProvider(s, r), Demote(t, r))
  {
    AbandonAgrees(s, t, r);
    var s1 := DropUsers(s, r);
    StopRelayLinked(s1, r);
    var s2, t2 := StopRelay(s1, r), Become(Abandon(t, r).(relays := Without(t.relays, r)), r, Direct);
    AgreesOnRelays(s, t);
    forall p: Id ensures RoleIs(s2, t2, p) {
      RoleAt(s1, Abandon(t, r), p);
      LinkedAt(s, r);
    }
    SettleAgrees(s2, t2);
  }

  lemma PromoteAgrees(s: State, t: Roles, r: Id)
    requires Linked(s) && Agrees(s, t) && r in s.peers && s.peers[r].haveLink && !s.peers[r].isRelay
    ensures Agrees(EnableRelayProvider(s, r), Settle(Become(t, r, Provider).(relays := t.relays + [r])))
  {
    StartRelayLinked(s, r);
    var s1, t1 := StartRelay(s, r), Become(t, r, Provider).(relays := t.relays + [r]);
    forall p: Id ensures RoleIs(s1, t1, p) {
      RoleAt(s, t, p);
    }
    SettleAgrees(s1, t1);
  }

  /** Changing one peer's role and the list of those who wait. */
  lemma BecomeAgrees(s: State, t: Roles, p: Id, s': State)
    requires Agrees(s, t) && p in s.peers && p in s'.peers && s'.relays == s.relays && s'.peers.Keys == s.peers.Keys
    requires forall q: Id :: q in s.peers && q != p ==> RoleOf(s'.peers[q]) == RoleOf(s.peers[q])
    ensures Agrees(s', Become(t, p, RoleOf(s'.peers[p])))
  {
    forall q: Id ensures RoleIs(s', Become(t, p, RoleOf(s'.peers[p])), q) {
      assert RoleIs(s, t, q);
    }
  }

  lemma PartAgrees(s: State, t: Roles, p: Id)
    requires Inv(s) && Agrees(s, t) && p in s.peers
    ensures Agrees(Cleanup(s, p), Part(t, p))
  {
    LinkedAt(s, p);
    RoleAt(s, t, p);
    var x := s.peers[p];
    if x.isRelay {
      DemoteAgrees(s, t, p);
      DisabledRelay(s, p);
      var s1 := DisableRelayProvider(s, p);
      FreeLinkLinked(s1, p);
      BecomeAgrees(s1, Demote(t, p), p, FreeLink(s1, p));
    } else if x.haveLink {
      FreeLinkLinked(s, p);
      BecomeAgrees(s, t, p, FreeLink(s, p));
    } else if x.relaying.Some? {
      RelayingIsRelayed(s, p);
      BecomeAgrees(s, t, p, FreeRelaying(s, p));
    } else if x.waiting {
      UnregisterLinked(s, p);
      BecomeAgrees(s, t, p, UnregisterNeedRelay(s, p));
    } else {
      BecomeAgrees(s, t, p, s);
    }
  }

  lemma AskAgrees(s: State, t: Roles, p: Id)
    requires Inv(s) && Agrees(s, t) && p in s.peers && !s.peers[p].isRelay
    ensures Agrees(NeedRelay(s, p), Settle(Become(t, p, Pending)))
  {
    LinkedAt(s, p);
    RoleAt(s, t, p);
    var x := s.peers[p];
    if x.waiting {
      BecomeAgrees(s, t, p, s);
      assert t.of[p := Pending] == t.of;
    } else {
      var s1 := Loose(s, p);
      RegisterLinked(s1, p);
      var s2 := RegisterNeedRelay(s1, p);
      BecomeAgrees(s, t, p, s2);
      SettleAgrees(s2, Become(t, p, Pending));
    }
  }

  /** The peer without its link or its relay. */
  ghost function Loose(s: State, p: Id): (r: State)
    requires Inv(s) && p in s.peers && !s.peers[p].isRelay && !s.peers[p].waiting
    ensures Linked(r) && Unconnected(r, p) && r.relays == s.relays && r.peers.Keys == s.peers.Keys
    ensures forall q: Id :: q in s.peers && q != p ==> RoleOf(r.peers[q]) == RoleOf(s.peers[q])
  {
    assert PeerOk(s, p);
    if s.peers[p].haveLink then FreeLinkLinked(s, p); FreeLink(s, p)
    else if s.peers[p].relaying.Some? then RelayingIsRelayed(s, p); FreeRelayingLinked(s, p); FreeRelaying(s, p)
    else s
  }

  lemma StepAgrees(s: State, t: Roles, ev: Event)
    requires Inv(s) && Agrees(s, t) && Enabled(s, ev)
    ensures Agrees(Step(s, ev), Next(t, ev))
  {
    match ev
    case AddPeer(p) =>
      forall q: Id ensures RoleIs(Step(s, ev), Next(t, ev), q) {
        RoleAt(s, t, q);
      }
    case RemovePeer(p) =>
      PartAgrees(s, t, p);
      forall q: Id ensures RoleIs(Step(s, ev), Next(t, ev), q) {
        RoleAt(Cleanup(s, p), Part(t, p), q);
      }
    case LinkUp(p, relayServer) =>
      RoleAt(s, t, p);
      if relayServer && !s.peers[p].isRelay {
        PromoteAgrees(s, t, p);
      }
    case LinkDown(p) =>
      RoleAt(s, t, p);
      if s.peers[p].isRelay {
        DemoteAgrees(s, t, p);
      }
    case AskRelay(p) => AskAgrees(s, t, p);
    case NewLink(p, ok) =>
      PartAgrees(s, t, p);
      if ok {
        var s1 := Cleanup(s, p);
        BecomeAgrees(s1, Part(t, p), p, InitLink(s1, p));
      }
    case Reset(p) => PartAgrees(s, t, p);
  }

  lemma {:induction false} RunAgrees(s: State, t: Roles, evs: seq<Event>)
    requires Inv(s) && Possible(s, evs) && Agrees(s, t)
    ensures Agrees(Run(s, evs), Follow(t, evs))
    decreases |evs|
  {
    hide Inv, Agrees, Step, Next, Enabled;
    if evs != [] {
      StepAgrees(s, t, evs[0]);
      RunAgrees(Step(s, evs[0]), Next(t, evs[0]), evs[1..]);
    }
  }

  /**
   * After every run each peer has the role that the events give it: a link of its own, a relay for others, the first of
   * the relays to go through, or waiting for one; and the relays are listed in the order in which they became relays.
   */
  lemma RolesExactly(evs: seq<Event>, p: Id)
    requires (InitialInv(); Possible(Initial(), evs))
    ensures (InitialInv();
             var s, t := Run(Initial(), evs), Follow(Roles(map[], []), evs);
             && s.relays == t.relays
             && (p in s.peers <==> p in t.of)
             && (p in s.peers ==> RoleOf(s.peers[p]) == t.of[p]))
  {
    InitialInv();
    RunAgrees(Initial(), Roles(map[], []), evs);
    assert RoleIs(Run(Initial(), evs), Follow(Roles(map[], []), evs), p);
  }
}
