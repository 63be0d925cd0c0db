/** Runs in which the frame decider does what nobody wants: a frame lost, a peer handed out twice, one that has gone. */
module FrameDeciderCases {
  import opened Options
  import opened Lists
  import M = Multicast
  import opened FrameDecider

  lemma RunOne(cfg: Config, evs: seq<Event>, ev: Event)
    requires cfg.Valid() && Possible(cfg, evs) && Enabled(Run(cfg, evs), ev)
    ensures Possible(cfg, evs + [ev]) && Run(cfg, evs + [ev]) == Step(cfg, Run(cfg, evs), ev)
  {
    var h := evs + [ev];
    hide Step, Inv;
    assert h[..|h| - 1] == evs && h[|h| - 1] == ev;
  }

  const GROUP: M.Group := 5
  const OTHER: M.Group := 5 + M.SIGS

  function ForGroup(): Event {
    Analyze(Frame(GroupMac(GROUP), NotIgmp), 0)
  }

  // ---------- two peers ----------

  const PEERS: seq<Event> := [PeerInit(0), PeerInit(1)]

  lemma TwoPeers(cfg: Config)
    requires cfg.Valid()
    ensures Possible(cfg, PEERS)
    ensures var d := Run(cfg, PEERS);
            d.peers == [0, 1] && d.groups == map[0 := [], 1 := []] && d.ix == M.Empty() && d.decision == Nothing
  {
    hide Inv;
    InitialInv(cfg);
    assert Possible(cfg, []) && Run(cfg, []) == Initial(cfg);
    RunOne(cfg, [], PeerInit(0));
    assert [] + [PeerInit(0)] == [PeerInit(0)];
    RunOne(cfg, [PeerInit(0)], PeerInit(1));
    assert [PeerInit(0)] + [PeerInit(1)] == PEERS;
  }

  /** One peer joins a group that nobody with its signature is in. */
  lemma FirstJoins(cfg: Config, evs: seq<Event>, p: M.Peer, g: M.Group)
    requires cfg.Valid() && Possible(cfg, evs)
    requires var d := Run(cfg, evs); p in d.peers && p in d.groups && d.groups[p] == [] && M.SigOf(g) !in d.ix.tree && d.decision == Nothing
    ensures var evs' := evs + [Joined(p, g, 0)];
            && Possible(cfg, evs')
            && var d, d' := Run(cfg, evs), Run(cfg, evs');
            && d'.peers == d.peers && d'.groups == d.groups[p := [g]] && d'.decision == Nothing
            && M.SigOf(g) in d'.ix.tree && d'.ix.tree[M.SigOf(g)] == (p, g)
            && (p, g) in d'.ix.at && d'.ix.at[(p, g)] in d'.ix.lists && d'.ix.lists[d'.ix.at[(p, g)]] == [(p, g)]
  {
    RunOne(cfg, evs, Joined(p, g, 0));
    var d := Run(cfg, evs);
    hide Inv, Run, Possible, M.SigOf;
    assert d.groups[p] + [g] == [g];
  }

  /** One more member of a group whose only member so far is the master. */
  lemma SecondJoins(cfg: Config, evs: seq<Event>, m: M.Entry, p: M.Peer, g: M.Group)
    requires cfg.Valid() && Possible(cfg, evs) && M.SigOf(g) == M.SigOf(m.1) && m != (p, g)
    requires var d := Run(cfg, evs);
             && p in d.peers && p in d.groups && g !in d.groups[p] && |d.groups[p]| < cfg.maxGroups && d.decision == Nothing
             && M.SigOf(g) in d.ix.tree && d.ix.tree[M.SigOf(g)] == m
             && m in d.ix.at && d.ix.at[m] in d.ix.lists && d.ix.lists[d.ix.at[m]] == [m]
    ensures var evs' := evs + [Joined(p, g, 0)];
            && Possible(cfg, evs')
            && var d, d' := Run(cfg, evs), Run(cfg, evs');
            && d'.peers == d.peers && d'.groups == d.groups[p := d.groups[p] + [g]] && d'.decision == Nothing
            && M.Found(d'.ix, M.SigOf(g)) == [m, (p, g)]
  {
    RunOne(cfg, evs, Joined(p, g, 0));
    var d, e := Run(cfg, evs), (p, g);
    hide Inv, Run, Possible, M.SigOf;
    assert M.InsertAfter([m], m, e) == [m, e];
  }

  /** A frame for the group. */
  lemma GroupFrame(cfg: Config, evs: seq<Event>, es: seq<M.Entry>)
    requires cfg.Valid() && Possible(cfg, evs) && Run(cfg, evs).decision == Nothing
    requires M.Sound(Run(cfg, evs).ix, M.SigOf(GROUP)) && M.Found(Run(cfg, evs).ix, M.SigOf(GROUP)) == es != []
    ensures Possible(cfg, evs + [ForGroup()])
    ensures Run(cfg, evs + [ForGroup()]) == Run(cfg, evs).(decision := Members(es, true))
  {
    GroupMacSig(GROUP);
    RunOne(cfg, evs, ForGroup());
    hide Inv, Run, Possible, M.SigOf, SigOfMac, IsMulticast, GroupMac, M.Found;
  }

  // ---------- a frame that is lost ----------

  const ASKED: seq<Event> := PEERS + [Joined(0, GROUP, 0)] + [ForGroup()] + [NextDestination]

  /**
   * A frame for a group with one member is looked at and its one destination taken, but not the end of the
   * decision; then a broadcast frame goes to nobody, although there are two peers.
   */
  lemma UndrainedLosesBroadcast(cfg: Config)
    requires cfg.Valid()
    ensures Possible(cfg, ASKED)
    ensures var d := Run(cfg, ASKED);
            && Pending(Decide(cfg, d, Frame(BROADCAST, NotIgmp), 0).decision) == []
            && Pending(Fresh(cfg, d, Frame(BROADCAST, NotIgmp))) == [0, 1]
  {
    hide Run, Possible, Inv, M.SigOf;
    TwoPeers(cfg);
    FirstJoins(cfg, PEERS, 0, GROUP);
    var joined := PEERS + [Joined(0, GROUP, 0)];
    GroupFrame(cfg, joined, [(0, GROUP)]);
    RunOne(cfg, joined + [ForGroup()], NextDestination);
  }

  // ---------- a peer that is handed out twice ----------

  const TWICE: seq<Event> := PEERS + [Joined(0, GROUP, 0)] + [Joined(0, OTHER, 0)] + [ForGroup()]

  /** A peer in two groups with the same signature is handed out twice for one frame. */
  lemma HandedOutTwice(cfg: Config)
    requires cfg.Valid() && cfg.maxGroups > 1
    ensures Possible(cfg, TWICE) && Pending(Run(cfg, TWICE).decision) == [0, 0]
  {
    SameSig();
    hide Run, Possible, Inv, M.SigOf;
    TwoPeers(cfg);
    FirstJoins(cfg, PEERS, 0, GROUP);
    var joined := PEERS + [Joined(0, GROUP, 0)];
    SecondJoins(cfg, joined, (0, GROUP), 0, OTHER);
    var both := joined + [Joined(0, OTHER, 0)];
    FoundSound(cfg, both);
    GroupFrame(cfg, both, [(0, GROUP), (0, OTHER)]);
  }

  lemma SameSig()
    ensures M.SigOf(GROUP) == M.SigOf(OTHER) && GROUP != OTHER
  {
  }

  lemma FoundSound(cfg: Config, evs: seq<Event>)
    requires cfg.Valid() && Possible(cfg, evs)
    ensures M.Sound(Run(cfg, evs).ix, M.SigOf(GROUP))
  {
    M.InvSound(Run(cfg, evs).ix, M.SigOf(GROUP));
  }

  // ---------- a peer that has gone ----------

  const LOOSE: seq<Event> := PEERS + [Joined(0, GROUP, 0)] + [Joined(1, GROUP, 0)] + [ForGroup()] + [ForGroup()]

  const STRAY: seq<Event> := LOOSE + [PeerFree(0)]

  lemma LooseRun(cfg: Config)
    requires cfg.Valid()
    ensures Possible(cfg, LOOSE)
    ensures var d := Run(cfg, LOOSE);
            && d.peers == [0, 1] && d.groups == map[0 := [GROUP], 1 := [GROUP]]
            && d.decision == Members([(0, GROUP), (1, GROUP)], false)
  {
    hide Run, Possible, Inv, M.SigOf;
    TwoPeers(cfg);
    FirstJoins(cfg, PEERS, 0, GROUP);
    var joined := PEERS + [Joined(0, GROUP, 0)];
    SecondJoins(cfg, joined, (0, GROUP), 1, GROUP);
    var both := joined + [Joined(1, GROUP, 0)];
    FoundSound(cfg, both);
    GroupFrame(cfg, both, [(0, GROUP), (1, GROUP)]);
    RunOne(cfg, both + [ForGroup()], ForGroup());
    var none: map<M.Peer, seq<M.Group>> := map[0 := [], 1 := []];
    assert none[1] + [GROUP] == [GROUP];
    assert none[0 := [GROUP]][1 := [GROUP]] == map[0 := [GROUP], 1 := [GROUP]];
  }

  /**
   * Two peers are in a group. A frame for the group is looked at, then another before any destination is asked
   * for, and the first peer goes: the next destination is that peer.
   */
  lemma GoneIsHandedOut(cfg: Config)
    requires cfg.Valid()
    ensures Possible(cfg, STRAY)
    ensures var d := Run(cfg, STRAY);
            d.decision.Astray? && 0 !in d.peers && Next(d).0 == Some(0)
  {
    LooseRun(cfg);
    RunOne(cfg, LOOSE, PeerFree(0));
    FirstLeaves(cfg, Run(cfg, LOOSE));
  }

  lemma FirstLeaves(cfg: Config, d: Decider)
    requires Inv(cfg, d) && d.peers == [0, 1] && d.groups == map[0 := [GROUP], 1 := [GROUP]]
    requires d.decision == Members([(0, GROUP), (1, GROUP)], false)
    ensures var d' := FreePeer(cfg, d, 0);
            d'.decision == Astray([(0, GROUP), (1, GROUP)]) && d'.peers == [1]
  {
    var e := (0, GROUP);
    assert IsMember(d, e);
    EntryFacts(cfg, d, e);
    LeaveInv(cfg, d, e);
    var d1 := Leave(d, e);
    assert d1.groups[0] == [] by { assert [GROUP][1..] == []; }
    hide Inv, Leave;
    assert LeaveAll(cfg, d1, 0) == d1;
    assert LeaveAll(cfg, d, 0) == d1;
    assert Without([0, 1], 0) == [1] by { assert [0, 1][1..] == [1] && [1][1..] == []; }
  }
}
