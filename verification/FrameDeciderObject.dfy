/** The frame decider as an object: the address entries, the group index and the decision, changed in place. */
module FrameDeciderObject {
  import opened Options
  import opened Lists
  import T = MacTable
  import opened MacEntriesObject
  import opened Multicast
  import D = FrameDecider

  class Decider {
    const cfg: D.Config
    const macs: Macs
    var peers: seq<Peer>
    var groups: map<Peer, seq<Group>>
    var ends: map<Entry, int>
    var lists: map<nat, seq<Entry>>
    var at: map<Entry, nat>
    var master: set<Entry>
    var tree: map<Sig, Entry>
    var next: nat
    var decision: D.Decision

    ghost function Ix(): Index
      reads this
    {
      Index(lists, at, master, tree, next)
    }

    ghost function View(): D.Decider
      requires macs.Valid()
      reads this, macs
    {
      D.Decider(peers, macs.Table(), groups, ends, Ix(), decision)
    }

    ghost predicate Valid()
      reads this, macs
    {
      macs.Valid() && macs.max == cfg.maxMacs && D.Inv(cfg, View())
    }

    constructor (cfg: D.Config)
      requires cfg.Valid()
      ensures Valid() && fresh(macs) && this.cfg == cfg && View() == D.Initial(cfg)
    {
      this.cfg := cfg;
      macs := new Macs(cfg.maxMacs);
      peers, groups, ends := [], map[], map[];
      lists, at, master, tree, next := map[], map[], {}, map[], 0;
      decision := D.Nothing;
      new;
      D.InitialInv(cfg);
    }

    // ---------- the index ----------

    /** Links an entry to those with the same signature, after their master, or makes it the master. */
    method AddToMulticast(e: Entry)
      requires Sound(Ix(), SigOf(e.1)) && e !in master
      modifies this`lists, this`at, this`master, this`tree, this`next, this`decision
      ensures Ix() == Add(old(Ix()), e)
      ensures decision == if old(decision).Members? && SigOf(e.1) in old(tree) && old(tree)[SigOf(e.1)] in old(decision).entries
                          then old(decision).(entries := InsertAfter(old(decision).entries, old(tree)[SigOf(e.1)], e)) else old(decision)
    {
      var sig := SigOf(e.1);
      if sig in tree {
        var m := tree[sig];
        var l := at[m];
        lists := lists[l := InsertAfter(lists[l], m, e)];
        at := at[e := l];
        if decision.Members? && m in decision.entries {
          decision := D.Members(InsertAfter(decision.entries, m, e), decision.linked);
        }
      } else {
        master := master + {e};
        tree := tree[sig := e];
        lists := lists[next := [e]];
        at := at[e := next];
        next := next + 1;
      }
    }

    /** Unlinks an entry; a master hands its place to a neighbour. A linked iterator on the entry moves on. */
    method RemoveFromMulticast(e: Entry)
      requires e in at && at[e] in lists && e in lists[at[e]] && NoDup(lists[at[e]])
      modifies this`lists, this`at, this`master, this`tree, this`decision
      ensures Ix() == Remove(old(Ix()), e)
      ensures decision == D.Skip(old(decision), e)
    {
      var l := at[e];
      var sig := SigOf(e.1);
      if e in master {
        tree := tree - {sig};
        if |lists[l]| > 1 {
          var m := NextOrPrev(lists[l], e);
          master := master + {m};
          tree := tree[sig := m];
          NextIsOther(lists[l], e);
          assert master - {e} == old(master) - {e} + {m};
          assert tree == old(tree)[sig := m];
        }
      }
      master := master - {e};
      if |lists[l]| == 1 {
        lists := lists - {l};
      } else {
        lists := lists[l := Without(lists[l], e)];
      }
      at := at - {e};
      if decision.Members? {
        if !decision.linked && decision.entries != [] && decision.entries[0] == e {
          decision := D.Astray(decision.entries);
        } else {
          decision := D.Members(Without(decision.entries, e), decision.linked);
        }
      }
    }

    // ---------- groups ----------

    /** Facts about an entry that is in use. */
    lemma EntryLinked(e: Entry)
      requires Valid() && D.IsMember(View(), e)
      ensures e in at && at[e] in lists && e in lists[at[e]] && NoDup(lists[at[e]]) && e.0 in groups
    {
      D.EntryFacts(cfg, View(), e);
      assert ListOk(Ix(), at[e]);
    }

    lemma NotLinked(e: Entry)
      requires Valid() && !D.IsMember(View(), e)
      ensures e !in master && Sound(Ix(), SigOf(e.1))
    {
      assert D.EntryOk(View(), e) && EntryOk(Ix(), e);
      InvSound(Ix(), SigOf(e.1));
    }

    lemma PeerFacts(o: Peer)
      requires Valid() && o in peers
      ensures cfg.Valid() && o in groups && o in macs.Table().lists && o in macs.used
      ensures NoDup(groups[o]) && |groups[o]| <= cfg.maxGroups
    {
      assert D.GroupsOk(cfg, View(), o);
    }

    /** Ends a membership; also what the membership's timer does. */
    method RemoveGroupEntry(e: Entry)
      requires Valid() && D.IsMember(View(), e)
      modifies this
      ensures Valid() && View() == D.Step(cfg, old(View()), D.Expired(e))
    {
      hide D.Inv, Remove, Without;
      D.StepInv(cfg, View(), D.Expired(e));
      EntryLinked(e);
      RemoveFromMulticast(e);
      groups := groups[e.0 := Without(groups[e.0], e.1)];
      ends := ends - {e};
    }

    /** Ends the peer's oldest membership if it can have no more. */
    method MakeRoom(o: Peer, ghost g: Group)
      requires Valid() && o in peers && o in groups && g !in groups[o]
      modifies this
      ensures Valid() && View() == D.MakeRoom(cfg, old(View()), o)
      ensures o in groups && g !in groups[o] && o in peers
    {
      hide D.Inv, D.Decide, D.Join, D.FreePeer, D.Next, Without;
      PeerFacts(o);
      if |groups[o]| == cfg.maxGroups {
        var e := (o, groups[o][0]);
        ghost var d := View();
        assert D.IsMember(d, e) && !D.IsMember(d, (o, g));
        EntryLinked(e);
        D.LeaveInv(cfg, d, e);
        RemoveGroupEntry(e);
        assert !D.IsMember(View(), (o, g));
        GroupsOfPeers(o);
      }
    }

    lemma GroupsOfPeers(o: Peer)
      requires Valid() && o in groups
      ensures o in peers
    {
      assert D.GroupsOk(cfg, View(), o);
    }

    lemma JoinStep(o: Peer, g: Group, now: int)
      requires Valid() && o in peers
      ensures D.Step(cfg, View(), D.Joined(o, g, now)) == D.Join(cfg, View(), o, g, now)
    {
      hide D.Join, D.Inv;
    }

    /** A peer reports that it is in a group. */
    method AddGroupToPeer(o: Peer, g: Group, now: int)
      requires Valid() && o in peers
      modifies this
      ensures Valid() && View() == D.Step(cfg, old(View()), D.Joined(o, g, now))
    {
      hide D.Inv, D.Step, D.MakeRoom, Add, Remove, Without, InsertAfter;
      ghost var d := View();
      D.StepInv(cfg, d, D.Joined(o, g, now));
      PeerFacts(o);
      assert D.Step(cfg, d, D.Joined(o, g, now)) == D.Join(cfg, d, o, g, now) by { JoinStep(o, g, now); }
      if g in groups[o] {
        groups := groups[o := Without(groups[o], g)];
        groups := groups[o := groups[o] + [g]];
        assert groups == d.groups[o := Without(d.groups[o], g) + [g]];
      } else {
        MakeRoom(o, g);
        NotLinked((o, g));
        groups := groups[o := groups[o] + [g]];
        AddToMulticast((o, g));
      }
      ends := ends[(o, g) := now + cfg.interval];
    }

    /** Lowers the ends of all memberships in a group, going through the entries with its signature. */
    method LowerGroupTimersToLmqt(g: Group, now: int)
      requires Sound(Ix(), SigOf(g))
      modifies this`ends
      ensures ends == D.Lowered(old(ends), Found(Ix(), SigOf(g)), g, now + cfg.lmqt)
    {
      var sig := SigOf(g);
      if sig !in tree {
        return;
      }
      var list := lists[at[tree[sig]]];
      ghost var all := D.Lowered(ends, list, g, now + cfg.lmqt);
      for k := 0 to |list|
        invariant D.Lowered(ends, list[k..], g, now + cfg.lmqt) == all
      {
        var e := list[k];
        assert list[k..][0] == e && list[k..][1..] == list[k + 1..];
        if e.1 == g {
          if e in ends && ends[e] > now + cfg.lmqt {
            ends := ends[e := now + cfg.lmqt];
          }
        }
      }
    }

    // ---------- decisions ----------

    lemma SigFacts(s: Sig)
      requires Valid()
      ensures Sound(Ix(), s)
      ensures s in tree <==> Found(Ix(), s) != []
      ensures s in tree ==> Found(Ix(), s) == lists[at[tree[s]]]
    {
      InvSound(Ix(), s);
      FoundExactly(Ix(), s);
    }

    lemma HolderFacts(mac: T.Mac)
      requires Valid()
      ensures forall p: Peer :: T.Holds(macs.Table(), p, mac) <==> D.HolderOf(macs.Table(), mac) == Some(p)
    {
      assert T.Single(macs.Table(), mac);
    }

    /** Looks at a frame and starts deciding where it goes. */
    method AnalyzeAndDecide(frame: D.Frame, now: int)
      requires Valid()
      modifies this
      ensures Valid() && View() == D.Step(cfg, old(View()), D.Analyze(frame, now))
    {
      hide D.Inv, D.FreePeer, D.Join, D.Next, D.Leave, D.NewPeer, Found, D.Lowered;
      ghost var d := View();
      D.StepInv(cfg, d, D.Analyze(frame, now));
      if decision.Members? {
        decision := D.Members(decision.entries, false);
        return;
      } else if decision.Astray? {
        return;
      }
      if frame.Frame? {
        SigFacts(D.SigOfMac(frame.dest));
        HolderFacts(frame.dest);
        if frame.igmp.Query? {
          SigFacts(SigOf(frame.igmp.group));
        }
      }
      decision := D.Nothing;
      if frame.Short? {
        return;
      }
      if frame.igmp.Query? {
        LowerGroupTimersToLmqt(frame.igmp.group, now);
      }
      if !frame.igmp.NotIgmp? || frame.dest == D.BROADCAST {
        decision := D.Flood(peers);
        return;
      }
      if D.IsMulticast(frame.dest) {
        var sig := D.SigOfMac(frame.dest);
        if sig in tree {
          decision := D.Members(lists[at[tree[sig]]], true);
        }
        return;
      }
      var holder := macs.Lookup(frame.dest);
      if holder.Some? {
        decision := D.Unicast(holder.value);
      } else {
        decision := D.Flood(peers);
      }
    }

    /** Hands out the next peer of the decision. */
    method NextDestination() returns (r: Option<Peer>)
      requires Valid()
      modifies this`decision
      ensures Valid() && View() == D.Step(cfg, old(View()), D.NextDestination)
      ensures r == D.Next(old(View())).0
    {
      D.StepInv(cfg, View(), D.NextDestination);
      match decision
      case Nothing => r := None;
      case Unicast(p) =>
        decision := D.Nothing;
        r := Some(p);
      case Flood(ps) =>
        if ps == [] {
          decision := D.Nothing;
          r := None;
        } else {
          decision := D.Flood(ps[1..]);
          r := Some(ps[0]);
        }
      case Members(es, _) =>
        if es == [] {
          decision := D.Nothing;
          r := None;
        } else {
          decision := D.Members(es[1..], true);
          r := Some(es[0].0);
        }
      case Astray(es) =>
        if es == [] {
          decision := D.Nothing;
          r := None;
        } else {
          decision := D.Astray(es[1..]);
          r := Some(es[0].0);
        }
    }

    /** What the client does with a frame: decides, and takes destinations until there are no more. */
    method Forward(frame: D.Frame, now: int) returns (ps: seq<Peer>)
      requires Valid() && !D.Open(decision)
      modifies this
      ensures Valid() && decision == D.Nothing
      ensures ps == D.Pending(D.Fresh(cfg, old(View()), frame))
    {
      hide D.Inv, D.Pending, D.Fresh;
      ghost var d := View();
      AnalyzeAndDecide(frame, now);
      ghost var all := D.Pending(decision);
      ps := [];
      var p := Take();
      while p.Some?
        invariant Valid()
        invariant all == ps + (if p.Some? then [p.value] else []) + D.Pending(decision)
        invariant p.None? ==> D.Pending(decision) == [] && decision == D.Nothing
        decreases |D.Pending(decision)|, if p.Some? then 1 else 0
      {
        ps := ps + [p.value];
        p := Take();
      }
    }

    /** The next destination, in terms of those that are pending. */
    method Take() returns (r: Option<Peer>)
      requires Valid()
      modifies this`decision
      ensures Valid()
      ensures old(D.Pending(decision)) == [] ==> r == None && decision == D.Nothing && D.Pending(decision) == []
      ensures old(D.Pending(decision)) != [] ==> r.Some? && old(D.Pending(decision)) == [r.value] + D.Pending(decision)
    {
      hide D.Inv, D.Fresh;
      D.NextHandsOut(View());
      r := NextDestination();
    }

    // ---------- peers ----------

    method PeerInit(o: Peer)
      requires Valid() && o !in peers
      modifies this, macs
      ensures Valid() && View() == D.Step(cfg, old(View()), D.PeerInit(o))
    {
      hide D.Inv;
      D.StepInv(cfg, View(), D.PeerInit(o));
      NoPeer(o);
      macs.PeerInit(o);
      peers := peers + [o];
      groups := groups[o := []];
      if decision.Flood? && decision.peers != [] {
        decision := D.Flood(decision.peers + [o]);
      }
    }

    lemma NoPeer(o: Peer)
      requires Valid() && o !in peers
      ensures o !in macs.used
    {
      assert D.GroupsOk(cfg, View(), o);
    }

    /** A frame from the peer: its source address is the peer's. */
    method PeerSeen(o: Peer, mac: T.Mac)
      requires Valid() && o in peers
      modifies macs
      ensures Valid() && View() == D.Step(cfg, old(View()), D.Seen(o, mac))
    {
      hide D.Inv;
      D.StepInv(cfg, View(), D.Seen(o, mac));
      PeerFacts(o);
      macs.AddMacToPeer(o, mac);
    }

    /** Ends all memberships of the peer, one after the other. */
    method LeaveGroups(o: Peer)
      requires Valid() && o in peers && o in groups
      modifies this
      ensures Valid() && View() == D.LeaveAll(cfg, old(View()), o)
    {
      hide D.Inv, D.Leave, D.Decide, D.Join, D.FreePeer, D.Next;
      ghost var all := D.LeaveAll(cfg, View(), o);
      while groups[o] != []
        invariant Valid() && o in groups && o in peers
        invariant D.LeaveAll(cfg, View(), o) == all
        decreases |groups[o]|
      {
        var e := (o, groups[o][0]);
        assert D.IsMember(View(), e);
        EntryLinked(e);
        D.LeaveSize(cfg, View(), e);
        RemoveGroupEntry(e);
        PeerFacts(o);
      }
    }

    /** Takes the peer out of a decision that has yet to come to it. */
    method PassOver(o: Peer)
      modifies this`decision
      ensures decision == D.PassOver(old(decision), o)
    {
      if decision == D.Unicast(o) {
        decision := D.Nothing;
      } else if decision.Flood? {
        decision := D.Flood(Without(decision.peers, o));
      }
    }

    lemma FreeStep(o: Peer)
      requires Valid() && o in peers && o in groups
      ensures D.Step(cfg, View(), D.PeerFree(o)) == D.FreePeer(cfg, View(), o)
    {
      hide D.FreePeer, D.Inv;
    }

    /** The peer goes, and is taken out of everything. */
    method PeerFree(o: Peer)
      requires Valid() && o in peers
      modifies this, macs
      ensures Valid() && View() == D.Step(cfg, old(View()), D.PeerFree(o))
    {
      hide D.Inv, D.Step, D.LeaveAll, D.PassOver, Without;
      ghost var d := View();
      D.StepInv(cfg, d, D.PeerFree(o));
      PeerFacts(o);
      assert D.Step(cfg, d, D.PeerFree(o)) == D.FreePeer(cfg, d, o) by { FreeStep(o); }
      LeaveGroups(o);
      PeerFacts(o);
      macs.PeerFree(o);
      PassOver(o);
      peers := Without(peers, o);
      groups := groups - {o};
    }
  }
}
