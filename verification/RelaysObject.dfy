/** The peers and the relay lists as the handlers change them, step by step. */
module RelaysObject {
  import opened Options
  import opened Lists
  import R = Relays

  type Id = R.Id

  class Peers {
    var peers: map<Id, R.Peer>
    var relays: seq<Id>
    var waiting: seq<Id>

    ghost function View(): R.State
      reads this
    {
      R.State(peers, relays, waiting)
    }

    ghost predicate Valid()
      reads this
    {
      R.Inv(View())
    }

    constructor ()
      ensures Valid() && View() == R.Initial()
    {
      peers, relays, waiting := map[], [], [];
    }

    // ---------- single steps ----------

    method InitLink(p: Id)
      requires R.Unconnected(View(), p)
      modifies this
      ensures View() == R.InitLink(old(View()), p)
    {
      peers := peers[p := peers[p].(haveLink := true)];
    }

    method FreeLink(p: Id)
      requires p in peers && peers[p].haveLink && !peers[p].isRelay && peers[p].relaying.None? && !peers[p].waiting
      modifies this
      ensures View() == R.FreeLink(old(View()), p)
    {
      peers := peers[p := peers[p].(haveLink := false)];
    }

    method RegisterNeedRelay(p: Id)
      requires R.Unconnected(View(), p)
      modifies this
      ensures View() == R.RegisterNeedRelay(old(View()), p)
    {
      waiting := waiting + [p];
      peers := peers[p := peers[p].(waiting := true)];
    }

    method UnregisterNeedRelay(p: Id)
      requires p in peers && peers[p].waiting && !peers[p].haveLink && peers[p].relaying.None? && !peers[p].isRelay
      modifies this
      ensures View() == R.UnregisterNeedRelay(old(View()), p)
    {
      waiting := Without(waiting, p);
      peers := peers[p := peers[p].(waiting := false)];
    }

    method InstallRelaying(p: Id, r: Id)
      requires R.Unconnected(View(), p) && r in peers && peers[r].isRelay && peers[r].haveLink && p != r
      modifies this
      ensures View() == R.InstallRelaying(old(View()), p, r)
    {
      var users := peers[r].users + [p];
      peers := peers[p := peers[p].(relaying := Some(r))];
      peers := peers[r := peers[r].(users := users)];
    }

    method FreeRelaying(p: Id)
      requires R.Relayed(View(), p)
      modifies this
      ensures View() == R.FreeRelaying(old(View()), p)
    {
      var r := peers[p].relaying.value;
      var users := Without(peers[r].users, p);
      peers := peers[p := peers[p].(relaying := None)];
      peers := peers[r := peers[r].(users := users)];
    }

    // ---------- relays ----------

    /** Gives the first relay to the first one waiting, until nobody waits or there is no relay. */
    method AssignRelays()
      requires R.Linked(View())
      modifies this
      ensures Valid() && View() == R.AssignRelays(old(View()))
    {
      hide R.Linked, R.UnregisterNeedRelay, R.InstallRelaying, Without;
      ghost var all := R.AssignRelays(View());
      while waiting != []
        invariant R.Linked(View()) && R.AssignRelays(View()) == all
        decreases |waiting|
      {
        if relays == [] {
          return;
        }
        var p, r := waiting[0], relays[0];
        R.LinkedAt(View(), p);
        R.UnregisterLinked(View(), p);
        UnregisterKeeps(View(), p);
        R.InstallLinked(R.UnregisterNeedRelay(View(), p), p, r);
        ghost var next := R.AssignOne(View());
        UnregisterNeedRelay(p);
        InstallRelaying(p, r);
        assert View() == next;
      }
    }

    lemma UnregisterKeeps(s: R.State, p: Id)
      requires p in s.peers && s.peers[p].waiting && !s.peers[p].haveLink && s.peers[p].relaying.None? && !s.peers[p].isRelay
      ensures R.UnregisterNeedRelay(s, p).relays == s.relays
    {
    }

    method EnableRelayProvider(r: Id)
      requires R.Linked(View()) && r in peers && peers[r].haveLink && !peers[r].isRelay
      modifies this
      ensures Valid() && View() == R.EnableRelayProvider(old(View()), r)
    {
      R.StartRelayLinked(View(), r);
      relays := relays + [r];
      peers := peers[r := peers[r].(users := [])];
      peers := peers[r := peers[r].(isRelay := true)];
      assert View() == R.StartRelay(old(View()), r);
      AssignRelays();
    }

    /** Makes the users of a relay wait, one after the other. */
    method DropUsers(r: Id)
      requires R.Linked(View()) && r in peers && peers[r].isRelay
      modifies this
      ensures R.Linked(View()) && View() == R.DropUsers(old(View()), r)
    {
      hide R.Linked, R.FreeRelaying, R.RegisterNeedRelay;
      ghost var all := R.DropUsers(View(), r);
      while peers[r].users != []
        invariant R.Linked(View()) && r in peers && peers[r].isRelay
        invariant R.DropUsers(View(), r) == all
        decreases |peers[r].users|
      {
        var u := peers[r].users[0];
        R.UserAt(View(), r, u);
        R.LinkedAt(View(), r);
        R.RelayingIsRelayed(View(), u);
        R.FreeRelayingLinked(View(), u);
        R.RegisterLinked(R.FreeRelaying(View(), u), u);
        DroppedUser(View(), r, u);
        FreeRelaying(u);
        RegisterNeedRelay(u);
      }
    }

    lemma DroppedUser(s: R.State, r: Id, u: Id)
      requires R.Linked(s) && r in s.peers && s.peers[r].isRelay && u in s.peers[r].users && R.Relayed(s, u)
      requires R.Unconnected(R.FreeRelaying(s, u), u)
      ensures var t := R.RegisterNeedRelay(R.FreeRelaying(s, u), u);
              r in t.peers && t.peers[r].isRelay && |t.peers[r].users| < |s.peers[r].users|
    {
      R.UserAt(s, r, u);
      R.LinkedAt(s, r);
      WithoutSize(s.peers[r].users, u);
    }

    method DisableRelayProvider(r: Id)
      requires R.Linked(View()) && r in peers && peers[r].isRelay
      modifies this
      ensures Valid() && View() == R.DisableRelayProvider(old(View()), r)
    {
      hide R.Linked, R.DropUsers;
      DropUsers(r);
      R.StopRelayLinked(View(), r);
      relays := Without(relays, r);
      peers := peers[r := peers[r].(isRelay := false)];
      AssignRelays();
    }

    // ---------- what happens to a peer ----------

    method CleanupConnections(p: Id)
      requires Valid() && p in peers
      modifies this
      ensures Valid() && R.Unconnected(View(), p) && View() == R.Cleanup(old(View()), p)
    {
      hide R.Linked, R.DisableRelayProvider;
      ghost var s := View();
      R.LinkedAt(s, p);
      if peers[p].haveLink {
        if peers[p].isRelay {
          R.DisabledRelay(s, p);
          DisableRelayProvider(p);
        }
        R.FreeLinkLinked(View(), p);
        FreeLink(p);
      } else if peers[p].relaying.Some? {
        R.RelayingIsRelayed(s, p);
        R.FreeRelayingLinked(s, p);
        FreeRelaying(p);
      } else if peers[p].waiting {
        R.UnregisterLinked(s, p);
        UnregisterNeedRelay(p);
      }
    }

    method NeedRelay(p: Id)
      requires Valid() && p in peers && !peers[p].isRelay
      modifies this
      ensures Valid() && View() == R.NeedRelay(old(View()), p)
    {
      hide R.Linked, R.AssignRelays;
      ghost var s := View();
      R.LinkedAt(s, p);
      if peers[p].waiting {
        return;
      }
      if peers[p].haveLink {
        R.FreeLinkLinked(s, p);
        FreeLink(p);
      } else if peers[p].relaying.Some? {
        R.RelayingIsRelayed(s, p);
        R.FreeRelayingLinked(s, p);
        FreeRelaying(p);
      }
      R.RegisterLinked(View(), p);
      RegisterNeedRelay(p);
      AssignRelays();
    }

    /** The link's data protocol reports that it is up or down. */
    method DataProtoHandler(p: Id, up: bool, relayServer: bool)
      requires Valid() && p in peers && peers[p].haveLink
      modifies this
      ensures Valid() && View() == R.Step(old(View()), if up then R.LinkUp(p, relayServer) else R.LinkDown(p))
    {
      hide R.Linked, R.DisableRelayProvider, R.EnableRelayProvider;
      if up {
        if relayServer && !peers[p].isRelay {
          EnableRelayProvider(p);
        }
      } else {
        if peers[p].isRelay {
          DisableRelayProvider(p);
        }
      }
    }

    /** The beginning of binding and of connecting: a fresh link, or a reset if there is none to be had. */
    method FreshLink(p: Id, ok: bool)
      requires Valid() && p in peers
      modifies this
      ensures Valid() && View() == R.Step(old(View()), R.NewLink(p, ok))
    {
      hide R.Cleanup, R.Linked;
      CleanupConnections(p);
      if ok {
        R.InitLinkLinked(View(), p);
        InitLink(p);
      } else {
        CleanupUnconnected(View(), p);
        CleanupConnections(p);
      }
    }

    lemma CleanupUnconnected(s: R.State, p: Id)
      requires R.Inv(s) && R.Unconnected(s, p)
      ensures R.Cleanup(s, p) == s
    {
    }

    method AddPeer(p: Id)
      requires Valid() && p !in peers
      modifies this
      ensures Valid() && View() == R.Step(old(View()), R.AddPeer(p))
    {
      R.AddPeerInv(View(), p);
      peers := peers[p := R.FRESH];
    }

    method RemovePeer(p: Id)
      requires Valid() && p in peers
      modifies this
      ensures Valid() && View() == R.Step(old(View()), R.RemovePeer(p))
    {
      hide R.Cleanup, R.Linked;
      CleanupConnections(p);
      R.RemovePeerInv(View(), p);
      peers := peers - {p};
    }
  }
}
