/** Memberships over whole runs: which one a join ends, and when each of them ends by itself. */
module FrameDeciderJoins {
  import opened Lists
  import opened FrameDecider
  import opened FrameDeciderRuns
  import M = Multicast
  import T = MacTable

  // ---------- when a membership was last reported ----------

  /** The position of the last report of the membership among the first `n` events, or -1. */
  function LastJoin(evs: seq<Event>, n: nat, e: M.Entry): (k: int)
    requires n <= |evs|
    ensures -1 <= k < n
    ensures k >= 0 ==> evs[k].Joined? && (evs[k].peer, evs[k].group) == e
    ensures forall i :: k < i < n && evs[i].Joined? ==> (evs[i].peer, evs[i].group) != e
  {
    if n == 0 then -1
    else if evs[n - 1].Joined? && (evs[n - 1].peer, evs[n - 1].group) == e then n - 1
    else LastJoin(evs, n - 1, e)
  }

  /** The groups of a peer after an event, the one reported least recently first. */
  ghost function GroupsAfter(cfg: Config, d: Decider, ev: Event, p: M.Peer): seq<M.Group>
    requires p in d.groups || ev == PeerInit(p)
  {
    if p !in d.groups then []
    else if ev.Joined? && ev.peer == p then
      (if ev.group in d.groups[p] then Without(d.groups[p], ev.group)
       else if |d.groups[p]| < cfg.maxGroups || d.groups[p] == [] then d.groups[p]
       else Without(d.groups[p], d.groups[p][0]))
      + [ev.group]
    else if ev.Expired? && ev.entry.0 == p then Without(d.groups[p], ev.entry.1)
    else d.groups[p]
  }

  lemma {:induction false} LeaveAllGroups(cfg: Config, d: Decider, o: M.Peer, p: M.Peer)
    requires Inv(cfg, d) && o in d.groups && p != o
    ensures p in LeaveAll(cfg, d, o).groups <==> p in d.groups
    ensures p in d.groups ==> LeaveAll(cfg, d, o).groups[p] == d.groups[p]
    decreases |d.groups[o]|
  {
    if d.groups[o] != [] {
      var e := (o, d.groups[o][0]);
      assert IsMember(d, e);
      EntryFacts(cfg, d, e);
      LeaveInv(cfg, d, e);
      LeaveSize(cfg, d, e);
      var d1 := Leave(d, e);
      assert p in d1.groups <==> p in d.groups;
      assert p in d.groups ==> d1.groups[p] == d.groups[p];
      hide Inv, Leave;
      LeaveAllGroups(cfg, d1, o, p);
    }
  }

  lemma JoinGroups(cfg: Config, d: Decider, o: M.Peer, g: M.Group, now: int, p: M.Peer)
    requires Inv(cfg, d) && o in d.peers && o in d.groups
    ensures var d' := Join(cfg, d, o, g, now);
            && (p in d'.groups <==> p in d.groups)
            && (p in d.groups ==> d'.groups[p] == GroupsAfter(cfg, d, Joined(o, g, now), p))
  {
    assert GroupsOk(cfg, d, o);
    hide M.Inv, M.Add, M.Remove, Skip, NoDup, Without;
    if g !in d.groups[o] && |d.groups[o]| == cfg.maxGroups {
      var e := (o, d.groups[o][0]);
      assert IsMember(d, e);
      EntryFacts(cfg, d, e);
    }
  }

  lemma StepGroups(cfg: Config, d: Decider, ev: Event, p: M.Peer)
    requires Inv(cfg, d) && Enabled(d, ev) && p in Step(cfg, d, ev).groups
    ensures p in d.groups || ev == PeerInit(p)
    ensures Step(cfg, d, ev).groups[p] == GroupsAfter(cfg, d, ev, p)
  {
    match ev
    case PeerInit(o) => assert GroupsOk(cfg, d, p);
    case PeerFree(o) =>
      assert GroupsOk(cfg, d, o);
      if p != o {
        LeaveAllGroups(cfg, d, o, p);
      }
    case Seen(o, mac) =>
    case Joined(o, g, now) =>
      assert GroupsOk(cfg, d, o);
      JoinGroups(cfg, d, o, g, now, p);
    case Expired(e) => EntryFacts(cfg, d, e);
    case Analyze(frame, now) =>
    case NextDestination =>
  }

  // ---------- the order of a peer's groups ----------

  /** The list is in the order of the last reports. */
  ghost predicate Recent(evs: seq<Event>, n: nat, p: M.Peer, groups: seq<M.Group>)
    requires n <= |evs|
  {
    && NoDup(groups)
    && (forall g: M.Group :: g in groups ==> LastJoin(evs, n, (p, g)) >= 0)
    && (forall g: M.Group, h: M.Group :: Above(groups, g, h) ==> LastJoin(evs, n, (p, g)) < LastJoin(evs, n, (p, h)))
  }

  lemma RecentWithout(evs: seq<Event>, n: nat, p: M.Peer, groups: seq<M.Group>, x: M.Group)
    requires n <= |evs| && Recent(evs, n, p, groups)
    ensures Recent(evs, n, p, Without(groups, x)) && x !in Without(groups, x)
  {
    hide LastJoin;
    WithoutMembers(groups, x);
    forall g: M.Group, h: M.Group | Above(Without(groups, x), g, h) ensures LastJoin(evs, n, (p, g)) < LastJoin(evs, n, (p, h)) {
      AboveWithout(groups, x, g, h);
    }
  }

  /** One more event: those it does not report keep their place, and the one it reports comes last. */
  lemma RecentLater(evs: seq<Event>, n: nat, p: M.Peer, groups: seq<M.Group>)
    requires n < |evs| && Recent(evs, n, p, groups)
    requires evs[n].Joined? && evs[n].peer == p ==> evs[n].group !in groups
    ensures Recent(evs, n + 1, p, groups)
    ensures evs[n].Joined? && evs[n].peer == p ==> Recent(evs, n + 1, p, groups + [evs[n].group])
  {
    assert forall g: M.Group :: g in groups ==> LastJoin(evs, n + 1, (p, g)) == LastJoin(evs, n, (p, g));
    hide LastJoin;
    forall g: M.Group, h: M.Group | Above(groups, g, h) ensures LastJoin(evs, n + 1, (p, g)) < LastJoin(evs, n + 1, (p, h)) {
      AboveMembers(groups, g, h);
    }
    if evs[n].Joined? && evs[n].peer == p {
      RecentSnoc(evs, n, p, groups);
    }
  }

  lemma RecentSnoc(evs: seq<Event>, n: nat, p: M.Peer, groups: seq<M.Group>)
    requires n < |evs| && Recent(evs, n + 1, p, groups) && evs[n].Joined? && evs[n].peer == p && evs[n].group !in groups
    ensures Recent(evs, n + 1, p, groups + [evs[n].group])
  {
    var x := evs[n].group;
    NoDupSnoc(groups, x);
    assert LastJoin(evs, n + 1, (p, x)) == n;
    forall g: M.Group | g in groups ensures LastJoin(evs, n + 1, (p, g)) < n {
      assert (p, g) != (p, x);
    }
    hide LastJoin;
    forall g: M.Group, h: M.Group | Above(groups + [x], g, h) ensures LastJoin(evs, n + 1, (p, g)) < LastJoin(evs, n + 1, (p, h)) {
      AboveSnoc(groups, x, g, h);
    }
  }

  lemma {:induction false} RunRecent(cfg: Config, evs: seq<Event>, n: nat, p: M.Peer)
    requires cfg.Valid() && Possible(cfg, evs) && n <= |evs| && p in At(cfg, evs, n).groups
    ensures Recent(evs, n, p, At(cfg, evs, n).groups[p])
    decreases n
  {
    AtStart(cfg, evs);
    assert n > 0;
    var k := n - 1;
    AtStep(cfg, evs, k);
    var d, ev := At(cfg, evs, k), evs[k];
    StepGroups(cfg, d, ev, p);
    hide At, Step, Inv, Recent;
    if p !in d.groups {
      NoneRecent(evs, n, p);
    } else {
      RunRecent(cfg, evs, k, p);
      var groups := d.groups[p];
      if ev.Joined? && ev.peer == p {
        RecentWithout(evs, k, p, groups, ev.group);
        WithoutAbsent(groups, ev.group);
        if ev.group !in groups && groups != [] && |groups| >= cfg.maxGroups {
          RecentWithout(evs, k, p, groups, groups[0]);
          NoDupOf(evs, k, p, groups);
          WithoutMembers(groups, groups[0]);
          RecentLater(evs, k, p, Without(groups, groups[0]));
        } else {
          RecentLater(evs, k, p, Without(groups, ev.group));
        }
      } else if ev.Expired? && ev.entry.0 == p {
        RecentWithout(evs, k, p, groups, ev.entry.1);
        RecentLater(evs, k, p, Without(groups, ev.entry.1));
      } else {
        RecentLater(evs, k, p, groups);
      }
    }
  }

  lemma NoneRecent(evs: seq<Event>, n: nat, p: M.Peer)
    requires n <= |evs|
    ensures Recent(evs, n, p, [])
  {
  }

  lemma NoDupOf(evs: seq<Event>, n: nat, p: M.Peer, groups: seq<M.Group>)
    requires n <= |evs| && Recent(evs, n, p, groups)
    ensures NoDup(groups)
  {
  }

  lemma FirstAbove(groups: seq<M.Group>, g: M.Group)
    requires NoDup(groups) && g in groups && groups[0] != g
    ensures Above(groups, groups[0], g)
  {
  }

  /** The membership of the reporting peer that was itself reported least recently. */
  ghost predicate LeastRecent(cfg: Config, evs: seq<Event>, n: nat, e: M.Entry)
    requires cfg.Valid() && Possible(cfg, evs) && n <= |evs|
  {
    && IsMember(At(cfg, evs, n), e)
    && forall g: M.Group :: IsMember(At(cfg, evs, n), (e.0, g)) && g != e.1 ==>
                              LastJoin(evs, n, e) < LastJoin(evs, n, (e.0, g))
  }

  /**
   * In every run: a join ends a membership if and only if its peer has as many as it may have and the group is
   * not among them, and then it is the one of that peer whose last report is the earliest.
   */
  lemma JoinEndsLeastRecent(cfg: Config, evs: seq<Event>, n: nat, e: M.Entry)
    requires cfg.Valid() && Possible(cfg, evs) && n < |evs| && evs[n].Joined?
    ensures var d := At(cfg, evs, n);
            IsMember(d, e) && !IsMember(At(cfg, evs, n + 1), e) <==>
            && e.0 == evs[n].peer && LeastRecent(cfg, evs, n, e)
            && !IsMember(d, (e.0, evs[n].group)) && e.0 in d.groups && |d.groups[e.0]| == cfg.maxGroups
  {
    hide At, Inv, LastJoin, LeastRecent, IsMember, Possible;
    AtStep(cfg, evs, n);
    EndedIsFirst(cfg, At(cfg, evs, n), evs[n], e);
    LeastMember(cfg, evs, n, e);
    if e.0 == evs[n].peer && At(cfg, evs, n).groups[e.0] != [] {
      LeastIsFirst(cfg, evs, n, e.0, e);
    }
  }

  lemma EndedIsFirst(cfg: Config, d: Decider, ev: Event, e: M.Entry)
    requires Inv(cfg, d) && ev.Joined? && Enabled(d, ev)
    ensures ev.peer in d.groups && cfg.maxGroups > 0
    ensures IsMember(d, e) && !IsMember(Step(cfg, d, ev), e) <==>
            && e.0 == ev.peer && d.groups[e.0] != [] && e == (e.0, d.groups[e.0][0])
            && !IsMember(d, (e.0, ev.group)) && |d.groups[e.0]| == cfg.maxGroups
  {
    assert GroupsOk(cfg, d, ev.peer);
    hide Inv, Join;
    JoinInv(cfg, d, ev.peer, ev.group, ev.now);
  }

  lemma LeastMember(cfg: Config, evs: seq<Event>, n: nat, e: M.Entry)
    requires cfg.Valid() && Possible(cfg, evs) && n <= |evs|
    ensures LeastRecent(cfg, evs, n, e) ==> e.0 in At(cfg, evs, n).groups && At(cfg, evs, n).groups[e.0] != []
  {
    hide At, LastJoin;
  }

  lemma LeastIsFirst(cfg: Config, evs: seq<Event>, n: nat, o: M.Peer, e: M.Entry)
    requires cfg.Valid() && Possible(cfg, evs) && n <= |evs| && e.0 == o
    requires o in At(cfg, evs, n).groups && At(cfg, evs, n).groups[o] != []
    ensures LeastRecent(cfg, evs, n, e) <==> e == (o, At(cfg, evs, n).groups[o][0])
  {
    RunRecent(cfg, evs, n, o);
    hide At, LastJoin;
    var groups := At(cfg, evs, n).groups[o];
    var first := groups[0];
    forall h: M.Group | h in groups && h != first ensures LastJoin(evs, n, (o, first)) < LastJoin(evs, n, (o, h)) {
      FirstAbove(groups, h);
    }
    assert IsMember(At(cfg, evs, n), (o, first));
  }

  // ---------- when a membership ends by itself ----------

  /** A query for the group is looked at, so that its members have only so long to report again. */
  predicate Queries(d: Decider, ev: Event, g: M.Group) {
    ev.Analyze? && ev.frame.Frame? && ev.frame.igmp == Query(g) && !Open(d.decision)
  }

  /**
   * When a membership ends, as the events say: an interval after its last report, or sooner if the group was
   * queried since.
   */
  ghost function EndOf(cfg: Config, evs: seq<Event>, n: nat, e: M.Entry): int
    requires cfg.Valid() && Possible(cfg, evs) && n <= |evs|
  {
    if n == 0 then 0
    else
      var ev, before := evs[n - 1], EndOf(cfg, evs, n - 1, e);
      if ev.Joined? && (ev.peer, ev.group) == e then ev.now + cfg.interval
      else if Queries(At(cfg, evs, n - 1), ev, e.1) && ev.now + cfg.lmqt < before then ev.now + cfg.lmqt
      else before
  }

  /** The end of a membership that goes on is changed only by its own reports and by queries for its group. */
  lemma StepEnds(cfg: Config, d: Decider, ev: Event, e: M.Entry)
    requires Inv(cfg, d) && Enabled(d, ev) && IsMember(Step(cfg, d, ev), e)
    ensures e in Step(cfg, d, ev).ends
    ensures var end := Step(cfg, d, ev).ends[e];
            if ev.Joined? && (ev.peer, ev.group) == e then end == ev.now + cfg.interval
            else
              && e in d.ends && IsMember(d, e)
              && end == if Queries(d, ev, e.1) && ev.now + cfg.lmqt < d.ends[e] then ev.now + cfg.lmqt else d.ends[e]
  {
    StepInv(cfg, d, ev);
    assert EntryOk(Step(cfg, d, ev), e) && EntryOk(d, e);
    match ev
    case PeerInit(o) => NewMember(cfg, d, o);
    case PeerFree(o) =>
      assert GroupsOk(cfg, d, o);
      FreePeerInv(cfg, d, o);
      LeaveAllEnds(cfg, d, o, e);
    case Seen(o, mac) =>
    case Joined(o, g, now) =>
      assert GroupsOk(cfg, d, o);
      JoinInv(cfg, d, o, g, now);
      JoinEnds(cfg, d, o, g, now, e);
    case Expired(x) =>
      EntryFacts(cfg, d, x);
      LeaveInv(cfg, d, x);
    case Analyze(frame, now) => DecideEnds(cfg, d, frame, now, e);
    case NextDestination =>
  }

  lemma DecideEnds(cfg: Config, d: Decider, frame: Frame, now: int, e: M.Entry)
    requires Inv(cfg, d) && IsMember(d, e) && e in d.ends
    ensures var d' := Decide(cfg, d, frame, now);
            && e in d'.ends
            && d'.ends[e] == if Queries(d, Analyze(frame, now), e.1) && now + cfg.lmqt < d.ends[e] then now + cfg.lmqt else d.ends[e]
  {
    if frame.Frame? && frame.igmp.Query? && !Open(d.decision) {
      QueryLowersExactly(cfg, d, frame.dest, frame.igmp.group, now, e);
    }
    hide Inv, Fresh, Lowered, M.Found;
  }

  lemma JoinEnds(cfg: Config, d: Decider, o: M.Peer, g: M.Group, now: int, e: M.Entry)
    requires Inv(cfg, d) && o in d.peers && o in d.groups
    requires IsMember(Join(cfg, d, o, g, now), e)
    ensures var ends := Join(cfg, d, o, g, now).ends;
            if e == (o, g) then e in ends && ends[e] == now + cfg.interval
            else e in d.ends ==> e in ends && ends[e] == d.ends[e]
  {
    JoinInv(cfg, d, o, g, now);
    assert GroupsOk(cfg, d, o);
    hide M.Inv, M.Add, M.Remove, Skip, NoDup, Without, T.Inv;
    if g !in d.groups[o] && |d.groups[o]| == cfg.maxGroups {
      var x := (o, d.groups[o][0]);
      assert IsMember(d, x);
      EntryFacts(cfg, d, x);
    }
  }

  lemma {:induction false} LeaveAllEnds(cfg: Config, d: Decider, o: M.Peer, e: M.Entry)
    requires Inv(cfg, d) && o in d.groups && e.0 != o && e in d.ends
    ensures e in LeaveAll(cfg, d, o).ends && LeaveAll(cfg, d, o).ends[e] == d.ends[e]
    decreases |d.groups[o]|
  {
    if d.groups[o] != [] {
      var x := (o, d.groups[o][0]);
      assert IsMember(d, x);
      EntryFacts(cfg, d, x);
      LeaveInv(cfg, d, x);
      LeaveSize(cfg, d, x);
      var d1 := Leave(d, x);
      assert e in d1.ends && d1.ends[e] == d.ends[e];
      hide Inv, Leave;
      LeaveAllEnds(cfg, d1, o, e);
    }
  }

  /** In every run, each membership is due to end when its reports and the queries for its group say. */
  lemma {:induction false} EndsExactly(cfg: Config, evs: seq<Event>, n: nat, e: M.Entry)
    requires cfg.Valid() && Possible(cfg, evs) && n <= |evs| && IsMember(At(cfg, evs, n), e)
    ensures e in At(cfg, evs, n).ends && At(cfg, evs, n).ends[e] == EndOf(cfg, evs, n, e)
    decreases n
  {
    NoneAtStart(cfg, evs, e);
    assert n > 0;
    hide At, Step, Inv, IsMember, Queries, EndOf, Possible;
    var k := n - 1;
    AtStep(cfg, evs, k);
    StepEnds(cfg, At(cfg, evs, k), evs[k], e);
    EndOfStep(cfg, evs, k, e);
    if !(evs[k].Joined? && (evs[k].peer, evs[k].group) == e) {
      EndsExactly(cfg, evs, k, e);
    }
  }

  lemma NoneAtStart(cfg: Config, evs: seq<Event>, e: M.Entry)
    requires cfg.Valid() && Possible(cfg, evs)
    ensures !IsMember(At(cfg, evs, 0), e)
  {
    AtStart(cfg, evs);
  }

  lemma EndOfStep(cfg: Config, evs: seq<Event>, k: nat, e: M.Entry)
    requires cfg.Valid() && Possible(cfg, evs) && k < |evs|
    ensures var before := EndOf(cfg, evs, k, e);
            EndOf(cfg, evs, k + 1, e) ==
            if evs[k].Joined? && (evs[k].peer, evs[k].group) == e then evs[k].now + cfg.interval
            else if Queries(At(cfg, evs, k), evs[k], e.1) && evs[k].now + cfg.lmqt < before then evs[k].now + cfg.lmqt
            else before
  {
  }
}
