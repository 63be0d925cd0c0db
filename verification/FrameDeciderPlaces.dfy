/**
 * What becomes of a decision while peers come and go and memberships begin and end: it keeps its place in the
 * list that it goes through, and passes over exactly those that have gone.
 */
module FrameDeciderPlaces {
  import opened Lists
  import opened FrameDecider
  import opened FrameDeciderRuns
  import M = Multicast

  // ---------- the end of a list ----------

  predicate Suffix<X(==)>(s: seq<X>, list: seq<X>) {
    |s| <= |list| && s == list[|list| - |s|..]
  }

  /** What follows the beginning of a list is a suffix of it, and the whole list is one of itself. */
  lemma SuffixCases<X>(s: seq<X>, list: seq<X>)
    requires Suffix(s, list) && list != [] && |s| < |list|
    ensures Suffix(s, list[1..])
  {
  }

  lemma SuffixCons<X>(s: seq<X>, list: seq<X>, x: X)
    requires Suffix(s, list)
    ensures Suffix(s, [x] + list)
  {
  }

  lemma SuffixWhole<X>(s: seq<X>, list: seq<X>)
    requires Suffix(s, list) && |s| == |list|
    ensures s == list
  {
  }

  lemma {:induction false} SuffixWithout<X(!new)>(s: seq<X>, list: seq<X>, x: X)
    requires Suffix(s, list)
    ensures Suffix(Without(s, x), Without(list, x))
  {
    if |s| == |list| {
      SuffixWhole(s, list);
    } else {
      SuffixCases(s, list);
      SuffixWithout(s, list[1..], x);
      if list[0] != x {
        SuffixCons(Without(s, x), Without(list[1..], x), list[0]);
      }
    }
  }

  lemma SuffixSnoc<X>(s: seq<X>, list: seq<X>, x: X)
    requires Suffix(s, list)
    ensures Suffix(s + [x], list + [x])
  {
  }

  lemma {:induction false} SuffixInsert(s: seq<M.Entry>, list: seq<M.Entry>, ref: M.Entry, e: M.Entry)
    requires Suffix(s, list) && NoDup(list) && ref in list
    ensures Suffix(if ref in s then M.InsertAfter(s, ref, e) else s, M.InsertAfter(list, ref, e))
  {
    if |s| == |list| {
      SuffixWhole(s, list);
    } else {
      SuffixCases(s, list);
      SuffixMembers(s, list[1..], list[0]);
      assert list == [list[0]] + list[1..];
      if list[0] == ref {
        SuffixCons(s, list[1..], e);
        SuffixCons(s, [e] + list[1..], ref);
        assert [ref, e] + list[1..] == [ref] + ([e] + list[1..]);
      } else {
        SuffixInsert(s, list[1..], ref, e);
        SuffixCons(if ref in s then M.InsertAfter(s, ref, e) else s, M.InsertAfter(list[1..], ref, e), list[0]);
      }
    }
  }

  lemma SuffixMembers<X>(s: seq<X>, list: seq<X>, x: X)
    requires Suffix(s, list) && x !in list
    ensures x !in s
  {
  }

  // ---------- the place of a decision ----------

  /** A decision is at a place in the list of peers, or in the list of the entries with a signature. */
  ghost predicate PlaceOk(d: Decider) {
    match d.decision
    case Flood(ps) => Suffix(ps, d.peers)
    case Members(es, _) => InPlace(d.ix, es)
    case _ => true
  }

  ghost predicate InPlace(ix: M.Index, es: seq<M.Entry>) {
    es != [] ==> es[0] in ix.at && ix.at[es[0]] in ix.lists && Suffix(es, ix.lists[ix.at[es[0]]])
  }

  lemma PlaceList(ix: M.Index, es: seq<M.Entry>, e: M.Entry)
    requires M.Inv(ix) && InPlace(ix, es) && e in es
    ensures e in ix.at && ix.at[e] == ix.at[es[0]]
  {
    var l := ix.at[es[0]];
    assert M.ListOk(ix, l);
    assert e in ix.lists[l] by {
      var k :| 0 <= k < |es| && es[k] == e;
      assert ix.lists[l][|ix.lists[l]| - |es| + k] == e;
    }
    assert M.InList(ix, l, e);
  }

  /** What is left of each list when an entry goes. */
  lemma RemovedListIs(ix: M.Index, e: M.Entry, l: nat)
    requires M.Inv(ix) && e in ix.at && ix.at[e] in ix.lists && e in ix.lists[ix.at[e]] && l in ix.lists
    requires l == ix.at[e] ==> |ix.lists[l]| > 1
    ensures var ix' := M.Remove(ix, e);
            && l in ix'.lists && ix'.lists[l] == Without(ix.lists[l], e)
            && forall x: M.Entry :: x in ix.at && x != e ==> x in ix'.at && ix'.at[x] == ix.at[x]
  {
    assert M.ListOk(ix, l);
    if l != ix.at[e] {
      assert !M.InList(ix, l, e);
      WithoutAbsent(ix.lists[l], e);
    }
    hide M.Inv, NoDup;
  }

  lemma RemovePlace(ix: M.Index, es: seq<M.Entry>, e: M.Entry)
    requires M.Inv(ix) && InPlace(ix, es)
    requires e in ix.at && ix.at[e] in ix.lists && e in ix.lists[ix.at[e]]
    ensures InPlace(M.Remove(ix, e), Without(es, e))
  {
    hide M.Inv, M.Remove, Without;
    var rest := Without(es, e);
    if rest != [] {
      WithoutNone(es, e);
      var l := ix.at[es[0]];
      FirstOfRest(es, e);
      PlaceList(ix, es, rest[0]);
      SuffixWithout(es, ix.lists[l], e);
      OnlyOne(ix, es, e);
      RemovedListIs(ix, e, l);
    }
  }

  lemma WithoutNone(es: seq<M.Entry>, e: M.Entry)
    ensures Without(es, e) != [] ==> es != []
  {
  }

  lemma FirstOfRest(es: seq<M.Entry>, e: M.Entry)
    requires Without(es, e) != []
    ensures Without(es, e)[0] in es && Without(es, e)[0] != e
  {
  }

  /** If anything is left after the entry has gone, it was not alone in its list. */
  lemma OnlyOne(ix: M.Index, es: seq<M.Entry>, e: M.Entry)
    requires M.Inv(ix) && InPlace(ix, es) && es != [] && Without(es, e) != [] && e in ix.at && ix.at[e] in ix.lists
    requires e in ix.lists[ix.at[e]]
    ensures ix.at[e] == ix.at[es[0]] ==> |ix.lists[ix.at[e]]| > 1
  {
    FirstOfRest(es, e);
    var x := Without(es, e)[0];
    PlaceList(ix, es, x);
    if ix.at[e] == ix.at[es[0]] && |ix.lists[ix.at[e]]| == 1 {
      assert M.EntryOk(ix, x);
      assert x in ix.lists[ix.at[e]];
    }
  }

  lemma AddPlace(ix: M.Index, es: seq<M.Entry>, e: M.Entry)
    requires M.Inv(ix) && InPlace(ix, es) && e !in ix.at && M.Sound(ix, M.SigOf(e.1))
    ensures InPlace(M.Add(ix, e), Inserted(ix, es, e))
  {
    if es != [] {
      var l, sig := ix.at[es[0]], M.SigOf(e.1);
      assert M.ListOk(ix, l) && M.ListOk(ix, ix.next);
      assert es[0] in es;
      if sig in ix.tree {
        var m := ix.tree[sig];
        assert M.EntryOk(ix, m) && M.TreeOk(ix, sig);
        InsertFirst(es, m, e);
        if ix.at[m] == l {
          SuffixInsert(es, ix.lists[l], m, e);
        } else if m in es {
          PlaceList(ix, es, m);
        }
      }
    }
  }

  /** What becomes of the entries that are pending when one is added: it follows its master, if that is pending. */
  function Inserted(ix: M.Index, es: seq<M.Entry>, e: M.Entry): seq<M.Entry> {
    var sig := M.SigOf(e.1);
    if sig in ix.tree && ix.tree[sig] in es then M.InsertAfter(es, ix.tree[sig], e) else es
  }

  lemma InsertFirst(es: seq<M.Entry>, ref: M.Entry, e: M.Entry)
    requires es != []
    ensures M.InsertAfter(es, ref, e) != [] && M.InsertAfter(es, ref, e)[0] == es[0]
  {
  }

  // ---------- every event keeps it ----------

  lemma LeavePlace(cfg: Config, d: Decider, e: M.Entry)
    requires Inv(cfg, d) && IsMember(d, e) && PlaceOk(d)
    requires e in d.ix.at && d.ix.at[e] in d.ix.lists && e in d.ix.lists[d.ix.at[e]]
    ensures PlaceOk(Leave(d, e))
  {
    hide M.Inv, M.Remove, Without, InPlace;
    if d.decision.Members? {
      RemovePlace(d.ix, d.decision.entries, e);
    }
  }

  lemma EnterPlace(cfg: Config, d: Decider, e: M.Entry, end: int)
    requires Inv(cfg, d) && e.0 in d.groups && !IsMember(d, e) && M.Sound(d.ix, M.SigOf(e.1)) && PlaceOk(d)
    ensures PlaceOk(Enter(d, e, end))
  {
    assert EntryOk(d, e);
    hide M.Inv, M.Add, InPlace;
    if d.decision.Members? {
      AddPlace(d.ix, d.decision.entries, e);
    }
  }

  lemma {:induction false} LeaveAllPlace(cfg: Config, d: Decider, o: M.Peer)
    requires Inv(cfg, d) && o in d.groups && PlaceOk(d)
    ensures PlaceOk(LeaveAll(cfg, d, o))
    decreases |d.groups[o]|
  {
    if d.groups[o] != [] {
      var e := (o, d.groups[o][0]);
      assert IsMember(d, e);
      EntryFacts(cfg, d, e);
      LeaveInv(cfg, d, e);
      LeaveSize(cfg, d, e);
      hide Inv, Leave, PlaceOk;
      LeavePlace(cfg, d, e);
      LeaveAllPlace(cfg, Leave(d, e), o);
    }
  }

  lemma JoinPlace(cfg: Config, d: Decider, o: M.Peer, g: M.Group, now: int)
    requires Inv(cfg, d) && o in d.peers && PlaceOk(d)
    ensures PlaceOk(Join(cfg, d, o, g, now))
  {
    assert GroupsOk(cfg, d, o);
    if g !in d.groups[o] {
      assert !IsMember(d, (o, g));
      var d1 := MakeRoom(cfg, d, o);
      if |d.groups[o]| == cfg.maxGroups {
        var e := (o, d.groups[o][0]);
        assert IsMember(d, e);
        EntryFacts(cfg, d, e);
        LeaveInv(cfg, d, e);
        LeavePlace(cfg, d, e);
      }
      M.InvSound(d1.ix, M.SigOf(g));
      hide Inv, Leave, Enter, PlaceOk;
      EnterPlace(cfg, d1, (o, g), now + cfg.interval);
    }
  }

  lemma StepPlace(cfg: Config, d: Decider, ev: Event)
    requires Inv(cfg, d) && Enabled(d, ev) && PlaceOk(d)
    ensures PlaceOk(Step(cfg, d, ev))
  {
    match ev
    case PeerInit(o) =>
      if d.decision.Flood? {
        SuffixSnoc(d.decision.peers, d.peers, o);
      }
    case PeerFree(o) =>
      assert GroupsOk(cfg, d, o);
      LeaveAllPlace(cfg, d, o);
      if d.decision.Flood? {
        SuffixWithout(d.decision.peers, d.peers, o);
      }
    case Seen(o, mac) =>
    case Joined(o, g, now) => JoinPlace(cfg, d, o, g, now);
    case Expired(e) =>
      EntryFacts(cfg, d, e);
      LeavePlace(cfg, d, e);
    case Analyze(frame, now) => DecidePlace(cfg, d, frame, now);
    case NextDestination => NextPlace(cfg, d);
  }

  lemma NextPlace(cfg: Config, d: Decider)
    requires Inv(cfg, d) && PlaceOk(d)
    ensures PlaceOk(Next(d).1)
  {
    if d.decision.Members? && |d.decision.entries| > 1 {
      var es := d.decision.entries;
      PlaceList(d.ix, es, es[1]);
      assert es[1..][0] == es[1];
    }
  }

  lemma DecidePlace(cfg: Config, d: Decider, frame: Frame, now: int)
    requires Inv(cfg, d) && PlaceOk(d)
    ensures PlaceOk(Decide(cfg, d, frame, now))
  {
    if frame.Frame? && !Open(d.decision) {
      var s := SigOfMac(frame.dest);
      M.InvSound(d.ix, s);
      M.FoundExactly(d.ix, s);
      FoundPlace(d.ix, s);
    }
    hide Inv, M.Found, Lowered;
  }

  lemma FoundPlace(ix: M.Index, s: M.Sig)
    requires M.Inv(ix) && M.Sound(ix, s)
    ensures InPlace(ix, M.Found(ix, s))
  {
    if s in ix.tree {
      var l := ix.at[ix.tree[s]];
      assert M.ListOk(ix, l);
      assert M.InList(ix, l, ix.lists[l][0]);
    }
  }

  /** In every run, a decision that is not astray goes through the rest of a list, from its place to the end. */
  lemma {:induction false} RunPlace(cfg: Config, evs: seq<Event>, n: nat)
    requires cfg.Valid() && Possible(cfg, evs) && n <= |evs|
    ensures PlaceOk(At(cfg, evs, n))
    decreases n
  {
    AtStart(cfg, evs);
    if n > 0 {
      AtStep(cfg, evs, n - 1);
      hide At, Step, Inv, PlaceOk;
      RunPlace(cfg, evs, n - 1);
      StepPlace(cfg, At(cfg, evs, n - 1), evs[n - 1]);
    }
  }

  // ---------- who is passed over ----------

  function StillPeers(ps: seq<M.Peer>, d: Decider): seq<M.Peer> {
    if ps == [] then [] else (if ps[0] in d.peers then [ps[0]] else []) + StillPeers(ps[1..], d)
  }

  function StillMembers(es: seq<M.Entry>, d: Decider): seq<M.Entry> {
    if es == [] then [] else (if IsMember(d, es[0]) then [es[0]] else []) + StillMembers(es[1..], d)
  }

  /** The same, except that a new entry may have come in, but not in front. */
  predicate WithNew(es: seq<M.Entry>, still: seq<M.Entry>, e: M.Entry) {
    && Without(es, e) == still
    && (es == [] <==> still == []) && (es != [] ==> es[0] == still[0])
  }

  /**
   * What an event that neither looks at a frame nor hands out a peer leaves of a decision: exactly those that
   * are still there, in order. A new peer is flooded too, unless the end has been reached; a new member comes
   * in somewhere after the first.
   */
  ghost predicate Passes(d: Decider, ev: Event, d': Decider) {
    match d.decision
    case Nothing => d'.decision == Nothing
    case Unicast(p) => d'.decision == if p in d'.peers then Unicast(p) else Nothing
    case Flood(ps) => d'.decision == Flood(StillPeers(ps, d') + if ev.PeerInit? && ps != [] then [ev.peer] else [])
    case Members(es, linked) =>
      linked || es == [] || IsMember(d', es[0]) ==>
        && d'.decision.Members? && d'.decision.linked == linked
        && (if ev.Joined? && !IsMember(d, (ev.peer, ev.group))
            then WithNew(d'.decision.entries, StillMembers(es, d'), (ev.peer, ev.group))
            else d'.decision.entries == StillMembers(es, d'))
    case Astray(es) => d'.decision == d.decision
  }

  lemma {:induction false} StillAll(es: seq<M.Entry>, d: Decider)
    requires forall e: M.Entry :: e in es ==> IsMember(d, e)
    ensures StillMembers(es, d) == es
  {
    if es != [] {
      StillAll(es[1..], d);
      assert es == [es[0]] + es[1..];
    }
  }

  lemma {:induction false} StillWithout(es: seq<M.Entry>, d: Decider, d': Decider, x: M.Entry)
    requires forall e: M.Entry :: e in es ==> (IsMember(d', e) <==> IsMember(d, e) && e != x)
    ensures StillMembers(es, d') == StillMembers(Without(es, x), d)
  {
    if es != [] {
      StillWithout(es[1..], d, d', x);
      assert es == [es[0]] + es[1..];
      if es[0] != x {
        var r := [es[0]] + Without(es[1..], x);
        assert r[1..] == Without(es[1..], x);
      }
    }
  }

  /** Which entries are left depends only on which of them are members. */
  lemma {:induction false} StillSame(es: seq<M.Entry>, d: Decider, d': Decider)
    requires forall e: M.Entry :: e in es ==> (IsMember(d', e) <==> IsMember(d, e))
    ensures StillMembers(es, d') == StillMembers(es, d)
  {
    if es != [] {
      StillSame(es[1..], d, d');
      assert es == [es[0]] + es[1..];
    }
  }

  lemma {:induction false} StillPeersWithout(ps: seq<M.Peer>, d: Decider, o: M.Peer, d': Decider)
    requires forall p: M.Peer :: p in ps ==> p in d.peers
    requires forall p: M.Peer :: p in d'.peers <==> p in d.peers && p != o
    ensures StillPeers(ps, d') == Without(ps, o)
  {
    if ps != [] {
      assert ps == [ps[0]] + ps[1..];
      StillPeersWithout(ps[1..], d, o, d');
    }
  }

  lemma {:induction false} StillPeersAll(ps: seq<M.Peer>, d: Decider)
    requires forall p: M.Peer :: p in ps ==> p in d.peers
    ensures StillPeers(ps, d) == ps
  {
    if ps != [] {
      assert ps == [ps[0]] + ps[1..];
      StillPeersAll(ps[1..], d);
    }
  }

  /** The iterator is linked, or at the end, or stands on an entry that stays. */
  predicate Safe(decision: Decision, d': Decider) {
    decision.Members? && (decision.linked || decision.entries == [] || IsMember(d', decision.entries[0]))
  }

  lemma EntriesAreMembers(cfg: Config, d: Decider)
    requires Inv(cfg, d) && d.decision.Members?
    ensures forall e: M.Entry :: e in d.decision.entries ==> IsMember(d, e)
    ensures NoDup(d.decision.entries)
  {
  }

  lemma LeavePasses(cfg: Config, d: Decider, x: M.Entry)
    requires Inv(cfg, d) && IsMember(d, x)
    requires x in d.ix.at && d.ix.at[x] in d.ix.lists && x in d.ix.lists[d.ix.at[x]] && Safe(d.decision, Leave(d, x))
    ensures Leave(d, x).decision == Members(Without(d.decision.entries, x), d.decision.linked)
    ensures StillMembers(d.decision.entries, Leave(d, x)) == Without(d.decision.entries, x)
  {
    var es, d' := d.decision.entries, Leave(d, x);
    LeaveInv(cfg, d, x);
    EntriesAreMembers(cfg, d);
    WithoutMembers(es, x);
    hide Inv, M.Remove, IsMember;
    StillWithout(es, d, d', x);
    StillAll(Without(es, x), d);
  }

  lemma {:induction false} LeaveAllPasses(cfg: Config, d: Decider, o: M.Peer)
    requires Inv(cfg, d) && o in d.groups && Safe(d.decision, LeaveAll(cfg, d, o))
    ensures LeaveAll(cfg, d, o).decision == Members(StillMembers(d.decision.entries, LeaveAll(cfg, d, o)), d.decision.linked)
    decreases |d.groups[o]|
  {
    EntriesAreMembers(cfg, d);
    var es := d.decision.entries;
    if d.groups[o] == [] {
      StillAll(es, d);
    } else {
      var x := (o, d.groups[o][0]);
      assert IsMember(d, x);
      EntryFacts(cfg, d, x);
      LeaveInv(cfg, d, x);
      LeaveSize(cfg, d, x);
      var d1, d2 := Leave(d, x), LeaveAll(cfg, d, o);
      hide Inv, Leave, IsMember, LeaveAll;
      assert d2 == LeaveAll(cfg, d1, o) by { LeaveAllStep(cfg, d, o); }
      LeaveAllMembers(cfg, d1, o);
      assert Safe(d.decision, d1);
      LeavePasses(cfg, d, x);
      if !d.decision.linked && es != [] {
        SafeWithout(es, x, d2);
      }
      LeaveAllPasses(cfg, d1, o);
      StillWithout(es, d2, d2, x);
    }
  }

  lemma LeaveAllStep(cfg: Config, d: Decider, o: M.Peer)
    requires Inv(cfg, d) && o in d.groups && d.groups[o] != []
    requires var x := (o, d.groups[o][0]); x in d.ix.at && d.ix.at[x] in d.ix.lists && x in d.ix.lists[d.ix.at[x]]
    requires var d1 := Leave(d, (o, d.groups[o][0])); Inv(cfg, d1) && o in d1.groups
    ensures LeaveAll(cfg, d, o) == LeaveAll(cfg, Leave(d, (o, d.groups[o][0])), o)
  {
  }

  lemma SafeWithout(es: seq<M.Entry>, x: M.Entry, d: Decider)
    requires es != [] && IsMember(d, es[0]) && !IsMember(d, x)
    ensures Without(es, x) != [] && Without(es, x)[0] == es[0]
  {
  }

  lemma {:induction false} InsertWithout(es: seq<M.Entry>, ref: M.Entry, e: M.Entry)
    requires e !in es && ref != e
    ensures Without(if ref in es then M.InsertAfter(es, ref, e) else es, e) == es
  {
    WithoutAbsent(es, e);
    if ref in es {
      var r := M.InsertAfter(es, ref, e);
      assert es == [es[0]] + es[1..];
      if es[0] == ref {
        WithoutAbsent(es[1..], e);
        assert r[1..] == [e] + es[1..] && r[1..][1..] == es[1..];
      } else {
        assert r[1..] == M.InsertAfter(es[1..], ref, e);
        InsertWithout(es[1..], ref, e);
      }
    }
  }

  /** A new entry goes after its master, if that is pending. */
  lemma EnterPasses(cfg: Config, d: Decider, e: M.Entry, end: int)
    requires Inv(cfg, d) && e.0 in d.groups && !IsMember(d, e) && M.Sound(d.ix, M.SigOf(e.1)) && d.decision.Members?
    ensures var r := Enter(d, e, end).decision;
            r.Members? && r.linked == d.decision.linked && WithNew(r.entries, d.decision.entries, e)
  {
    var es, sig := d.decision.entries, M.SigOf(e.1);
    EntriesAreMembers(cfg, d);
    assert e !in es;
    hide Inv, M.Add, M.SigOf, IsMember;
    WithoutAbsent(es, e);
    if sig in d.ix.tree && d.ix.tree[sig] in es {
      InsertWithout(es, d.ix.tree[sig], e);
      InsertFirst(es, d.ix.tree[sig], e);
    }
  }

  lemma JoinPasses(cfg: Config, d: Decider, o: M.Peer, g: M.Group, now: int)
    requires Inv(cfg, d) && o in d.peers && d.decision.Members? && Safe(d.decision, Join(cfg, d, o, g, now))
    ensures Passes(d, Joined(o, g, now), Join(cfg, d, o, g, now))
  {
    assert GroupsOk(cfg, d, o);
    var es, d', end := d.decision.entries, Join(cfg, d, o, g, now), now + cfg.interval;
    EntriesAreMembers(cfg, d);
    JoinInv(cfg, d, o, g, now);
    if g in d.groups[o] {
      StillAll(es, d');
    } else if |d.groups[o]| < cfg.maxGroups {
      M.InvSound(d.ix, M.SigOf(g));
      EnterPasses(cfg, d, (o, g), end);
      StillAll(es, d');
    } else {
      var x := (o, d.groups[o][0]);
      assert IsMember(d, x) && !IsMember(d, (o, g)) && !IsMember(d', x);
      EntryFacts(cfg, d, x);
      LeaveInv(cfg, d, x);
      LeaveRoom(cfg, d, x);
      var d1 := Leave(d, x);
      M.InvSound(d1.ix, M.SigOf(g));
      assert d' == Enter(d1, (o, g), end);
      EvictPasses(cfg, d, x, (o, g), end);
    }
  }

  lemma EvictPasses(cfg: Config, d: Decider, x: M.Entry, e: M.Entry, end: int)
    requires Inv(cfg, d) && IsMember(d, x) && !IsMember(d, e) && e.0 in d.groups && d.decision.Members?
    requires x in d.ix.at && d.ix.at[x] in d.ix.lists && x in d.ix.lists[d.ix.at[x]]
    requires var d1 := Leave(d, x); Inv(cfg, d1) && M.Sound(d1.ix, M.SigOf(e.1)) && e.0 in d1.groups && |d1.groups[e.0]| < cfg.maxGroups
    requires Safe(d.decision, Enter(Leave(d, x), e, end))
    ensures var r, d' := Enter(Leave(d, x), e, end).decision, Enter(Leave(d, x), e, end);
            r.Members? && r.linked == d.decision.linked && WithNew(r.entries, StillMembers(d.decision.entries, d'), e)
  {
    var es, d1 := d.decision.entries, Leave(d, x);
    var d' := Enter(d1, e, end);
    EntriesAreMembers(cfg, d);
    LeaveInv(cfg, d, x);
    EnterInv(cfg, d1, e, end);
    hide Inv, Leave, Enter, IsMember, M.SigOf;
    assert Safe(d.decision, d1) by {
      if es != [] {
        assert es[0] in es && es[0] != e;
      }
    }
    LeavePasses(cfg, d, x);
    EnterPasses(cfg, d1, e, end);
    StillSame(es, d1, d');
  }

  /** Every event that neither looks at a frame nor hands out a peer passes over exactly those that have gone. */
  lemma StepPasses(cfg: Config, d: Decider, ev: Event)
    requires Inv(cfg, d) && Enabled(d, ev) && !ev.Analyze? && !ev.NextDestination?
    ensures Passes(d, ev, Step(cfg, d, ev))
  {
    var d' := Step(cfg, d, ev);
    if d.decision.Members? {
      if Safe(d.decision, d') {
        MembersPass(cfg, d, ev);
      }
    } else {
      OthersPass(cfg, d, ev);
    }
  }

  lemma MembersPass(cfg: Config, d: Decider, ev: Event)
    requires Inv(cfg, d) && Enabled(d, ev) && !ev.Analyze? && !ev.NextDestination? && Safe(d.decision, Step(cfg, d, ev))
    ensures Passes(d, ev, Step(cfg, d, ev))
  {
    var es, d' := d.decision.entries, Step(cfg, d, ev);
    EntriesAreMembers(cfg, d);
    match ev
    case PeerInit(o) =>
      NewMember(cfg, d, o);
      StillAll(es, d');
    case PeerFree(o) =>
      assert GroupsOk(cfg, d, o);
      FreePeerInv(cfg, d, o);
      LeaveAllMembers(cfg, d, o);
      LeaveAllPasses(cfg, d, o);
      StillSame(es, LeaveAll(cfg, d, o), d');
    case Seen(o, mac) => StillAll(es, d');
    case Joined(o, g, now) => JoinPasses(cfg, d, o, g, now);
    case Expired(e) =>
      EntryFacts(cfg, d, e);
      LeavePasses(cfg, d, e);
  }

  lemma OthersPass(cfg: Config, d: Decider, ev: Event)
    requires Inv(cfg, d) && Enabled(d, ev) && !ev.Analyze? && !ev.NextDestination? && !d.decision.Members?
    ensures Passes(d, ev, Step(cfg, d, ev))
  {
    var d' := Step(cfg, d, ev);
    if d.decision.Flood? {
      FloodPasses(cfg, d, ev);
    } else if ev.PeerFree? {
      assert GroupsOk(cfg, d, ev.peer);
      LeaveAllAstray(cfg, d, ev.peer);
      WithoutMembers(d.peers, ev.peer);
    } else {
      hide M.Inv, M.Add, M.Remove, Without;
    }
  }

  lemma {:induction false} LeaveAllAstray(cfg: Config, d: Decider, o: M.Peer)
    requires Inv(cfg, d) && o in d.groups && !d.decision.Members?
    ensures LeaveAll(cfg, d, o).decision == d.decision
    decreases |d.groups[o]|
  {
    if d.groups[o] != [] {
      var x := (o, d.groups[o][0]);
      assert IsMember(d, x);
      EntryFacts(cfg, d, x);
      LeaveInv(cfg, d, x);
      LeaveSize(cfg, d, x);
      LeaveAllAstray(cfg, Leave(d, x), o);
    }
  }

  lemma FloodPasses(cfg: Config, d: Decider, ev: Event)
    requires Inv(cfg, d) && Enabled(d, ev) && !ev.Analyze? && !ev.NextDestination? && d.decision.Flood?
    ensures Passes(d, ev, Step(cfg, d, ev))
  {
    var ps, d' := d.decision.peers, Step(cfg, d, ev);
    if ev.PeerFree? {
      assert GroupsOk(cfg, d, ev.peer);
      WithoutMembers(d.peers, ev.peer);
      StillPeersWithout(ps, d, ev.peer, d');
    } else {
      FloodSame(cfg, d, ev);
      StillPeersAll(ps, d');
    }
  }

  lemma FloodSame(cfg: Config, d: Decider, ev: Event)
    requires Inv(cfg, d) && Enabled(d, ev) && !ev.Analyze? && !ev.NextDestination? && !ev.PeerFree? && d.decision.Flood?
    ensures var d' := Step(cfg, d, ev);
            && d'.decision == Flood(d.decision.peers + if ev.PeerInit? && d.decision.peers != [] then [ev.peer] else [])
            && forall p: M.Peer :: p in d.peers ==> p in d'.peers
  {
    hide M.Inv, M.Add, M.Remove, Without, NoDup;
    assert d.decision.peers + [] == d.decision.peers;
    if ev.Joined? {
      assert GroupsOk(cfg, d, ev.peer);
    }
  }
}
