/**
 * Decisions over whole runs: when a frame is looked at, when a decision on group members goes astray, and
 * when a peer is handed out twice.
 */
module FrameDeciderRuns {
  import opened Options
  import opened Lists
  import T = MacTable
  import M = Multicast
  import opened FrameDecider

  // ---------- the states of a run ----------

  lemma {:induction false} PossiblePrefix(cfg: Config, evs: seq<Event>, n: nat)
    requires cfg.Valid() && Possible(cfg, evs) && n <= |evs|
    ensures Possible(cfg, evs[..n])
    decreases |evs|
  {
    if n < |evs| {
      PossiblePrefix(cfg, evs[..|evs| - 1], n);
      assert evs[..|evs| - 1][..n] == evs[..n];
    } else {
      assert evs[..n] == evs;
    }
  }

  /** The state before the event at `n`. */
  ghost function At(cfg: Config, evs: seq<Event>, n: nat): (d: Decider)
    requires cfg.Valid() && Possible(cfg, evs) && n <= |evs|
    ensures Inv(cfg, d)
  {
    PossiblePrefix(cfg, evs, n);
    Run(cfg, evs[..n])
  }

  lemma AtStep(cfg: Config, evs: seq<Event>, n: nat)
    requires cfg.Valid() && Possible(cfg, evs) && n < |evs|
    ensures Enabled(At(cfg, evs, n), evs[n])
    ensures At(cfg, evs, n + 1) == Step(cfg, At(cfg, evs, n), evs[n])
  {
    hide Inv, Step;
    PossiblePrefix(cfg, evs, n + 1);
    PossiblePrefix(cfg, evs, n);
    var h := evs[..n + 1];
    assert h[..|h| - 1] == evs[..n] && h[|h| - 1] == evs[n];
  }

  lemma AtStart(cfg: Config, evs: seq<Event>)
    requires cfg.Valid() && Possible(cfg, evs)
    ensures At(cfg, evs, 0) == Initial(cfg)
  {
  }

  lemma AtEnd(cfg: Config, evs: seq<Event>)
    requires cfg.Valid() && Possible(cfg, evs)
    ensures At(cfg, evs, |evs|) == Run(cfg, evs)
  {
    assert evs[..|evs|] == evs;
  }

  // ---------- what happens to a decision on group members ----------

  /**
   * What an event that neither looks at a frame nor hands out a peer does to a decision. The entry that the
   * iterator stands on stays first, unless it is linked; if it goes, the decision is astray.
   */
  ghost predicate Quiet(decision: Decision, d: Decider) {
    match decision
    case Astray(_) => d.decision.Astray?
    case Members(es, linked) =>
      if !linked && es != [] then
        if IsMember(d, es[0]) then d.decision.Members? && !d.decision.linked && d.decision.entries != [] && d.decision.entries[0] == es[0]
        else d.decision.Astray? && d.decision.entries != [] && d.decision.entries[0] == es[0]
      else d.decision.Members? && d.decision.linked == linked && (es == [] ==> d.decision.entries == [])
    case _ => !Open(d.decision)
  }

  lemma LeaveQuiet(cfg: Config, d: Decider, e: M.Entry)
    requires Inv(cfg, d) && IsMember(d, e)
    requires e in d.ix.at && d.ix.at[e] in d.ix.lists && e in d.ix.lists[d.ix.at[e]]
    ensures Quiet(d.decision, Leave(d, e))
    ensures d.decision.Astray? ==> Leave(d, e).decision == d.decision
  {
    LeaveInv(cfg, d, e);
    hide M.Inv, T.Inv, M.Remove;
    if d.decision.Members? && d.decision.entries != [] {
      var es := d.decision.entries;
      assert es[0] in es;
      assert es[0] != e ==> Without(es, e)[0] == es[0];
    }
  }

  lemma EnterQuiet(cfg: Config, d: Decider, e: M.Entry, end: int)
    requires Inv(cfg, d) && e.0 in d.groups && !IsMember(d, e) && |d.groups[e.0]| < cfg.maxGroups && M.Sound(d.ix, M.SigOf(e.1))
    ensures Quiet(d.decision, Enter(d, e, end))
    ensures d.decision.Astray? ==> Enter(d, e, end).decision == d.decision
  {
    EnterInv(cfg, d, e, end);
    hide M.Inv, T.Inv, M.Add;
    if d.decision.Members? && d.decision.entries != [] {
      assert d.decision.entries[0] in d.decision.entries;
    }
  }

  /** Two such changes after each other: the entry that the iterator stands on does not come back. */
  lemma QuietTwice(decision: Decision, d: Decider, d': Decider)
    requires Quiet(decision, d) && Quiet(d.decision, d')
    requires d.decision.Astray? ==> d'.decision == d.decision
    requires decision.Members? && Open(d.decision) && d.decision.entries != [] && !IsMember(d, d.decision.entries[0]) ==>
               !IsMember(d', d.decision.entries[0])
    ensures Quiet(decision, d')
  {
  }

  lemma {:induction false} LeaveAllQuiet(cfg: Config, d: Decider, o: M.Peer)
    requires Inv(cfg, d) && o in d.groups
    ensures Quiet(d.decision, LeaveAll(cfg, d, o))
    ensures d.decision.Astray? ==> LeaveAll(cfg, d, o).decision == d.decision
    decreases |d.groups[o]|
  {
    if d.groups[o] == [] {
      QuietSame(cfg, d);
    } else {
      var e := (o, d.groups[o][0]);
      assert IsMember(d, e);
      EntryFacts(cfg, d, e);
      LeaveInv(cfg, d, e);
      LeaveSize(cfg, d, e);
      hide Inv, Leave, Quiet, IsMember;
      var d1 := Leave(d, e);
      LeaveQuiet(cfg, d, e);
      LeaveAllQuiet(cfg, d1, o);
      LeaveAllMembers(cfg, d1, o);
      QuietTwice(d.decision, d1, LeaveAll(cfg, d1, o));
    }
  }

  lemma QuietSame(cfg: Config, d: Decider)
    requires Inv(cfg, d)
    ensures Quiet(d.decision, d)
  {
    if d.decision.Members? && d.decision.entries != [] {
      assert d.decision.entries[0] in d.decision.entries;
    }
  }

  lemma JoinQuiet(cfg: Config, d: Decider, o: M.Peer, g: M.Group, now: int)
    requires Inv(cfg, d) && o in d.peers
    ensures Quiet(d.decision, Join(cfg, d, o, g, now))
  {
    assert GroupsOk(cfg, d, o);
    var end := now + cfg.interval;
    if g in d.groups[o] {
      JoinAgain(cfg, d, o, g, now);
      QuietSame(cfg, d);
      hide Inv;
    } else if |d.groups[o]| < cfg.maxGroups {
      M.InvSound(d.ix, M.SigOf(g));
      EnterQuiet(cfg, d, (o, g), end);
      hide Inv, Enter;
    } else {
      var e := (o, d.groups[o][0]);
      assert IsMember(d, e) && !IsMember(d, (o, g));
      EntryFacts(cfg, d, e);
      LeaveInv(cfg, d, e);
      LeaveRoom(cfg, d, e);
      LeaveQuiet(cfg, d, e);
      var d1 := Leave(d, e);
      M.InvSound(d1.ix, M.SigOf(g));
      EnterQuiet(cfg, d1, (o, g), end);
      EnterInv(cfg, d1, (o, g), end);
      CursorHeld(cfg, d, e);
      hide Inv, Leave, Enter, Quiet, IsMember;
      QuietTwice(d.decision, d1, Enter(d1, (o, g), end));
    }
  }

  /** After a departure, the entry that the iterator stands on is a member or the one that left. */
  lemma CursorHeld(cfg: Config, d: Decider, e: M.Entry)
    requires Inv(cfg, d) && IsMember(d, e)
    requires e in d.ix.at && d.ix.at[e] in d.ix.lists && e in d.ix.lists[d.ix.at[e]]
    ensures var d' := Leave(d, e);
            d.decision.Members? ==>
              && Open(d'.decision)
              && (d'.decision.entries != [] ==> IsMember(d', d'.decision.entries[0]) || d'.decision.entries[0] == e)
  {
    LeaveInv(cfg, d, e);
    hide M.Inv, T.Inv, M.Remove;
    if d.decision.Members? {
      var es := d.decision.entries;
      assert es != [] ==> es[0] in es;
      WithoutMembers(es, e);
      var rest := Without(es, e);
      assert rest != [] ==> rest[0] in rest;
    }
  }

  lemma FreeQuiet(cfg: Config, d: Decider, o: M.Peer)
    requires Inv(cfg, d) && o in d.groups
    ensures Quiet(d.decision, FreePeer(cfg, d, o))
  {
    FreePeerInv(cfg, d, o);
    LeaveAllQuiet(cfg, d, o);
    LeaveAllMembers(cfg, d, o);
    hide Inv, LeaveAll;
    var r, d' := LeaveAll(cfg, d, o), FreePeer(cfg, d, o);
    assert Open(d.decision) ==> d'.decision == r.decision;
  }

  /** Every event that neither looks at a frame nor hands out a peer is such a change. */
  lemma StepQuiet(cfg: Config, d: Decider, ev: Event)
    requires Inv(cfg, d) && Enabled(d, ev) && !ev.Analyze? && !ev.NextDestination?
    ensures Quiet(d.decision, Step(cfg, d, ev))
  {
    match ev
    case PeerInit(p) =>
      QuietSame(cfg, d);
      NewMember(cfg, d, p);
    case PeerFree(p) =>
      assert GroupsOk(cfg, d, p);
      FreeQuiet(cfg, d, p);
    case Seen(p, mac) => QuietSame(cfg, d);
    case Joined(p, g, now) => JoinQuiet(cfg, d, p, g, now);
    case Expired(e) =>
      EntryFacts(cfg, d, e);
      LeaveQuiet(cfg, d, e);
  }

  lemma NewMember(cfg: Config, d: Decider, p: M.Peer)
    requires Inv(cfg, d) && p !in d.peers
    ensures forall e: M.Entry :: IsMember(NewPeer(d, p), e) <==> IsMember(d, e)
  {
    assert GroupsOk(cfg, d, p);
  }

  // ---------- decisions on group members over a run ----------

  /** No destination asked for after `a` and before `n` was none. */
  ghost predicate AllAnswered(cfg: Config, evs: seq<Event>, a: nat, n: nat)
    requires cfg.Valid() && Possible(cfg, evs) && n <= |evs|
  {
    forall i :: a < i < n && evs[i].NextDestination? ==> Next(At(cfg, evs, i)).0.Some?
  }

  /** The frame looked at by the event at `a` is for the members of a group. */
  ghost predicate OpensAt(cfg: Config, evs: seq<Event>, a: nat)
    requires cfg.Valid() && Possible(cfg, evs)
  {
    a < |evs| && evs[a].Analyze? && !Open(At(cfg, evs, a).decision) && Open(At(cfg, evs, a + 1).decision)
  }

  /** One event: an open decision stays open unless the event finds that nobody is left; only looking at a frame opens one. */
  lemma StepOpen(cfg: Config, d: Decider, ev: Event)
    requires Inv(cfg, d) && Enabled(d, ev)
    ensures var d' := Step(cfg, d, ev);
            && (Open(d.decision) ==> (Open(d'.decision) <==> !(ev.NextDestination? && Next(d).0.None?)))
            && (!Open(d.decision) && Open(d'.decision) ==> ev.Analyze?)
  {
    hide Inv, Fresh;
    if !ev.Analyze? && !ev.NextDestination? {
      StepQuiet(cfg, d, ev);
    }
  }

  /** A decision on group members was taken at `a`, and no call before `n` has found its end. */
  ghost predicate OpenSince(cfg: Config, evs: seq<Event>, a: nat, n: nat)
    requires cfg.Valid() && Possible(cfg, evs) && n <= |evs|
  {
    a < n && OpensAt(cfg, evs, a) && AllAnswered(cfg, evs, a, n)
  }

  lemma AnsweredStep(cfg: Config, evs: seq<Event>, a: nat, n: nat)
    requires cfg.Valid() && Possible(cfg, evs) && a < n < |evs|
    ensures AllAnswered(cfg, evs, a, n + 1) <==>
            AllAnswered(cfg, evs, a, n) && (evs[n].NextDestination? ==> Next(At(cfg, evs, n)).0.Some?)
  {
    hide At;
  }

  lemma SinceStep(cfg: Config, evs: seq<Event>, a: nat, n: nat)
    requires cfg.Valid() && Possible(cfg, evs) && n < |evs|
    ensures a < n ==> (OpenSince(cfg, evs, a, n + 1) <==>
                       OpenSince(cfg, evs, a, n) && (evs[n].NextDestination? ==> Next(At(cfg, evs, n)).0.Some?))
    ensures a == n ==> (OpenSince(cfg, evs, a, n + 1) <==> OpensAt(cfg, evs, n))
  {
    if a < n {
      AnsweredStep(cfg, evs, a, n);
    }
    hide At, OpensAt;
  }

  /** A decision on group members is open exactly if one was taken and no call has found its end since. */
  lemma {:induction false} OpenExactly(cfg: Config, evs: seq<Event>, n: nat)
    requires cfg.Valid() && Possible(cfg, evs) && n <= |evs|
    ensures Open(At(cfg, evs, n).decision) <==> exists a: nat :: OpenSince(cfg, evs, a, n)
    decreases n
  {
    AtStart(cfg, evs);
    if n > 0 {
      var k := n - 1;
      hide At, Step, Inv, OpenSince, Next;
      OpenExactly(cfg, evs, k);
      AtStep(cfg, evs, k);
      StepOpen(cfg, At(cfg, evs, k), evs[k]);
      if Open(At(cfg, evs, n).decision) {
        if Open(At(cfg, evs, k).decision) {
          var a: nat :| OpenSince(cfg, evs, a, k);
          SinceBounds(cfg, evs, a, k);
          SinceStep(cfg, evs, a, k);
        } else {
          SinceStep(cfg, evs, k, k);
        }
      }
      if a: nat :| OpenSince(cfg, evs, a, n) {
        SinceBounds(cfg, evs, a, n);
        SinceStep(cfg, evs, a, k);
      }
    }
  }

  lemma SinceBounds(cfg: Config, evs: seq<Event>, a: nat, n: nat)
    requires cfg.Valid() && Possible(cfg, evs) && n <= |evs| && OpenSince(cfg, evs, a, n)
    ensures a < n
  {
  }

  /**
   * A frame is looked at if and only if no decision on group members is open, that is, one was taken and
   * NextDestination has not answered with nobody since; otherwise who the frame goes to is whoever was left.
   */
  lemma DecidedExactly(cfg: Config, evs: seq<Event>, frame: Frame, now: int)
    requires cfg.Valid() && Possible(cfg, evs)
    ensures var d := Run(cfg, evs);
            var d' := Decide(cfg, d, frame, now);
            var open := exists a: nat :: OpenSince(cfg, evs, a, |evs|);
            && (d'.decision == Fresh(cfg, d, frame) <==> !open)
            && (open ==> Pending(d'.decision) == Pending(d.decision) && d'.ends == d.ends)
  {
    hide At, Run, Inv, OpenSince, Decide, Fresh, Pending, Possible, Open;
    AtEnd(cfg, evs);
    OpenExactly(cfg, evs, |evs|);
    LookedAt(cfg, Run(cfg, evs), frame, now);
  }

  lemma LookedAt(cfg: Config, d: Decider, frame: Frame, now: int)
    requires Inv(cfg, d)
    ensures var d' := Decide(cfg, d, frame, now);
            && (d'.decision == Fresh(cfg, d, frame) <==> !Open(d.decision))
            && (Open(d.decision) ==> Pending(d'.decision) == Pending(d.decision) && d'.ends == d.ends)
  {
    FreshLinked(cfg, d, frame);
    hide Inv, Fresh;
  }

  lemma FreshLinked(cfg: Config, d: Decider, frame: Frame)
    requires Inv(cfg, d)
    ensures var f := Fresh(cfg, d, frame); !f.Astray? && (f.Members? ==> f.linked)
  {
    hide Inv;
  }

  // ---------- decisions that go astray ----------

  /** A frame was looked at, at `m`, while a decision on group members was open, and nobody has been handed out since. */
  ghost predicate LooseSince(cfg: Config, evs: seq<Event>, m: nat, n: nat)
    requires cfg.Valid() && Possible(cfg, evs) && n <= |evs|
  {
    m < n && evs[m].Analyze? && At(cfg, evs, m).decision.Members? && forall i :: m < i < n ==> !evs[i].NextDestination?
  }

  predicate Loose(decision: Decision) {
    decision.Members? && !decision.linked
  }

  lemma StepLoose(cfg: Config, d: Decider, ev: Event)
    requires Inv(cfg, d) && Enabled(d, ev)
    ensures var d' := Step(cfg, d, ev);
            && (Loose(d'.decision) ==> !ev.NextDestination? && if ev.Analyze? then d.decision.Members? else Loose(d.decision))
            && (ev.Analyze? && d.decision.Members? ==> Loose(d'.decision))
            && (Loose(d.decision) && !ev.NextDestination? ==> Loose(d'.decision) || d'.decision.Astray?)
            && (d.decision.Astray? && !ev.NextDestination? ==> d'.decision.Astray?)
  {
    FreshLinkedWhenOpen(cfg, d, ev);
    hide Inv, Fresh;
    if !ev.Analyze? && !ev.NextDestination? {
      StepQuiet(cfg, d, ev);
    }
  }

  lemma FreshLinkedWhenOpen(cfg: Config, d: Decider, ev: Event)
    requires Inv(cfg, d)
    ensures ev.Analyze? ==> var f := Fresh(cfg, d, ev.frame); !f.Astray? && (f.Members? ==> f.linked)
  {
    if ev.Analyze? {
      FreshLinked(cfg, d, ev.frame);
    }
  }

  lemma {:induction false} LooseStays(cfg: Config, evs: seq<Event>, m: nat, n: nat)
    requires cfg.Valid() && Possible(cfg, evs) && n <= |evs| && LooseSince(cfg, evs, m, n)
    ensures Loose(At(cfg, evs, n).decision) || At(cfg, evs, n).decision.Astray?
    decreases n
  {
    hide At, Step, Inv;
    var k := n - 1;
    AtStep(cfg, evs, k);
    StepLoose(cfg, At(cfg, evs, k), evs[k]);
    if m < k {
      LooseStays(cfg, evs, m, k);
    }
  }

  lemma {:induction false} LooseFrom(cfg: Config, evs: seq<Event>, n: nat) returns (m: nat)
    requires cfg.Valid() && Possible(cfg, evs) && n <= |evs| && Loose(At(cfg, evs, n).decision)
    ensures LooseSince(cfg, evs, m, n)
    decreases n
  {
    AtStart(cfg, evs);
    assert n > 0;
    hide At, Step, Inv, LooseSince;
    var k := n - 1;
    AtStep(cfg, evs, k);
    StepLoose(cfg, At(cfg, evs, k), evs[k]);
    if evs[k].Analyze? {
      m := k;
    } else {
      m := LooseFrom(cfg, evs, k);
    }
    LooseMore(cfg, evs, m, k);
  }

  lemma LooseMore(cfg: Config, evs: seq<Event>, m: nat, k: nat)
    requires cfg.Valid() && Possible(cfg, evs) && k < |evs|
    ensures evs[k].Analyze? && At(cfg, evs, k).decision.Members? ==> LooseSince(cfg, evs, k, k + 1)
    ensures LooseSince(cfg, evs, m, k) && !evs[k].NextDestination? ==> LooseSince(cfg, evs, m, k + 1)
  {
    hide At;
  }

  /**
   * At `k` the entry next in line leaves, after a frame was looked at while the decision was open and before
   * anybody was handed out since.
   */
  ghost predicate StruckAt(cfg: Config, evs: seq<Event>, k: nat)
    requires cfg.Valid() && Possible(cfg, evs)
  {
    && k < |evs| && (exists m: nat :: LooseSince(cfg, evs, m, k))
    && var decision := At(cfg, evs, k).decision;
    && decision.Members? && decision.entries != [] && !IsMember(At(cfg, evs, k + 1), decision.entries[0])
  }

  ghost predicate StraySince(cfg: Config, evs: seq<Event>, k: nat, n: nat)
    requires cfg.Valid() && Possible(cfg, evs) && n <= |evs|
  {
    k < n && StruckAt(cfg, evs, k) && AllAnswered(cfg, evs, k, n)
  }

  /** The entry that a decision stands on leaves while its iterator is not linked. */
  ghost predicate Strikes(cfg: Config, d: Decider, d': Decider) {
    Loose(d.decision) && d.decision.entries != [] && !IsMember(d', d.decision.entries[0])
  }

  lemma StepStray(cfg: Config, d: Decider, ev: Event)
    requires Inv(cfg, d) && Enabled(d, ev)
    ensures var d' := Step(cfg, d, ev);
            d'.decision.Astray? <==>
            (d.decision.Astray? && !(ev.NextDestination? && Next(d).0.None?)) || Strikes(cfg, d, d')
  {
    FreshLinkedWhenOpen(cfg, d, ev);
    CursorIsMember(cfg, d);
    hide Inv, Fresh;
    if !ev.Analyze? && !ev.NextDestination? {
      StepQuiet(cfg, d, ev);
    } else {
      var d' := Step(cfg, d, ev);
      assert forall e: M.Entry :: IsMember(d', e) <==> IsMember(d, e);
    }
  }

  lemma CursorIsMember(cfg: Config, d: Decider)
    requires Inv(cfg, d)
    ensures d.decision.Members? && d.decision.entries != [] ==> IsMember(d, d.decision.entries[0])
  {
    assert d.decision.Members? && d.decision.entries != [] ==> d.decision.entries[0] in d.decision.entries;
  }

  lemma StruckMeans(cfg: Config, evs: seq<Event>, k: nat)
    requires cfg.Valid() && Possible(cfg, evs) && k < |evs|
    ensures StruckAt(cfg, evs, k) <==> Strikes(cfg, At(cfg, evs, k), At(cfg, evs, k + 1))
  {
    hide At, LooseSince;
    if StruckAt(cfg, evs, k) {
      var m: nat :| LooseSince(cfg, evs, m, k);
      LooseStays(cfg, evs, m, k);
    }
    if Strikes(cfg, At(cfg, evs, k), At(cfg, evs, k + 1)) {
      var m := LooseFrom(cfg, evs, k);
    }
  }

  lemma StrayStep(cfg: Config, evs: seq<Event>, k: nat, n: nat)
    requires cfg.Valid() && Possible(cfg, evs) && n < |evs|
    ensures k < n ==> (StraySince(cfg, evs, k, n + 1) <==>
                       StraySince(cfg, evs, k, n) && (evs[n].NextDestination? ==> Next(At(cfg, evs, n)).0.Some?))
    ensures k == n ==> (StraySince(cfg, evs, k, n + 1) <==> StruckAt(cfg, evs, n))
    ensures StraySince(cfg, evs, k, n) ==> k < n
    ensures StraySince(cfg, evs, k, n + 1) ==> k <= n
  {
    if k < n {
      AnsweredStep(cfg, evs, k, n);
    }
    hide At, StruckAt;
  }

  lemma {:induction false} AstrayExactly(cfg: Config, evs: seq<Event>, n: nat)
    requires cfg.Valid() && Possible(cfg, evs) && n <= |evs|
    ensures At(cfg, evs, n).decision.Astray? <==> exists k: nat :: StraySince(cfg, evs, k, n)
    decreases n
  {
    AtStart(cfg, evs);
    if n > 0 {
      var j := n - 1;
      hide At, Step, Inv, StraySince, StruckAt, Next, Strikes;
      AstrayExactly(cfg, evs, j);
      AtStep(cfg, evs, j);
      StepStray(cfg, At(cfg, evs, j), evs[j]);
      StruckMeans(cfg, evs, j);
      if At(cfg, evs, n).decision.Astray? {
        if StruckAt(cfg, evs, j) {
          StrayStep(cfg, evs, j, j);
        } else {
          var k: nat :| StraySince(cfg, evs, k, j);
          StrayStep(cfg, evs, k, j);
        }
      }
      if k: nat :| StraySince(cfg, evs, k, n) {
        StrayStep(cfg, evs, k, j);
      }
    }
  }

  /**
   * A decision speaks only of peers that are there, and a decision on group members only of memberships that
   * have not ended, if and only if it has not gone astray. It has if and only if a frame was looked at while it
   * was open and then, before another destination was asked for, the entry next in line left; and it
   * stays so until a call finds its end. At that moment the next peer in line is that of the entry that left.
   */
  lemma StraysExactly(cfg: Config, evs: seq<Event>)
    requires cfg.Valid() && Possible(cfg, evs)
    ensures Run(cfg, evs).decision.Astray? <==> exists k: nat :: StraySince(cfg, evs, k, |evs|)
    ensures !Run(cfg, evs).decision.Astray? ==> forall p: M.Peer :: p in Pending(Run(cfg, evs).decision) ==> p in Run(cfg, evs).peers
    ensures forall k: nat :: StruckAt(cfg, evs, k) ==>
                               var e, d := At(cfg, evs, k).decision.entries[0], At(cfg, evs, k + 1);
                               !IsMember(d, e) && Next(d).0 == Some(e.0)
  {
    AtEnd(cfg, evs);
    AstrayExactly(cfg, evs, |evs|);
    PendingAreThere(cfg, Run(cfg, evs));
    forall k: nat | StruckAt(cfg, evs, k)
      ensures Next(At(cfg, evs, k + 1)).0 == Some(At(cfg, evs, k).decision.entries[0].0)
    {
      StruckMeans(cfg, evs, k);
      AtStep(cfg, evs, k);
      StruckNext(cfg, At(cfg, evs, k), evs[k]);
    }
  }

  lemma StruckNext(cfg: Config, d: Decider, ev: Event)
    requires Inv(cfg, d) && Enabled(d, ev) && Strikes(cfg, d, Step(cfg, d, ev))
    ensures Next(Step(cfg, d, ev)).0 == Some(d.decision.entries[0].0)
  {
    StepStray(cfg, d, ev);
    CursorIsMember(cfg, d);
    hide Inv, Fresh;
    if !ev.Analyze? && !ev.NextDestination? {
      StepQuiet(cfg, d, ev);
    }
  }

  lemma PendingAreThere(cfg: Config, d: Decider)
    requires Inv(cfg, d)
    ensures !d.decision.Astray? ==> forall p: M.Peer :: p in Pending(d.decision) ==> p in d.peers
  {
    if d.decision.Members? {
      var es := d.decision.entries;
      forall p: M.Peer | p in PeersOf(es) ensures p in d.peers {
        var k :| 0 <= k < |es| && PeersOf(es)[k] == p;
        assert es[k] in es;
        EntryFacts(cfg, d, es[k]);
      }
    }
  }

  // ---------- peers that are handed out twice ----------

  /** Two groups of the peer have the signature of the address. */
  ghost predicate InTwo(d: Decider, p: M.Peer, mac: T.Mac) {
    exists g: M.Group, h: M.Group ::
      && g != h && IsMember(d, (p, g)) && IsMember(d, (p, h))
      && M.SigOf(g) == SigOfMac(mac) && M.SigOf(h) == SigOfMac(mac)
  }

  lemma {:induction false} NoDupIndex<X>(list: seq<X>)
    ensures NoDup(list) <==> forall i, j :: 0 <= i < j < |list| ==> list[i] != list[j]
  {
    if list != [] {
      NoDupIndex(list[1..]);
      var rest := list[1..];
      if NoDup(list) {
        forall i, j | 0 <= i < j < |list| ensures list[i] != list[j] {
          assert list[j] == rest[j - 1];
          assert i > 0 ==> list[i] == rest[i - 1];
        }
      }
      if forall i, j :: 0 <= i < j < |list| ==> list[i] != list[j] {
        forall i, j | 0 <= i < j < |rest| ensures rest[i] != rest[j] {
          assert list[i + 1] != list[j + 1];
        }
        assert list[0] !in rest;
      }
    }
  }

  /** Entries without duplicates name a peer twice exactly if two of them are of one peer. */
  lemma PeersTwice(es: seq<M.Entry>)
    requires NoDup(es)
    ensures NoDup(PeersOf(es)) <==> forall e: M.Entry, f: M.Entry :: e in es && f in es && e.0 == f.0 ==> e == f
  {
    NoDupIndex(es);
    NoDupIndex(PeersOf(es));
    var ps := PeersOf(es);
    if forall e: M.Entry, f: M.Entry :: e in es && f in es && e.0 == f.0 ==> e == f {
      forall i, j | 0 <= i < j < |ps| ensures ps[i] != ps[j] {
        assert es[i] in es && es[j] in es;
      }
    }
    if NoDup(ps) {
      forall e: M.Entry, f: M.Entry | e in es && f in es && e.0 == f.0 ensures e == f {
        var i :| 0 <= i < |es| && es[i] == e;
        var j :| 0 <= j < |es| && es[j] == f;
        assert ps[i] == ps[j];
      }
    }
  }

  /**
   * A frame for a group is handed out to nobody twice if and only if no peer is in two groups that have the
   * signature of the frame's address.
   */
  lemma TwiceExactly(cfg: Config, d: Decider, dest: T.Mac, now: int)
    requires Inv(cfg, d) && !Open(d.decision) && dest != BROADCAST && IsMulticast(dest)
    ensures NoDup(Pending(Decide(cfg, d, Frame(dest, NotIgmp), now).decision)) <==> forall p: M.Peer :: !InTwo(d, p, dest)
  {
    hide Inv, Decide, Fresh, HolderOf, IsMulticast, SigOfMac, M.SigOf, NoDup, IsMember;
    DecisionExactly(cfg, d, Frame(dest, NotIgmp), now);
    var r := Decide(cfg, d, Frame(dest, NotIgmp), now).decision;
    var es: seq<M.Entry> :| NoDup(es) && Pending(r) == PeersOf(es) &&
                            forall e: M.Entry :: e in es <==> IsMember(d, e) && M.SigOf(e.1) == SigOfMac(dest);
    PeersTwice(es);
    if NoDup(PeersOf(es)) {
      forall p: M.Peer ensures !InTwo(d, p, dest) {
        forall g: M.Group, h: M.Group | IsMember(d, (p, g)) && IsMember(d, (p, h)) && M.SigOf(g) == SigOfMac(dest) && M.SigOf(h) == SigOfMac(dest)
          ensures g == h
        {
          assert (p, g) in es && (p, h) in es;
        }
      }
    }
    if forall p: M.Peer :: !InTwo(d, p, dest) {
      forall e: M.Entry, f: M.Entry | e in es && f in es && e.0 == f.0 ensures e == f {
        assert !InTwo(d, e.0, dest);
        assert IsMember(d, (e.0, e.1)) && IsMember(d, (e.0, f.1));
      }
    }
  }
}
