/**
 * What the DHCP client does, told from the side of the exchange: at each stage, the replies of the server that matter
 * and the time at which the client goes on without one. The client is shown to do exactly this in every run.
 */
module DhcpProtocol {
  import opened Options
  import opened Dhcp

  // ---------- what a reply means ----------

  /** A usable offer in transaction `xid`. */
  predicate Offers(xid: nat, r: Reply) {
    r.kind == Offer && r.xid == xid && r.server.Some? && r.yiaddr != 0 && r.lease.Some? && r.mask.Some?
  }

  /** The server that made the offer `o` grants it. */
  predicate Confirms(o: Reply, r: Reply) {
    r.kind == Ack && r.xid == o.xid && r.server == o.server && r.yiaddr == o.yiaddr && r.lease.Some? && r.mask.Some?
  }

  /** The server that made the offer `o` withdraws it. */
  predicate Refuses(o: Reply, r: Reply) {
    r.kind == Nak && r.xid == o.xid && r.server == o.server
  }

  function LeaseOf(r: Reply): nat {
    if r.lease.Some? then r.lease.value else 0
  }

  // ---------- the exchange ----------

  /**
   * Searching for a server; asking for what was offered, for the `times`-th time; bound to an address, where `first`
   * brought the client up and `ack` was the last to extend the lease; extending the lease; or refused. `since` is when
   * the stage began, or when it was last asked.
   */
  datatype Stage =
    | Searching(since: int)
    | Asking(offer: Reply, since: int, times: nat)
    | Bound(offer: Reply, first: Reply, ack: Reply, since: int)
    | Extending(offer: Reply, first: Reply, ack: Reply, since: int, asked: int)
    | Refused(since: int)

  /** `searches` is how many searches have been made in this transaction; `said` is what went out to the network. */
  datatype Exchange = Exchange(now: int, stage: Stage, xid: nat, searches: nat, busy: bool, said: seq<Request>)

  function Say(x: Exchange, r: Request): Exchange {
    if x.busy then x else x.(busy := true, said := x.said + [r])
  }

  function AskFor(offer: Reply): Request {
    Request(offer.xid, offer.yiaddr, offer.server)
  }

  function AskToExtend(offer: Reply): Request {
    Request(offer.xid, offer.yiaddr, None)
  }

  /** A transaction is given up after eight searches, or when it has come to an end. */
  function Search(x: Exchange, ended: bool, newXid: nat): Exchange {
    var x' := if ended || x.searches == 8 then x.(xid := newXid, searches := 1) else x.(searches := x.searches + 1);
    Say(x', Discover(x'.xid)).(stage := Searching(x.now))
  }

  function Begin(now: int, newXid: nat): Exchange {
    Exchange(now, Searching(now), newXid, 1, true, [Discover(newXid)])
  }

  function Heard(x: Exchange, r: Reply): Exchange {
    match x.stage
    case Searching(_) => if Offers(x.xid, r) then Say(x, AskFor(r)).(stage := Asking(r, x.now, 1)) else x
    case Asking(o, _, _) =>
      if Confirms(o, r) then x.(stage := Bound(o, r, r, x.now)) else if Refuses(o, r) then x.(stage := Refused(x.now)) else x
    case Bound(o, _, _, _) => if Refuses(o, r) then x.(stage := Refused(x.now)) else x
    case Extending(o, first, _, _, _) =>
      if Confirms(o, r) then x.(stage := Bound(o, first, r, x.now)) else if Refuses(o, r) then x.(stage := Refused(x.now)) else x
    case Refused(_) => x
  }

  /** Which timers are waited for, and until when. */
  function Due(stage: Stage): map<Timer, int> {
    match stage
    case Searching(since) => map[ResetTimer := since + 4000]
    case Asking(_, since, _) => map[RequestTimer := since + 3000]
    case Bound(_, _, ack, since) => map[RenewTimer := since + 500 * LeaseOf(ack)]
    case Extending(_, _, ack, since, asked) => map[RenewRequestTimer := asked + 20000, LeaseTimer := since + 500 * LeaseOf(ack)]
    case Refused(since) => map[ResetTimer := since + 4000]
  }

  function TimeIsUp(x: Exchange, t: Timer, newXid: nat): Exchange {
    match x.stage
    case Searching(_) => Search(x, false, newXid)
    case Asking(o, _, n) =>
      if n == 4 then Search(x, false, newXid) else Say(x, AskFor(o)).(stage := Asking(o, x.now, n + 1))
    case Bound(o, first, ack, _) => Say(x, AskToExtend(o)).(stage := Extending(o, first, ack, x.now, x.now))
    case Extending(o, _, _, _, _) =>
      if t == LeaseTimer then Search(x, true, newXid) else Say(x, AskToExtend(o)).(stage := x.stage.(asked := x.now))
    case Refused(_) => Search(x, true, newXid)
  }

  function Next(x: Exchange, ev: Event): Exchange {
    match ev
    case Wait(t) => x.(now := t)
    case Received(r) => Heard(x, r)
    case Fired(t, newXid) => TimeIsUp(x, t, newXid)
    case SendDone => x.(busy := false)
  }

  function Follow(x: Exchange, evs: seq<Event>): Exchange
    decreases |evs|
  {
    if evs == [] then x else Follow(Next(x, evs[0]), evs[1..])
  }

  // ---------- the client does this ----------

  /** Every offer that is being acted on was usable and made in this transaction. */
  predicate Sound(x: Exchange) {
    && (x.stage.Asking? ==> Offers(x.xid, x.stage.offer))
    && (x.stage.Bound? || x.stage.Extending? ==>
          Offers(x.xid, x.stage.offer) && Confirms(x.stage.offer, x.stage.first) && Confirms(x.stage.offer, x.stage.ack))
  }

  function PhaseOf(stage: Stage): Phase {
    match stage
    case Searching(_) => SentDiscover
    case Asking(_, _, _) => SentRequest
    case Bound(_, _, _, _) => Finished
    case Extending(_, _, _, _, _) => Renewing
    case Refused(_) => Resetting
  }

  /** The client is at the stage of the exchange and holds what was said in it. */
  predicate Realises(s: State, x: Exchange) {
    && Sound(x)
    && s.now == x.now && s.phase == PhaseOf(x.stage) && s.timers == Due(x.stage)
    && s.xid == x.xid && s.xidReuse == x.searches && s.sending == x.busy && s.sent == x.said
    && (x.stage.Asking? ==> s.requestCount == x.stage.times)
    && (x.stage.Asking? || x.stage.Bound? || x.stage.Extending? ==>
          s.offered == Offered(x.stage.offer.yiaddr, x.stage.offer.server.value))
    && (x.stage.Bound? || x.stage.Extending? ==>
          s.acked == Acked(x.stage.ack.lease.value, x.stage.first.mask.value, x.stage.first.router, x.stage.first.dns))
  }

  lemma InitialRealises(now: int, newXid: nat)
    ensures Realises(Initial(now, newXid), Begin(now, newXid))
  {
  }

  lemma ReceiveRealises(s: State, x: Exchange, r: Reply)
    requires Realises(s, x)
    ensures Realises(Receive(s, r).0, Heard(x, r))
  {
    hide Realises, Receive, Heard, Due;
    match x.stage
    case Searching(_) => HeardSearching(s, x, r);
    case Asking(_, _, _) => HeardAsking(s, x, r);
    case Bound(_, _, _, _) => HeardBound(s, x, r);
    case Extending(_, _, _, _, _) => HeardExtending(s, x, r);
    case Refused(_) => HeardRefused(s, x, r);
  }

  lemma HeardSearching(s: State, x: Exchange, r: Reply)
    requires Realises(s, x) && x.stage.Searching?
    ensures Realises(Receive(s, r).0, Heard(x, r))
  {
    if Offers(x.xid, r) {
      assert Receive(s, r).0.timers == Due(Heard(x, r).stage);
    }
  }

  lemma HeardAsking(s: State, x: Exchange, r: Reply)
    requires Realises(s, x) && x.stage.Asking?
    ensures Realises(Receive(s, r).0, Heard(x, r))
  {
    assert Receive(s, r).0.timers == Due(Heard(x, r).stage);
  }

  lemma HeardBound(s: State, x: Exchange, r: Reply)
    requires Realises(s, x) && x.stage.Bound?
    ensures Realises(Receive(s, r).0, Heard(x, r))
  {
    assert Receive(s, r).0.timers == Due(Heard(x, r).stage);
  }

  lemma HeardExtending(s: State, x: Exchange, r: Reply)
    requires Realises(s, x) && x.stage.Extending?
    ensures Realises(Receive(s, r).0, Heard(x, r))
  {
    if r.kind == Ack {
      ExtendingAck(s, x, r);
    } else {
      assert Receive(s, r).0.timers == Due(Heard(x, r).stage);
    }
  }

  lemma ExtendingAck(s: State, x: Exchange, r: Reply)
    requires Realises(s, x) && x.stage.Extending? && r.kind == Ack
    ensures Realises(Receive(s, r).0, Heard(x, r))
  {
    if Confirms(x.stage.offer, r) {
      assert Receive(s, r).0.timers == Due(Heard(x, r).stage);
    }
  }

  lemma HeardRefused(s: State, x: Exchange, r: Reply)
    requires Realises(s, x) && x.stage.Refused?
    ensures Realises(Receive(s, r).0, Heard(x, r))
  {
  }

  lemma FireRealises(s: State, x: Exchange, t: Timer, newXid: nat)
    requires Realises(s, x) && t in s.timers
    ensures Realises(Fire(s, t, newXid).0, TimeIsUp(x, t, newXid))
  {
    hide Realises, Fire, TimeIsUp, Due;
    match x.stage
    case Searching(_) => SearchingFires(s, x, t, newXid);
    case Asking(_, _, _) => AskingFires(s, x, t, newXid);
    case Bound(_, _, _, _) => BoundFires(s, x, t, newXid);
    case Extending(_, _, _, _, _) => ExtendingFires(s, x, t, newXid);
    case Refused(_) => SearchingFires(s, x, t, newXid);
  }

  lemma SearchingFires(s: State, x: Exchange, t: Timer, newXid: nat)
    requires Realises(s, x) && t in s.timers && (x.stage.Searching? || x.stage.Refused?)
    ensures Realises(Fire(s, t, newXid).0, TimeIsUp(x, t, newXid))
  {
    assert t == ResetTimer;
    assert Fire(s, t, newXid).0.timers == Due(TimeIsUp(x, t, newXid).stage);
  }

  lemma AskingFires(s: State, x: Exchange, t: Timer, newXid: nat)
    requires Realises(s, x) && t in s.timers && x.stage.Asking?
    ensures Realises(Fire(s, t, newXid).0, TimeIsUp(x, t, newXid))
  {
    assert t == RequestTimer;
    assert Fire(s, t, newXid).0.timers == Due(TimeIsUp(x, t, newXid).stage);
  }

  lemma BoundFires(s: State, x: Exchange, t: Timer, newXid: nat)
    requires Realises(s, x) && t in s.timers && x.stage.Bound?
    ensures Realises(Fire(s, t, newXid).0, TimeIsUp(x, t, newXid))
  {
    assert t == RenewTimer;
    assert Fire(s, t, newXid).0.timers == Due(TimeIsUp(x, t, newXid).stage);
  }

  lemma ExtendingFires(s: State, x: Exchange, t: Timer, newXid: nat)
    requires Realises(s, x) && t in s.timers && x.stage.Extending?
    ensures Realises(Fire(s, t, newXid).0, TimeIsUp(x, t, newXid))
  {
    assert t == RenewRequestTimer || t == LeaseTimer;
    assert Fire(s, t, newXid).0.timers == Due(TimeIsUp(x, t, newXid).stage);
  }

  lemma StepRealises(late: nat, s: State, x: Exchange, ev: Event)
    requires Realises(s, x) && Enabled(late, s, ev)
    ensures Realises(Step(s, ev).0, Next(x, ev))
  {
    match ev
    case Wait(_) =>
    case Received(r) => ReceiveRealises(s, x, r);
    case Fired(t, newXid) => FireRealises(s, x, t, newXid);
    case SendDone =>
  }

  lemma {:induction false} RunRealises(late: nat, s: State, h: History, x: Exchange, evs: seq<Event>)
    requires Realises(s, x) && Possible(late, s, evs)
    ensures Realises(Run(s, h, evs).0, Follow(x, evs))
    decreases |evs|
  {
    hide Realises, Step, Next, Note, Enabled;
    if evs != [] {
      StepRealises(late, s, x, evs[0]);
      var (s', report) := Step(s, evs[0]);
      RunRealises(late, s', Note(h, s, evs[0], s', report), Next(x, evs[0]), evs[1..]);
    }
  }

  /**
   * In every run the client is at the stage that the replies and the passing of time have brought about: its timers are
   * due when the stage says, it has sent exactly what the stages say, and what it holds is what the server granted.
   */
  lemma FollowsProtocol(late: nat, now: int, newXid: nat, evs: seq<Event>)
    requires Possible(late, Initial(now, newXid), evs)
    ensures Realises(Run(Initial(now, newXid), NO_HISTORY, evs).0, Follow(Begin(now, newXid), evs))
  {
    InitialRealises(now, newXid);
    RunRealises(late, Initial(now, newXid), NO_HISTORY, Begin(now, newXid), evs);
  }

  // ---------- what each reply does ----------

  /** The offer and the acknowledgements that the run remembers are those of the exchange. */
  predicate Remembers(h: History, x: Exchange) {
    && (x.stage.Asking? || x.stage.Bound? || x.stage.Extending? ==> h.offer == Some(x.stage.offer))
    && (x.stage.Bound? || x.stage.Extending? ==> h.first == Some(x.stage.first) && h.ack == Some(x.stage.ack))
    && (x.stage.Bound? ==> h.ackAt == x.stage.since)
  }

  lemma StepRemembers(late: nat, s: State, h: History, x: Exchange, ev: Event)
    requires Realises(s, x) && Realises(Step(s, ev).0, Next(x, ev)) && Remembers(h, x) && Enabled(late, s, ev)
    ensures var (s', report) := Step(s, ev); Remembers(Note(h, s, ev, s', report), Next(x, ev))
  {
    hide Step, Sound, Due;
  }

  lemma {:induction false} RunRemembers(late: nat, s: State, h: History, x: Exchange, evs: seq<Event>)
    requires Realises(s, x) && Remembers(h, x) && Possible(late, s, evs)
    ensures var (s', h') := Run(s, h, evs); Realises(s', Follow(x, evs)) && Remembers(h', Follow(x, evs))
    decreases |evs|
  {
    hide Realises, Remembers, Step, Next, Note, Enabled;
    if evs != [] {
      StepRealises(late, s, x, evs[0]);
      StepRemembers(late, s, h, x, evs[0]);
      var (s', report) := Step(s, evs[0]);
      RunRemembers(late, s', Note(h, s, evs[0], s', report), Next(x, evs[0]), evs[1..]);
    }
  }

  /**
   * In every run, of the next reply and the offer last taken: an offer is taken, the client comes up, a renewal is
   * accepted and a refusal obeyed, each if and only if the client waits for it and the reply is what it waits for, from
   * the server in question; and nothing else that arrives changes anything.
   */
  lemma RepliesExactly(late: nat, now: int, newXid: nat, evs: seq<Event>, r: Reply)
    requires Possible(late, Initial(now, newXid), evs)
    ensures var (s, h) := Run(Initial(now, newXid), NO_HISTORY, evs);
            var s' := Step(s, Received(r)).0;
            && (s.phase == SentRequest || Up(s.phase) ==> h.offer.Some?)
            && (s.phase == SentDiscover && s'.phase == SentRequest <==> s.phase == SentDiscover && Offers(s.xid, r))
            && (s.phase == SentRequest && s'.phase == Finished <==> s.phase == SentRequest && Confirms(h.offer.value, r))
            && (s.phase == Renewing && s'.phase == Finished <==> s.phase == Renewing && Confirms(h.offer.value, r))
            && (s.phase != Resetting && s'.phase == Resetting <==>
                  (s.phase == SentRequest || Up(s.phase)) && Refuses(h.offer.value, r))
            && (s'.phase == s.phase ==> s' == s)
  {
    InitialRealises(now, newXid);
    RunRemembers(late, Initial(now, newXid), NO_HISTORY, Begin(now, newXid), evs);
    var (s, h) := Run(Initial(now, newXid), NO_HISTORY, evs);
    ReplyExactly(s, h, Follow(Begin(now, newXid), evs), r);
  }

  lemma ReplyExactly(s: State, h: History, x: Exchange, r: Reply)
    requires Realises(s, x) && Remembers(h, x)
    ensures var s' := Step(s, Received(r)).0;
            && (s.phase == SentRequest || Up(s.phase) ==> h.offer.Some?)
            && (s.phase == SentDiscover && s'.phase == SentRequest <==> s.phase == SentDiscover && Offers(s.xid, r))
            && (s.phase == SentRequest && s'.phase == Finished <==> s.phase == SentRequest && Confirms(h.offer.value, r))
            && (s.phase == Renewing && s'.phase == Finished <==> s.phase == Renewing && Confirms(h.offer.value, r))
            && (s.phase != Resetting && s'.phase == Resetting <==>
                  (s.phase == SentRequest || Up(s.phase)) && Refuses(h.offer.value, r))
            && (s'.phase == s.phase ==> s' == s)
  {
    ReceiveRealises(s, x, r);
  }

  // ---------- coming up and going down ----------

  /**
   * The client comes up exactly when it is asking for an offer and the server confirms it; it goes down exactly when the
   * server refuses, or when it could not extend the lease in time.
   */
  lemma UpAndDownExactly(late: nat, now: int, newXid: nat, evs: seq<Event>, ev: Event)
    requires Possible(late, Initial(now, newXid), evs)
    requires Enabled(late, Run(Initial(now, newXid), NO_HISTORY, evs).0, ev)
    ensures var s, st := Run(Initial(now, newXid), NO_HISTORY, evs).0, Follow(Begin(now, newXid), evs).stage;
            && (Step(s, ev).1 == ReportUp <==> st.Asking? && ev.Received? && Confirms(st.offer, ev.reply))
            && (Step(s, ev).1 == ReportDown <==>
                  || ((st.Bound? || st.Extending?) && ev.Received? && Refuses(st.offer, ev.reply))
                  || (st.Extending? && ev.Fired? && ev.timer == LeaseTimer))
  {
    FollowsProtocol(late, now, newXid, evs);
    ReportsExactly(late, Run(Initial(now, newXid), NO_HISTORY, evs).0, Follow(Begin(now, newXid), evs), ev);
  }

  lemma ReportsExactly(late: nat, s: State, x: Exchange, ev: Event)
    requires Realises(s, x) && Enabled(late, s, ev)
    ensures var st := x.stage;
            && (Step(s, ev).1 == ReportUp <==> st.Asking? && ev.Received? && Confirms(st.offer, ev.reply))
            && (Step(s, ev).1 == ReportDown <==>
                  || ((st.Bound? || st.Extending?) && ev.Received? && Refuses(st.offer, ev.reply))
                  || (st.Extending? && ev.Fired? && ev.timer == LeaseTimer))
  {
    match x.stage
    case Searching(_) =>
    case Asking(_, _, _) =>
    case Bound(_, _, _, _) =>
    case Extending(_, _, _, _, _) =>
    case Refused(_) =>
  }

  /** Nothing that happens meanwhile decides about the offer. */
  predicate Undecided(o: Reply, evs: seq<Event>) {
    forall ev :: ev in evs ==> !ev.Fired? && (ev.Received? ==> !Confirms(o, ev.reply) && !Refuses(o, ev.reply))
  }

  lemma {:induction false} StillAsking(x: Exchange, evs: seq<Event>)
    requires x.stage.Asking? && Undecided(x.stage.offer, evs)
    ensures Follow(x, evs).stage == x.stage
    decreases |evs|
  {
    if evs != [] {
      assert evs[0] in evs;
      StillAsking(Next(x, evs[0]), evs[1..]);
    }
  }

  lemma {:induction false} FollowJoin(x: Exchange, a: seq<Event>, b: seq<Event>)
    ensures Follow(x, a + b) == Follow(Follow(x, a), b)
    decreases |a|
  {
    if a == [] {
      assert a + b == b;
    } else {
      assert (a + b)[0] == a[0] && (a + b)[1..] == a[1..] + b;
      FollowJoin(Next(x, a[0]), a[1..], b);
    }
  }

  /**
   * A server that offers in the transaction of a search, and confirms before the client has asked again, brings the client
   * up with the address that it offered and the parameters that it confirmed.
   */
  lemma AnsweredComesUp(late: nat, now: int, newXid: nat, past: seq<Event>, o: Reply, meanwhile: seq<Event>, r: Reply)
    requires Possible(late, Initial(now, newXid), past + [Received(o)] + meanwhile + [Received(r)])
    requires Follow(Begin(now, newXid), past).stage.Searching? && Offers(Follow(Begin(now, newXid), past).xid, o)
    requires Undecided(o, meanwhile) && Confirms(o, r)
    ensures var s := Run(Initial(now, newXid), NO_HISTORY, past + [Received(o)] + meanwhile + [Received(r)]).0;
            && Up(s.phase) && s.offered == Offered(o.yiaddr, o.server.value)
            && s.acked == Acked(r.lease.value, r.mask.value, r.router, r.dns)
            && s.timers == map[RenewTimer := s.now + 500 * r.lease.value]
  {
    var x := Begin(now, newXid);
    var x1 := Follow(x, past);
    FollowJoin(x, past + [Received(o)] + meanwhile, [Received(r)]);
    FollowJoin(x, past + [Received(o)], meanwhile);
    FollowJoin(x, past, [Received(o)]);
    assert [Received(o)][1..] == [] && [Received(r)][1..] == [];
    assert Follow(x1, [Received(o)]) == Heard(x1, o);
    StillAsking(Heard(x1, o), meanwhile);
    var x2 := Follow(Heard(x1, o), meanwhile);
    assert Follow(x2, [Received(r)]) == Heard(x2, r);
    FollowsProtocol(late, now, newXid, past + [Received(o)] + meanwhile + [Received(r)]);
  }
}
