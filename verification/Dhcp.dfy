/**
 * The DHCP client: discovering a server, requesting the address that it offers, renewing the lease and
 * giving the address up when the lease runs out. Times are in milliseconds.
 */
module Dhcp {
  import opened Options

  const RESET_TIMEOUT := 4000
  const REQUEST_TIMEOUT := 3000
  const RENEW_REQUEST_TIMEOUT := 20000
  const MAX_REQUESTS := 4
  const XID_REUSE_MAX := 8

  function RenewTimeout(lease: nat): nat {
    500 * lease
  }

  function LeaseTimeout(lease: nat): nat {
    1000 * lease - RenewTimeout(lease)
  }

  datatype Phase = Resetting | SentDiscover | SentRequest | Finished | Renewing

  datatype Timer = ResetTimer | RequestTimer | RenewTimer | RenewRequestTimer | LeaseTimer

  datatype Kind = Offer | Ack | Nak | OtherKind

  /** A reply with a good header and well-formed options; what is optional in it may be missing. */
  datatype Reply = Reply(xid: nat, kind: Kind, server: Option<nat>, yiaddr: nat, lease: Option<nat>, mask: Option<nat>,
                         router: Option<nat>, dns: seq<nat>)

  datatype Offered = Offered(yiaddr: nat, server: nat)

  datatype Acked = Acked(lease: nat, mask: nat, router: Option<nat>, dns: seq<nat>)

  /** What is sent: a discovery, or a request for an address, to one server or to any. */
  datatype Request = Discover(xid: nat) | Request(xid: nat, yiaddr: nat, server: Option<nat>)

  /** `timers` says which timers are running, and until when; `sent` is all that has been handed to the network. */
  datatype State = State(now: int, phase: Phase, timers: map<Timer, int>, requestCount: nat, xid: nat, xidReuse: nat,
                         offered: Offered, acked: Acked, sending: bool, sent: seq<Request>)

  predicate Up(phase: Phase) {
    phase == Finished || phase == Renewing
  }

  /** A message is dropped if the previous one is still being sent. */
  function SendMessage(s: State, r: Request): State {
    if s.sending then s else s.(sending := true, sent := s.sent + [r])
  }

  function SetTimer(s: State, t: Timer, after: nat): State {
    s.(timers := s.timers[t := s.now + after])
  }

  function StopTimer(s: State, t: Timer): State {
    s.(timers := s.timers - {t})
  }

  /** Starts looking for a server; `newXid` is a new random transaction id. */
  function StartProcess(s: State, force: bool, newXid: nat): State {
    var s1 := if force || s.xidReuse == XID_REUSE_MAX then s.(xid := newXid, xidReuse := 0) else s;
    var s2 := s1.(xidReuse := s1.xidReuse + 1);
    SetTimer(SendMessage(s2, Discover(s2.xid)), ResetTimer, RESET_TIMEOUT).(phase := SentDiscover)
  }

  function Initial(now: int, newXid: nat): State {
    StartProcess(State(now, Resetting, map[], 0, 0, 0, Offered(0, 0), Acked(0, 0, None, []), false, []), true, newXid)
  }

  // ---------- receiving ----------

  datatype Report = NoReport | ReportUp | ReportDown

  function ReceiveNak(s: State, r: Reply): (State, Report)
    requires r.server.Some?
  {
    if s.phase != SentRequest && s.phase != Finished && s.phase != Renewing then (s, NoReport)
    else if r.server.value != s.offered.server then (s, NoReport)
    else if s.phase == SentRequest then
      (SetTimer(StopTimer(s, RequestTimer), ResetTimer, RESET_TIMEOUT).(phase := Resetting), NoReport)
    else if s.phase == Finished then
      (SetTimer(StopTimer(s, RenewTimer), ResetTimer, RESET_TIMEOUT).(phase := Resetting), ReportDown)
    else
      (SetTimer(StopTimer(StopTimer(s, RenewRequestTimer), LeaseTimer), ResetTimer, RESET_TIMEOUT).(phase := Resetting), ReportDown)
  }

  function ReceiveOffer(s: State, r: Reply): State
    requires r.server.Some?
  {
    var s1 := s.(offered := Offered(r.yiaddr, r.server.value));
    var s2 := SendMessage(s1, Request(s.xid, r.yiaddr, r.server));
    SetTimer(StopTimer(s2, ResetTimer), RequestTimer, REQUEST_TIMEOUT).(phase := SentRequest, requestCount := 1)
  }

  function ReceiveAck(s: State, r: Reply): (State, Report)
    requires r.server.Some? && r.lease.Some? && r.mask.Some?
  {
    if r.yiaddr != s.offered.yiaddr || r.server.value != s.offered.server then (s, NoReport)
    else if s.phase == SentRequest then
      var s1 := s.(acked := Acked(r.lease.value, r.mask.value, r.router, r.dns));
      (SetTimer(StopTimer(s1, RequestTimer), RenewTimer, RenewTimeout(r.lease.value)).(phase := Finished), ReportUp)
    else
      var s1 := s.(acked := s.acked.(lease := r.lease.value));
      (SetTimer(StopTimer(StopTimer(s1, RenewRequestTimer), LeaseTimer), RenewTimer, RenewTimeout(r.lease.value)).(phase := Finished),
       NoReport)
  }

  function Receive(s: State, r: Reply): (State, Report) {
    if s.phase == Resetting || r.xid != s.xid || r.kind == OtherKind || r.server.None? then (s, NoReport)
    else if r.kind == Nak then ReceiveNak(s, r)
    else if r.yiaddr == 0 || r.lease.None? || r.mask.None? then (s, NoReport)
    else if s.phase == SentDiscover && r.kind == Offer then (ReceiveOffer(s, r), NoReport)
    else if (s.phase == SentRequest || s.phase == Renewing) && r.kind == Ack then ReceiveAck(s, r)
    else (s, NoReport)
  }

  // ---------- timers ----------

  function RequestFires(s: State, newXid: nat): State {
    if s.requestCount == MAX_REQUESTS then StartProcess(s, false, newXid)
    else
      SetTimer(SendMessage(s, Request(s.xid, s.offered.yiaddr, Some(s.offered.server))), RequestTimer, REQUEST_TIMEOUT)
        .(requestCount := s.requestCount + 1)
  }

  function RenewFires(s: State): State {
    var s1 := SetTimer(SendMessage(s, Request(s.xid, s.offered.yiaddr, None)), RenewRequestTimer, RENEW_REQUEST_TIMEOUT);
    SetTimer(s1, LeaseTimer, LeaseTimeout(s.acked.lease)).(phase := Renewing)
  }

  function RenewRequestFires(s: State): State {
    SetTimer(SendMessage(s, Request(s.xid, s.offered.yiaddr, None)), RenewRequestTimer, RENEW_REQUEST_TIMEOUT)
  }

  function LeaseFires(s: State, newXid: nat): State {
    StartProcess(StopTimer(s, RenewRequestTimer), true, newXid)
  }

  /** A timer that fires is no longer running. */
  function Fire(s: State, t: Timer, newXid: nat): (State, Report) {
    var s1 := StopTimer(s, t);
    match t
    case ResetTimer => (StartProcess(s1, s.phase == Resetting, newXid), NoReport)
    case RequestTimer => (RequestFires(s1, newXid), NoReport)
    case RenewTimer => (RenewFires(s1), NoReport)
    case RenewRequestTimer => (RenewRequestFires(s1), NoReport)
    case LeaseTimer => (LeaseFires(s1, newXid), ReportDown)
  }

  // ---------- events ----------

  datatype Event = Wait(until: int) | Received(reply: Reply) | Fired(timer: Timer, newXid: nat) | SendDone

  /** Timers fire when they are due or up to `late` milliseconds after that, and no time passes beyond it. */
  predicate Enabled(late: nat, s: State, ev: Event) {
    match ev
    case Wait(t) => s.now <= t && forall x :: x in s.timers ==> t <= s.timers[x] + late
    case Received(_) => true
    case Fired(x, _) => x in s.timers && s.timers[x] <= s.now
    case SendDone => s.sending
  }

  function Step(s: State, ev: Event): (State, Report) {
    match ev
    case Wait(t) => (s.(now := t), NoReport)
    case Received(r) => Receive(s, r)
    case Fired(t, newXid) => Fire(s, t, newXid)
    case SendDone => (s.(sending := false), NoReport)
  }

  // ---------- the invariant ----------

  function Running(phase: Phase): set<Timer> {
    match phase
    case Resetting => {ResetTimer}
    case SentDiscover => {ResetTimer}
    case SentRequest => {RequestTimer}
    case Finished => {RenewTimer}
    case Renewing => {RenewRequestTimer, LeaseTimer}
  }

  predicate OnTime(late: nat, s: State) {
    forall x :: x in s.timers ==> s.now <= s.timers[x] + late
  }

  predicate Inv(late: nat, s: State) {
    && s.timers.Keys == Running(s.phase)
    && OnTime(late, s)
    && (s.phase == SentRequest ==> 1 <= s.requestCount <= MAX_REQUESTS)
    && 1 <= s.xidReuse <= XID_REUSE_MAX
  }

  /** The phases in which the program asserts to be when a timer fires. */
  predicate MayFire(phase: Phase, t: Timer) {
    match t
    case ResetTimer => phase == Resetting || phase == SentDiscover
    case RequestTimer => phase == SentRequest
    case RenewTimer => phase == Finished
    case RenewRequestTimer => phase == Renewing
    case LeaseTimer => phase == Renewing
  }

  /**
   * What is remembered of a run: what was reported, the offer last accepted, the acknowledgement that
   * brought the client up, the last one accepted, and when that was.
   */
  datatype History = History(reports: seq<bool>, offer: Option<Reply>, first: Option<Reply>, ack: Option<Reply>, ackAt: int)

  const NO_HISTORY := History([], None, None, None, 0)

  function Note(h: History, s: State, ev: Event, s': State, report: Report): History {
    var h1 := match report
              case NoReport => h
              case ReportUp => h.(reports := h.reports + [true])
              case ReportDown => h.(reports := h.reports + [false]);
    if ev.Received? && s.phase == SentDiscover && s'.phase == SentRequest then h1.(offer := Some(ev.reply))
    else if ev.Received? && (s.phase == SentRequest || s.phase == Renewing) && s'.phase == Finished then
      h1.(first := if s.phase == SentRequest then Some(ev.reply) else h1.first, ack := Some(ev.reply), ackAt := s.now)
    else h1
  }

  /** Up and down are reported in turn, beginning with up; the last report is the phase. */
  predicate Alternating(s: State, h: History) {
    && (forall i :: 0 <= i < |h.reports| ==> h.reports[i] == (i % 2 == 0))
    && (Up(s.phase) <==> |h.reports| % 2 == 1)
  }

  /** What was offered is what was requested. */
  predicate OfferKept(s: State, h: History) {
    s.phase == SentRequest || Up(s.phase) ==>
      && h.offer.Some? && h.offer.value.kind == Offer
      && h.offer.value.xid == s.xid && h.offer.value.yiaddr == s.offered.yiaddr && h.offer.value.server == Some(s.offered.server)
  }

  /** What was acknowledged is what was offered, and by the same server. */
  predicate AckKept(s: State, h: History) {
    Up(s.phase) ==>
      && h.ack.Some? && h.ack.value.kind == Ack
      && h.ack.value.xid == s.xid && h.ack.value.yiaddr == s.offered.yiaddr && h.ack.value.server == Some(s.offered.server)
      && h.ack.value.lease == Some(s.acked.lease)
      && h.first.Some? && h.first.value.mask == Some(s.acked.mask)
      && h.first.value.router == s.acked.router && h.first.value.dns == s.acked.dns
  }

  /** How far the timers are from the last acknowledgement. */
  predicate LeaseKept(late: nat, s: State, h: History) {
    && (s.phase == Finished ==> RenewTimer in s.timers && s.timers[RenewTimer] == h.ackAt + RenewTimeout(s.acked.lease))
    && (s.phase == Renewing ==> LeaseTimer in s.timers && s.timers[LeaseTimer] <= h.ackAt + 1000 * s.acked.lease + late)
  }

  predicate Good(late: nat, s: State, h: History) {
    Inv(late, s) && Alternating(s, h) && OfferKept(s, h) && AckKept(s, h) && LeaseKept(late, s, h)
  }

  lemma InitialGood(late: nat, now: int, newXid: nat)
    ensures Good(late, Initial(now, newXid), NO_HISTORY)
  {
  }

  /** No assertion about the phase fails when a timer fires. */
  lemma FiresInPhase(late: nat, s: State, t: Timer)
    requires Inv(late, s) && t in s.timers
    ensures MayFire(s.phase, t)
    ensures t == RequestTimer ==> 1 <= s.requestCount <= MAX_REQUESTS
  {
  }

  lemma ReceivedGood(late: nat, s: State, h: History, r: Reply)
    requires Good(late, s, h)
    ensures var (s', report) := Step(s, Received(r)); Good(late, s', Note(h, s, Received(r), s', report))
  {
    match r.kind
    case Nak => NakGood(late, s, h, r);
    case Offer => OfferGood(late, s, h, r);
    case Ack => AckGood(late, s, h, r);
    case OtherKind =>
  }

  lemma NakGood(late: nat, s: State, h: History, r: Reply)
    requires Good(late, s, h) && r.kind == Nak
    ensures var (s', report) := Step(s, Received(r)); Good(late, s', Note(h, s, Received(r), s', report))
  {
    if Up(s.phase) {
      NakUpGood(late, s, h, r);
    } else {
      NakDownGood(late, s, h, r);
    }
  }

  lemma NakUpGood(late: nat, s: State, h: History, r: Reply)
    requires Good(late, s, h) && r.kind == Nak && Up(s.phase)
    ensures var (s', report) := Step(s, Received(r)); Good(late, s', Note(h, s, Received(r), s', report))
  {
  }

  lemma NakDownGood(late: nat, s: State, h: History, r: Reply)
    requires Good(late, s, h) && r.kind == Nak && !Up(s.phase)
    ensures var (s', report) := Step(s, Received(r)); Good(late, s', Note(h, s, Received(r), s', report))
  {
  }

  lemma OfferGood(late: nat, s: State, h: History, r: Reply)
    requires Good(late, s, h) && r.kind == Offer
    ensures var (s', report) := Step(s, Received(r)); Good(late, s', Note(h, s, Received(r), s', report))
  {
  }

  lemma AckGood(late: nat, s: State, h: History, r: Reply)
    requires Good(late, s, h) && r.kind == Ack
    ensures var (s', report) := Step(s, Received(r)); Good(late, s', Note(h, s, Received(r), s', report))
  {
    if s.phase == SentRequest {
      FirstAckGood(late, s, h, r);
    } else if s.phase == Renewing {
      RenewedGood(late, s, h, r);
    }
  }

  lemma FirstAckGood(late: nat, s: State, h: History, r: Reply)
    requires Good(late, s, h) && r.kind == Ack && s.phase == SentRequest
    ensures var (s', report) := Step(s, Received(r)); Good(late, s', Note(h, s, Received(r), s', report))
  {
  }

  lemma RenewedGood(late: nat, s: State, h: History, r: Reply)
    requires Good(late, s, h) && r.kind == Ack && s.phase == Renewing
    ensures var (s', report) := Step(s, Received(r)); Good(late, s', Note(h, s, Received(r), s', report))
  {
  }

  lemma FiredGood(late: nat, s: State, h: History, t: Timer, newXid: nat)
    requires Good(late, s, h) && Enabled(late, s, Fired(t, newXid))
    ensures var (s', report) := Step(s, Fired(t, newXid)); Good(late, s', Note(h, s, Fired(t, newXid), s', report))
  {
    hide Good, Step, Note;
    match t
    case ResetTimer => ResetGood(late, s, h, newXid);
    case RequestTimer => RequestGood(late, s, h, newXid);
    case RenewTimer => RenewGood(late, s, h, newXid);
    case RenewRequestTimer => RenewRequestGood(late, s, h, newXid);
    case LeaseTimer => LeaseGood(late, s, h, newXid);
  }

  lemma ResetGood(late: nat, s: State, h: History, newXid: nat)
    requires Good(late, s, h) && Enabled(late, s, Fired(ResetTimer, newXid))
    ensures var (s', report) := Step(s, Fired(ResetTimer, newXid)); Good(late, s', Note(h, s, Fired(ResetTimer, newXid), s', report))
  {
    FiresInPhase(late, s, ResetTimer);
  }

  lemma RequestGood(late: nat, s: State, h: History, newXid: nat)
    requires Good(late, s, h) && Enabled(late, s, Fired(RequestTimer, newXid))
    ensures var (s', report) := Step(s, Fired(RequestTimer, newXid)); Good(late, s', Note(h, s, Fired(RequestTimer, newXid), s', report))
  {
    FiresInPhase(late, s, RequestTimer);
  }

  lemma RenewGood(late: nat, s: State, h: History, newXid: nat)
    requires Good(late, s, h) && Enabled(late, s, Fired(RenewTimer, newXid))
    ensures var (s', report) := Step(s, Fired(RenewTimer, newXid)); Good(late, s', Note(h, s, Fired(RenewTimer, newXid), s', report))
  {
    FiresInPhase(late, s, RenewTimer);
  }

  lemma RenewRequestGood(late: nat, s: State, h: History, newXid: nat)
    requires Good(late, s, h) && Enabled(late, s, Fired(RenewRequestTimer, newXid))
    ensures var (s', report) := Step(s, Fired(RenewRequestTimer, newXid));
            Good(late, s', Note(h, s, Fired(RenewRequestTimer, newXid), s', report))
  {
    FiresInPhase(late, s, RenewRequestTimer);
  }

  lemma LeaseGood(late: nat, s: State, h: History, newXid: nat)
    requires Good(late, s, h) && Enabled(late, s, Fired(LeaseTimer, newXid))
    ensures var (s', report) := Step(s, Fired(LeaseTimer, newXid)); Good(late, s', Note(h, s, Fired(LeaseTimer, newXid), s', report))
  {
    FiresInPhase(late, s, LeaseTimer);
  }

  lemma StepGood(late: nat, s: State, h: History, ev: Event)
    requires Good(late, s, h) && Enabled(late, s, ev)
    ensures var (s', report) := Step(s, ev); Good(late, s', Note(h, s, ev, s', report))
  {
    match ev
    case Wait(t) =>
    case Received(r) => ReceivedGood(late, s, h, r);
    case Fired(t, newXid) => FiredGood(late, s, h, t, newXid);
    case SendDone =>
  }

  /** What a change of phase is for the user: the client has come up, has gone down, or neither. */
  function Change(before: Phase, after: Phase): Report {
    if !Up(before) && Up(after) then ReportUp else if Up(before) && !Up(after) then ReportDown else NoReport
  }

  /** The user is told exactly when the client comes up and when it goes down. */
  lemma ReportExactly(late: nat, s: State, ev: Event)
    requires Inv(late, s) && Enabled(late, s, ev)
    ensures Step(s, ev).1 == Change(s.phase, Step(s, ev).0.phase)
  {
    if ev.Fired? {
      FiresInPhase(late, s, ev.timer);
    }
  }

  // ---------- runs ----------

  predicate Possible(late: nat, s: State, evs: seq<Event>)
    decreases |evs|
  {
    evs == [] || (Enabled(late, s, evs[0]) && Possible(late, Step(s, evs[0]).0, evs[1..]))
  }

  function Run(s: State, h: History, evs: seq<Event>): (State, History)
    decreases |evs|
  {
    if evs == [] then (s, h)
    else
      var (s', report) := Step(s, evs[0]);
      Run(s', Note(h, s, evs[0], s', report), evs[1..])
  }

  lemma {:induction false} RunGood(late: nat, s: State, h: History, evs: seq<Event>)
    requires Good(late, s, h) && Possible(late, s, evs)
    ensures var (s', h') := Run(s, h, evs); Good(late, s', h')
    decreases |evs|
  {
    hide Good, Step, Note, Enabled;
    if evs != [] {
      StepGood(late, s, h, evs[0]);
      var (s', report) := Step(s, evs[0]);
      RunGood(late, s', Note(h, s, evs[0], s', report), evs[1..]);
    }
  }

  /**
   * In every run: the running timers are those of the phase; up and down are reported in turn, and the client
   * is up exactly in the phases Finished and Renewing; while it is up, its address was offered and then
   * acknowledged by the same server in the same transaction, and its mask, router and name servers are those
   * of the acknowledgement that brought it up; and it is up no longer than the lease after the last
   * acknowledgement, give or take how late its two timers may be.
   */
  lemma RunSafety(late: nat, now: int, newXid: nat, evs: seq<Event>)
    requires Possible(late, Initial(now, newXid), evs)
    ensures var (s, h) := Run(Initial(now, newXid), NO_HISTORY, evs);
            && s.timers.Keys == Running(s.phase)
            && (forall i :: 0 <= i < |h.reports| ==> h.reports[i] == (i % 2 == 0))
            && (Up(s.phase) <==> |h.reports| % 2 == 1)
            && (Up(s.phase) ==>
                  && h.offer.Some? && h.offer.value.kind == Offer && h.ack.Some? && h.ack.value.kind == Ack
                  && h.offer.value.yiaddr == h.ack.value.yiaddr == s.offered.yiaddr
                  && h.offer.value.server == h.ack.value.server && h.offer.value.xid == h.ack.value.xid
                  && h.first.Some? && h.first.value.mask == Some(s.acked.mask)
                  && h.first.value.router == s.acked.router && h.first.value.dns == s.acked.dns
                  && h.ack.value.lease.Some? && s.now <= h.ackAt + 1000 * h.ack.value.lease.value + 2 * late)
  {
    InitialGood(late, now, newXid);
    RunGood(late, Initial(now, newXid), NO_HISTORY, evs);
  }

  /** With timers that fire on time, the client is never up beyond its lease. */
  lemma NeverUpBeyondLease(now: int, newXid: nat, evs: seq<Event>)
    requires Possible(0, Initial(now, newXid), evs)
    ensures var (s, h) := Run(Initial(now, newXid), NO_HISTORY, evs);
            Up(s.phase) ==> h.ack.Some? && h.ack.value.lease.Some? && s.now <= h.ackAt + 1000 * h.ack.value.lease.value
  {
    RunSafety(0, now, newXid, evs);
  }
}
