/** The DHCP client as an object whose handlers change its state and its timers. */
module DhcpObject {
  import opened Bytes
  import opened Options
  import O = DhcpOptions
  import opened Dhcp
  import P = DhcpProtocol

  const BOOTREPLY := 2
  const ETHERNET := 1
  const MAGIC := 0x6382_5363

  /** The header of a received message, and the bytes after it; `Short` is anything too short for a header. */
  datatype Packet = Short | Packet(op: nat, htype: nat, hlen: nat, xid: nat, chaddr: bytes, magic: nat, yiaddr: nat, options: bytes)

  function KindOf(kind: Option<nat>): Kind {
    if kind == Some(2) then Offer else if kind == Some(5) then Ack else if kind == Some(6) then Nak else OtherKind
  }

  predicate HeaderOk(mac: bytes, p: Packet) {
    p.Packet? && p.op == BOOTREPLY && p.htype == ETHERNET && p.hlen == 6 && p.chaddr == mac && p.magic == MAGIC
  }

  /** The reply that a packet is, if it is one. */
  function ToReply(mac: bytes, p: Packet): Option<Reply> {
    if !HeaderOk(mac, p) then None
    else
      match O.ParseOptions(p.options)
      case None => None
      case Some(f) => Some(Reply(p.xid, KindOf(f.kind), f.server, p.yiaddr, f.lease, f.mask, f.router, f.dns))
  }

  /** What receiving a packet does. */
  function ReceivePacket(mac: bytes, s: State, p: Packet): (State, Report) {
    match ToReply(mac, p)
    case None => (s, NoReport)
    case Some(r) => Receive(s, r)
  }

  class Client {
    const mac: bytes
    var now: int
    var phase: Phase
    var timers: map<Timer, int>
    var requestCount: nat
    var xid: nat
    var xidReuse: nat
    var offered: Offered
    var acked: Acked
    var sending: bool
    ghost var sent: seq<Request>
    /** What is remembered of the run, the stage that the exchange has come to, and how late timers may fire. */
    ghost var h: History
    ghost var exchange: P.Exchange
    ghost const late: nat

    ghost function View(): State
      reads this
    {
      State(now, phase, timers, requestCount, xid, xidReuse, offered, acked, sending, sent)
    }

    /** What holds between handlers: all that is safe about a run, and the client is where the exchange is. */
    ghost predicate Valid()
      reads this
    {
      Good(late, View(), h) && P.Realises(View(), exchange)
    }

    constructor (mac: bytes, now: int, newXid: nat, ghost late: nat)
      ensures Valid() && View() == Initial(now, newXid) && h == NO_HISTORY && this.mac == mac && this.late == late
      ensures exchange == P.Begin(now, newXid)
    {
      this.mac, this.now, this.late, h := mac, now, late, NO_HISTORY;
      exchange := P.Begin(now, newXid);
      phase, timers, requestCount, xid, xidReuse := Resetting, map[], 0, 0, 0;
      offered, acked, sending, sent := Offered(0, 0), Acked(0, 0, None, []), false, [];
      new;
      StartProcess(true, newXid);
      InitialGood(late, now, newXid);
      P.InitialRealises(now, newXid);
    }

    method SendMessage(r: Request)
      modifies this`sending, this`sent
      ensures View() == Dhcp.SendMessage(old(View()), r)
    {
      if sending {
        return;
      }
      sending := true;
      sent := sent + [r];
    }

    method StartProcess(force: bool, newXid: nat)
      modifies this`xid, this`xidReuse, this`sending, this`sent, this`timers, this`phase
      ensures View() == Dhcp.StartProcess(old(View()), force, newXid)
    {
      if force || xidReuse == XID_REUSE_MAX {
        xid := newXid;
        xidReuse := 0;
      }
      xidReuse := xidReuse + 1;
      SendMessage(Discover(xid));
      timers := timers[ResetTimer := now + RESET_TIMEOUT];
      phase := SentDiscover;
    }

    // ---------- receiving ----------

    method ReceivedNak(server: nat) returns (report: Report)
      modifies this`timers, this`phase
      ensures forall r: Reply :: r.server == Some(server) ==> (View(), report) == ReceiveNak(old(View()), r)
    {
      report := NoReport;
      if phase != SentRequest && phase != Finished && phase != Renewing {
        return;
      }
      if server != offered.server {
        return;
      }
      if phase == SentRequest {
        timers := timers - {RequestTimer};
      } else if phase == Finished {
        timers := timers - {RenewTimer};
        report := ReportDown;
      } else {
        timers := timers - {RenewRequestTimer};
        timers := timers - {LeaseTimer};
        report := ReportDown;
      }
      timers := timers[ResetTimer := now + RESET_TIMEOUT];
      phase := Resetting;
    }

    method ReceivedOffer(r: Reply)
      requires r.server.Some? && r.xid == xid
      modifies this`offered, this`sending, this`sent, this`timers, this`phase, this`requestCount
      ensures View() == ReceiveOffer(old(View()), r)
    {
      offered := Offered(r.yiaddr, r.server.value);
      SendMessage(Request(xid, offered.yiaddr, Some(offered.server)));
      timers := timers - {ResetTimer};
      timers := timers[RequestTimer := now + REQUEST_TIMEOUT];
      phase := SentRequest;
      requestCount := 1;
    }

    method ReceivedAck(r: Reply) returns (report: Report)
      requires r.server.Some? && r.lease.Some? && r.mask.Some? && (phase == SentRequest || phase == Renewing)
      modifies this`acked, this`timers, this`phase
      ensures (View(), report) == ReceiveAck(old(View()), r)
    {
      report := NoReport;
      if r.yiaddr != offered.yiaddr {
        return;
      }
      if r.server.value != offered.server {
        return;
      }
      if phase == SentRequest {
        acked := Acked(r.lease.value, r.mask.value, r.router, r.dns);
        timers := timers - {RequestTimer};
        report := ReportUp;
      } else {
        acked := acked.(lease := r.lease.value);
        timers := timers - {RenewRequestTimer};
        timers := timers - {LeaseTimer};
      }
      timers := timers[RenewTimer := now + RenewTimeout(acked.lease)];
      phase := Finished;
    }

    /** Acts on a packet: checks its header and its options, and does what its kind calls for. */
    method ActOn(p: Packet) returns (report: Report)
      modifies this`offered, this`acked, this`sending, this`sent, this`timers, this`phase, this`requestCount
      ensures (View(), report) == ReceivePacket(mac, old(View()), p)
    {
      report := NoReport;
      if phase == Resetting {
        return;
      }
      if p.Short? || p.op != BOOTREPLY || p.htype != ETHERNET || p.hlen != 6 {
        return;
      }
      if p.xid != xid {
        return;
      }
      if p.chaddr != mac || p.magic != MAGIC {
        return;
      }
      var fields := O.Parse(p.options);
      if fields.None? {
        return;
      }
      var f := fields.value;
      var kind := KindOf(f.kind);
      if kind == OtherKind || f.server.None? {
        return;
      }
      var r := Reply(p.xid, kind, f.server, p.yiaddr, f.lease, f.mask, f.router, f.dns);
      if kind == Nak {
        report := ReceivedNak(f.server.value);
        return;
      }
      if p.yiaddr == 0 || f.lease.None? || f.mask.None? {
        return;
      }
      if phase == SentDiscover && kind == Offer {
        ReceivedOffer(r);
      } else if (phase == SentRequest || phase == Renewing) && kind == Ack {
        report := ReceivedAck(r);
      }
    }

    // ---------- handlers ----------

    /**
     * What every handler promises: what is safe stays so, the client does what the exchange calls for, and the user is told
     * exactly of coming up and going down.
     */
    twostate predicate Handled(ev: Event, report: Report)
      reads this
    {
      && Valid()
      && (View(), report) == Step(old(View()), ev)
      && h == Note(old(h), old(View()), ev, View(), report)
      && exchange == P.Next(old(exchange), ev)
      && report == Change(old(phase), phase)
    }

    /** A packet has arrived. */
    method RecvHandlerDone(p: Packet) returns (report: Report)
      requires Valid()
      modifies this
      ensures match ToReply(mac, p)
              case Some(r) => Handled(Received(r), report)
              case None => View() == old(View()) && h == old(h) && exchange == old(exchange) && report == NoReport
    {
      hide Good, Step, Note, Inv, Receive, ToReply, P.Realises, P.Next;
      ghost var s := View();
      report := ActOn(p);
      ghost var reply := ToReply(mac, p);
      if reply.Some? {
        StepGood(late, s, h, Received(reply.value));
        P.StepRealises(late, s, exchange, Received(reply.value));
        GoodInv(late, s, h);
        ReportExactly(late, s, Received(reply.value));
        StepReceives(s, reply.value);
        h := Note(h, s, Received(reply.value), View(), report);
        exchange := P.Next(exchange, Received(reply.value));
      }
    }

    method SendHandlerDone()
      requires Valid() && sending
      modifies this
      ensures Handled(SendDone, NoReport)
    {
      StepGood(late, View(), h, SendDone);
      P.StepRealises(late, View(), exchange, SendDone);
      sending := false;
      exchange := P.Next(exchange, SendDone);
    }

    /** Time passes, but not beyond what a timer that is due may be late. */
    method Elapse(until: int)
      requires Valid() && Enabled(late, View(), Wait(until))
      modifies this
      ensures Handled(Wait(until), NoReport)
    {
      StepGood(late, View(), h, Wait(until));
      P.StepRealises(late, View(), exchange, Wait(until));
      now := until;
      exchange := P.Next(exchange, Wait(until));
    }

    ghost predicate Due(t: Timer)
      reads this
    {
      t in timers && timers[t] <= now
    }

    /** The assertions that open the handler of a timer hold, and what the handler does is safe. */
    lemma FiringIsSafe(t: Timer, newXid: nat)
      requires Valid() && Due(t)
      ensures MayFire(phase, t) && (t == RequestTimer ==> 1 <= requestCount <= MAX_REQUESTS)
      ensures var (s', report) := Step(View(), Fired(t, newXid));
              && Good(late, s', Note(h, View(), Fired(t, newXid), s', report)) && report == Change(phase, s'.phase)
              && P.Realises(s', P.Next(exchange, Fired(t, newXid)))
    {
      hide Good, Step, Note, Inv, P.Realises, P.Next;
      P.StepRealises(late, View(), exchange, Fired(t, newXid));
      GoodInv(late, View(), h);
      FiresInPhase(late, View(), t);
      StepGood(late, View(), h, Fired(t, newXid));
      ReportExactly(late, View(), Fired(t, newXid));
    }

    method ResetTimerHandler(newXid: nat)
      requires Valid() && Due(ResetTimer)
      modifies this
      ensures Handled(Fired(ResetTimer, newXid), NoReport)
    {
      hide Good, Note, Change, Enabled, P.Realises, P.Next;
      FiringIsSafe(ResetTimer, newXid);
      ghost var s := View();
      assert phase == Resetting || phase == SentDiscover;
      timers := timers - {ResetTimer};
      StartProcess(phase == Resetting, newXid);
      h := Note(h, s, Fired(ResetTimer, newXid), View(), NoReport);
      exchange := P.Next(exchange, Fired(ResetTimer, newXid));
    }

    method RequestTimerHandler(newXid: nat)
      requires Valid() && Due(RequestTimer)
      modifies this
      ensures Handled(Fired(RequestTimer, newXid), NoReport)
    {
      hide Good, Note, Change, Enabled, P.Realises, P.Next, Dhcp.SendMessage, Dhcp.StartProcess;
      FiringIsSafe(RequestTimer, newXid);
      ghost var s := View();
      assert phase == SentRequest && 1 <= requestCount <= MAX_REQUESTS;
      timers := timers - {RequestTimer};
      if requestCount == MAX_REQUESTS {
        StartProcess(false, newXid);
      } else {
        SendMessage(Request(xid, offered.yiaddr, Some(offered.server)));
        timers := timers[RequestTimer := now + REQUEST_TIMEOUT];
        requestCount := requestCount + 1;
      }
      h := Note(h, s, Fired(RequestTimer, newXid), View(), NoReport);
      exchange := P.Next(exchange, Fired(RequestTimer, newXid));
    }

    method RenewTimerHandler(ghost newXid: nat)
      requires Valid() && Due(RenewTimer)
      modifies this
      ensures Handled(Fired(RenewTimer, newXid), NoReport)
    {
      hide Good, Note, Change, Enabled, P.Realises, P.Next;
      FiringIsSafe(RenewTimer, newXid);
      ghost var s := View();
      assert phase == Finished;
      timers := timers - {RenewTimer};
      SendMessage(Request(xid, offered.yiaddr, None));
      timers := timers[RenewRequestTimer := now + RENEW_REQUEST_TIMEOUT];
      timers := timers[LeaseTimer := now + LeaseTimeout(acked.lease)];
      phase := Renewing;
      h := Note(h, s, Fired(RenewTimer, newXid), View(), NoReport);
      exchange := P.Next(exchange, Fired(RenewTimer, newXid));
    }

    method RenewRequestTimerHandler(ghost newXid: nat)
      requires Valid() && Due(RenewRequestTimer)
      modifies this
      ensures Handled(Fired(RenewRequestTimer, newXid), NoReport)
    {
      hide Good, Note, Change, Enabled, P.Realises, P.Next;
      FiringIsSafe(RenewRequestTimer, newXid);
      ghost var s := View();
      assert phase == Renewing;
      timers := timers - {RenewRequestTimer};
      SendMessage(Request(xid, offered.yiaddr, None));
      timers := timers[RenewRequestTimer := now + RENEW_REQUEST_TIMEOUT];
      h := Note(h, s, Fired(RenewRequestTimer, newXid), View(), NoReport);
      exchange := P.Next(exchange, Fired(RenewRequestTimer, newXid));
    }

    method LeaseTimerHandler(newXid: nat) returns (report: Report)
      requires Valid() && Due(LeaseTimer)
      modifies this
      ensures Handled(Fired(LeaseTimer, newXid), report) && report == ReportDown
    {
      hide Good, Note, Change, Enabled, P.Realises, P.Next;
      FiringIsSafe(LeaseTimer, newXid);
      ghost var s := View();
      assert phase == Renewing;
      timers := timers - {LeaseTimer};
      timers := timers - {RenewRequestTimer};
      StartProcess(true, newXid);
      report := ReportDown;
      h := Note(h, s, Fired(LeaseTimer, newXid), View(), report);
      exchange := P.Next(exchange, Fired(LeaseTimer, newXid));
    }
  }

  lemma GoodInv(late: nat, s: State, h: History)
    requires Good(late, s, h)
    ensures Inv(late, s)
  {
  }

  lemma StepReceives(s: State, r: Reply)
    ensures Step(s, Received(r)) == Receive(s, r)
  {
  }
}
