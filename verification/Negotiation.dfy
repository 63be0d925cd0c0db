/**
 * How two peers find a way to connect. The master goes through its bind addresses, offering each to the
 * slave; when it has no more, the slave does the same; when that has no more either, both fall back on a
 * relay. The messages go over a chat that neither loses nor reorders them, and links do not fail meanwhile.
 */
module Negotiation {
  import opened Options

  /** An external address as the other side sees it: whether it knows the scope, and can read the address. */
  datatype Ext = Ext(known: bool, readable: bool)

  /** A bind address: the external addresses to offer, and whether binding to it succeeds. */
  datatype Addr = Addr(ext: seq<Ext>, bindable: bool)

  datatype Msg = YouConnect(index: nat, ext: seq<Ext>) | CannotConnect | CannotBind

  /** `Unbound` is a fresh link that could not be bound; `Relay` is having asked for a relay. */
  datatype Link = NoLink | Unbound | Listening(index: nat) | Connecting(index: nat) | Relay

  datatype Party = Party(addrs: seq<Addr>, binding: bool, pos: nat, link: Link)

  function Fresh(addrs: seq<Addr>): Party {
    Party(addrs, false, 0, NoLink)
  }

  predicate Usable(ext: seq<Ext>) {
    exists k :: 0 <= k < |ext| && ext[k].known && ext[k].readable
  }

  /** The address leads to a connection when it is tried. */
  predicate Works(a: Addr) {
    a.bindable && Usable(a.ext)
  }

  // ---------- what a party does ----------

  /** Tries the remaining bind addresses; gives up when there are no more. */
  function Bind(p: Party, master: bool): (Party, Msg)
    requires p.pos <= |p.addrs|
    decreases |p.addrs| - p.pos
  {
    if p.pos < |p.addrs| then
      var a := p.addrs[p.pos];
      if a.ext == [] then Bind(p.(pos := p.pos + 1), master)
      else if !a.bindable then Bind(p.(pos := p.pos + 1, link := Unbound), master)
      else (p.(pos := p.pos + 1, link := Listening(p.pos)), YouConnect(p.pos, a.ext))
    else (p.(binding := false, link := if master then p.link else Relay), CannotBind)
  }

  function StartBinding(p: Party, master: bool): (Party, Msg) {
    Bind(p.(binding := true, pos := 0), master)
  }

  /** The party after a message, and its answer if it has one. */
  function Receive(p: Party, master: bool, msg: Msg): (Party, Option<Msg>)
    requires p.pos <= |p.addrs|
  {
    match msg
    case YouConnect(i, ext) => if Usable(ext) then (p.(link := Connecting(i)), None) else (p, Some(CannotConnect))
    case CannotConnect => if !p.binding then (p, None) else var (q, m) := Bind(p, master); (q, Some(m))
    case CannotBind =>
      if !master then var (q, m) := StartBinding(p, master); (q, Some(m))
      else (p.(link := Relay), None)
  }

  // ---------- two parties ----------

  /** `sent` counts the messages sent so far. */
  datatype World = World(m: Party, s: Party, toM: seq<Msg>, toS: seq<Msg>, sent: nat)

  function Start(aM: seq<Addr>, aS: seq<Addr>): World {
    var (m, msg) := StartBinding(Fresh(aM), true);
    World(m, Fresh(aS), [], [msg], 1)
  }

  datatype Event = ToMaster | ToSlave

  predicate Enabled(w: World, ev: Event) {
    && w.m.pos <= |w.m.addrs| && w.s.pos <= |w.s.addrs|
    && if ev.ToMaster? then w.toM != [] else w.toS != []
  }

  function Send(queue: seq<Msg>, answer: Option<Msg>): seq<Msg> {
    if answer.Some? then queue + [answer.value] else queue
  }

  function Step(w: World, ev: Event): World
    requires Enabled(w, ev)
  {
    match ev
    case ToMaster =>
      var (m, answer) := Receive(w.m, true, w.toM[0]);
      World(m, w.s, w.toM[1..], Send(w.toS, answer), w.sent + if answer.Some? then 1 else 0)
    case ToSlave =>
      var (s, answer) := Receive(w.s, false, w.toS[0]);
      World(w.m, s, Send(w.toM, answer), w.toS[1..], w.sent + if answer.Some? then 1 else 0)
  }

  // ---------- where they are ----------

  /** None of the first `k` addresses works. */
  predicate NoneWorks(addrs: seq<Addr>, k: nat) {
    forall j :: 0 <= j < k && j < |addrs| ==> !Works(addrs[j])
  }

  /** The party waits for an answer about its address `i`, none before which works. */
  predicate Offered(p: Party, addrs: seq<Addr>, i: nat) {
    && p == Party(addrs, true, i + 1, Listening(i)) && i < |addrs|
    && addrs[i].bindable && NoneWorks(addrs, i)
  }

  predicate GaveUp(p: Party, addrs: seq<Addr>) {
    p == Party(addrs, false, |addrs|, p.link) && NoneWorks(addrs, |addrs|)
  }

  predicate MasterOffers(w: World, aM: seq<Addr>, aS: seq<Addr>, i: nat) {
    && Offered(w.m, aM, i) && w.s == Fresh(aS) && w.toM == [] && w.toS == [YouConnect(i, aM[i].ext)] && w.sent <= 2 * i + 1
  }

  predicate MasterRefused(w: World, aM: seq<Addr>, aS: seq<Addr>, i: nat) {
    && Offered(w.m, aM, i) && NoneWorks(aM, i + 1) && w.s == Fresh(aS) && w.toM == [CannotConnect] && w.toS == [] && w.sent <= 2 * i + 2
  }

  predicate MasterGaveUp(w: World, aM: seq<Addr>, aS: seq<Addr>) {
    && GaveUp(w.m, aM) && w.s == Fresh(aS) && w.toM == [] && w.toS == [CannotBind] && w.sent <= 2 * |aM| + 1
  }

  predicate SlaveOffers(w: World, aM: seq<Addr>, aS: seq<Addr>, i: nat) {
    && GaveUp(w.m, aM) && Offered(w.s, aS, i) && w.toM == [YouConnect(i, aS[i].ext)] && w.toS == [] && w.sent <= 2 * |aM| + 2 * i + 2
  }

  predicate SlaveRefused(w: World, aM: seq<Addr>, aS: seq<Addr>, i: nat) {
    && GaveUp(w.m, aM) && Offered(w.s, aS, i) && NoneWorks(aS, i + 1) && w.toM == [] && w.toS == [CannotConnect]
    && w.sent <= 2 * |aM| + 2 * i + 3
  }

  predicate SlaveGaveUp(w: World, aM: seq<Addr>, aS: seq<Addr>) {
    && GaveUp(w.m, aM) && GaveUp(w.s, aS) && w.s.link == Relay && w.toM == [CannotBind] && w.toS == []
    && w.sent <= 2 * |aM| + 2 * |aS| + 2
  }

  /** The slave connects to the master's address `i`. */
  predicate MasterBound(w: World, aM: seq<Addr>, aS: seq<Addr>, i: nat) {
    && Offered(w.m, aM, i) && Works(aM[i]) && w.s.link == Connecting(i) && w.s.addrs == aS && w.s.pos <= |aS|
    && w.toM == [] && w.toS == [] && w.sent <= 2 * i + 1
  }

  /** The master connects to the slave's address `i`, having none that works. */
  predicate SlaveBound(w: World, aM: seq<Addr>, aS: seq<Addr>, i: nat) {
    && GaveUp(w.m, aM) && w.m.link == Connecting(i) && Offered(w.s, aS, i) && Works(aS[i])
    && w.toM == [] && w.toS == [] && w.sent <= 2 * |aM| + 2 * i + 2
  }

  /** Both have asked for a relay, and no address of either works. */
  predicate BothRelay(w: World, aM: seq<Addr>, aS: seq<Addr>) {
    && GaveUp(w.m, aM) && GaveUp(w.s, aS) && w.m.link == Relay && w.s.link == Relay
    && w.toM == [] && w.toS == [] && w.sent <= 2 * |aM| + 2 * |aS| + 2
  }

  ghost predicate Underway(w: World, aM: seq<Addr>, aS: seq<Addr>) {
    || (exists i: nat :: MasterOffers(w, aM, aS, i)) || (exists i: nat :: MasterRefused(w, aM, aS, i)) || MasterGaveUp(w, aM, aS)
    || (exists i: nat :: SlaveOffers(w, aM, aS, i)) || (exists i: nat :: SlaveRefused(w, aM, aS, i)) || SlaveGaveUp(w, aM, aS)
  }

  ghost predicate Over(w: World, aM: seq<Addr>, aS: seq<Addr>) {
    || (exists i: nat :: MasterBound(w, aM, aS, i)) || (exists i: nat :: SlaveBound(w, aM, aS, i)) || BothRelay(w, aM, aS)
  }

  ghost predicate Inv(w: World, aM: seq<Addr>, aS: seq<Addr>) {
    Underway(w, aM, aS) || Over(w, aM, aS)
  }

  /** Binding ends with an offer of the next address that can be bound, or with giving up. */
  lemma {:induction false} BindResult(p: Party, master: bool)
    requires p.binding && p.pos <= |p.addrs| && NoneWorks(p.addrs, p.pos)
    ensures var (q, msg) := Bind(p, master);
            || (exists i: nat :: p.pos <= i && Offered(q, p.addrs, i) && msg == YouConnect(i, p.addrs[i].ext))
            || (GaveUp(q, p.addrs) && (!master ==> q.link == Relay) && msg == CannotBind)
    decreases |p.addrs| - p.pos
  {
    if p.pos < |p.addrs| {
      var a := p.addrs[p.pos];
      if a.ext == [] {
        BindResult(p.(pos := p.pos + 1), master);
      } else if !a.bindable {
        BindResult(p.(pos := p.pos + 1, link := Unbound), master);
      } else {
        assert Offered(Bind(p, master).0, p.addrs, p.pos);
      }
    }
  }

  lemma StartInv(aM: seq<Addr>, aS: seq<Addr>)
    ensures Inv(Start(aM, aS), aM, aS)
  {
    BindResult(Fresh(aM).(binding := true), true);
    var w := Start(aM, aS);
    if w.toS[0].YouConnect? {
      var i: nat :| Offered(w.m, aM, i) && w.toS[0] == YouConnect(i, aM[i].ext);
      assert MasterOffers(w, aM, aS, i);
    } else {
      assert MasterGaveUp(w, aM, aS);
    }
  }

  lemma MasterOffersStep(w: World, aM: seq<Addr>, aS: seq<Addr>, i: nat)
    requires MasterOffers(w, aM, aS, i)
    ensures var w' := Step(w, ToSlave); MasterBound(w', aM, aS, i) || MasterRefused(w', aM, aS, i)
  {
  }

  lemma MasterRefusedStep(w: World, aM: seq<Addr>, aS: seq<Addr>, i: nat)
    requires MasterRefused(w, aM, aS, i)
    ensures Inv(Step(w, ToMaster), aM, aS)
  {
    BindResult(w.m, true);
    var w' := Step(w, ToMaster);
    var msg := Bind(w.m, true).1;
    if msg.YouConnect? {
      var j: nat :| i + 1 <= j && Offered(w'.m, aM, j) && msg == YouConnect(j, aM[j].ext);
      assert MasterOffers(w', aM, aS, j);
    } else {
      assert MasterGaveUp(w', aM, aS);
    }
  }

  lemma MasterGaveUpStep(w: World, aM: seq<Addr>, aS: seq<Addr>)
    requires MasterGaveUp(w, aM, aS)
    ensures Inv(Step(w, ToSlave), aM, aS)
  {
    BindResult(w.s.(binding := true), false);
    var w' := Step(w, ToSlave);
    var msg := StartBinding(w.s, false).1;
    if msg.YouConnect? {
      var j: nat :| Offered(w'.s, aS, j) && msg == YouConnect(j, aS[j].ext);
      assert SlaveOffers(w', aM, aS, j);
    } else {
      assert SlaveGaveUp(w', aM, aS);
    }
  }

  lemma SlaveOffersStep(w: World, aM: seq<Addr>, aS: seq<Addr>, i: nat)
    requires SlaveOffers(w, aM, aS, i)
    ensures var w' := Step(w, ToMaster); SlaveBound(w', aM, aS, i) || SlaveRefused(w', aM, aS, i)
  {
  }

  lemma SlaveRefusedStep(w: World, aM: seq<Addr>, aS: seq<Addr>, i: nat)
    requires SlaveRefused(w, aM, aS, i)
    ensures Inv(Step(w, ToSlave), aM, aS)
  {
    BindResult(w.s, false);
    var w' := Step(w, ToSlave);
    var msg := Bind(w.s, false).1;
    if msg.YouConnect? {
      var j: nat :| i + 1 <= j && Offered(w'.s, aS, j) && msg == YouConnect(j, aS[j].ext);
      assert SlaveOffers(w', aM, aS, j);
    } else {
      assert SlaveGaveUp(w', aM, aS);
    }
  }

  lemma SlaveGaveUpStep(w: World, aM: seq<Addr>, aS: seq<Addr>)
    requires SlaveGaveUp(w, aM, aS)
    ensures BothRelay(Step(w, ToMaster), aM, aS)
  {
  }

  lemma StepInv(w: World, aM: seq<Addr>, aS: seq<Addr>, ev: Event)
    requires Inv(w, aM, aS) && Enabled(w, ev)
    ensures Inv(Step(w, ev), aM, aS)
  {
    if i: nat :| MasterOffers(w, aM, aS, i) {
      MasterOffersStep(w, aM, aS, i);
    } else if i: nat :| MasterRefused(w, aM, aS, i) {
      MasterRefusedStep(w, aM, aS, i);
    } else if MasterGaveUp(w, aM, aS) {
      MasterGaveUpStep(w, aM, aS);
    } else if i: nat :| SlaveOffers(w, aM, aS, i) {
      SlaveOffersStep(w, aM, aS, i);
    } else if i: nat :| SlaveRefused(w, aM, aS, i) {
      SlaveRefusedStep(w, aM, aS, i);
    } else if SlaveGaveUp(w, aM, aS) {
      SlaveGaveUpStep(w, aM, aS);
    }
  }

  // ---------- runs ----------

  predicate Possible(w: World, evs: seq<Event>)
    decreases |evs|
  {
    evs == [] || (Enabled(w, evs[0]) && Possible(Step(w, evs[0]), evs[1..]))
  }

  function Run(w: World, evs: seq<Event>): World
    requires Possible(w, evs)
    decreases |evs|
  {
    if evs == [] then w else Run(Step(w, evs[0]), evs[1..])
  }

  /** Messages are sent, and then delivered or on their way. */
  lemma {:induction false} RunInv(w: World, evs: seq<Event>, aM: seq<Addr>, aS: seq<Addr>)
    requires Possible(w, evs) && Inv(w, aM, aS)
    ensures var r := Run(w, evs); Inv(r, aM, aS) && r.sent - |r.toM| - |r.toS| == w.sent - |w.toM| - |w.toS| + |evs|
    decreases |evs|
  {
    hide Inv, Enabled;
    if evs != [] {
      StepInv(w, aM, aS, evs[0]);
      StepCounts(w, evs[0]);
      RunInv(Step(w, evs[0]), evs[1..], aM, aS);
    }
  }

  lemma StepCounts(w: World, ev: Event)
    requires Enabled(w, ev)
    ensures var r := Step(w, ev); r.sent - |r.toM| - |r.toS| == w.sent - |w.toM| - |w.toS| + 1
  {
  }

  lemma UnderwayBounds(w: World, aM: seq<Addr>, aS: seq<Addr>)
    requires Underway(w, aM, aS)
    ensures w.sent <= 2 * (|aM| + |aS|) + 2 && |w.toM| + |w.toS| == 1 && !Over(w, aM, aS)
    ensures Enabled(w, if w.toM != [] then ToMaster else ToSlave)
  {
    hide NoneWorks, Works;
  }

  lemma OverBounds(w: World, aM: seq<Addr>, aS: seq<Addr>)
    requires Over(w, aM, aS)
    ensures w.sent <= 2 * (|aM| + |aS|) + 2 && w.toM == [] && w.toS == []
  {
    hide NoneWorks, Works;
  }

  /**
   * The negotiation ends: however the messages are delivered, no more than 2 * (nM + nS) + 2 are ever sent
   * or delivered, and at any time either exactly one is on its way or it is over.
   */
  lemma NegotiationEnds(aM: seq<Addr>, aS: seq<Addr>, evs: seq<Event>)
    requires Possible(Start(aM, aS), evs)
    ensures var w := Run(Start(aM, aS), evs);
            && w.sent <= 2 * (|aM| + |aS|) + 2
            && |evs| <= 2 * (|aM| + |aS|) + 2
            && |w.toM| + |w.toS| <= 1
            && (Over(w, aM, aS) <==> w.toM == [] && w.toS == [])
            && (Over(w, aM, aS) <==> !Enabled(w, ToMaster) && !Enabled(w, ToSlave))
  {
    hide Underway, Over, StartBinding;
    StartInv(aM, aS);
    RunInv(Start(aM, aS), evs, aM, aS);
    var w := Run(Start(aM, aS), evs);
    if Underway(w, aM, aS) {
      UnderwayBounds(w, aM, aS);
    } else {
      OverBounds(w, aM, aS);
    }
  }

  /**
   * How it ends is settled by the addresses: if one of the master's works, the slave connects to the first
   * such; if none does but one of the slave's works, the master connects to the first such; and only if
   * none works do both ask for a relay.
   */
  lemma OutcomeExactly(aM: seq<Addr>, aS: seq<Addr>, evs: seq<Event>)
    requires Possible(Start(aM, aS), evs) && var w := Run(Start(aM, aS), evs); w.toM == [] && w.toS == []
    ensures var w := Run(Start(aM, aS), evs);
            var viaM, viaS := !NoneWorks(aM, |aM|), !NoneWorks(aS, |aS|);
            && (viaM <==> w.m.link.Listening? && w.s.link == Connecting(w.m.link.index))
            && (viaM ==> w.m.link.index < |aM| && Works(aM[w.m.link.index]) && NoneWorks(aM, w.m.link.index))
            && (!viaM && viaS <==> w.s.link.Listening? && w.m.link == Connecting(w.s.link.index))
            && (!viaM && viaS ==> w.s.link.index < |aS| && Works(aS[w.s.link.index]) && NoneWorks(aS, w.s.link.index))
            && (!viaM && !viaS <==> w.m.link == Relay && w.s.link == Relay)
  {
    hide Works;
    NegotiationEnds(aM, aS, evs);
    var w := Run(Start(aM, aS), evs);
    OverOutcome(w, aM, aS);
  }

  lemma OverOutcome(w: World, aM: seq<Addr>, aS: seq<Addr>)
    requires Over(w, aM, aS)
    ensures var viaM, viaS := !NoneWorks(aM, |aM|), !NoneWorks(aS, |aS|);
            && (viaM <==> w.m.link.Listening? && w.s.link == Connecting(w.m.link.index))
            && (viaM ==> w.m.link.index < |aM| && Works(aM[w.m.link.index]) && NoneWorks(aM, w.m.link.index))
            && (!viaM && viaS <==> w.s.link.Listening? && w.m.link == Connecting(w.s.link.index))
            && (!viaM && viaS ==> w.s.link.index < |aS| && Works(aS[w.s.link.index]) && NoneWorks(aS, w.s.link.index))
            && (!viaM && !viaS <==> w.m.link == Relay && w.s.link == Relay)
  {
    hide Works;
  }
}
