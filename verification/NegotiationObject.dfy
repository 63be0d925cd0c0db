/** One side of the negotiation as an object, with the loops over its own and over the other's addresses. */
module NegotiationObject {
  import opened Options
  import opened Negotiation

  class Setup {
    const addrs: seq<Addr>
    const master: bool
    var binding: bool
    var addrpos: nat
    var link: Link

    ghost function View(): Party
      reads this
    {
      Party(addrs, binding, addrpos, link)
    }

    ghost predicate Valid()
      reads this
    {
      addrpos <= |addrs|
    }

    constructor (addrs: seq<Addr>, master: bool)
      ensures Valid() && this.addrs == addrs && this.master == master && View() == Fresh(addrs)
    {
      this.addrs, this.master := addrs, master;
      binding, addrpos, link := false, 0, NoLink;
    }

    /** Goes on trying bind addresses, until one is bound or there are no more. */
    method Bind() returns (msg: Msg)
      requires Valid() && binding
      modifies this
      ensures Valid() && (View(), msg) == Negotiation.Bind(old(View()), master)
    {
      ghost var all := Negotiation.Bind(View(), master);
      while addrpos < |addrs|
        invariant Valid() && binding && Negotiation.Bind(View(), master) == all
      {
        if |addrs[addrpos].ext| == 0 {
          addrpos := addrpos + 1;
          continue;
        }
        var offer, again := BindOneAddress(addrpos);
        addrpos := addrpos + 1;
        if !again {
          return offer;
        }
      }
      binding := false;
      msg := CannotBind;
      if !master {
        link := Relay;
      }
    }

    /** Binds a fresh link to one address; `again` is whether the next one is to be tried. */
    method BindOneAddress(i: nat) returns (offer: Msg, again: bool)
      requires i < |addrs| && addrs[i].ext != []
      modifies this`link
      ensures again == !addrs[i].bindable
      ensures link == (if again then Unbound else Listening(i)) && offer == YouConnect(i, addrs[i].ext)
    {
      link := Unbound;
      offer := YouConnect(i, addrs[i].ext);
      again := !addrs[i].bindable;
      if !again {
        link := Listening(i);
      }
    }

    method StartBinding() returns (msg: Msg)
      modifies this
      ensures Valid() && (View(), msg) == Negotiation.StartBinding(old(View()), master)
    {
      binding := true;
      addrpos := 0;
      msg := Bind();
    }

    /** Looks for an address that can be used among those that are offered. */
    method MsgYouConnect(i: nat, ext: seq<Ext>) returns (answer: Option<Msg>)
      requires Valid()
      modifies this
      ensures Valid() && (View(), answer) == Receive(old(View()), master, YouConnect(i, ext))
    {
      for k := 0 to |ext|
        invariant unchanged(this)
        invariant forall j :: 0 <= j < k ==> !(ext[j].known && ext[j].readable)
      {
        if !ext[k].known {
          continue;
        }
        if !ext[k].readable {
          continue;
        }
        link := Connecting(i);
        return None;
      }
      answer := Some(CannotConnect);
    }

    method MsgCannotConnect() returns (answer: Option<Msg>)
      requires Valid()
      modifies this
      ensures Valid() && (View(), answer) == Receive(old(View()), master, CannotConnect)
    {
      if !binding {
        return None;
      }
      var msg := Bind();
      answer := Some(msg);
    }

    method MsgCannotBind() returns (answer: Option<Msg>)
      requires Valid()
      modifies this
      ensures Valid() && (View(), answer) == Receive(old(View()), master, CannotBind)
    {
      if !master {
        var msg := StartBinding();
        answer := Some(msg);
      } else {
        link := Relay;
        answer := None;
      }
    }
  }
}
