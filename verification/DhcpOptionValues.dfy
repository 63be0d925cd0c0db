/** The values that DHCP options carry: what a server writes is what the client reads, and nothing else is read. */
module DhcpOptionValues {
  import opened Bytes
  import opened Options
  import opened DhcpOptions

  // ---------- numbers and addresses, in network order ----------

  type Word = n: nat | n <= UINT32_MAX

  /** The four digits of the number to the base 256, the first the highest. */
  function PutWord(n: Word): (bs: bytes)
    ensures |bs| == 4
  {
    var n1 := n / 0x100;
    var n2 := n1 / 0x100;
    [n2 / 0x100, n2 % 0x100, n1 % 0x100, n % 0x100]
  }

  lemma WordRoundTrip(n: Word)
    ensures Be32(PutWord(n)) == n
  {
    var n1 := n / 0x100;
    var n2 := n1 / 0x100;
    assert n == 0x100 * n1 + n % 0x100 && n1 == 0x100 * n2 + n1 % 0x100 && n2 == 0x100 * (n2 / 0x100) + n2 % 0x100;
  }

  lemma Digit(q: nat, r: nat)
    requires r < 0x100
    ensures (0x100 * q + r) / 0x100 == q && (0x100 * q + r) % 0x100 == r
  {
  }

  lemma WordOnly(bs: bytes)
    requires |bs| == 4
    ensures Be32(bs) <= UINT32_MAX && PutWord(Be32(bs)) == bs
  {
    var a: nat, b: nat, c: nat, d: nat := bs[0], bs[1], bs[2], bs[3];
    var n2 := 0x100 * a + b;
    var n1 := 0x100 * n2 + c;
    assert Be32(bs) == 0x100 * n1 + d;
    Digit(a, b);
    Digit(n2, c);
    Digit(n1, d);
  }

  function PutWords(ns: seq<Word>): (bs: bytes)
    ensures |bs| == 4 * |ns|
  {
    if ns == [] then [] else PutWords(ns[..|ns| - 1]) + PutWord(ns[|ns| - 1])
  }

  /** The first addresses of a list are the first that were put there. */
  lemma {:induction false} AddressesPut(ns: seq<Word>, k: nat)
    requires k <= |ns|
    ensures Addresses(PutWords(ns), k) == ns[..k]
    decreases |ns| + k
  {
    if k > 0 {
      AddressesPut(ns, k - 1);
      WordAt(ns, k - 1);
      WordRoundTrip(ns[k - 1]);
      assert ns[..k] == ns[..k - 1] + [ns[k - 1]];
    }
  }

  lemma {:induction false} WordAt(ns: seq<Word>, i: nat)
    requires i < |ns|
    ensures PutWords(ns)[4 * i..4 * i + 4] == PutWord(ns[i])
    decreases |ns|
  {
    var n := |ns| - 1;
    if i < n {
      WordAt(ns[..n], i);
      assert PutWords(ns)[4 * i..4 * i + 4] == PutWords(ns[..n])[4 * i..4 * i + 4];
    }
  }

  /** Every payload of whole addresses is such a list. */
  lemma {:induction false} OnlyAddresses(payload: bytes, k: nat) returns (ns: seq<Word>)
    requires 4 * k <= |payload|
    ensures PutWords(ns) == payload[..4 * k]
  {
    ns := [];
    if k > 0 {
      var ms := OnlyAddresses(payload, k - 1);
      var last := payload[4 * k - 4..4 * k];
      WordOnly(last);
      ns := ms + [Be32(last)];
      assert ns[..|ns| - 1] == ms;
      assert payload[..4 * k] == payload[..4 * k - 4] + last;
    }
  }

  // ---------- which options are read ----------

  function Carried(code: byte): nat {
    if code == MESSAGE_TYPE then 1
    else if code == SERVER_IDENTIFIER || code == LEASE_TIME || code == SUBNET_MASK || code == ROUTER then 4
    else 0
  }

  /** The payload is what its code has to carry: one byte, one word, or a list of words. */
  ghost predicate Encodes(o: Opt) {
    match Carried(o.code)
    case 1 => exists b: byte :: o.payload == [b]
    case 4 => exists n: Word :: o.payload == PutWord(n)
    case _ => o.code == DOMAIN_NAME_SERVER ==> exists ns: seq<Word> :: o.payload == PutWords(ns)
  }

  /** An option is refused exactly if its payload is not the encoding of any value. */
  lemma RefusedExactly(o: ValidOpt)
    ensures LengthOk(o) <==> Encodes(o)
  {
    if Carried(o.code) == 4 && |o.payload| == 4 {
      WordOnly(o.payload);
    } else if Carried(o.code) == 1 && |o.payload| == 1 {
      assert o.payload == [o.payload[0]];
    } else if o.code == DOMAIN_NAME_SERVER && |o.payload| % 4 == 0 {
      var ns := OnlyAddresses(o.payload, |o.payload| / 4);
      assert o.payload[..|o.payload|] == o.payload;
    }
  }

  // ---------- what a server says is what the client reads ----------

  datatype Said = Said(kind: byte, server: Option<Word>, lease: Option<Word>, mask: Option<Word>, router: Option<Word>, dns: seq<Word>)

  function SayWord(code: byte, n: Option<Word>): seq<ValidOpt>
    requires code != PAD && code != END
  {
    match n
    case None => []
    case Some(v) => [Opt(code, PutWord(v))]
  }

  /** The options of the server, of which the last is the list of name servers. */
  function Announce(m: Said): seq<ValidOpt>
    requires |m.dns| <= 63
  {
    [Opt(MESSAGE_TYPE, [m.kind])] + (SayWord(SERVER_IDENTIFIER, m.server) + (SayWord(LEASE_TIME, m.lease) + AnnounceRest(m)))
  }

  function AnnounceRest(m: Said): seq<ValidOpt>
    requires |m.dns| <= 63
  {
    SayWord(SUBNET_MASK, m.mask) + (SayWord(ROUTER, m.router) + [Opt(DOMAIN_NAME_SERVER, PutWords(m.dns))])
  }

  function FirstSixteen(ns: seq<Word>): seq<nat> {
    if |ns| <= 16 then ns else ns[..16]
  }

  lemma ServersPut(ns: seq<Word>)
    ensures Servers(PutWords(ns)) == FirstSixteen(ns)
  {
    AddressesPut(ns, if |ns| <= 16 then |ns| else 16);
    assert ns[..|ns|] == ns;
  }

  lemma InterpretWord(f: Fields, code: byte, n: Option<Word>, rest: seq<ValidOpt>)
    requires code in {SERVER_IDENTIFIER, LEASE_TIME, SUBNET_MASK, ROUTER}
    ensures Interpret(f, SayWord(code, n) + rest) ==
            Interpret(if n.None? then f
                      else if code == SERVER_IDENTIFIER then f.(server := Some(n.value))
                      else if code == LEASE_TIME then f.(lease := Some(n.value))
                      else if code == SUBNET_MASK then f.(mask := Some(n.value))
                      else f.(router := Some(n.value)), rest)
  {
    if n.None? {
      assert SayWord(code, n) + rest == rest;
    } else {
      WordRoundTrip(n.value);
      assert (SayWord(code, n) + rest)[1..] == rest;
    }
  }

  lemma InterpretKind(f: Fields, kind: byte, rest: seq<ValidOpt>)
    ensures Interpret(f, [Opt(MESSAGE_TYPE, [kind])] + rest) == Interpret(f.(kind := Some(kind)), rest)
  {
    assert ([Opt(MESSAGE_TYPE, [kind])] + rest)[1..] == rest;
  }

  lemma InterpretServers(f: Fields, ns: seq<Word>)
    requires |ns| <= 63
    ensures Interpret(f, [Opt(DOMAIN_NAME_SERVER, PutWords(ns))]) == Some(f.(dns := FirstSixteen(ns)))
  {
    hide PutWords, Servers;
    ServersPut(ns);
    assert [Opt(DOMAIN_NAME_SERVER, PutWords(ns))][1..] == [];
  }

  lemma RestIsRead(f: Fields, m: Said)
    requires |m.dns| <= 63 && f.mask.None? && f.router.None?
    ensures Interpret(f, AnnounceRest(m)) == Some(f.(mask := m.mask, router := m.router, dns := FirstSixteen(m.dns)))
  {
    hide PutWord, PutWords, SayWord, Interpret, FirstSixteen;
    var last := [Opt(DOMAIN_NAME_SERVER, PutWords(m.dns))];
    InterpretWord(f, SUBNET_MASK, m.mask, SayWord(ROUTER, m.router) + last);
    InterpretWord(f.(mask := m.mask), ROUTER, m.router, last);
    InterpretServers(f.(mask := m.mask, router := m.router), m.dns);
  }

  lemma AnnounceIsRead(m: Said)
    requires |m.dns| <= 63
    ensures Interpret(NO_FIELDS, Announce(m)) ==
            Some(Fields(Some(m.kind), m.server, m.lease, m.mask, m.router, FirstSixteen(m.dns)))
  {
    hide PutWord, PutWords, SayWord, AnnounceRest, Interpret, FirstSixteen;
    var f := NO_FIELDS.(kind := Some(m.kind));
    InterpretKind(NO_FIELDS, m.kind, SayWord(SERVER_IDENTIFIER, m.server) + (SayWord(LEASE_TIME, m.lease) + AnnounceRest(m)));
    InterpretWord(f, SERVER_IDENTIFIER, m.server, SayWord(LEASE_TIME, m.lease) + AnnounceRest(m));
    InterpretWord(f.(server := m.server), LEASE_TIME, m.lease, AnnounceRest(m));
    RestIsRead(f.(server := m.server, lease := m.lease), m);
  }

  /** Whatever padding the server puts between its options and after them, the client reads what the server said. */
  lemma SaidIsRead(m: Said, ps: seq<Piece>, n: nat)
    requires |m.dns| <= 63 && OptsOf(ps) == Announce(m)
    ensures ParseOptions(Message(ps, n)) ==
            Some(Fields(Some(m.kind), m.server, m.lease, m.mask, m.router, FirstSixteen(m.dns)))
  {
    ScanMessage(ps, n);
    AnnounceIsRead(m);
  }
}
