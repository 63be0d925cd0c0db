/** The options of a DHCP message: padding, options with a length, and an end after which only padding may follow. */
module DhcpOptions {
  import opened Bytes
  import opened Options
  import opened Sequences

  const PAD := 0
  const END := 255

  const SUBNET_MASK := 1
  const ROUTER := 3
  const DOMAIN_NAME_SERVER := 6
  const LEASE_TIME := 51
  const MESSAGE_TYPE := 53
  const SERVER_IDENTIFIER := 54

  const MAX_DNS := 16

  datatype Opt = Opt(code: byte, payload: bytes) {
    predicate Valid() {
      code != PAD && code != END && |payload| <= 255
    }
  }

  type ValidOpt = o: Opt | o.Valid() witness Opt(1, [])

  // ---------- cutting the bytes into options ----------

  /** The options in `buf`; `ended` is whether the end has been passed. */
  function Scan(buf: bytes, ended: bool): Option<seq<ValidOpt>>
    decreases |buf|
  {
    if buf == [] then if ended then Some([]) else None
    else if buf[0] == PAD then Scan(buf[1..], ended)
    else if ended then None
    else if buf[0] == END then Scan(buf[1..], true)
    else if |buf| < 2 || buf[1] > |buf| - 2 then None
    else
      match Scan(buf[2 + buf[1]..], ended)
      case None => None
      case Some(os) => Some([Opt(buf[0], buf[2..2 + buf[1]])] + os)
  }

  /** What a message can be made of before its end. */
  datatype Piece = Padding | Option(o: ValidOpt)

  function EncodePiece(p: Piece): bytes {
    match p
    case Padding => [PAD]
    case Option(o) => [o.code, |o.payload|] + o.payload
  }

  function EncodePieces(ps: seq<Piece>): bytes {
    if ps == [] then [] else EncodePiece(ps[0]) + EncodePieces(ps[1..])
  }

  function OptsOf(ps: seq<Piece>): seq<ValidOpt> {
    if ps == [] then [] else (match ps[0] case Padding => [] case Option(o) => [o]) + OptsOf(ps[1..])
  }

  function Zeros(n: nat): (bs: bytes)
    ensures |bs| == n
  {
    if n == 0 then [] else [PAD] + Zeros(n - 1)
  }

  /** A well-formed message: pieces, the end, and padding. */
  function Message(ps: seq<Piece>, n: nat): bytes {
    EncodePieces(ps) + ([END] + Zeros(n))
  }

  lemma {:induction false} ScanZeros(n: nat)
    ensures Scan(Zeros(n), true) == Some([])
  {
    if n != 0 {
      ScanZeros(n - 1);
      assert Zeros(n)[1..] == Zeros(n - 1);
    }
  }

  lemma ScanOption(o: ValidOpt, rest: bytes)
    ensures var buf := EncodePiece(Option(o)) + rest;
            Scan(buf, false) == match Scan(rest, false) case None => None case Some(os) => Some([o] + os)
  {
    var buf := EncodePiece(Option(o)) + rest;
    assert buf[0] == o.code && buf[1] == |o.payload|;
    assert buf[2..2 + |o.payload|] == o.payload;
    assert buf[2 + |o.payload|..] == rest;
  }

  /** Every well-formed message is read as the options that it was made of. */
  lemma {:induction false} ScanMessage(ps: seq<Piece>, n: nat)
    ensures Scan(Message(ps, n), false) == Some(OptsOf(ps))
  {
    hide EncodePiece, Zeros;
    var tail := [END] + Zeros(n);
    if ps == [] {
      ScanZeros(n);
      EmptyUnit(tail);
      assert tail[1..] == Zeros(n);
    } else {
      ScanMessage(ps[1..], n);
      Assoc(EncodePiece(ps[0]), EncodePieces(ps[1..]), tail);
      match ps[0]
      case Padding =>
        ScanPadding(Message(ps[1..], n));
        EmptyUnit(OptsOf(ps[1..]));
      case Option(o) => ScanOption(o, Message(ps[1..], n));
    }
  }

  lemma ScanPadding(rest: bytes)
    ensures Scan(EncodePiece(Padding) + rest, false) == Scan(rest, false)
  {
    assert ([PAD] + rest)[1..] == rest;
  }

  lemma {:induction false} OnlyZeros(buf: bytes)
    requires Scan(buf, true).Some?
    ensures buf == Zeros(|buf|) && Scan(buf, true) == Some([])
  {
    if buf != [] {
      OnlyZeros(buf[1..]);
      assert buf == [buf[0]] + buf[1..];
    }
  }

  /** And nothing else is read at all. */
  lemma ScannedIsMessage(buf: bytes) returns (ps: seq<Piece>, n: nat)
    requires Scan(buf, false).Some?
    ensures buf == Message(ps, n) && Scan(buf, false) == Some(OptsOf(ps))
  {
    ps, n := Pieces(buf);
    ScanMessage(ps, n);
  }

  lemma {:induction false} Pieces(buf: bytes) returns (ps: seq<Piece>, n: nat)
    requires Scan(buf, false).Some?
    ensures buf == Message(ps, n)
    decreases |buf|
  {
    hide Zeros;
    if buf[0] == END {
      OnlyZeros(buf[1..]);
      ps, n := [], |buf| - 1;
      assert buf == [buf[0]] + buf[1..];
      EmptyUnit(buf);
    } else {
      var size: nat := if buf[0] == PAD then 1 else 2 + (buf[1] as int);
      var qs, k := Pieces(buf[size..]);
      var p := if buf[0] == PAD then Padding else Option(Opt(buf[0], buf[2..size]));
      ps, n := [p] + qs, k;
      assert ps[1..] == qs;
      assert buf == buf[..size] + buf[size..];
      assert buf[..size] == EncodePiece(p);
      Assoc(EncodePiece(p), EncodePieces(qs), [END] + Zeros(k));
    }
  }

  // ---------- what the options say ----------

  function Be32(bs: bytes): nat
    requires |bs| == 4
  {
    0x100_0000 * (bs[0] as int) + 0x1_0000 * (bs[1] as int) + 0x100 * (bs[2] as int) + bs[3] as int
  }

  datatype Fields = Fields(kind: Option<nat>, server: Option<nat>, lease: Option<nat>, mask: Option<nat>,
                           router: Option<nat>, dns: seq<nat>)

  const NO_FIELDS := Fields(None, None, None, None, None, [])

  /** The first `k` addresses in a payload. */
  function Addresses(payload: bytes, k: nat): (r: seq<nat>)
    requires 4 * k <= |payload|
    ensures |r| == k
  {
    if k == 0 then [] else Addresses(payload, k - 1) + [Be32(payload[4 * k - 4..4 * k])]
  }

  function Servers(payload: bytes): seq<nat> {
    var n := |payload| / 4;
    Addresses(payload, if n < MAX_DNS then n else MAX_DNS)
  }

  /** An option of the wrong length makes the whole message be ignored; an option of unknown code is skipped. */
  predicate LengthOk(o: Opt) {
    if o.code == MESSAGE_TYPE then |o.payload| == 1
    else if o.code in {SERVER_IDENTIFIER, LEASE_TIME, SUBNET_MASK, ROUTER} then |o.payload| == 4
    else if o.code == DOMAIN_NAME_SERVER then |o.payload| % 4 == 0
    else true
  }

  function Apply(f: Fields, o: Opt): Fields
    requires LengthOk(o)
  {
    if o.code == MESSAGE_TYPE then f.(kind := Some(o.payload[0]))
    else if o.code == SERVER_IDENTIFIER then f.(server := Some(Be32(o.payload)))
    else if o.code == LEASE_TIME then f.(lease := Some(Be32(o.payload)))
    else if o.code == SUBNET_MASK then f.(mask := Some(Be32(o.payload)))
    else if o.code == ROUTER then f.(router := Some(Be32(o.payload)))
    else if o.code == DOMAIN_NAME_SERVER then f.(dns := Servers(o.payload))
    else f
  }

  function Interpret(f: Fields, os: seq<ValidOpt>): Option<Fields>
    decreases |os|
  {
    if os == [] then Some(f) else if !LengthOk(os[0]) then None else Interpret(Apply(f, os[0]), os[1..])
  }

  /** The payload of the last option with a code. */
  function LastOf(os: seq<ValidOpt>, code: byte): Option<bytes> {
    if os == [] then None
    else
      match LastOf(os[1..], code)
      case Some(p) => Some(p)
      case None => if os[0].code == code then Some(os[0].payload) else None
  }

  /** What the last option with a code says, read as an address or a number of seconds. */
  function ValueOf(os: seq<ValidOpt>, code: byte, otherwise: Option<nat>): Option<nat> {
    match LastOf(os, code)
    case Some(p) => if |p| == 4 then Some(Be32(p)) else None
    case None => otherwise
  }

  function KindOf(os: seq<ValidOpt>, otherwise: Option<nat>): Option<nat> {
    match LastOf(os, MESSAGE_TYPE)
    case Some(p) => if |p| == 1 then Some(p[0]) else None
    case None => otherwise
  }

  function ServersOf(os: seq<ValidOpt>, otherwise: seq<nat>): seq<nat> {
    match LastOf(os, DOMAIN_NAME_SERVER)
    case Some(p) => Servers(p)
    case None => otherwise
  }

  ghost predicate LengthsOk(os: seq<ValidOpt>) {
    forall i :: 0 <= i < |os| ==> LengthOk(os[i])
  }

  lemma {:induction false} LastOfLength(os: seq<ValidOpt>, code: byte)
    requires LengthsOk(os)
    ensures LastOf(os, code).Some? ==> LengthOk(Opt(code, LastOf(os, code).value))
  {
    if os != [] {
      LastOfLength(os[1..], code);
    }
  }

  /** The fields are what the last option of each code says, and what they were where there is none. */
  ghost predicate LastWins(f: Fields, os: seq<ValidOpt>, r: Fields) {
    && r.kind == KindOf(os, f.kind)
    && r.server == ValueOf(os, SERVER_IDENTIFIER, f.server)
    && r.lease == ValueOf(os, LEASE_TIME, f.lease)
    && r.mask == ValueOf(os, SUBNET_MASK, f.mask)
    && r.router == ValueOf(os, ROUTER, f.router)
    && r.dns == ServersOf(os, f.dns)
  }

  /** The first option matters only where no later one has its code. */
  lemma ValueCons(os: seq<ValidOpt>, code: byte, otherwise: Option<nat>)
    requires os != []
    ensures ValueOf(os, code, otherwise)
            == ValueOf(os[1..], code, if os[0].code != code then otherwise
                                      else if |os[0].payload| == 4 then Some(Be32(os[0].payload)) else None)
  {
    hide Be32;
  }

  lemma KindCons(os: seq<ValidOpt>, otherwise: Option<nat>)
    requires os != []
    ensures KindOf(os, otherwise)
            == KindOf(os[1..], if os[0].code != MESSAGE_TYPE then otherwise
                               else if |os[0].payload| == 1 then Some(os[0].payload[0]) else None)
  {
  }

  lemma ServersCons(os: seq<ValidOpt>, otherwise: seq<nat>)
    requires os != []
    ensures ServersOf(os, otherwise)
            == ServersOf(os[1..], if os[0].code != DOMAIN_NAME_SERVER then otherwise else Servers(os[0].payload))
  {
    hide Servers;
  }

  lemma ApplyFirst(f: Fields, os: seq<ValidOpt>, r: Fields)
    requires os != [] && LengthOk(os[0]) && LastWins(Apply(f, os[0]), os[1..], r)
    ensures LastWins(f, os, r)
  {
    hide ValueOf, KindOf, ServersOf, LastOf, Servers, Be32;
    KindCons(os, f.kind);
    ValueCons(os, SERVER_IDENTIFIER, f.server);
    ValueCons(os, LEASE_TIME, f.lease);
    ValueCons(os, SUBNET_MASK, f.mask);
    ValueCons(os, ROUTER, f.router);
    ServersCons(os, f.dns);
  }

  /**
   * The options are all used, the last of each code winning, exactly if none has a wrong length; and each
   * value that is taken was of the length that its code has.
   */
  lemma {:induction false} InterpretExactly(f: Fields, os: seq<ValidOpt>)
    ensures Interpret(f, os).Some? <==> LengthsOk(os)
    ensures Interpret(f, os).Some? ==> LastWins(f, os, Interpret(f, os).value)
    ensures Interpret(f, os).Some? ==> forall code: byte :: LastOf(os, code).Some? ==> LengthOk(Opt(code, LastOf(os, code).value))
    decreases |os|
  {
    if os != [] && LengthOk(os[0]) {
      InterpretExactly(Apply(f, os[0]), os[1..]);
      if Interpret(f, os).Some? {
        ApplyFirst(f, os, Interpret(f, os).value);
        forall i | 0 <= i < |os| ensures LengthOk(os[i]) {
          assert i > 0 ==> os[i] == os[1..][i - 1];
        }
      } else {
        assert exists i :: 0 <= i < |os[1..]| && !LengthOk(os[1..][i]);
      }
    }
    if LengthsOk(os) {
      forall code: byte ensures LastOf(os, code).Some? ==> LengthOk(Opt(code, LastOf(os, code).value)) {
        LastOfLength(os, code);
      }
    }
  }

  // ---------- both in one pass ----------

  /** What remains to be found out, given the fields found so far. */
  function Continue(f: Fields, buf: bytes, ended: bool): Option<Fields> {
    match Scan(buf, ended)
    case None => None
    case Some(os) => Interpret(f, os)
  }

  /** The result of parsing all options. */
  function ParseOptions(buf: bytes): Option<Fields> {
    Continue(NO_FIELDS, buf, false)
  }

  lemma ContinueOption(f: Fields, buf: bytes)
    requires |buf| >= 2 && buf[0] != PAD && buf[0] != END && buf[1] <= |buf| - 2
    ensures var o := Opt(buf[0], buf[2..2 + buf[1]]);
            Continue(f, buf, false) == if LengthOk(o) then Continue(Apply(f, o), buf[2 + buf[1]..], false) else None
  {
    var o := Opt(buf[0], buf[2..2 + buf[1]]);
    var rest := Scan(buf[2 + buf[1]..], false);
    if rest.Some? {
      assert ([o] + rest.value)[1..] == rest.value;
    }
  }

  lemma OneOption(f: Fields, o: ValidOpt)
    requires LengthOk(o)
    ensures LastWins(f, [o], Apply(f, o))
  {
    assert [o][1..] == [];
    ApplyFirst(f, [o], Apply(f, o));
  }

  /** Reads the name servers, as many as there is room for. */
  method ReadServers(payload: bytes) returns (servers: seq<nat>)
    ensures servers == Servers(payload)
  {
    var numServers := |payload| / 4;
    servers := [];
    var i := 0;
    while i < numServers && i < MAX_DNS
      invariant 0 <= i <= numServers && i <= MAX_DNS
      invariant servers == Addresses(payload, i)
    {
      servers := servers + [Be32(payload[4 * i..4 * i + 4])];
      i := i + 1;
    }
  }

  /** Reads the option's value into the fields; fails if its length is wrong. */
  method ReadOption(f: Fields, o: ValidOpt) returns (ok: bool, g: Fields)
    ensures ok <==> LengthOk(o)
    ensures ok ==> g == Apply(f, o) && LastWins(f, [o], g)
  {
    ok, g := true, f;
    if o.code == MESSAGE_TYPE {
      if |o.payload| != 1 {
        return false, f;
      }
      g := f.(kind := Some(o.payload[0]));
    } else if o.code == SERVER_IDENTIFIER || o.code == LEASE_TIME || o.code == SUBNET_MASK || o.code == ROUTER {
      if |o.payload| != 4 {
        return false, f;
      }
      var value := Some(Be32(o.payload));
      g := if o.code == SERVER_IDENTIFIER then f.(server := value)
           else if o.code == LEASE_TIME then f.(lease := value)
           else if o.code == SUBNET_MASK then f.(mask := value)
           else f.(router := value);
    } else if o.code == DOMAIN_NAME_SERVER {
      if |o.payload| % 4 != 0 {
        return false, f;
      }
      var servers := ReadServers(o.payload);
      g := f.(dns := servers);
    }
    OneOption(f, o);
  }

  /** The loop over the options. */
  method Parse(buf: bytes) returns (r: Option<Fields>)
    ensures r == ParseOptions(buf)
  {
    var pos: nat := 0;
    var haveEnd := false;
    var fields := NO_FIELDS;
    assert buf[0..] == buf;
    while pos < |buf|
      invariant pos <= |buf|
      invariant Continue(fields, buf[pos..], haveEnd) == ParseOptions(buf)
      decreases |buf| - pos
    {
      ghost var rest := buf[pos..];
      assert rest[0] == buf[pos] && rest[1..] == buf[pos + 1..];
      if buf[pos] == PAD {
        pos := pos + 1;
        continue;
      }
      if haveEnd {
        return None;
      }
      if buf[pos] == END {
        pos := pos + 1;
        haveEnd := true;
        continue;
      }
      if |buf| - pos < 2 {
        return None;
      }
      var code, len := buf[pos], buf[pos + 1];
      if len > |buf| - pos - 2 {
        return None;
      }
      var o := Opt(code, buf[pos + 2..pos + 2 + len]);
      ContinueOption(fields, rest);
      assert rest[2..2 + len] == buf[pos + 2..pos + 2 + len];
      assert rest[2 + len..] == buf[pos + 2 + len..];
      pos := pos + 2 + len;
      var ok, g := ReadOption(fields, o);
      if !ok {
        return None;
      }
      fields := g;
    }
    assert buf[pos..] == [];
    if !haveEnd {
      return None;
    }
    r := Some(fields);
  }
}
