/**
 The messages between a client and Login (include/net/login_protocol.hpp), and
 the redirection sent by Master (include/net/master_protocol.hpp).
 */
module LoginWire {
  import opened Numerals
  import opened ByteIo

  const PROOF_SIZE := 32
  const MAX_WORLDS := 10_000

  datatype World = World(name: Bytes, host: Bytes, port: U16, population: U32)

  datatype Msg =
    | ClientHello(ticket: Bytes, username: Bytes)
    | ClientProof(A: Bytes, M1: Bytes)
    | ServerChallenge(salt: Bytes, B: Bytes)
    | ServerProof(M2: Bytes, token: Bytes)
    | ServerError
    | WorldList(worlds: seq<World>)

  function Opcode(m: Msg): U16 {
    match m
    case ClientHello(_, _) => 1
    case ClientProof(_, _) => 2
    case ServerChallenge(_, _) => 100
    case ServerProof(_, _) => 101
    case ServerError => 102
    case WorldList(_) => 103
  }

  function WorldTail(w: World): Bytes { EncU16(w.port) + EncU32(w.population) }

  function WorldBytes(w: World): Bytes {
    Field16(w.name) + (Field16(w.host) + WorldTail(w))
  }

  function WorldsBytes(ws: seq<World>): Bytes {
    if ws == [] then [] else WorldBytes(ws[0]) + WorldsBytes(ws[1..])
  }

  function Operands(m: Msg): Bytes {
    match m
    case ClientHello(t, u) => Field16(t) + Field16(u)
    case ClientProof(a, m1) => Field32(a) + m1
    case ServerChallenge(salt, b) => Field16(salt) + Field32(b)
    case ServerProof(m2, t) => m2 + Field16(t)
    case ServerError => []
    case WorldList(ws) => EncU32(Narrow32(|ws|)) + WorldsBytes(ws)
  }

  /** What the encoders send. */
  function Encode(m: Msg): Bytes { EncU16(Opcode(m)) + Operands(m) }

  // ---------------------------------------------------------------- decoding

  function ReadHello(s: Bytes): Option<Msg> {
    var (t, r) :- ReadField16(s);
    var (u, _) :- ReadField16(r);
    Some(ClientHello(t, u))
  }

  function ReadProof(s: Bytes): Option<Msg> {
    var (a, r) :- ReadField32(s);
    var (m1, _) :- ReadBytes(r, PROOF_SIZE);
    Some(ClientProof(a, m1))
  }

  function ReadChallenge(s: Bytes): Option<Msg> {
    var (salt, r) :- ReadField16(s);
    var (b, _) :- ReadField32(r);
    Some(ServerChallenge(salt, b))
  }

  function ReadServerProof(s: Bytes): Option<Msg> {
    var (m2, r) :- ReadBytes(s, PROOF_SIZE);
    var (t, _) :- ReadField16(r);
    Some(ServerProof(m2, t))
  }

  function ReadWorld(s: Bytes): Option<(World, Bytes)> {
    var (name, r) :- ReadField16(s);
    var (host, r) :- ReadField16(r);
    var (port, r) :- ReadU16(r);
    var (population, r) :- ReadU32(r);
    Some((World(name, host, port, population), r))
  }

  function ReadWorlds(n: nat, s: Bytes): Option<(seq<World>, Bytes)> {
    if n == 0 then Some(([], s)) else
    var (w, r) :- ReadWorld(s);
    var (ws, r) :- ReadWorlds(n - 1, r);
    Some(([w] + ws, r))
  }

  function ReadWorldList(s: Bytes): Option<Msg> {
    var (n, r) :- ReadU32(s);
    if n > MAX_WORLDS then None else
    var (ws, _) :- ReadWorlds(n, r);
    Some(WorldList(ws))
  }

  function DecodeOperands(op: U16, s: Bytes): Option<Msg> {
    if op == 1 then ReadHello(s)
    else if op == 2 then ReadProof(s)
    else if op == 100 then ReadChallenge(s)
    else if op == 101 then ReadServerProof(s)
    else if op == 102 then Some(ServerError)
    else if op == 103 then ReadWorldList(s)
    else None
  }

  function Decode(msg: Bytes): Option<Msg> {
    var (op, r) :- ReadU16(msg);
    DecodeOperands(op, r)
  }

  // ---------------------------------------------------------------- both directions

  predicate WorldFits(w: World) { |w.name| < 0x1_0000 && |w.host| < 0x1_0000 }

  predicate Fits(m: Msg) {
    match m
    case ClientHello(t, u) => |t| < 0x1_0000 && |u| < 0x1_0000
    case ClientProof(a, m1) => |a| < 0x1_0000_0000 && |m1| == PROOF_SIZE
    case ServerChallenge(salt, b) => |salt| < 0x1_0000 && |b| < 0x1_0000_0000
    case ServerProof(m2, t) => |m2| == PROOF_SIZE && |t| < 0x1_0000
    case ServerError => true
    case WorldList(ws) => |ws| <= MAX_WORLDS && forall w :: w in ws ==> WorldFits(w)
  }

  lemma WorldParsed(w: World, t: Bytes)
    requires WorldFits(w)
    ensures ReadWorld(WorldBytes(w) + t) == Some((w, t))
  {
    hide ReadField16, Field16, ReadU16, ReadU32, EncU16, EncU32;
    var r3 := EncU32(w.population) + t;
    var r2 := EncU16(w.port) + r3;
    var r1 := Field16(w.host) + r2;
    Assoc(EncU16(w.port), EncU32(w.population), t);
    Assoc(Field16(w.host), WorldTail(w), t);
    Assoc(Field16(w.name), Field16(w.host) + WorldTail(w), t);
    assert WorldBytes(w) + t == Field16(w.name) + r1;
    Field16RoundTrip(w.name, r1);
    Field16RoundTrip(w.host, r2);
    U16Inverse(w.port, r3);
    U32Inverse(w.population, t);
  }

  lemma ParsedWorld(s: Bytes)
    requires ReadWorld(s).Some?
    ensures var (w, t) := ReadWorld(s).value; WorldFits(w) && s == WorldBytes(w) + t
  {
    hide ReadField16, Field16, ReadU16, ReadU32, EncU16, EncU32;
    Field16Prefix(s);
    var (name, r1) := ReadField16(s).value;
    Field16Prefix(r1);
    var (host, r2) := ReadField16(r1).value;
    U16Inverse(0, r2);
    var (port, r3) := ReadU16(r2).value;
    U32Inverse(0, r3);
    var (population, t) := ReadU32(r3).value;
    var w := World(name, host, port, population);
    Assoc(EncU16(port), EncU32(population), t);
    Assoc(Field16(host), WorldTail(w), t);
    Assoc(Field16(name), Field16(host) + WorldTail(w), t);
  }

  lemma WorldsCons(w: World, ws: seq<World>, t: Bytes)
    ensures WorldsBytes([]) == [] && WorldsBytes([w] + ws) == WorldBytes(w) + WorldsBytes(ws)
    ensures WorldsBytes([w] + ws) + t == WorldBytes(w) + (WorldsBytes(ws) + t)
  {
    hide WorldBytes;
    assert ([w] + ws)[1..] == ws;
    Assoc(WorldBytes(w), WorldsBytes(ws), t);
  }

  lemma {:induction false} WorldsParsed(ws: seq<World>, t: Bytes)
    requires forall w :: w in ws ==> WorldFits(w)
    ensures ReadWorlds(|ws|, WorldsBytes(ws) + t) == Some((ws, t))
  {
    hide ReadWorld, WorldBytes, WorldsBytes;
    if ws == [] {
      WorldsCons(World([], [], 0, 0), [], t);
      assert [] + t == t;
    } else {
      WorldsCons(ws[0], ws[1..], t);
      assert ws == [ws[0]] + ws[1..];
      WorldParsed(ws[0], WorldsBytes(ws[1..]) + t);
      WorldsParsed(ws[1..], t);
    }
  }

  lemma {:induction false} ParsedWorlds(n: nat, s: Bytes)
    requires ReadWorlds(n, s).Some?
    ensures var (ws, t) := ReadWorlds(n, s).value;
            |ws| == n && s == WorldsBytes(ws) + t && forall w :: w in ws ==> WorldFits(w)
  {
    hide ReadWorld, WorldBytes, WorldsBytes;
    if n == 0 {
      WorldsCons(World([], [], 0, 0), [], s);
      assert s == [] + s;
    } else {
      ParsedWorld(s);
      var (w, r) := ReadWorld(s).value;
      ParsedWorlds(n - 1, r);
      var (ws, t) := ReadWorlds(n - 1, r).value;
      WorldsCons(w, ws, t);
    }
  }

  lemma OperandsParsed(m: Msg, t: Bytes)
    requires Fits(m)
    ensures DecodeOperands(Opcode(m), Operands(m) + t) == Some(m)
  {
    hide ReadField16, ReadField32, Field16, Field32, ReadU32, EncU32, ReadWorlds, WorldsBytes;
    match m {
      case ClientHello(ticket, user) =>
        Assoc(Field16(ticket), Field16(user), t);
        Field16RoundTrip(ticket, Field16(user) + t);
        Field16RoundTrip(user, t);
      case ClientProof(a, m1) =>
        Assoc(Field32(a), m1, t);
        Field32RoundTrip(a, m1 + t);
        BytesInverse(m1, t);
      case ServerChallenge(salt, b) =>
        Assoc(Field16(salt), Field32(b), t);
        Field16RoundTrip(salt, Field32(b) + t);
        Field32RoundTrip(b, t);
      case ServerProof(m2, token) =>
        Assoc(m2, Field16(token), t);
        BytesInverse(m2, Field16(token) + t);
        Field16RoundTrip(token, t);
      case ServerError =>
      case WorldList(ws) =>
        Assoc(EncU32(|ws|), WorldsBytes(ws), t);
        U32Inverse(|ws|, WorldsBytes(ws) + t);
        WorldsParsed(ws, t);
    }
  }

  lemma ParsedOperands(op: U16, s: Bytes)
    requires DecodeOperands(op, s).Some?
    ensures var m := DecodeOperands(op, s).value; Opcode(m) == op && Fits(m) && Operands(m) <= s
  {
    hide ReadField16, ReadField32, Field16, Field32, ReadU32, EncU32, ReadWorlds, WorldsBytes;
    if op == 1 {
      Field16Prefix(s);
      var (ticket, r) := ReadField16(s).value;
      Field16Prefix(r);
      var (user, t) := ReadField16(r).value;
      Assoc(Field16(ticket), Field16(user), t);
    } else if op == 2 {
      Field32Prefix(s);
      var (a, r) := ReadField32(s).value;
      var (m1, t) := ReadBytes(r, PROOF_SIZE).value;
      assert r == m1 + t;
      Assoc(Field32(a), m1, t);
    } else if op == 100 {
      Field16Prefix(s);
      var (salt, r) := ReadField16(s).value;
      Field32Prefix(r);
      var (b, t) := ReadField32(r).value;
      Assoc(Field16(salt), Field32(b), t);
    } else if op == 101 {
      var (m2, r) := ReadBytes(s, PROOF_SIZE).value;
      assert s == m2 + r;
      Field16Prefix(r);
      var (token, t) := ReadField16(r).value;
      Assoc(m2, Field16(token), t);
    } else if op == 103 {
      U32Inverse(0, s);
      var (n, r) := ReadU32(s).value;
      ParsedWorlds(n, r);
      var (ws, t) := ReadWorlds(n, r).value;
      Assoc(EncU32(n), WorldsBytes(ws), t);
    }
  }

  /** The decoder yields m on exactly the byte strings that begin with the encoding of m, for m that fits. */
  lemma DecodeExact(msg: Bytes, m: Msg)
    ensures Decode(msg) == Some(m) <==> Fits(m) && Encode(m) <= msg
  {
    hide ReadU16, EncU16, DecodeOperands, Operands, Fits;
    if Fits(m) && Encode(m) <= msg {
      var t := msg[|Encode(m)|..];
      assert msg == EncU16(Opcode(m)) + (Operands(m) + t);
      U16Inverse(Opcode(m), Operands(m) + t);
      OperandsParsed(m, t);
    }
    if Decode(msg) == Some(m) {
      U16Inverse(0, msg);
      var (op, r) := ReadU16(msg).value;
      ParsedOperands(op, r);
      var t := r[|Operands(m)|..];
      assert msg == Encode(m) + t;
    }
  }

  lemma RoundTrip(m: Msg)
    ensures Decode(Encode(m)) == Some(m) <==> Fits(m)
  {
    DecodeExact(Encode(m), m);
  }

  // ---------------------------------------------------------------- Master's reply

  const ERROR_CODE: U16 := 0xFFFF

  datatype Redirect = Redirect(ticket: Bytes, host: Bytes, port: U16)

  function EncodeRedirect(r: Redirect): Bytes {
    Field16(r.ticket) + (Field16(r.host) + EncU16(r.port))
  }

  function DecodeRedirect(msg: Bytes): Option<Redirect> {
    var (ticket, r) :- ReadField16(msg);
    var (host, r) :- ReadField16(r);
    var (port, _) :- ReadU16(r);
    Some(Redirect(ticket, host, port))
  }

  predicate IsError(msg: Bytes) {
    var v := ReadU16(msg);
    v.Some? && v.value.0 == ERROR_CODE
  }

  /** A redirection is recovered, and not mistaken for the error reply, exactly when its strings fit;
      a ticket of 65535 bytes would read as the error code. */
  lemma RedirectRoundTrip(r: Redirect)
    ensures DecodeRedirect(EncodeRedirect(r)) == Some(r) && !IsError(EncodeRedirect(r))
       <==> |r.ticket| < 0xFFFF && |r.host| < 0x1_0000
    ensures IsError(EncU16(ERROR_CODE)) && DecodeRedirect(EncU16(ERROR_CODE)).None?
  {
    hide ReadU16, EncU16;
    var s := EncodeRedirect(r);
    var t := Field16(r.host) + EncU16(r.port);
    Field16RoundTrip(r.ticket, t);
    U16Inverse(Narrow16(|r.ticket|), r.ticket + t);
    assert s == EncU16(Narrow16(|r.ticket|)) + (r.ticket + t);
    if DecodeRedirect(s).Some? {
      Field16Prefix(s);
      Field16Prefix(ReadField16(s).value.1);
    }
    if |r.ticket| < 0x1_0000 && |r.host| < 0x1_0000 {
      Field16RoundTrip(r.host, EncU16(r.port));
      U16Inverse(r.port, []);
      assert EncU16(r.port) + [] == EncU16(r.port);
    }
    U16Inverse(ERROR_CODE, []);
    assert EncU16(ERROR_CODE) + [] == EncU16(ERROR_CODE);
  }

  // ---------------------------------------------------------------- the code

  method EncodeClientHello(ticket: Bytes, username: Bytes) returns (msg: Bytes)
    ensures msg == Encode(ClientHello(ticket, username))
  {
    hide EncU16, Field16;
    var w := new ByteWriter();
    w.PutU16(1);
    w.PutField16(ticket);
    w.PutField16(username);
    msg := w.buf;
  }

  method EncodeClientProof(A: Bytes, M1: Bytes) returns (msg: Bytes)
    ensures msg == Encode(ClientProof(A, M1))
  {
    hide EncU16, Field32;
    var w := new ByteWriter();
    w.PutU16(2);
    w.PutField32(A);
    w.PutBytes(M1);
    msg := w.buf;
  }

  method EncodeServerChallenge(salt: Bytes, B: Bytes) returns (msg: Bytes)
    ensures msg == Encode(ServerChallenge(salt, B))
  {
    hide EncU16, Field16, Field32;
    var w := new ByteWriter();
    w.PutU16(100);
    w.PutField16(salt);
    w.PutField32(B);
    msg := w.buf;
  }

  method EncodeServerProof(M2: Bytes, token: Bytes) returns (msg: Bytes)
    ensures msg == Encode(ServerProof(M2, token))
  {
    hide EncU16, Field16;
    var w := new ByteWriter();
    w.PutU16(101);
    w.PutBytes(M2);
    w.PutField16(token);
    msg := w.buf;
  }

  method EncodeError() returns (msg: Bytes)
    ensures msg == Encode(ServerError)
  {
    hide EncU16;
    var w := new ByteWriter();
    w.PutU16(102);
    msg := w.buf;
  }

  /** `master_proto::encode_redirect`. */
  method EncodeRedirection(ticket: Bytes, host: Bytes, port: U16) returns (msg: Bytes)
    ensures msg == EncodeRedirect(Redirect(ticket, host, port))
  {
    hide EncU16, Field16;
    var w := new ByteWriter();
    w.PutField16(ticket);
    w.PutField16(host);
    w.PutU16(port);
    msg := w.buf;
  }

  /** `master_proto::decode_redirect`. */
  method DecodeRedirection(msg: Bytes) returns (d: Option<Redirect>)
    ensures d == DecodeRedirect(msg)
  {
    hide ReadField16, ReadU16;
    var r := new ByteReader(msg);
    var ticket := r.GetField16();
    if ticket.None? { return None; }
    var host := r.GetField16();
    if host.None? { return None; }
    var port := r.GetU16();
    if port.None? { return None; }
    d := Some(Redirect(ticket.value, host.value, port.value));
  }

  lemma {:induction false} WorldsAppend(ws: seq<World>, w: World)
    ensures WorldsBytes(ws + [w]) == WorldsBytes(ws) + WorldBytes(w)
  {
    hide WorldBytes;
    if ws == [] {
      assert ws + [w] == [w];
      assert WorldsBytes([w]) == WorldBytes(w) + WorldsBytes([]);
    } else {
      WorldsAppend(ws[1..], w);
      assert (ws + [w])[1..] == ws[1..] + [w];
      Assoc(WorldBytes(ws[0]), WorldsBytes(ws[1..]), WorldBytes(w));
    }
  }

  method EncodeWorldList(worlds: seq<World>) returns (msg: Bytes)
    ensures msg == Encode(WorldList(worlds))
  {
    hide EncU16, EncU32, Field16, WorldsBytes;
    var w := new ByteWriter();
    w.PutU16(103);
    w.PutU32(Narrow32(|worlds|));
    ghost var head := w.buf;
    WorldsCons(World([], [], 0, 0), [], []);
    for i := 0 to |worlds|
      invariant fresh(w)
      invariant w.buf == head + WorldsBytes(worlds[..i])
    {
      var wd := worlds[i];
      ghost var before := w.buf;
      w.PutField16(wd.name);
      w.PutField16(wd.host);
      w.PutU16(wd.port);
      w.PutU32(wd.population);
      assert w.buf == before + WorldBytes(wd);
      WorldsAppend(worlds[..i], wd);
      Assoc(head, WorldsBytes(worlds[..i]), WorldBytes(wd));
      assert worlds[..i + 1] == worlds[..i] + [wd];
    }
    assert worlds[..|worlds|] == worlds;
    msg := w.buf;
  }

  /** `decode`: one message, read field by field. */
  method DecodeMessage(msg: Bytes) returns (d: Option<Msg>)
    ensures d == Decode(msg)
  {
    hide ReadField16, ReadField32, ReadU16, ReadU32, ReadWorlds;
    var r := new ByteReader(msg);
    var opcode := r.GetU16();
    if opcode.None? { return None; }
    var op := opcode.value;
    if op == 1 {
      var ticket := r.GetField16();
      if ticket.None? { return None; }
      var user := r.GetField16();
      if user.None? { return None; }
      d := Some(ClientHello(ticket.value, user.value));
    } else if op == 2 {
      var a := r.GetField32();
      if a.None? { return None; }
      var m1 := r.GetBytes(PROOF_SIZE);
      if m1.None? { return None; }
      d := Some(ClientProof(a.value, m1.value));
    } else if op == 100 {
      var salt := r.GetField16();
      if salt.None? { return None; }
      var b := r.GetField32();
      if b.None? { return None; }
      d := Some(ServerChallenge(salt.value, b.value));
    } else if op == 101 {
      var m2 := r.GetBytes(PROOF_SIZE);
      if m2.None? { return None; }
      var token := r.GetField16();
      if token.None? { return None; }
      d := Some(ServerProof(m2.value, token.value));
    } else if op == 102 {
      d := Some(ServerError);
    } else if op == 103 {
      d := DecodeWorldList(r);
    } else {
      d := None;
    }
  }

  method DecodeWorldList(r: ByteReader) returns (d: Option<Msg>)
    modifies r
    ensures d == ReadWorldList(old(r.data))
  {
    hide ReadField16, ReadU16, ReadU32;
    var count := r.GetU32();
    if count.None? { return None; }
    if count.value > MAX_WORLDS { return None; }
    var worlds: seq<World> := [];
    ghost var all := ReadWorlds(count.value, r.data);
    for i := 0 to count.value
      invariant ReadWorlds(count.value - i, r.data).None? == all.None?
      invariant all.Some? ==> all.value.0 == worlds + ReadWorlds(count.value - i, r.data).value.0
    {
      var name := r.GetField16();
      if name.None? { return None; }
      var host := r.GetField16();
      if host.None? { return None; }
      var port := r.GetU16();
      if port.None? { return None; }
      var population := r.GetU32();
      if population.None? { return None; }
      worlds := worlds + [World(name.value, host.value, port.value, population.value)];
    }
    assert ReadWorlds(0, r.data) == Some(([], r.data));
    assert worlds + [] == worlds;
    d := Some(WorldList(worlds));
  }
}
