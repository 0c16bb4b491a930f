/**
 The authenticated messages of the internal store protocol
 (include/store/store_wire.hpp). HMAC-SHA256 under the shared secret is an
 arbitrary function with 32-byte results, so nothing here relies on cryptography.
 */
module StoreWire {
  import opened Numerals
  import opened ByteIo

  const MAC_SIZE := 32
  const MAX_ENTRIES := 100_000

  type Digest = s: Bytes | |s| == MAC_SIZE witness seq(MAC_SIZE, _ => 0)
  type Mac = Bytes -> Digest

  datatype Entry = Entry(key: Bytes, value: Bytes)

  /** A decoded message; a field the opcode does not use does not appear. */
  datatype Msg =
    | Put(key: Bytes, value: Bytes, ttl: U32)
    | Get(key: Bytes)
    | Take(key: Bytes)
    | ListPrefix(key: Bytes)
    | Ok
    | Value(value: Bytes)
    | NotFound
    | Err
    | List(entries: seq<Entry>)

  function Opcode(m: Msg): U16 {
    match m
    case Put(_, _, _) => 1
    case Get(_) => 2
    case Take(_) => 3
    case ListPrefix(_) => 4
    case Ok => 100
    case Value(_) => 101
    case NotFound => 102
    case Err => 103
    case List(_) => 104
  }

  function EntriesBytes(es: seq<Entry>): Bytes {
    if es == [] then [] else Field16(es[0].key) + (Field32(es[0].value) + EntriesBytes(es[1..]))
  }

  /** The operands that a decoder looks at, and the unused value length and ttl of a key request. */
  function Operands(m: Msg): Bytes {
    match m
    case Put(k, v, ttl) => Field16(k) + (Field32(v) + EncU32(ttl))
    case Get(k) => Field16(k)
    case Take(k) => Field16(k)
    case ListPrefix(k) => Field16(k)
    case Value(v) => Field32(v)
    case List(es) => EncU32(Narrow32(|es|)) + EntriesBytes(es)
    case _ => []
  }

  predicate KeyRequest(m: Msg) { m.Get? || m.Take? || m.ListPrefix? }

  function Padding(m: Msg): Bytes {
    if KeyRequest(m) then EncU32(0) + EncU32(0) else []
  }

  function Core(m: Msg): Bytes { EncU16(Opcode(m)) + Operands(m) }

  function Body(m: Msg): Bytes { Core(m) + Padding(m) }

  function Seal(mac: Mac, body: Bytes): Bytes { body + mac(body) }

  /** What the encoders send. */
  function Encode(mac: Mac, m: Msg): Bytes { Seal(mac, Body(m)) }

  // ---------------------------------------------------------------- decoding

  function ReadEntries(n: nat, s: Bytes): Option<(seq<Entry>, Bytes)> {
    if n == 0 then Some(([], s)) else
    var (k, r) :- ReadField16(s);
    var (v, r) :- ReadField32(r);
    var (es, r) :- ReadEntries(n - 1, r);
    Some(([Entry(k, v)] + es, r))
  }

  function ReadPut(s: Bytes): Option<Msg> {
    var (k, r) :- ReadField16(s);
    var (v, r) :- ReadField32(r);
    var (ttl, _) :- ReadU32(r);
    Some(Put(k, v, ttl))
  }

  function ReadKey(op: U16, s: Bytes): Option<Msg>
    requires 2 <= op <= 4
  {
    var (k, _) :- ReadField16(s);
    Some(if op == 2 then Get(k) else if op == 3 then Take(k) else ListPrefix(k))
  }

  function ReadValue(s: Bytes): Option<Msg> {
    var (v, _) :- ReadField32(s);
    Some(Value(v))
  }

  function ReadList(s: Bytes): Option<Msg> {
    var (n, r) :- ReadU32(s);
    if n > MAX_ENTRIES then None else
    var (es, _) :- ReadEntries(n, r);
    Some(List(es))
  }

  function DecodeOperands(op: U16, s: Bytes): Option<Msg> {
    if op == 1 then ReadPut(s)
    else if 2 <= op <= 4 then ReadKey(op, s)
    else if op == 100 then Some(Ok)
    else if op == 101 then ReadValue(s)
    else if op == 102 then Some(NotFound)
    else if op == 103 then Some(Err)
    else if op == 104 then ReadList(s)
    else None
  }

  function DecodeBody(body: Bytes): Option<Msg> {
    var (op, r) :- ReadU16(body);
    DecodeOperands(op, r)
  }

  function Decode(mac: Mac, msg: Bytes): Option<Msg> {
    if |msg| < MAC_SIZE + 2 then None else
    var body := msg[..|msg| - MAC_SIZE];
    if msg[|msg| - MAC_SIZE..] != mac(body) then None else DecodeBody(body)
  }

  // ---------------------------------------------------------------- both directions

  predicate EntryFits(e: Entry) { |e.key| < 0x1_0000 && |e.value| < 0x1_0000_0000 }

  /** Every length fits its field, and a list stays under the decoder's cap. */
  predicate Fits(m: Msg) {
    match m
    case Put(k, v, _) => |k| < 0x1_0000 && |v| < 0x1_0000_0000
    case Get(k) => |k| < 0x1_0000
    case Take(k) => |k| < 0x1_0000
    case ListPrefix(k) => |k| < 0x1_0000
    case Value(v) => |v| < 0x1_0000_0000
    case List(es) => |es| <= MAX_ENTRIES && forall e :: e in es ==> EntryFits(e)
    case _ => true
  }

  lemma {:induction false} EntriesParsed(es: seq<Entry>, t: Bytes)
    requires forall e :: e in es ==> EntryFits(e)
    ensures ReadEntries(|es|, EntriesBytes(es) + t) == Some((es, t))
  {
    if es == [] {
      assert EntriesBytes(es) + t == t;
    } else {
      hide ReadField16, ReadField32, Field16, Field32;
      var rest := EntriesBytes(es[1..]) + t;
      var vs := Field32(es[0].value) + rest;
      EntriesCons(es[0], es[1..], t);
      assert es == [es[0]] + es[1..];
      assert EntryFits(es[0]);
      Field16RoundTrip(es[0].key, vs);
      Field32RoundTrip(es[0].value, rest);
      EntriesParsed(es[1..], t);
      assert es[0] == Entry(es[0].key, es[0].value);
    }
  }

  lemma EntriesCons(e: Entry, es: seq<Entry>, t: Bytes)
    ensures EntriesBytes([]) == [] && EntriesBytes([e] + es) == Field16(e.key) + (Field32(e.value) + EntriesBytes(es))
    ensures EntriesBytes([e] + es) + t == Field16(e.key) + (Field32(e.value) + (EntriesBytes(es) + t))
  {
    hide Field16, Field32;
    assert ([e] + es)[1..] == es;
    var rest := EntriesBytes(es);
    Assoc(Field32(e.value), rest, t);
    Assoc(Field16(e.key), Field32(e.value) + rest, t);
  }

  lemma {:induction false} ParsedEntries(n: nat, s: Bytes)
    requires ReadEntries(n, s).Some?
    ensures var (es, t) := ReadEntries(n, s).value;
            |es| == n && s == EntriesBytes(es) + t && forall e :: e in es ==> EntryFits(e)
  {
    hide ReadField16, ReadField32, Field16, Field32, EntriesBytes;
    if n == 0 {
      EntriesCons(Entry([], []), [], s);
      assert s == [] + s;
    } else {
      Field16Prefix(s);
      var (k, r1) := ReadField16(s).value;
      Field32Prefix(r1);
      var (v, r2) := ReadField32(r1).value;
      ParsedEntries(n - 1, r2);
      var (tail, t) := ReadEntries(n - 1, r2).value;
      EntriesCons(Entry(k, v), tail, t);
    }
  }

  lemma OperandsParsed(m: Msg, t: Bytes)
    requires Fits(m)
    ensures DecodeOperands(Opcode(m), Operands(m) + t) == Some(m)
  {
    hide ReadField16, ReadField32, Field16, Field32, ReadU32, EncU32, ReadEntries, EntriesBytes;
    match m {
      case Put(k, v, ttl) =>
        var r1 := EncU32(ttl) + t;
        var r2 := Field32(v) + r1;
        assert Operands(m) + t == Field16(k) + r2;
        Field16RoundTrip(k, r2);
        Field32RoundTrip(v, r1);
        U32Inverse(ttl, t);
      case Get(k) => Field16RoundTrip(k, t);
      case Take(k) => Field16RoundTrip(k, t);
      case ListPrefix(k) => Field16RoundTrip(k, t);
      case Value(v) => Field32RoundTrip(v, t);
      case List(es) =>
        assert Operands(m) + t == EncU32(|es|) + (EntriesBytes(es) + t);
        U32Inverse(|es|, EntriesBytes(es) + t);
        EntriesParsed(es, t);
      case Ok =>
      case NotFound =>
      case Err =>
    }
  }

  lemma ParsedOperands(op: U16, s: Bytes)
    requires DecodeOperands(op, s).Some?
    ensures var m := DecodeOperands(op, s).value; Opcode(m) == op && Fits(m) && Operands(m) <= s
  {
    hide ReadField16, ReadField32, Field16, Field32, ReadU32, EncU32, ReadEntries, EntriesBytes;
    if op == 1 {
      Field16Prefix(s);
      var (k, r1) := ReadField16(s).value;
      Field32Prefix(r1);
      var (v, r2) := ReadField32(r1).value;
      var (ttl, r3) := ReadU32(r2).value;
      U32Inverse(0, r2);
      assert s == (Field16(k) + (Field32(v) + EncU32(ttl))) + r3;
    } else if 2 <= op <= 4 {
      Field16Prefix(s);
    } else if op == 101 {
      Field32Prefix(s);
    } else if op == 104 {
      U32Inverse(0, s);
      var (n, r) := ReadU32(s).value;
      ParsedEntries(n, r);
      var (es, t) := ReadEntries(n, r).value;
      assert s == (EncU32(n) + EntriesBytes(es)) + t;
    }
  }

  /** The decoder accepts m on exactly the bodies that begin with its encoding, for messages that fit. */
  lemma DecodeBodyExact(body: Bytes, m: Msg)
    ensures DecodeBody(body) == Some(m) <==> Fits(m) && Core(m) <= body
  {
    hide ReadU16, EncU16, DecodeOperands, Operands, Fits;
    if Fits(m) && Core(m) <= body {
      var t := body[|Core(m)|..];
      assert body == EncU16(Opcode(m)) + (Operands(m) + t);
      U16Inverse(Opcode(m), Operands(m) + t);
      OperandsParsed(m, t);
    }
    if DecodeBody(body) == Some(m) {
      U16Inverse(0, body);
      var (op, r) := ReadU16(body).value;
      ParsedOperands(op, r);
      var t := r[|Operands(m)|..];
      assert body == Core(m) + t;
    }
  }

  /** Acceptance, completely: a valid tag over a body that begins with the encoding of a fitting message. */
  lemma DecodeExact(mac: Mac, msg: Bytes, m: Msg)
    ensures Decode(mac, msg) == Some(m)
       <==> exists body :: msg == Seal(mac, body) && Fits(m) && Core(m) <= body
  {
    hide DecodeBody, Core, Fits;
    if Decode(mac, msg) == Some(m) {
      var body := msg[..|msg| - MAC_SIZE];
      DecodeBodyExact(body, m);
      assert msg == Seal(mac, body);
    }
    if body :| msg == Seal(mac, body) && Fits(m) && Core(m) <= body {
      CoreNonEmpty(m);
      assert msg[..|msg| - MAC_SIZE] == body && msg[|msg| - MAC_SIZE..] == mac(body);
      DecodeBodyExact(body, m);
    }
  }

  lemma CoreNonEmpty(m: Msg)
    ensures |Core(m)| >= 2
  {}

  /** Round trip of every message: it is recovered exactly when it fits. */
  lemma RoundTrip(mac: Mac, m: Msg)
    ensures Decode(mac, Encode(mac, m)) == Some(m) <==> Fits(m)
  {
    hide Core, Fits, Decode;
    assert Core(m) <= Body(m);
    assert Encode(mac, m) == Seal(mac, Body(m));
    DecodeExact(mac, Encode(mac, m), m);
  }

  // ---------------------------------------------------------------- the code

  method EncodePut(mac: Mac, key: Bytes, value: Bytes, ttl: U32) returns (msg: Bytes)
    ensures msg == Encode(mac, Put(key, value, ttl))
  {
    hide EncU16, EncU32, Field16, Field32;
    var w := new ByteWriter();
    w.PutU16(1);
    w.PutField16(key);
    w.PutField32(value);
    w.PutU32(ttl);
    assert w.buf == Body(Put(key, value, ttl));
    w.PutBytes(mac(w.buf));
    msg := w.buf;
  }

  method EncodeGetOrTake(op: U16, mac: Mac, key: Bytes) returns (msg: Bytes)
    requires 2 <= op <= 4
    ensures msg == Encode(mac, if op == 2 then Get(key) else if op == 3 then Take(key) else ListPrefix(key))
  {
    hide EncU16, EncU32, Field16;
    var w := new ByteWriter();
    w.PutU16(op);
    w.PutField16(key);
    w.PutU32(0);
    w.PutU32(0);
    ghost var m := if op == 2 then Get(key) else if op == 3 then Take(key) else ListPrefix(key);
    assert w.buf == Body(m);
    w.PutBytes(mac(w.buf));
    msg := w.buf;
  }

  method EncodeListPrefix(mac: Mac, prefix: Bytes) returns (msg: Bytes)
    ensures msg == Encode(mac, ListPrefix(prefix))
  {
    msg := EncodeGetOrTake(4, mac, prefix);
  }

  /** `encode_ok` and `encode_not_found`: an opcode and its tag. */
  method EncodeBare(mac: Mac, op: U16) returns (msg: Bytes)
    requires op == 100 || op == 102
    ensures msg == Encode(mac, if op == 100 then Ok else NotFound)
  {
    hide EncU16;
    var w := new ByteWriter();
    w.PutU16(op);
    assert w.buf == Body(if op == 100 then Ok else NotFound);
    w.PutBytes(mac(w.buf));
    msg := w.buf;
  }

  method EncodeValue(mac: Mac, value: Bytes) returns (msg: Bytes)
    ensures msg == Encode(mac, Value(value))
  {
    hide EncU16, Field32;
    var w := new ByteWriter();
    w.PutU16(101);
    w.PutField32(value);
    assert w.buf == Body(Value(value));
    w.PutBytes(mac(w.buf));
    msg := w.buf;
  }

  lemma {:induction false} EntriesAppend(es: seq<Entry>, e: Entry)
    ensures EntriesBytes(es + [e]) == EntriesBytes(es) + (Field16(e.key) + Field32(e.value))
  {
    hide Field16, Field32;
    if es == [] {
      assert EntriesBytes([]) == [];
      assert EntriesBytes([e]) == Field16(e.key) + (Field32(e.value) + []);
    } else {
      EntriesAppend(es[1..], e);
      assert (es + [e])[1..] == es[1..] + [e];
      assert (es + [e])[0] == es[0];
    }
  }

  method EncodeList(mac: Mac, entries: seq<Entry>) returns (msg: Bytes)
    ensures msg == Encode(mac, List(entries))
  {
    hide EncU16, EncU32, Field16, Field32, EntriesBytes;
    var w := new ByteWriter();
    w.PutU16(104);
    w.PutU32(Narrow32(|entries|));
    ghost var head := w.buf;
    EntriesCons(Entry([], []), [], []);
    for i := 0 to |entries|
      invariant fresh(w)
      invariant w.buf == head + EntriesBytes(entries[..i])
    {
      ghost var f16, f32 := Field16(entries[i].key), Field32(entries[i].value);
      EntriesAppend(entries[..i], entries[i]);
      Assoc(head, EntriesBytes(entries[..i]), f16 + f32);
      Assoc(head + EntriesBytes(entries[..i]), f16, f32);
      assert entries[..i + 1] == entries[..i] + [entries[i]];
      w.PutField16(entries[i].key);
      w.PutField32(entries[i].value);
    }
    assert entries[..|entries|] == entries;
    assert w.buf == Body(List(entries));
    w.PutBytes(mac(w.buf));
    msg := w.buf;
  }

  /** `decode_and_verify`: check the tag, then read field by field. */
  method DecodeAndVerify(mac: Mac, msg: Bytes) returns (d: Option<Msg>)
    ensures d == Decode(mac, msg)
  {
    if |msg| < MAC_SIZE + 2 { return None; }
    var body := msg[..|msg| - MAC_SIZE];
    if msg[|msg| - MAC_SIZE..] != mac(body) { return None; }
    var r := new ByteReader(body);
    var opcode := r.GetU16();
    if opcode.None? { return None; }
    var op := opcode.value;
    hide ReadField16, ReadField32, ReadU16, ReadU32, ReadEntries;
    if op == 1 {
      var key := r.GetField16();
      if key.None? { return None; }
      var val := r.GetField32();
      if val.None? { return None; }
      var ttl := r.GetU32();
      if ttl.None? { return None; }
      d := Some(Put(key.value, val.value, ttl.value));
    } else if 2 <= op <= 4 {
      var key := r.GetField16();
      if key.None? { return None; }
      d := Some(if op == 2 then Get(key.value) else if op == 3 then Take(key.value) else ListPrefix(key.value));
    } else if op == 101 {
      var val := r.GetField32();
      if val.None? { return None; }
      d := Some(Value(val.value));
    } else if op == 104 {
      d := DecodeList(r);
    } else if op == 100 || op == 102 || op == 103 {
      d := Some(if op == 100 then Ok else if op == 102 then NotFound else Err);
    } else {
      d := None;
    }
  }

  /** The counted loop of the List case. */
  method DecodeList(r: ByteReader) returns (d: Option<Msg>)
    modifies r
    ensures d == ReadList(old(r.data))
  {
    hide ReadField16, ReadField32, ReadU32;
    var count := r.GetU32();
    if count.None? { return None; }
    if count.value > MAX_ENTRIES { return None; }
    var entries: seq<Entry> := [];
    ghost var all := ReadEntries(count.value, r.data);
    for i := 0 to count.value
      invariant ReadEntries(count.value - i, r.data).None? == all.None?
      invariant all.Some? ==> all.value.0 == entries + ReadEntries(count.value - i, r.data).value.0
    {
      var key := r.GetField16();
      if key.None? { return None; }
      var val := r.GetField32();
      if val.None? { return None; }
      entries := entries + [Entry(key.value, val.value)];
    }
    assert ReadEntries(0, r.data) == Some(([], r.data));
    assert entries + [] == entries;
    d := Some(List(entries));
  }
}
