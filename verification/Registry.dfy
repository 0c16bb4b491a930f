/**
 Random tokens (include/security/secure_random.hpp) and the service registry kept
 in the same store (include/registry/world_registry.hpp).
 */
module Registry {
  import opened Numerals
  import opened ByteIo
  import opened SharedStore
  import StoreWire

  // ---------------------------------------------------------------- tokens

  const TOKEN_BYTES := 16

  function Digit(v: nat): Byte
    requires v < 16
  {
    if v < 10 then '0' as int + v else 'a' as int + v - 10
  }

  function ToHex(bytes: Bytes): (s: Bytes)
    ensures |s| == 2 * |bytes|
  {
    if bytes == [] then [] else [Digit(bytes[0] / 16), Digit(bytes[0] % 16)] + ToHex(bytes[1..])
  }

  predicate IsDigit(b: Byte) { '0' as int <= b <= '9' as int || 'a' as int <= b <= 'f' as int }

  predicate IsToken(k: Bytes) { |k| == 2 * TOKEN_BYTES && forall i :: 0 <= i < |k| ==> IsDigit(k[i]) }

  lemma {:induction false} HexAppend(a: Bytes, b: Byte)
    ensures ToHex(a + [b]) == ToHex(a) + [Digit(b / 16), Digit(b % 16)]
  {
    if a == [] {
      assert a + [b] == [b];
      assert [b][1..] == [];
      assert ToHex([b]) == [Digit(b / 16), Digit(b % 16)] + ToHex([]);
    } else {
      HexAppend(a[1..], b);
      assert (a + [b])[1..] == a[1..] + [b];
    }
  }

  lemma {:induction false} HexDigits(bytes: Bytes)
    ensures forall i :: 0 <= i < |ToHex(bytes)| ==> IsDigit(ToHex(bytes)[i])
  {
    if bytes != [] {
      HexDigits(bytes[1..]);
      assert forall i :: 2 <= i < |ToHex(bytes)| ==> ToHex(bytes)[i] == ToHex(bytes[1..])[i - 2];
    }
  }

  function DigitValue(b: Byte): int {
    if b <= '9' as int then b - 48 else b - 87
  }

  /** A text of digits read as a number in base 16. */
  function HexNumber(s: Bytes): int {
    if s == [] then 0 else HexNumber(s[..|s| - 1]) * 16 + DigitValue(s[|s| - 1])
  }

  /** The text of a token denotes the same number as its bytes: two digits a byte, the higher one first. */
  lemma {:induction false} HexMeans(bytes: Bytes)
    ensures HexNumber(ToHex(bytes)) == FromBigEndian(bytes)
  {
    if bytes == [] {
    } else {
      var n := |bytes| - 1;
      var init, b := bytes[..n], bytes[n];
      HexMeans(init);
      HexAppend(init, b);
      assert bytes == init + [b];
      var t := ToHex(init);
      var high, low := Digit(b / 16), Digit(b % 16);
      assert (t + [high, low])[..|t| + 1] == t + [high] && (t + [high])[..|t|] == t;
      assert HexNumber(t + [high]) == HexNumber(t) * 16 + b / 16;
      assert HexNumber(t + [high, low]) == HexNumber(t + [high]) * 16 + b % 16;
    }
  }

  /** Different random bytes give different tokens. */
  lemma {:induction false} HexInjective(a: Bytes, b: Bytes)
    requires ToHex(a) == ToHex(b)
    ensures a == b
  {
    if a != [] {
      var x, y := ToHex(a), ToHex(b);
      assert x[0] == y[0] && x[1] == y[1];
      assert x[2..] == ToHex(a[1..]) && y[2..] == ToHex(b[1..]);
      HexInjective(a[1..], b[1..]);
      assert a == [a[0]] + a[1..] && b == [b[0]] + b[1..];
    }
  }

  method BytesToHex(bytes: Bytes) returns (out: Bytes)
    ensures out == ToHex(bytes)
  {
    out := [];
    for i := 0 to |bytes|
      invariant out == ToHex(bytes[..i])
    {
      HexAppend(bytes[..i], bytes[i]);
      assert bytes[..i + 1] == bytes[..i] + [bytes[i]];
      out := out + [Digit(bytes[i] / 16)];
      out := out + [Digit(bytes[i] % 16)];
    }
    assert bytes[..|bytes|] == bytes;
  }

  // ---------------------------------------------------------------- codecs

  datatype LoginInfo = LoginInfo(host: Bytes, port: U16)
  datatype WorldInfo = WorldInfo(host: Bytes, port: U16, name: Bytes, population: U32)

  function EncodeLogin(i: LoginInfo): Bytes { Field16(i.host) + EncU16(i.port) }

  function DecodeLogin(data: Bytes): Option<LoginInfo> {
    var (host, r) :- ReadField16(data);
    var (port, _) :- ReadU16(r);
    Some(LoginInfo(host, port))
  }

  function EncodeWorld(i: WorldInfo): Bytes {
    Field16(i.host) + (EncU16(i.port) + (Field16(i.name) + EncU32(i.population)))
  }

  function DecodeWorld(data: Bytes): Option<WorldInfo> {
    var (host, r) :- ReadField16(data);
    var (port, r) :- ReadU16(r);
    var (name, r) :- ReadField16(r);
    var (population, _) :- ReadU32(r);
    Some(WorldInfo(host, port, name, population))
  }

  lemma LoginInfoRoundTrip(i: LoginInfo)
    ensures DecodeLogin(EncodeLogin(i)) == Some(i) <==> |i.host| < 0x1_0000
  {
    hide ReadU16, EncU16, ReadField16, Field16;
    Field16RoundTrip(i.host, EncU16(i.port));
    U16Inverse(i.port, []);
    assert EncU16(i.port) + [] == EncU16(i.port);
    if DecodeLogin(EncodeLogin(i)).Some? { Field16Prefix(EncodeLogin(i)); }
  }

  lemma WorldInfoRoundTrip(i: WorldInfo)
    ensures DecodeWorld(EncodeWorld(i)) == Some(i) <==> |i.host| < 0x1_0000 && |i.name| < 0x1_0000
  {
    hide ReadU16, EncU16, ReadU32, EncU32, ReadField16, Field16;
    var r2 := Field16(i.name) + EncU32(i.population);
    var r1 := EncU16(i.port) + r2;
    Field16RoundTrip(i.host, r1);
    U16Inverse(i.port, r2);
    Field16RoundTrip(i.name, EncU32(i.population));
    U32Inverse(i.population, []);
    assert EncU32(i.population) + [] == EncU32(i.population);
    var d := DecodeWorld(EncodeWorld(i));
    if d == Some(i) { WorldDecoded(EncodeWorld(i)); }
  }

  /** A decoded world came from at least the bytes its fields take. */
  lemma WorldDecoded(data: Bytes)
    requires DecodeWorld(data).Some?
    ensures var i := DecodeWorld(data).value;
            |i.host| < 0x1_0000 && |i.name| < 0x1_0000 && 10 + |i.host| + |i.name| <= |data|
  {
    hide Image, Word;
    Field16Prefix(data);
    var (host, r1) := ReadField16(data).value;
    var (port, r2) := ReadU16(r1).value;
    Field16Prefix(r2);
  }

  /** The bytes of both registrations, field by field. */
  lemma Layouts(l: LoginInfo, w: WorldInfo)
    requires |l.host| < 0x1_0000 && |w.host| < 0x1_0000 && |w.name| < 0x1_0000
    ensures var e, h := EncodeLogin(l), |l.host|;
            |e| == 4 + h && e[..2] == EncU16(h) && e[2..2 + h] == l.host && e[2 + h..] == EncU16(l.port)
    ensures var e, h, n := EncodeWorld(w), |w.host|, |w.name|;
            && |e| == 10 + h + n && e[..2] == EncU16(h) && e[2..2 + h] == w.host && e[2 + h..4 + h] == EncU16(w.port)
            && e[4 + h..6 + h] == EncU16(n) && e[6 + h..6 + h + n] == w.name && e[6 + h + n..] == EncU32(w.population)
  {
    hide EncU16, EncU32;
    Widths(|l.host|, 0);
    Widths(l.port, 0);
    Widths(|w.host|, w.population);
    Widths(|w.name|, 0);
    Widths(w.port, 0);
    assert Narrow16(|l.host|) == |l.host| && Narrow16(|w.host|) == |w.host| && Narrow16(|w.name|) == |w.name|;
  }

  lemma Widths(v: U16, w: U32)
    ensures |EncU16(v)| == 2 && |EncU32(w)| == 4
  {}

  // ---------------------------------------------------------------- readers

  const LOGIN_PREFIX: Bytes := Ascii("registry:login:")
  const WORLD_PREFIX: Bytes := Ascii("registry:world:")
  const LOGIN_PORT: U16 := 3726
  const WORLD_PORT: U16 := 8085

  function LoginKey(host: Bytes): Bytes { LOGIN_PREFIX + (host + Ascii(":3726")) }
  function WorldKey(host: Bytes): Bytes { WORLD_PREFIX + (host + Ascii(":8085")) }

  /** The keys under which the processes register, for the host "h". */
  lemma KeyTexts()
    ensures LoginKey(Ascii("h")) == Ascii("registry:login:h:3726") && WorldKey(Ascii("h")) == Ascii("registry:world:h:8085")
  {}

  /** `pick_login` on the listing it is given: the first entry, decoded. */
  function PickLogin(entries: seq<StoreWire.Entry>): Option<LoginInfo> {
    if entries == [] then None else DecodeLogin(entries[0].value)
  }

  /** `list_worlds`: every listed entry that decodes, in order. */
  function Worlds(entries: seq<StoreWire.Entry>): seq<WorldInfo> {
    if entries == [] then [] else
    var n := |entries| - 1;
    var i := DecodeWorld(entries[n].value);
    Worlds(entries[..n]) + if i.Some? then [i.value] else []
  }

  /** In order, and each entry by itself. */
  lemma {:induction false} WorldsInOrder(a: seq<StoreWire.Entry>, b: seq<StoreWire.Entry>, e: StoreWire.Entry)
    ensures Worlds(a + b) == Worlds(a) + Worlds(b)
    ensures Worlds([e]) == if DecodeWorld(e.value).Some? then [DecodeWorld(e.value).value] else []
    decreases |b|
  {
    hide DecodeWorld;
    assert [e][..0] == [];
    if b == [] {
      assert a + b == a && Worlds(a) + [] == Worlds(a);
    } else {
      var n := |b| - 1;
      WorldsInOrder(a, b[..n], e);
      assert (a + b)[..|a + b| - 1] == a + b[..n];
      assert (a + b)[|a + b| - 1] == b[n];
    }
  }

  method CollectWorlds(entries: seq<StoreWire.Entry>) returns (out: seq<WorldInfo>)
    ensures out == Worlds(entries)
  {
    hide DecodeWorld;
    out := [];
    for i := 0 to |entries|
      invariant out == Worlds(entries[..i])
    {
      assert entries[..i + 1][..i] == entries[..i];
      var info := DecodeWorld(entries[i].value);
      if info.Some? { out := out + [info.value]; }
    }
    assert entries[..|entries|] == entries;
  }

  // ---------------------------------------------------------------- what the three writers leave in the store

  predicate LoginEntry(k: Bytes, v: Bytes) {
    var i := DecodeLogin(v);
    i.Some? && i.value.port == LOGIN_PORT && k == LoginKey(i.value.host)
  }

  predicate WorldEntry(k: Bytes, v: Bytes) {
    var i := DecodeWorld(v);
    i.Some? && i.value.port == WORLD_PORT && k == WorldKey(i.value.host)
  }

  /** Tokens, Login registrations and World registrations, and nothing else. */
  predicate Clean(s: Entries) {
    forall k :: k in s ==> IsToken(k) || LoginEntry(k, s[k].value) || WorldEntry(k, s[k].value)
  }

  /** The three kinds of key never meet. */
  lemma KeysApart(k: Bytes, host: Bytes)
    ensures IsToken(k) ==> !(LOGIN_PREFIX <= k) && !(WORLD_PREFIX <= k)
    ensures LOGIN_PREFIX <= LoginKey(host) && WORLD_PREFIX <= WorldKey(host)
    ensures !(LOGIN_PREFIX <= WorldKey(host)) && !(WORLD_PREFIX <= LoginKey(host))
  {
    assert LOGIN_PREFIX[0] == 'r' as int && WORLD_PREFIX[0] == 'r' as int;
    assert LOGIN_PREFIX[9] == 'l' as int && WORLD_PREFIX[9] == 'w' as int;
    if LOGIN_PREFIX <= k || WORLD_PREFIX <= k { assert k[0] == 'r' as int; }
    assert WorldKey(host)[9] == 'w' as int && LoginKey(host)[9] == 'l' as int;
  }

  /** In a clean store every listed Login entry decodes, so Master finds a Login exactly when one is live. */
  lemma PickLoginExact(s: Entries, at: Readings, entries: seq<StoreWire.Entry>)
    requires Clean(s) && Enumerates(entries, ListOf(s, LOGIN_PREFIX, at))
    ensures PickLogin(entries).None? <==> forall k :: k in s && LOGIN_PREFIX <= k ==> Expired(s[k], at(k))
    ensures PickLogin(entries).Some? ==>
              var i := PickLogin(entries).value;
              LoginKey(i.host) in s && s[LoginKey(i.host)].value == entries[0].value && i.port == LOGIN_PORT
  {
    hide DecodeLogin, DecodeWorld, IsToken, LoginKey, WorldKey;
    var listed := ListOf(s, LOGIN_PREFIX, at);
    if entries != [] {
      var k := entries[0].key;
      assert k in listed && s[k].value == entries[0].value;
      UnderLoginPrefix(s, k);
    } else {
      assert listed.Keys == Keys(entries) == {};
      assert forall k :: k in s && LOGIN_PREFIX <= k && !Expired(s[k], at(k)) ==> k in listed;
    }
  }

  lemma UnderLoginPrefix(s: Entries, k: Bytes)
    requires Clean(s) && k in s && LOGIN_PREFIX <= k
    ensures LoginEntry(k, s[k].value)
  {
    hide LoginKey, WorldKey, DecodeWorld, DecodeLogin;
    KeysApart(k, []);
    if WorldEntry(k, s[k].value) { KeysApart(k, DecodeWorld(s[k].value).value.host); }
  }
}
