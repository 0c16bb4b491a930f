/**
 Bounded binary serialisation (include/net/byte_io.hpp).

 The wire functions below say what a sequence of appends produces and what a
 sequence of reads consumes; the classes ByteWriter and ByteReader are the
 mutable objects of the source, each proved against those functions.
 Text is a byte sequence, as `std::string` is.
 */
module ByteIo {
  import opened Numerals

  /** The failure-compatible optional value (`std::optional`). */
  datatype Option<+T> = None | Some(value: T) {
    predicate IsFailure() { None? }
    function PropagateFailure<U>(): Option<U> requires None? { None }
    function Extract(): T requires Some? { value }
  }

  type U16 = x: int | 0 <= x < 0x1_0000
  type U32 = x: int | 0 <= x < 0x1_0000_0000

  datatype ByteOrder = Little | Big

  /** The byte order of the hosts. It is left open: integers are copied in host
      order, so everything proved here holds on either kind of machine. */
  const HOST_ORDER: ByteOrder

  /** `static_cast<std::uint16_t>` and `static_cast<std::uint32_t>` of a size. */
  function Narrow16(n: nat): U16 { n % 0x1_0000 }
  function Narrow32(n: nat): U32 { n % 0x1_0000_0000 }

  function Ascii(s: string): Bytes {
    seq(|s|, i requires 0 <= i < |s| => s[i] as int % 0x100)
  }

  // ---------------------------------------------------------------- encoders

  /** The memory image of a word of `size` bytes on a host of the given byte order, and back. */
  function Image(order: ByteOrder, v: nat, size: nat): (s: Bytes)
    ensures |s| == size
  {
    if order == Little then Reverse(BigEndian(v, size)) else BigEndian(v, size)
  }

  function Word(order: ByteOrder, s: Bytes): (v: nat)
    ensures v < Pow(0x100, |s|)
  {
    if order == Little then FromBigEndian(Reverse(s)) else FromBigEndian(s)
  }

  function Word16(order: ByteOrder, s: Bytes): U16
    requires |s| == 2
  {
    WordSizes(); Word(order, s)
  }

  function Word32(order: ByteOrder, s: Bytes): U32
    requires |s| == 4
  {
    WordSizes(); Word(order, s)
  }

  function EncU16(v: U16): Bytes { Image(HOST_ORDER, v, 2) }
  function EncU32(v: U32): Bytes { Image(HOST_ORDER, v, 4) }

  /** A byte string behind its 16-bit or 32-bit length; the length is narrowed. */
  function Field16(s: Bytes): Bytes { EncU16(Narrow16(|s|)) + s }
  function Field32(s: Bytes): Bytes { EncU32(Narrow32(|s|)) + s }

  // ---------------------------------------------------------------- readers

  function ReadU16(s: Bytes): Option<(U16, Bytes)> {
    if |s| < 2 then None else Some((Word16(HOST_ORDER, s[..2]), s[2..]))
  }

  function ReadU32(s: Bytes): Option<(U32, Bytes)> {
    if |s| < 4 then None else Some((Word32(HOST_ORDER, s[..4]), s[4..]))
  }

  function ReadBytes(s: Bytes, n: nat): Option<(Bytes, Bytes)> {
    if n > |s| then None else Some((s[..n], s[n..]))
  }

  function ReadField16(s: Bytes): Option<(Bytes, Bytes)> {
    var (n, r) :- ReadU16(s);
    ReadBytes(r, n)
  }

  function ReadField32(s: Bytes): Option<(Bytes, Bytes)> {
    var (n, r) :- ReadU32(s);
    ReadBytes(r, n)
  }

  // ---------------------------------------------------------------- inverses

  lemma ImageInverse(order: ByteOrder, v: nat, s: Bytes)
    ensures v < Pow(0x100, |s|) ==> Word(order, Image(order, v, |s|)) == v
    ensures Image(order, Word(order, s), |s|) == s
  {
    NumberRoundTrip(v, |s|);
    ReverseTwice(BigEndian(v, |s|));
    DigitsRoundTrip(s);
    DigitsRoundTrip(Reverse(s));
    ReverseTwice(s);
  }

  /** Reading undoes writing, and an accepted read shows what was written. */
  lemma U16Inverse(v: U16, s: Bytes)
    ensures ReadU16(EncU16(v) + s) == Some((v, s))
    ensures ReadU16(s).Some? ==> s == EncU16(ReadU16(s).value.0) + ReadU16(s).value.1
  {
    hide Image, Word;
    WordSizes();
    ImageInverse(HOST_ORDER, v, EncU16(v));
    assert (EncU16(v) + s)[..2] == EncU16(v) && (EncU16(v) + s)[2..] == s;
    if |s| >= 2 {
      ImageInverse(HOST_ORDER, 0, s[..2]);
    }
  }

  lemma U32Inverse(v: U32, s: Bytes)
    ensures ReadU32(EncU32(v) + s) == Some((v, s))
    ensures ReadU32(s).Some? ==> s == EncU32(ReadU32(s).value.0) + ReadU32(s).value.1
  {
    hide Image, Word;
    WordSizes();
    ImageInverse(HOST_ORDER, v, EncU32(v));
    assert (EncU32(v) + s)[..4] == EncU32(v) && (EncU32(v) + s)[4..] == s;
    if |s| >= 4 {
      ImageInverse(HOST_ORDER, 0, s[..4]);
    }
  }

  lemma BytesInverse(a: Bytes, s: Bytes)
    ensures ReadBytes(a + s, |a|) == Some((a, s))
  {}

  lemma Assoc(a: Bytes, b: Bytes, c: Bytes)
    ensures a + (b + c) == (a + b) + c
  {}

  /** A length-prefixed string survives exactly when its length fits the prefix. */
  lemma Field16RoundTrip(a: Bytes, s: Bytes)
    ensures ReadField16(Field16(a) + s) == Some((a, s)) <==> |a| < 0x1_0000
  {
    hide ReadU16, EncU16;
    var n := Narrow16(|a|);
    assert Field16(a) + s == EncU16(n) + (a + s);
    U16Inverse(n, a + s);
    if |a| < 0x1_0000 {
      BytesInverse(a, s);
    }
  }

  lemma Field32RoundTrip(a: Bytes, s: Bytes)
    ensures ReadField32(Field32(a) + s) == Some((a, s)) <==> |a| < 0x1_0000_0000
  {
    hide ReadU32, EncU32;
    var n := Narrow32(|a|);
    assert Field32(a) + s == EncU32(n) + (a + s);
    U32Inverse(n, a + s);
    if |a| < 0x1_0000_0000 {
      BytesInverse(a, s);
    }
  }

  lemma Field16Prefix(s: Bytes)
    requires ReadField16(s).Some?
    ensures var (a, r) := ReadField16(s).value; |a| < 0x1_0000 && s == Field16(a) + r
  {
    hide ReadU16, EncU16;
    U16Inverse(0, s);
    var (n, t) := ReadU16(s).value;
    var (a, r) := ReadField16(s).value;
    assert t == a + r && Narrow16(|a|) == n;
  }

  lemma Field32Prefix(s: Bytes)
    requires ReadField32(s).Some?
    ensures var (a, r) := ReadField32(s).value; |a| < 0x1_0000_0000 && s == Field32(a) + r
  {
    hide ReadU32, EncU32;
    U32Inverse(0, s);
    var (n, t) := ReadU32(s).value;
    var (a, r) := ReadField32(s).value;
    assert t == a + r && Narrow32(|a|) == n;
  }

  // ---------------------------------------------------------------- objects

  class ByteWriter {
    var buf: Bytes

    constructor ()
      ensures buf == []
    {
      buf := [];
    }

    method PutU16(v: U16)
      modifies this
      ensures buf == old(buf) + EncU16(v)
    {
      buf := buf + Image(HOST_ORDER, v, 2);
    }

    method PutU32(v: U32)
      modifies this
      ensures buf == old(buf) + EncU32(v)
    {
      buf := buf + Image(HOST_ORDER, v, 4);
    }

    method PutBytes(b: Bytes)
      modifies this
      ensures buf == old(buf) + b
    {
      buf := buf + b;
    }

    /** The recurring pair "narrowed 16-bit length, then the bytes". */
    method PutField16(b: Bytes)
      modifies this
      ensures buf == old(buf) + Field16(b)
    {
      PutU16(Narrow16(|b|));
      PutBytes(b);
    }

    method PutField32(b: Bytes)
      modifies this
      ensures buf == old(buf) + Field32(b)
    {
      PutU32(Narrow32(|b|));
      PutBytes(b);
    }
  }

  /** What a read step leaves behind: on success the rest, on failure nothing moved
      except a length prefix that had already been consumed. */
  class ByteReader {
    var data: Bytes

    constructor (s: Bytes)
      ensures data == s
    {
      data := s;
    }

    method GetU16() returns (v: Option<U16>)
      modifies this
      ensures v.Some? == ReadU16(old(data)).Some?
      ensures v.Some? ==> ReadU16(old(data)) == Some((v.value, data))
      ensures v.None? ==> data == old(data)
    {
      if |data| < 2 { return None; }
      v := Some(Word16(HOST_ORDER, data[..2]));
      data := data[2..];
    }

    method GetU32() returns (v: Option<U32>)
      modifies this
      ensures v.Some? == ReadU32(old(data)).Some?
      ensures v.Some? ==> ReadU32(old(data)) == Some((v.value, data))
      ensures v.None? ==> data == old(data)
    {
      if |data| < 4 { return None; }
      v := Some(Word32(HOST_ORDER, data[..4]));
      data := data[4..];
    }

    method GetBytes(n: nat) returns (v: Option<Bytes>)
      modifies this
      ensures v.Some? == (n <= |old(data)|)
      ensures v.Some? ==> ReadBytes(old(data), n) == Some((v.value, data))
      ensures v.None? ==> data == old(data)
    {
      if n > |data| { return None; }
      v := Some(data[..n]);
      data := data[n..];
    }

    /** The recurring pair "read a 16-bit length, then that many bytes". */
    method GetField16() returns (v: Option<Bytes>)
      modifies this
      ensures v.Some? == ReadField16(old(data)).Some?
      ensures v.Some? ==> ReadField16(old(data)) == Some((v.value, data))
    {
      var n := GetU16();
      if n.None? { return None; }
      v := GetBytes(n.value);
    }

    method GetField32() returns (v: Option<Bytes>)
      modifies this
      ensures v.Some? == ReadField32(old(data)).Some?
      ensures v.Some? ==> ReadField32(old(data)) == Some((v.value, data))
    {
      var n := GetU32();
      if n.None? { return None; }
      v := GetBytes(n.value);
    }
  }
}
