/**
 Length-prefixed frames on a byte stream (include/net/framing.hpp and the
 reading and writing half of include/session.hpp). A socket is the sequence of
 bytes still to be read; reading n bytes either yields exactly n or fails.
 */
module Framing {
  import opened Numerals
  import opened ByteIo

  const HEADER_SIZE := 4

  /** Masks and shifts of the source, written as arithmetic on the unsigned word. */
  function ByteSwap32(v: U32): U32 {
    (v % 0x100) * 0x100_0000
    + (v / 0x100 % 0x100) * 0x1_0000
    + (v / 0x1_0000 % 0x100) * 0x100
    + v / 0x100_0000
  }

  function ToNetwork(host: ByteOrder, v: U32): U32 {
    if host == Little then ByteSwap32(v) else v
  }

  function FromNetwork(host: ByteOrder, v: U32): U32 { ToNetwork(host, v) }

  /** What `send` puts on the wire. */
  function Frame(host: ByteOrder, payload: Bytes): Bytes {
    Image(host, ToNetwork(host, Narrow32(|payload|)), 4) + payload
  }

  /** One `read_frame`: the payload and the rest of the stream, or failure. */
  function ReadFrame(host: ByteOrder, maxFrame: nat, stream: Bytes): Option<(Bytes, Bytes)> {
    if |stream| < HEADER_SIZE then None else
    var n := FromNetwork(host, Word32(host, stream[..HEADER_SIZE]));
    if n == 0 || n > maxFrame then None else
    ReadBytes(stream[HEADER_SIZE..], n)
  }

  /** All payloads delivered to the handler before the first failing read. */
  function ReadAll(host: ByteOrder, maxFrame: nat, stream: Bytes): seq<Bytes>
    decreases |stream|
  {
    match ReadFrame(host, maxFrame, stream)
    case None => []
    case Some((p, rest)) => [p] + ReadAll(host, maxFrame, rest)
  }

  function FrameAll(host: ByteOrder, payloads: seq<Bytes>): Bytes {
    if payloads == [] then [] else Frame(host, payloads[0]) + FrameAll(host, payloads[1..])
  }

  predicate Deliverable(maxFrame: nat, p: Bytes) { 1 <= |p| <= maxFrame }

  /** The payloads sent before the first one a reader refuses. */
  function GoodPrefix(maxFrame: nat, payloads: seq<Bytes>): seq<Bytes> {
    if payloads == [] || !Deliverable(maxFrame, payloads[0]) then []
    else [payloads[0]] + GoodPrefix(maxFrame, payloads[1..])
  }

  lemma FourDigits(v: U32)
    ensures BigEndian(v, 4) == [v / 0x100 / 0x100 / 0x100, v / 0x100 / 0x100 % 0x100, v / 0x100 % 0x100, v % 0x100]
  {
    var r0 := v / 0x100;
    var r1 := r0 / 0x100;
    assert BigEndian(r1 / 0x100, 1) == [r1 / 0x100];
    assert BigEndian(r1, 2) == [r1 / 0x100, r1 % 0x100];
    assert BigEndian(r0, 3) == [r1 / 0x100, r1 % 0x100, r0 % 0x100];
  }

  lemma WordOfDigits(b3: Byte, b2: Byte, b1: Byte, b0: Byte)
    ensures BigEndian(((b3 * 0x100 + b2) * 0x100 + b1) * 0x100 + b0, 4) == [b3, b2, b1, b0]
  {
    var t1 := b3 * 0x100 + b2;
    var t2 := t1 * 0x100 + b1;
    assert (t2 * 0x100 + b0) / 0x100 == t2 && t2 / 0x100 == t1 && t1 / 0x100 == b3;
    FourDigits(t2 * 0x100 + b0);
  }

  lemma Quotients(v: nat)
    ensures v / 0x1_0000 == v / 0x100 / 0x100 && v / 0x100_0000 == v / 0x100 / 0x100 / 0x100
  {
    var r0 := v / 0x100;
    var r1 := r0 / 0x100;
    var r2 := r1 / 0x100;
    var b0, b1, b2 := v - r0 * 0x100, r0 - r1 * 0x100, r1 - r2 * 0x100;
    assert v == r1 * 0x1_0000 + (b1 * 0x100 + b0) && 0 <= b1 * 0x100 + b0 < 0x1_0000;
    assert v == r2 * 0x100_0000 + (b2 * 0x1_0000 + b1 * 0x100 + b0) && 0 <= b2 * 0x1_0000 + b1 * 0x100 + b0 < 0x100_0000;
  }

  lemma SwapReversesDigits(v: U32)
    ensures BigEndian(ByteSwap32(v), 4) == Reverse(BigEndian(v, 4))
  {
    hide BigEndian;
    var r0 := v / 0x100;
    var r1 := r0 / 0x100;
    var b0, b1, b2, b3: Byte := v % 0x100, r0 % 0x100, r1 % 0x100, r1 / 0x100;
    Quotients(v);
    assert ByteSwap32(v) == ((b0 * 0x100 + b1) * 0x100 + b2) * 0x100 + b3;
    FourDigits(v);
    WordOfDigits(b0, b1, b2, b3);
  }

  /** The header is the big-endian length whatever the host, and swapping twice is the identity. */
  lemma HeaderIsBigEndian(host: ByteOrder, n: U32)
    ensures Image(host, ToNetwork(host, n), 4) == BigEndian(n, 4)
    ensures FromNetwork(host, Word32(host, BigEndian(n, 4))) == n
    ensures FromNetwork(host, ToNetwork(host, n)) == n
  {
    hide ByteSwap32;
    WordSizes();
    NumberRoundTrip(n, 4);
    if host == Little {
      var w := ByteSwap32(n);
      SwapReversesDigits(n);
      SwapReversesDigits(w);
      ReverseTwice(BigEndian(n, 4));
      NumberRoundTrip(w, 4);
      NumberRoundTrip(ByteSwap32(w), 4);
    }
  }

  /** One frame between hosts of any two byte orders: read back exactly when its size is admissible. */
  lemma FrameRoundTrip(sender: ByteOrder, reader: ByteOrder, maxFrame: nat, p: Bytes, rest: Bytes)
    requires |p| < 0x1_0000_0000
    ensures ReadFrame(reader, maxFrame, Frame(sender, p) + rest)
         == if Deliverable(maxFrame, p) then Some((p, rest)) else None
  {
    hide Image, Word32, ByteSwap32, BigEndian, ToNetwork;
    var n := Narrow32(|p|);
    HeaderIsBigEndian(sender, n);
    HeaderIsBigEndian(reader, n);
    var s := Frame(sender, p) + rest;
    assert s[..HEADER_SIZE] == BigEndian(n, 4);
    assert s[HEADER_SIZE..] == p + rest;
    BytesInverse(p, rest);
  }

  /** A whole conversation: the reader sees what was sent, up to the first inadmissible payload. */
  lemma {:induction false} StreamRoundTrip(sender: ByteOrder, reader: ByteOrder, maxFrame: nat, payloads: seq<Bytes>)
    requires forall i :: 0 <= i < |payloads| ==> |payloads[i]| < 0x1_0000_0000
    ensures ReadAll(reader, maxFrame, FrameAll(sender, payloads)) == GoodPrefix(maxFrame, payloads)
  {
    if payloads != [] {
      FrameRoundTrip(sender, reader, maxFrame, payloads[0], FrameAll(sender, payloads[1..]));
      StreamRoundTrip(sender, reader, maxFrame, payloads[1..]);
    }
  }

  lemma {:induction false} GoodPrefixOfGood(maxFrame: nat, payloads: seq<Bytes>)
    ensures GoodPrefix(maxFrame, payloads) == payloads
       <==> forall i :: 0 <= i < |payloads| ==> Deliverable(maxFrame, payloads[i])
  {
    if payloads != [] {
      var rest := payloads[1..];
      GoodPrefixOfGood(maxFrame, rest);
      if GoodPrefix(maxFrame, payloads) == payloads {
        assert GoodPrefix(maxFrame, rest) == rest;
        assert forall i :: 0 < i < |payloads| ==> payloads[i] == rest[i - 1];
      }
    }
  }

  /** A payload is read only from a stream that begins with its frame. */
  lemma ReadWasFramed(host: ByteOrder, maxFrame: nat, stream: Bytes)
    requires ReadFrame(host, maxFrame, stream).Some?
    ensures var (p, rest) := ReadFrame(host, maxFrame, stream).value; Deliverable(maxFrame, p) && stream == Frame(host, p) + rest
  {
    hide Image, Word, ByteSwap32, BigEndian, ToNetwork;
    var w := Word32(host, stream[..HEADER_SIZE]);
    ImageInverse(host, 0, stream[..HEADER_SIZE]);
    HeaderIsBigEndian(host, w);
    assert ToNetwork(host, FromNetwork(host, w)) == w;
  }

  /** Conversely, whatever bytes arrive, they begin with the frames of what was delivered. */
  lemma {:induction false} DeliveredWasFramed(host: ByteOrder, maxFrame: nat, stream: Bytes)
    ensures FrameAll(host, ReadAll(host, maxFrame, stream)) <= stream
    decreases |stream|
  {
    hide Frame;
    match ReadFrame(host, maxFrame, stream)
    case None =>
    case Some((p, rest)) =>
      DeliveredWasFramed(host, maxFrame, rest);
      ReadWasFramed(host, maxFrame, stream);
      assert ReadAll(host, maxFrame, stream)[1..] == ReadAll(host, maxFrame, rest);
  }

  /** The connection object: its socket, and the header and body buffers it overwrites for every frame. */
  class Connection {
    const host: ByteOrder
    const maxFrame: nat
    const header: array<Byte>
    const buffer: array<Byte>
    var incoming: Bytes
    var outgoing: Bytes
    var open: bool

    ghost predicate Valid()
      reads this
    {
      header.Length == HEADER_SIZE && buffer.Length == maxFrame && header != buffer
    }

    constructor (host: ByteOrder, maxFrame: nat, incoming: Bytes)
      ensures Valid() && fresh(header) && fresh(buffer)
      ensures this.host == host && this.maxFrame == maxFrame
      ensures this.incoming == incoming && outgoing == [] && open
    {
      this.host, this.maxFrame := host, maxFrame;
      header := new Byte[HEADER_SIZE];
      buffer := new Byte[maxFrame];
      this.incoming, outgoing, open := incoming, [], true;
    }

    method Send(payload: Bytes)
      modifies this`outgoing
      ensures outgoing == old(outgoing) + Frame(host, payload)
    {
      var beLen := ToNetwork(host, Narrow32(|payload|));
      outgoing := outgoing + Image(host, beLen, 4);
      outgoing := outgoing + payload;
    }

    /** `asio::async_read` into the front of a buffer: exactly n bytes or failure. */
    method ReadExactly(into: array<Byte>, n: nat) returns (ok: bool)
      requires n <= into.Length
      modifies this`incoming, into
      ensures ok == (n <= |old(incoming)|)
      ensures ok ==> into[..n] == old(incoming)[..n] && incoming == old(incoming)[n..]
      ensures !ok ==> incoming == []
    {
      ok := n <= |incoming|;
      var k := if ok then n else if |incoming| < n then |incoming| else n;
      forall i | 0 <= i < k {
        into[i] := incoming[i];
      }
      incoming := incoming[k..];
    }

    method NextFrame() returns (n: Option<nat>)
      requires Valid()
      modifies this`incoming, header, buffer
      ensures Valid()
      ensures n.Some? == ReadFrame(host, maxFrame, old(incoming)).Some?
      ensures n.Some? ==> n.value <= buffer.Length
      ensures n.Some? ==> ReadFrame(host, maxFrame, old(incoming)) == Some((buffer[..n.value], incoming))
    {
      var ok := ReadExactly(header, HEADER_SIZE);
      if !ok { return None; }
      assert header[..] == header[..HEADER_SIZE];
      var len := FromNetwork(host, Word32(host, header[..]));
      if len == 0 || len > maxFrame { return None; }
      ok := ReadExactly(buffer, len);
      if !ok { return None; }
      n := Some(len);
    }

    /** The loop of `run`: every frame goes to the handler until a read fails, then the socket is closed. */
    method Run() returns (delivered: seq<Bytes>)
      requires Valid()
      modifies this`incoming, this`open, header, buffer
      ensures Valid() && !open
      ensures delivered == ReadAll(host, maxFrame, old(incoming))
    {
      delivered := [];
      ghost var all := ReadAll(host, maxFrame, incoming);
      while true
        invariant Valid()
        invariant all == delivered + ReadAll(host, maxFrame, incoming)
        decreases |incoming|
      {
        var n := NextFrame();
        if n.None? { break; }
        delivered := delivered + [buffer[..n.value]];
      }
      open := false;
    }
  }
}
