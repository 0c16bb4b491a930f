/**
 The store over the network: StoreHandler on Master's side
 (include/store/store_handler.hpp) and StoreClient on Login's and World's
 (include/store/store_client.hpp). A call is one connection: frame the request,
 read it on the server under the 4096-byte cap of the Internal role
 (include/server_role.hpp), dispatch it onto the store, frame the reply, read it on
 the client under its 1 MiB cap, decode. Faults are an argument of the call.
 */
module StoreRpc {
  import opened Numerals
  import opened ByteIo
  import opened Framing
  import opened StoreWire
  import opened SharedStore

  const SERVER_FRAME := 4096
  const CLIENT_FRAME := 0x10_0000

  /** What a request frame leaves for a key and its value. */
  const ROOM := SERVER_FRAME - 44

  /** What happens to a call: nothing arrives, or the reply gets lost, or all goes well. */
  datatype Net = Delivered | RequestLost | ReplyLost

  /** The pairs a listing of each prefix returns, in the order the table is walked. */
  type Listing = Bytes -> seq<StoreWire.Entry>

  /** The circumstances of one call: the clock when it ends, the walk of the table, when that walk examines each
      entry, and the network. */
  datatype Moment = Moment(now: Time, listing: Listing, at: Readings, net: Net)

  /** A listing walks exactly what is live in this store when it is examined. */
  ghost predicate Walks(s: Entries, listing: Listing, at: Readings) {
    forall p :: Enumerates(listing(p), ListOf(s, p, at))
  }

  /** The circumstances are those of this store under this network, from the instant `first` on. */
  ghost predicate Genuine(c: Moment, s: Entries, first: Time, net: Net) {
    c.net == net && first <= c.now && Within(c.at, first, c.now) && Walks(s, c.listing, c.at)
  }

  /** Some order of the pairs of a map. */
  ghost function Order(m: map<Bytes, Bytes>): (es: seq<StoreWire.Entry>)
    ensures Enumerates(es, m)
    decreases m.Keys
  {
    if m == map[] then []
    else
      var k :| k in m;
      var rest := m - {k};
      var es := Order(rest);
      assert m == rest[k := m[k]];
      EnumeratesAppend(es, rest, StoreWire.Entry(k, m[k]));
      es + [StoreWire.Entry(k, m[k])]
  }

  ghost function OrderAll(s: Entries, at: Readings): (l: Listing)
    ensures Walks(s, l, at)
  {
    p => Order(ListOf(s, p, at))
  }

  /** The walk that returned this list for this prefix. */
  ghost function WalkOf(s: Entries, prefix: Bytes, es: seq<StoreWire.Entry>, at: Readings): (l: Listing)
    requires Enumerates(es, ListOf(s, prefix, at))
    ensures Walks(s, l, at) && l(prefix) == es
  {
    p => if p == prefix then es else Order(ListOf(s, p, at))
  }

  /** The circumstances of a call at one instant. */
  ghost function Instant(s: Entries, now: Time, net: Net): (c: Moment)
    ensures Genuine(c, s, now, net) && c.now == now
  {
    Moment(now, OrderAll(s, _ => now), _ => now, net)
  }

  /** StoreHandler::on_message: the new store and the reply, if any. */
  function Serve(mac: Mac, s: Entries, payload: Bytes, now: Time, listing: Listing): (Entries, Option<Bytes>) {
    match Decode(mac, payload)
    case Some(Put(k, v, ttl)) => (PutIn(s, k, v, ttl, now), Some(Encode(mac, Ok)))
    case Some(Get(k)) => (s, Some(Encode(mac, FoundReply(s, k, now))))
    case Some(Take(k)) => (TakeFrom(s, k, now), Some(Encode(mac, FoundReply(s, k, now))))
    case Some(ListPrefix(p)) => (s, Some(Encode(mac, StoreWire.List(listing(p)))))
    case _ => (s, None)
  }

  function FoundReply(s: Entries, key: Bytes, now: Time): Msg {
    var v := Lookup(s, key, now);
    if v.Some? then Value(v.value) else NotFound
  }

  /** The server's side of a connection: read one frame, dispatch it, frame the reply. */
  function ServeWire(mac: Mac, s: Entries, wire: Bytes, now: Time, listing: Listing): (Entries, Option<Bytes>) {
    match ReadFrame(HOST_ORDER, SERVER_FRAME, wire)
    case None => (s, None)
    case Some((payload, _)) =>
      var (s', reply) := Serve(mac, s, payload, now, listing);
      (s', if reply.None? then None else Some(Frame(HOST_ORDER, reply.value)))
  }

  /** StoreClient::roundtrip. */
  function Call(mac: Mac, s: Entries, request: Bytes, c: Moment): (Entries, Option<Msg>) {
    if c.net == RequestLost then (s, None) else
    var (s', reply) := ServeWire(mac, s, Frame(HOST_ORDER, request), c.now, c.listing);
    (s', if reply.None? || c.net == ReplyLost then None else Receive(mac, reply.value))
  }

  function Receive(mac: Mac, wire: Bytes): Option<Msg> {
    var (body, _) :- ReadFrame(HOST_ORDER, CLIENT_FRAME, wire);
    Decode(mac, body)
  }

  function RemotePut(mac: Mac, s: Entries, key: Bytes, value: Bytes, ttl: nat, c: Moment): (Entries, bool) {
    var (s', r) := Call(mac, s, Encode(mac, Put(key, value, Narrow32(ttl))), c);
    (s', r == Some(Ok))
  }

  function ValueOf(r: Option<Msg>): Option<Bytes> {
    if r.Some? && r.value.Value? then Some(r.value.value) else None
  }

  function RemoteGet(mac: Mac, s: Entries, key: Bytes, c: Moment): (Entries, Option<Bytes>) {
    var (s', r) := Call(mac, s, Encode(mac, Get(key)), c);
    (s', ValueOf(r))
  }

  function RemoteTake(mac: Mac, s: Entries, key: Bytes, c: Moment): (Entries, Option<Bytes>) {
    var (s', r) := Call(mac, s, Encode(mac, Take(key)), c);
    (s', ValueOf(r))
  }

  function RemoteList(mac: Mac, s: Entries, prefix: Bytes, c: Moment): (Entries, seq<StoreWire.Entry>) {
    var (s', r) := Call(mac, s, Encode(mac, ListPrefix(prefix)), c);
    (s', if r.Some? && r.value.List? then r.value.entries else [])
  }

  // ---------------------------------------------------------------- sizes

  function ListSize(es: seq<StoreWire.Entry>): nat {
    if es == [] then 0 else 6 + |es[0].key| + |es[0].value| + ListSize(es[1..])
  }

  lemma {:induction false} EntriesSize(es: seq<StoreWire.Entry>)
    ensures |EntriesBytes(es)| == ListSize(es)
  {
    if es != [] { EntriesSize(es[1..]); }
  }

  lemma EncodedSize(mac: Mac, m: Msg)
    ensures m.Put? ==> |Encode(mac, m)| == 44 + |m.key| + |m.value|
    ensures KeyRequest(m) ==> |Encode(mac, m)| == 44 + |m.key|
    ensures m.Value? ==> |Encode(mac, m)| == 38 + |m.value|
    ensures m.Ok? || m.NotFound? ==> |Encode(mac, m)| == 34
    ensures m.List? ==> |Encode(mac, m)| == 38 + ListSize(m.entries)
  {
    hide Image;
    if m.List? { EntriesSize(m.entries); }
  }

  // ---------------------------------------------------------------- one call

  /** A request that fits reaches the dispatcher intact; a larger one is refused unread. */
  lemma RequestArrives(mac: Mac, m: Msg)
    requires |Encode(mac, m)| < 0x1_0000_0000
    ensures ReadFrame(HOST_ORDER, SERVER_FRAME, Frame(HOST_ORDER, Encode(mac, m)))
         == if 1 <= |Encode(mac, m)| <= SERVER_FRAME then Some((Encode(mac, m), [])) else None
  {
    var p := Encode(mac, m);
    FrameRoundTrip(HOST_ORDER, HOST_ORDER, SERVER_FRAME, p, []);
    assert Frame(HOST_ORDER, p) + [] == Frame(HOST_ORDER, p);
  }

  lemma ReplyArrives(mac: Mac, m: Msg)
    requires Fits(m) && |Encode(mac, m)| < 0x1_0000_0000
    ensures Receive(mac, Frame(HOST_ORDER, Encode(mac, m)))
         == if 1 <= |Encode(mac, m)| <= CLIENT_FRAME then Some(m) else None
  {
    hide Decode, Encode, ReadFrame, Frame, Fits;
    var p := Encode(mac, m);
    FrameRoundTrip(HOST_ORDER, HOST_ORDER, CLIENT_FRAME, p, []);
    assert Frame(HOST_ORDER, p) + [] == Frame(HOST_ORDER, p);
    RoundTrip(mac, m);
  }

  /** A list over the decoder's cap is refused. */
  lemma LongListRefused(mac: Mac, es: seq<StoreWire.Entry>)
    requires MAX_ENTRIES < |es| < 0x1_0000_0000
    ensures Decode(mac, Encode(mac, StoreWire.List(es))).None?
  {
    hide ReadU16, ReadU32, EncU16, EncU32, ReadEntries, EntriesBytes;
    var m := StoreWire.List(es);
    var body := Body(m);
    assert Encode(mac, m)[..|body|] == body;
    assert body == EncU16(104) + (EncU32(|es|) + EntriesBytes(es));
    U16Inverse(104, EncU32(|es|) + EntriesBytes(es));
    U32Inverse(|es|, EntriesBytes(es));
  }

  // ---------------------------------------------------------------- who can act on the store

  /** The payload ends with the tag of what stands before it. */
  predicate Sealed(mac: Mac, payload: Bytes) {
    |payload| >= 34 && payload[|payload| - 32..] == mac(payload[..|payload| - 32])
  }

  /** The payload is sealed under the secret and begins with this message. */
  ghost predicate Carries(mac: Mac, payload: Bytes, m: Msg) {
    exists body :: payload == Seal(mac, body) && Fits(m) && Core(m) <= body
  }

  lemma UnsealedIsRefused(mac: Mac, payload: Bytes)
    ensures !Sealed(mac, payload) ==> Decode(mac, payload).None?
  {
    hide DecodeBody;
  }

  /** Without a valid tag nothing happens: the store stays, and no reply is sent. */
  lemma UnsealedIsIgnored(mac: Mac, s: Entries, payload: Bytes, now: Time, listing: Listing)
    ensures !Sealed(mac, payload) ==> Serve(mac, s, payload, now, listing) == (s, None)
  {
    hide Decode;
    UnsealedIsRefused(mac, payload);
  }

  /** The store changes only by a sealed Put or Take that fits, and a reply is sent only to one of the four requests. */
  lemma OnlyRequestsAct(mac: Mac, s: Entries, payload: Bytes, now: Time, listing: Listing)
    ensures var (s', reply) := Serve(mac, s, payload, now, listing);
            && (s' != s ==> exists m: Msg :: (m.Put? || m.Take?) && Carries(mac, payload, m))
            && (reply.Some? <==> exists m: Msg :: (m.Put? || KeyRequest(m)) && Carries(mac, payload, m))
  {
    hide Decode, Encode, Seal, Core, Fits, PutIn, TakeFrom;
    var d := Decode(mac, payload);
    if d.Some? { DecodeExact(mac, payload, d.value); }
    if m: Msg :| (m.Put? || KeyRequest(m)) && Carries(mac, payload, m) { DecodeExact(mac, payload, m); }
  }

  /** And what the four requests do: a put replaces the entry under its key, a take removes a live one, no other entry is
      touched; the reply to a read is the live value, or says that there is none. */
  lemma RequestsActExactly(mac: Mac, s: Entries, payload: Bytes, m: Msg, now: Time, listing: Listing)
    requires Carries(mac, payload, m)
    ensures var (s', reply) := Serve(mac, s, payload, now, listing);
            var live := (m.Get? || m.Take?) && m.key in s && now < s[m.key].expires;
            && s' == (if m.Put? then s[m.key := Stored(m.value, now + m.ttl * 1_000_000_000)]
                      else if m.Take? && live then s - {m.key} else s)
            && (m.Put? ==> reply == Some(Encode(mac, Ok)))
            && (m.Get? || m.Take? ==> reply == Some(Encode(mac, if live then Value(s[m.key].value) else NotFound)))
            && (m.ListPrefix? ==> reply == Some(Encode(mac, StoreWire.List(listing(m.key)))))
            && (!m.Put? && !KeyRequest(m) ==> reply == None)
  {
    hide Decode, Encode, Seal, Core, Fits;
    DecodeExact(mac, payload, m);
  }

  /** The same for whatever bytes arrive on a connection. */
  ghost predicate Authentic(mac: Mac, wire: Bytes) {
    exists payload: Bytes, rest: Bytes, m: Msg ::
      && wire == Frame(HOST_ORDER, payload) + rest && 1 <= |payload| <= SERVER_FRAME
      && (m.Put? || m.Take?) && Carries(mac, payload, m)
  }

  lemma OnlyAuthenticWires(mac: Mac, s: Entries, wire: Bytes, now: Time, listing: Listing)
    ensures ServeWire(mac, s, wire, now, listing).0 != s ==> Authentic(mac, wire)
    ensures forall payload, rest :: wire == Frame(HOST_ORDER, payload) + rest && |payload| < 0x1_0000_0000 && !Sealed(mac, payload)
              ==> ServeWire(mac, s, wire, now, listing) == (s, None)
  {
    hide Serve, Frame, ReadFrame, Carries, Sealed;
    var f := ReadFrame(HOST_ORDER, SERVER_FRAME, wire);
    if f.Some? {
      ReadWasFramed(HOST_ORDER, SERVER_FRAME, wire);
      OnlyRequestsAct(mac, s, f.value.0, now, listing);
    }
    forall payload, rest | wire == Frame(HOST_ORDER, payload) + rest && |payload| < 0x1_0000_0000 && !Sealed(mac, payload)
      ensures ServeWire(mac, s, wire, now, listing) == (s, None)
    {
      FrameRoundTrip(HOST_ORDER, HOST_ORDER, SERVER_FRAME, payload, rest);
      UnsealedIsIgnored(mac, s, payload, now, listing);
    }
  }

  // ---------------------------------------------------------------- remote refines local

  /** Every entry could have come through one request frame. Nothing larger can get in by the network. */
  predicate FitStore(s: Entries) {
    forall k :: k in s ==> |k| + |s[k].value| <= ROOM
  }

  predicate PutArrives(key: Bytes, value: Bytes, c: Moment) {
    c.net != RequestLost && |key| + |value| <= ROOM
  }

  function LocalPut(s: Entries, key: Bytes, value: Bytes, ttl: nat, c: Moment): (Entries, bool) {
    (if PutArrives(key, value, c) then PutIn(s, key, value, Narrow32(ttl), c.now) else s,
     PutArrives(key, value, c) && c.net == Delivered)
  }

  function LocalTake(s: Entries, key: Bytes, c: Moment): (Entries, Option<Bytes>) {
    (if c.net == RequestLost then s else TakeFrom(s, key, c.now), if c.net == Delivered then Lookup(s, key, c.now) else None)
  }

  /** Put: exactly the local put when it fits and arrives, nothing otherwise; `true` is never a false promise. */
  lemma RemotePutIsLocal(mac: Mac, s: Entries, key: Bytes, value: Bytes, ttl: nat, c: Moment)
    requires 44 + |key| + |value| < 0x1_0000_0000
    ensures RemotePut(mac, s, key, value, ttl, c) == LocalPut(s, key, value, ttl, c)
  {
    hide Decode, Encode, ReadFrame, Frame, Receive;
    var m := Put(key, value, Narrow32(ttl));
    EncodedSize(mac, m);
    EncodedSize(mac, Ok);
    RequestArrives(mac, m);
    RoundTrip(mac, m);
    ReplyArrives(mac, Ok);
  }

  lemma NotStored(s: Entries, key: Bytes, now: Time)
    requires FitStore(s) && |key| > ROOM
    ensures Lookup(s, key, now).None? && TakeFrom(s, key, now) == s
  {}

  lemma FoundReplyArrives(mac: Mac, s: Entries, key: Bytes, now: Time)
    requires FitStore(s)
    ensures ValueOf(Receive(mac, Frame(HOST_ORDER, Encode(mac, FoundReply(s, key, now))))) == Lookup(s, key, now)
  {
    hide Decode, Encode, ReadFrame, Frame, Receive;
    var m := FoundReply(s, key, now);
    assert m.Value? ==> |m.value| <= ROOM;
    EncodedSize(mac, m);
    ReplyArrives(mac, m);
  }

  /** Get and take of any key, however long: the answer and the store of the local call, unless the network fails. */
  lemma RemoteGetIsLocal(mac: Mac, s: Entries, key: Bytes, c: Moment)
    requires FitStore(s) && 44 + |key| < 0x1_0000_0000
    ensures RemoteGet(mac, s, key, c) == (s, if c.net == Delivered then Lookup(s, key, c.now) else None)
  {
    hide Decode, Encode, ReadFrame, Frame, Receive, FoundReply;
    EncodedSize(mac, Get(key));
    RequestArrives(mac, Get(key));
    RoundTrip(mac, Get(key));
    FoundReplyArrives(mac, s, key, c.now);
    if |key| > ROOM { NotStored(s, key, c.now); }
  }

  lemma RemoteTakeIsLocal(mac: Mac, s: Entries, key: Bytes, c: Moment)
    requires FitStore(s) && 44 + |key| < 0x1_0000_0000
    ensures RemoteTake(mac, s, key, c) == LocalTake(s, key, c)
  {
    hide Decode, Encode, ReadFrame, Frame, Receive, FoundReply;
    EncodedSize(mac, Take(key));
    RequestArrives(mac, Take(key));
    RoundTrip(mac, Take(key));
    FoundReplyArrives(mac, s, key, c.now);
    if |key| > ROOM { NotStored(s, key, c.now); }
  }

  /** A listing reply that the client can take: at most 100000 entries in at most 1 MiB. */
  predicate Listable(es: seq<StoreWire.Entry>) {
    |es| <= MAX_ENTRIES && 38 + ListSize(es) <= CLIENT_FRAME
  }

  lemma {:induction false} LongerThanCount(es: seq<StoreWire.Entry>)
    ensures |es| <= ListSize(es)
  {
    if es != [] { LongerThanCount(es[1..]); }
  }

  /** List: the local listing exactly when it is listable and nothing was lost, and an empty answer otherwise. */
  lemma RemoteListIsLocal(mac: Mac, s: Entries, prefix: Bytes, c: Moment)
    requires FitStore(s) && 44 + |prefix| < 0x1_0000_0000
    requires Enumerates(c.listing(prefix), ListOf(s, prefix, c.at))
    requires 38 + ListSize(c.listing(prefix)) < 0x1_0000_0000
    ensures RemoteList(mac, s, prefix, c)
         == (s, if c.net == Delivered && Listable(c.listing(prefix)) then c.listing(prefix) else [])
  {
    hide Decode, Encode, ReadFrame, Frame, ListSize;
    var es := c.listing(prefix);
    var reply := StoreWire.List(es);
    EncodedSize(mac, ListPrefix(prefix));
    EncodedSize(mac, reply);
    RequestArrives(mac, ListPrefix(prefix));
    RoundTrip(mac, ListPrefix(prefix));
    LongerThanCount(es);
    forall e | e in es ensures EntryFits(e) && prefix <= e.key && |e.key| <= ROOM {
      assert exists i :: 0 <= i < |es| && es[i] == e;
    }
    assert es == [] || es[0] in es;
    assert |prefix| <= ROOM || es == [];
    if |es| <= MAX_ENTRIES {
      ReplyArrives(mac, reply);
    } else {
      LongListRefused(mac, es);
      FrameRoundTrip(HOST_ORDER, HOST_ORDER, CLIENT_FRAME, Encode(mac, reply), []);
      assert Frame(HOST_ORDER, Encode(mac, reply)) + [] == Frame(HOST_ORDER, Encode(mac, reply));
    }
  }

  /** Listing the store over the network never changes it. */
  lemma ListKeepsStore(mac: Mac, s: Entries, prefix: Bytes, c: Moment)
    requires 44 + |prefix| < 0x1_0000_0000
    ensures RemoteList(mac, s, prefix, c).0 == s
  {
    hide Decode, Encode, ReadFrame, Frame, Receive;
    var m := ListPrefix(prefix);
    EncodedSize(mac, m);
    RequestArrives(mac, m);
    RoundTrip(mac, m);
  }

  /** What a delivered listing answers is what the store lists at that moment. */
  lemma ListedIsLocal(mac: Mac, s: Entries, prefix: Bytes, c: Moment, first: Time)
    requires Genuine(c, s, first, c.net)
    ensures 44 + |prefix| < 0x1_0000_0000 ==>
              var (s', out) := RemoteList(mac, s, prefix, c);
              && s' == s
              && (FitStore(s) && c.net == Delivered && Listable(c.listing(prefix)) ==> Enumerates(out, ListOf(s, prefix, c.at)))
  {
    hide RemoteList, FitStore, Enumerates, ListOf;
    if 44 + |prefix| < 0x1_0000_0000 {
      ListKeepsStore(mac, s, prefix, c);
      if FitStore(s) && Listable(c.listing(prefix)) { RemoteListIsLocal(mac, s, prefix, c); }
    }
  }

  // ---------------------------------------------------------------- the code

  class StoreHandler {
    const store: Store
    const mac: Mac

    constructor (store: Store, mac: Mac)
      ensures this.store == store && this.mac == mac
    {
      this.store, this.mac := store, mac;
    }

    method OnMessage(clock: Clock, payload: Bytes) returns (reply: Option<Bytes>, ghost listing: Listing, ghost at: Readings)
      requires clock as object != store
      modifies store, clock
      ensures (store.entries, reply) == Serve(mac, old(store.entries), payload, clock.now, listing)
      ensures old(clock.now) <= clock.now && Within(at, old(clock.now), clock.now) && Walks(old(store.entries), listing, at)
      ensures !Sealed(mac, payload) ==> store.entries == old(store.entries) && reply == None
    {
      UnsealedIsRefused(mac, payload);
      hide Sealed, Decode, Encode, Enumerates, ListOf, Lookup, TakeFrom, Walks;
      reply := None;
      var decoded := DecodeAndVerify(mac, payload);
      match decoded {
        case Some(Put(k, v, ttl)) =>
          store.Put(clock, k, v, ttl);
          var msg := EncodeBare(mac, 100);
          reply := Some(msg);
        case Some(Get(k)) =>
          var v := store.Get(clock, k);
          var msg := EncodeFound(v);
          reply := Some(msg);
        case Some(Take(k)) =>
          var v := store.Take(clock, k);
          var msg := EncodeFound(v);
          reply := Some(msg);
        case Some(ListPrefix(p)) =>
          var entries, readings := store.ListPrefix(clock, p);
          var msg := EncodeList(mac, entries);
          reply := Some(msg);
          listing, at := WalkOf(store.entries, p, entries, readings), readings;
          return;
        case _ =>
      }
      ghost var last := clock.now;
      at := _ => last;
      listing := OrderAll(old(store.entries), at);
    }

    method EncodeFound(v: Option<Bytes>) returns (msg: Bytes)
      ensures msg == Encode(mac, if v.Some? then Value(v.value) else NotFound)
    {
      if v.Some? { msg := EncodeValue(mac, v.value); } else { msg := EncodeBare(mac, 102); }
    }

    method Accept(clock: Clock, wire: Bytes) returns (out: Option<Bytes>, ghost listing: Listing, ghost at: Readings)
      requires clock as object != store
      modifies store, clock
      ensures (store.entries, out) == ServeWire(mac, old(store.entries), wire, clock.now, listing)
      ensures old(clock.now) <= clock.now && Within(at, old(clock.now), clock.now) && Walks(old(store.entries), listing, at)
      ensures store.entries != old(store.entries) ==> Authentic(mac, wire)
    {
      hide Decode, ReadFrame, Frame, Serve, Walks, Authentic;
      out := None;
      ghost var first := clock.now;
      at := _ => first;
      listing := OrderAll(store.entries, at);
      var session := new Connection(HOST_ORDER, SERVER_FRAME, wire);
      var n := session.NextFrame();
      if n.None? { return; }
      var payload := session.buffer[..n.value];
      var reply;
      reply, listing, at := OnMessage(clock, payload);
      OnlyAuthenticWires(mac, old(store.entries), wire, clock.now, listing);
      if reply.None? { return; }
      session.Send(reply.value);
      out := Some(session.outgoing);
      assert session.outgoing == Frame(HOST_ORDER, reply.value);
    }
  }

  class StoreClient {
    const server: StoreHandler
    const mac: Mac

    constructor (server: StoreHandler)
      ensures this.server == server && mac == server.mac
    {
      this.server, mac := server, server.mac;
    }

    /** Connect, send the framed request, read the framed reply, close. */
    method RoundTrip(clock: Clock, request: Bytes, net: Net) returns (r: Option<Msg>, ghost c: Moment)
      requires mac == server.mac && clock as object != server.store
      modifies server.store, clock
      ensures Genuine(c, old(server.store.entries), old(clock.now), net) && c.now == clock.now
      ensures (server.store.entries, r) == Call(mac, old(server.store.entries), request, c)
    {
      hide Decode, ReadFrame, Frame, ServeWire, Walks;
      if net == RequestLost { return None, Instant(server.store.entries, clock.now, net); }
      var socket := new Connection(HOST_ORDER, CLIENT_FRAME, []);
      socket.Send(request);
      assert socket.outgoing == Frame(HOST_ORDER, request);
      ghost var listing, at;
      var reply;
      reply, listing, at := server.Accept(clock, socket.outgoing);
      c := Moment(clock.now, listing, at, net);
      if reply.None? || net == ReplyLost { return None, c; }
      socket.incoming := reply.value;
      var n := socket.NextFrame();
      if n.None? { return None, c; }
      r := DecodeAndVerify(mac, socket.buffer[..n.value]);
    }

    method Put(clock: Clock, key: Bytes, value: Bytes, ttl: nat, net: Net) returns (ok: bool, ghost c: Moment)
      requires mac == server.mac && clock as object != server.store
      modifies server.store, clock
      ensures Genuine(c, old(server.store.entries), old(clock.now), net) && c.now == clock.now
      ensures (server.store.entries, ok) == RemotePut(mac, old(server.store.entries), key, value, ttl, c)
    {
      hide Encode, Call;
      var req := EncodePut(mac, key, value, Narrow32(ttl));
      var resp;
      resp, c := RoundTrip(clock, req, net);
      ok := resp.Some? && resp.value.Ok?;
    }

    method Get(clock: Clock, key: Bytes, net: Net) returns (v: Option<Bytes>, ghost c: Moment)
      requires mac == server.mac && clock as object != server.store
      modifies server.store, clock
      ensures Genuine(c, old(server.store.entries), old(clock.now), net) && c.now == clock.now
      ensures (server.store.entries, v) == RemoteGet(mac, old(server.store.entries), key, c)
    {
      hide Encode, Call;
      var req := EncodeGetOrTake(2, mac, key);
      var resp;
      resp, c := RoundTrip(clock, req, net);
      v := if resp.None? || !resp.value.Value? then None else Some(resp.value.value);
    }

    method Take(clock: Clock, key: Bytes, net: Net) returns (v: Option<Bytes>, ghost c: Moment)
      requires mac == server.mac && clock as object != server.store
      modifies server.store, clock
      ensures Genuine(c, old(server.store.entries), old(clock.now), net) && c.now == clock.now
      ensures (server.store.entries, v) == RemoteTake(mac, old(server.store.entries), key, c)
    {
      hide Encode, Call;
      var req := EncodeGetOrTake(3, mac, key);
      var resp;
      resp, c := RoundTrip(clock, req, net);
      v := if resp.None? || !resp.value.Value? then None else Some(resp.value.value);
    }

    method ListPrefix(clock: Clock, prefix: Bytes, net: Net) returns (out: seq<StoreWire.Entry>, ghost c: Moment)
      requires mac == server.mac && clock as object != server.store
      modifies server.store, clock
      ensures Genuine(c, old(server.store.entries), old(clock.now), net) && c.now == clock.now
      ensures (server.store.entries, out) == RemoteList(mac, old(server.store.entries), prefix, c)
      ensures 44 + |prefix| < 0x1_0000_0000 ==> server.store.entries == old(server.store.entries)
      ensures FitStore(server.store.entries) && 44 + |prefix| < 0x1_0000_0000 && net == Delivered && Listable(c.listing(prefix))
          ==> Enumerates(out, ListOf(server.store.entries, prefix, c.at))
    {
      hide Encode, Call, Walks, Enumerates, Listable, FitStore;
      var req := EncodeListPrefix(mac, prefix);
      var resp;
      resp, c := RoundTrip(clock, req, net);
      out := if resp.None? || !resp.value.List? then [] else resp.value.entries;
      ListedIsLocal(mac, old(server.store.entries), prefix, c, old(clock.now));
    }
  }
}
