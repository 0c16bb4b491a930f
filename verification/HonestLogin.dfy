/**
 A whole login as tools/client_sim.cpp performs it, over encoded and framed
 messages and the remote store, against include/handlers/login_handler.hpp.
 */
module HonestLogin {
  import opened Numerals
  import opened ByteIo
  import opened Framing
  import opened Modular
  import opened Srp6
  import opened StoreRpc
  import opened SharedStore
  import opened LoginSession
  import Registry
  import StoreWire
  import LW = LoginWire

  datatype Client = Client(ticket: Bytes, username: Bytes, password: Bytes, a: nat)

  /** How a completed login ends: the store, the session, the client's token and the worlds it was shown. */
  datatype Finished = Finished(store: Entries, state: SessionState, token: Bytes, worlds: Option<LW.Msg>)

  function ToServer(p: Bytes): Option<Bytes> {
    var (payload, _) :- ReadFrame(HOST_ORDER, LOGIN_FRAME, Frame(HOST_ORDER, p));
    Some(payload)
  }

  function ToClient(p: Bytes): Option<LW.Msg> {
    var (payload, _) :- ReadFrame(HOST_ORDER, CLIENT_FRAME, Frame(HOST_ORDER, p));
    LW.Decode(payload)
  }

  function FirstSent(t: Checked<Turn>): Option<LW.Msg> {
    if t.Raised? || t.value.sent == [] then None else ToClient(t.value.sent[0])
  }

  /** From the hello to the list of worlds; None when either side gives up. */
  function Conversation(cfg: Config, s: Entries, who: Client, ch: Chance, take: Moment, calls: Calls): Option<Finished> {
    var hello :- ToServer(LW.Encode(LW.ClientHello(who.ticket, who.username)));
    var (s1, t1) := Respond(cfg, s, FRESH, hello, ch, Calls(take, take));
    var m :- FirstSent(t1);
    if !m.ServerChallenge? then None else
    match ClientRespond(cfg.group, who.username, who.password, m.salt, m.B, who.a)
    case Raised => None
    case Fine(proof) => SecondHalf(cfg, s1, t1.value.state, proof, ch, calls)
  }

  function SecondHalf(cfg: Config, s: Entries, st: SessionState, proof: Srp6.ClientProof, ch: Chance, calls: Calls): Option<Finished> {
    if !Ready(st) then None else
    var payload :- ToServer(LW.Encode(LW.ClientProof(proof.A, proof.M1)));
    var (s', t) := Respond(cfg, s, st, payload, ch, calls);
    var m :- FirstSent(t);
    if !m.ServerProof? || !ClientVerifyServer(cfg.group, proof, m.M2) then None
    else Some(Finished(s', t.value.state, m.token, if |t.value.sent| > 1 then ToClient(t.value.sent[1]) else None))
  }

  // ---------------------------------------------------------------- messages in flight

  lemma ArrivesAtServer(p: Bytes)
    requires 1 <= |p| < 0x1_0000_0000
    ensures ToServer(p) == if |p| <= LOGIN_FRAME then Some(p) else None
  {
    hide ReadFrame, Frame;
    FrameRoundTrip(HOST_ORDER, HOST_ORDER, LOGIN_FRAME, p, []);
    assert Frame(HOST_ORDER, p) + [] == Frame(HOST_ORDER, p);
  }

  lemma ArrivesAtClient(m: LW.Msg)
    requires LW.Fits(m) && 1 <= |LW.Encode(m)| <= CLIENT_FRAME
    ensures ToClient(LW.Encode(m)) == Some(m)
  {
    hide ReadFrame, Frame, LW.Encode, LW.Fits, LW.Decode;
    var p := LW.Encode(m);
    FrameRoundTrip(HOST_ORDER, HOST_ORDER, CLIENT_FRAME, p, []);
    assert Frame(HOST_ORDER, p) + [] == Frame(HOST_ORDER, p);
    LW.RoundTrip(m);
  }

  lemma Sizes(m: LW.Msg)
    ensures m.ClientHello? ==> |LW.Encode(m)| == 6 + |m.ticket| + |m.username|
    ensures m.ClientProof? ==> |LW.Encode(m)| == 6 + |m.A| + |m.M1|
    ensures m.ServerChallenge? ==> |LW.Encode(m)| == 8 + |m.salt| + |m.B|
    ensures m.ServerProof? ==> |LW.Encode(m)| == 4 + |m.M2| + |m.token|
  {}

  function WorldListFor(listed: seq<StoreWire.Entry>): Bytes {
    LW.Encode(LW.WorldList(AsWorlds(Registry.Worlds(listed))))
  }

  /** What the client is shown after Login has listed the worlds. */
  function Shown(cfg: Config, s: Entries, c: Moment): Option<LW.Msg> {
    ToClient(WorldListFor(RemoteList(cfg.mac, s, Registry.WORLD_PREFIX, c).1))
  }

  // ---------------------------------------------------------------- the two turns

  /** The account that `Register` made, and the challenge it leads to. */
  ghost predicate HasAccount(cfg: Config, who: Client) {
    && who.username in cfg.accounts
    && |cfg.accounts[who.username].salt| < 0x1_0000
    && Register(cfg.group, who.username, who.password, cfg.accounts[who.username].salt) == Fine(cfg.accounts[who.username])
  }

  function TheChallenge(cfg: Config, who: Client, b: nat): Challenge
    requires who.username in cfg.accounts
  {
    var c := ServerBegin(cfg.group, cfg.accounts[who.username].verifier, b);
    if c.Fine? then c.value else Challenge(0, 0, [])
  }

  lemma HelloTurn(cfg: Config, s: Entries, who: Client, ch: Chance, take: Moment)
    requires FitStore(s) && HasAccount(cfg, who) && ch.databaseUp
    requires |who.ticket| + |who.username| <= LOGIN_FRAME
    ensures var hello := LW.Encode(LW.ClientHello(who.ticket, who.username));
            var c := TheChallenge(cfg, who, ch.b);
            var found := LocalTake(s, who.ticket, take).1.Some?;
            && |c.B| == N_BYTES
            && Respond(cfg, s, FRESH, hello, ch, Calls(take, take))
            == (LocalTake(s, who.ticket, take).0,
                Fine(if found
                     then Turn(SessionState(AwaitingProof, who.username, Some(c)),
                               [LW.Encode(LW.ServerChallenge(cfg.accounts[who.username].salt, c.B))], false)
                     else Turn(FRESH, [], true)))
  {
    hide LW.Decode, LW.Encode, RemoteTake, LocalTake, ServerBegin, Register;
    LW.RoundTrip(LW.ClientHello(who.ticket, who.username));
    RemoteTakeIsLocal(cfg.mac, s, who.ticket, take);
    var reg := cfg.accounts[who.username];
    HonestChallenge(cfg.group, who.username, who.password, reg.salt, ch.b);
  }

  lemma ChallengeReachesClient(salt: Bytes, B: Bytes)
    requires |salt| < 0x1_0000 && |B| == N_BYTES
    ensures ToClient(LW.Encode(LW.ServerChallenge(salt, B))) == Some(LW.ServerChallenge(salt, B))
  {
    hide LW.Encode, ToClient;
    var m := LW.ServerChallenge(salt, B);
    Sizes(m);
    ArrivesAtClient(m);
  }

  /** The second turn for a proof that the server accepts. */
  lemma ProofTurnAccepted(cfg: Config, s: Entries, st: SessionState, proof: Srp6.ClientProof, M2: Bytes, ch: Chance, calls: Calls)
    requires FitStore(s) && st.stage == AwaitingProof && st.challenge.Some? && |proof.A| == N_BYTES && |M2| == 32
    requires |ch.token| == Registry.TOKEN_BYTES && |st.username| <= LOGIN_FRAME
    ensures var token := Registry.ToHex(ch.token);
            var s1 := LocalPut(s, token, st.username, SESSION_TTL, calls.first).0;
            var end := Finished(s1, st.(stage := Done), token, Shown(cfg, s1, calls.second));
            ServerVerify(cfg.group, st.challenge.value, proof.A, proof.M1) == Fine(Some(M2)) ==>
              SecondHalf(cfg, s, st, proof, ch, calls) == if ClientVerifyServer(cfg.group, proof, M2) then Some(end) else None
  {
    hide LW.Decode, LW.Encode, RemotePut, RemoteList, LocalPut, ServerVerify, ToClient, ToServer, Registry.Worlds, ClientVerifyServer;
    var m := LW.ClientProof(proof.A, proof.M1);
    Sizes(m);
    ArrivesAtServer(LW.Encode(m));
    LW.RoundTrip(m);
    var token := Registry.ToHex(ch.token);
    RemotePutIsLocal(cfg.mac, s, token, st.username, SESSION_TTL, calls.first);
    var s1 := LocalPut(s, token, st.username, SESSION_TTL, calls.first).0;
    ListKeepsStore(cfg.mac, s1, Registry.WORLD_PREFIX, calls.second);
    var reply := LW.ServerProof(M2, token);
    Sizes(reply);
    ArrivesAtClient(reply);
  }

  /** The second turn for a proof that the server refuses. */
  lemma ProofTurnRefused(cfg: Config, s: Entries, st: SessionState, proof: Srp6.ClientProof, ch: Chance, calls: Calls)
    requires st.stage == AwaitingProof && st.challenge.Some? && |proof.A| == N_BYTES
    ensures ServerVerify(cfg.group, st.challenge.value, proof.A, proof.M1) == Fine(None)
        ==> SecondHalf(cfg, s, st, proof, ch, calls).None?
  {
    hide LW.Decode, LW.Encode, ServerVerify, ToClient, ToServer;
    var m := LW.ClientProof(proof.A, proof.M1);
    Sizes(m);
    ArrivesAtServer(LW.Encode(m));
    LW.RoundTrip(m);
    ErrorReachesClient();
  }

  lemma ErrorReachesClient()
    ensures ToClient(LW.Encode(LW.ServerError)) == Some(LW.ServerError)
  {
    hide ToClient, Image;
    ArrivesAtClient(LW.ServerError);
  }

  lemma ProofShapes(p: Group, username: Bytes, password: Bytes, salt: Bytes, a: nat, c: Challenge)
    ensures var r := ClientRespond(p, username, password, salt, c.B, a);
            && (r.Fine? <==> BnFromBytes(c.B) % p.N != 0)
            && (r.Fine? ==>
                  var v := ServerVerify(p, c, r.value.A, r.value.M1);
                  |r.value.A| == N_BYTES && v.Fine? && (v.value.Some? ==> |v.value.value| == 32))
  {
    hide ComputeX, ComputeU, BigEndian, ServerSecret, ClientSecret, BnFromBytes, ModExp;
    var r := ClientRespond(p, username, password, salt, c.B, a);
    NeverTooLarge(p, username, password, salt, [], a, 0, c, if r.Fine? then r.value.A else [], c.B, if r.Fine? then r.value.M1 else []);
  }

  // ---------------------------------------------------------------- the theorem

  /** The random coincidences under which SRP itself refuses. */
  ghost predicate Unlucky(cfg: Config, who: Client, b: nat)
    requires who.username in cfg.accounts
  {
    var c := TheChallenge(cfg, who, b);
    BnFromBytes(c.B) % cfg.group.N == 0 || ComputeU(cfg.group, BigEndian(ModExp(G, who.a, cfg.group.N), N_BYTES), c.B) == 0
  }

  /** With the right password the login completes, with both proofs accepted, exactly when the hello fits a Login
      frame, the ticket is live and the store answers, and SRP is not unlucky. It then ends in the last stage, the
      ticket is spent, and the session token maps to exactly this username unless the request to store it was lost. */
  lemma HonestLogin(cfg: Config, s: Entries, who: Client, ch: Chance, take: Moment, calls: Calls)
    requires FitStore(s) && HasAccount(cfg, who)
    requires |who.ticket| == 2 * Registry.TOKEN_BYTES && |ch.token| == Registry.TOKEN_BYTES && ch.databaseUp
    requires 38 + |who.username| < 0x1_0000_0000
    ensures var f := Conversation(cfg, s, who, ch, take, calls);
            && (f.Some? <==> && |who.username| <= 2010
                             && take.net == Delivered && Lookup(s, who.ticket, take.now).Some?
                             && !Unlucky(cfg, who, ch.b))
            && (f.Some? ==>
                  var spent := s - {who.ticket};
                  && f.value.state.stage == Done && f.value.state.username == who.username
                  && f.value.token == Registry.ToHex(ch.token)
                  && f.value.store == (if calls.first.net == RequestLost then spent
                                       else PutIn(spent, f.value.token, who.username, SESSION_TTL, calls.first.now))
                  && f.value.worlds == Shown(cfg, f.value.store, calls.second))
  {
    hide LW.Encode, Respond, SecondHalf, ToServer, ToClient, FitStore, Shown, ServerBegin, Register, ClientRespond, ServerVerify, BnFromBytes, ComputeU, BigEndian, ModExp;
    var hello := LW.ClientHello(who.ticket, who.username);
    Sizes(hello);
    ArrivesAtServer(LW.Encode(hello));
    if |who.username| <= 2010 {
      HelloTurn(cfg, s, who, ch, take);
      if LocalTake(s, who.ticket, take).1.Some? {
        AfterChallenge(cfg, s - {who.ticket}, who, ch, calls) by { SpentFits(s, who.ticket); }
        ChallengeReachesClient(cfg.accounts[who.username].salt, TheChallenge(cfg, who, ch.b).B);
      }
    }
  }

  lemma SpentFits(s: Entries, ticket: Bytes)
    requires FitStore(s)
    ensures FitStore(s - {ticket})
  {}

  /** The second half once the challenge has reached the client. */
  lemma AfterChallenge(cfg: Config, s: Entries, who: Client, ch: Chance, calls: Calls)
    requires FitStore(s) && HasAccount(cfg, who) && |who.username| <= 2010 && |ch.token| == Registry.TOKEN_BYTES
    ensures var c := TheChallenge(cfg, who, ch.b);
            var r := ClientRespond(cfg.group, who.username, who.password, cfg.accounts[who.username].salt, c.B, who.a);
            var st := SessionState(AwaitingProof, who.username, Some(c));
            && (r.Raised? ==> Unlucky(cfg, who, ch.b))
            && (r.Fine? ==>
                  var f := SecondHalf(cfg, s, st, r.value, ch, calls);
                  && (f.Some? <==> !Unlucky(cfg, who, ch.b))
                  && (f.Some? ==>
                        var token := Registry.ToHex(ch.token);
                        && f.value.state == st.(stage := Done) && f.value.token == token
                        && f.value.store == LocalPut(s, token, who.username, SESSION_TTL, calls.first).0
                        && f.value.worlds == Shown(cfg, f.value.store, calls.second)))
  {
    hide SecondHalf, FitStore, ServerBegin, Register, ClientRespond, ServerVerify, BnFromBytes, ComputeU, BigEndian, ModExp, LocalPut, Shown;
    var reg := cfg.accounts[who.username];
    Agreement(cfg.group, who.username, who.password, reg.salt, who.a, ch.b);
    var c := TheChallenge(cfg, who, ch.b);
    ProofShapes(cfg.group, who.username, who.password, reg.salt, who.a, c);
    var r := ClientRespond(cfg.group, who.username, who.password, reg.salt, c.B, who.a);
    if r.Fine? {
      var st := SessionState(AwaitingProof, who.username, Some(c));
      var m2 := ServerVerify(cfg.group, c, r.value.A, r.value.M1).value;
      if m2.Some? {
        ProofTurnAccepted(cfg, s, st, r.value, m2.value, ch, calls);
      } else {
        ProofTurnRefused(cfg, s, st, r.value, ch, calls);
      }
    }
  }

  // ---------------------------------------------------------------- the list of worlds

  lemma {:induction false} ListSizeAppend(es: seq<StoreWire.Entry>, e: StoreWire.Entry)
    ensures ListSize(es + [e]) == ListSize(es) + 6 + |e.key| + |e.value|
  {
    if es == [] {
      assert [e][1..] == [] && es + [e] == [e];
    } else {
      ListSizeAppend(es[1..], e);
      assert (es + [e])[1..] == es[1..] + [e];
    }
  }

  lemma WorldSize(w: LW.World)
    ensures |LW.WorldBytes(w)| == 10 + |w.name| + |w.host|
  {}

  /** What Login forwards is no larger than what the store sent it, and fits its own fields. */
  lemma {:induction false} ForwardedSize(es: seq<StoreWire.Entry>)
    ensures var ws := AsWorlds(Registry.Worlds(es));
            |ws| <= |es| && |LW.WorldsBytes(ws)| <= ListSize(es) && forall w :: w in ws ==> LW.WorldFits(w)
  {
    hide LW.WorldBytes, Registry.DecodeWorld, LW.WorldsBytes, ListSize;
    if es == [] {
      LW.WorldsCons(LW.World([], [], 0, 0), [], []);
      assert AsWorlds(Registry.Worlds(es)) == [];
    } else {
      var n := |es| - 1;
      var e := es[n];
      ForwardedSize(es[..n]);
      ListSizeAppend(es[..n], e);
      assert es == es[..n] + [e];
      var ws := Registry.Worlds(es[..n]);
      var i := Registry.DecodeWorld(e.value);
      if i.Some? {
        Registry.WorldDecoded(e.value);
        var w := AsWorld(i.value);
        assert AsWorlds(ws + [i.value]) == AsWorlds(ws) + [w];
        LW.WorldsAppend(AsWorlds(ws), w);
        WorldSize(w);
      } else {
        assert ws + [] == ws;
      }
    }
  }

  /** Whenever the store's listing reached Login, the client is shown every decodable world, exactly when there
      are at most 10000 of them. */
  lemma WorldsReachClient(es: seq<StoreWire.Entry>)
    requires Listable(es)
    ensures var ws := AsWorlds(Registry.Worlds(es));
            ToClient(WorldListFor(es)) == if |ws| <= LW.MAX_WORLDS then Some(LW.WorldList(ws)) else None
  {
    hide ReadFrame, Frame, LW.WorldsBytes, ListSize, Registry.Worlds, ReadU16, EncU16, ReadU32, LW.ReadWorlds, LW.WorldFits, AsWorlds;
    var ws := AsWorlds(Registry.Worlds(es));
    var m := LW.WorldList(ws);
    var p := LW.Encode(m);
    ForwardedSize(es);
    EncodedLength(ws);
    if |ws| <= LW.MAX_WORLDS {
      ArrivesAtClient(m);
    } else {
      FrameRoundTrip(HOST_ORDER, HOST_ORDER, CLIENT_FRAME, p, []);
      assert Frame(HOST_ORDER, p) + [] == Frame(HOST_ORDER, p);
      U16Inverse(103, LW.Operands(m));
      U32Inverse(|ws|, LW.WorldsBytes(ws));
    }
  }

  lemma EncodedLength(ws: seq<LW.World>)
    ensures |LW.Encode(LW.WorldList(ws))| == 6 + |LW.WorldsBytes(ws)|
  {}

  lemma TokenFits(s: Entries, ticket: Bytes, token: Bytes, username: Bytes, now: Time)
    requires FitStore(s) && |token| + |username| <= ROOM
    ensures FitStore(PutIn(s - {ticket}, token, username, SESSION_TTL, now))
  {}

  /** A stored value that is shown as this world. */
  predicate ShowsAs(value: Bytes, w: LW.World) {
    var d := Registry.DecodeWorld(value);
    && d.Some?
    && w.name == d.value.name && w.host == d.value.host && w.port == d.value.port && w.population == d.value.population
  }

  lemma {:induction false} WorldsOf(es: seq<StoreWire.Entry>, w: LW.World)
    ensures w in AsWorlds(Registry.Worlds(es)) <==> exists i :: 0 <= i < |es| && ShowsAs(es[i].value, w)
  {
    hide Registry.DecodeWorld;
    if es != [] {
      var n := |es| - 1;
      WorldsOf(es[..n], w);
      var ws := Registry.Worlds(es[..n]);
      var d := Registry.DecodeWorld(es[n].value);
      if d.Some? {
        assert AsWorlds(ws + [d.value]) == AsWorlds(ws) + [AsWorld(d.value)];
      } else {
        assert ws + [] == ws;
      }
      assert forall i :: 0 <= i < n ==> es[..n][i] == es[i];
    }
  }

  /** The worlds a completed login shows: when the listing arrives and the client can take it, exactly those that are
      registered and live at that moment; when there are more than 10000 of them, nothing. */
  lemma WorldsShown(cfg: Config, s: Entries, who: Client, ch: Chance, take: Moment, calls: Calls, first: Time)
    requires FitStore(s) && HasAccount(cfg, who)
    requires |who.ticket| == 2 * Registry.TOKEN_BYTES && |ch.token| == Registry.TOKEN_BYTES && ch.databaseUp
    requires 38 + |who.username| < 0x1_0000_0000
    ensures var f := Conversation(cfg, s, who, ch, take, calls);
            f.Some? && Genuine(calls.second, f.value.store, first, Delivered) && Listable(calls.second.listing(Registry.WORLD_PREFIX)) ==>
              var live := ListOf(f.value.store, Registry.WORLD_PREFIX, calls.second.at);
              var ws := AsWorlds(Registry.Worlds(calls.second.listing(Registry.WORLD_PREFIX)));
              && (forall w :: w in ws <==> exists k :: k in live && ShowsAs(live[k], w))
              && |ws| <= |live|
              && f.value.worlds == if |ws| <= LW.MAX_WORLDS then Some(LW.WorldList(ws)) else None
  {
    hide Conversation, RemoteList, FitStore, HasAccount, Unlucky, ToClient, Listable, ListOf, Registry.Worlds, AsWorlds, ShowsAs, WorldListFor, LW.WorldsBytes, ListSize;
    HonestLogin(cfg, s, who, ch, take, calls);
    var f := Conversation(cfg, s, who, ch, take, calls);
    var es := calls.second.listing(Registry.WORLD_PREFIX);
    if f.Some? && Genuine(calls.second, f.value.store, first, Delivered) && Listable(es) {
      SpentFits(s, who.ticket);
      if calls.first.net != RequestLost { TokenFits(s, who.ticket, f.value.token, who.username, calls.first.now); }
      var live := ListOf(f.value.store, Registry.WORLD_PREFIX, calls.second.at);
      assert Enumerates(es, live);
      RemoteListIsLocal(cfg.mac, f.value.store, Registry.WORLD_PREFIX, calls.second) by { ListableSize(es); }
      WorldsReachClient(es);
      ForwardedSize(es);
      EnumeratedSize(es, live);
      forall w ensures w in AsWorlds(Registry.Worlds(es)) <==> exists k :: k in live && ShowsAs(live[k], w) {
        WorldsOf(es, w);
        EnumeratedValues(es, live, w);
      }
    }
  }

  lemma ListableSize(es: seq<StoreWire.Entry>)
    requires Listable(es)
    ensures 38 + ListSize(es) < 0x1_0000_0000
  {}

  lemma EnumeratedValues(es: seq<StoreWire.Entry>, m: map<Bytes, Bytes>, w: LW.World)
    requires Enumerates(es, m)
    ensures (exists i :: 0 <= i < |es| && ShowsAs(es[i].value, w)) <==> exists k :: k in m && ShowsAs(m[k], w)
  {
    hide ShowsAs;
    if k :| k in m && ShowsAs(m[k], w) {
      assert k in Keys(es);
    }
  }

  lemma {:induction false} EnumeratedSize(es: seq<StoreWire.Entry>, m: map<Bytes, Bytes>)
    requires Enumerates(es, m)
    ensures |es| == |m|
  {
    if es == [] {
      assert m.Keys == {};
    } else {
      var n := |es| - 1;
      var k := es[n].key;
      var rest := m - {k};
      assert forall x :: x in Keys(es) <==> x == k || x in Keys(es[..n]) by {
        forall x ensures x in Keys(es) <==> x == k || x in Keys(es[..n]) {
          if x in Keys(es) {
            var i :| 0 <= i < |es| && es[i].key == x;
            assert i == n || es[..n][i].key == x;
          }
          if x in Keys(es[..n]) {
            var i :| 0 <= i < n && es[..n][i].key == x;
            assert es[i].key == x;
          }
          assert es[n].key == k;
        }
      }
      assert k !in Keys(es[..n]);
      assert Keys(es[..n]) == rest.Keys;
      EnumeratedSize(es[..n], rest);
      assert m.Keys == rest.Keys + {k};
      assert |m.Keys| == |rest.Keys| + 1;
    }
  }

  // ---------------------------------------------------------------- more worlds than the client takes

  function CrowdEntry(i: nat): StoreWire.Entry
    requires i < 0x1_0000
  {
    var host: Bytes := [i / 0x100, i % 0x100];
    StoreWire.Entry(Registry.WorldKey(host), Registry.EncodeWorld(Registry.WorldInfo(host, Registry.WORLD_PORT, [], 0)))
  }

  function Crowd(n: nat): seq<StoreWire.Entry>
    requires n <= 0x1_0000
  {
    if n == 0 then [] else Crowd(n - 1) + [CrowdEntry(n - 1)]
  }

  /** The store after n Worlds have registered, each with its own two-byte host. */
  function CrowdStore(n: nat): Entries
    requires n <= 0x1_0000
  {
    if n == 0 then map[]
    else PutIn(CrowdStore(n - 1), CrowdEntry(n - 1).key, CrowdEntry(n - 1).value, 15, 0)
  }

  lemma CrowdEntryOk(i: nat)
    requires i < 0x1_0000
    ensures var e := CrowdEntry(i);
            && Registry.WorldEntry(e.key, e.value) && Registry.DecodeWorld(e.value).Some?
            && Registry.WORLD_PREFIX <= e.key && e.key[15..17] == [i / 0x100, i % 0x100]
            && |e.key| == 22 && |e.value| == 12
  {
    hide Registry.DecodeWorld, Image;
    var host: Bytes := [i / 0x100, i % 0x100];
    Registry.WorldInfoRoundTrip(Registry.WorldInfo(host, Registry.WORLD_PORT, [], 0));
    Registry.KeysApart([], host);
    var key := CrowdEntry(i).key;
    assert key[15] == host[0] && key[16] == host[1];
  }

  lemma CrowdApart(i: nat, j: nat)
    requires i < 0x1_0000 && j < 0x1_0000 && CrowdEntry(i).key == CrowdEntry(j).key
    ensures i == j
  {
    hide CrowdEntry;
    CrowdEntryOk(i);
    CrowdEntryOk(j);
    assert [i / 0x100, i % 0x100] == [j / 0x100, j % 0x100];
  }

  lemma {:induction false} CrowdStored(n: nat)
    requires n <= 0x1_0000
    ensures forall k :: k in CrowdStore(n) ==> exists i: nat :: i < n && k == CrowdEntry(i).key
    ensures forall k :: k in CrowdStore(n) ==>
              var e := CrowdStore(n)[k];
              |k| == 22 && |e.value| == 12 && Registry.WorldEntry(k, e.value) && e.expires == 15 * SECOND
    ensures n < 0x1_0000 ==> CrowdEntry(n).key !in CrowdStore(n)
  {
    hide CrowdEntry, Registry.WorldEntry;
    if n > 0 {
      CrowdStored(n - 1);
      CrowdEntryOk(n - 1);
    }
    if n < 0x1_0000 && CrowdEntry(n).key in CrowdStore(n) {
      var i: nat :| i < n && CrowdEntry(n).key == CrowdEntry(i).key;
      CrowdApart(i, n);
    }
  }

  /** None of them is refused, and together they take 40 n bytes. */
  lemma {:induction false} CrowdCounted(n: nat)
    requires n <= 0x1_0000
    ensures |Crowd(n)| == n == |Registry.Worlds(Crowd(n))| && ListSize(Crowd(n)) == 40 * n
  {
    hide CrowdEntry, Registry.DecodeWorld, Registry.WorldEntry;
    if n > 0 {
      CrowdCounted(n - 1);
      CrowdEntryOk(n - 1);
      ListSizeAppend(Crowd(n - 1), CrowdEntry(n - 1));
      assert Crowd(n)[..n - 1] == Crowd(n - 1);
    }
  }

  lemma OneMoreListed(s: Entries, prefix: Bytes, at: Readings, key: Bytes, value: Bytes)
    requires prefix <= key && key !in s && at(key) == 0
    ensures ListOf(PutIn(s, key, value, 15, 0), prefix, at) == ListOf(s, prefix, at)[key := value]
    ensures key !in ListOf(s, prefix, at)
  {}

  /** All n of them are listed. */
  lemma {:induction false} CrowdListed(n: nat, at: Readings)
    requires n <= 0x1_0000 && forall k :: at(k) == 0
    ensures Enumerates(Crowd(n), ListOf(CrowdStore(n), Registry.WORLD_PREFIX, at))
  {
    hide CrowdEntry, Enumerates, ListOf, PutIn;
    if n == 0 {
      EmptyCrowd(at);
    } else {
      var e := CrowdEntry(n - 1);
      var s := CrowdStore(n - 1);
      CrowdListed(n - 1, at);
      CrowdEntryOk(n - 1);
      CrowdStored(n - 1);
      var m := ListOf(s, Registry.WORLD_PREFIX, at);
      OneMoreListed(s, Registry.WORLD_PREFIX, at, e.key, e.value);
      EnumeratesAppend(Crowd(n - 1), m, e);
    }
  }

  lemma EmptyCrowd(at: Readings)
    ensures Enumerates(Crowd(0), ListOf(CrowdStore(0), Registry.WORLD_PREFIX, at))
  {
    assert Keys([]) == {};
  }

  /** Login and the store can hold more worlds than the client accepts: with 10001 of them registered and live, Login is
      sent a listing that it takes in full, and the client is shown nothing. */
  lemma TooManyWorlds(at: Readings)
    requires forall k :: at(k) == 0
    ensures var s, es := CrowdStore(LW.MAX_WORLDS + 1), Crowd(LW.MAX_WORLDS + 1);
            && Registry.Clean(s) && FitStore(s)
            && Enumerates(es, ListOf(s, Registry.WORLD_PREFIX, at)) && Listable(es)
            && ToClient(WorldListFor(es)).None?
  {
    hide Crowd, CrowdStore, Enumerates, ListOf, Registry.WorldEntry, Registry.Worlds, ToClient, WorldListFor, ListSize;
    CrowdListed(LW.MAX_WORLDS + 1, at);
    CrowdStored(LW.MAX_WORLDS + 1);
    CrowdCounted(LW.MAX_WORLDS + 1);
    WorldsReachClient(Crowd(LW.MAX_WORLDS + 1));
  }
}
