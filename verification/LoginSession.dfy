/**
 The two-step login of a session (include/handlers/login_handler.hpp), cut at the
 points where the coroutine waits for the store so that the same pieces serve one
 undisturbed session here and interleaved sessions in TokenHop.
 */
module LoginSession {
  import opened Numerals
  import opened ByteIo
  import opened Srp6
  import opened StoreRpc
  import opened SharedStore
  import Registry
  import StoreWire
  import LW = LoginWire

  const SESSION_TTL := 60
  const LOGIN_FRAME := 2048

  datatype Stage = AwaitingHello | AwaitingProof | Done

  datatype SessionState = SessionState(stage: Stage, username: Bytes, challenge: Option<Challenge>)

  const FRESH := SessionState(AwaitingHello, [], None)

  /** The SRP group, HMAC under the store secret, HMAC under the enumeration-resistance key, and the accounts. */
  datatype Config = Config(group: Group, mac: StoreWire.Mac, enumMac: StoreWire.Mac, accounts: map<Bytes, Registration>)

  // ---------------------------------------------------------------- pieces

  datatype Action = CloseUnread | Close | Hello(ticket: Bytes, username: Bytes) | Proof(A: Bytes, M1: Bytes)

  /** What `on_message` does with a payload in the given state. */
  function Dispatch(st: SessionState, payload: Bytes): Action {
    match LW.Decode(payload)
    case None => CloseUnread
    case Some(ClientHello(t, u)) => if st.stage == AwaitingHello then Hello(t, u) else Close
    case Some(ClientProof(a, m1)) => if st.stage == AwaitingProof then Proof(a, m1) else Close
    case _ => Close
  }

  function FakeSalt(cfg: Config, username: Bytes): Bytes {
    cfg.enumMac(Ascii("srp6-fake-salt:") + username)[..SALT_SIZE]
  }

  /** The account's salt and verifier, or an indistinguishable stand-in. */
  function RegistrationFor(cfg: Config, username: Bytes, fakePassword: Bytes): Checked<Registration> {
    if username in cfg.accounts then Fine(cfg.accounts[username])
    else Register(cfg.group, username, Registry.ToHex(fakePassword), FakeSalt(cfg, username))
  }

  /** What a session draws at random, and whether the account database answers. */
  datatype Chance = Chance(b: nat, fakePassword: Bytes, token: Bytes, databaseUp: bool)

  /** The outcome of one `on_message`: the new state, the messages sent, and whether the session was closed. */
  datatype Turn = Turn(state: SessionState, sent: seq<Bytes>, closed: bool)

  /** `handle_hello` after the store has answered the take. */
  function AfterTake(cfg: Config, st: SessionState, found: bool, username: Bytes, ch: Chance): Checked<Turn> {
    if !found then Fine(Turn(st, [], true))
    else if !ch.databaseUp then Fine(Turn(st, [LW.Encode(LW.ServerError)], true))
    else
      var reg :- RegistrationFor(cfg, username, ch.fakePassword);
      var c :- ServerBegin(cfg.group, reg.verifier, ch.b);
      Fine(Turn(SessionState(AwaitingProof, username, Some(c)), [LW.Encode(LW.ServerChallenge(reg.salt, c.B))], false))
  }

  /** `handle_proof` up to the store: the server's proof when the client's is accepted. */
  function CheckProof(cfg: Config, st: SessionState, A: Bytes, M1: Bytes): Checked<Option<Bytes>>
    requires st.challenge.Some?
  {
    ServerVerify(cfg.group, st.challenge.value, A, M1)
  }

  function AsWorld(i: Registry.WorldInfo): LW.World { LW.World(i.name, i.host, i.port, i.population) }

  function AsWorlds(ws: seq<Registry.WorldInfo>): seq<LW.World> {
    seq(|ws|, i requires 0 <= i < |ws| => AsWorld(ws[i]))
  }

  /** `handle_proof` after the put and the listing. */
  function AfterProof(st: SessionState, M2: Bytes, token: Bytes, listed: seq<StoreWire.Entry>): Turn {
    Turn(st.(stage := Done),
         [LW.Encode(LW.ServerProof(M2, token)), LW.Encode(LW.WorldList(AsWorlds(Registry.Worlds(listed))))],
         false)
  }

  // ---------------------------------------------------------------- one undisturbed turn

  /** The circumstances of the up to two calls to the store that a turn makes. */
  datatype Calls = Calls(first: Moment, second: Moment)

  /** The calls are those of a turn that found the store `before`, left it as `after`, and ran from `first` to `last`
      under these faults. The second call, a listing, walks the store as the first one left it. */
  ghost predicate TurnCalls(calls: Calls, before: Entries, after: Entries, first: Time, last: Time, net1: Net, net2: Net) {
    && Genuine(calls.first, before, first, net1)
    && Genuine(calls.second, after, calls.first.now, net2) && calls.second.now == last
  }

  /** A turn, or the rest of one, that makes no call. */
  ghost function NoCalls(s: Entries, now: Time, net1: Net, net2: Net): (calls: Calls)
    ensures TurnCalls(calls, s, s, now, now, net1, net2)
  {
    Calls(Instant(s, now, net1), Instant(s, now, net2))
  }

  predicate Ready(st: SessionState) { st.stage == AwaitingProof ==> st.challenge.Some? }

  function Respond(cfg: Config, s: Entries, st: SessionState, payload: Bytes, ch: Chance, calls: Calls): (Entries, Checked<Turn>)
    requires Ready(st)
  {
    match Dispatch(st, payload)
    case CloseUnread => (s, Fine(Turn(st, [], true)))
    case Close => (s, Fine(Turn(st, [], true)))
    case Hello(ticket, username) =>
      var (s', found) := RemoteTake(cfg.mac, s, ticket, calls.first);
      (s', AfterTake(cfg, st, found.Some?, username, ch))
    case Proof(A, M1) =>
      ProofTurn(cfg, s, st, A, M1, ch, calls)
  }

  function ProofTurn(cfg: Config, s: Entries, st: SessionState, A: Bytes, M1: Bytes, ch: Chance, calls: Calls): (Entries, Checked<Turn>)
    requires st.challenge.Some?
  {
    match CheckProof(cfg, st, A, M1)
    case Raised => (s, Raised)
    case Fine(None) => (s, Fine(Turn(st, [LW.Encode(LW.ServerError)], true)))
    case Fine(Some(m2)) =>
      var token := Registry.ToHex(ch.token);
      var (s1, _) := RemotePut(cfg.mac, s, token, st.username, SESSION_TTL, calls.first);
      var (s2, listed) := RemoteList(cfg.mac, s1, Registry.WORLD_PREFIX, calls.second);
      (s2, Fine(AfterProof(st, m2, token, listed)))
  }

  /** The stage only moves forward, a challenge is present when a proof is awaited, and a session reaches the
      last stage only through a proof that the server accepted for its own challenge. */
  lemma StageMachine(cfg: Config, s: Entries, st: SessionState, payload: Bytes, ch: Chance, calls: Calls)
    requires Ready(st)
    ensures var (s', t) := Respond(cfg, s, st, payload, ch, calls);
            t.Fine? ==>
              && Ready(t.value.state)
              && (st.stage == AwaitingHello ==> t.value.state.stage != Done)
              && (st.stage == AwaitingProof ==> t.value.state.stage != AwaitingHello && t.value.state.username == st.username)
              && (st.stage == Done ==> t.value == Turn(st, [], true) && s' == s)
              && (st.stage != Done && t.value.state.stage == Done ==>
                    exists A, M1 :: && LW.Decode(payload) == Some(LW.ClientProof(A, M1))
                                    && CheckProof(cfg, st, A, M1).Fine?
                                    && CheckProof(cfg, st, A, M1).value.Some?)
  {
    hide LW.Decode, ServerVerify, RemoteTake, RemotePut, RemoteList, RegistrationFor, ServerBegin, LW.Encode;
  }

  // ---------------------------------------------------------------- what each message is answered with

  /** Anything but the message that is due closes the session, unanswered, with its state and the store as they were. */
  lemma OutOfTurnCloses(cfg: Config, s: Entries, st: SessionState, payload: Bytes, ch: Chance, calls: Calls)
    requires Ready(st)
    ensures var m := LW.Decode(payload);
            var due := m.Some? && ((st.stage == AwaitingHello && m.value.ClientHello?) || (st.stage == AwaitingProof && m.value.ClientProof?));
            !due ==> Respond(cfg, s, st, payload, ch, calls) == (s, Fine(Turn(st, [], true)))
  {
    hide LW.Decode;
  }

  /** A proof is refused with the error message, and nothing is stored, exactly when A mod N or u is zero or M1 is not the
      hash of A, B and the key of (A v^u)^b; in particular when A is zero modulo N, whoever sends it. */
  lemma ProofAnswered(cfg: Config, s: Entries, st: SessionState, payload: Bytes, A: Bytes, M1: Bytes, ch: Chance, calls: Calls)
    requires st.stage == AwaitingProof && st.challenge.Some? && LW.Decode(payload) == Some(LW.ClientProof(A, M1))
    ensures var c := st.challenge.value;
            var N := cfg.group.N;
            var u := FromBigEndian(cfg.group.sha(A + c.B));
            var K := cfg.group.sha(BigEndian(Pow(FromBigEndian(A) * Pow(c.v, u), c.b) % N, 256));
            var good := FromBigEndian(A) % N != 0 && u != 0 && M1 == cfg.group.sha(A + c.B + K);
            var (s', t) := Respond(cfg, s, st, payload, ch, calls);
            && t.Fine?
            && (t.value.state.stage == Done <==> good)
            && (good ==> |t.value.sent| == 2 && !t.value.closed
                         && t.value.sent[0] == LW.Encode(LW.ServerProof(cfg.group.sha(A + M1 + K), Registry.ToHex(ch.token))))
            && (!good ==> (s', t) == (s, Fine(Turn(st, [LW.Encode(LW.ServerError)], true))))
  {
    hide LW.Decode, LW.Encode, ServerVerify, RemotePut, RemoteList, BigEndian, FromBigEndian, Pow;
    VerifiesExactly(cfg.group, st.challenge.value, A, M1);
  }

  /** What the store answers to the hello's ticket decides whether the session hears anything at all; a failing account
      database costs the ticket and is answered with the error message. */
  lemma HelloNotAnswered(cfg: Config, s: Entries, st: SessionState, payload: Bytes, ticket: Bytes, username: Bytes, ch: Chance, calls: Calls)
    requires st.stage == AwaitingHello && LW.Decode(payload) == Some(LW.ClientHello(ticket, username))
    ensures var found := RemoteTake(cfg.mac, s, ticket, calls.first).1.Some?;
            && Respond(cfg, s, st, payload, ch, calls).0 == RemoteTake(cfg.mac, s, ticket, calls.first).0
            && (!found ==> Respond(cfg, s, st, payload, ch, calls).1 == Fine(Turn(st, [], true)))
            && (found && !ch.databaseUp ==> Respond(cfg, s, st, payload, ch, calls).1 == Fine(Turn(st, [LW.Encode(LW.ServerError)], true)))
  {
    hide LW.Decode, LW.Encode, RemoteTake;
  }

  /** The salt that a hello is answered with. */
  function SaltFor(cfg: Config, username: Bytes): Bytes {
    if username in cfg.accounts then cfg.accounts[username].salt
    else cfg.enumMac(Ascii("srp6-fake-salt:") + username)[..16]
  }

  /** A hello with a live ticket is answered with a challenge whether or not the username has an account: its salt depends
      on the username alone, and it is k v + g^b for the stored verifier, or for that of a password drawn at random. */
  lemma HelloAnswered(cfg: Config, s: Entries, st: SessionState, payload: Bytes, ticket: Bytes, username: Bytes, ch: Chance, calls: Calls)
    requires st.stage == AwaitingHello && LW.Decode(payload) == Some(LW.ClientHello(ticket, username)) && ch.databaseUp
    ensures var p := cfg.group;
            var salt := SaltFor(cfg, username);
            var k := FromBigEndian(p.sha(BigEndian(p.N, 256) + BigEndian(2, 256)));
            var x := FromBigEndian(p.sha(salt + p.sha(username + [0x3A] + Registry.ToHex(ch.fakePassword))));
            var v := if username in cfg.accounts then FromBigEndian(cfg.accounts[username].verifier) else Pow(2, x) % p.N;
            var B := BigEndian((k * v + Pow(2, ch.b)) % p.N, 256);
            RemoteTake(cfg.mac, s, ticket, calls.first).1.Some? ==>
              Respond(cfg, s, st, payload, ch, calls).1
              == Fine(Turn(SessionState(AwaitingProof, username, Some(Challenge(ch.b, v, B))), [LW.Encode(LW.ServerChallenge(salt, B))], false))
  {
    hide LW.Decode, LW.Encode, RemoteTake, BigEndian, FromBigEndian, Pow, Register, ServerBegin;
    var p := cfg.group;
    var password := Registry.ToHex(ch.fakePassword);
    if username in cfg.accounts {
      BeginsExactly(p, cfg.accounts[username].verifier, ch.b);
    } else {
      var salt := FakeSalt(cfg, username);
      var x := FromBigEndian(p.sha(salt + p.sha(username + [0x3A] + password)));
      RegistersExactly(p, username, password, salt);
      InRange(p, Pow(2, x) % p.N);
      BeginsExactly(p, BigEndian(Pow(2, x) % p.N, 256), ch.b);
    }
  }

  /** The stand-in salt has the length of a real one, and two usernames without accounts share it only if the codes of
      their labels agree in the part that is used. */
  lemma StandInSalts(cfg: Config, u: Bytes, u': Bytes)
    requires u !in cfg.accounts && u' !in cfg.accounts
    ensures |SaltFor(cfg, u)| == SALT_SIZE
    ensures var l, l' := Ascii("srp6-fake-salt:") + u, Ascii("srp6-fake-salt:") + u';
            SaltFor(cfg, u) == SaltFor(cfg, u') <==> u == u' || (l != l' && cfg.enumMac(l)[..16] == cfg.enumMac(l')[..16])
  {
    var name := Ascii("srp6-fake-salt:");
    if name + u == name + u' { EqualParts(name, u, name, u'); }
  }

  // ---------------------------------------------------------------- the code

  type Address = nat

  class LoginHandler {
    const cfg: Config
    const client: StoreClient
    var states: map<Address, SessionState>

    ghost predicate Valid()
      reads this
    {
      && client.mac == cfg.mac == client.server.mac
      && forall a :: a in states ==> Ready(states[a])
    }

    constructor (cfg: Config, client: StoreClient)
      requires client.mac == cfg.mac == client.server.mac
      ensures Valid() && this.cfg == cfg && this.client == client && states == map[]
    {
      this.cfg, this.client, states := cfg, client, map[];
    }

    /** `session_state()[&session]`: looking a session up creates its state. */
    function StateOf(a: Address): SessionState
      reads this
    {
      if a in states then states[a] else FRESH
    }

    method OnMessage(clock: Clock, a: Address, payload: Bytes, ch: Chance, net1: Net, net2: Net)
      returns (t: Checked<Turn>, ghost calls: Calls)
      requires Valid() && clock as object != client.server.store && clock as object != this
      modifies this`states, client.server.store, clock
      ensures Valid()
      ensures (client.server.store.entries, t)
           == Respond(cfg, old(client.server.store.entries), old(StateOf(a)), payload, ch, calls)
      ensures TurnCalls(calls, old(client.server.store.entries), client.server.store.entries, old(clock.now), clock.now, net1, net2)
      ensures states == if LW.Decode(payload).None? then old(states)
                        else old(states)[a := if t.Fine? then t.value.state else old(StateOf(a))]
    {
      hide LW.Decode, LW.Encode, RemoteTake, RemotePut, RemoteList, ServerVerify, RegistrationFor, ServerBegin, TurnCalls, AfterTake, ProofTurn, NoCalls;
      calls := NoCalls(client.server.store.entries, clock.now, net1, net2);
      var decoded := LW.DecodeMessage(payload);
      if decoded.None? {
        t := Fine(Turn(StateOf(a), [], true));
        return;
      }
      if a !in states { states := states[a := FRESH]; }
      var st := states[a];
      if st.stage == AwaitingHello && decoded.value.ClientHello? {
        t, calls := HandleHello(clock, st, decoded.value.ticket, decoded.value.username, ch, net1, net2);
      } else if st.stage == AwaitingProof && decoded.value.ClientProof? {
        t, calls := HandleProof(clock, st, decoded.value.A, decoded.value.M1, ch, net1, net2);
      } else {
        t := Fine(Turn(st, [], true));
      }
      if t.Fine? { states := states[a := t.value.state]; }
    }

    method HandleHello(clock: Clock, st: SessionState, ticket: Bytes, username: Bytes, ch: Chance, net1: Net, ghost net2: Net)
      returns (t: Checked<Turn>, ghost calls: Calls)
      requires Valid() && clock as object != client.server.store && clock as object != this
      modifies client.server.store, clock
      ensures TurnCalls(calls, old(client.server.store.entries), client.server.store.entries, old(clock.now), clock.now, net1, net2)
      ensures var (s', found) := RemoteTake(cfg.mac, old(client.server.store.entries), ticket, calls.first);
              client.server.store.entries == s' && t == AfterTake(cfg, st, found.Some?, username, ch)
      ensures t.Fine? && Ready(st) ==> Ready(t.value.state)
    {
      hide LW.Encode, RemoteTake, RegistrationFor, ServerBegin, Genuine;
      var found;
      ghost var c;
      found, c := client.Take(clock, ticket, net1);
      calls := Calls(c, Instant(client.server.store.entries, clock.now, net2));
      if found.None? { return Fine(Turn(st, [], true)), calls; }
      if !ch.databaseUp {
        var err := LW.EncodeError();
        return Fine(Turn(st, [err], true)), calls;
      }
      var reg := RegistrationFor(cfg, username, ch.fakePassword);
      if reg.Raised? { return Raised, calls; }
      var challenge := ServerBegin(cfg.group, reg.value.verifier, ch.b);
      if challenge.Raised? { return Raised, calls; }
      var response := LW.EncodeServerChallenge(reg.value.salt, challenge.value.B);
      t := Fine(Turn(SessionState(AwaitingProof, username, Some(challenge.value)), [response], false));
    }

    /** `list_worlds` on what was listed, and the loop that turns its result into message entries. */
    static method WorldEntries(listed: seq<StoreWire.Entry>) returns (entries: seq<LW.World>)
      ensures entries == AsWorlds(Registry.Worlds(listed))
    {
      var worlds := Registry.CollectWorlds(listed);
      entries := [];
      for i := 0 to |worlds|
        invariant entries == AsWorlds(worlds[..i])
      {
        entries := entries + [AsWorld(worlds[i])];
      }
      assert worlds[..|worlds|] == worlds;
    }

    method HandleProof(clock: Clock, st: SessionState, A: Bytes, M1: Bytes, ch: Chance, net1: Net, net2: Net)
      returns (t: Checked<Turn>, ghost calls: Calls)
      requires Valid() && clock as object != client.server.store && clock as object != this
      requires st.stage == AwaitingProof && st.challenge.Some?
      modifies client.server.store, clock
      ensures (client.server.store.entries, t) == ProofTurn(cfg, old(client.server.store.entries), st, A, M1, ch, calls)
      ensures TurnCalls(calls, old(client.server.store.entries), client.server.store.entries, old(clock.now), clock.now, net1, net2)
      ensures t.Fine? ==> Ready(t.value.state)
    {
      hide LW.Encode, RemotePut, RemoteList, ServerVerify, Genuine, Enumerates, FitStore, Listable, ListOf, AsWorlds, Registry.Worlds;
      calls := NoCalls(client.server.store.entries, clock.now, net1, net2);
      var result := ServerVerify(cfg.group, st.challenge.value, A, M1);
      if result.Raised? { return Raised, calls; }
      if result.value.None? {
        var err := LW.EncodeError();
        return Fine(Turn(st, [err], true)), calls;
      }
      var token := Registry.BytesToHex(ch.token);
      var stored;
      ghost var c1, c2;
      stored, c1 := client.Put(clock, token, st.username, SESSION_TTL, net1);
      var proof := LW.EncodeServerProof(result.value.value, token);
      var listed;
      listed, c2 := client.ListPrefix(clock, Registry.WORLD_PREFIX, net2);
      calls := Calls(c1, c2);
      var entries := WorldEntries(listed);
      var list := LW.EncodeWorldList(entries);
      t := Fine(Turn(st.(stage := Done), [proof, list], false));
    }

    method OnDisconnect(a: Address)
      requires Valid()
      modifies this`states
      ensures Valid() && states == old(states) - {a} && StateOf(a) == FRESH
    {
      states := states - {a};
    }
  }
}
