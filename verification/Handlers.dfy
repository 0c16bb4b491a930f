/**
 Master's and World's message handlers (include/handlers/master_handler.hpp,
 include/handlers/world_handler.hpp) as objects, and the whole way of a client from
 its password to an authenticated World session.
 */
module Handlers {
  import opened Numerals
  import opened ByteIo
  import opened SharedStore
  import opened StoreRpc
  import opened LoginSession
  import opened Registry
  import opened TokenHop
  import HonestLogin
  import StoreWire
  import LW = LoginWire

  // ---------------------------------------------------------------- World

  datatype WorldTurn = WorldTurn(store: Entries, state: WorldState, closed: bool)

  /** `on_message` up to the dispatch of game packets. */
  function Authenticate(mac: StoreWire.Mac, s: Entries, st: WorldState, payload: Bytes, c: Moment): WorldTurn {
    if st.authenticated then WorldTurn(s, st, false) else
    var (s', found) := RemoteTake(mac, s, payload, c);
    if found.None? then WorldTurn(s', st, true) else WorldTurn(s', WorldState(true, found.value), false)
  }

  class WorldHandler {
    const client: StoreClient
    var states: map<Address, WorldState>

    ghost predicate Valid()
      reads this
    {
      client.mac == client.server.mac
    }

    constructor (client: StoreClient)
      requires client.mac == client.server.mac
      ensures Valid() && this.client == client && states == map[]
    {
      this.client, states := client, map[];
    }

    function StateOf(a: Address): WorldState
      reads this
    {
      if a in states then states[a] else STRANGER
    }

    method OnMessage(clock: Clock, a: Address, payload: Bytes, net: Net) returns (closed: bool, ghost c: Moment)
      requires Valid() && clock as object != client.server.store && clock as object != this
      modifies this`states, client.server.store, clock
      ensures Valid()
      ensures var t := Authenticate(client.mac, old(client.server.store.entries), old(StateOf(a)), payload, c);
              client.server.store.entries == t.store && states == old(states)[a := t.state] && closed == t.closed
      ensures Genuine(c, old(client.server.store.entries), old(clock.now), net) && c.now == clock.now
    {
      hide RemoteTake, Genuine;
      c := Instant(client.server.store.entries, clock.now, net);
      closed := false;
      if a !in states { states := states[a := STRANGER]; }
      if !states[a].authenticated {
        var found;
        found, c := client.Take(clock, payload, net);
        if found.None? { return true, c; }
        states := states[a := WorldState(true, found.value)];
      }
    }

    method OnDisconnect(a: Address)
      modifies this`states
      ensures states == old(states) - {a} && StateOf(a) == STRANGER
    {
      states := states - {a};
    }
  }

  /** What one message does to a session, in terms of the entries: once admitted, a session stays open and no later
      message touches its name or the store; before that, the message is a key, and it is admitted under the stored value
      when the key is live and the answer comes back, and closed in every other case. */
  lemma AuthenticatesExactly(mac: StoreWire.Mac, s: Entries, st: WorldState, payload: Bytes, c: Moment)
    requires FitStore(s) && 44 + |payload| < 0x1_0000_0000
    ensures var live := payload in s && c.now < s[payload].expires;
            var t := Authenticate(mac, s, st, payload, c);
            if st.authenticated then t == WorldTurn(s, st, false)
            else && t.store == (if live && c.net != RequestLost then s - {payload} else s)
                 && t.closed == !(live && c.net == Delivered)
                 && t.state == if live && c.net == Delivered then WorldState(true, s[payload].value) else st
  {
    hide RemoteTake, FitStore;
    RemoteTakeIsLocal(mac, s, payload, c);
  }

  /** A live token admits one session, under the stored name; whoever presents it next is refused, whatever happens
      on the network. */
  lemma TokenAdmitsOnce(mac: StoreWire.Mac, s: Entries, token: Bytes, c1: Moment, c2: Moment)
    requires FitStore(s) && 44 + |token| < 0x1_0000_0000
    requires c1.net == Delivered && Lookup(s, token, c1.now).Some?
    ensures var first := Authenticate(mac, s, STRANGER, token, c1);
            && first == WorldTurn(s - {token}, WorldState(true, s[token].value), false)
            && Authenticate(mac, first.store, STRANGER, token, c2) == WorldTurn(first.store, STRANGER, true)
  {
    hide RemoteTake, FitStore;
    RemoteTakeIsLocal(mac, s, token, c1);
    HonestLogin.SpentFits(s, token);
    RemoteTakeIsLocal(mac, s - {token}, token, c2);
  }

  /** The whole way: the token of a completed login opens World under the account's name, once. Unless the key was in
      the store before, it opens World exactly when the request to store it was not lost, although the client was told
      that it is logged in either way, and when it is presented within its 60 seconds over a network that answers. */
  lemma LoginThenWorld(cfg: Config, s: Entries, who: HonestLogin.Client, ch: Chance, take: Moment, calls: Calls, c1: Moment, c2: Moment)
    requires FitStore(s) && HonestLogin.HasAccount(cfg, who)
    requires |who.ticket| == 2 * TOKEN_BYTES && |ch.token| == TOKEN_BYTES && ch.databaseUp
    requires 38 + |who.username| < 0x1_0000_0000
    ensures var end := HonestLogin.Conversation(cfg, s, who, ch, take, calls);
            end.Some? ==>
              var f := end.value;
              var first := Authenticate(cfg.mac, f.store, STRANGER, f.token, c1);
              var inTime := c1.net == Delivered && c1.now < calls.first.now + 60 * 1_000_000_000;
              && (calls.first.net != RequestLost ==> (first.state.authenticated <==> inTime))
              && (f.token !in s ==> (first.state.authenticated <==> calls.first.net != RequestLost && inTime))
              && (first.state.authenticated && (calls.first.net != RequestLost || f.token !in s) ==> first.state.username == who.username)
              && (first.state.authenticated ==> Authenticate(cfg.mac, first.store, STRANGER, f.token, c2).closed)
  {
    hide HonestLogin.Conversation, RemoteTake, FitStore, HonestLogin.HasAccount, HonestLogin.Unlucky;
    HonestLogin.HonestLogin(cfg, s, who, ch, take, calls);
    var end := HonestLogin.Conversation(cfg, s, who, ch, take, calls);
    if end.Some? {
      var f := end.value;
      if calls.first.net == RequestLost {
        HonestLogin.SpentFits(s, who.ticket);
      } else {
        HonestLogin.TokenFits(s, who.ticket, f.token, who.username, calls.first.now);
      }
      RemoteTakeIsLocal(cfg.mac, f.store, f.token, c1);
      if Authenticate(cfg.mac, f.store, STRANGER, f.token, c1).state.authenticated {
        TokenAdmitsOnce(cfg.mac, f.store, f.token, c1, c2);
      }
    }
  }

  // ---------------------------------------------------------------- Master

  class MasterHandler {
    const store: Store

    constructor (store: Store)
      ensures this.store == store
    {
      this.store := store;
    }

    /** Any message: redirect to the first live Login with a fresh ticket, or answer the error code. */
    method OnMessage(clock: Clock, random: Bytes) returns (reply: Bytes, ghost listed: seq<StoreWire.Entry>, ghost at: Readings)
      requires clock as object != store && |random| == TOKEN_BYTES
      modifies store, clock
      ensures Within(at, old(clock.now), clock.now)
      ensures Enumerates(listed, ListOf(old(store.entries), LOGIN_PREFIX, at))
      ensures match PickLogin(listed)
              case None => reply == EncU16(LW.ERROR_CODE) && store.entries == old(store.entries)
              case Some(i) => && reply == LW.EncodeRedirect(LW.Redirect(ToHex(random), i.host, i.port))
                              && store.entries == PutIn(old(store.entries), ToHex(random), [], TICKET_TTL, clock.now)
    {
      hide DecodeLogin, LW.EncodeRedirect, Enumerates, ListOf, ToHex;
      var entries;
      entries, at := store.ListPrefix(clock, LOGIN_PREFIX);
      listed := entries;
      var login := if entries == [] then None else DecodeLogin(entries[0].value);
      if login.None? {
        reply := EncU16(LW.ERROR_CODE);
        return;
      }
      var ticket := BytesToHex(random);
      store.Put(clock, ticket, [], TICKET_TTL);
      reply := LW.EncodeRedirection(ticket, login.value.host, login.value.port);
    }
  }

  /** Master's turn and the heartbeats are single steps of the interleaved system: a message answered with a redirection
      stores its ticket for 30 seconds and one answered with the error code nothing, and a heartbeat is the remote put of
      the registration for 15 seconds. */
  lemma StoreStepsInSystem(cfg: Config, s: Sys, random: Bytes, listed: seq<StoreWire.Entry>, at: Readings, now: Time,
                           host: Bytes, name: Bytes, population: U32, c: Moment)
    requires |random| == TOKEN_BYTES && |host| < 0x1_0000 && |name| < 0x1_0000
    ensures Enumerates(listed, ListOf(s.vault.entries, LOGIN_PREFIX, at)) ==>
              var t := Step(cfg, s, MasterMessage(random, listed, at, now));
              && t.Some? && t.value == s.(vault := t.value.vault)
              && t.value.vault.entries
              == if PickLogin(listed).None? then s.vault.entries else PutIn(s.vault.entries, ToHex(random), [], 30, now)
    ensures var t := Step(cfg, s, BeatLogin(host, c));
            && t.Some? && t.value == s.(vault := t.value.vault)
            && t.value.vault.entries
            == RemotePut(cfg.mac, s.vault.entries, LoginKey(host), EncodeLogin(LoginInfo(host, 3726)), 15, c).0
    ensures var t := Step(cfg, s, BeatWorld(host, name, population, c));
            && t.Some? && t.value == s.(vault := t.value.vault)
            && t.value.vault.entries
            == RemotePut(cfg.mac, s.vault.entries, WorldKey(host), EncodeWorld(WorldInfo(host, 8085, name, population)), 15, c).0
  {
    hide RemotePut, EncodeLogin, EncodeWorld, LoginKey, WorldKey, ToHex, PickLogin, Enumerates, ListOf, RemotePutIn;
    RegistrationSizes(host, name, population);
    PutsAreRemote(cfg.mac, s.vault, LoginKey(host), EncodeLogin(LoginInfo(host, 3726)), Beat, 15, c);
    PutsAreRemote(cfg.mac, s.vault, WorldKey(host), EncodeWorld(WorldInfo(host, 8085, name, population)), Beat, 15, c);
  }

  lemma RegistrationSizes(host: Bytes, name: Bytes, population: U32)
    requires |host| < 0x1_0000 && |name| < 0x1_0000
    ensures |LoginKey(host)| == |WorldKey(host)| == 20 + |host|
    ensures |EncodeLogin(LoginInfo(host, 3726))| == 4 + |host|
    ensures |EncodeWorld(WorldInfo(host, 8085, name, population))| == 10 + |host| + |name|
  {
    hide EncodeLogin, EncodeWorld;
    Layouts(LoginInfo(host, 3726), WorldInfo(host, 8085, name, population));
  }
}
