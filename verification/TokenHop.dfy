/**
 The hop Master -> Login -> World as one interleaved system: Master issuing tickets
 (include/handlers/master_handler.hpp), Login sessions
 (include/handlers/login_handler.hpp), World sessions
 (include/handlers/world_handler.hpp), the heartbeats of the registry
 (include/registry/world_registry.hpp, src/main.cpp) and the sweeper, all on one
 shared store whose calls may lose their request or their reply.

 A coroutine runs undisturbed between two waits, so a step is what a session does
 between two waits, or what the store does for one call. Session state lives in
 per-thread tables keyed by the session's address, and addresses are reused.
 */
module TokenHop {
  import opened Numerals
  import opened ByteIo
  import opened Srp6
  import opened SharedStore
  import opened StoreRpc
  import opened LoginSession
  import opened Registry
  import StoreWire
  import LW = LoginWire

  const TICKET_TTL := 30
  const BEAT_TTL := 15

  type Sid = nat

  // ---------------------------------------------------------------- the store and its history

  /** Who wrote an entry. A session token carries the exchange that earned it. */
  datatype Origin = Ticket | Token(sid: Sid, username: Bytes, challenge: Challenge, A: Bytes, M1: Bytes) | Beat

  datatype PutEvent = PutEvent(key: Bytes, value: Bytes, origin: Origin)

  /** A successful take: the put whose entry it removed, and the session that asked. */
  datatype TakeEvent = TakeEvent(put: nat, sid: Sid)

  /** The store, the put that wrote each present entry, and the puts and successful takes so far. */
  datatype Vault = Vault(entries: Entries, tags: map<Bytes, nat>, puts: seq<PutEvent>, takes: seq<TakeEvent>)

  function DoPut(v: Vault, key: Bytes, value: Bytes, origin: Origin, ttl: nat, now: Time): Vault {
    Vault(PutIn(v.entries, key, value, ttl, now), v.tags[key := |v.puts|], v.puts + [PutEvent(key, value, origin)], v.takes)
  }

  function RemotePutIn(v: Vault, key: Bytes, value: Bytes, origin: Origin, ttl: nat, c: Moment): Vault {
    if PutArrives(key, value, c) then DoPut(v, key, value, origin, ttl, c.now) else v
  }

  predicate TakeSucceeds(v: Vault, key: Bytes, c: Moment) {
    c.net != RequestLost && Lookup(v.entries, key, c.now).Some? && key in v.tags
  }

  function DoTake(v: Vault, key: Bytes, sid: Sid, c: Moment): Vault {
    if !TakeSucceeds(v, key, c) then v
    else Vault(TakeFrom(v.entries, key, c.now), v.tags - {key}, v.puts, v.takes + [TakeEvent(v.tags[key], sid)])
  }

  function DoSweep(v: Vault, at: Readings): Vault {
    var kept := SweepOf(v.entries, at);
    v.(entries := kept, tags := map k | k in v.tags && k in kept :: v.tags[k])
  }

  // ---------------------------------------------------------------- sessions

  datatype Kind = Login | World

  /** Where a session's coroutine stands: reading, waiting for the store, holding the store's answer, or over. */
  datatype Pc =
    | Reading
    | HelloSent(ticket: Bytes, username: Bytes)
    | HelloBack(username: Bytes, found: bool)
    | ProofSent(A: Bytes, M1: Bytes)
    | ProofStored
    | AuthSent(token: Bytes)
    | AuthBack(answer: Option<Bytes>)
    | Ended
    | Disconnected

  /** `own` is the take whose answer the session received, if any. */
  datatype Session = Session(kind: Kind, sid: Sid, thread: nat, pc: Pc, open: bool, own: Option<nat>)

  datatype Place = Place(thread: nat, addr: Address)

  datatype WorldState = WorldState(authenticated: bool, username: Bytes)

  const STRANGER := WorldState(false, [])

  datatype Sys = Sys(
    vault: Vault,
    sessions: map<Address, Session>,
    logins: map<Place, SessionState>,
    worlds: map<Place, WorldState>,
    nextSid: Sid)

  const START := Sys(Vault(map[], map[], [], []), map[], map[], map[], 0)

  function PlaceOf(s: Sys, a: Address): Place
    requires a in s.sessions
  {
    Place(s.sessions[a].thread, a)
  }

  /** `session_state()[&session]`. */
  function LoginAt(s: Sys, p: Place): SessionState { if p in s.logins then s.logins[p] else FRESH }

  function WorldAt(s: Sys, p: Place): WorldState { if p in s.worlds then s.worlds[p] else STRANGER }

  predicate IsAt(s: Sys, a: Address, kind: Kind) { a in s.sessions && s.sessions[a].kind == kind }

  function Move(s: Sys, a: Address, pc: Pc): Sys
    requires a in s.sessions
  {
    s.(sessions := s.sessions[a := s.sessions[a].(pc := pc)])
  }

  function Shut(s: Sys, a: Address): Sys
    requires a in s.sessions
  {
    s.(sessions := s.sessions[a := s.sessions[a].(pc := Reading, open := false)])
  }

  // ---------------------------------------------------------------- steps

  datatype Label =
    | MasterMessage(random: Bytes, listed: seq<StoreWire.Entry>, at: Readings, now: Time)
    | BeatLogin(host: Bytes, c: Moment)
    | BeatWorld(host: Bytes, name: Bytes, population: U32, c: Moment)
    | Sweep(at: Readings)
    | Connect(kind: Kind, addr: Address, thread: nat)
    | LoginMessage(addr: Address, payload: Bytes)
    | LoginTake(addr: Address, c: Moment)
    | LoginResume(addr: Address, chance: Chance)
    | LoginPut(addr: Address, random: Bytes, c: Moment)
    | LoginFinish(addr: Address)
    | WorldMessage(addr: Address, payload: Bytes)
    | WorldTake(addr: Address, c: Moment)
    | WorldResume(addr: Address)
    | End(addr: Address)         // read error, idle timeout, or a handler threw
    | Disconnect(addr: Address)  // on_disconnect
    | Free(addr: Address)        // the session object is destroyed

  /** Steps that involve no session. */
  ghost function StoreStep(s: Sys, l: Label): Option<Sys> {
    match l
    case MasterMessage(random, listed, at, now) =>
      if |random| != TOKEN_BYTES || !Enumerates(listed, ListOf(s.vault.entries, LOGIN_PREFIX, at)) then None
      else if PickLogin(listed).None? then Some(s)
      else Some(s.(vault := DoPut(s.vault, ToHex(random), [], Ticket, TICKET_TTL, now)))
    case BeatLogin(host, c) =>
      Some(s.(vault := RemotePutIn(s.vault, LoginKey(host), EncodeLogin(LoginInfo(host, LOGIN_PORT)), Beat, BEAT_TTL, c)))
    case BeatWorld(host, name, population, c) =>
      Some(s.(vault := RemotePutIn(s.vault, WorldKey(host), EncodeWorld(WorldInfo(host, WORLD_PORT, name, population)), Beat, BEAT_TTL, c)))
    case Sweep(at) => Some(s.(vault := DoSweep(s.vault, at)))
    case _ => None
  }

  function LifeStep(s: Sys, l: Label): Option<Sys> {
    match l
    case Connect(kind, a, thread) =>
      if a in s.sessions then None
      else Some(s.(sessions := s.sessions[a := Session(kind, s.nextSid, thread, Reading, true, None)], nextSid := s.nextSid + 1))
    case End(a) =>
      if a !in s.sessions || s.sessions[a].pc.Disconnected? then None else Some(Move(s, a, Ended))
    case Disconnect(a) =>
      if a !in s.sessions || !s.sessions[a].pc.Ended? then None
      else
        var p := PlaceOf(s, a);
        var s' := Move(s, a, Disconnected);
        Some(if s.sessions[a].kind == Login then s'.(logins := s.logins - {p}) else s'.(worlds := s.worlds - {p}))
    case Free(a) =>
      if a !in s.sessions || !s.sessions[a].pc.Disconnected? then None else Some(s.(sessions := s.sessions - {a}))
    case _ => None
  }

  /** The session's take is executed by the store; its answer comes back only when the reply does. */
  function TakeStep(s: Sys, a: Address, key: Bytes, c: Moment, back: Option<Bytes> -> Pc): Sys
    requires a in s.sessions
  {
    var x := s.sessions[a];
    var got := c.net == Delivered && TakeSucceeds(s.vault, key, c);
    var answer := if got then Lookup(s.vault.entries, key, c.now) else None;
    s.(vault := DoTake(s.vault, key, x.sid, c),
       sessions := s.sessions[a := x.(pc := back(answer), own := if got then Some(|s.vault.takes|) else x.own)])
  }

  function LoginStep(cfg: Config, s: Sys, l: Label): Option<Sys> {
    match l
    case LoginMessage(a, payload) =>
      if !IsAt(s, a, Login) || s.sessions[a].pc != Reading || !s.sessions[a].open then None
      else OnLoginMessage(cfg, s, a, payload)
    case LoginTake(a, c) =>
      if !IsAt(s, a, Login) || !s.sessions[a].pc.HelloSent? then None
      else
        var username := s.sessions[a].pc.username;
        Some(TakeStep(s, a, s.sessions[a].pc.ticket, c, (v: Option<Bytes>) => HelloBack(username, v.Some?)))
    case LoginResume(a, ch) =>
      if !IsAt(s, a, Login) || !s.sessions[a].pc.HelloBack? then None
      else
        var p := PlaceOf(s, a);
        var pc := s.sessions[a].pc;
        var turn := AfterTake(cfg, LoginAt(s, p), pc.found, pc.username, ch);
        if turn.Raised? then Some(Move(s, a, Ended))
        else
          var s' := if turn.value.closed then Shut(s, a) else Move(s, a, Reading);
          Some(s'.(logins := s.logins[p := turn.value.state]))
    case LoginPut(a, random, c) =>
      if !IsAt(s, a, Login) || !s.sessions[a].pc.ProofSent? || |random| != TOKEN_BYTES then None
      else
        var x := s.sessions[a];
        var st := LoginAt(s, PlaceOf(s, a));
        if st.challenge.None? then None
        else
          var origin := Token(x.sid, st.username, st.challenge.value, x.pc.A, x.pc.M1);
          Some(Move(s, a, ProofStored).(vault := RemotePutIn(s.vault, ToHex(random), st.username, origin, SESSION_TTL, c)))
    case LoginFinish(a) =>
      if !IsAt(s, a, Login) || !s.sessions[a].pc.ProofStored? then None
      else
        var p := PlaceOf(s, a);
        Some(Move(s, a, Reading).(logins := s.logins[p := LoginAt(s, p).(stage := Done)]))
    case _ => None
  }

  function OnLoginMessage(cfg: Config, s: Sys, a: Address, payload: Bytes): Option<Sys>
    requires a in s.sessions
  {
    var p := PlaceOf(s, a);
    var st := LoginAt(s, p);
    var seen := s.(logins := s.logins[p := st]);
    match Dispatch(st, payload)
    case CloseUnread => Some(Shut(s, a))
    case Close => Some(Shut(seen, a))
    case Hello(ticket, username) => Some(Move(seen, a, HelloSent(ticket, username)))
    case Proof(A, M1) =>
      if st.challenge.None? then None
      else match CheckProof(cfg, st, A, M1)
      case Raised => Some(Move(seen, a, Ended))
      case Fine(None) => Some(Shut(seen, a))
      case Fine(Some(_)) => Some(Move(seen, a, ProofSent(A, M1)))
  }

  function WorldStep(s: Sys, l: Label): Option<Sys> {
    match l
    case WorldMessage(a, payload) =>
      if !IsAt(s, a, World) || s.sessions[a].pc != Reading || !s.sessions[a].open then None
      else
        var p := PlaceOf(s, a);
        var st := WorldAt(s, p);
        var seen := s.(worlds := s.worlds[p := st]);
        Some(if st.authenticated then seen else Move(seen, a, AuthSent(payload)))
    case WorldTake(a, c) =>
      if !IsAt(s, a, World) || !s.sessions[a].pc.AuthSent? then None
      else Some(TakeStep(s, a, s.sessions[a].pc.token, c, (v: Option<Bytes>) => AuthBack(v)))
    case WorldResume(a) =>
      if !IsAt(s, a, World) || !s.sessions[a].pc.AuthBack? then None
      else
        var answer := s.sessions[a].pc.answer;
        if answer.None? then Some(Shut(s, a))
        else Some(Move(s, a, Reading).(worlds := s.worlds[PlaceOf(s, a) := WorldState(true, answer.value)]))
    case _ => None
  }

  ghost function Step(cfg: Config, s: Sys, l: Label): Option<Sys> {
    if l.MasterMessage? || l.BeatLogin? || l.BeatWorld? || l.Sweep? then StoreStep(s, l)
    else if l.Connect? || l.End? || l.Disconnect? || l.Free? then LifeStep(s, l)
    else if l.WorldMessage? || l.WorldTake? || l.WorldResume? then WorldStep(s, l)
    else LoginStep(cfg, s, l)
  }

  ghost function Exec(cfg: Config, s: Sys, ls: seq<Label>): Option<Sys>
    decreases |ls|
  {
    if ls == [] then Some(s) else
    var s' :- Step(cfg, s, ls[0]);
    Exec(cfg, s', ls[1..])
  }

  // ---------------------------------------------------------------- the store's invariant

  /** Every entry remembers its put; no put is consumed twice, and none that is consumed is still present. */
  predicate VaultInv(v: Vault) {
    && v.tags.Keys == v.entries.Keys
    && (forall k :: k in v.tags ==>
          v.tags[k] < |v.puts| && v.puts[v.tags[k]].key == k && v.puts[v.tags[k]].value == v.entries[k].value)
    && (forall i :: 0 <= i < |v.takes| ==> v.takes[i].put < |v.puts|)
    && (forall i, j :: 0 <= i < j < |v.takes| ==> v.takes[i].put != v.takes[j].put)
    && (forall i, k :: 0 <= i < |v.takes| && k in v.tags ==> v.takes[i].put != v.tags[k])
  }

  predicate Extends(v: Vault, w: Vault) { v.puts <= w.puts && v.takes <= w.takes }

  lemma PutKeeps(v: Vault, key: Bytes, value: Bytes, origin: Origin, ttl: nat, now: Time)
    requires VaultInv(v)
    ensures VaultInv(DoPut(v, key, value, origin, ttl, now)) && Extends(v, DoPut(v, key, value, origin, ttl, now))
  {}

  lemma TakeKeeps(v: Vault, key: Bytes, sid: Sid, c: Moment)
    requires VaultInv(v)
    ensures VaultInv(DoTake(v, key, sid, c)) && Extends(v, DoTake(v, key, sid, c))
    ensures TakeSucceeds(v, key, c) <==> c.net != RequestLost && Lookup(v.entries, key, c.now).Some?
    ensures TakeSucceeds(v, key, c) ==>
              var w := DoTake(v, key, sid, c);
              var e := w.takes[|v.takes|];
              && e.sid == sid && e.put < |w.puts|
              && w.puts[e.put].key == key && Lookup(v.entries, key, c.now) == Some(w.puts[e.put].value)
  {
    if TakeSucceeds(v, key, c) {
      var w := DoTake(v, key, sid, c);
      assert w.tags.Keys == v.tags.Keys - {key} && w.entries.Keys == v.entries.Keys - {key};
    }
  }

  lemma SweepKeeps(v: Vault, at: Readings)
    requires VaultInv(v)
    ensures VaultInv(DoSweep(v, at)) && Extends(v, DoSweep(v, at))
    ensures forall k :: k in DoSweep(v, at).entries <==> k in v.entries && at(k) < v.entries[k].expires
  {}

  // ---------------------------------------------------------------- the sessions' invariant

  /** The challenge was made from the account's verifier, when the account exists. */
  predicate Issued(cfg: Config, username: Bytes, c: Challenge) {
    username in cfg.accounts ==> c.v == BnFromBytes(cfg.accounts[username].verifier)
  }

  predicate Accepted(cfg: Config, c: Challenge, A: Bytes, M1: Bytes) {
    var r := ServerVerify(cfg.group, c, A, M1);
    r.Fine? && r.value.Some?
  }

  /** What each of the writers puts: Master a token that names nobody, Login a token for a username whose challenge the
      client had answered correctly, a heartbeat a registration. */
  predicate Rightful(cfg: Config, e: PutEvent) {
    match e.origin
    case Ticket => IsToken(e.key) && e.value == []
    case Token(_, username, challenge, A, M1) =>
      IsToken(e.key) && e.value == username && Issued(cfg, username, challenge) && Accepted(cfg, challenge, A, M1)
    case Beat => LoginEntry(e.key, e.value) || WorldEntry(e.key, e.value)
  }

  predicate PutsInv(cfg: Config, puts: seq<PutEvent>) {
    forall i :: 0 <= i < |puts| ==> Rightful(cfg, puts[i])
  }

  predicate LoginOk(cfg: Config, st: SessionState) {
    st.stage == AwaitingProof ==> st.challenge.Some? && Issued(cfg, st.username, st.challenge.value)
  }

  /** The take that the session owns. */
  predicate OwnOk(v: Vault, x: Session) {
    x.own.Some? ==> x.own.value < |v.takes| && v.takes[x.own.value].sid == x.sid && v.takes[x.own.value].put < |v.puts|
  }

  /** It owns a take, and that take consumed an entry with this value. */
  predicate OwnsValue(v: Vault, x: Session, value: Bytes) {
    x.own.Some? && OwnOk(v, x) && v.puts[v.takes[x.own.value].put].value == value
  }

  predicate LoginSessionOk(cfg: Config, x: Session, st: SessionState) {
    && LoginOk(cfg, st)
    && (st.stage != AwaitingHello || (x.pc.HelloBack? && x.pc.found) ==> x.own.Some?)
    && (x.pc.ProofSent? || x.pc.ProofStored? ==> st.stage == AwaitingProof)
    && (x.pc.ProofSent? ==> Accepted(cfg, st.challenge.value, x.pc.A, x.pc.M1))
  }

  predicate WorldSessionOk(v: Vault, x: Session, st: WorldState) {
    && (x.pc.AuthSent? || x.pc.AuthBack? ==> !st.authenticated)
    && (st.authenticated ==> OwnsValue(v, x, st.username))
    && (x.pc.AuthBack? && x.pc.answer.Some? ==> OwnsValue(v, x, x.pc.answer.value))
  }

  predicate SessionOk(cfg: Config, s: Sys, a: Address)
    requires a in s.sessions
  {
    var x := s.sessions[a];
    && x.sid < s.nextSid
    && OwnOk(s.vault, x)
    && (x.kind == Login ==> LoginSessionOk(cfg, x, LoginAt(s, PlaceOf(s, a))))
    && (x.kind == World ==> WorldSessionOk(s.vault, x, WorldAt(s, PlaceOf(s, a))))
  }

  /** The address-keyed tables hold only sessions that have not disconnected. */
  predicate TableEntryOk(s: Sys, p: Place, kind: Kind) {
    IsAt(s, p.addr, kind) && s.sessions[p.addr].thread == p.thread && !s.sessions[p.addr].pc.Disconnected?
  }

  predicate TablesOk(s: Sys) {
    && (forall p :: p in s.logins ==> TableEntryOk(s, p, Login))
    && (forall p :: p in s.worlds ==> TableEntryOk(s, p, World))
  }

  predicate SidsDistinct(s: Sys) {
    forall a, b :: a in s.sessions && b in s.sessions && a != b ==> s.sessions[a].sid != s.sessions[b].sid
  }

  predicate Inv(cfg: Config, s: Sys) {
    && VaultInv(s.vault) && Clean(s.vault.entries) && FitStore(s.vault.entries) && PutsInv(cfg, s.vault.puts)
    && TablesOk(s) && SidsDistinct(s)
    && (forall a :: a in s.sessions ==> SessionOk(cfg, s, a))
  }

  // ---------------------------------------------------------------- preservation: the store

  lemma FitAndClean(v: Vault, key: Bytes, value: Bytes, origin: Origin, ttl: nat, now: Time)
    requires FitStore(v.entries) && Clean(v.entries) && |key| + |value| <= ROOM
    requires IsToken(key) || LoginEntry(key, value) || WorldEntry(key, value)
    ensures FitStore(DoPut(v, key, value, origin, ttl, now).entries) && Clean(DoPut(v, key, value, origin, ttl, now).entries)
  {}

  lemma TokensAreTokens(random: Bytes)
    requires |random| == TOKEN_BYTES
    ensures IsToken(ToHex(random)) && |ToHex(random)| == 32
  {
    HexDigits(random);
  }

  lemma BeatsAreEntries(host: Bytes, name: Bytes, population: U32)
    ensures |host| < 0x1_0000 ==> LoginEntry(LoginKey(host), EncodeLogin(LoginInfo(host, LOGIN_PORT)))
    ensures |host| < 0x1_0000 && |name| < 0x1_0000 ==>
              WorldEntry(WorldKey(host), EncodeWorld(WorldInfo(host, WORLD_PORT, name, population)))
    ensures |host| <= |LoginKey(host)| && |host| <= |WorldKey(host)|
    ensures |name| <= |EncodeWorld(WorldInfo(host, WORLD_PORT, name, population))|
  {
    hide DecodeLogin, DecodeWorld, ReadU16, EncU16, EncU32;
    LoginInfoRoundTrip(LoginInfo(host, LOGIN_PORT));
    WorldInfoRoundTrip(WorldInfo(host, WORLD_PORT, name, population));
  }

  /** What a step may do to the store. */
  predicate StoreKept(cfg: Config, v: Vault, w: Vault) {
    VaultInv(w) && Clean(w.entries) && FitStore(w.entries) && PutsInv(cfg, w.puts) && Extends(v, w)
  }

  lemma PutStoreKept(cfg: Config, v: Vault, key: Bytes, value: Bytes, origin: Origin, ttl: nat, now: Time)
    requires VaultInv(v) && FitStore(v.entries) && Clean(v.entries) && PutsInv(cfg, v.puts)
    ensures && |key| + |value| <= ROOM && (IsToken(key) || LoginEntry(key, value) || WorldEntry(key, value))
            && Rightful(cfg, PutEvent(key, value, origin))
            ==> StoreKept(cfg, v, DoPut(v, key, value, origin, ttl, now))
  {
    hide IsToken, LoginEntry, WorldEntry, VaultInv, Clean, FitStore, Rightful;
    if && |key| + |value| <= ROOM && (IsToken(key) || LoginEntry(key, value) || WorldEntry(key, value))
       && Rightful(cfg, PutEvent(key, value, origin)) {
      PutKeeps(v, key, value, origin, ttl, now);
      FitAndClean(v, key, value, origin, ttl, now);
    }
  }

  lemma TakeStoreKept(cfg: Config, v: Vault, key: Bytes, sid: Sid, c: Moment)
    requires VaultInv(v) && FitStore(v.entries) && Clean(v.entries) && PutsInv(cfg, v.puts)
    ensures StoreKept(cfg, v, DoTake(v, key, sid, c))
  {
    hide IsToken, LoginEntry, WorldEntry, VaultInv, Rightful;
    TakeKeeps(v, key, sid, c);
  }

  lemma SweepStoreKept(cfg: Config, v: Vault, at: Readings)
    requires VaultInv(v) && FitStore(v.entries) && Clean(v.entries) && PutsInv(cfg, v.puts)
    ensures StoreKept(cfg, v, DoSweep(v, at))
  {
    hide IsToken, LoginEntry, WorldEntry, VaultInv, Rightful;
    SweepKeeps(v, at);
  }

  lemma StoreStepKeeps(cfg: Config, s: Sys, l: Label)
    requires StoreKept(cfg, s.vault, s.vault) && StoreStep(s, l).Some?
    ensures StoreKept(cfg, s.vault, StoreStep(s, l).value.vault)
    ensures StoreStep(s, l).value == s.(vault := StoreStep(s, l).value.vault)
  {
    hide EncodeLogin, EncodeWorld, LoginKey, WorldKey, ToHex, VaultInv, Clean, FitStore, IsToken, LoginEntry, WorldEntry, DoPut, DoSweep, Enumerates, ListOf, PickLogin;
    var v := s.vault;
    match l {
      case MasterMessage(random, _, _, now) =>
        TokensAreTokens(random);
        PutStoreKept(cfg, v, ToHex(random), [], Ticket, TICKET_TTL, now);
      case BeatLogin(host, c) =>
        var key, value := LoginKey(host), EncodeLogin(LoginInfo(host, LOGIN_PORT));
        BeatsAreEntries(host, [], 0);
        if PutArrives(key, value, c) { PutStoreKept(cfg, v, key, value, Beat, BEAT_TTL, c.now); }
      case BeatWorld(host, name, population, c) =>
        var key, value := WorldKey(host), EncodeWorld(WorldInfo(host, WORLD_PORT, name, population));
        BeatsAreEntries(host, name, population);
        if PutArrives(key, value, c) { PutStoreKept(cfg, v, key, value, Beat, BEAT_TTL, c.now); }
      case Sweep(at) => SweepStoreKept(cfg, v, at);
    }
  }

  lemma WorldStepKeeps(cfg: Config, s: Sys, l: Label)
    requires StoreKept(cfg, s.vault, s.vault) && WorldStep(s, l).Some?
    ensures StoreKept(cfg, s.vault, WorldStep(s, l).value.vault)
  {
    hide VaultInv, Clean, FitStore, DoTake, PutsInv;
    if l.WorldTake? { TakeStoreKept(cfg, s.vault, s.sessions[l.addr].pc.token, s.sessions[l.addr].sid, l.c); }
  }

  lemma LoginStepKeeps(cfg: Config, s: Sys, l: Label)
    requires StoreKept(cfg, s.vault, s.vault) && LoginStep(cfg, s, l).Some?
    requires l.LoginPut? && l.addr in s.sessions ==> SessionOk(cfg, s, l.addr)
    ensures StoreKept(cfg, s.vault, LoginStep(cfg, s, l).value.vault)
  {
    hide Dispatch, CheckProof, AfterTake, ToHex, VaultInv, Clean, FitStore, IsToken, LoginEntry, WorldEntry, Accepted, Issued, DoPut, DoTake, PutsInv;
    if l.LoginTake? {
      TakeStoreKept(cfg, s.vault, s.sessions[l.addr].pc.ticket, s.sessions[l.addr].sid, l.c);
    } else if l.LoginPut? {
      var x := s.sessions[l.addr];
      var st := LoginAt(s, PlaceOf(s, l.addr));
      var origin := Token(x.sid, st.username, st.challenge.value, x.pc.A, x.pc.M1);
      TokensAreTokens(l.random);
      if PutArrives(ToHex(l.random), st.username, l.c) {
        PutStoreKept(cfg, s.vault, ToHex(l.random), st.username, origin, SESSION_TTL, l.c.now);
      }
    }
  }

  // ---------------------------------------------------------------- preservation: the sessions

  /** A session that does not move, in a store whose history only grew. */
  lemma StaysOk(cfg: Config, s: Sys, s': Sys, b: Address)
    requires b in s.sessions && b in s'.sessions && s'.sessions[b] == s.sessions[b] && SessionOk(cfg, s, b)
    requires LoginAt(s', PlaceOf(s, b)) == LoginAt(s, PlaceOf(s, b)) && WorldAt(s', PlaceOf(s, b)) == WorldAt(s, PlaceOf(s, b))
    requires Extends(s.vault, s'.vault) && s.nextSid <= s'.nextSid
    ensures SessionOk(cfg, s', b)
  {}

  /** The address whose session a label moves. */
  function Actor(l: Label): Option<Address> {
    if l.MasterMessage? || l.BeatLogin? || l.BeatWorld? || l.Sweep? then None else Some(l.addr)
  }

  /** Nothing of another session is touched. */
  ghost predicate OthersSame(s: Sys, s': Sys, a: Address) {
    && s.sessions.Keys - {a} == s'.sessions.Keys - {a}
    && (forall b :: b in s.sessions && b != a ==> b in s'.sessions && s'.sessions[b] == s.sessions[b])
    && (forall p: Place :: p.addr != a ==> (p in s.logins <==> p in s'.logins) && (p in s.worlds <==> p in s'.worlds))
    && (forall p: Place :: p.addr != a && p in s.logins ==> s'.logins[p] == s.logins[p])
    && (forall p: Place :: p.addr != a && p in s.worlds ==> s'.worlds[p] == s.worlds[p])
  }

  /** The session that moves is in order afterwards, under its own identity, and so are its table entries. */
  ghost predicate ActorOk(cfg: Config, s: Sys, s': Sys, a: Address) {
    && s.nextSid <= s'.nextSid
    && (a in s'.sessions ==>
          && SessionOk(cfg, s', a)
          && (if a in s.sessions then s'.sessions[a].sid == s.sessions[a].sid else s'.sessions[a].sid == s.nextSid < s'.nextSid))
    && (forall p: Place :: p.addr == a && p in s'.logins ==> TableEntryOk(s', p, Login))
    && (forall p: Place :: p.addr == a && p in s'.worlds ==> TableEntryOk(s', p, World))
  }

  /** The answer that comes back is the value of the put that the take consumed. */
  lemma TakeStepOk(s: Sys, a: Address, key: Bytes, c: Moment, back: Option<Bytes> -> Pc)
    requires a in s.sessions && VaultInv(s.vault) && OwnOk(s.vault, s.sessions[a])
    ensures var s' := TakeStep(s, a, key, c, back);
            var x, x' := s.sessions[a], s'.sessions[a];
            && s' == s.(vault := s'.vault, sessions := s.sessions[a := x'])
            && OwnOk(s'.vault, x') && Extends(s.vault, s'.vault) && (x.own.Some? ==> x'.own.Some?)
            && x' == x.(pc := x'.pc, own := x'.own)
            && exists answer :: x'.pc == back(answer) && (answer.Some? ==> OwnsValue(s'.vault, x', answer.value))
  {}

  /** The shape of every step of a session's coroutine: the store, this session, and at most its own table entry. */
  function Rebuild(s: Sys, a: Address, v: Vault, x: Session, lo: Option<SessionState>, wo: Option<WorldState>): Sys {
    var p := Place(x.thread, a);
    s.(vault := v,
       sessions := s.sessions[a := x],
       logins := if lo.Some? then s.logins[p := lo.value] else s.logins,
       worlds := if wo.Some? then s.worlds[p := wo.value] else s.worlds)
  }

  /** The state the session has after such a step. */
  function NextLogin(s: Sys, p: Place, lo: Option<SessionState>): SessionState {
    if lo.Some? then lo.value else LoginAt(s, p)
  }

  function NextWorld(s: Sys, p: Place, wo: Option<WorldState>): WorldState {
    if wo.Some? then wo.value else WorldAt(s, p)
  }

  lemma RebuildOk(cfg: Config, s: Sys, a: Address, v: Vault, x: Session, lo: Option<SessionState>, wo: Option<WorldState>)
    requires TablesOk(s) && a in s.sessions && s.sessions[a].sid < s.nextSid
    requires x == s.sessions[a].(pc := x.pc, open := x.open, own := x.own) && !x.pc.Disconnected? && OwnOk(v, x)
    requires x.kind == Login ==> wo.None? && LoginSessionOk(cfg, x, NextLogin(s, Place(x.thread, a), lo))
    requires x.kind == World ==> lo.None? && WorldSessionOk(v, x, NextWorld(s, Place(x.thread, a), wo))
    ensures OthersSame(s, Rebuild(s, a, v, x, lo, wo), a) && ActorOk(cfg, s, Rebuild(s, a, v, x, lo, wo), a)
  {
    hide OthersSame, LoginSessionOk, WorldSessionOk, OwnOk, TablesOk;
    RebuildElsewhere(s, a, v, x, lo, wo);
    RebuildTables(s, a, v, x, lo, wo);
  }

  lemma RebuildElsewhere(s: Sys, a: Address, v: Vault, x: Session, lo: Option<SessionState>, wo: Option<WorldState>)
    requires a in s.sessions
    ensures OthersSame(s, Rebuild(s, a, v, x, lo, wo), a)
  {}

  lemma RebuildTables(s: Sys, a: Address, v: Vault, x: Session, lo: Option<SessionState>, wo: Option<WorldState>)
    requires TablesOk(s) && a in s.sessions && !x.pc.Disconnected?
    requires x.kind == s.sessions[a].kind && x.thread == s.sessions[a].thread
    requires (lo.Some? ==> x.kind == Login) && (wo.Some? ==> x.kind == World)
    ensures var s' := Rebuild(s, a, v, x, lo, wo);
            && (forall p: Place :: p.addr == a && p in s'.logins ==> TableEntryOk(s', p, Login))
            && (forall p: Place :: p.addr == a && p in s'.worlds ==> TableEntryOk(s', p, World))
  {}

  lemma ConnectOk(cfg: Config, s: Sys, l: Label)
    requires TablesOk(s) && l.Connect? && LifeStep(s, l).Some?
    ensures OthersSame(s, LifeStep(s, l).value, l.addr) && ActorOk(cfg, s, LifeStep(s, l).value, l.addr)
    ensures var s' := LifeStep(s, l).value;
            LoginAt(s', PlaceOf(s', l.addr)) == FRESH && WorldAt(s', PlaceOf(s', l.addr)) == STRANGER
  {}

  lemma OnlyOwnPlace(s: Sys, a: Address)
    requires TablesOk(s) && a in s.sessions
    ensures forall p: Place :: p.addr == a && p in s.logins ==> p == PlaceOf(s, a) && IsAt(s, a, Login) && !s.sessions[a].pc.Disconnected?
    ensures forall p: Place :: p.addr == a && p in s.worlds ==> p == PlaceOf(s, a) && IsAt(s, a, World) && !s.sessions[a].pc.Disconnected?
  {}

  lemma DisconnectOk(cfg: Config, s: Sys, a: Address)
    requires TablesOk(s) && LifeStep(s, Disconnect(a)).Some? && SessionOk(cfg, s, a)
    ensures OthersSame(s, LifeStep(s, Disconnect(a)).value, a) && ActorOk(cfg, s, LifeStep(s, Disconnect(a)).value, a)
  {
    hide Accepted, Issued, TablesOk, TableEntryOk;
    OnlyOwnPlace(s, a);
    var s' := LifeStep(s, Disconnect(a)).value;
    assert s'.sessions.Keys == s.sessions.Keys;
    assert forall p: Place :: p.addr == a ==> p !in s'.logins && p !in s'.worlds;
  }

  lemma FreeOk(cfg: Config, s: Sys, a: Address)
    requires TablesOk(s) && LifeStep(s, Free(a)).Some?
    ensures OthersSame(s, LifeStep(s, Free(a)).value, a) && ActorOk(cfg, s, LifeStep(s, Free(a)).value, a)
  {}

  lemma LifeStepOk(cfg: Config, s: Sys, l: Label)
    requires TablesOk(s) && LifeStep(s, l).Some?
    requires l.addr in s.sessions ==> SessionOk(cfg, s, l.addr)
    ensures OthersSame(s, LifeStep(s, l).value, l.addr) && ActorOk(cfg, s, LifeStep(s, l).value, l.addr)
  {
    hide OthersSame, ActorOk, TablesOk, Accepted, Issued;
    if l.Connect? {
      ConnectOk(cfg, s, l);
    } else if l.End? {
      var x := s.sessions[l.addr].(pc := Ended);
      RebuildOk(cfg, s, l.addr, s.vault, x, None, None);
      assert LifeStep(s, l).value == Rebuild(s, l.addr, s.vault, x, None, None);
    } else if l.Disconnect? {
      DisconnectOk(cfg, s, l.addr);
    } else {
      FreeOk(cfg, s, l.addr);
    }
  }

  lemma WorldStepOk(cfg: Config, s: Sys, l: Label)
    requires TablesOk(s) && WorldStep(s, l).Some? && VaultInv(s.vault)
    requires l.addr in s.sessions ==> SessionOk(cfg, s, l.addr)
    ensures var s' := WorldStep(s, l).value;
            OthersSame(s, s', l.addr) && ActorOk(cfg, s, s', l.addr)
  {
    hide VaultInv, TakeStep, OthersSame, ActorOk, TablesOk;
    var s', x := WorldStep(s, l).value, s.sessions[l.addr];
    var st := WorldAt(s, PlaceOf(s, l.addr));
    if l.WorldTake? {
      TakeStepOk(s, l.addr, x.pc.token, l.c, (v: Option<Bytes>) => AuthBack(v));
      RebuildOk(cfg, s, l.addr, s'.vault, s'.sessions[l.addr], None, None);
      assert s' == Rebuild(s, l.addr, s'.vault, s'.sessions[l.addr], None, None);
    } else if l.WorldMessage? {
      var x' := if st.authenticated then x else x.(pc := AuthSent(l.payload));
      RebuildOk(cfg, s, l.addr, s.vault, x', None, Some(st));
      assert s' == Rebuild(s, l.addr, s.vault, x', None, Some(st));
    } else {
      var answer := x.pc.answer;
      var x' := x.(pc := Reading, open := x.open && answer.Some?);
      var wo := if answer.None? then None else Some(WorldState(true, answer.value));
      RebuildOk(cfg, s, l.addr, s.vault, x', None, wo);
      assert s' == Rebuild(s, l.addr, s.vault, x', None, wo);
    }
  }

  lemma HelloIssues(cfg: Config, st: SessionState, found: bool, username: Bytes, ch: Chance)
    requires LoginOk(cfg, st)
    ensures var t := AfterTake(cfg, st, found, username, ch);
            t.Fine? ==> LoginOk(cfg, t.value.state) && (t.value.state == st || (found && t.value.state.stage == AwaitingProof))
  {
    hide Register, LW.Encode, ComputeK, BnToBytes;
  }

  lemma LoginMessageOk(cfg: Config, s: Sys, a: Address, payload: Bytes)
    requires TablesOk(s) && a in s.sessions && s.sessions[a].kind == Login && s.sessions[a].pc == Reading
    requires SessionOk(cfg, s, a) && OnLoginMessage(cfg, s, a, payload).Some?
    ensures var s' := OnLoginMessage(cfg, s, a, payload).value;
            OthersSame(s, s', a) && ActorOk(cfg, s, s', a)
  {
    hide OthersSame, ActorOk, TablesOk, ServerVerify, LW.Decode, Issued, WorldSessionOk, LoginAt;
    var s', x := OnLoginMessage(cfg, s, a, payload).value, s.sessions[a];
    var x' := s'.sessions[a];
    var st := LoginAt(s, PlaceOf(s, a));
    var lo := if Dispatch(st, payload).CloseUnread? then None else Some(st);
    assert s' == Rebuild(s, a, s.vault, x', lo, None);
    RebuildOk(cfg, s, a, s.vault, x', lo, None);
  }

  lemma LoginStepOk(cfg: Config, s: Sys, l: Label)
    requires TablesOk(s) && VaultInv(s.vault)
    ensures LoginStep(cfg, s, l).Some? && (l.addr in s.sessions ==> SessionOk(cfg, s, l.addr)) ==>
              var s' := LoginStep(cfg, s, l).value;
              OthersSame(s, s', l.addr) && ActorOk(cfg, s, s', l.addr)
  {
    hide OthersSame, ActorOk, TablesOk, Issued, Accepted, VaultInv, TakeStep, AfterTake, RemotePutIn, ToHex, OnLoginMessage, WorldSessionOk, LoginAt;
    if LoginStep(cfg, s, l).Some? && (l.addr in s.sessions ==> SessionOk(cfg, s, l.addr)) {
      var s', x := LoginStep(cfg, s, l).value, s.sessions[l.addr];
      var st := LoginAt(s, PlaceOf(s, l.addr));
      match l {
        case LoginMessage(a, payload) =>
          LoginMessageOk(cfg, s, a, payload);
        case LoginTake(a, c) =>
          var username := x.pc.username;
          TakeStepOk(s, a, x.pc.ticket, c, (v: Option<Bytes>) => HelloBack(username, v.Some?));
          RebuildOk(cfg, s, a, s'.vault, s'.sessions[a], None, None);
          assert s' == Rebuild(s, a, s'.vault, s'.sessions[a], None, None);
        case LoginResume(a, ch) =>
          HelloIssues(cfg, st, x.pc.found, x.pc.username, ch);
          var turn := AfterTake(cfg, st, x.pc.found, x.pc.username, ch);
          var lo := if turn.Raised? then None else Some(turn.value.state);
          RebuildOk(cfg, s, a, s.vault, s'.sessions[a], lo, None);
          assert s' == Rebuild(s, a, s.vault, s'.sessions[a], lo, None);
        case LoginPut(a, random, c) =>
          RemotePutExtends(s.vault, ToHex(random), st.username, Token(x.sid, st.username, st.challenge.value, x.pc.A, x.pc.M1), SESSION_TTL, c);
          RebuildOk(cfg, s, a, s'.vault, s'.sessions[a], None, None);
          assert s' == Rebuild(s, a, s'.vault, s'.sessions[a], None, None);
        case LoginFinish(a) =>
          RebuildOk(cfg, s, a, s.vault, s'.sessions[a], Some(st.(stage := Done)), None);
          assert s' == Rebuild(s, a, s.vault, s'.sessions[a], Some(st.(stage := Done)), None);
      }
    }
  }

  lemma RemotePutExtends(v: Vault, key: Bytes, value: Bytes, origin: Origin, ttl: nat, c: Moment)
    ensures Extends(v, RemotePutIn(v, key, value, origin, ttl, c))
  {}

  // ---------------------------------------------------------------- every run

  /** From the moved session and the grown store to the whole state. */
  lemma Reassemble(cfg: Config, s: Sys, s': Sys, a: Address)
    requires Inv(cfg, s) && OthersSame(s, s', a) && ActorOk(cfg, s, s', a) && StoreKept(cfg, s.vault, s'.vault)
    ensures Inv(cfg, s')
  {
    hide VaultInv, Clean, FitStore, PutsInv, SessionOk, TablesOk, SidsDistinct;
    forall b | b in s'.sessions && b != a ensures b in s.sessions {
      assert b in s'.sessions.Keys - {a};
    }
    forall b | b in s'.sessions ensures SessionOk(cfg, s', b) {
      if b != a { StaysOk(cfg, s, s', b); }
    }
    TablesReassemble(cfg, s, s', a);
    assert forall b :: b in s.sessions ==> s.sessions[b].sid < s.nextSid by {
      forall b | b in s.sessions ensures s.sessions[b].sid < s.nextSid { SidBelow(cfg, s, b); }
    }
    SidsReassemble(cfg, s, s', a);
  }

  lemma SidBelow(cfg: Config, s: Sys, b: Address)
    requires b in s.sessions && SessionOk(cfg, s, b)
    ensures s.sessions[b].sid < s.nextSid
  {}

  lemma TablesReassemble(cfg: Config, s: Sys, s': Sys, a: Address)
    requires TablesOk(s) && OthersSame(s, s', a) && ActorOk(cfg, s, s', a)
    ensures TablesOk(s')
  {}

  lemma SidsReassemble(cfg: Config, s: Sys, s': Sys, a: Address)
    requires SidsDistinct(s) && OthersSame(s, s', a) && ActorOk(cfg, s, s', a)
    requires forall b :: b in s'.sessions && b != a ==> b in s.sessions
    requires forall b :: b in s.sessions ==> s.sessions[b].sid < s.nextSid
    ensures SidsDistinct(s')
  {}

  lemma StepKeeps(cfg: Config, s: Sys, l: Label)
    requires Inv(cfg, s)
    ensures Step(cfg, s, l).Some? ==> Inv(cfg, Step(cfg, s, l).value) && Extends(s.vault, Step(cfg, s, l).value.vault)
  {
    hide VaultInv, Clean, FitStore, PutsInv, SessionOk, TablesOk, SidsDistinct, OthersSame, ActorOk, StoreStep, LifeStep, WorldStep, LoginStep;
    if Step(cfg, s, l).Some? {
      var s' := Step(cfg, s, l).value;
      assert StoreKept(cfg, s.vault, s.vault);
      if Actor(l).None? {
        StoreStepKeeps(cfg, s, l);
        SameSessions(cfg, s, s');
      } else if l.Connect? || l.End? || l.Disconnect? || l.Free? {
        LifeStepOk(cfg, s, l);
        assert s'.vault == s.vault by { LifeKeepsStore(s, l); }
        Reassemble(cfg, s, s', l.addr);
      } else if l.WorldMessage? || l.WorldTake? || l.WorldResume? {
        WorldStepKeeps(cfg, s, l);
        WorldStepOk(cfg, s, l);
        Reassemble(cfg, s, s', l.addr);
      } else {
        LoginStepKeeps(cfg, s, l);
        LoginStepOk(cfg, s, l);
        Reassemble(cfg, s, s', l.addr);
      }
    }
  }

  lemma LifeKeepsStore(s: Sys, l: Label)
    requires LifeStep(s, l).Some?
    ensures LifeStep(s, l).value.vault == s.vault
  {}

  lemma SameSessions(cfg: Config, s: Sys, s': Sys)
    requires Inv(cfg, s) && StoreKept(cfg, s.vault, s'.vault) && s' == s.(vault := s'.vault)
    ensures Inv(cfg, s')
  {
    hide VaultInv, Clean, FitStore, PutsInv, LoginSessionOk, WorldSessionOk, OwnOk;
    forall b | b in s'.sessions ensures SessionOk(cfg, s', b) {
      assert SessionOk(cfg, s, b);
      StaysOk(cfg, s, s', b);
    }
    assert forall p :: p in s.logins ==> TableEntryOk(s, p, Login);
    assert forall p :: p in s.worlds ==> TableEntryOk(s, p, World);
  }

  lemma {:induction false} RunKeeps(cfg: Config, s: Sys, ls: seq<Label>)
    requires Inv(cfg, s) && Exec(cfg, s, ls).Some?
    ensures Inv(cfg, Exec(cfg, s, ls).value) && Extends(s.vault, Exec(cfg, s, ls).value.vault)
    decreases |ls|
  {
    hide Inv, Step;
    if ls != [] {
      StepKeeps(cfg, s, ls[0]);
      RunKeeps(cfg, Step(cfg, s, ls[0]).value, ls[1..]);
    }
  }

  // ---------------------------------------------------------------- one session among the others

  /** Steps of the rest of the system only. */
  predicate Away(ls: seq<Label>, a: Address) {
    forall i :: 0 <= i < |ls| ==> Actor(ls[i]) != Some(a)
  }

  lemma ExecCons(cfg: Config, s: Sys, l: Label, ls: seq<Label>)
    ensures Exec(cfg, s, [l] + ls) == if Step(cfg, s, l).None? then None else Exec(cfg, Step(cfg, s, l).value, ls)
  {
    hide Step;
    assert ([l] + ls)[1..] == ls;
  }

  lemma OthersKeep(cfg: Config, s: Sys, l: Label, a: Address)
    requires Inv(cfg, s) && a in s.sessions && Actor(l) != Some(a) && Step(cfg, s, l).Some?
    ensures var s' := Step(cfg, s, l).value;
            && a in s'.sessions && s'.sessions[a] == s.sessions[a]
            && LoginAt(s', PlaceOf(s, a)) == LoginAt(s, PlaceOf(s, a)) && WorldAt(s', PlaceOf(s, a)) == WorldAt(s, PlaceOf(s, a))
  {
    hide VaultInv, Clean, FitStore, PutsInv, SessionOk, TablesOk, SidsDistinct, ActorOk, StoreStep, LifeStep, WorldStep, LoginStep;
    var s' := Step(cfg, s, l).value;
    assert StoreKept(cfg, s.vault, s.vault);
    if Actor(l).None? {
      StoreStepKeeps(cfg, s, l);
    } else if l.Connect? || l.End? || l.Disconnect? || l.Free? {
      LifeStepOk(cfg, s, l);
    } else if l.WorldMessage? || l.WorldTake? || l.WorldResume? {
      WorldStepOk(cfg, s, l);
    } else {
      LoginStepOk(cfg, s, l);
    }
  }

  /** Whatever the rest of the system does, a session finds itself and its state as it left them. */
  lemma {:induction false} Undisturbed(cfg: Config, s: Sys, ls: seq<Label>, a: Address)
    requires Inv(cfg, s) && a in s.sessions && Away(ls, a) && Exec(cfg, s, ls).Some?
    ensures var t := Exec(cfg, s, ls).value;
            && Inv(cfg, t) && Extends(s.vault, t.vault)
            && a in t.sessions && t.sessions[a] == s.sessions[a]
            && LoginAt(t, PlaceOf(s, a)) == LoginAt(s, PlaceOf(s, a)) && WorldAt(t, PlaceOf(s, a)) == WorldAt(s, PlaceOf(s, a))
    decreases |ls|
  {
    hide Inv, Step, LoginAt, WorldAt;
    if ls != [] {
      assert Actor(ls[0]) != Some(a);
      OthersKeep(cfg, s, ls[0], a);
      StepKeeps(cfg, s, ls[0]);
      Undisturbed(cfg, Step(cfg, s, ls[0]).value, ls[1..], a);
    }
  }

  lemma EveryRun(cfg: Config, ls: seq<Label>)
    requires Exec(cfg, START, ls).Some?
    ensures Inv(cfg, Exec(cfg, START, ls).value)
  {
    RunKeeps(cfg, START, ls);
  }

  // ---------------------------------------------------------------- what this means

  /** Past the hello, or authenticated. */
  predicate LetIn(s: Sys, a: Address)
    requires a in s.sessions
  {
    var p := PlaceOf(s, a);
    if s.sessions[a].kind == Login then LoginAt(s, p).stage != AwaitingHello else WorldAt(s, p).authenticated
  }

  /** The put whose entry let the session in. */
  function Pass(s: Sys, a: Address): nat
    requires a in s.sessions && s.sessions[a].own.Some? && s.sessions[a].own.value < |s.vault.takes|
  {
    s.vault.takes[s.sessions[a].own.value].put
  }

  /** At most once, over every interleaving, lost reply and expiry: successful takes consume different puts, every
      session that was let in has a put of its own, shared with no other, and the name a World session carries is
      exactly what that put wrote, by whichever writer. */
  lemma AtMostOnce(cfg: Config, ls: seq<Label>)
    requires Exec(cfg, START, ls).Some?
    ensures var s := Exec(cfg, START, ls).value;
            && (forall i, j :: 0 <= i < j < |s.vault.takes| ==> s.vault.takes[i].put != s.vault.takes[j].put)
            && (forall a :: a in s.sessions && LetIn(s, a) ==>
                  && s.sessions[a].own.Some? && s.sessions[a].own.value < |s.vault.takes|
                  && s.vault.takes[s.sessions[a].own.value].sid == s.sessions[a].sid
                  && Pass(s, a) < |s.vault.puts|)
            && (forall a, b :: a in s.sessions && b in s.sessions && a != b && LetIn(s, a) && LetIn(s, b) ==> Pass(s, a) != Pass(s, b))
            && (forall a :: a in s.sessions && s.sessions[a].kind == World && LetIn(s, a) ==>
                  && Rightful(cfg, s.vault.puts[Pass(s, a)])
                  && WorldAt(s, PlaceOf(s, a)).username == s.vault.puts[Pass(s, a)].value)
  {
    hide Exec, Rightful, Clean, FitStore;
    EveryRun(cfg, ls);
    var s := Exec(cfg, START, ls).value;
    forall a | a in s.sessions && LetIn(s, a)
      ensures s.sessions[a].own.Some? && OwnOk(s.vault, s.sessions[a])
      ensures s.sessions[a].kind == World ==> OwnsValue(s.vault, s.sessions[a], WorldAt(s, PlaceOf(s, a)).username)
      ensures Rightful(cfg, s.vault.puts[Pass(s, a)])
    {
      assert SessionOk(cfg, s, a);
    }
    forall a, b | a in s.sessions && b in s.sessions && a != b && LetIn(s, a) && LetIn(s, b) ensures Pass(s, a) != Pass(s, b) {
      assert s.vault.takes[s.sessions[a].own.value].sid != s.vault.takes[s.sessions[b].own.value].sid;
    }
  }

  /** Who can have let a World session in. It presented the key of its pass, and any key of the store will do. A session
      with a name was let in by a proof that Login had accepted for this very name if and only if what it presented has
      the form of a token; a registry key lets it in under the registration's bytes. Without a name it spent a ticket of
      Master's, or a token of an account with the empty name. */
  lemma WhoLetsIn(cfg: Config, ls: seq<Label>, a: Address)
    requires Exec(cfg, START, ls).Some?
    ensures var s := Exec(cfg, START, ls).value;
            IsAt(s, a, World) && LetIn(s, a) ==>
              && s.sessions[a].own.Some? && s.sessions[a].own.value < |s.vault.takes| && Pass(s, a) < |s.vault.puts|
              && var e, name := s.vault.puts[Pass(s, a)], WorldAt(s, PlaceOf(s, a)).username;
              && (name != [] ==> (e.origin.Token? <==> IsToken(e.key)))
              && (e.origin.Token? ==> && e.origin.username == name && Issued(cfg, name, e.origin.challenge)
                                      && Accepted(cfg, e.origin.challenge, e.origin.A, e.origin.M1))
              && (e.origin.Beat? <==> LOGIN_PREFIX <= e.key || WORLD_PREFIX <= e.key)
              && (name == [] ==> !e.origin.Beat?)
              && (e.origin.Ticket? ==> name == [])
  {
    hide Exec, Issued, Accepted, IsToken, LoginKey, WorldKey, DecodeLogin, DecodeWorld;
    AtMostOnce(cfg, ls);
    var s := Exec(cfg, START, ls).value;
    if IsAt(s, a, World) && LetIn(s, a) { FormOfKey(cfg, s.vault.puts[Pass(s, a)]); }
  }

  lemma FormOfKey(cfg: Config, e: PutEvent)
    requires Rightful(cfg, e)
    ensures e.origin.Beat? <==> LOGIN_PREFIX <= e.key || WORLD_PREFIX <= e.key
    ensures e.origin.Beat? <==> !IsToken(e.key)
    ensures e.origin.Beat? ==> e.value != []
  {
    hide Issued, Accepted, IsToken, LoginKey, WorldKey;
    KeysApart(e.key, []);
    if e.origin.Beat? {
      if LoginEntry(e.key, e.value) {
        KeysApart(e.key, DecodeLogin(e.value).value.host);
      } else {
        KeysApart(e.key, DecodeWorld(e.value).value.host);
      }
    }
  }

  /** The same between any two moments of a run: sessions let in at different times, perhaps at the same address, are
      let in by different puts. */
  lemma NeverAgain(cfg: Config, ls: seq<Label>, more: seq<Label>, a: Address, b: Address)
    requires Exec(cfg, START, ls).Some? && Exec(cfg, Exec(cfg, START, ls).value, more).Some?
    ensures var s := Exec(cfg, START, ls).value;
            var t := Exec(cfg, s, more).value;
            a in s.sessions && b in t.sessions && s.sessions[a].sid != t.sessions[b].sid && LetIn(s, a) && LetIn(t, b) ==>
              && s.sessions[a].own.Some? && s.sessions[a].own.value < |s.vault.takes|
              && t.sessions[b].own.Some? && t.sessions[b].own.value < |t.vault.takes|
              && Pass(s, a) != Pass(t, b)
  {
    hide Exec, Issued, Accepted, Clean, FitStore, PutsInv, TablesOk, SidsDistinct;
    EveryRun(cfg, ls);
    var s := Exec(cfg, START, ls).value;
    RunKeeps(cfg, s, more);
    var t := Exec(cfg, s, more).value;
    if a in s.sessions && b in t.sessions && s.sessions[a].sid != t.sessions[b].sid && LetIn(s, a) && LetIn(t, b) {
      assert SessionOk(cfg, s, a) && SessionOk(cfg, t, b);
      assert t.vault.takes[s.sessions[a].own.value] == s.vault.takes[s.sessions[a].own.value];
    }
  }

  /** No inheritance: at any point of any run a session may connect at any free address, on any thread; whatever the
      rest of the system does before its first message, that message finds a stranger. A Login takes it for a hello or
      closes, a World takes it for a token. */
  lemma NoInheritance(cfg: Config, ls: seq<Label>, kind: Kind, a: Address, thread: nat, rest: seq<Label>, payload: Bytes)
    requires Exec(cfg, START, ls).Some? && Away(rest, a)
    ensures var s := Exec(cfg, START, ls).value;
            Exec(cfg, s, [Connect(kind, a, thread)] + rest).Some? ==>
              var t := Exec(cfg, s, [Connect(kind, a, thread)] + rest).value;
              var p := Place(thread, a);
              && TablesOk(t) && a in t.sessions && PlaceOf(t, a) == p && !LetIn(t, a)
              && LoginAt(t, p) == FRESH && WorldAt(t, p) == STRANGER
              && (kind == Login ==>
                    var seen := t.(logins := t.logins[p := FRESH]);
                    Step(cfg, t, LoginMessage(a, payload))
                    == Some(match LW.Decode(payload)
                            case None => Shut(t, a)
                            case Some(ClientHello(ticket, username)) => Move(seen, a, HelloSent(ticket, username))
                            case _ => Shut(seen, a)))
              && (kind == World ==>
                    Step(cfg, t, WorldMessage(a, payload)) == Some(Move(t.(worlds := t.worlds[p := STRANGER]), a, AuthSent(payload))))
  {
    hide Exec, Inv, TablesOk, LW.Decode, CheckProof;
    EveryRun(cfg, ls);
    var s := Exec(cfg, START, ls).value;
    var l := Connect(kind, a, thread);
    ExecCons(cfg, s, l, rest);
    if Exec(cfg, s, [l] + rest).Some? {
      var s' := Step(cfg, s, l).value;
      assert TablesOk(s) by { InvTables(cfg, s); }
      ConnectOk(cfg, s, l);
      StepKeeps(cfg, s, l);
      Undisturbed(cfg, s', rest, a);
      InvTables(cfg, Exec(cfg, s', rest).value);
    }
  }

  lemma InvTables(cfg: Config, s: Sys)
    requires Inv(cfg, s)
    ensures TablesOk(s)
  {}

  /** The handler never uses a challenge that is not there: a reading session accepts any payload, and a session whose
      proof was accepted can always store its token. */
  lemma NeverStuck(cfg: Config, ls: seq<Label>, a: Address, payload: Bytes, random: Bytes, c: Moment)
    requires Exec(cfg, START, ls).Some? && |random| == TOKEN_BYTES
    requires IsAt(Exec(cfg, START, ls).value, a, Login)
    ensures var s := Exec(cfg, START, ls).value;
            var x := s.sessions[a];
            && (x.pc == Reading && x.open ==> Step(cfg, s, LoginMessage(a, payload)).Some?)
            && (x.pc.ProofSent? ==> Step(cfg, s, LoginPut(a, random, c)).Some?)
  {
    hide Exec, Clean, FitStore, VaultInv, PutsInv, TablesOk, SidsDistinct, Issued, Accepted, CheckProof, LW.Decode;
    EveryRun(cfg, ls);
    assert SessionOk(cfg, Exec(cfg, START, ls).value, a);
  }

  /** Registry integrity in every run: the store holds tokens and registrations only, tokens never under a registry
      prefix, and whatever order and clock a listing sees, Master finds a Login exactly when one is live. */
  lemma RegistryIntegrity(cfg: Config, ls: seq<Label>, at: Readings, listed: seq<StoreWire.Entry>)
    requires Exec(cfg, START, ls).Some?
    requires Enumerates(listed, ListOf(Exec(cfg, START, ls).value.vault.entries, LOGIN_PREFIX, at))
    ensures var m := Exec(cfg, START, ls).value.vault.entries;
            && Clean(m)
            && (PickLogin(listed).None? <==> forall k :: k in m && LOGIN_PREFIX <= k ==> Expired(m[k], at(k)))
            && (forall k :: k in m && LOGIN_PREFIX <= k ==> LoginEntry(k, m[k].value))
  {
    hide Exec, FitStore, VaultInv, PutsInv, SessionOk, Clean, LoginEntry, PickLogin;
    EveryRun(cfg, ls);
    var m := Exec(cfg, START, ls).value.vault.entries;
    PickLoginExact(m, at, listed);
    forall k | k in m && LOGIN_PREFIX <= k ensures LoginEntry(k, m[k].value) { UnderLoginPrefix(m, k); }
  }

  // ---------------------------------------------------------------- nothing else leaves the store

  /** The entry is as it was and still the work of the same put; or its key has been put again, or its put consumed. */
  predicate KeptOrAccounted(v: Vault, w: Vault, key: Bytes)
    requires key in v.entries && key in v.tags
  {
    || (key in w.entries && w.entries[key] == v.entries[key] && key in w.tags && w.tags[key] == v.tags[key])
    || (exists i :: |v.puts| <= i < |w.puts| && w.puts[i].key == key)
    || (exists j :: |v.takes| <= j < |w.takes| && w.takes[j].put == v.tags[key])
  }

  lemma PutAccounts(v: Vault, key: Bytes, k: Bytes, value: Bytes, origin: Origin, ttl: nat, now: Time)
    requires VaultInv(v) && key in v.entries
    ensures KeptOrAccounted(v, DoPut(v, k, value, origin, ttl, now), key)
  {
    var w := DoPut(v, k, value, origin, ttl, now);
    if k == key { assert w.puts[|v.puts|].key == key; }
  }

  lemma TakeAccounts(v: Vault, key: Bytes, k: Bytes, sid: Sid, c: Moment)
    requires VaultInv(v) && key in v.entries
    ensures KeptOrAccounted(v, DoTake(v, k, sid, c), key)
  {
    var w := DoTake(v, k, sid, c);
    if TakeSucceeds(v, k, c) && k == key { assert w.takes[|v.takes|].put == v.tags[key]; }
  }

  /** The readings of a sweep come before the entry under this key expires. */
  predicate SweptBefore(l: Label, key: Bytes, expires: Time) { l.Sweep? ==> l.at(key) < expires }

  lemma StoreStepAccounts(s: Sys, l: Label, key: Bytes)
    requires VaultInv(s.vault) && StoreStep(s, l).Some?
    requires key in s.vault.entries && SweptBefore(l, key, s.vault.entries[key].expires)
    ensures KeptOrAccounted(s.vault, StoreStep(s, l).value.vault, key)
  {
    hide KeptOrAccounted, VaultInv, DoPut, DoSweep, ToHex, LoginKey, WorldKey, EncodeLogin, EncodeWorld, PickLogin, Enumerates, ListOf;
    var v := s.vault;
    Unmoved(v, key);
    match l {
      case MasterMessage(random, _, _, now) => PutAccounts(v, key, ToHex(random), [], Ticket, TICKET_TTL, now);
      case BeatLogin(host, c) =>
        PutAccounts(v, key, LoginKey(host), EncodeLogin(LoginInfo(host, LOGIN_PORT)), Beat, BEAT_TTL, c.now);
      case BeatWorld(host, name, population, c) =>
        PutAccounts(v, key, WorldKey(host), EncodeWorld(WorldInfo(host, WORLD_PORT, name, population)), Beat, BEAT_TTL, c.now);
      case Sweep(at) => SweepAccounts(v, key, at);
    }
  }

  lemma MessageKeepsStore(cfg: Config, s: Sys, a: Address, payload: Bytes)
    requires a in s.sessions && OnLoginMessage(cfg, s, a, payload).Some?
    ensures OnLoginMessage(cfg, s, a, payload).value.vault == s.vault
  {
    hide Dispatch, CheckProof;
  }

  lemma LoginStepAccounts(cfg: Config, s: Sys, l: Label, key: Bytes)
    requires VaultInv(s.vault) && key in s.vault.entries && LoginStep(cfg, s, l).Some?
    ensures KeptOrAccounted(s.vault, LoginStep(cfg, s, l).value.vault, key)
  {
    hide KeptOrAccounted, VaultInv, DoPut, DoTake, ToHex, OnLoginMessage, AfterTake;
    var v := s.vault;
    Unmoved(v, key);
    match l {
      case LoginMessage(a, payload) => MessageKeepsStore(cfg, s, a, payload);
      case LoginTake(a, c) => TakeAccounts(v, key, s.sessions[a].pc.ticket, s.sessions[a].sid, c);
      case LoginPut(a, random, c) =>
        var x, st := s.sessions[a], LoginAt(s, PlaceOf(s, a));
        PutAccounts(v, key, ToHex(random), st.username, Token(x.sid, st.username, st.challenge.value, x.pc.A, x.pc.M1), SESSION_TTL, c.now);
      case _ =>
    }
  }

  lemma WorldStepAccounts(s: Sys, l: Label, key: Bytes)
    requires VaultInv(s.vault) && key in s.vault.entries && WorldStep(s, l).Some?
    ensures KeptOrAccounted(s.vault, WorldStep(s, l).value.vault, key)
  {
    hide KeptOrAccounted, VaultInv, DoTake;
    Unmoved(s.vault, key);
    if l.WorldTake? { TakeAccounts(s.vault, key, s.sessions[l.addr].pc.token, s.sessions[l.addr].sid, l.c); }
  }

  lemma StepAccounts(cfg: Config, s: Sys, l: Label, key: Bytes)
    requires VaultInv(s.vault) && Step(cfg, s, l).Some?
    requires key in s.vault.entries && SweptBefore(l, key, s.vault.entries[key].expires)
    ensures KeptOrAccounted(s.vault, Step(cfg, s, l).value.vault, key)
  {
    hide KeptOrAccounted, VaultInv, StoreStep, LoginStep, WorldStep;
    Unmoved(s.vault, key);
    if Actor(l).None? {
      StoreStepAccounts(s, l, key);
    } else if l.WorldMessage? || l.WorldTake? || l.WorldResume? {
      WorldStepAccounts(s, l, key);
    } else if !(l.Connect? || l.End? || l.Disconnect? || l.Free?) {
      LoginStepAccounts(cfg, s, l, key);
    }
  }

  lemma Unmoved(v: Vault, key: Bytes)
    requires VaultInv(v) && key in v.entries
    ensures key in v.tags && KeptOrAccounted(v, v, key)
  {}

  lemma SweepAccounts(v: Vault, key: Bytes, at: Readings)
    requires VaultInv(v) && key in v.entries && at(key) < v.entries[key].expires
    ensures KeptOrAccounted(v, DoSweep(v, at), key)
  {}

  lemma Accumulate(u: Vault, v: Vault, w: Vault, key: Bytes)
    requires key in u.entries && key in u.tags && KeptOrAccounted(u, v, key) && Extends(u, v) && Extends(v, w)
    requires key in v.entries && key in v.tags && v.entries[key] == u.entries[key] && v.tags[key] == u.tags[key] ==> KeptOrAccounted(v, w, key)
    ensures KeptOrAccounted(u, w, key)
  {
    if i :| |u.puts| <= i < |v.puts| && v.puts[i].key == key { assert w.puts[i].key == key; }
    if j :| |u.takes| <= j < |v.takes| && v.takes[j].put == u.tags[key] { assert w.takes[j].put == u.tags[key]; }
  }

  /** Conservation over any run segment: an entry that no sweep found expired is still there, the same one, unless its key
      was put again or its put was consumed by a take. */
  lemma {:induction false} NothingElseIsLost(cfg: Config, s: Sys, ls: seq<Label>, key: Bytes)
    requires Inv(cfg, s) && Exec(cfg, s, ls).Some?
    ensures key in s.vault.entries && (forall l :: l in ls ==> SweptBefore(l, key, s.vault.entries[key].expires)) ==>
              key in s.vault.tags && KeptOrAccounted(s.vault, Exec(cfg, s, ls).value.vault, key)
    decreases |ls|
  {
    hide Inv, Step, KeptOrAccounted;
    if key in s.vault.entries && (forall l :: l in ls ==> SweptBefore(l, key, s.vault.entries[key].expires)) {
      InvUnmoved(cfg, s, key);
      if ls != [] {
        var s' := Step(cfg, s, ls[0]).value;
        StepAccounts(cfg, s, ls[0], key) by { InvVault(cfg, s); }
        StepKeeps(cfg, s, ls[0]);
        RunKeeps(cfg, s', ls[1..]);
        NothingElseIsLost(cfg, s', ls[1..], key);
        Accumulate(s.vault, s'.vault, Exec(cfg, s', ls[1..]).value.vault, key);
      }
    }
  }

  lemma InvVault(cfg: Config, s: Sys)
    requires Inv(cfg, s)
    ensures VaultInv(s.vault)
  {}

  lemma InvUnmoved(cfg: Config, s: Sys, key: Bytes)
    requires Inv(cfg, s)
    ensures key in s.vault.entries ==> key in s.vault.tags && KeptOrAccounted(s.vault, s.vault, key)
  {
    hide KeptOrAccounted;
    if key in s.vault.entries { Unmoved(s.vault, key); }
  }

  lemma PutsAreRemote(mac: StoreWire.Mac, v: Vault, key: Bytes, value: Bytes, origin: Origin, ttl: U32, c: Moment)
    requires 44 + |key| + |value| < 0x1_0000_0000
    ensures RemotePut(mac, v.entries, key, value, ttl, c).0 == RemotePutIn(v, key, value, origin, ttl, c).entries
  {
    hide RemotePut;
    RemotePutIsLocal(mac, v.entries, key, value, ttl, c);
  }

  lemma TakesAreRemote(mac: StoreWire.Mac, v: Vault, key: Bytes, sid: Sid, c: Moment)
    requires VaultInv(v) && FitStore(v.entries) && 44 + |key| < 0x1_0000_0000
    ensures RemoteTake(mac, v.entries, key, c)
         == (DoTake(v, key, sid, c).entries,
             if c.net == Delivered && TakeSucceeds(v, key, c) then Lookup(v.entries, key, c.now) else None)
  {
    hide RemoteTake, FitStore, VaultInv;
    RemoteTakeIsLocal(mac, v.entries, key, c);
    TakeKeeps(v, key, sid, c);
  }

  /** The calls of this system are the byte-level calls of StoreRpc: in every reachable state they agree on the
      answer and on the store, for every MAC. */
  lemma CallsAreRemote(cfg: Config, ls: seq<Label>, key: Bytes, value: Bytes, origin: Origin, ttl: U32, sid: Sid, c: Moment)
    requires Exec(cfg, START, ls).Some? && 44 + |key| + |value| < 0x1_0000_0000
    ensures var v := Exec(cfg, START, ls).value.vault;
            && RemotePut(cfg.mac, v.entries, key, value, ttl, c).0 == RemotePutIn(v, key, value, origin, ttl, c).entries
            && RemoteTake(cfg.mac, v.entries, key, c)
            == (DoTake(v, key, sid, c).entries,
                if c.net == Delivered && TakeSucceeds(v, key, c) then Lookup(v.entries, key, c.now) else None)
  {
    hide Exec, FitStore, VaultInv, PutsInv, SessionOk, Clean, RemotePut, RemoteTake, DoTake, RemotePutIn, TakeSucceeds, TablesOk, SidsDistinct;
    EveryRun(cfg, ls);
    var v := Exec(cfg, START, ls).value.vault;
    PutsAreRemote(cfg.mac, v, key, value, origin, ttl, c);
    TakesAreRemote(cfg.mac, v, key, sid, c);
  }
}
