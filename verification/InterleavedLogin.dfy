/**
 The handlers of one session inside the interleaved system: what Login
 (include/handlers/login_handler.hpp) and World (include/handlers/world_handler.hpp)
 do for one message undisturbed is what the session's steps amount to in TokenHop,
 whatever the other sessions, Master, the heartbeats and the sweeper do in between.
 */
module InterleavedLogin {
  import opened Numerals
  import opened ByteIo
  import opened Modular
  import opened Srp6
  import opened SharedStore
  import opened StoreRpc
  import opened LoginSession
  import opened Registry
  import opened TokenHop
  import opened Handlers
  import HL = HonestLogin
  import StoreWire
  import LW = LoginWire

  // ---------------------------------------------------------------- the others

  /** What the rest of the system does after the n-th step of the session, in the state it finds. */
  type Others = (nat, Sys) -> seq<Label>

  ghost predicate Schedules(cfg: Config, others: Others, a: Address) {
    forall n, s :: Away(others(n, s), a) && Exec(cfg, s, others(n, s)).Some?
  }

  /** The n-th step of the session, and then the others. */
  ghost function Then(cfg: Config, others: Others, n: nat, s: Sys, l: Label): Option<Sys> {
    var t :- Step(cfg, s, l);
    Exec(cfg, t, others(n, t))
  }

  lemma ThenKeeps(cfg: Config, others: Others, n: nat, s: Sys, l: Label, a: Address)
    requires Inv(cfg, s) && Schedules(cfg, others, a)
    requires Step(cfg, s, l).Some? ==> a in Step(cfg, s, l).value.sessions
    ensures Then(cfg, others, n, s, l).Some? <==> Step(cfg, s, l).Some?
    ensures Step(cfg, s, l).Some? ==>
              var t, u := Step(cfg, s, l).value, Then(cfg, others, n, s, l).value;
              && Inv(cfg, t) && Inv(cfg, u) && Extends(s.vault, t.vault) && Extends(t.vault, u.vault)
              && a in u.sessions && u.sessions[a] == t.sessions[a]
              && LoginAt(u, PlaceOf(t, a)) == LoginAt(t, PlaceOf(t, a)) && WorldAt(u, PlaceOf(t, a)) == WorldAt(t, PlaceOf(t, a))
  {
    hide Inv, Step, Exec, LoginAt, WorldAt;
    if Step(cfg, s, l).Some? {
      var t := Step(cfg, s, l).value;
      assert Away(others(n, t), a) && Exec(cfg, t, others(n, t)).Some?;
      StepKeeps(cfg, s, l);
      Undisturbed(cfg, t, others(n, t), a);
    }
  }

  /** Waiting for the next message. */
  predicate Waits(s: Sys, a: Address, kind: Kind) {
    IsAt(s, a, kind) && s.sessions[a].pc == Reading && s.sessions[a].open
  }

  // ---------------------------------------------------------------- World

  /** The session after a step of its own: same object, same thread. */
  predicate SameSession(s: Sys, t: Sys, a: Address)
    requires a in s.sessions
  {
    && IsAt(t, a, s.sessions[a].kind) && t.sessions[a].thread == s.sessions[a].thread && t.sessions[a].sid == s.sessions[a].sid
    && PlaceOf(t, a) == PlaceOf(s, a)
  }

  lemma AskStep(cfg: Config, s: Sys, a: Address, payload: Bytes)
    requires Waits(s, a, World)
    ensures Step(cfg, s, WorldMessage(a, payload)).Some?
    ensures var t := Step(cfg, s, WorldMessage(a, payload)).value;
            && SameSession(s, t, a) && t.vault == s.vault && WorldAt(t, PlaceOf(s, a)) == WorldAt(s, PlaceOf(s, a))
            && t.sessions[a].open && t.sessions[a].pc == if WorldAt(s, PlaceOf(s, a)).authenticated then Reading else AuthSent(payload)
  {
    hide StoreStep, LifeStep, LoginStep;
  }

  /** The answer that a session's take brings back. */
  function Answer(v: Vault, key: Bytes, c: Moment): Option<Bytes> {
    if c.net == Delivered && TakeSucceeds(v, key, c) then Lookup(v.entries, key, c.now) else None
  }

  lemma AuthStep(cfg: Config, s: Sys, a: Address, c: Moment)
    requires IsAt(s, a, World) && s.sessions[a].pc.AuthSent?
    ensures Step(cfg, s, WorldTake(a, c)).Some?
    ensures var t := Step(cfg, s, WorldTake(a, c)).value;
            var x := s.sessions[a];
            && SameSession(s, t, a) && t.vault == DoTake(s.vault, x.pc.token, x.sid, c) && t.worlds == s.worlds
            && t.sessions[a].open == x.open && t.sessions[a].pc == AuthBack(Answer(s.vault, x.pc.token, c))
  {
    hide StoreStep, LifeStep, LoginStep;
  }

  lemma AdmitStep(cfg: Config, s: Sys, a: Address)
    requires IsAt(s, a, World) && s.sessions[a].pc.AuthBack? && s.sessions[a].open
    ensures Step(cfg, s, WorldResume(a)).Some?
    ensures var t := Step(cfg, s, WorldResume(a)).value;
            var answer := s.sessions[a].pc.answer;
            && SameSession(s, t, a) && t.vault == s.vault && (Waits(t, a, World) <==> answer.Some?)
            && WorldAt(t, PlaceOf(s, a)) == if answer.Some? then WorldState(true, answer.value) else WorldAt(s, PlaceOf(s, a))
  {
    hide StoreStep, LifeStep, LoginStep;
  }

  /** World's turn is its three steps: with anything in between, they leave the session as `Authenticate` does, and the
      store as it does at the step in which the take is executed. */
  lemma WorldTurnInSystem(cfg: Config, others: Others, s: Sys, a: Address, payload: Bytes, c: Moment)
    requires Inv(cfg, s) && Schedules(cfg, others, a) && Waits(s, a, World) && 44 + |payload| < 0x1_0000_0000
    ensures var p := PlaceOf(s, a);
            var st := WorldAt(s, p);
            var s1 := Then(cfg, others, 0, s, WorldMessage(a, payload));
            && s1.Some?
            && var r := Authenticate(cfg.mac, s1.value.vault.entries, st, payload, c);
            if st.authenticated then
              r.state == WorldAt(s1.value, p) == st && r.store == s1.value.vault.entries && !r.closed && Waits(s1.value, a, World)
            else
              var s2 := Then(cfg, others, 1, s1.value, WorldTake(a, c));
              && s2.Some? && Step(cfg, s1.value, WorldTake(a, c)).value.vault.entries == r.store
              && var t := Step(cfg, s2.value, WorldResume(a));
              t.Some? && WorldAt(t.value, p) == r.state && (Waits(t.value, a, World) <==> !r.closed)
  {
    hide Inv, Exec, RemoteTake, Then, Step, Schedules, DoTake, TakeSucceeds, WorldAt, VaultInv, FitStore;
    var l1, l2 := WorldMessage(a, payload), WorldTake(a, c);
    AskStep(cfg, s, a, payload);
    ThenKeeps(cfg, others, 0, s, l1, a);
    var s1 := Then(cfg, others, 0, s, l1).value;
    if !WorldAt(s, PlaceOf(s, a)).authenticated {
      InvStore(cfg, s1);
      TakesAreRemote(cfg.mac, s1.vault, payload, s1.sessions[a].sid, c);
      AuthStep(cfg, s1, a, c);
      ThenKeeps(cfg, others, 1, s1, l2, a);
      SameWorlds(s1, Step(cfg, s1, l2).value, PlaceOf(s, a));
      AdmitStep(cfg, Then(cfg, others, 1, s1, l2).value, a);
    }
  }

  lemma SameWorlds(s: Sys, t: Sys, p: Place)
    requires s.worlds == t.worlds
    ensures WorldAt(s, p) == WorldAt(t, p)
  {}

  lemma InvStore(cfg: Config, s: Sys)
    requires Inv(cfg, s)
    ensures VaultInv(s.vault) && FitStore(s.vault.entries)
  {}

  // ---------------------------------------------------------------- Login, step by step

  lemma HelloStep(cfg: Config, s: Sys, a: Address, payload: Bytes)
    requires Waits(s, a, Login) && LoginAt(s, PlaceOf(s, a)).stage == AwaitingHello
    ensures Step(cfg, s, LoginMessage(a, payload)).Some?
    ensures var t := Step(cfg, s, LoginMessage(a, payload)).value;
            && SameSession(s, t, a) && t.vault == s.vault && LoginAt(t, PlaceOf(s, a)) == LoginAt(s, PlaceOf(s, a))
            && t.sessions[a].own == s.sessions[a].own
            && match Dispatch(LoginAt(s, PlaceOf(s, a)), payload)
               case Hello(ticket, username) => t.sessions[a].open && t.sessions[a].pc == HelloSent(ticket, username)
               case _ => !t.sessions[a].open
  {
    hide StoreStep, LifeStep, WorldStep, LW.Decode, CheckProof;
  }

  lemma TicketStep(cfg: Config, s: Sys, a: Address, c: Moment)
    requires IsAt(s, a, Login) && s.sessions[a].pc.HelloSent?
    ensures Step(cfg, s, LoginTake(a, c)).Some?
    ensures var t := Step(cfg, s, LoginTake(a, c)).value;
            var x := s.sessions[a];
            var answer := Answer(s.vault, x.pc.ticket, c);
            && SameSession(s, t, a) && t.vault == DoTake(s.vault, x.pc.ticket, x.sid, c)
            && LoginAt(t, PlaceOf(s, a)) == LoginAt(s, PlaceOf(s, a))
            && t.sessions[a].open == x.open && t.sessions[a].pc == HelloBack(x.pc.username, answer.Some?)
            && (answer.Some? ==> t.sessions[a].own == Some(|s.vault.takes|))
  {
    hide StoreStep, LifeStep, WorldStep, OnLoginMessage, DoTake;
  }

  lemma ChallengeStep(cfg: Config, s: Sys, a: Address, ch: Chance)
    requires IsAt(s, a, Login) && s.sessions[a].pc.HelloBack? && s.sessions[a].open
    ensures Step(cfg, s, LoginResume(a, ch)).Some?
    ensures var t := Step(cfg, s, LoginResume(a, ch)).value;
            var turn := AfterTake(cfg, LoginAt(s, PlaceOf(s, a)), s.sessions[a].pc.found, s.sessions[a].pc.username, ch);
            && SameSession(s, t, a) && t.vault == s.vault && t.sessions[a].own == s.sessions[a].own
            && (turn.Raised? ==> t.sessions[a].pc == Ended)
            && (turn.Fine? ==> LoginAt(t, PlaceOf(s, a)) == turn.value.state && (Waits(t, a, Login) <==> !turn.value.closed))
  {
    hide StoreStep, LifeStep, WorldStep, OnLoginMessage, AfterTake;
  }

  lemma ProofStep(cfg: Config, s: Sys, a: Address, payload: Bytes)
    requires Waits(s, a, Login)
    requires LoginAt(s, PlaceOf(s, a)).stage == AwaitingProof && LoginAt(s, PlaceOf(s, a)).challenge.Some?
    ensures Step(cfg, s, LoginMessage(a, payload)).Some?
    ensures var t := Step(cfg, s, LoginMessage(a, payload)).value;
            var st := LoginAt(s, PlaceOf(s, a));
            && SameSession(s, t, a) && t.vault == s.vault && LoginAt(t, PlaceOf(s, a)) == st
            && t.sessions[a].own == s.sessions[a].own
            && match Dispatch(st, payload)
               case Proof(A, M1) =>
                 (match CheckProof(cfg, st, A, M1)
                  case Raised => t.sessions[a].pc == Ended
                  case Fine(None) => !t.sessions[a].open && t.sessions[a].pc == Reading
                  case Fine(Some(_)) => t.sessions[a].open && t.sessions[a].pc == ProofSent(A, M1))
               case _ => !t.sessions[a].open
  {
    hide StoreStep, LifeStep, WorldStep, LW.Decode, CheckProof;
  }

  lemma TokenStep(cfg: Config, s: Sys, a: Address, random: Bytes, c: Moment)
    requires IsAt(s, a, Login) && s.sessions[a].pc.ProofSent? && |random| == TOKEN_BYTES
    requires LoginAt(s, PlaceOf(s, a)).challenge.Some?
    ensures Step(cfg, s, LoginPut(a, random, c)).Some?
    ensures var t := Step(cfg, s, LoginPut(a, random, c)).value;
            var x := s.sessions[a];
            var st := LoginAt(s, PlaceOf(s, a));
            && SameSession(s, t, a) && t.sessions[a] == x.(pc := ProofStored) && LoginAt(t, PlaceOf(s, a)) == st
            && t.vault == RemotePutIn(s.vault, ToHex(random), st.username,
                                      Token(x.sid, st.username, st.challenge.value, x.pc.A, x.pc.M1), SESSION_TTL, c)
  {
    hide StoreStep, LifeStep, WorldStep, OnLoginMessage, RemotePutIn;
  }

  lemma DoneStep(cfg: Config, s: Sys, a: Address)
    requires IsAt(s, a, Login) && s.sessions[a].pc.ProofStored? && s.sessions[a].open
    ensures Step(cfg, s, LoginFinish(a)).Some?
    ensures var t := Step(cfg, s, LoginFinish(a)).value;
            && SameSession(s, t, a) && t.vault == s.vault && Waits(t, a, Login) && t.sessions[a].own == s.sessions[a].own
            && LoginAt(t, PlaceOf(s, a)) == LoginAt(s, PlaceOf(s, a)).(stage := Done)
  {
    hide StoreStep, LifeStep, WorldStep, OnLoginMessage;
  }

  // ---------------------------------------------------------------- Login, turn by turn

  /** What the session answers to the hello when it resumes. */
  function HelloAnswer(cfg: Config, s: Sys, a: Address, ch: Chance): Checked<Turn> {
    if a in s.sessions && s.sessions[a].pc.HelloBack?
    then AfterTake(cfg, LoginAt(s, PlaceOf(s, a)), s.sessions[a].pc.found, s.sessions[a].pc.username, ch)
    else Raised
  }

  /** The session was let in by an entry that was put under this key. */
  predicate OwnsKey(s: Sys, a: Address, key: Bytes) {
    && a in s.sessions && s.sessions[a].own.Some? && s.sessions[a].own.value < |s.vault.takes|
    && Pass(s, a) < |s.vault.puts| && s.vault.puts[Pass(s, a)].key == key
  }

  lemma OwnsGrow(s: Sys, t: Sys, a: Address, key: Bytes)
    requires OwnsKey(s, a, key) && Extends(s.vault, t.vault) && a in t.sessions && t.sessions[a].own == s.sessions[a].own
    ensures OwnsKey(t, a, key)
  {}

  lemma TicketOwned(cfg: Config, s: Sys, a: Address, c: Moment)
    requires VaultInv(s.vault) && IsAt(s, a, Login) && s.sessions[a].pc.HelloSent?
    requires Answer(s.vault, s.sessions[a].pc.ticket, c).Some?
    ensures Step(cfg, s, LoginTake(a, c)).Some? && OwnsKey(Step(cfg, s, LoginTake(a, c)).value, a, s.sessions[a].pc.ticket)
  {
    hide DoTake, VaultInv, Step;
    TicketStep(cfg, s, a, c);
    TakeKeeps(s.vault, s.sessions[a].pc.ticket, s.sessions[a].sid, c);
    OneMoreTake(s.vault, s.sessions[a].pc.ticket, s.sessions[a].sid, c);
  }

  lemma OneMoreTake(v: Vault, key: Bytes, sid: Sid, c: Moment)
    requires TakeSucceeds(v, key, c)
    ensures |DoTake(v, key, sid, c).takes| == |v.takes| + 1
  {}

  /** A turn that resumes in `u` and leads to `t` ends as `turn` says, with the ticket's entry its own if it was found. */
  predicate HelloEnds(cfg: Config, u: Sys, t: Sys, a: Address, ticket: Bytes, found: bool, ch: Chance, turn: Checked<Turn>) {
    && HelloAnswer(cfg, u, a, ch) == turn && (found ==> OwnsKey(t, a, ticket))
    && a in t.sessions
    && (turn.Raised? ==> t.sessions[a].pc == Ended)
    && (turn.Fine? ==> LoginAt(t, PlaceOf(t, a)) == turn.value.state && (Waits(t, a, Login) <==> !turn.value.closed))
  }

  /** Login's first turn is its three steps: with anything in between, they leave the session as `Respond` does, and the
      store as it does at the step in which the take is executed. */
  lemma HelloTurnInSystem(cfg: Config, others: Others, s: Sys, a: Address, payload: Bytes, ticket: Bytes, username: Bytes, c: Moment, ch: Chance)
    requires Inv(cfg, s) && Schedules(cfg, others, a) && Waits(s, a, Login)
    requires LoginAt(s, PlaceOf(s, a)).stage == AwaitingHello && LW.Decode(payload) == Some(LW.ClientHello(ticket, username))
    ensures var s1 := Then(cfg, others, 0, s, LoginMessage(a, payload));
            && s1.Some?
            && var s2 := Then(cfg, others, 1, s1.value, LoginTake(a, c));
            && s2.Some?
            && var t := Step(cfg, s2.value, LoginResume(a, ch));
            && t.Some?
            && var (store, turn) := Respond(cfg, s1.value.vault.entries, LoginAt(s, PlaceOf(s, a)), payload, ch, Calls(c, c));
            && Step(cfg, s1.value, LoginTake(a, c)).value.vault.entries == store
            && var found := RemoteTake(cfg.mac, s1.value.vault.entries, ticket, c).1.Some?;
            HelloEnds(cfg, s2.value, t.value, a, ticket, found, ch, turn) && SameSession(s, t.value, a) && Inv(cfg, s2.value)
  {
    hide Inv, Exec, Then, Step, Schedules, DoTake, TakeSucceeds, LoginAt, VaultInv, FitStore, RemoteTake, AfterTake, LW.Decode, ProofTurn, OwnsKey;
    ShortTicket(payload);
    HelloStep(cfg, s, a, payload);
    ThenKeeps(cfg, others, 0, s, LoginMessage(a, payload), a);
    var s1 := Then(cfg, others, 0, s, LoginMessage(a, payload)).value;
    InvStore(cfg, s1);
    TakesAreRemote(cfg.mac, s1.vault, ticket, s1.sessions[a].sid, c);
    TicketStep(cfg, s1, a, c);
    ThenKeeps(cfg, others, 1, s1, LoginTake(a, c), a);
    var s2 := Then(cfg, others, 1, s1, LoginTake(a, c)).value;
    ChallengeStep(cfg, s2, a, ch);
    if Answer(s1.vault, ticket, c).Some? {
      TicketOwned(cfg, s1, a, c);
      OwnsGrow(Step(cfg, s1, LoginTake(a, c)).value, s2, a, ticket);
      OwnsGrow(s2, Step(cfg, s2, LoginResume(a, ch)).value, a, ticket);
    }
  }

  lemma ShortTicket(payload: Bytes)
    requires LW.Decode(payload).Some? && LW.Decode(payload).value.ClientHello?
    ensures |LW.Decode(payload).value.ticket| < 0x1_0000
  {
    hide LW.Decode, LW.Encode;
    LW.DecodeExact(payload, LW.Decode(payload).value);
  }

  /** The put of a session token, with the exchange that earned it. */
  predicate TokenPut(v: Vault, sid: Sid, st: SessionState, payload: Bytes, random: Bytes)
    requires st.challenge.Some? && LW.Decode(payload).Some? && LW.Decode(payload).value.ClientProof?
  {
    var m := LW.Decode(payload).value;
    PutEvent(ToHex(random), st.username, Token(sid, st.username, st.challenge.value, m.A, m.M1)) in v.puts
  }

  lemma TokenStays(v: Vault, w: Vault, z: Vault, sid: Sid, st: SessionState, payload: Bytes, random: Bytes, c: Moment)
    requires st.challenge.Some? && LW.Decode(payload).Some? && LW.Decode(payload).value.ClientProof?
    requires var m := LW.Decode(payload).value;
             w == RemotePutIn(v, ToHex(random), st.username, Token(sid, st.username, st.challenge.value, m.A, m.M1), SESSION_TTL, c)
    requires PutArrives(ToHex(random), st.username, c) && Extends(w, z)
    ensures TokenPut(z, sid, st, payload, random)
  {
    hide LW.Decode, ToHex, PutArrives;
    assert w.puts[|v.puts|] == z.puts[|v.puts|];
  }

  /** The payload is a proof, and the session awaits one. */
  predicate ProofDue(s: Sys, a: Address, payload: Bytes) {
    && a in s.sessions
    && LoginAt(s, PlaceOf(s, a)).stage == AwaitingProof && LoginAt(s, PlaceOf(s, a)).challenge.Some?
    && LW.Decode(payload).Some? && LW.Decode(payload).value.ClientProof?
    && 76 + |LoginAt(s, PlaceOf(s, a)).username| < 0x1_0000_0000
  }

  /** Login's second turn in the system: a refusal ends it at the message; an acceptance takes two steps more, which
      leave the session and the store as `Respond` does. */
  lemma ProofTurnInSystem(cfg: Config, others: Others, s: Sys, a: Address, payload: Bytes, ch: Chance, calls: Calls)
    requires Inv(cfg, s) && Schedules(cfg, others, a) && Waits(s, a, Login) && |ch.token| == TOKEN_BYTES
    ensures ProofDue(s, a, payload) ==>
            var p := PlaceOf(s, a);
            var st := LoginAt(s, p);
            var s1 := Then(cfg, others, 3, s, LoginMessage(a, payload));
            && s1.Some? && a in s1.value.sessions
            && var (store, turn) := Respond(cfg, s1.value.vault.entries, st, payload, ch, calls);
            if turn.Raised? then store == s1.value.vault.entries && s1.value.sessions[a].pc == Ended
            else if turn.value.closed then
              store == s1.value.vault.entries && LoginAt(s1.value, p) == turn.value.state
              && !s1.value.sessions[a].open && s1.value.sessions[a].pc == Reading
            else
              var s2 := Then(cfg, others, 4, s1.value, LoginPut(a, ch.token, calls.first));
              && s2.Some? && Step(cfg, s1.value, LoginPut(a, ch.token, calls.first)).value.vault.entries == store
              && var t := Step(cfg, s2.value, LoginFinish(a));
              t.Some? && LoginAt(t.value, p) == turn.value.state && Waits(t.value, a, Login)
              && SameSession(s, t.value, a) && t.value.sessions[a].own == s.sessions[a].own && Extends(s.vault, t.value.vault)
              && (PutArrives(ToHex(ch.token), st.username, calls.first) ==> TokenPut(t.value.vault, s.sessions[a].sid, st, payload, ch.token))
  {
    hide Inv, Exec, Then, Step, Schedules, LoginAt, TokenPut, PutArrives, RemotePut, RemoteList, RemotePutIn, LW.Decode, LW.Encode, ServerVerify, ToHex;
    if ProofDue(s, a, payload) {
      ProofStep(cfg, s, a, payload);
      ThenKeeps(cfg, others, 3, s, LoginMessage(a, payload), a);
      var s1 := Then(cfg, others, 3, s, LoginMessage(a, payload)).value;
      var st := LoginAt(s, PlaceOf(s, a));
      if s1.sessions[a].pc.ProofSent? {
        var token := ToHex(ch.token);
        var x := s1.sessions[a];
        PutsAreRemote(cfg.mac, s1.vault, token, st.username, Token(x.sid, st.username, st.challenge.value, x.pc.A, x.pc.M1), SESSION_TTL, calls.first);
        ListKeepsStore(cfg.mac, RemotePut(cfg.mac, s1.vault.entries, token, st.username, SESSION_TTL, calls.first).0, WORLD_PREFIX, calls.second);
        TokenStep(cfg, s1, a, ch.token, calls.first);
        ThenKeeps(cfg, others, 4, s1, LoginPut(a, ch.token, calls.first), a);
        var s1' := Step(cfg, s1, LoginPut(a, ch.token, calls.first)).value;
        var s2 := Then(cfg, others, 4, s1, LoginPut(a, ch.token, calls.first)).value;
        DoneStep(cfg, s2, a);
        if PutArrives(token, st.username, calls.first) {
          TokenStays(s1.vault, s1'.vault, s2.vault, x.sid, st, payload, ch.token, calls.first);
        }
      }
    }
  }

  // ---------------------------------------------------------------- an honest login among the others

  /** The client's answer to what it received: its proof, if that was a challenge that it accepts. */
  function Reply(cfg: Config, who: HL.Client, m: Option<LW.Msg>): Option<Srp6.ClientProof> {
    if m.None? || !m.value.ServerChallenge? then None else
    match ClientRespond(cfg.group, who.username, who.password, m.value.salt, m.value.B, who.a)
    case Raised => None
    case Fine(proof) => Some(proof)
  }

  /** Whether the client accepts the server's answer to its proof, as computed when the session reads that proof. */
  predicate ClientAccepts(cfg: Config, s: Sys, a: Address, proof: Srp6.ClientProof, random: Bytes) {
    && a in s.sessions && LoginAt(s, PlaceOf(s, a)).challenge.Some?
    && match CheckProof(cfg, LoginAt(s, PlaceOf(s, a)), proof.A, proof.M1)
       case Fine(Some(m2)) =>
         var m := HL.ToClient(LW.Encode(LW.ServerProof(m2, ToHex(random))));
         m.Some? && m.value.ServerProof? && ClientVerifyServer(cfg.group, proof, m.value.M2)
       case _ => false
  }

  /** The second half of a login: None when either side gives up. */
  ghost function PlayProof(cfg: Config, others: Others, s: Sys, a: Address, proof: Srp6.ClientProof, ch: Chance, put: Moment): Option<Sys> {
    var payload :- HL.ToServer(LW.Encode(LW.ClientProof(proof.A, proof.M1)));
    var s1 :- Then(cfg, others, 3, s, LoginMessage(a, payload));
    var s2 :- Then(cfg, others, 4, s1, LoginPut(a, ch.token, put));
    var t :- Step(cfg, s2, LoginFinish(a));
    if ClientAccepts(cfg, s, a, proof, ch.token) then Some(t) else None
  }

  /** The whole login of a client over one session, with the others at work after every step. */
  ghost function Play(cfg: Config, others: Others, s: Sys, a: Address, who: HL.Client, ch: Chance, take: Moment, put: Moment): Option<Sys> {
    var hello :- HL.ToServer(LW.Encode(LW.ClientHello(who.ticket, who.username)));
    var s1 :- Then(cfg, others, 0, s, LoginMessage(a, hello));
    var s2 :- Then(cfg, others, 1, s1, LoginTake(a, take));
    var s3 :- Then(cfg, others, 2, s2, LoginResume(a, ch));
    var proof :- Reply(cfg, who, HL.FirstSent(HelloAnswer(cfg, s2, a, ch)));
    PlayProof(cfg, others, s3, a, proof, ch, put)
  }

  lemma NoPut(cfg: Config, s: Sys, a: Address, random: Bytes, c: Moment)
    requires a in s.sessions && !s.sessions[a].pc.ProofSent?
    ensures Step(cfg, s, LoginPut(a, random, c)).None?
  {
    hide StoreStep, LifeStep, WorldStep, OnLoginMessage;
  }

  /** What a completed login leaves: the session at its last stage, and the put of its token, with the exchange that
      earned it, among the puts. */
  predicate LoggedIn(cfg: Config, t: Sys, a: Address, who: HL.Client, random: Bytes, put: Moment)
    requires who.username in cfg.accounts
  {
    && Waits(t, a, Login)
    && LoginAt(t, PlaceOf(t, a)).stage == Done && LoginAt(t, PlaceOf(t, a)).username == who.username
    && (put.net != RequestLost ==>
          exists e :: && e in t.vault.puts && e.key == ToHex(random) && e.value == who.username
                      && e.origin.Token? && e.origin.sid == t.sessions[a].sid)
  }

  lemma ProofPlayed(cfg: Config, others: Others, s: Sys, a: Address, who: HL.Client, ch: Chance, put: Moment, b: nat)
    requires Inv(cfg, s) && Schedules(cfg, others, a) && Waits(s, a, Login) && HL.HasAccount(cfg, who)
    requires |who.username| <= 2010 && |ch.token| == TOKEN_BYTES
    ensures var c := HL.TheChallenge(cfg, who, b);
            var r := ClientRespond(cfg.group, who.username, who.password, cfg.accounts[who.username].salt, c.B, who.a);
            && (r.Raised? ==> HL.Unlucky(cfg, who, b))
            && (r.Fine? && LoginAt(s, PlaceOf(s, a)) == SessionState(AwaitingProof, who.username, Some(c)) ==>
                  var f := PlayProof(cfg, others, s, a, r.value, ch, put);
                  && (f.Some? <==> !HL.Unlucky(cfg, who, b))
                  && (f.Some? ==> && LoggedIn(cfg, f.value, a, who, ch.token, put) && Extends(s.vault, f.value.vault)
                                  && f.value.sessions[a].own == s.sessions[a].own))
  {
    hide Inv, Then, Step, Schedules, ServerBegin, Register, ClientRespond, ServerVerify, ClientVerifyServer, BnFromBytes, ComputeU, BigEndian, ModExp, LW.Encode, LW.Decode, RemotePut, RemoteList, HL.ToServer, HL.ToClient, Worlds;
    var reg := cfg.accounts[who.username];
    var c := HL.TheChallenge(cfg, who, b);
    Agreement(cfg.group, who.username, who.password, reg.salt, who.a, b);
    HL.ProofShapes(cfg.group, who.username, who.password, reg.salt, who.a, c);
    var r := ClientRespond(cfg.group, who.username, who.password, reg.salt, c.B, who.a);
    if r.Fine? && LoginAt(s, PlaceOf(s, a)) == SessionState(AwaitingProof, who.username, Some(c)) {
      var m := LW.ClientProof(r.value.A, r.value.M1);
      HL.Sizes(m);
      HL.ArrivesAtServer(LW.Encode(m));
      LW.RoundTrip(m);
      var payload := LW.Encode(m);
      ProofTurnInSystem(cfg, others, s, a, payload, ch, Calls(put, put));
      var s1 := Then(cfg, others, 3, s, LoginMessage(a, payload)).value;
      var verdict := ServerVerify(cfg.group, c, r.value.A, r.value.M1).value;
      if verdict.None? {
        NoPut(cfg, s1, a, ch.token, put);
        assert Then(cfg, others, 4, s1, LoginPut(a, ch.token, put)).None? by { ThenNone(cfg, others, 4, s1, LoginPut(a, ch.token, put)); }
      } else {
        var reply := LW.ServerProof(verdict.value, ToHex(ch.token));
        HL.Sizes(reply);
        HL.ArrivesAtClient(reply);
      }
    }
  }

  lemma ThenNone(cfg: Config, others: Others, n: nat, s: Sys, l: Label)
    requires Step(cfg, s, l).None?
    ensures Then(cfg, others, n, s, l).None?
  {}

  /** The first half: the challenge of the account reaches the client, exactly when the ticket was found. */
  lemma HelloPlayed(cfg: Config, others: Others, s: Sys, a: Address, who: HL.Client, ch: Chance, take: Moment)
    requires Inv(cfg, s) && Schedules(cfg, others, a) && Waits(s, a, Login) && LoginAt(s, PlaceOf(s, a)) == FRESH
    requires HL.HasAccount(cfg, who) && ch.databaseUp && |who.ticket| + |who.username| <= LOGIN_FRAME - 6
    ensures var s1 := Then(cfg, others, 0, s, LoginMessage(a, LW.Encode(LW.ClientHello(who.ticket, who.username))));
            && s1.Some?
            && var s2 := Then(cfg, others, 1, s1.value, LoginTake(a, take));
            && s2.Some?
            && var s3 := Then(cfg, others, 2, s2.value, LoginResume(a, ch));
            && s3.Some? && Inv(cfg, s3.value) && a in s3.value.sessions
            && var m := HL.FirstSent(HelloAnswer(cfg, s2.value, a, ch));
            var c := HL.TheChallenge(cfg, who, ch.b);
            if take.net == Delivered && Lookup(s1.value.vault.entries, who.ticket, take.now).Some? then
              && m == Some(LW.ServerChallenge(cfg.accounts[who.username].salt, c.B))
              && Waits(s3.value, a, Login) && OwnsKey(s3.value, a, who.ticket)
              && LoginAt(s3.value, PlaceOf(s3.value, a)) == SessionState(AwaitingProof, who.username, Some(c))
            else m.None?
  {
    hide Inv, Then, Step, Schedules, OwnsKey, HL.TheChallenge, Register, LW.Encode, LW.Decode, HL.ToClient, Respond, FitStore, HelloAnswer, RemoteTake, LoginAt;
    var payload := LW.Encode(LW.ClientHello(who.ticket, who.username));
    LW.RoundTrip(LW.ClientHello(who.ticket, who.username));
    HelloTurnInSystem(cfg, others, s, a, payload, who.ticket, who.username, take, ch);
    HelloStep(cfg, s, a, payload);
    InvThen(cfg, others, 0, s, LoginMessage(a, payload), a);
    var s1 := Then(cfg, others, 0, s, LoginMessage(a, payload)).value;
    var s2 := Then(cfg, others, 1, s1, LoginTake(a, take)).value;
    InvStore(cfg, s1);
    HL.HelloTurn(cfg, s1.vault.entries, who, ch, take);
    RemoteTakeIsLocal(cfg.mac, s1.vault.entries, who.ticket, take);
    ThenKeeps(cfg, others, 2, s2, LoginResume(a, ch), a);
    if LocalTake(s1.vault.entries, who.ticket, take).1.Some? {
      HL.ChallengeReachesClient(cfg.accounts[who.username].salt, HL.TheChallenge(cfg, who, ch.b).B);
      OwnsGrow(Step(cfg, s2, LoginResume(a, ch)).value, Then(cfg, others, 2, s2, LoginResume(a, ch)).value, a, who.ticket);
    }
  }

  /** An honest login among any number of other sessions, whatever they and the rest of the system do between any two of
      its steps. It completes with both proofs accepted exactly when the hello fits a Login frame, its ticket is live in
      the store as the others have left it when the take is executed and the answer comes back, and SRP is not unlucky.
      The session then is at its last stage under this username, let in by its own ticket, and unless the request was
      lost its token has been put for exactly this username. */
  lemma LoginAmongOthers(cfg: Config, others: Others, s: Sys, a: Address, who: HL.Client, ch: Chance, take: Moment, put: Moment)
    requires Inv(cfg, s) && Schedules(cfg, others, a) && Waits(s, a, Login) && LoginAt(s, PlaceOf(s, a)) == FRESH
    requires HL.HasAccount(cfg, who) && ch.databaseUp && |ch.token| == TOKEN_BYTES
    requires |who.ticket| == 2 * TOKEN_BYTES && 38 + |who.username| < 0x1_0000_0000
    ensures var s1 := Then(cfg, others, 0, s, LoginMessage(a, LW.Encode(LW.ClientHello(who.ticket, who.username))));
            var f := Play(cfg, others, s, a, who, ch, take, put);
            && s1.Some?
            && (f.Some? <==> && |who.username| <= 2010
                             && take.net == Delivered && Lookup(s1.value.vault.entries, who.ticket, take.now).Some?
                             && !HL.Unlucky(cfg, who, ch.b))
            && (f.Some? ==> LoggedIn(cfg, f.value, a, who, ch.token, put) && OwnsKey(f.value, a, who.ticket))
  {
    hide Inv, Then, Step, Schedules, OwnsKey, PlayProof, HL.Unlucky, HL.TheChallenge, Register, ClientRespond, LW.Encode, LW.Decode, HL.ToServer, FitStore, HelloAnswer;
    var hello := LW.ClientHello(who.ticket, who.username);
    var payload := LW.Encode(hello);
    HL.Sizes(hello);
    HL.ArrivesAtServer(payload);
    if |who.username| <= 2010 {
      HelloPlayed(cfg, others, s, a, who, ch, take);
      var s1 := Then(cfg, others, 0, s, LoginMessage(a, payload)).value;
      var s2 := Then(cfg, others, 1, s1, LoginTake(a, take)).value;
      var s3 := Then(cfg, others, 2, s2, LoginResume(a, ch)).value;
      if take.net == Delivered && Lookup(s1.vault.entries, who.ticket, take.now).Some? {
        ProofPlayed(cfg, others, s3, a, who, ch, put, ch.b);
        var f := Play(cfg, others, s, a, who, ch, take, put);
        if f.Some? { OwnsGrow(s3, f.value, a, who.ticket); }
      }
    } else {
      HelloStep(cfg, s, a, payload);
      ThenKeeps(cfg, others, 0, s, LoginMessage(a, payload), a);
    }
  }

  lemma InvThen(cfg: Config, others: Others, n: nat, s: Sys, l: Label, a: Address)
    requires Inv(cfg, s) && Schedules(cfg, others, a) && Step(cfg, s, l).Some? && a in Step(cfg, s, l).value.sessions
    ensures Then(cfg, others, n, s, l).Some? && Inv(cfg, Then(cfg, others, n, s, l).value)
  {
    hide Inv, Then, Step, Schedules;
    ThenKeeps(cfg, others, n, s, l, a);
  }

  // ---------------------------------------------------------------- what opens World

  lemma {:induction false} ExecAppend(cfg: Config, s: Sys, xs: seq<Label>, ys: seq<Label>)
    requires Exec(cfg, s, xs).Some?
    ensures Exec(cfg, s, xs + ys) == Exec(cfg, Exec(cfg, s, xs).value, ys)
    decreases |xs|
  {
    hide Step;
    if xs == [] {
      assert xs + ys == ys;
    } else {
      ExecAppend(cfg, Step(cfg, s, xs[0]).value, xs[1..], ys);
      assert (xs + ys)[1..] == xs[1..] + ys;
    }
  }

  /** The session at `a` is an authenticated World session, let in by this put, under the name it wrote. */
  predicate AdmittedBy(s: Sys, a: Address, e: PutEvent) {
    && IsAt(s, a, World) && OwnsKey(s, a, e.key) && s.vault.puts[Pass(s, a)] == e
    && WorldAt(s, PlaceOf(s, a)) == WorldState(true, e.value)
  }

  function Visit(b: Address, key: Bytes, c: Moment): seq<Label> {
    [WorldMessage(b, key), WorldTake(b, c), WorldResume(b)]
  }

  /** Any live key of the store opens World, whoever wrote it: a stranger that presents it over a network that answers is
      let in by its put. */
  lemma AnyLiveKeyOpensWorld(cfg: Config, s: Sys, b: Address, key: Bytes, c: Moment)
    requires Inv(cfg, s) && c.net == Delivered
    ensures Waits(s, b, World) && !WorldAt(s, PlaceOf(s, b)).authenticated && Lookup(s.vault.entries, key, c.now).Some? ==>
              && Exec(cfg, s, Visit(b, key, c)).Some?
              && key in s.vault.tags && s.vault.tags[key] < |s.vault.puts|
              && AdmittedBy(Exec(cfg, s, Visit(b, key, c)).value, b, s.vault.puts[s.vault.tags[key]])
  {
    hide Inv, Step, DoTake, Exec, VaultInv;
    assert VaultInv(s.vault) by { InvStore(cfg, s); }
    if Waits(s, b, World) && !WorldAt(s, PlaceOf(s, b)).authenticated && Lookup(s.vault.entries, key, c.now).Some? {
      AskStep(cfg, s, b, key);
      var s1 := Step(cfg, s, WorldMessage(b, key)).value;
      AuthStep(cfg, s1, b, c);
      var s2 := Step(cfg, s1, WorldTake(b, c)).value;
      AnyPass(cfg, s1, b, c);
      AdmitStep(cfg, s2, b);
      var t := Step(cfg, s2, WorldResume(b)).value;
      assert t.sessions[b].own == s2.sessions[b].own by { AdmitOwn(cfg, s2, b); }
      OwnsGrow(s2, t, b, key);
      Exec3(cfg, s, WorldMessage(b, key), WorldTake(b, c), WorldResume(b));
    }
  }

  lemma Exec3(cfg: Config, s: Sys, l1: Label, l2: Label, l3: Label)
    requires Step(cfg, s, l1).Some?
    requires Step(cfg, Step(cfg, s, l1).value, l2).Some?
    ensures Exec(cfg, s, [l1, l2, l3]) == Step(cfg, Step(cfg, Step(cfg, s, l1).value, l2).value, l3)
  {
    hide Step;
    assert [l1, l2, l3] == [l1] + ([l2] + ([l3] + []));
    ExecCons(cfg, s, l1, [l2] + ([l3] + []));
    ExecCons(cfg, Step(cfg, s, l1).value, l2, [l3] + []);
    ExecCons(cfg, Step(cfg, Step(cfg, s, l1).value, l2).value, l3, []);
  }

  lemma AdmitOwn(cfg: Config, s: Sys, a: Address)
    requires IsAt(s, a, World) && Step(cfg, s, WorldResume(a)).Some?
    ensures Step(cfg, s, WorldResume(a)).value.sessions[a].own == s.sessions[a].own
  {
    hide StoreStep, LifeStep, LoginStep;
  }

  /** The pass of a session whose take has been answered is the put that wrote the entry. */
  lemma AnyPass(cfg: Config, s: Sys, a: Address, c: Moment)
    requires VaultInv(s.vault) && IsAt(s, a, World) && s.sessions[a].pc.AuthSent?
    requires c.net == Delivered && Lookup(s.vault.entries, s.sessions[a].pc.token, c.now).Some?
    ensures var key := s.sessions[a].pc.token;
            && Answer(s.vault, key, c) == Some(s.vault.entries[key].value)
            && key in s.vault.tags && s.vault.tags[key] < |s.vault.puts|
            && var e := s.vault.puts[s.vault.tags[key]];
            && e.key == key && e.value == s.vault.entries[key].value
            && Step(cfg, s, WorldTake(a, c)).Some?
            && var t := Step(cfg, s, WorldTake(a, c)).value;
            OwnsKey(t, a, key) && t.vault.puts[Pass(t, a)] == e
  {
    hide StoreStep, LifeStep, LoginStep;
  }

  // ---------------------------------------------------------------- every origin does open World

  const NOW := Moment(0, _ => [], _ => 0, Delivered)

  /** One heartbeat of a Login with an empty host name, and what a listing then shows. */
  const FIRST_LOGIN := LoginInfo([], LOGIN_PORT)
  const FIRST_LISTING := [StoreWire.Entry(LoginKey([]), EncodeLogin(FIRST_LOGIN))]

  /** A Login registers, Master hands out a ticket, and one session each connects to Login and to World. */
  function Opening(random: Bytes): seq<Label> {
    [BeatLogin([], NOW), MasterMessage(random, FIRST_LISTING, NOW.at, NOW.now), Connect(Login, 0, 0), Connect(World, 1, 0)]
  }

  function OpeningEntries(random: Bytes): Entries {
    PutIn(PutIn(map[], LoginKey([]), EncodeLogin(FIRST_LOGIN), BEAT_TTL, 0), ToHex(random), [], TICKET_TTL, 0)
  }

  function OpeningVault(random: Bytes): Vault {
    Vault(OpeningEntries(random),
          map[LoginKey([]) := 0, ToHex(random) := 1],
          [PutEvent(LoginKey([]), EncodeLogin(FIRST_LOGIN), Beat), PutEvent(ToHex(random), [], Ticket)],
          [])
  }

  lemma FirstBeat()
    ensures PutArrives(LoginKey([]), EncodeLogin(FIRST_LOGIN), NOW)
    ensures PickLogin(FIRST_LISTING).Some?
    ensures Enumerates(FIRST_LISTING, map[LoginKey([]) := EncodeLogin(FIRST_LOGIN)])
  {
    hide DecodeLogin;
    LoginInfoRoundTrip(FIRST_LOGIN);
    assert FIRST_LISTING[0].key in Keys(FIRST_LISTING);
    assert Keys(FIRST_LISTING) == {LoginKey([])};
  }

  lemma FirstSteps(cfg: Config, random: Bytes)
    requires |random| == TOKEN_BYTES
    ensures var s1 := Step(cfg, START, BeatLogin([], NOW));
            && s1.Some?
            && Step(cfg, s1.value, MasterMessage(random, FIRST_LISTING, NOW.at, NOW.now)) == Some(START.(vault := OpeningVault(random)))
  {
    hide EncodeLogin, LoginKey, ToHex, PickLogin, Enumerates, PutArrives;
    FirstBeat();
    KeysApart(ToHex(random), []);
    TokensAreTokens(random);
    var s1 := Step(cfg, START, BeatLogin([], NOW)).value;
    assert s1 == START.(vault := DoPut(START.vault, LoginKey([]), EncodeLogin(FIRST_LOGIN), Beat, BEAT_TTL, 0));
    assert ListOf(s1.vault.entries, LOGIN_PREFIX, NOW.at) == map[LoginKey([]) := EncodeLogin(FIRST_LOGIN)];
    assert DoPut(s1.vault, ToHex(random), [], Ticket, TICKET_TTL, 0) == OpeningVault(random);
  }

  /** Two sessions connect. */
  lemma TwoConnect(cfg: Config, s: Sys)
    requires s.sessions == map[] && s.logins == map[] && s.worlds == map[]
    ensures var run := [Connect(Login, 0, 0), Connect(World, 1, 0)];
            && Exec(cfg, s, run).Some?
            && var t := Exec(cfg, s, run).value;
            && t.vault == s.vault
            && Waits(t, 0, Login) && LoginAt(t, PlaceOf(t, 0)) == FRESH
            && Waits(t, 1, World) && WorldAt(t, PlaceOf(t, 1)) == STRANGER
  {
    var l3, l4 := Connect(Login, 0, 0), Connect(World, 1, 0);
    assert [l3, l4] == [l3] + ([l4] + []);
    ExecCons(cfg, s, l3, [l4] + []);
    ExecCons(cfg, Step(cfg, s, l3).value, l4, []);
  }

  /** A Login session and a World session wait for their first message, a ticket and a registration are live. */
  lemma Opened(cfg: Config, random: Bytes)
    requires |random| == TOKEN_BYTES
    ensures Exec(cfg, START, Opening(random)).Some?
    ensures var s := Exec(cfg, START, Opening(random)).value;
            && Inv(cfg, s)
            && Waits(s, 0, Login) && LoginAt(s, PlaceOf(s, 0)) == FRESH
            && Waits(s, 1, World) && WorldAt(s, PlaceOf(s, 1)) == STRANGER
            && s.vault == OpeningVault(random)
            && Lookup(s.vault.entries, LoginKey([]), 0) == Some(EncodeLogin(FIRST_LOGIN))
            && Lookup(s.vault.entries, ToHex(random), 0) == Some([])
            && s.vault.tags[LoginKey([])] == 0 && s.vault.tags[ToHex(random)] == 1
  {
    hide EncodeLogin, LoginKey, ToHex, Inv, Step, Exec, Waits, LoginAt, WorldAt;
    var l1, l2 := BeatLogin([], NOW), MasterMessage(random, FIRST_LISTING, NOW.at, NOW.now);
    var rest := [Connect(Login, 0, 0), Connect(World, 1, 0)];
    FirstSteps(cfg, random);
    KeysApart(ToHex(random), []);
    TokensAreTokens(random);
    var s1 := Step(cfg, START, l1).value;
    assert Opening(random) == [l1] + ([l2] + rest);
    ExecCons(cfg, START, l1, [l2] + rest);
    ExecCons(cfg, s1, l2, rest);
    TwoConnect(cfg, START.(vault := OpeningVault(random)));
    EveryRun(cfg, Opening(random));
  }

  /** A client that never met Login is let in by a ticket, without a name, and by a registry key, under the bytes of the
      registration. */
  lemma TicketsAndRegistrationsOpenWorld(cfg: Config, random: Bytes)
    requires |random| == TOKEN_BYTES
    ensures var run := Opening(random) + Visit(1, ToHex(random), NOW);
            && Exec(cfg, START, run).Some?
            && AdmittedBy(Exec(cfg, START, run).value, 1, PutEvent(ToHex(random), [], Ticket))
    ensures var run := Opening(random) + Visit(1, LoginKey([]), NOW);
            && Exec(cfg, START, run).Some?
            && AdmittedBy(Exec(cfg, START, run).value, 1, PutEvent(LoginKey([]), EncodeLogin(FIRST_LOGIN), Beat))
  {
    hide EncodeLogin, LoginKey, ToHex, Inv, Exec, AdmittedBy;
    Opened(cfg, random);
    var s := Exec(cfg, START, Opening(random)).value;
    AnyLiveKeyOpensWorld(cfg, s, 1, ToHex(random), NOW);
    AnyLiveKeyOpensWorld(cfg, s, 1, LoginKey([]), NOW);
    ExecAppend(cfg, START, Opening(random), Visit(1, ToHex(random), NOW));
    ExecAppend(cfg, START, Opening(random), Visit(1, LoginKey([]), NOW));
  }

  /** Nobody else does anything. */
  const QUIET: Others := (n: nat, s: Sys) => []

  lemma QuietThen(cfg: Config, n: nat, s: Sys, l: Label)
    ensures Then(cfg, QUIET, n, s, l) == Step(cfg, s, l)
  {}

  /** Right after a login on its own, its token is in the store, as the put of its exchange. */
  predicate TokenStored(v: Vault, token: Bytes, username: Bytes, c: Moment) {
    && token in v.entries && v.entries[token] == Stored(username, c.now + SESSION_TTL * SECOND)
    && token in v.tags && v.tags[token] < |v.puts|
    && var e := v.puts[v.tags[token]];
    e.key == token && e.value == username && e.origin.Token? && e.origin.username == username
  }

  lemma LastSteps(cfg: Config, s: Sys, a: Address, random: Bytes, c: Moment)
    requires Step(cfg, s, LoginPut(a, random, c)).Some?
    requires Step(cfg, Step(cfg, s, LoginPut(a, random, c)).value, LoginFinish(a)).Some?
    ensures var t := Step(cfg, Step(cfg, s, LoginPut(a, random, c)).value, LoginFinish(a)).value;
            && a in t.sessions
            && var username := LoginAt(t, PlaceOf(t, a)).username;
            PutArrives(ToHex(random), username, c) ==> TokenStored(t.vault, ToHex(random), username, c)
  {
    hide StoreStep, LifeStep, WorldStep, OnLoginMessage, PutArrives, ToHex;
  }

  predicate TokenLeft(t: Sys, a: Address, random: Bytes, put: Moment) {
    && a in t.sessions
    && var username := LoginAt(t, PlaceOf(t, a)).username;
    PutArrives(ToHex(random), username, put) ==> TokenStored(t.vault, ToHex(random), username, put)
  }

  lemma PlayProofIsRun(cfg: Config, s: Sys, a: Address, proof: Srp6.ClientProof, ch: Chance, put: Moment) returns (ls: seq<Label>)
    ensures var f := PlayProof(cfg, QUIET, s, a, proof, ch, put);
            f.Some? ==> Exec(cfg, s, ls) == f && (forall l :: l in ls ==> Actor(l) == Some(a)) && TokenLeft(f.value, a, ch.token, put)
  {
    hide Step, Then, Exec, HL.ToServer, ClientAccepts, LoginAt, TokenStored, PutArrives, LW.Encode, ToHex;
    ls := [];
    var payload := HL.ToServer(LW.Encode(LW.ClientProof(proof.A, proof.M1)));
    if payload.Some? {
      var l1, l2, l3 := LoginMessage(a, payload.value), LoginPut(a, ch.token, put), LoginFinish(a);
      QuietThen(cfg, 3, s, l1);
      if Step(cfg, s, l1).Some? {
        var s1 := Step(cfg, s, l1).value;
        QuietThen(cfg, 4, s1, l2);
        if Step(cfg, s1, l2).Some? && Step(cfg, Step(cfg, s1, l2).value, l3).Some? {
          LastSteps(cfg, s1, a, ch.token, put);
          Exec3(cfg, s, l1, l2, l3);
          ls := [l1, l2, l3];
        }
      }
    }
  }

  /** A login on its own is a run of its session. */
  lemma PlayIsRun(cfg: Config, s: Sys, a: Address, who: HL.Client, ch: Chance, take: Moment, put: Moment) returns (ls: seq<Label>)
    ensures var f := Play(cfg, QUIET, s, a, who, ch, take, put);
            f.Some? ==> Exec(cfg, s, ls) == f && Away(ls, a + 1) && TokenLeft(f.value, a, ch.token, put)
  {
    hide Step, Then, Exec, HL.ToServer, HL.FirstSent, Reply, HelloAnswer, PlayProof, TokenLeft, LW.Encode;
    ls := [];
    if Play(cfg, QUIET, s, a, who, ch, take, put).Some? {
      var l1 := LoginMessage(a, HL.ToServer(LW.Encode(LW.ClientHello(who.ticket, who.username))).value);
      var l2, l3 := LoginTake(a, take), LoginResume(a, ch);
      QuietThen(cfg, 0, s, l1);
      var s1 := Step(cfg, s, l1).value;
      QuietThen(cfg, 1, s1, l2);
      var s2 := Step(cfg, s1, l2).value;
      QuietThen(cfg, 2, s2, l3);
      var s3 := Step(cfg, s2, l3).value;
      ls := PlayProofIsRun(cfg, s3, a, Reply(cfg, who, HL.FirstSent(HelloAnswer(cfg, s2, a, ch))).value, ch, put);
      Exec3(cfg, s, l1, l2, l3);
      ExecAppend(cfg, s, [l1, l2, l3], ls);
      ls := [l1, l2, l3] + ls;
    }
  }

  /** After the opening, an honest login runs to its end and leaves its token in the store; the World session still waits. */
  lemma LoginAfterOpening(cfg: Config, who: HL.Client, ch: Chance, random: Bytes) returns (run: seq<Label>)
    requires HL.HasAccount(cfg, who) && ch.databaseUp && |ch.token| == TOKEN_BYTES && |random| == TOKEN_BYTES
    requires who.ticket == ToHex(random) && |who.username| <= 2010
    ensures !HL.Unlucky(cfg, who, ch.b) ==>
              && Exec(cfg, START, run).Some?
              && var t := Exec(cfg, START, run).value;
              && Inv(cfg, t) && Waits(t, 1, World) && WorldAt(t, PlaceOf(t, 1)) == STRANGER
              && TokenStored(t.vault, ToHex(ch.token), who.username, NOW)
  {
    hide Inv, Step, Exec, Play, Then, Register, HL.Unlucky, ToHex, LoginAt, WorldAt, OpeningVault, OwnsKey, TokenStored, Schedules;
    Opened(cfg, random);
    var s := Exec(cfg, START, Opening(random)).value;
    QuietSchedules(cfg, 0);
    LoginAmongOthers(cfg, QUIET, s, 0, who, ch, NOW, NOW);
    TicketUntouched(cfg, s, who);
    var ls := PlayIsRun(cfg, s, 0, who, ch, NOW, NOW);
    run := Opening(random) + ls;
    if !HL.Unlucky(cfg, who, ch.b) {
      Undisturbed(cfg, s, ls, 1);
      ExecAppend(cfg, START, Opening(random), ls);
    }
  }

  /** And a token opens World as it should: for every account and client there is a run, unless SRP is unlucky, in which an honest
      login earns a token that lets a World session in under the account's name. */
  lemma TokensOpenWorld(cfg: Config, who: HL.Client, ch: Chance, random: Bytes) returns (run: seq<Label>)
    requires HL.HasAccount(cfg, who) && ch.databaseUp && |ch.token| == TOKEN_BYTES && |random| == TOKEN_BYTES
    requires who.ticket == ToHex(random) && |who.username| <= 2010
    ensures !HL.Unlucky(cfg, who, ch.b) ==>
              && Exec(cfg, START, run).Some?
              && exists e :: && AdmittedBy(Exec(cfg, START, run).value, 1, e)
                             && e.key == ToHex(ch.token) && e.origin.Token? && e.origin.username == e.value == who.username
  {
    hide Inv, Exec, Register, HL.Unlucky, ToHex, WorldAt, AdmittedBy;
    var login := LoginAfterOpening(cfg, who, ch, random);
    var visit := Visit(1, ToHex(ch.token), NOW);
    run := login + visit;
    if !HL.Unlucky(cfg, who, ch.b) {
      var t := Exec(cfg, START, login).value;
      AnyLiveKeyOpensWorld(cfg, t, 1, ToHex(ch.token), NOW);
      ExecAppend(cfg, START, login, visit);
    }
  }

  lemma QuietSchedules(cfg: Config, a: Address)
    ensures Schedules(cfg, QUIET, a)
  {}

  lemma TicketUntouched(cfg: Config, s: Sys, who: HL.Client)
    requires Waits(s, 0, Login) && LoginAt(s, PlaceOf(s, 0)) == FRESH
    ensures var l := LoginMessage(0, LW.Encode(LW.ClientHello(who.ticket, who.username)));
            Then(cfg, QUIET, 0, s, l).Some? && Then(cfg, QUIET, 0, s, l).value.vault == s.vault
  {
    hide Step, Then, LW.Encode;
    var l := LoginMessage(0, LW.Encode(LW.ClientHello(who.ticket, who.username)));
    HelloStep(cfg, s, 0, l.payload);
    QuietThen(cfg, 0, s, l);
  }

  /** The smallest group, under a hash that always answers 1. */
  lemma TinyChallenge(p: Group, username: Bytes, one: Hash)
    requires p == GroupParams(3, _ => one) && FromBigEndian(one) == 1
    ensures Register(p, username, [], []).Fine?
    ensures var c := ServerBegin(p, Register(p, username, [], []).value.verifier, 1);
            c.Fine? && FromBigEndian(c.value.B) == 1
  {
    hide BigEndian, FromBigEndian, Register, ServerBegin;
    RegistersExactly(p, username, [], []);
    assert Pow(2, 1) == 2 by { PowerOfOne(2); }
    InRange(p, 2);
    BeginsExactly(p, BigEndian(2, 256), 1);
    InRange(p, 1);
  }

  /** None of this is empty: there are accounts and choices with which SRP is not unlucky. */
  lemma LuckyLogin(random: Bytes) returns (cfg: Config, who: HL.Client, ch: Chance)
    ensures HL.HasAccount(cfg, who) && ch.databaseUp && |ch.token| == TOKEN_BYTES
    ensures who.ticket == ToHex(random) && |who.username| <= 2010 && who.username != []
    ensures !HL.Unlucky(cfg, who, ch.b)
  {
    hide BigEndian, FromBigEndian, Register, ServerBegin, ModExp;
    PowerGrows(N_BYTES);
    PowerGrows(32);
    var one: Hash := BigEndian(1, 32);
    NumberRoundTrip(1, 32);
    var p: Group := GroupParams(3, _ => one);
    var name := Ascii("a");
    TinyChallenge(p, name, one);
    cfg := Config(p, (_: Bytes) => one, (_: Bytes) => one, map[name := Register(p, name, [], []).value]);
    who := HL.Client(ToHex(random), name, [], 0);
    ch := Chance(1, [], seq(TOKEN_BYTES, _ => 0), true);
    RegistersExactly(p, name, [], []);
  }
}
