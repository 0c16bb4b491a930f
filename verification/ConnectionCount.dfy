/**
 Connection accounting across the accept loops (include/server.hpp).

 One loop per thread, a shared atomic counter, one registry per thread, and any
 number of `wait_drained` callers. A step is one atomic access to shared state;
 between two waits a thread runs one coroutine at a time, so it is at one point of
 either the accept path or a session's closing path. Atomic operations are taken
 as sequentially consistent.
 */
module ConnectionCount {
  import opened ByteIo

  type Sid = nat

  /** Where a thread stands. */
  datatype Pc =
    | Idle
    | Admitted(sid: Sid)   // the cap check passed, the counter not yet raised
    | Counted(sid: Sid)    // counter raised, session not yet in the registry
    | Removed(sid: Sid)    // session out of the registry, counter not yet lowered
    | MustNotify           // lowered the counter from 1 to 0

  /** Where a `wait_drained` caller stands. */
  datatype Waiter = Loading | Comparing(seen: int) | Parked(seen: int) | Returned

  datatype State = State(
    active: int,
    pcs: seq<Pc>,
    registries: seq<set<Sid>>,
    waiters: map<nat, Waiter>,
    next: Sid,
    entered: seq<Sid>,   // history: sessions counted in, in order
    departed: seq<Sid>)   // history: sessions counted out, in order

  datatype Label =
    | Accept(t: nat)         // a socket arrives: load the counter, compare with the cap
    | Open(t: nat)           // fetch_add
    | Register(t: nat)       // registry.add, and the session is spawned
    | End(t: nat, sid: Sid)  // the session's run is over: registry.remove
    | Close(t: nat)          // fetch_sub
    | Notify(t: nat)         // notify_all
    | CallWait(w: nat)
    | Load(w: nat)
    | GiveUp(w: nat)         // the deadline has passed
    | Compare(w: nat)        // the comparison inside atomic::wait
    | Spurious(w: nat)

  function Init(threads: nat): State {
    State(0, seq(threads, _ => Idle), seq(threads, _ => {}), map[], 0, [], [])
  }

  function Wake(ws: map<nat, Waiter>): map<nat, Waiter> {
    map w | w in ws :: if ws[w].Parked? then Comparing(ws[w].seen) else ws[w]
  }

  function At(s: State, t: nat): Option<Pc> {
    if t < |s.pcs| && t < |s.registries| then Some(s.pcs[t]) else None
  }

  function Go(s: State, t: nat, pc: Pc): State
    requires t < |s.pcs|
  {
    s.(pcs := s.pcs[t := pc])
  }

  /** One step, when the label is enabled. */
  function Step(cap: nat, s: State, l: Label): Option<State> {
    match l
    case Accept(t) =>
      if At(s, t) != Some(Idle) then None
      else if s.active >= cap then Some(s)
      else Some(Go(s, t, Admitted(s.next)).(next := s.next + 1))
    case Open(t) =>
      var pc :- At(s, t);
      if !pc.Admitted? then None
      else Some(Go(s, t, Counted(pc.sid)).(active := s.active + 1, entered := s.entered + [pc.sid]))
    case Register(t) =>
      var pc :- At(s, t);
      if !pc.Counted? then None
      else Some(Go(s, t, Idle).(registries := s.registries[t := s.registries[t] + {pc.sid}]))
    case End(t, sid) =>
      if At(s, t) != Some(Idle) || sid !in s.registries[t] then None
      else Some(Go(s, t, Removed(sid)).(registries := s.registries[t := s.registries[t] - {sid}]))
    case Close(t) =>
      var pc :- At(s, t);
      if !pc.Removed? then None
      else Some(Go(s, t, if s.active == 1 then MustNotify else Idle).(active := s.active - 1, departed := s.departed + [pc.sid]))
    case Notify(t) =>
      if At(s, t) != Some(MustNotify) then None
      else Some(Go(s, t, Idle).(waiters := Wake(s.waiters)))
    case _ => WaitStep(s, l)
  }

  function WaitStep(s: State, l: Label): Option<State> {
    match l
    case CallWait(w) => if w in s.waiters then None else Some(s.(waiters := s.waiters[w := Loading]))
    case Load(w) =>
      if w !in s.waiters || s.waiters[w] != Loading then None
      else Some(s.(waiters := s.waiters[w := if s.active == 0 then Returned else Comparing(s.active)]))
    case GiveUp(w) =>
      if w !in s.waiters || !s.waiters[w].Comparing? then None
      else Some(s.(waiters := s.waiters[w := Returned]))
    case Compare(w) =>
      if w !in s.waiters || !s.waiters[w].Comparing? then None
      else
        var seen := s.waiters[w].seen;
        Some(s.(waiters := s.waiters[w := if s.active == seen then Parked(seen) else Loading]))
    case Spurious(w) =>
      if w !in s.waiters || !s.waiters[w].Parked? then None
      else Some(s.(waiters := s.waiters[w := Comparing(s.waiters[w].seen)]))
    case _ => None
  }

  /** A run: the labels in order, as long as each is enabled. */
  function Exec(cap: nat, s: State, ls: seq<Label>): Option<State>
    decreases |ls|
  {
    if ls == [] then Some(s) else
    var s' :- Step(cap, s, ls[0]);
    Exec(cap, s', ls[1..])
  }

  // ---------------------------------------------------------------- sums

  function Total(rs: seq<set<Sid>>): nat {
    if rs == [] then 0 else |rs[0]| + Total(rs[1..])
  }

  lemma {:induction false} TotalUpdate(rs: seq<set<Sid>>, t: nat, r: set<Sid>)
    requires t < |rs|
    ensures Total(rs[t := r]) == Total(rs) - |rs[t]| + |r|
  {
    if t == 0 {
      assert rs[t := r][1..] == rs[1..];
    } else {
      TotalUpdate(rs[1..], t - 1, r);
      assert rs[t := r][1..] == rs[1..][t - 1 := r];
    }
  }

  function Bit(b: bool): nat { if b then 1 else 0 }

  /** Threads that passed the check but have not raised the counter; threads holding a counted session in hand. */
  function CountAdmitted(pcs: seq<Pc>): nat {
    if pcs == [] then 0 else Bit(pcs[0].Admitted?) + CountAdmitted(pcs[1..])
  }

  function CountInHand(pcs: seq<Pc>): nat {
    if pcs == [] then 0 else Bit(pcs[0].Counted? || pcs[0].Removed?) + CountInHand(pcs[1..])
  }

  lemma {:induction false} CountsUpdate(pcs: seq<Pc>, t: nat, pc: Pc)
    requires t < |pcs|
    ensures CountAdmitted(pcs[t := pc]) == CountAdmitted(pcs) - Bit(pcs[t].Admitted?) + Bit(pc.Admitted?)
    ensures CountInHand(pcs[t := pc])
         == CountInHand(pcs) - Bit(pcs[t].Counted? || pcs[t].Removed?) + Bit(pc.Counted? || pc.Removed?)
    ensures CountAdmitted(pcs) <= |pcs|
  {
    var next := pcs[t := pc];
    if t == 0 {
      assert next[1..] == pcs[1..];
    } else {
      CountsUpdate(pcs[1..], t - 1, pc);
      assert next[1..] == pcs[1..][t - 1 := pc];
    }
    AdmittedAtMost(pcs);
  }

  lemma {:induction false} AdmittedAtMost(pcs: seq<Pc>)
    ensures CountAdmitted(pcs) <= |pcs|
  {
    if pcs != [] { AdmittedAtMost(pcs[1..]); }
  }

  // ---------------------------------------------------------------- what every reachable state satisfies

  /** The largest value the counter can take. */
  function Bound(cap: nat, threads: nat): nat
    requires threads > 0
  {
    if cap == 0 then 0 else cap + threads - 1
  }

  /** Conservation: the counter is the registered sessions plus those in a thread's hands. */
  predicate Conserved(s: State) {
    s.active == Total(s.registries) + CountInHand(s.pcs)
  }

  predicate Capped(cap: nat, threads: nat, s: State)
    requires threads > 0
  {
    |s.pcs| == |s.registries| == threads && s.active + CountAdmitted(s.pcs) <= Bound(cap, threads)
  }

  function InHand(pc: Pc): set<Sid> {
    if pc.Admitted? || pc.Counted? || pc.Removed? then {pc.sid} else {}
  }

  predicate Distinct(xs: seq<Sid>) { forall i, j :: 0 <= i < j < |xs| ==> xs[i] != xs[j] }

  /** What a thread owns, registered or in hand, it owns in one place; it is counted in unless merely admitted,
      and not counted out. */
  predicate Owns(s: State, pc: Pc, registry: set<Sid>) {
    && registry !! InHand(pc)
    && (forall x :: x in registry + InHand(pc) ==> x < s.next && x !in s.departed)
    && (forall x :: x in registry ==> x in s.entered)
    && (forall x :: x in InHand(pc) ==> (x in s.entered <==> !pc.Admitted?))
  }

  /** Every session is in one place of one thread. */
  predicate Placed(s: State) {
    && |s.pcs| == |s.registries|
    && (forall t :: 0 <= t < |s.pcs| ==> Owns(s, s.pcs[t], s.registries[t]))
    && (forall t, u :: 0 <= t < u < |s.pcs| ==> Property(s, t) !! Property(s, u))
  }

  function Property(s: State, t: nat): set<Sid>
    requires t < |s.pcs| == |s.registries|
  {
    s.registries[t] + InHand(s.pcs[t])
  }

  predicate Ledger(s: State) {
    && s.active == |s.entered| - |s.departed|
    && Distinct(s.entered) && Distinct(s.departed)
    && (forall x :: x in s.departed ==> x in s.entered)
    && (forall x :: x in s.entered ==> x < s.next)
  }

  predicate SomeParked(s: State) { exists w :: w in s.waiters && s.waiters[w].Parked? }

  predicate SomeOwes(s: State) { exists t :: 0 <= t < |s.pcs| && s.pcs[t] == MustNotify }

  /** No lost wakeup: nobody stays parked on a drained server unless a notification is still owed. */
  predicate NoLostWakeup(s: State) {
    && (s.active == 0 && SomeParked(s) ==> SomeOwes(s))
    && (forall w :: w in s.waiters && (s.waiters[w].Parked? || s.waiters[w].Comparing?) ==> s.waiters[w].seen != 0)
  }

  predicate Inv(cap: nat, threads: nat, s: State)
    requires threads > 0
  {
    Capped(cap, threads, s) && Conserved(s) && Placed(s) && Ledger(s) && NoLostWakeup(s)
  }

  predicate ThreadLabel(l: Label) {
    l.Accept? || l.Open? || l.Register? || l.End? || l.Close? || l.Notify?
  }

  /** A step touches only its own thread. */
  lemma StepIsLocal(cap: nat, s: State, l: Label)
    requires |s.pcs| == |s.registries| && Step(cap, s, l).Some?
    ensures var s' := Step(cap, s, l).value;
            && |s'.pcs| == |s'.registries| == |s.pcs|
            && (!ThreadLabel(l) ==> s' == s.(waiters := s'.waiters))
            && (ThreadLabel(l) ==>
                  && l.t < |s.pcs|
                  && s'.pcs == s.pcs[l.t := s'.pcs[l.t]] && s'.registries == s.registries[l.t := s'.registries[l.t]])
  {}

  lemma NumbersStep(cap: nat, threads: nat, s: State, l: Label)
    requires threads > 0 && Capped(cap, threads, s) && Conserved(s) && Placed(s) && Step(cap, s, l).Some?
    ensures Capped(cap, threads, Step(cap, s, l).value) && Conserved(Step(cap, s, l).value)
  {
    hide Total, CountAdmitted, CountInHand;
    StepIsLocal(cap, s, l);
    var s' := Step(cap, s, l).value;
    AdmittedAtMost(s'.pcs);
    if ThreadLabel(l) {
      CountsUpdate(s.pcs, l.t, s'.pcs[l.t]);
      TotalUpdate(s.registries, l.t, s'.registries[l.t]);
      assert Owns(s, s.pcs[l.t], s.registries[l.t]);
    }
  }

  /** The thread that moves keeps its property in order, and only a fresh session is added to it. */
  lemma OwnStep(cap: nat, s: State, l: Label)
    requires Placed(s) && Ledger(s) && Step(cap, s, l).Some? && ThreadLabel(l)
    ensures var s' := Step(cap, s, l).value;
            && l.t < |s.pcs| == |s'.pcs| == |s'.registries|
            && Owns(s', s'.pcs[l.t], s'.registries[l.t])
            && Property(s', l.t) <= Property(s, l.t) + {s.next}
  {
    assert Owns(s, s.pcs[l.t], s.registries[l.t]);
  }

  lemma PlacedStep(cap: nat, s: State, l: Label)
    requires Placed(s) && Ledger(s) && Step(cap, s, l).Some?
    ensures Placed(Step(cap, s, l).value)
  {
    StepIsLocal(cap, s, l);
    var s' := Step(cap, s, l).value;
    if ThreadLabel(l) {
      OwnStep(cap, s, l);
      var mine := Property(s, l.t);
      forall t | 0 <= t < |s.pcs| && t != l.t
        ensures Owns(s', s'.pcs[t], s'.registries[t]) && Property(s', t) == Property(s, t) && s.next !in Property(s, t)
        ensures Property(s, t) !! mine
      {
        assert Owns(s, s.pcs[t], s.registries[t]);
        assert Property(s, t) !! mine by {
          if t < l.t { assert Property(s, t) !! Property(s, l.t); } else { assert Property(s, l.t) !! Property(s, t); }
        }
        OthersKeep(cap, s, l, t);
      }
    } else {
      assert forall t :: 0 <= t < |s.pcs| ==> Owns(s, s.pcs[t], s.registries[t]) ==> Owns(s', s'.pcs[t], s'.registries[t]);
      assert forall t :: 0 <= t < |s.pcs| ==> Property(s', t) == Property(s, t);
    }
  }

  lemma OthersKeep(cap: nat, s: State, l: Label, t: nat)
    requires |s.pcs| == |s.registries| && Step(cap, s, l).Some? && ThreadLabel(l) && t < |s.pcs| && t != l.t
    requires l.t < |s.pcs| && Owns(s, s.pcs[t], s.registries[t]) && Property(s, t) !! Property(s, l.t)
    ensures var s' := Step(cap, s, l).value;
            t < |s'.pcs| == |s'.registries| && Owns(s', s'.pcs[t], s'.registries[t]) && Property(s', t) == Property(s, t)
  {}

  lemma DistinctAppend(xs: seq<Sid>, x: Sid)
    requires Distinct(xs) && x !in xs
    ensures Distinct(xs + [x])
  {}

  lemma LedgerStep(cap: nat, s: State, l: Label)
    requires Placed(s) && Ledger(s) && Step(cap, s, l).Some?
    ensures Ledger(Step(cap, s, l).value)
  {
    hide Distinct;
    if l.Open? || l.Close? {
      assert Owns(s, s.pcs[l.t], s.registries[l.t]);
      var x := s.pcs[l.t].sid;
      assert x in InHand(s.pcs[l.t]);
      if l.Open? { DistinctAppend(s.entered, x); } else { DistinctAppend(s.departed, x); }
    }
  }

  lemma WakeupStep(cap: nat, s: State, l: Label)
    requires NoLostWakeup(s) && |s.pcs| == |s.registries| && s.active >= 0 && Step(cap, s, l).Some?
    ensures NoLostWakeup(Step(cap, s, l).value)
    ensures l.Load? && Step(cap, s, l).value.waiters[l.w] == Returned ==> s.active == 0
  {
    StepIsLocal(cap, s, l);
    var s' := Step(cap, s, l).value;
    if SomeParked(s') && s'.active == 0 {
      if l.Close? && s.active == 1 {
        assert s'.pcs[l.t] == MustNotify;
      } else if !l.Compare? && !l.Notify? {
        var w :| w in s'.waiters && s'.waiters[w].Parked?;
        assert w in s.waiters && s.waiters[w].Parked?;
        assert s.active == 0;
        var t :| 0 <= t < |s.pcs| && s.pcs[t] == MustNotify;
        assert s'.pcs[t] == MustNotify;
      }
    }
  }

  lemma {:induction false} InitSums(threads: nat)
    ensures Total(Init(threads).registries) == 0
    ensures CountAdmitted(Init(threads).pcs) == 0 && CountInHand(Init(threads).pcs) == 0
  {
    if threads > 0 {
      InitSums(threads - 1);
      assert Init(threads).registries[1..] == Init(threads - 1).registries;
      assert Init(threads).pcs[1..] == Init(threads - 1).pcs;
    }
  }

  lemma {:induction false} RunKeeps(cap: nat, threads: nat, s: State, ls: seq<Label>)
    requires threads > 0 && Inv(cap, threads, s) && Exec(cap, s, ls).Some?
    ensures Inv(cap, threads, Exec(cap, s, ls).value)
    decreases |ls|
  {
    hide Step, Capped, Conserved, Placed, Ledger, NoLostWakeup;
    if ls != [] {
      var s' := Step(cap, s, ls[0]).value;
      NumbersStep(cap, threads, s, ls[0]);
      PlacedStep(cap, s, ls[0]);
      LedgerStep(cap, s, ls[0]);
      assert |s.pcs| == |s.registries| && s.active >= 0 by { CountsArePositive(cap, threads, s); }
      WakeupStep(cap, s, ls[0]);
      RunKeeps(cap, threads, s', ls[1..]);
    }
  }

  lemma CountsArePositive(cap: nat, threads: nat, s: State)
    requires threads > 0 && Capped(cap, threads, s) && Conserved(s)
    ensures |s.pcs| == |s.registries| && 0 <= s.active <= Bound(cap, threads)
  {}

  /** Everything at once: in every state of every run of T accept loops, the counter is conserved and never
      underflows, stays within its bound, sessions are counted in and out at most once, and no wakeup is lost. */
  lemma EveryRun(cap: nat, threads: nat, ls: seq<Label>)
    requires threads > 0 && Exec(cap, Init(threads), ls).Some?
    ensures Inv(cap, threads, Exec(cap, Init(threads), ls).value)
    ensures 0 <= Exec(cap, Init(threads), ls).value.active <= Bound(cap, threads)
  {
    InitSums(threads);
    RunKeeps(cap, threads, Init(threads), ls);
    CountsArePositive(cap, threads, Exec(cap, Init(threads), ls).value);
  }

  // ---------------------------------------------------------------- the bound is attained

  lemma {:induction false} ExecAppend(cap: nat, s: State, ls: seq<Label>, l: Label)
    requires Exec(cap, s, ls).Some?
    ensures Exec(cap, s, ls + [l]) == Step(cap, Exec(cap, s, ls).value, l)
    decreases |ls|
  {
    hide Step;
    if ls == [] {
      assert ls + [l] == [l] && [l][1..] == [];
    } else {
      ExecAppend(cap, Step(cap, s, ls[0]).value, ls[1..], l);
      assert (ls + [l])[1..] == ls[1..] + [l];
    }
  }

  predicate Reached(cap: nat, threads: nat, ls: seq<Label>, s: State) {
    Exec(cap, Init(threads), ls) == Some(s) && |s.pcs| == |s.registries| == threads
  }

  /** One thread fills the server up to one below the cap, session by session. */
  lemma {:induction false} Fill(cap: nat, threads: nat, n: nat) returns (ls: seq<Label>, s: State)
    requires threads > 0 && n < cap
    ensures Reached(cap, threads, ls, s) && s.active == n
    ensures forall t :: 0 <= t < threads ==> s.pcs[t] == Idle
  {
    if n == 0 {
      ls, s := [], Init(threads);
    } else {
      var before;
      ls, before := Fill(cap, threads, n - 1);
      s := before;
      ExecAppend(cap, Init(threads), ls, Accept(0));
      ls, s := ls + [Accept(0)], Step(cap, s, Accept(0)).value;
      ExecAppend(cap, Init(threads), ls, Open(0));
      ls, s := ls + [Open(0)], Step(cap, s, Open(0)).value;
      ExecAppend(cap, Init(threads), ls, Register(0));
      ls, s := ls + [Register(0)], Step(cap, s, Register(0)).value;
    }
  }

  /** Then the first k threads all read the counter before any of them raises it. */
  lemma {:induction false} AdmitMany(cap: nat, threads: nat, k: nat) returns (ls: seq<Label>, s: State)
    requires threads > 0 && cap > 0 && k <= threads
    ensures Reached(cap, threads, ls, s) && s.active == cap - 1
    ensures forall t :: 0 <= t < k ==> s.pcs[t].Admitted?
    ensures forall t :: k <= t < threads ==> s.pcs[t] == Idle
  {
    if k == 0 {
      ls, s := Fill(cap, threads, cap - 1);
    } else {
      ls, s := AdmitMany(cap, threads, k - 1);
      ExecAppend(cap, Init(threads), ls, Accept(k - 1));
      ls, s := ls + [Accept(k - 1)], Step(cap, s, Accept(k - 1)).value;
    }
  }

  lemma {:induction false} OpenMany(cap: nat, threads: nat, k: nat) returns (ls: seq<Label>, s: State)
    requires threads > 0 && cap > 0 && k <= threads
    ensures Reached(cap, threads, ls, s) && s.active == cap - 1 + k
    ensures forall t :: k <= t < threads ==> s.pcs[t].Admitted?
  {
    if k == 0 {
      ls, s := AdmitMany(cap, threads, threads);
    } else {
      ls, s := OpenMany(cap, threads, k - 1);
      ExecAppend(cap, Init(threads), ls, Open(k - 1));
      ls, s := ls + [Open(k - 1)], Step(cap, s, Open(k - 1)).value;
    }
  }

  /** The cap can be overshot by one connection per further thread, and by no more: some run attains the bound. */
  lemma BoundAttained(cap: nat, threads: nat)
    requires threads > 0
    ensures exists ls :: Exec(cap, Init(threads), ls).Some? && Exec(cap, Init(threads), ls).value.active == Bound(cap, threads)
  {
    if cap == 0 {
      assert Exec(cap, Init(threads), []) == Some(Init(threads));
    } else {
      var ls, s := OpenMany(cap, threads, threads);
      assert Exec(cap, Init(threads), ls) == Some(s);
    }
  }

  // ---------------------------------------------------------------- draining

  function Elements(xs: seq<Sid>): set<Sid> { set i | 0 <= i < |xs| :: xs[i] }

  lemma {:induction false} DistinctSize(xs: seq<Sid>)
    requires Distinct(xs)
    ensures |Elements(xs)| == |xs|
  {
    if xs != [] {
      var init, x := xs[..|xs| - 1], xs[|xs| - 1];
      DistinctSize(init);
      assert Elements(xs) == Elements(init) + {x} by {
        forall y ensures y in Elements(xs) <==> y in Elements(init) + {x} {
          if y in Elements(init) { var i :| 0 <= i < |init| && init[i] == y; assert xs[i] == y; }
          if y in Elements(xs) { var i :| 0 <= i < |xs| && xs[i] == y; assert i < |init| ==> init[i] == y; }
          assert xs[|xs| - 1] == x;
        }
      }
      assert x !in Elements(init);
    }
  }

  lemma SameSize(a: set<Sid>, b: set<Sid>)
    requires a <= b && |a| == |b|
    ensures a == b
  {
    assert |b - a| == |b| - |a|;
  }

  /** When the counter reads zero, exactly the sessions that were counted in have been counted out, once each. */
  lemma ZeroMeansDrained(cap: nat, threads: nat, ls: seq<Label>)
    requires threads > 0 && Exec(cap, Init(threads), ls).Some?
    ensures var s := Exec(cap, Init(threads), ls).value;
            s.active == 0 <==> Elements(s.entered) == Elements(s.departed)
  {
    hide Exec;
    EveryRun(cap, threads, ls);
    var s := Exec(cap, Init(threads), ls).value;
    DistinctSize(s.entered);
    DistinctSize(s.departed);
    assert Elements(s.departed) <= Elements(s.entered) by {
      forall x | x in Elements(s.departed) ensures x in Elements(s.entered) {
        assert x in s.departed;
        assert x in s.entered;
      }
    }
    if s.active == 0 { SameSize(Elements(s.departed), Elements(s.entered)); }
  }

  /** A caller parked on a drained server is woken by a step that some thread is about to make. */
  lemma ParkedIsWoken(cap: nat, threads: nat, ls: seq<Label>)
    requires threads > 0 && Exec(cap, Init(threads), ls).Some?
    requires var s := Exec(cap, Init(threads), ls).value; s.active == 0 && SomeParked(s)
    ensures var s := Exec(cap, Init(threads), ls).value;
            exists t: nat :: Step(cap, s, Notify(t)).Some? && !SomeParked(Step(cap, s, Notify(t)).value)
  {
    EveryRun(cap, threads, ls);
    var s := Exec(cap, Init(threads), ls).value;
    var t: nat :| 0 <= t < |s.pcs| && s.pcs[t] == MustNotify;
    assert Step(cap, s, Notify(t)).Some?;
  }

  // ---------------------------------------------------------------- what a return of wait_drained means

  predicate Phase(s: State, w: nat, x: Waiter) { w in s.waiters && s.waiters[w] == x }

  /** How a caller moves: it begins by its call, returns by loading zero or, having loaded something else, at its
      deadline, parks exactly when the counter still is what it loaded, so that it never polls, and leaves the parking place only by a notification
      or spuriously. */
  lemma WaiterMoves(cap: nat, s: State, l: Label, w: nat)
    requires Step(cap, s, l).Some?
    ensures var s' := Step(cap, s, l).value;
            && (w in s.waiters ==> w in s'.waiters)
            && (w !in s.waiters && w in s'.waiters ==> l == CallWait(w) && Phase(s', w, Loading))
            && (Phase(s', w, Returned) && !Phase(s, w, Returned) ==> (l == Load(w) && s.active == 0) || l == GiveUp(w))
            && (l == Load(w) ==> (Phase(s', w, Returned) <==> s.active == 0))
            && (l == GiveUp(w) ==> w in s.waiters && s.waiters[w].Comparing?)
            && (l == Load(w) && s.active != 0 ==> Phase(s', w, Comparing(s.active)))
            && (l == Compare(w) ==> w in s.waiters && s.waiters[w].Comparing?
                                    && s'.waiters[w] == if s.active == s.waiters[w].seen then Parked(s.active) else Loading)
            && (w in s.waiters && !s.waiters[w].Parked? && s'.waiters[w].Parked? ==> l == Compare(w) && s'.waiters[w].seen == s.active)
            && (w in s.waiters && s.waiters[w].Parked? && !s'.waiters[w].Parked? ==> l.Notify? || l == Spurious(w))
  {}

  lemma {:induction false} ExecSplit(cap: nat, s: State, ls: seq<Label>, i: nat)
    requires i <= |ls| && Exec(cap, s, ls).Some?
    ensures Exec(cap, s, ls[..i]).Some? && Exec(cap, Exec(cap, s, ls[..i]).value, ls[i..]) == Exec(cap, s, ls)
    decreases i
  {
    hide Step;
    if i == 0 {
      assert ls[0..] == ls;
    } else {
      ExecSplit(cap, Step(cap, s, ls[0]).value, ls[1..], i - 1);
      assert ls[..i][1..] == ls[1..][..i - 1] && ls[1..][i - 1..] == ls[i..];
    }
  }

  /** The call of a waiting thread, and the load at which it returned. */
  lemma {:induction false} ReturnedByLoad(cap: nat, threads: nat, ls: seq<Label>, w: nat) returns (i: nat, j: nat)
    requires threads > 0 && Exec(cap, Init(threads), ls).Some?
    requires GiveUp(w) !in ls && w in Exec(cap, Init(threads), ls).value.waiters
    ensures i < |ls| && ls[i] == CallWait(w)
    ensures Phase(Exec(cap, Init(threads), ls).value, w, Returned) ==>
              && i < j < |ls| && ls[j] == Load(w)
              && Exec(cap, Init(threads), ls[..j]).Some? && Exec(cap, Init(threads), ls[..j]).value.active == 0
    decreases |ls|
  {
    hide Step;
    i, j := 0, 0;
    if ls == [] {
      assert false;
    } else {
      var n := |ls| - 1;
      assert ls == ls[..n] + [ls[n]];
      ExecSplit(cap, Init(threads), ls, n);
      ExecAppend(cap, Init(threads), ls[..n], ls[n]);
      var s := Exec(cap, Init(threads), ls[..n]).value;
      WaiterMoves(cap, s, ls[n], w);
      if w in s.waiters {
        i, j := ReturnedByLoad(cap, threads, ls[..n], w);
        if !Phase(s, w, Returned) {
          j := n;
        } else {
          assert ls[..n][..j] == ls[..j];
        }
      } else {
        i := n;
      }
    }
  }

  /** wait_drained keeps its promise: in every run in which its deadline does not pass, a caller that has returned did so
      by a load, after its call, at a moment when the counter was zero and exactly the sessions counted in until then had
      been counted out. */
  lemma ReturnedMeansDrained(cap: nat, threads: nat, ls: seq<Label>, w: nat)
    requires threads > 0 && Exec(cap, Init(threads), ls).Some? && GiveUp(w) !in ls
    ensures Phase(Exec(cap, Init(threads), ls).value, w, Returned) ==>
              exists i, j :: && 0 <= i < j < |ls| && ls[i] == CallWait(w) && ls[j] == Load(w)
                             && Exec(cap, Init(threads), ls[..j]).Some?
                             && var s := Exec(cap, Init(threads), ls[..j]).value;
                             s.active == 0 && Elements(s.entered) == Elements(s.departed)
  {
    hide Exec;
    if Phase(Exec(cap, Init(threads), ls).value, w, Returned) {
      var i, j := ReturnedByLoad(cap, threads, ls, w);
      ZeroMeansDrained(cap, threads, ls[..j]);
    }
  }
}
