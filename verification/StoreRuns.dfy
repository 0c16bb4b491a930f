/**
 Whole histories of the shared store: any sequence of operations, with the clock
 readings each of them makes (include/store/shared_store.hpp), and the heartbeat
 of the service registry on top of it (include/registry/world_registry.hpp).
 */
module StoreRuns {
  import opened Numerals
  import opened ByteIo
  import opened SharedStore

  datatype Op =
    | Put(key: Bytes, value: Bytes, ttl: int, now: Time)
    | Get(key: Bytes, now: Time)
    | Take(key: Bytes, now: Time)
    | List(prefix: Bytes, at: Readings, first: Time, last: Time)
    | Sweep(at: Readings, first: Time, last: Time)

  datatype Answer = Done | Found(value: Option<Bytes>) | Listed(pairs: map<Bytes, Bytes>) | Swept

  function Apply(s: Entries, op: Op): Entries {
    match op
    case Put(k, v, ttl, now) => PutIn(s, k, v, ttl, now)
    case Take(k, now) => TakeFrom(s, k, now)
    case Sweep(at, _, _) => SweepOf(s, at)
    case _ => s
  }

  function Reply(s: Entries, op: Op): Answer {
    match op
    case Put(_, _, _, _) => Done
    case Get(k, now) => Found(Lookup(s, k, now))
    case Take(k, now) => Found(Lookup(s, k, now))
    case List(prefix, at, _, _) => Listed(ListOf(s, prefix, at))
    case Sweep(_, _, _) => Swept
  }

  /** What the answers of a run say, in terms of the entries. */
  lemma RepliesMean(s: Entries, op: Op)
    ensures op.Get? || op.Take? ==>
              Reply(s, op) == Found(if op.key in s && op.now < s[op.key].expires then Some(s[op.key].value) else None)
    ensures op.List? ==>
              && Reply(s, op).Listed?
              && (forall k :: k in Reply(s, op).pairs <==> op.prefix <= k && k in s && op.at(k) < s[k].expires)
              && (forall k :: k in Reply(s, op).pairs ==> Reply(s, op).pairs[k] == s[k].value)
  {}

  /** And what its operations leave behind. */
  lemma ApplyMeans(s: Entries, op: Op)
    ensures op.Put? ==> Apply(s, op) == s[op.key := Stored(op.value, op.now + op.ttl * 1_000_000_000)]
    ensures op.Take? ==> Apply(s, op) == if op.key in s && op.now < s[op.key].expires then s - {op.key} else s
    ensures op.Sweep? ==> forall k :: k in Apply(s, op) <==> k in s && op.at(k) < s[k].expires
    ensures op.Sweep? ==> forall k :: k in Apply(s, op) ==> Apply(s, op)[k] == s[k]
    ensures op.Get? || op.List? ==> Apply(s, op) == s
  {}

  function Run(s: Entries, ops: seq<Op>): Entries
    decreases |ops|
  {
    if ops == [] then s else Run(Apply(s, ops[0]), ops[1..])
  }

  /** The answers of everything but the sweeps. */
  function Replies(s: Entries, ops: seq<Op>): seq<Answer>
    decreases |ops|
  {
    if ops == [] then []
    else (if ops[0].Sweep? then [] else [Reply(s, ops[0])]) + Replies(Apply(s, ops[0]), ops[1..])
  }

  function WithoutSweeps(ops: seq<Op>): seq<Op> {
    if ops == [] then []
    else (if ops[0].Sweep? then [] else [ops[0]]) + WithoutSweeps(ops[1..])
  }

  // ---------------------------------------------------------------- the clock

  function FirstReading(op: Op): Time {
    if op.List? || op.Sweep? then op.first else op.now
  }

  function LastReading(op: Op): Time {
    if op.List? || op.Sweep? then op.last else op.now
  }

  predicate Exclusive(op: Op) { op.Put? || op.Take? || op.Sweep? }

  function Later(t: Time, u: Time): Time { if t < u then u else t }

  /** What the monotone clock and the reader/writer lock guarantee: no operation reads the clock before the
      last exclusive one has finished (`w`), and no exclusive one before any other has (`r`). */
  ghost predicate WellTimed(ops: seq<Op>, w: Time, r: Time)
    decreases |ops|
  {
    ops != [] ==>
      var op := ops[0];
      var last := LastReading(op);
      && (op.List? || op.Sweep? ==> Within(op.at, op.first, op.last))
      && FirstReading(op) <= last
      && (if Exclusive(op) then r <= FirstReading(op) && WellTimed(ops[1..], last, last)
          else w <= FirstReading(op) && WellTimed(ops[1..], w, Later(r, last)))
  }

  // ---------------------------------------------------------------- sweeping is invisible

  /** t is s plus entries that have expired by the instant w. */
  ghost predicate Shadows(s: Entries, t: Entries, w: Time) {
    && (forall k :: k in s ==> k in t && t[k] == s[k])
    && (forall k :: k in t && k !in s ==> Expired(t[k], w))
  }

  lemma ShadowStep(s: Entries, t: Entries, op: Op, w: Time)
    requires Shadows(s, t, w) && w <= FirstReading(op) <= LastReading(op)
    requires op.List? || op.Sweep? ==> Within(op.at, op.first, op.last)
    ensures var w' := if Exclusive(op) then LastReading(op) else w;
            Shadows(Apply(s, op), if op.Sweep? then t else Apply(t, op), w')
    ensures !op.Sweep? ==> Reply(s, op) == Reply(t, op)
  {}

  /** Deleting every sweep from a run changes no answer. */
  lemma {:induction false} SweepIsInvisible(s: Entries, t: Entries, ops: seq<Op>, w: Time, r: Time)
    requires Shadows(s, t, w) && w <= r && WellTimed(ops, w, r)
    ensures Replies(s, ops) == Replies(t, WithoutSweeps(ops))
    decreases |ops|
  {
    if ops != [] {
      var op := ops[0];
      var last := LastReading(op);
      var w', r' := if Exclusive(op) then last else w, if Exclusive(op) then last else Later(r, last);
      ShadowStep(s, t, op, w);
      if op.Sweep? {
        SweepIsInvisible(Apply(s, op), t, ops[1..], w', r');
        assert [] + WithoutSweeps(ops[1..]) == WithoutSweeps(ops[1..]);
      } else {
        SweepIsInvisible(Apply(s, op), Apply(t, op), ops[1..], w', r');
        assert WithoutSweeps(ops)[1..] == WithoutSweeps(ops[1..]);
      }
    }
  }

  /** In particular for a run of the server from its empty store. */
  lemma SweepsCanBeDeleted(ops: seq<Op>, start: Time)
    requires WellTimed(ops, start, start)
    ensures Replies(map[], ops) == Replies(map[], WithoutSweeps(ops))
  {
    SweepIsInvisible(map[], map[], ops, start, start);
  }

  // ---------------------------------------------------------------- the registry entry of a live process

  predicate Untaken(ops: seq<Op>, key: Bytes) {
    forall i :: 0 <= i < |ops| ==> !(ops[i].Take? && ops[i].key == key)
  }

  predicate PutsKey(op: Op, key: Bytes) { op.Put? && op.key == key }

  /** The last write of the key, as a stored entry. */
  function LastWrite(ops: seq<Op>, key: Bytes): Option<Stored> {
    if ops == [] then None else
    var n := |ops| - 1;
    if PutsKey(ops[n], key) then Some(Stored(ops[n].value, ops[n].now + ops[n].ttl * SECOND))
    else LastWrite(ops[..n], key)
  }

  /** What a reader finds under the key: the last write until it expires, then nothing. */
  predicate Holds(s: Entries, key: Bytes, e: Option<Stored>, w: Time) {
    if e.None? then key !in s
    else (key in s ==> s[key] == e.value) && (key !in s ==> Expired(e.value, w))
  }

  lemma {:induction false} RunAppend(s: Entries, ops: seq<Op>, op: Op)
    ensures Run(s, ops + [op]) == Apply(Run(s, ops), op)
    decreases |ops|
  {
    if ops != [] {
      RunAppend(Apply(s, ops[0]), ops[1..], op);
      assert (ops + [op])[1..] == ops[1..] + [op];
    }
  }

  /** The instants reached after a well-timed run: last exclusive reading and last reading. */
  function Floors(ops: seq<Op>, w: Time, r: Time): (Time, Time)
    decreases |ops|
  {
    if ops == [] then (w, r)
    else if Exclusive(ops[0]) then Floors(ops[1..], LastReading(ops[0]), LastReading(ops[0]))
    else Floors(ops[1..], w, Later(r, LastReading(ops[0])))
  }

  lemma {:induction false} WellTimedSplit(a: seq<Op>, b: seq<Op>, w: Time, r: Time)
    requires WellTimed(a + b, w, r) && w <= r
    ensures WellTimed(a, w, r) && WellTimed(b, Floors(a, w, r).0, Floors(a, w, r).1)
    ensures w <= Floors(a, w, r).0 <= Floors(a, w, r).1
    decreases |a|
  {
    if a == [] {
      assert a + b == b;
    } else {
      assert (a + b)[1..] == a[1..] + b;
      var last := LastReading(a[0]);
      if Exclusive(a[0]) { WellTimedSplit(a[1..], b, last, last); } else { WellTimedSplit(a[1..], b, w, Later(r, last)); }
    }
  }

  lemma {:induction false} LastWriteHolds(ops: seq<Op>, key: Bytes, w: Time, r: Time)
    requires WellTimed(ops, w, r) && w <= r && Untaken(ops, key)
    ensures Holds(Run(map[], ops), key, LastWrite(ops, key), Floors(ops, w, r).0)
    decreases |ops|
  {
    if ops != [] {
      var n := |ops| - 1;
      var init, op := ops[..n], ops[n];
      assert ops == init + [op];
      WellTimedSplit(init, [op], w, r);
      LastWriteHolds(init, key, w, r);
      RunAppend(map[], init, op);
      FloorsAppend(init, op, w, r);
    }
  }

  lemma {:induction false} FloorsAppend(ops: seq<Op>, op: Op, w: Time, r: Time)
    ensures Floors(ops + [op], w, r)
         == if Exclusive(op) then (LastReading(op), LastReading(op))
            else (Floors(ops, w, r).0, Later(Floors(ops, w, r).1, LastReading(op)))
    decreases |ops|
  {
    if ops == [] {
      assert [op][1..] == [];
      assert ops + [op] == [op];
    } else {
      assert (ops + [op])[1..] == ops[1..] + [op];
      var last := LastReading(ops[0]);
      if Exclusive(ops[0]) { FloorsAppend(ops[1..], op, last, last); } else { FloorsAppend(ops[1..], op, w, Later(r, last)); }
    }
  }

  /** Every later heartbeat comes strictly before the entry written by the one before it expires. */
  predicate Steady(ops: seq<Op>, key: Bytes)
    decreases |ops|
  {
    ops != [] ==>
      var n := |ops| - 1;
      && Steady(ops[..n], key)
      && (PutsKey(ops[n], key) && LastWrite(ops[..n], key).Some? ==> ops[n].now < LastWrite(ops[..n], key).value.expires)
  }

  /** With a steady heartbeat, a later listing point is still before the final expiry. */
  lemma {:induction false} SteadyReaches(pre: seq<Op>, l: Op, post: seq<Op>, key: Bytes, w: Time, r: Time)
    requires WellTimed(pre + [l] + post, w, r) && w <= r && l.List?
    requires Steady(pre + [l] + post, key) && LastWrite(pre, key).Some?
    requires forall i :: 0 <= i < |post| && PutsKey(post[i], key) ==> post[i].ttl > 0
    ensures LastWrite(pre + [l] + post, key).Some?
    ensures var e := LastWrite(pre, key).value;
            var f := LastWrite(pre + [l] + post, key).value;
            l.at(key) < e.expires <==> l.at(key) < f.expires
    decreases |post|
  {
    var all := pre + [l] + post;
    if post == [] {
      assert all == pre + [l];
      assert all[..|all| - 1] == pre;
    } else {
      var n := |all| - 1;
      var m := |post| - 1;
      assert all[..n] == pre + [l] + post[..m];
      assert all == (pre + [l] + post[..m]) + [post[m]];
      WellTimedSplit(pre + [l] + post[..m], [post[m]], w, r);
      SteadyReaches(pre, l, post[..m], key, w, r);
      if PutsKey(post[m], key) {
        ReadBefore(pre, l, post[..m], post[m], key, w, r);
      }
    }
  }

  /** A listing reads the clock no later than any exclusive operation after it. */
  lemma ReadBefore(pre: seq<Op>, l: Op, mid: seq<Op>, op: Op, key: Bytes, w: Time, r: Time)
    requires WellTimed((pre + [l] + mid) + [op], w, r) && w <= r && l.List? && op.Put?
    ensures l.at(key) <= op.now
  {
    assert (pre + [l] + mid) + [op] == pre + ([l] + mid + [op]);
    WellTimedSplit(pre, [l] + mid + [op], w, r);
    var (w1, r1) := Floors(pre, w, r);
    assert ([l] + mid + [op])[1..] == mid + [op];
    var r2 := Later(r1, l.last);
    WellTimedSplit(mid, [op], w1, r2);
    LaterFloors(mid, [op], w1, r2);
  }

  lemma {:induction false} LaterFloors(a: seq<Op>, b: seq<Op>, w: Time, r: Time)
    requires WellTimed(a + b, w, r) && w <= r
    ensures r <= Floors(a, w, r).1
    decreases |a|
  {
    if a != [] {
      assert (a + b)[1..] == a[1..] + b;
      var last := LastReading(a[0]);
      if Exclusive(a[0]) { LaterFloors(a[1..], b, last, last); } else { LaterFloors(a[1..], b, w, Later(r, last)); }
    }
  }

  /** Heartbeat liveness. In any run that never takes the key and beats steadily, a listing made at or after the
      first beat shows the key, with the value of the latest beat, exactly until the expiry of the last beat of
      the whole run. */
  lemma Heartbeat(pre: seq<Op>, l: Op, post: seq<Op>, key: Bytes, start: Time)
    requires WellTimed(pre + [l] + post, start, start) && l.List? && l.prefix <= key
    requires Untaken(pre + [l] + post, key) && Steady(pre + [l] + post, key)
    requires LastWrite(pre, key).Some?
    requires forall i :: 0 <= i < |post| && PutsKey(post[i], key) ==> post[i].ttl > 0
    ensures LastWrite(pre + [l] + post, key).Some?
    ensures var shown := ListOf(Run(map[], pre), l.prefix, l.at);
            && (key in shown <==> l.at(key) < LastWrite(pre + [l] + post, key).value.expires)
            && (key in shown ==> shown[key] == LastWrite(pre, key).value.value)
  {
    var all := pre + [l] + post;
    assert all == pre + ([l] + post);
    WellTimedSplit(pre, [l] + post, start, start);
    assert forall i :: 0 <= i < |pre| ==> all[i] == pre[i];
    LastWriteHolds(pre, key, start, start);
    SteadyReaches(pre, l, post, key, start, start);
  }

  // ---------------------------------------------------------------- why the beats must be strictly within the ttl

  /** A listing that the clock and the lock allow between operations i - 1 and i, and that misses the key. */
  ghost predicate MissesBefore(ops: seq<Op>, i: nat, look: Op, key: Bytes, start: Time)
    requires i <= |ops|
  {
    && look.List? && look.prefix <= key
    && WellTimed(ops[..i] + [look] + ops[i..], start, start)
    && key !in ListOf(Run(map[], ops[..i]), look.prefix, look.at)
  }

  /** The key has been written before operation i, and is written again at or after it. */
  ghost predicate BetweenBeats(ops: seq<Op>, i: nat, key: Bytes)
    requires i <= |ops|
  {
    LastWrite(ops[..i], key).Some? && exists j :: i <= j < |ops| && PutsKey(ops[j], key)
  }

  lemma {:induction false} WellTimedJoin(a: seq<Op>, b: seq<Op>, w: Time, r: Time)
    requires WellTimed(a, w, r) && WellTimed(b, Floors(a, w, r).0, Floors(a, w, r).1)
    ensures WellTimed(a + b, w, r)
    decreases |a|
  {
    if a == [] {
      assert a + b == b;
    } else {
      assert (a + b)[1..] == a[1..] + b;
      var last := LastReading(a[0]);
      if Exclusive(a[0]) { WellTimedJoin(a[1..], b, last, last); } else { WellTimedJoin(a[1..], b, w, Later(r, last)); }
    }
  }

  /** A beat at or after the expiry of the one before it: a legal listing at that very instant misses the entry. */
  lemma LateBeatIsMissed(ops: seq<Op>, i: nat, key: Bytes, start: Time)
    requires i < |ops| && WellTimed(ops, start, start) && Untaken(ops, key) && PutsKey(ops[i], key)
    requires LastWrite(ops[..i], key).Some? && ops[i].now >= LastWrite(ops[..i], key).value.expires
    ensures MissesBefore(ops, i, List(key, _ => ops[i].now, ops[i].now, ops[i].now), key, start)
  {
    var pre, rest, now := ops[..i], ops[i..], ops[i].now;
    var look := List(key, _ => now, now, now);
    assert ops == pre + rest;
    WellTimedSplit(pre, rest, start, start);
    var (w, r) := Floors(pre, start, start);
    assert ([look] + rest)[1..] == rest;
    assert WellTimed([look] + rest, w, r);
    WellTimedJoin(pre, [look] + rest, start, start);
    assert pre + ([look] + rest) == pre + [look] + rest;
    assert forall k :: 0 <= k < |pre| ==> pre[k] == ops[k];
    LastWriteHolds(pre, key, start, start);
  }

  /** The first beat at or after a point; the last write is still the same when it comes. */
  lemma {:induction false} NextBeat(ops: seq<Op>, i: nat, j: nat, key: Bytes) returns (k: nat)
    requires i <= j < |ops| && PutsKey(ops[j], key)
    ensures i <= k <= j && PutsKey(ops[k], key) && LastWrite(ops[..k], key) == LastWrite(ops[..i], key)
    decreases j - i
  {
    if PutsKey(ops[i], key) { return i; }
    assert ops[..i + 1][..i] == ops[..i];
    k := NextBeat(ops, i + 1, j, key);
  }

  lemma {:induction false} SteadyAt(ops: seq<Op>, i: nat, key: Bytes)
    requires Steady(ops, key) && i < |ops| && PutsKey(ops[i], key) && LastWrite(ops[..i], key).Some?
    ensures ops[i].now < LastWrite(ops[..i], key).value.expires
    decreases |ops|
  {
    var n := |ops| - 1;
    if i < n {
      assert ops[..n][..i] == ops[..i];
      SteadyAt(ops[..n], i, key);
    }
  }

  lemma {:induction false} LateBeat(ops: seq<Op>, key: Bytes) returns (i: nat)
    requires !Steady(ops, key)
    ensures i < |ops| && PutsKey(ops[i], key) && LastWrite(ops[..i], key).Some?
    ensures ops[i].now >= LastWrite(ops[..i], key).value.expires
    decreases |ops|
  {
    i := |ops| - 1;
    if !Steady(ops[..i], key) {
      var n := i;
      i := LateBeat(ops[..n], key);
      assert ops[..n][..i] == ops[..i];
    }
  }

  lemma ReadBeforeBeat(ops: seq<Op>, i: nat, look: Op, k: nat, key: Bytes, start: Time)
    requires i <= k < |ops| && ops[k].Put? && MissesBefore(ops, i, look, key, start)
    ensures look.at(key) <= ops[k].now
  {
    hide ListOf, Run;
    var pre, mid, post := ops[..i], ops[i..k], ops[k + 1..];
    assert pre + [look] + ops[i..] == (pre + [look] + mid + [ops[k]]) + post;
    WellTimedSplit(pre + [look] + mid + [ops[k]], post, start, start);
    ReadBefore(pre, look, mid, ops[k], key, start, start);
  }

  lemma ReadAfterWrite(ops: seq<Op>, i: nat, look: Op, key: Bytes, start: Time)
    requires i <= |ops| && MissesBefore(ops, i, look, key, start)
    ensures Floors(ops[..i], start, start).0 <= look.at(key)
  {
    hide ListOf, Run;
    var pre, rest := ops[..i], ops[i..];
    assert pre + ([look] + rest) == pre + [look] + rest;
    WellTimedSplit(pre, [look] + rest, start, start);
  }

  /** With steady beats, a legal listing between two beats shows the key. */
  lemma SteadyShows(ops: seq<Op>, i: nat, look: Op, key: Bytes, start: Time)
    requires i <= |ops| && WellTimed(ops, start, start) && Untaken(ops, key) && Steady(ops, key)
    requires BetweenBeats(ops, i, key)
    ensures !MissesBefore(ops, i, look, key, start)
  {
    hide WellTimed, Run, Floors, LastWrite;
    if MissesBefore(ops, i, look, key, start) {
      var pre := ops[..i];
      var j :| i <= j < |ops| && PutsKey(ops[j], key);
      var k := NextBeat(ops, i, j, key);
      SteadyAt(ops, k, key);
      ReadBeforeBeat(ops, i, look, k, key, start);
      ReadAfterWrite(ops, i, look, key, start);
      assert ops == pre + ops[i..];
      WellTimedSplit(pre, ops[i..], start, start);
      LastWriteHolds(pre, key, start, start) by { assert forall n :: 0 <= n < |pre| ==> pre[n] == ops[n]; }
    }
  }

  /** The exact condition for a registration to stay visible. In any run that never takes the key, no legal listing
      between its first and its last beat can miss it if and only if every beat comes strictly before the entry of the
      beat before it expires. */
  lemma SteadyExactly(ops: seq<Op>, key: Bytes, start: Time)
    requires WellTimed(ops, start, start) && Untaken(ops, key)
    ensures Steady(ops, key)
       <==> forall i: nat, look: Op :: i <= |ops| && BetweenBeats(ops, i, key) ==> !MissesBefore(ops, i, look, key, start)
  {
    if Steady(ops, key) {
      forall i: nat, look: Op | i <= |ops| && BetweenBeats(ops, i, key) ensures !MissesBefore(ops, i, look, key, start) {
        SteadyShows(ops, i, look, key, start);
      }
    } else {
      var i := LateBeat(ops, key);
      LateBeatIsMissed(ops, i, key, start);
      assert BetweenBeats(ops, i, key);
    }
  }

  /** The smallest instance: two beats exactly the ttl apart or further, and a listing between them. */
  lemma GapLosesEntry(key: Bytes, v: Bytes, ttl: nat, t0: Time, t1: Time)
    requires t1 >= t0 + ttl * SECOND
    ensures var beat, next := Put(key, v, ttl, t0), Put(key, v, ttl, t1);
            var look := List(key, _ => t0 + ttl * SECOND, t0 + ttl * SECOND, t0 + ttl * SECOND);
            && WellTimed([beat, look, next], t0, t0)
            && key !in ListOf(Run(map[], [beat]), key, look.at)
  {
    var beat, next := Put(key, v, ttl, t0), Put(key, v, ttl, t1);
    var at := t0 + ttl * SECOND;
    var look := List(key, _ => at, at, at);
    var ops := [beat, look, next];
    assert ops[1..] == [look, next] && [look, next][1..] == [next] && [next][1..] == [];
    assert WellTimed([], t1, t1);
    assert WellTimed([next], t0, Later(t0, at));
    assert WellTimed([look, next], t0, t0);
    assert [beat][1..] == [];
    assert Run(map[], [beat]) == Apply(map[], beat);
  }
}
