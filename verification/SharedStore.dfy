/**
 The key/value store with expiry held by Master (include/store/shared_store.hpp).

 The clock is read again for every entry examined, so one listing or sweep sees
 many instants: `Readings` gives, for each key, the instant at which its entry is
 examined. Times are nanoseconds of the steady clock.
 */
module SharedStore {
  import opened Numerals
  import opened ByteIo
  import StoreWire

  type Time = int
  type Readings = Bytes -> Time
  type Entry = StoreWire.Entry

  const SECOND := 1_000_000_000

  datatype Stored = Stored(value: Bytes, expires: Time)

  type Entries = map<Bytes, Stored>

  predicate Expired(e: Stored, now: Time) { now >= e.expires }

  function PutIn(s: Entries, key: Bytes, value: Bytes, ttl: int, now: Time): Entries {
    s[key := Stored(value, now + ttl * SECOND)]
  }

  function Lookup(s: Entries, key: Bytes, now: Time): Option<Bytes> {
    if key !in s || Expired(s[key], now) then None else Some(s[key].value)
  }

  function TakeFrom(s: Entries, key: Bytes, now: Time): Entries {
    if Lookup(s, key, now).None? then s else s - {key}
  }

  function SweepOf(s: Entries, at: Readings): Entries {
    map k | k in s && !Expired(s[k], at(k)) :: s[k]
  }

  function ListOf(s: Entries, prefix: Bytes, at: Readings): map<Bytes, Bytes> {
    map k | k in s && !Expired(s[k], at(k)) && prefix <= k :: s[k].value
  }

  ghost predicate Within(at: Readings, first: Time, last: Time) {
    forall k :: first <= at(k) <= last
  }

  function Keys(out: seq<Entry>): set<Bytes> { set i | 0 <= i < |out| :: out[i].key }

  /** A list without duplicate keys that holds exactly the pairs of m. */
  ghost predicate Enumerates(out: seq<Entry>, m: map<Bytes, Bytes>) {
    && Keys(out) == m.Keys
    && (forall i :: 0 <= i < |out| ==> out[i].key in m && out[i].value == m[out[i].key])
    && (forall i, j :: 0 <= i < j < |out| ==> out[i].key != out[j].key)
  }

  /** However the clock moves during a listing: everything live at its last reading is listed,
      and only what was live at its first. */
  lemma ListBetween(s: Entries, prefix: Bytes, at: Readings, first: Time, last: Time)
    requires Within(at, first, last)
    ensures ListOf(s, prefix, _ => last).Items <= ListOf(s, prefix, at).Items <= ListOf(s, prefix, _ => first).Items
  {}

  /** A put as readers see it: the new value under its key until ttl seconds later, and every other key as before. */
  lemma PutSeen(s: Entries, key: Bytes, value: Bytes, ttl: int, now: Time, k: Bytes, t: Time)
    ensures Lookup(PutIn(s, key, value, ttl, now), k, t)
         == if k != key then Lookup(s, k, t) else if t < now + ttl * 1_000_000_000 then Some(value) else None
  {}

  /** A take as readers see it, at whatever instant: the key it found is gone, and nothing else is, in particular when it
      found nothing. */
  lemma TakeSeen(s: Entries, key: Bytes, now: Time, k: Bytes, t: Time)
    ensures Lookup(TakeFrom(s, key, now), k, t) == if k == key && Lookup(s, key, now).Some? then None else Lookup(s, k, t)
    ensures Lookup(s, key, now).Some? <==> key in s && now < s[key].expires
    ensures Lookup(s, key, now).Some? ==> Lookup(s, key, now).value == s[key].value
  {}

  /** A listing is a lookup of every key under the prefix, each at its own instant. */
  lemma ListSeen(s: Entries, prefix: Bytes, at: Readings, k: Bytes)
    ensures k in ListOf(s, prefix, at) <==> prefix <= k && Lookup(s, k, at(k)).Some?
    ensures k in ListOf(s, prefix, at) ==> Lookup(s, k, at(k)) == Some(ListOf(s, prefix, at)[k])
  {}

  /** A sweep removes exactly what a lookup at its reading would not have found. */
  lemma SweepSeen(s: Entries, at: Readings, k: Bytes, t: Time)
    ensures Lookup(SweepOf(s, at), k, t) == if Lookup(s, k, at(k)).Some? then Lookup(s, k, t) else None
    ensures k in SweepOf(s, at) <==> Lookup(s, k, at(k)).Some?
  {}

  lemma EnumeratesAppend(out: seq<Entry>, m: map<Bytes, Bytes>, e: Entry)
    requires Enumerates(out, m) && e.key !in m
    ensures Enumerates(out + [e], m[e.key := e.value])
  {
    var next := out + [e];
    assert forall k :: k in Keys(out) <==> exists i :: 0 <= i < |out| && out[i].key == k;
    assert next[|out|] == e;
    forall k ensures k in Keys(next) <==> k in m[e.key := e.value].Keys {
      if k in Keys(out) {
        var i :| 0 <= i < |out| && out[i].key == k;
        assert next[i].key == k;
      }
    }
    assert Keys(next) == m[e.key := e.value].Keys;
    assert forall i :: 0 <= i < |out| ==> next[i] == out[i];
  }

  /** The process clock: successive readings never decrease. */
  class Clock {
    var now: Time

    method Read() returns (t: Time)
      modifies this
      ensures t == now >= old(now)
    {
      var elapsed: int := *;
      elapsed := if elapsed < 0 then -elapsed else elapsed;
      now := now + elapsed;
      t := now;
    }
  }

  class Store {
    var entries: Entries

    constructor ()
      ensures entries == map[]
    {
      entries := map[];
    }

    method Put(clock: Clock, key: Bytes, value: Bytes, ttl: int)
      modifies this, clock
      ensures entries == PutIn(old(entries), key, value, ttl, clock.now)
      ensures clock.now >= old(clock.now)
    {
      var now := clock.Read();
      entries := entries[key := Stored(value, now + ttl * SECOND)];
    }

    method Get(clock: Clock, key: Bytes) returns (v: Option<Bytes>)
      modifies clock
      ensures v == Lookup(entries, key, clock.now)
      ensures clock.now >= old(clock.now)
    {
      var now := clock.Read();
      if key !in entries || now >= entries[key].expires { return None; }
      v := Some(entries[key].value);
    }

    method Take(clock: Clock, key: Bytes) returns (v: Option<Bytes>)
      modifies this, clock
      ensures v == Lookup(old(entries), key, clock.now)
      ensures entries == TakeFrom(old(entries), key, clock.now)
      ensures clock.now >= old(clock.now)
    {
      var now := clock.Read();
      if key !in entries || now >= entries[key].expires { return None; }
      v := Some(entries[key].value);
      entries := entries - {key};
    }

    /** Erase while iterating, in whatever order the table is walked. */
    method SweepExpired(clock: Clock) returns (removed: nat, ghost at: Readings)
      modifies this, clock
      ensures Within(at, old(clock.now), clock.now)
      ensures entries == SweepOf(old(entries), at)
      ensures removed == |old(entries)| - |entries|
      ensures forall k :: k in old(entries) && Expired(old(entries)[k], old(clock.now)) ==> k !in entries
      ensures forall k :: k in old(entries) && !Expired(old(entries)[k], clock.now) ==> k in entries
    {
      removed := 0;
      ghost var seen: map<Bytes, Time> := map[];
      var todo := entries.Keys;
      while todo != {}
        invariant clock.now >= old(clock.now)
        invariant todo <= entries.Keys <= old(entries).Keys
        invariant seen.Keys == old(entries).Keys - todo
        invariant forall k :: k in seen ==> old(clock.now) <= seen[k] <= clock.now
        invariant forall k :: k in entries ==> entries[k] == old(entries)[k]
        invariant forall k :: k in seen ==> (k in entries <==> !Expired(old(entries)[k], seen[k]))
        invariant removed == |old(entries)| - |entries|
        decreases todo
      {
        var k :| k in todo;
        var now := clock.Read();
        if now >= entries[k].expires {
          assert (entries - {k}).Keys == entries.Keys - {k};
          entries := entries - {k};
          removed := removed + 1;
        }
        seen := seen[k := now];
        todo := todo - {k};
      }
      ghost var last := clock.now;
      at := k => if k in seen then seen[k] else last;
    }

    method ListPrefix(clock: Clock, prefix: Bytes) returns (out: seq<Entry>, ghost at: Readings)
      modifies clock
      ensures old(clock.now) <= clock.now && Within(at, old(clock.now), clock.now)
      ensures Enumerates(out, ListOf(entries, prefix, at))
    {
      out := [];
      ghost var seen: map<Bytes, Time> := map[];
      ghost var found: map<Bytes, Bytes> := map[];
      var todo := entries.Keys;
      while todo != {}
        invariant clock.now >= old(clock.now)
        invariant todo <= entries.Keys
        invariant seen.Keys == entries.Keys - todo
        invariant forall k :: k in seen ==> old(clock.now) <= seen[k] <= clock.now
        invariant forall k :: k in found <==> k in seen && !Expired(entries[k], seen[k]) && prefix <= k
        invariant forall k :: k in found ==> found[k] == entries[k].value
        invariant Enumerates(out, found)
        decreases todo
      {
        var k :| k in todo;
        var now := clock.Read();
        var e := entries[k];
        if !(now >= e.expires) && prefix <= k {
          EnumeratesAppend(out, found, StoreWire.Entry(k, e.value));
          out := out + [StoreWire.Entry(k, e.value)];
          found := found[k := e.value];
        }
        seen := seen[k := now];
        todo := todo - {k};
      }
      ghost var last := clock.now;
      at := k => if k in seen then seen[k] else last;
      assert found == ListOf(entries, prefix, at);
    }
  }
}
