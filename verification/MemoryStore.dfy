/** The bounded TTL store of httpx/middleware/memorystore.go, and the Store contract
    it implements: an unbounded map that forgets a key when its TTL ends.

    Times are nanoseconds. */
module MemoryStore {
  import opened Common

  const SWEEP_THROTTLE := 1_000_000_000
  const DEFAULT_MAX_RECORDS := 65536

  datatype Entry<+V> = Entry(value: V, expires: int)

  // ---------------------------------------------------------------- the Store contract

  /** Entries stay in the map after they expire; only live ones can be observed. */
  type Table<V> = map<string, Entry<V>>

  predicate Live<V>(t: Table<V>, now: int, key: string) {
    key in t && now < t[key].expires
  }

  /** What a caller can still see at an instant. */
  function Visible<V>(t: Table<V>, now: int): Table<V> {
    map k | k in t && now < t[k].expires :: t[k]
  }

  /** SetNX: stores iff no live entry exists. */
  function Claim<V>(t: Table<V>, now: int, key: string, value: V, ttl: int): (Table<V>, bool) {
    if Live(t, now, key) then (t, false) else (t[key := Entry(value, now + ttl)], true)
  }

  function Lookup<V>(t: Table<V>, now: int, key: string): Option<V> {
    if Live(t, now, key) then Some(t[key].value) else None
  }

  /** Set: replaces a live value and keeps its TTL; otherwise nothing. */
  function Replace<V>(t: Table<V>, now: int, key: string, value: V): Table<V> {
    if Live(t, now, key) then t[key := Entry(value, t[key].expires)] else t
  }

  function Remove<V>(t: Table<V>, key: string): Table<V> { t - {key} }

  // ---------------------------------------------------------------- MemoryStore's steps

  /** lastSweep is None while the Go field is the zero time. */
  datatype Mem<V> = Mem(entries: Table<V>, lastSweep: Option<int>)

  datatype Outcome = Stored | Taken | Full

  predicate SweepDue<V>(m: Mem<V>, now: int) {
    m.lastSweep.None? || now - m.lastSweep.value >= SWEEP_THROTTLE
  }

  function Room<V>(max: int, m: Mem<V>, now: int): Mem<V> {
    if |m.entries| >= max && SweepDue(m, now) then Mem(Visible(m.entries, now), Some(now)) else m
  }

  function SetNXStep<V>(max: int, m: Mem<V>, now: int, key: string, value: V, ttl: int): (Mem<V>, Outcome) {
    if Live(m.entries, now, key) then (m, Taken)
    else
      var m1 := Room(max, m.(entries := m.entries - {key}), now);
      if |m1.entries| >= max then (m1, Full)
      else (m1.(entries := m1.entries[key := Entry(value, now + ttl)]), Stored)
  }

  // ---------------------------------------------------------------- the class

  class Store<V> {
    const maxRecords: int
    var entries: Table<V>
    var lastSweep: Option<int>

    ghost predicate Valid()
      reads this
    {
      maxRecords >= 1 && |entries| <= maxRecords
    }

    ghost function View(): Mem<V>
      reads this
    {
      Mem(entries, lastSweep)
    }

    constructor (max: int)
      ensures Valid() && View() == Mem(map[], None)
      ensures maxRecords == if max <= 0 then DEFAULT_MAX_RECORDS else max
    {
      maxRecords := if max <= 0 then DEFAULT_MAX_RECORDS else max;
      entries := map[];
      lastSweep := None;
    }

    method SetNX(now: int, key: string, value: V, ttl: int) returns (out: Outcome)
      requires Valid()
      modifies this
      ensures Valid()
      ensures (View(), out) == SetNXStep(maxRecords, old(View()), now, key, value, ttl)
    {
      if key in entries {
        if now < entries[key].expires {
          return Taken;
        }
      }
      entries := entries - {key};
      RemoveShrinks(old(entries), key);
      if |entries| >= maxRecords {
        if lastSweep.None? || now - lastSweep.value >= SWEEP_THROTTLE {
          lastSweep := Some(now);
          Sweep(now);
        }
        if |entries| >= maxRecords {
          return Full;
        }
      }
      PutGrows(entries, key, Entry(value, now + ttl));
      entries := entries[key := Entry(value, now + ttl)];
      out := Stored;
    }

    method Sweep(now: int)
      requires Valid()
      modifies this`entries
      ensures Valid() && entries == Visible(old(entries), now)
    {
      var keys := entries.Keys;
      while keys != {}
        invariant keys <= entries.Keys <= old(entries).Keys
        invariant forall k :: k in entries ==> entries[k] == old(entries)[k]
        invariant forall k :: k in old(entries) && k !in keys ==> (k in entries <==> now < old(entries)[k].expires)
        decreases keys
      {
        var k :| k in keys;
        if now >= entries[k].expires {
          entries := entries - {k};
        }
        keys := keys - {k};
      }
      SubsetSize(entries.Keys, old(entries).Keys);
    }

    method Get(now: int, key: string) returns (value: Option<V>)
      requires Valid()
      ensures value == Lookup(entries, now, key)
    {
      if key !in entries || !(now < entries[key].expires) {
        return None;
      }
      return Some(entries[key].value);
    }

    method Set(now: int, key: string, value: V)
      requires Valid()
      modifies this`entries
      ensures Valid() && entries == Replace(old(entries), now, key, value)
    {
      if key in entries && now < entries[key].expires {
        ghost var before := entries;
        entries := entries[key := Entry(value, entries[key].expires)];
        assert entries.Keys == before.Keys;
      }
    }

    method Delete(key: string)
      requires Valid()
      modifies this`entries
      ensures Valid() && entries == Remove(old(entries), key)
    {
      RemoveShrinks(entries, key);
      entries := entries - {key};
    }
  }

  lemma RemoveShrinks<V>(t: Table<V>, key: string)
    ensures |t - {key}| <= |t|
    ensures key in t ==> |t - {key}| == |t| - 1
    ensures key !in t ==> t - {key} == t
  {
    assert (t - {key}).Keys == t.Keys - {key};
    if key in t {
      assert t.Keys == (t.Keys - {key}) + {key};
    } else {
      assert t - {key} == t;
    }
  }

  lemma PutGrows<V>(t: Table<V>, key: string, e: Entry<V>)
    requires key !in t
    ensures |t[key := e]| == |t| + 1
  {
    assert t[key := e].Keys == t.Keys + {key};
  }

  // ---------------------------------------------------------------- refusals

  /** SetNX refuses exactly when the key has no entry at all, the map is full, and
      either every entry is live or the last sweep is younger than the throttle.  So
      an expired key still in the map can always be claimed again. */
  lemma RefusedExactlyWhenFull<V>(max: int, m: Mem<V>, now: int, key: string, value: V, ttl: int)
    requires max >= 1 && |m.entries| <= max
    ensures SetNXStep(max, m, now, key, value, ttl).1 == Full <==>
      && key !in m.entries && |m.entries| == max
      && ((forall k :: k in m.entries ==> now < m.entries[k].expires)
          || (m.lastSweep.Some? && now - m.lastSweep.value < 1_000_000_000))
  {
    RemoveShrinks(m.entries, key);
    if key !in m.entries {
      var live := Visible(m.entries, now);
      SubsetSize(live.Keys, m.entries.Keys);
      assert m.entries - {key} == m.entries;
      if forall k :: k in m.entries ==> now < m.entries[k].expires {
        assert live.Keys == m.entries.Keys;
      } else {
        var k :| k in m.entries && now >= m.entries[k].expires;
        assert k in m.entries.Keys && k !in live.Keys;
      }
    }
  }

  /** A claim touches no other key below capacity; at capacity it may drop other keys, all of
      them dead, at most once a second. */
  lemma OthersDropOnlyAtCapacity<V>(max: int, m: Mem<V>, now: int, key: string, value: V, ttl: int)
    requires |m.entries| <= max
    ensures var m' := SetNXStep(max, m, now, key, value, ttl).0;
      && (forall k :: k != key && k in m'.entries ==> k in m.entries && m'.entries[k] == m.entries[k])
      && ((exists k :: k != key && k in m.entries && k !in m'.entries) ==>
            |m.entries| == max && m'.lastSweep == Some(now)
            && (m.lastSweep.Some? ==> now - m.lastSweep.value >= 1_000_000_000))
      && (forall k :: k != key && k in m.entries && k !in m'.entries ==> now >= m.entries[k].expires)
      && (m'.lastSweep in {m.lastSweep, Some(now)})
  {
    RemoveShrinks(m.entries, key);
  }

  lemma SetNXBounded<V>(max: int, m: Mem<V>, now: int, key: string, value: V, ttl: int)
    requires max >= 1 && |m.entries| <= max
    ensures |SetNXStep(max, m, now, key, value, ttl).0.entries| <= max
  {
    RemoveShrinks(m.entries, key);
    var m0 := m.(entries := m.entries - {key});
    RoomShrinks(max, m0, now);
    PutGrows(Room(max, m0, now).entries, key, Entry(value, now + ttl));
  }

  lemma RoomShrinks<V>(max: int, m: Mem<V>, now: int)
    ensures Room(max, m, now).entries.Keys <= m.entries.Keys && |Room(max, m, now).entries| <= |m.entries|
  {
    SubsetSize(Visible(m.entries, now).Keys, m.entries.Keys);
  }

  lemma VisibleWithoutExpired<V>(t: Table<V>, now: int, key: string)
    requires !Live(t, now, key)
    ensures Visible(t - {key}, now) == Visible(t, now)
  {
  }

  lemma VisibleTwice<V>(t: Table<V>, now: int)
    ensures Visible(Visible(t, now), now) == Visible(t, now)
  {
  }

  lemma VisiblePut<V>(t: Table<V>, now: int, key: string, e: Entry<V>)
    ensures Visible(t[key := e], now) ==
            if now < e.expires then Visible(t, now)[key := e] else Visible(t, now) - {key}
  {
  }

  lemma VisibleRemove<V>(t: Table<V>, now: int, key: string)
    ensures Visible(t - {key}, now) == Visible(t, now) - {key}
  {
  }

  lemma LiveIsVisible<V>(t: Table<V>, now: int, key: string)
    ensures Live(t, now, key) <==> key in Visible(t, now)
    ensures Live(t, now, key) ==> Visible(t, now)[key] == t[key]
  {
  }

  /** A sweep or a refusal drops no live record; a claim adds its key and no other. */
  lemma SetNXVisible<V>(max: int, m: Mem<V>, now: int, key: string, value: V, ttl: int)
    ensures var (m', out) := SetNXStep(max, m, now, key, value, ttl);
      && (out != Stored ==> Visible(m'.entries, now) == Visible(m.entries, now))
      && (out == Stored ==>
            Visible(m'.entries, now) ==
              if ttl > 0 then Visible(m.entries, now)[key := Entry(value, now + ttl)]
              else Visible(m.entries, now) - {key})
  {
    if !Live(m.entries, now, key) {
      var t := m.entries - {key};
      VisibleWithoutExpired(m.entries, now, key);
      VisibleTwice(t, now);
      var m1 := Room(max, m.(entries := t), now);
      assert Visible(m1.entries, now) == Visible(m.entries, now);
      VisiblePut(m1.entries, now, key, Entry(value, now + ttl));
    }
  }

  // ---------------------------------------------------------------- refinement

  datatype Op<V> =
    | DoSetNX(key: string, value: V, ttl: int)
    | DoGet(key: string)
    | DoSet(key: string, value: V)
    | DoDelete(key: string)

  datatype Call<V> = Call(at: int, op: Op<V>)

  datatype StoreReply<V> = Claimed(won: bool) | Refused | Got(found: Option<V>) | Done

  function MemStep<V>(max: int, m: Mem<V>, c: Call<V>): (Mem<V>, StoreReply<V>) {
    match c.op
    case DoSetNX(key, value, ttl) =>
      var (m', out) := SetNXStep(max, m, c.at, key, value, ttl);
      (m', match out case Stored => Claimed(true) case Taken => Claimed(false) case Full => Refused)
    case DoGet(key) => (m, Got(Lookup(m.entries, c.at, key)))
    case DoSet(key, value) => (m.(entries := Replace(m.entries, c.at, key, value)), Done)
    case DoDelete(key) => (m.(entries := Remove(m.entries, key)), Done)
  }

  function TableStep<V>(t: Table<V>, c: Call<V>): (Table<V>, StoreReply<V>) {
    match c.op
    case DoSetNX(key, value, ttl) =>
      var (t', won) := Claim(t, c.at, key, value, ttl);
      (t', Claimed(won))
    case DoGet(key) => (t, Got(Lookup(t, c.at, key)))
    case DoSet(key, value) => (Replace(t, c.at, key, value), Done)
    case DoDelete(key) => (Remove(t, key), Done)
  }

  ghost predicate Monotone<V>(now: int, calls: seq<Call<V>>)
    decreases |calls|
  {
    calls == [] || (now <= calls[0].at && Monotone(calls[0].at, calls[1..]))
  }

  /** Along the run every reply is the contract's, or a refusal the contract's map
      does not notice, and the store never outgrows its bound. */
  ghost predicate Simulates<V>(max: int, m: Mem<V>, t: Table<V>, calls: seq<Call<V>>)
    decreases |calls|
  {
    && |m.entries| <= max
    && (calls == [] ||
        var (m', reply) := MemStep(max, m, calls[0]);
        if reply == Refused then Simulates(max, m', t, calls[1..])
        else
          reply == TableStep(t, calls[0]).1 && Simulates(max, m', TableStep(t, calls[0]).0, calls[1..]))
  }

  lemma VisibleLater<V>(a: Table<V>, b: Table<V>, now: int, later: int)
    requires now <= later && Visible(a, now) == Visible(b, now)
    ensures Visible(a, later) == Visible(b, later)
  {
    forall k ensures k in Visible(a, later) <==> k in Visible(b, later)
      ensures k in Visible(a, later) ==> Visible(a, later)[k] == Visible(b, later)[k]
    {
      assert k in Visible(a, now) <==> k in Visible(b, now);
    }
  }

  lemma SetNXSimulates<V>(max: int, m: Mem<V>, t: Table<V>, now: int, key: string, value: V, ttl: int)
    requires Visible(m.entries, now) == Visible(t, now)
    ensures var (m', out) := SetNXStep(max, m, now, key, value, ttl);
      if out == Full then Visible(m'.entries, now) == Visible(t, now)
      else (out == Stored) == Claim(t, now, key, value, ttl).1 &&
           Visible(m'.entries, now) == Visible(Claim(t, now, key, value, ttl).0, now)
  {
    LiveIsVisible(m.entries, now, key);
    LiveIsVisible(t, now, key);
    SetNXVisible(max, m, now, key, value, ttl);
    VisiblePut(t, now, key, Entry(value, now + ttl));
  }

  lemma ReplaceSimulates<V>(m: Table<V>, t: Table<V>, now: int, key: string, value: V)
    requires Visible(m, now) == Visible(t, now)
    ensures Visible(Replace(m, now, key, value), now) == Visible(Replace(t, now, key, value), now)
    ensures |Replace(m, now, key, value)| == |m|
  {
    LiveIsVisible(m, now, key);
    LiveIsVisible(t, now, key);
    if Live(m, now, key) {
      VisiblePut(m, now, key, Entry(value, m[key].expires));
      VisiblePut(t, now, key, Entry(value, t[key].expires));
      assert m[key := Entry(value, m[key].expires)].Keys == m.Keys;
    }
  }

  lemma StepSimulates<V>(max: int, m: Mem<V>, t: Table<V>, c: Call<V>)
    requires max >= 1 && |m.entries| <= max && Visible(m.entries, c.at) == Visible(t, c.at)
    ensures var (m', reply) := MemStep(max, m, c);
      && |m'.entries| <= max
      && if reply == Refused then Visible(m'.entries, c.at) == Visible(t, c.at)
         else reply == TableStep(t, c).1 && Visible(m'.entries, c.at) == Visible(TableStep(t, c).0, c.at)
  {
    match c.op {
      case DoSetNX(key, value, ttl) =>
        SetNXBounded(max, m, c.at, key, value, ttl);
        SetNXSimulates(max, m, t, c.at, key, value, ttl);
      case DoGet(key) =>
        LiveIsVisible(m.entries, c.at, key);
        LiveIsVisible(t, c.at, key);
      case DoSet(key, value) =>
        ReplaceSimulates(m.entries, t, c.at, key, value);
      case DoDelete(key) =>
        RemoveShrinks(m.entries, key);
        VisibleRemove(m.entries, c.at, key);
        VisibleRemove(t, c.at, key);
    }
  }

  lemma {:induction false} RunSimulates<V>(max: int, m: Mem<V>, t: Table<V>, now: int, calls: seq<Call<V>>)
    requires max >= 1 && |m.entries| <= max && Visible(m.entries, now) == Visible(t, now)
    requires Monotone(now, calls)
    ensures Simulates(max, m, t, calls)
    decreases |calls|
  {
    if calls == [] {
    } else {
      var c := calls[0];
      VisibleLater(m.entries, t, now, c.at);
      StepSimulates(max, m, t, c);
      var (m', reply) := MemStep(max, m, c);
      RunSimulates(max, m', if reply == Refused then t else TableStep(t, c).0, c.at, calls[1..]);
    }
  }

  /** For every sequence of calls on a clock that never runs backwards, MemoryStore
      answers as the unbounded forgetful map does, except that it may refuse a claim,
      and it never holds more than its maximum. */
  lemma StoreRefinesTable<V>(max: int, now: int, calls: seq<Call<V>>)
    requires max >= 1 && Monotone(now, calls)
    ensures Simulates(max, Mem(map[], None), map[], calls)
  {
    RunSimulates(max, Mem(map[], None), map[], now, calls);
  }

  // ---------------------------------------------------------------- late readings

  /** SetNX reads the clock before it takes the lock, so a call may carry a reading older
      than the latest one the store has seen. The forgetful map then keeps everything it
      was given, and a call looks at it as of an instant `seen`. */
  function TableStepAt<V>(t: Table<V>, c: Call<V>, seen: int): (Table<V>, StoreReply<V>) {
    match c.op
    case DoSetNX(key, value, ttl) =>
      if Live(t, seen, key) then (t, Claimed(false)) else (t[key := Entry(value, c.at + ttl)], Claimed(true))
    case DoGet(key) => (t, Got(Lookup(t, seen, key)))
    case DoSet(key, value) => (Replace(t, seen, key, value), Done)
    case DoDelete(key) => (Remove(t, key), Done)
  }

  function Later(a: int, b: int): int { if a >= b then a else b }

  /** The store holds only what the map holds, and all of it that is live at latest. */
  ghost predicate Covers<V>(m: Table<V>, t: Table<V>, latest: int) {
    && (forall k :: k in m ==> k in t && t[k] == m[k])
    && (forall k :: k in t && latest < t[k].expires ==> k in m)
  }

  /** Every reply is the map's, as of the call's own reading or of the latest one, or a
      refusal it does not notice; and the store never outgrows its bound. */
  ghost predicate SimulatesLate<V>(max: int, m: Mem<V>, t: Table<V>, latest: int, calls: seq<Call<V>>)
    decreases |calls|
  {
    && |m.entries| <= max
    && (calls == [] ||
        var c, now := calls[0], Later(latest, calls[0].at);
        var (m', reply) := MemStep(max, m, c);
        if reply == Refused then SimulatesLate(max, m', t, now, calls[1..])
        else
          || (reply == TableStepAt(t, c, c.at).1
              && SimulatesLate(max, m', TableStepAt(t, c, c.at).0, now, calls[1..]))
          || (reply == TableStepAt(t, c, now).1
              && SimulatesLate(max, m', TableStepAt(t, c, now).0, now, calls[1..])))
  }

  /** The instant a call looks as of: its own reading while the store still has the key,
      the latest when it has dropped it. */
  function SeenAt<V>(m: Table<V>, key: string, at: int, latest: int): int { if key in m then at else Later(latest, at) }

  lemma StoreSees<V>(m: Table<V>, t: Table<V>, key: string, at: int, latest: int)
    requires Covers(m, t, latest)
    ensures Live(m, at, key) <==> Live(t, SeenAt(m, key, at, latest), key)
    ensures Live(m, at, key) ==> m[key] == t[key]
  {
  }

  lemma CoversLater<V>(m: Table<V>, t: Table<V>, latest: int, now: int)
    requires Covers(m, t, latest) && latest <= now
    ensures Covers(m, t, now)
  {
  }

  lemma RoomCovers<V>(max: int, m: Mem<V>, t: Table<V>, key: string, at: int, latest: int)
    requires Covers(m.entries, t, latest) && at <= latest && !Live(m.entries, at, key)
    ensures Covers(Room(max, m.(entries := m.entries - {key}), at).entries, t, latest)
  {
  }

  lemma PutCovers<V>(m: Table<V>, t: Table<V>, key: string, e: Entry<V>, latest: int)
    requires Covers(m, t, latest)
    ensures Covers(m[key := e], t[key := e], latest)
  {
  }

  lemma SetNXLate<V>(max: int, m: Mem<V>, t: Table<V>, latest: int, at: int, key: string, value: V, ttl: int)
    requires Covers(m.entries, t, latest)
    ensures var now, seen := Later(latest, at), SeenAt(m.entries, key, at, latest);
      var (m', out) := SetNXStep(max, m, at, key, value, ttl);
      && (out == Full ==> Covers(m'.entries, t, now))
      && (out == Taken ==> Live(t, seen, key) && Covers(m'.entries, t, now))
      && (out == Stored ==> !Live(t, seen, key) && Covers(m'.entries, t[key := Entry(value, at + ttl)], now))
  {
    var now := Later(latest, at);
    StoreSees(m.entries, t, key, at, latest);
    CoversLater(m.entries, t, latest, now);
    if !Live(m.entries, at, key) {
      RoomCovers(max, m, t, key, at, now);
      var room := Room(max, m.(entries := m.entries - {key}), at);
      PutCovers(room.entries, t, key, Entry(value, at + ttl), now);
    }
  }

  lemma ReplaceLate<V>(m: Table<V>, t: Table<V>, latest: int, at: int, key: string, value: V)
    requires Covers(m, t, latest)
    ensures var now, seen := Later(latest, at), SeenAt(m, key, at, latest);
      Covers(Replace(m, at, key, value), Replace(t, seen, key, value), now) && |Replace(m, at, key, value)| == |m|
  {
    StoreSees(m, t, key, at, latest);
    CoversLater(m, t, latest, Later(latest, at));
    if Live(m, at, key) {
      PutCovers(m, t, key, Entry(value, m[key].expires), Later(latest, at));
      assert m[key := Entry(value, m[key].expires)].Keys == m.Keys;
    }
  }

  /** The call's reply is the map's as of the instant it looks at, or a refusal, and the
      store still covers the map. */
  ghost predicate AnswersLate<V>(max: int, m: Mem<V>, t: Table<V>, latest: int, c: Call<V>) {
    var now, seen := Later(latest, c.at), SeenAt(m.entries, c.op.key, c.at, latest);
    var (m', reply) := MemStep(max, m, c);
    && |m'.entries| <= max
    && if reply == Refused then Covers(m'.entries, t, now)
       else reply == TableStepAt(t, c, seen).1 && Covers(m'.entries, TableStepAt(t, c, seen).0, now)
  }

  lemma ClaimAnswersLate<V>(max: int, m: Mem<V>, t: Table<V>, latest: int, c: Call<V>)
    requires max >= 1 && |m.entries| <= max && Covers(m.entries, t, latest) && c.op.DoSetNX?
    ensures AnswersLate(max, m, t, latest, c)
  {
    SetNXBounded(max, m, c.at, c.op.key, c.op.value, c.op.ttl);
    SetNXLate(max, m, t, latest, c.at, c.op.key, c.op.value, c.op.ttl);
  }

  lemma StepLate<V>(max: int, m: Mem<V>, t: Table<V>, latest: int, c: Call<V>)
    requires max >= 1 && |m.entries| <= max && Covers(m.entries, t, latest)
    ensures AnswersLate(max, m, t, latest, c)
  {
    CoversLater(m.entries, t, latest, Later(latest, c.at));
    match c.op {
      case DoSetNX(_, _, _) => ClaimAnswersLate(max, m, t, latest, c);
      case DoGet(key) => StoreSees(m.entries, t, key, c.at, latest);
      case DoSet(key, value) => ReplaceLate(m.entries, t, latest, c.at, key, value);
      case DoDelete(key) => RemoveShrinks(m.entries, key);
    }
  }

  /** For every sequence of calls, whatever their readings: the store answers as a map that
      forgets keys at expiry, asked at the call's own reading or, for a key the store has
      already dropped, at the latest one. So a late reading never hands out a key that is
      live at the latest reading; it can see a key as live that has just expired, and its
      own record expires by its own reading. */
  lemma {:induction false} LateReadingsStillRefine<V>(max: int, m: Mem<V>, t: Table<V>, latest: int,
      calls: seq<Call<V>>)
    requires max >= 1 && |m.entries| <= max && Covers(m.entries, t, latest)
    ensures SimulatesLate(max, m, t, latest, calls)
    decreases |calls|
  {
    if calls == [] {
    } else {
      var c, now := calls[0], Later(latest, calls[0].at);
      StepLate(max, m, t, latest, c);
      var (m', reply) := MemStep(max, m, c);
      var seen := SeenAt(m.entries, c.op.key, c.at, latest);
      LateReadingsStillRefine(max, m', if reply == Refused then t else TableStepAt(t, c, seen).0, now, calls[1..]);
    }
  }

  /** A claim that is granted finds its key dead at the latest reading, however late its
      own reading is; a claim that is turned down finds it live at its own. */
  lemma LateClaims<V>(max: int, m: Mem<V>, t: Table<V>, latest: int, at: int, key: string, value: V, ttl: int)
    requires Covers(m.entries, t, latest) && at <= latest
    ensures SetNXStep(max, m, at, key, value, ttl).1 == Stored ==> !Live(t, latest, key)
    ensures SetNXStep(max, m, at, key, value, ttl).1 == Taken ==> Live(t, at, key)
  {
  }
}
