/** The in-package limiter of httpx/middleware/ratelimit.go: lazily refilled token
    buckets in a bounded map.  Times are seconds and tokens are exact reals.

    The reference is a limiter whose map has no bound and never forgets a key. */
module TokenBucket {
  import opened Common

  const DEFAULT_MAX_KEYS := 65536

  datatype Config = Config(rate: real, burst: real, maxKeys: int)
  {
    predicate Valid() { rate > 0.0 && burst >= 1.0 && maxKeys >= 1 }
  }

  function Max(a: real, b: real): real { if a >= b then a else b }
  function Min(a: real, b: real): real { if a <= b then a else b }

  /** newTokenBucket's defaults: a burst below one means max(1, rate) truncated. */
  function NewConfig(rate: real, burst: int, maxKeys: int): (c: Config)
    requires rate > 0.0
    ensures c.Valid() && c.rate == rate
    ensures burst >= 1 ==> c.burst == burst as real
    ensures burst < 1 ==> c.burst <= Max(1.0, rate) < c.burst + 1.0
    ensures c.maxKeys == if maxKeys <= 0 then DEFAULT_MAX_KEYS else maxKeys
  {
    Config(rate,
           if burst < 1 then Max(1.0, rate).Floor as real else burst as real,
           if maxKeys <= 0 then DEFAULT_MAX_KEYS else maxKeys)
  }

  datatype Entry = Entry(tokens: real, last: real)
  type Buckets = map<string, Entry>

  /** What a bucket would hold at time t, ignoring the cap. */
  function Level(cfg: Config, e: Entry, t: real): real {
    e.tokens + cfg.rate * (t - e.last)
  }

  function Refill(cfg: Config, e: Entry, now: real): Entry {
    Entry(Min(cfg.burst, Level(cfg, e, now)), now)
  }

  function Fresh(cfg: Config, now: real): Entry { Entry(cfg.burst, now) }

  datatype Answer = Answer(ok: bool, retryAfter: real)

  /** Spend one token if there is one; otherwise say when there will be. */
  function Spend(cfg: Config, e: Entry): (Entry, Answer)
    requires cfg.Valid()
  {
    if e.tokens >= 1.0 then (e.(tokens := e.tokens - 1.0), Answer(true, 0.0))
    else (e, Answer(false, (1.0 - e.tokens) / cfg.rate))
  }

  // ---------------------------------------------------------------- eviction

  predicate Stale(cfg: Config, e: Entry, now: real)
    requires cfg.Valid()
  {
    now - e.last >= 2.0 * cfg.burst / cfg.rate
  }

  function Sweep(cfg: Config, m: Buckets, now: real): Buckets
    requires cfg.Valid()
  {
    map k | k in m && !Stale(cfg, m[k], now) :: m[k]
  }

  /** A batch holds a tenth of the keys plus one, none used later than a survivor. */
  ghost predicate Coldest(m: Buckets, cold: set<string>) {
    && cold <= m.Keys
    && |cold| == |m| / 10 + 1
    && forall a, b :: a in cold && b in m && b !in cold ==> m[a].last <= m[b].last
  }

  /** Allow on a missing key at capacity drops a batch: the sweep was not enough. */
  predicate BatchFires(cfg: Config, m: Buckets, now: real, key: string)
    requires cfg.Valid()
  {
    key !in m && |m| >= cfg.maxKeys && |Sweep(cfg, m, now)| >= cfg.maxKeys
  }

  /** The map a new bucket is put into; cold is the batch, should one be dropped. */
  function MakeRoom(cfg: Config, m: Buckets, now: real, cold: set<string>): Buckets
    requires cfg.Valid()
  {
    if |m| < cfg.maxKeys then m
    else if |Sweep(cfg, m, now)| < cfg.maxKeys then Sweep(cfg, m, now)
    else Sweep(cfg, m, now) - cold
  }

  function AllowStep(cfg: Config, m: Buckets, now: real, key: string, cold: set<string>): (Buckets, Answer)
    requires cfg.Valid()
  {
    var (e, answer) := Spend(cfg, if key in m then Refill(cfg, m[key], now) else Fresh(cfg, now));
    ((if key in m then m else MakeRoom(cfg, m, now, cold))[key := e], answer)
  }

  /** The reference limiter: the same arithmetic, no eviction. */
  function AllowForever(cfg: Config, m: Buckets, now: real, key: string): (Buckets, Answer)
    requires cfg.Valid()
  {
    var (e, answer) := Spend(cfg, if key in m then Refill(cfg, m[key], now) else Fresh(cfg, now));
    (m[key := e], answer)
  }

  // ---------------------------------------------------------------- the class

  class Limiter {
    const cfg: Config
    var buckets: Buckets

    ghost predicate Valid()
      reads this
    {
      cfg.Valid() && |buckets| <= cfg.maxKeys
    }

    constructor (rate: real, burst: int, maxKeys: int)
      requires rate > 0.0
      ensures Valid() && cfg == NewConfig(rate, burst, maxKeys) && buckets == map[]
    {
      cfg := NewConfig(rate, burst, maxKeys);
      buckets := map[];
    }

    method Allow(now: real, key: string) returns (answer: Answer, ghost cold: set<string>)
      requires Valid()
      modifies this
      ensures Valid()
      ensures (buckets, answer) == AllowStep(cfg, old(buckets), now, key, cold)
      ensures BatchFires(cfg, old(buckets), now, key) ==> Coldest(Sweep(cfg, old(buckets), now), cold)
    {
      cold := {};
      var e: Entry;
      if key !in buckets {
        if |buckets| >= cfg.maxKeys {
          cold := Evict(now);
        }
        e := Fresh(cfg, now);
      } else {
        e := Refill(cfg, buckets[key], now);
      }
      ghost var room := buckets;
      var spent := Spend(cfg, e);
      buckets := buckets[key := spent.0];
      answer := spent.1;
      assert buckets.Keys == room.Keys + {key};
    }

    method Evict(now: real) returns (ghost cold: set<string>)
      requires Valid() && |buckets| >= cfg.maxKeys
      modifies this
      ensures buckets == MakeRoom(cfg, old(buckets), now, cold) && |buckets| < cfg.maxKeys
      ensures |Sweep(cfg, old(buckets), now)| >= cfg.maxKeys ==> Coldest(Sweep(cfg, old(buckets), now), cold)
    {
      DropStale(now);
      cold := {};
      SubsetSize(buckets.Keys, old(buckets).Keys);
      if |buckets| < cfg.maxKeys {
        return;
      }
      var all := ByLastUse(buckets);
      assert |all| == |buckets| >= 1;
      cold := DropPrefix(all, |all| / 10 + 1);
    }

    method DropStale(now: real)
      requires Valid()
      modifies this
      ensures buckets == Sweep(cfg, old(buckets), now)
    {
      var keys := buckets.Keys;
      while keys != {}
        invariant keys <= buckets.Keys <= old(buckets).Keys
        invariant forall k :: k in buckets ==> buckets[k] == old(buckets)[k]
        invariant forall k :: k in old(buckets) && k !in keys ==>
                    (k in buckets <==> !Stale(cfg, old(buckets)[k], now))
        decreases keys
      {
        var k :| k in keys;
        if Stale(cfg, buckets[k], now) {
          buckets := buckets - {k};
        }
        keys := keys - {k};
      }
    }

    method DropPrefix(all: seq<string>, n: nat) returns (ghost cold: set<string>)
      requires Valid() && SortedKeys(buckets, all) && buckets != map[] && n == |all| / 10 + 1
      modifies this
      ensures Coldest(old(buckets), cold)
      ensures buckets == old(buckets) - cold && |buckets| < |old(buckets)|
    {
      cold := {};
      ghost var m := buckets;
      for i := 0 to n
        invariant cold == Prefix(all, i) && |cold| == i
        invariant buckets == m - cold
      {
        PrefixGrows(all, i);
        buckets := buckets - {all[i]};
        cold := cold + {all[i]};
        assert buckets == m - cold;
      }
      PrefixIsColdest(m, all, n);
      FewerKeys(m, cold);
    }
  }

  lemma FewerKeys(m: Buckets, cold: set<string>)
    requires Coldest(m, cold)
    ensures |m - cold| < |m|
  {
    assert (m - cold).Keys == m.Keys - cold;
    assert |m.Keys - cold| == |m.Keys| - |cold|;
  }

  ghost function Prefix(all: seq<string>, n: nat): set<string>
    requires n <= |all|
  {
    set i | 0 <= i < n :: all[i]
  }

  lemma PrefixGrows(all: seq<string>, n: nat)
    requires n < |all| && forall i, j :: 0 <= i < j < |all| ==> all[i] != all[j]
    ensures Prefix(all, n + 1) == Prefix(all, n) + {all[n]} && all[n] !in Prefix(all, n)
  {
  }

  lemma PrefixIsColdest(m: Buckets, all: seq<string>, n: nat)
    requires SortedKeys(m, all) && n <= |all| && |Prefix(all, n)| == n == |m| / 10 + 1
    ensures Coldest(m, Prefix(all, n))
  {
    forall a, b | a in Prefix(all, n) && b in m && b !in Prefix(all, n) ensures m[a].last <= m[b].last {
      var j :| 0 <= j < |all| && all[j] == b;
      assert j >= n;
    }
  }

  ghost predicate Distinct(all: seq<string>) {
    forall i, j :: 0 <= i < j < |all| ==> all[i] != all[j]
  }

  ghost predicate Ascending(m: Buckets, all: seq<string>) {
    && (forall i :: 0 <= i < |all| ==> all[i] in m)
    && forall i, j :: 0 <= i < j < |all| ==> m[all[i]].last <= m[all[j]].last
  }

  ghost predicate SortedKeys(m: Buckets, all: seq<string>) {
    |all| == |m| && Distinct(all) && Ascending(m, all) && forall k :: k in m ==> k in all
  }

  lemma InsertKeepsOrder(m: Buckets, all: seq<string>, i: nat, k: string)
    requires Distinct(all) && Ascending(m, all) && i <= |all| && k in m && k !in all
    requires forall j :: 0 <= j < i ==> m[all[j]].last <= m[k].last
    requires i < |all| ==> m[k].last < m[all[i]].last
    ensures var more := Inserted(all, i, k);
      Distinct(more) && Ascending(m, more) && forall x :: x in more <==> x in all || x == k
  {
    InsertedAt(all, i, k);
  }

  /** slices.SortFunc on the last-use time; ties fall in any order. */
  method ByLastUse(m: Buckets) returns (all: seq<string>)
    ensures SortedKeys(m, all)
  {
    all := [];
    var keys := m.Keys;
    while keys != {}
      invariant keys <= m.Keys && |all| + |keys| == |m|
      invariant Distinct(all) && Ascending(m, all)
      invariant forall k :: k in m ==> (k in all <==> k !in keys)
      decreases keys
    {
      var k :| k in keys;
      var i := 0;
      while i < |all| && m[all[i]].last <= m[k].last
        invariant 0 <= i <= |all|
        invariant forall j :: 0 <= j < i ==> m[all[j]].last <= m[k].last
      {
        i := i + 1;
      }
      InsertKeepsOrder(m, all, i, k);
      all := Inserted(all, i, k);
      keys := keys - {k};
    }
  }

  // ---------------------------------------------------------------- runs

  datatype Call = Call(now: real, key: string, cold: set<string>)

  /** The final map and every answer of a run of the limiter. */
  function Run(cfg: Config, m: Buckets, calls: seq<Call>): (Buckets, seq<Answer>)
    requires cfg.Valid()
    decreases |calls|
  {
    if calls == [] then (m, [])
    else
      var (m1, a) := AllowStep(cfg, m, calls[0].now, calls[0].key, calls[0].cold);
      var (m2, rest) := Run(cfg, m1, calls[1..]);
      (m2, [a] + rest)
  }

  function RunForever(cfg: Config, m: Buckets, calls: seq<Call>): (Buckets, seq<Answer>)
    requires cfg.Valid()
    decreases |calls|
  {
    if calls == [] then (m, [])
    else
      var (m1, a) := AllowForever(cfg, m, calls[0].now, calls[0].key);
      var (m2, rest) := RunForever(cfg, m1, calls[1..]);
      (m2, [a] + rest)
  }

  /** The clock is read before the mutex is taken, so readings may arrive out of
      order: each is at most slack behind the latest reading so far. */
  ghost predicate Clocked(slack: real, latest: real, calls: seq<Call>)
    decreases |calls|
  {
    calls == [] ||
    (latest - slack <= calls[0].now && Clocked(slack, Max(latest, calls[0].now), calls[1..]))
  }

  /** The run never drops a batch. */
  ghost predicate Quiet(cfg: Config, m: Buckets, calls: seq<Call>)
    requires cfg.Valid()
    decreases |calls|
  {
    calls == [] ||
    (!BatchFires(cfg, m, calls[0].now, calls[0].key) &&
     Quiet(cfg, AllowStep(cfg, m, calls[0].now, calls[0].key, calls[0].cold).0, calls[1..]))
  }

  /** Every batch the run drops is a coldest one. */
  ghost predicate Honest(cfg: Config, m: Buckets, calls: seq<Call>)
    requires cfg.Valid()
    decreases |calls|
  {
    calls == [] ||
    (var c := calls[0];
     (BatchFires(cfg, m, c.now, c.key) ==> Coldest(Sweep(cfg, m, c.now), c.cold)) &&
     Honest(cfg, AllowStep(cfg, m, c.now, c.key, c.cold).0, calls[1..]))
  }

  // ------------------------------------------------- the map stays within maxKeys

  lemma MakeRoomBounds(cfg: Config, m: Buckets, now: real, cold: set<string>)
    requires cfg.Valid() && |m| <= cfg.maxKeys
    requires |m| >= cfg.maxKeys && |Sweep(cfg, m, now)| >= cfg.maxKeys ==> Coldest(Sweep(cfg, m, now), cold)
    ensures |MakeRoom(cfg, m, now, cold)| < cfg.maxKeys
  {
    var swept := Sweep(cfg, m, now);
    assert swept.Keys <= m.Keys;
    if |m| >= cfg.maxKeys && |swept| >= cfg.maxKeys {
      var left := swept - cold;
      assert left.Keys == swept.Keys - cold;
      assert |left.Keys| == |swept.Keys| - |cold|;
      assert |swept.Keys| <= |m.Keys| by { SubsetSize(swept.Keys, m.Keys); }
    }
  }

  /** In any run, batches and all, the map holds at most maxKeys buckets. */
  lemma {:induction false} NeverAboveMaxKeys(cfg: Config, m: Buckets, calls: seq<Call>)
    requires cfg.Valid() && |m| <= cfg.maxKeys && Honest(cfg, m, calls)
    ensures |Run(cfg, m, calls).0| <= cfg.maxKeys
    decreases |calls|
  {
    if calls == [] {
    } else {
      var c := calls[0];
      var m1 := AllowStep(cfg, m, c.now, c.key, c.cold).0;
      if c.key in m {
        assert m1.Keys == m.Keys;
      } else {
        MakeRoomBounds(cfg, m, c.now, c.cold);
        assert m1.Keys == MakeRoom(cfg, m, c.now, c.cold).Keys + {c.key};
      }
      assert |m1| == |m1.Keys| <= cfg.maxKeys;
      NeverAboveMaxKeys(cfg, m1, calls[1..]);
    }
  }

  // ------------------------------------------------- eviction by horizon is invisible

  /** A bucket as it can be while the latest reading is t: what it lacks, no more than
      slack seconds of refill have to make up. */
  predicate Sound(cfg: Config, slack: real, e: Entry, t: real) {
    e.tokens >= -(cfg.rate * slack) && Level(cfg, e, t) >= 0.0
  }

  /** The two limiters agree on every kept bucket, and a forgotten one is full again
      for every reading still to come. */
  ghost predicate Agree(cfg: Config, slack: real, t: real, m: Buckets, n: Buckets) {
    && m.Keys <= n.Keys
    && (forall k :: k in m ==> m[k] == n[k])
    && (forall k :: k in n ==> Sound(cfg, slack, n[k], t))
    && (forall k :: k in n && k !in m ==> Level(cfg, n[k], t - slack) >= cfg.burst)
  }

  lemma LevelShift(cfg: Config, e: Entry, a: real, b: real)
    ensures Level(cfg, e, b) == Level(cfg, e, a) + cfg.rate * (b - a)
  {
  }

  lemma RateMonotone(cfg: Config, a: real, b: real)
    requires cfg.Valid() && a <= b
    ensures cfg.rate * a <= cfg.rate * b
  {
  }

  lemma RateGains(cfg: Config, d: real)
    requires cfg.Valid() && d >= 0.0
    ensures cfg.rate * d >= 0.0
  {
  }

  lemma LevelMonotone(cfg: Config, e: Entry, a: real, b: real)
    requires cfg.Valid() && a <= b
    ensures Level(cfg, e, a) <= Level(cfg, e, b)
  {
    RateMonotone(cfg, a - e.last, b - e.last);
  }

  lemma StaleIsFull(cfg: Config, slack: real, e: Entry, now: real, t: real)
    requires cfg.Valid() && Sound(cfg, slack, e, t) && now <= t && 2.0 * (cfg.rate * slack) <= cfg.burst
    requires Stale(cfg, e, now)
    ensures Level(cfg, e, t - slack) >= cfg.burst
  {
    var h := 2.0 * cfg.burst / cfg.rate;
    assert cfg.rate * h == 2.0 * cfg.burst;
    RateMonotone(cfg, h, now - e.last);
    LevelShift(cfg, e, now, now - slack);
    assert cfg.rate * (now - slack - now) == -(cfg.rate * slack);
    LevelMonotone(cfg, e, now - slack, t - slack);
  }

  lemma SpendIsSound(cfg: Config, slack: real, e: Entry, t: real)
    requires cfg.Valid() && slack >= 0.0 && e.last <= t && Sound(cfg, slack, e, t)
    ensures Sound(cfg, slack, Spend(cfg, e).0, t)
  {
    if e.tokens >= 1.0 {
      var spent := Entry(e.tokens - 1.0, e.last);
      RateGains(cfg, slack);
      RateGains(cfg, t - e.last);
      assert Sound(cfg, slack, spent, t);
      assert Spend(cfg, e).0 == spent;
    }
  }

  lemma FreshIsSound(cfg: Config, slack: real, now: real, t: real)
    requires cfg.Valid() && slack >= 0.0 && now <= t
    ensures Sound(cfg, slack, Fresh(cfg, now), t)
  {
    RateGains(cfg, slack);
    RateGains(cfg, t - now);
    assert Level(cfg, Fresh(cfg, now), t) == cfg.burst + cfg.rate * (t - now);
  }

  lemma RefillIsSound(cfg: Config, slack: real, e: Entry, now: real, t: real)
    requires cfg.Valid() && slack >= 0.0 && t - slack <= now <= t
    requires Sound(cfg, slack, e, t)
    ensures Sound(cfg, slack, Refill(cfg, e, now), t)
  {
    if Level(cfg, e, now) >= cfg.burst {
      FreshIsSound(cfg, slack, now, t);
      assert Refill(cfg, e, now) == Fresh(cfg, now);
    } else {
      var r := Entry(Level(cfg, e, now), now);
      LevelShift(cfg, e, t, t - slack);
      assert cfg.rate * (t - slack - t) == -(cfg.rate * slack);
      LevelMonotone(cfg, e, t - slack, now);
      LevelShift(cfg, e, now, t);
      var low := Level(cfg, e, t - slack);
      assert low == Level(cfg, e, t) - cfg.rate * slack;
      assert r.tokens >= low;
      assert Level(cfg, r, t) == r.tokens + cfg.rate * (t - now);
      assert Refill(cfg, e, now) == r;
    }
  }

  /** The bucket a call leaves behind. */
  function After(cfg: Config, n: Buckets, now: real, key: string): Entry
    requires cfg.Valid()
  {
    Spend(cfg, if key in n then Refill(cfg, n[key], now) else Fresh(cfg, now)).0
  }

  lemma AfterIsSound(cfg: Config, slack: real, t: real, n: Buckets, now: real, key: string)
    requires cfg.Valid() && slack >= 0.0 && t - slack <= now <= t
    requires key in n ==> Sound(cfg, slack, n[key], t)
    ensures Sound(cfg, slack, After(cfg, n, now, key), t)
  {
    var e := if key in n then Refill(cfg, n[key], now) else Fresh(cfg, now);
    if key in n {
      RefillIsSound(cfg, slack, n[key], now, t);
    } else {
      FreshIsSound(cfg, slack, now, t);
    }
    SpendIsSound(cfg, slack, e, t);
  }

  /** Agreement survives the passing of time. */
  lemma AgreeLater(cfg: Config, slack: real, t: real, t': real, m: Buckets, n: Buckets)
    requires cfg.Valid() && t <= t' && Agree(cfg, slack, t, m, n)
    ensures Agree(cfg, slack, t', m, n)
  {
    forall k | k in n ensures Sound(cfg, slack, n[k], t') {
      LevelMonotone(cfg, n[k], t, t');
    }
    forall k | k in n && k !in m ensures Level(cfg, n[k], t' - slack) >= cfg.burst {
      LevelMonotone(cfg, n[k], t - slack, t' - slack);
    }
  }

  lemma SweepAgrees(cfg: Config, slack: real, t: real, m: Buckets, n: Buckets, now: real)
    requires cfg.Valid() && 2.0 * (cfg.rate * slack) <= cfg.burst && now <= t
    requires Agree(cfg, slack, t, m, n)
    ensures Agree(cfg, slack, t, Sweep(cfg, m, now), n)
  {
    forall k | k in m && Stale(cfg, m[k], now) ensures Level(cfg, n[k], t - slack) >= cfg.burst {
      StaleIsFull(cfg, slack, n[k], now, t);
    }
  }

  /** A key the limiter forgot gets the answer of the bucket the reference kept. */
  lemma SameBucket(cfg: Config, slack: real, t: real, m: Buckets, n: Buckets, now: real, key: string)
    requires cfg.Valid() && t - slack <= now && Agree(cfg, slack, t, m, n)
    ensures (if key in m then Refill(cfg, m[key], now) else Fresh(cfg, now)) ==
            (if key in n then Refill(cfg, n[key], now) else Fresh(cfg, now))
  {
    if key in n && key !in m {
      LevelMonotone(cfg, n[key], t - slack, now);
    }
  }

  /** One call while no batch fires: the same answer, and the limiters still agree. */
  lemma CallAgrees(cfg: Config, slack: real, latest: real, m: Buckets, n: Buckets, c: Call)
    requires cfg.Valid() && slack >= 0.0 && 2.0 * (cfg.rate * slack) <= cfg.burst
    requires latest - slack <= c.now && Agree(cfg, slack, latest, m, n)
    requires !BatchFires(cfg, m, c.now, c.key)
    ensures AllowStep(cfg, m, c.now, c.key, c.cold).1 == AllowForever(cfg, n, c.now, c.key).1
    ensures Agree(cfg, slack, Max(latest, c.now),
                  AllowStep(cfg, m, c.now, c.key, c.cold).0, AllowForever(cfg, n, c.now, c.key).0)
  {
    var t := Max(latest, c.now);
    AgreeLater(cfg, slack, latest, t, m, n);
    SweepAgrees(cfg, slack, t, m, n, c.now);
    SameBucket(cfg, slack, t, m, n, c.now, c.key);
    AfterIsSound(cfg, slack, t, n, c.now, c.key);
    var kept := if c.key in m then m else MakeRoom(cfg, m, c.now, c.cold);
    assert Agree(cfg, slack, t, kept, n);
    PutAgrees(cfg, slack, t, kept, n, c.key, After(cfg, n, c.now, c.key));
  }

  lemma PutAgrees(cfg: Config, slack: real, t: real, m: Buckets, n: Buckets, key: string, e: Entry)
    requires Agree(cfg, slack, t, m, n) && Sound(cfg, slack, e, t)
    ensures Agree(cfg, slack, t, m[key := e], n[key := e])
  {
  }

  lemma {:induction false} RunAgrees(cfg: Config, slack: real, latest: real, m: Buckets, n: Buckets, calls: seq<Call>)
    requires cfg.Valid() && slack >= 0.0 && 2.0 * (cfg.rate * slack) <= cfg.burst
    requires Agree(cfg, slack, latest, m, n) && Clocked(slack, latest, calls) && Quiet(cfg, m, calls)
    ensures Run(cfg, m, calls).1 == RunForever(cfg, n, calls).1
    decreases |calls|
  {
    if calls == [] {
    } else {
      var c := calls[0];
      CallAgrees(cfg, slack, latest, m, n, c);
      RunAgrees(cfg, slack, Max(latest, c.now), AllowStep(cfg, m, c.now, c.key, c.cold).0,
                AllowForever(cfg, n, c.now, c.key).0, calls[1..]);
    }
  }

  /** While no batch fires, dropping idle buckets at the horizon is invisible: every
      answer, retry delay included, is that of a limiter that never drops one.  Clock
      readings may even arrive out of order by up to half a refill. */
  lemma HorizonEvictionIsInvisible(cfg: Config, slack: real, t0: real, calls: seq<Call>)
    requires cfg.Valid() && slack >= 0.0 && 2.0 * (cfg.rate * slack) <= cfg.burst
    requires Clocked(slack, t0, calls) && Quiet(cfg, map[], calls)
    ensures Run(cfg, map[], calls).1 == RunForever(cfg, map[], calls).1
  {
    RunAgrees(cfg, slack, t0, map[], map[], calls);
  }

  // ------------------------------------------------- the retry delay

  lemma DelayFills(cfg: Config, e: Entry, d: real)
    requires cfg.Valid() && e.tokens < 1.0 && d >= 0.0
    ensures Refill(cfg, e, e.last + d).tokens >= 1.0 <==> d >= (1.0 - e.tokens) / cfg.rate
  {
    var r := (1.0 - e.tokens) / cfg.rate;
    assert cfg.rate * r == 1.0 - e.tokens;
    assert Level(cfg, e, e.last + d) == e.tokens + cfg.rate * d;
    if d >= r {
      RateMonotone(cfg, r, d);
    } else {
      assert cfg.rate * (r - d) > 0.0;
    }
  }

  /** The delay a refused caller is told is the right one: the key's next call is admitted
      if it comes no earlier, and refused if it does. */
  lemma RetryAfterIsExact(cfg: Config, m: Buckets, now: real, key: string, cold: set<string>, d: real,
      cold': set<string>)
    requires cfg.Valid() && d >= 0.0
    requires var a := AllowStep(cfg, m, now, key, cold).1; !a.ok
    ensures var (m1, a) := AllowStep(cfg, m, now, key, cold);
      a.retryAfter > 0.0 && (AllowStep(cfg, m1, now + d, key, cold').1.ok <==> d >= a.retryAfter)
  {
    var (m1, a) := AllowStep(cfg, m, now, key, cold);
    assert m1[key].last == now && m1[key].tokens < 1.0;
    assert a.retryAfter == (1.0 - m1[key].tokens) / cfg.rate;
    DelayFills(cfg, m1[key], d);
    DelayFills(cfg, m1[key], 0.0);
    assert Refill(cfg, m1[key], now).tokens == Min(cfg.burst, m1[key].tokens);
  }

  // ------------------------------------------------- the admission bound

  /** How many calls for the key are admitted of those that read the clock within [t0, t1],
      wherever they stand in the run. */
  function Admitted(calls: seq<Call>, answers: seq<Answer>, key: string, t0: real, t1: real): nat
    requires |calls| == |answers|
  {
    if calls == [] then 0
    else
      var counts := calls[0].key == key && t0 <= calls[0].now <= t1 && answers[0].ok;
      (if counts then 1 else 0) + Admitted(calls[1..], answers[1..], key, t0, t1)
  }

  lemma {:induction false} RunForeverLength(cfg: Config, n: Buckets, calls: seq<Call>)
    requires cfg.Valid()
    ensures |RunForever(cfg, n, calls).1| == |calls|
    decreases |calls|
  {
    if calls == [] {
    } else {
      RunForeverLength(cfg, AllowForever(cfg, n, calls[0].now, calls[0].key).0, calls[1..]);
    }
  }

  /** The credit of a bucket pays for every later admission within the window; calls that
      read the clock outside it only lower the credit. */
  lemma {:induction false} CreditPays(cfg: Config, n: Buckets, calls: seq<Call>, key: string, t0: real, t1: real)
    requires cfg.Valid() && key in n
    ensures |RunForever(cfg, n, calls).1| == |calls|
    ensures var a := Admitted(calls, RunForever(cfg, n, calls).1, key, t0, t1);
      a == 0 || a as real <= Level(cfg, n[key], t1)
    decreases |calls|
  {
    RunForeverLength(cfg, n, calls);
    if calls == [] {
    } else {
      var c := calls[0];
      var n1 := AllowForever(cfg, n, c.now, c.key).0;
      CreditPays(cfg, n1, calls[1..], key, t0, t1);
      if c.key == key {
        RefillKeepsCredit(cfg, n[key], c.now, t1);
        SpendPays(cfg, Refill(cfg, n[key], c.now), t1);
      }
    }
  }

  lemma RefillKeepsCredit(cfg: Config, e: Entry, now: real, t1: real)
    requires cfg.Valid()
    ensures Level(cfg, Refill(cfg, e, now), t1) <= Level(cfg, e, t1)
  {
    LevelShift(cfg, e, now, t1);
    LevelShift(cfg, Refill(cfg, e, now), now, t1);
  }

  lemma LevelSpent(cfg: Config, tokens: real, last: real, t: real)
    ensures Level(cfg, Entry(tokens - 1.0, last), t) == Level(cfg, Entry(tokens, last), t) - 1.0
  {
  }

  /** An admission costs one unit of credit, and within the window had one to spend. */
  lemma SpendPays(cfg: Config, e: Entry, t1: real)
    requires cfg.Valid()
    ensures Spend(cfg, e).1.ok ==> Level(cfg, Spend(cfg, e).0, t1) == Level(cfg, e, t1) - 1.0
    ensures Spend(cfg, e).1.ok && e.last <= t1 ==> Level(cfg, Spend(cfg, e).0, t1) >= 0.0
    ensures !Spend(cfg, e).1.ok ==> Spend(cfg, e).0 == e
  {
    if e.last <= t1 {
      RateGains(cfg, t1 - e.last);
      assert Level(cfg, e, t1) >= e.tokens;
    }
    LevelSpent(cfg, e.tokens, e.last, t1);
  }

  /** credit covers any bucket filled to the brim inside the window. */
  ghost predicate Covers(cfg: Config, credit: real, t0: real, t1: real) {
    credit >= 0.0 &&
    forall e: Entry :: t0 <= e.last && e.tokens <= cfg.burst ==> Level(cfg, e, t1) <= credit
  }

  lemma BudgetCovers(cfg: Config, t0: real, t1: real)
    requires cfg.Valid() && t0 <= t1
    ensures Covers(cfg, cfg.burst + cfg.rate * (t1 - t0), t0, t1)
  {
    RateGains(cfg, t1 - t0);
    forall e: Entry | t0 <= e.last && e.tokens <= cfg.burst
      ensures Level(cfg, e, t1) <= cfg.burst + cfg.rate * (t1 - t0)
    {
      RateMonotone(cfg, t1 - e.last, t1 - t0);
    }
  }

  lemma {:induction false} CreditBound(cfg: Config, n: Buckets, calls: seq<Call>, key: string, t0: real, t1: real,
      credit: real)
    requires cfg.Valid() && Covers(cfg, credit, t0, t1)
    ensures |RunForever(cfg, n, calls).1| == |calls|
    ensures Admitted(calls, RunForever(cfg, n, calls).1, key, t0, t1) as real <= credit
    decreases |calls|
  {
    RunForeverLength(cfg, n, calls);
    if calls == [] {
    } else {
      var c := calls[0];
      var n1 := AllowForever(cfg, n, c.now, c.key).0;
      if c.key != key || !(t0 <= c.now <= t1) {
        CreditBound(cfg, n1, calls[1..], key, t0, t1, credit);
      } else {
        CreditPays(cfg, n1, calls[1..], key, t0, t1);
        var e := if key in n then Refill(cfg, n[key], c.now) else Fresh(cfg, c.now);
        assert e.last == c.now && e.tokens <= cfg.burst;
        SpendPays(cfg, e, t1);
      }
    }
  }

  /** Whatever the map held before, and whatever readings come in between, a key is
      admitted at most burst + rate*T times by calls that read the clock within a span of
      length T. */
  lemma AdmissionBound(cfg: Config, n: Buckets, calls: seq<Call>, key: string, t0: real, t1: real)
    requires cfg.Valid() && t0 <= t1
    ensures |RunForever(cfg, n, calls).1| == |calls|
    ensures Admitted(calls, RunForever(cfg, n, calls).1, key, t0, t1) as real <= cfg.burst + cfg.rate * (t1 - t0)
  {
    BudgetCovers(cfg, t0, t1);
    CreditBound(cfg, n, calls, key, t0, t1, cfg.burst + cfg.rate * (t1 - t0));
  }

  /** The bound holds of the limiter itself, for every window and every run that drops no
      batch. */
  lemma LimiterAdmissionBound(cfg: Config, slack: real, start: real, calls: seq<Call>, key: string, t0: real, t1: real)
    requires cfg.Valid() && slack >= 0.0 && 2.0 * (cfg.rate * slack) <= cfg.burst
    requires Clocked(slack, start, calls) && Quiet(cfg, map[], calls) && t0 <= t1
    ensures var answers := Run(cfg, map[], calls).1;
      && |answers| == |calls|
      && Admitted(calls, answers, key, t0, t1) as real <= cfg.burst + cfg.rate * (t1 - t0)
  {
    HorizonEvictionIsInvisible(cfg, slack, start, calls);
    AdmissionBound(cfg, map[], calls, key, t0, t1);
  }
}
