/** What the limiter's eviction can show: exactly when a dropped bucket is noticed, and
    exactly how late clock readings may be. */
module LimiterBounds {
  import opened TokenBucket

  // ------------------------------------------------- when a batch is visible

  /** Calls for one key, all reading the clock alike. */
  ghost predicate Together(calls: seq<Call>, key: string, now: real) {
    forall i :: 0 <= i < |calls| ==> calls[i].key == key && calls[i].now == now
  }

  /** Bounded and unbounded limiter answer alike from the same bucket on. */
  lemma {:induction false} SameFromSameBucket(
    cfg: Config, m: Buckets, n: Buckets, key: string, now: real, calls: seq<Call>)
    requires cfg.Valid() && Together(calls, key, now)
    requires key in m && key in n && m[key] == n[key]
    ensures Run(cfg, m, calls).1 == RunForever(cfg, n, calls).1
    decreases |calls|
  {
    if calls == [] {
    } else {
      var m1 := AllowStep(cfg, m, now, key, calls[0].cold).0;
      var n1 := AllowForever(cfg, n, now, key).0;
      SameFromSameBucket(cfg, m1, n1, key, now, calls[1..]);
    }
  }

  /** A bucket already brought up to now is not refilled again. */
  lemma RefillTwice(cfg: Config, e: Entry, now: real)
    requires e.last == now && e.tokens <= cfg.burst
    ensures Refill(cfg, e, now) == e
  {
    assert cfg.rate * (now - e.last) == 0.0;
  }

  lemma Emptier(cfg: Config, a: real, b: real)
    requires cfg.rate > 0.0 && b < a
    ensures (1.0 - a) / cfg.rate != (1.0 - b) / cfg.rate
  {
    var x, y := (1.0 - a) / cfg.rate, (1.0 - b) / cfg.rate;
    assert x * cfg.rate == 1.0 - a && y * cfg.rate == 1.0 - b;
  }

  /** Two buckets with different contents are told apart by enough calls at once: in the
      end one refuses, and says a different delay if the other refuses too. */
  lemma {:induction false} LessIsSeen(cfg: Config, m: Buckets, n: Buckets, key: string, now: real)
    returns (calls: seq<Call>)
    requires cfg.Valid() && key in m && key in n && m[key].last == n[key].last == now
    requires n[key].tokens < m[key].tokens <= cfg.burst
    ensures Together(calls, key, now) && Run(cfg, m, calls).1 != RunForever(cfg, n, calls).1
    decreases if n[key].tokens < 1.0 then 0 else 1 + n[key].tokens.Floor
  {
    RefillTwice(cfg, m[key], now);
    RefillTwice(cfg, n[key], now);
    var c := Call(now, key, {});
    if n[key].tokens < 1.0 {
      Emptier(cfg, m[key].tokens, n[key].tokens);
      calls := [c];
      assert Run(cfg, m, calls).1[0] != RunForever(cfg, n, calls).1[0];
    } else {
      var m1 := AllowStep(cfg, m, now, key, {}).0;
      var n1 := AllowForever(cfg, n, now, key).0;
      var rest := LessIsSeen(cfg, m1, n1, key, now);
      calls := [c] + rest;
      assert calls[1..] == rest;
      assert Run(cfg, m, calls).1[1..] == Run(cfg, m1, rest).1;
      assert RunForever(cfg, n, calls).1[1..] == RunForever(cfg, n1, rest).1;
    }
  }

  /** A limiter that dropped a key's bucket answers every burst of calls for it at now as
      one that kept it. */
  ghost predicate LossUnseen(cfg: Config, m: Buckets, n: Buckets, key: string, now: real)
    requires cfg.Valid()
  {
    forall calls :: Together(calls, key, now) ==> Run(cfg, m, calls).1 == RunForever(cfg, n, calls).1
  }

  /** A lost bucket shows exactly when it would not have been full again by the next call. */
  lemma LossShowsBelowBurst(cfg: Config, m: Buckets, n: Buckets, key: string, now: real)
    requires cfg.Valid() && key !in m && key in n
    ensures LossUnseen(cfg, m, n, key, now) <==> Level(cfg, n[key], now) >= cfg.burst
  {
    if Level(cfg, n[key], now) >= cfg.burst {
      assert Refill(cfg, n[key], now) == Fresh(cfg, now);
      forall calls: seq<Call> | Together(calls, key, now)
        ensures Run(cfg, m, calls).1 == RunForever(cfg, n, calls).1 {
        if calls != [] {
          var m1 := AllowStep(cfg, m, now, key, calls[0].cold).0;
          var n1 := AllowForever(cfg, n, now, key).0;
          SameFromSameBucket(cfg, m1, n1, key, now, calls[1..]);
        }
      }
    } else {
      var calls := LossIsSeen(cfg, m, n, key, now);
    }
  }

  lemma LossIsSeen(cfg: Config, m: Buckets, n: Buckets, key: string, now: real) returns (calls: seq<Call>)
    requires cfg.Valid() && key !in m && key in n && Level(cfg, n[key], now) < cfg.burst
    ensures Together(calls, key, now) && Run(cfg, m, calls).1 != RunForever(cfg, n, calls).1
  {
    var c := Call(now, key, {});
    var kept := Refill(cfg, n[key], now);
    if kept.tokens < 1.0 {
      calls := [c];
      assert Run(cfg, m, calls).1[0] != RunForever(cfg, n, calls).1[0];
    } else {
      var m1 := AllowStep(cfg, m, now, key, {}).0;
      var n1 := AllowForever(cfg, n, now, key).0;
      var rest := LessIsSeen(cfg, m1, n1, key, now);
      calls := [c] + rest;
      assert calls[1..] == rest;
      assert Run(cfg, m, calls).1[1..] == Run(cfg, m1, rest).1;
      assert RunForever(cfg, n, calls).1[1..] == RunForever(cfg, n1, rest).1;
    }
  }

  /** So a batch is visible through a key it drops exactly when, at the next call for that
      key, the dropped bucket would have held less than burst. */
  lemma BatchIsVisible(cfg: Config, m: Buckets, n: Buckets, c: Call, key: string, now: real)
    requires cfg.Valid() && BatchFires(cfg, m, c.now, c.key)
    requires key in Sweep(cfg, m, c.now) && key in c.cold && key != c.key
    requires key in n && n[key] == m[key]
    ensures var m1, n1 := AllowStep(cfg, m, c.now, c.key, c.cold).0, AllowForever(cfg, n, c.now, c.key).0;
      LossUnseen(cfg, m1, n1, key, now) <==> Level(cfg, m[key], now) >= cfg.burst
  {
    var m1, n1 := AllowStep(cfg, m, c.now, c.key, c.cold).0, AllowForever(cfg, n, c.now, c.key).0;
    LossShowsBelowBurst(cfg, m1, n1, key, now);
  }

  /** What a call does to the other keys' buckets: nothing while its own key has one or the
      map is below capacity; otherwise it drops those idle for two refills, and a batch on
      top if that was not enough. */
  lemma OthersKept(cfg: Config, m: Buckets, now: real, key: string, cold: set<string>, k: string)
    requires cfg.Valid() && k != key
    ensures var m' := AllowStep(cfg, m, now, key, cold).0;
      && (k in m' ==> k in m && m'[k] == m[k])
      && (k in m' <==>
            k in m && (key in m || |m| < cfg.maxKeys
                       || (now - m[k].last < 2.0 * cfg.burst / cfg.rate
                           && !(k in cold && BatchFires(cfg, m, now, key)))))
  {
  }

  // ------------------------------------------------- how late readings may be

  /** From here some run, on a clock late by at most slack and without a batch, tells the
      two limiters apart. */
  ghost predicate Shows(cfg: Config, slack: real, latest: real, m: Buckets, n: Buckets)
    requires cfg.Valid()
  {
    exists calls :: Clocked(slack, latest, calls) && Quiet(cfg, m, calls) &&
      Run(cfg, m, calls).1 != RunForever(cfg, n, calls).1
  }

  lemma ShowsBefore(cfg: Config, slack: real, latest: real, m: Buckets, n: Buckets, c: Call)
    requires cfg.Valid() && latest - slack <= c.now && !BatchFires(cfg, m, c.now, c.key)
    requires Shows(cfg, slack, Max(latest, c.now), AllowStep(cfg, m, c.now, c.key, c.cold).0,
                   AllowForever(cfg, n, c.now, c.key).0)
    ensures Shows(cfg, slack, latest, m, n)
  {
    var m1, n1 := AllowStep(cfg, m, c.now, c.key, c.cold).0, AllowForever(cfg, n, c.now, c.key).0;
    var rest :| Clocked(slack, Max(latest, c.now), rest) && Quiet(cfg, m1, rest) &&
      Run(cfg, m1, rest).1 != RunForever(cfg, n1, rest).1;
    var calls := [c] + rest;
    assert calls[1..] == rest;
    assert Run(cfg, m, calls).1[1..] == Run(cfg, m1, rest).1;
    assert RunForever(cfg, n, calls).1[1..] == RunForever(cfg, n1, rest).1;
    assert Clocked(slack, latest, calls) && Quiet(cfg, m, calls);
  }

  lemma {:induction false} TogetherIsFine(cfg: Config, slack: real, latest: real, m: Buckets, calls: seq<Call>,
      key: string, now: real)
    requires cfg.Valid() && Together(calls, key, now) && latest - slack <= now <= latest
    requires key in m || |m| < cfg.maxKeys
    ensures Clocked(slack, latest, calls) && Quiet(cfg, m, calls)
    decreases |calls|
  {
    if calls == [] {
    } else {
      var c := calls[0];
      TogetherIsFine(cfg, slack, latest, AllowStep(cfg, m, now, key, c.cold).0, calls[1..], key, now);
    }
  }

  /** The forgotten key calls back with a reading as late as it may be. */
  lemma CallBackShows(cfg: Config, slack: real, latest: real, m: Buckets, n: Buckets, key: string)
    requires cfg.Valid() && slack >= 0.0 && key !in m && key in n && |m| < cfg.maxKeys
    requires Level(cfg, n[key], latest - slack) < cfg.burst
    ensures Shows(cfg, slack, latest, m, n)
  {
    var calls := LossIsSeen(cfg, m, n, key, latest - slack);
    TogetherIsFine(cfg, slack, latest, m, calls, key, latest - slack);
  }

  function Name(i: nat): string { seq(i, _ => 'k') }

  /** i keys, all last used at 0. */
  ghost predicate Idle(m: Buckets, i: nat) {
    |m| == i && forall k :: k in m ==> |k| < i && m[k].last == 0.0
  }

  lemma NamesGrow(m: Buckets, i: nat, e: Entry)
    requires Idle(m, i)
    ensures Name(i) !in m && |m[Name(i) := e]| == i + 1
    ensures e.last == 0.0 ==> Idle(m[Name(i) := e], i + 1)
  {
    assert m[Name(i) := e].Keys == m.Keys + {Name(i)};
  }

  /** The time by which the late reading moves the spent bucket back. */
  function Back(cfg: Config, slack: real): real
    requires cfg.Valid()
  {
    Min(slack, cfg.burst / cfg.rate)
  }

  lemma BackIsEnough(cfg: Config, slack: real)
    requires cfg.Valid() && slack >= 0.0 && 2.0 * (cfg.rate * slack) > cfg.burst
    ensures var d, h := Back(cfg, slack), 2.0 * cfg.burst / cfg.rate;
      && 0.0 <= d <= slack && d < h
      && Level(cfg, Entry(-(cfg.rate * d), 0.0), h - slack) < cfg.burst
  {
    var d, q := Back(cfg, slack), cfg.burst / cfg.rate;
    assert cfg.rate * q == cfg.burst && q > 0.0;
    var h := 2.0 * cfg.burst / cfg.rate;
    assert h == 2.0 * q;
    assert cfg.rate * (h - slack) == 2.0 * cfg.burst - cfg.rate * slack;
    if d == slack {
    } else {
      RateMonotone(cfg, q, slack);
    }
  }

  /** One more key comes at the horizon, and everything idle is dropped. */
  lemma SweepShows(cfg: Config, slack: real, latest: real, m: Buckets, key: string)
    requires cfg.Valid() && slack >= 0.0 && 2.0 * (cfg.rate * slack) > cfg.burst && cfg.maxKeys >= 2
    requires Idle(m, cfg.maxKeys) && key in m && m[key].tokens == -(cfg.rate * Back(cfg, slack))
    requires latest == Back(cfg, slack)
    ensures Shows(cfg, slack, latest, m, m)
  {
    var h, next := 2.0 * cfg.burst / cfg.rate, Name(cfg.maxKeys);
    BackIsEnough(cfg, slack);
    NamesGrow(m, cfg.maxKeys, Fresh(cfg, h));
    assert Sweep(cfg, m, h) == map[];
    var m1, n1 := AllowStep(cfg, m, h, next, {}).0, AllowForever(cfg, m, h, next).0;
    assert m1.Keys == {next};
    CallBackShows(cfg, slack, h, m1, n1, key);
    ShowsBefore(cfg, slack, latest, m, m, Call(h, next, {}));
  }

  lemma OtherLast(m: Buckets, key: string, i: nat, e: Entry)
    requires key in m && |key| < i && |m| == i && e.last == 0.0
    requires forall k :: k in m && k != key ==> |k| < i && m[k].last == 0.0
    ensures Idle(m[key := e], i)
  {
    assert m[key := e].Keys == m.Keys;
  }

  /** A spent bucket that is refilled backwards owes, and refuses. */
  lemma RefilledBack(cfg: Config, d: real)
    requires cfg.Valid() && d >= 0.0
    ensures Refill(cfg, Entry(0.0, d), 0.0) == Entry(-(cfg.rate * d), 0.0)
    ensures Spend(cfg, Entry(-(cfg.rate * d), 0.0)).0 == Entry(-(cfg.rate * d), 0.0)
  {
    RateGains(cfg, d);
    assert Level(cfg, Entry(0.0, d), 0.0) == -(cfg.rate * d);
  }

  /** A full map, idle but for the key, which has so much left at that time. */
  ghost predicate Spending(cfg: Config, m: Buckets, key: string, left: nat, at: real) {
    && key in m && |m| == cfg.maxKeys && |key| < cfg.maxKeys
    && (forall k :: k in m && k != key ==> |k| < cfg.maxKeys && m[k].last == 0.0)
    && m[key] == Entry(left as real, at) && left as real <= cfg.burst
  }

  lemma LateReadingShows(cfg: Config, slack: real, m: Buckets, key: string)
    requires cfg.Valid() && slack >= 0.0 && 2.0 * (cfg.rate * slack) > cfg.burst && cfg.maxKeys >= 2
    requires Spending(cfg, m, key, 0, Back(cfg, slack))
    ensures Shows(cfg, slack, Back(cfg, slack), m, m)
  {
    var d := Back(cfg, slack);
    var e := Entry(-(cfg.rate * d), 0.0);
    BackIsEnough(cfg, slack);
    RefilledBack(cfg, d);
    OtherLast(m, key, cfg.maxKeys, e);
    SweepShows(cfg, slack, d, m[key := e], key);
    ShowsBefore(cfg, slack, d, m, m, Call(0.0, key, {}));
  }

  lemma SpendsOne(cfg: Config, m: Buckets, key: string, left: nat, at: real)
    requires cfg.Valid() && left >= 1 && Spending(cfg, m, key, left, at)
    ensures Spending(cfg, AllowForever(cfg, m, at, key).0, key, left - 1, at)
    ensures AllowStep(cfg, m, at, key, {}).0 == AllowForever(cfg, m, at, key).0
  {
    RefillTwice(cfg, m[key], at);
    assert AllowForever(cfg, m, at, key).0.Keys == m.Keys;
  }

  /** The key spends what it has, and calls once more with a reading from before. */
  lemma {:induction false} SpendingShows(cfg: Config, slack: real, m: Buckets, key: string, left: nat)
    requires cfg.Valid() && slack >= 0.0 && 2.0 * (cfg.rate * slack) > cfg.burst && cfg.maxKeys >= 2
    requires Spending(cfg, m, key, left, Back(cfg, slack))
    ensures Shows(cfg, slack, Back(cfg, slack), m, m)
    decreases left
  {
    if left == 0 {
      LateReadingShows(cfg, slack, m, key);
    } else {
      var d := Back(cfg, slack);
      SpendsOne(cfg, m, key, left, d);
      SpendingShows(cfg, slack, AllowForever(cfg, m, d, key).0, key, left - 1);
      ShowsBefore(cfg, slack, d, m, m, Call(d, key, {}));
    }
  }

  /** The map fills up with idle keys until there is room for one. */
  lemma {:induction false} FillingShows(cfg: Config, slack: real, m: Buckets, i: nat)
    requires cfg.Valid() && slack >= 0.0 && 2.0 * (cfg.rate * slack) > cfg.burst && cfg.maxKeys >= 2
    requires cfg.burst == cfg.burst.Floor as real && i < cfg.maxKeys && Idle(m, i)
    ensures Shows(cfg, slack, 0.0, m, m)
    decreases cfg.maxKeys - i
  {
    BackIsEnough(cfg, slack);
    if i < cfg.maxKeys - 1 {
      var e := Spend(cfg, Fresh(cfg, 0.0)).0;
      NamesGrow(m, i, e);
      FillingShows(cfg, slack, m[Name(i) := e], i + 1);
      ShowsBefore(cfg, slack, 0.0, m, m, Call(0.0, Name(i), {}));
    } else {
      var d := Back(cfg, slack);
      var e := Spend(cfg, Fresh(cfg, d)).0;
      NamesGrow(m, i, e);
      SpendingShows(cfg, slack, m[Name(i) := e], Name(i), cfg.burst.Floor - 1);
      ShowsBefore(cfg, slack, 0.0, m, m, Call(d, Name(i), {}));
    }
  }

  /** A run from the start, late by at most slack and without a batch, shows nothing. */
  ghost predicate Invisible(cfg: Config, slack: real, t0: real, calls: seq<Call>)
    requires cfg.Valid()
  {
    Clocked(slack, t0, calls) && Quiet(cfg, map[], calls) ==>
      Run(cfg, map[], calls).1 == RunForever(cfg, map[], calls).1
  }

  /** Half a refill is exactly how late readings may be: for every limiter with a whole
      burst, as the constructor makes them, and room for two keys, horizon eviction is
      invisible in every run without a batch if and only if no reading is later. */
  lemma InvisibleExactlyWithinHalfARefill(cfg: Config, slack: real)
    requires cfg.Valid() && cfg.burst == cfg.burst.Floor as real && cfg.maxKeys >= 2 && slack >= 0.0
    ensures (forall t0, calls :: Invisible(cfg, slack, t0, calls)) <==> 2.0 * (cfg.rate * slack) <= cfg.burst
  {
    if 2.0 * (cfg.rate * slack) <= cfg.burst {
      forall t0, calls ensures Invisible(cfg, slack, t0, calls) {
        if Clocked(slack, t0, calls) && Quiet(cfg, map[], calls) {
          HorizonEvictionIsInvisible(cfg, slack, t0, calls);
        }
      }
    } else {
      FillingShows(cfg, slack, map[], 0);
      var calls :| Clocked(slack, 0.0, calls) && Quiet(cfg, map[], calls) &&
        Run(cfg, map[], calls).1 != RunForever(cfg, map[], calls).1;
      assert !Invisible(cfg, slack, 0.0, calls);
    }
  }

  // ------------------------------------------------- a concrete batch

  /** With room for one key, alternating two keys at one instant makes the batch drop
      a spent bucket, and the limiter admits what the reference refuses. */
  lemma ABatchCanBeVisible(cfg: Config, now: real, a: string, b: string)
    requires cfg.Valid() && cfg.burst == 1.0 && cfg.maxKeys == 1 && a != b
    ensures var m1 := AllowStep(cfg, map[], now, a, {}).0;
      var m2 := AllowStep(cfg, m1, now, b, {a}).0;
      && BatchFires(cfg, m1, now, b) && Coldest(Sweep(cfg, m1, now), {a})
      && AllowStep(cfg, m2, now, a, {b}).1.ok
      && !AllowForever(cfg, AllowForever(cfg, AllowForever(cfg, map[], now, a).0, now, b).0, now, a).1.ok
  {
    var m1 := AllowStep(cfg, map[], now, a, {}).0;
    assert m1 == map[a := Entry(0.0, now)];
    assert 2.0 * cfg.burst / cfg.rate > 0.0;
    assert Sweep(cfg, m1, now) == m1;
    assert |m1| == 1;
    var m2 := AllowStep(cfg, m1, now, b, {a}).0;
    assert m1 - {a} == map[];
    assert m2 == map[b := Entry(0.0, now)];
  }
}
