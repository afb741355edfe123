/** How exact the circuit breaker's half-open guarantees are: how many attempts a period
    admits, and how long an operation may take. */
module BreakerBounds {
  import opened Common
  import opened CircuitBreaker

  // ---------------------------------------------------------------- building runs

  lemma {:induction false} RunSnoc(cfg: Config, s: Sys, steps: seq<Step>, step: Step, bound: int)
    requires CoreValid(cfg, s.core)
    ensures Run(cfg, s, steps + [step]) == Do(cfg, Run(cfg, s, steps), step)
    ensures YoungRun(cfg, s, steps + [step], bound) <==>
            YoungRun(cfg, s, steps, bound) && Younger(Do(cfg, Run(cfg, s, steps), step), bound)
    decreases |steps|
  {
    var all := steps + [step];
    if steps == [] {
      assert all[1..] == [];
    } else {
      assert all[1..] == steps[1..] + [step];
      RunSnoc(cfg, Do(cfg, s, steps[0]), steps[1..], step, bound);
    }
  }

  /** s is where these steps lead, and no attempt on the way grew as old as bound. */
  ghost predicate Leads(cfg: Config, steps: seq<Step>, s: Sys, bound: int)
    requires cfg.Valid()
  {
    s == Run(cfg, Start(cfg, 0), steps) && YoungRun(cfg, Start(cfg, 0), steps, bound)
  }

  lemma OneMore(cfg: Config, steps: seq<Step>, s: Sys, step: Step, bound: int) returns (more: seq<Step>, t: Sys)
    requires cfg.Valid() && CoreValid(cfg, s.core) && Leads(cfg, steps, s, bound) && Younger(Do(cfg, s, step), bound)
    ensures t == Do(cfg, s, step) && Leads(cfg, more, t, bound)
  {
    RunSnoc(cfg, Start(cfg, 0), steps, step, bound);
    more, t := steps + [step], Do(cfg, s, step);
  }

  // ---------------------------------------------------------------- failing until it trips

  function Failures(k: nat): Log { if k == 0 then Empty else Then(Failures(k - 1), Event(0, false)) }

  lemma {:induction false} FailuresSince(k: nat, from: int)
    requires from <= 0
    ensures Since(Failures(k), from) == Bucket(0, k)
  {
    if k == 0 {
    } else {
      FailuresSince(k - 1, from);
    }
  }

  /** All failures trip as soon as there are MinRequests of them, if any ratio can. */
  lemma AllFailuresTrip(cfg: Config, k: nat)
    requires cfg.Valid() && cfg.failureRatio <= 1.0
    ensures Trips(cfg, Bucket(0, k)) <==> k >= cfg.minRequests
  {
    if k >= cfg.minRequests {
      assert k as real / k as real == 1.0;
    }
  }

  /** Closed at time 0, with k failures recorded and the given attempts in flight. */
  ghost predicate Failing(cfg: Config, s: Sys, k: nat, flights: map<nat, int>)
    requires cfg.Valid()
  {
    && CoreValid(cfg, s.core)
    && s.core.state == Closed && s.ref.state == Closed && s.now == 0 && s.ref.log == Failures(k)
    && (s.core.ring.current.Some? ==> s.core.ring.current.value == 0)
    && s.flights == flights && forall id :: id in flights ==> id < s.nextId
  }

  lemma AnchorAtZero(cfg: Config, current: Option<int>)
    requires cfg.Valid() && (current.Some? ==> current.value == 0)
    ensures MoveAnchor(cfg, current, 0) == 0
  {
    assert Quotient(0, cfg.span) == 0;
  }

  lemma FailureIsPut(cfg: Config, r: Ring, k: nat)
    requires cfg.Valid() && Shows(cfg, r, Failures(k)) && (r.current.Some? ==> r.current.value == 0)
    ensures Put(cfg, r, 0, false).current == Some(0) && Totals(Put(cfg, r, 0, false).cells) == Bucket(0, k + 1)
  {
    AnchorAtZero(cfg, r.current);
    PutIsExact(cfg, r, Failures(k), 0, false);
    SpansNonNegative(cfg.size - 1, cfg.span);
    FailuresSince(k + 1, Horizon(cfg, 0));
    assert Failures(k + 1) == Then(Failures(k), Event(0, false));
  }

  lemma ClosedRecords(cfg: Config, c: Core, total: Bucket, trips: bool)
    requires CoreValid(cfg, c) && c.state == Closed && Totals(Put(cfg, c.ring, 0, false).cells) == total
    requires Trips(cfg, total) <==> trips
    ensures var c' := RecordStep(cfg, c, 0, false);
      && c'.ring == Put(cfg, c.ring, 0, false)
      && c'.state == (if trips then Open else Closed) && (trips ==> c'.openedAt == 0)
  {
  }

  lemma OneMoreFailure(cfg: Config, c: Core, k: nat)
    requires CoreValid(cfg, c) && cfg.failureRatio <= 1.0 && c.state == Closed
    requires Shows(cfg, c.ring, Failures(k)) && (c.ring.current.Some? ==> c.ring.current.value == 0)
    ensures var c' := RecordStep(cfg, c, 0, false);
      && c'.ring.current == Some(0)
      && c'.state == (if k + 1 >= cfg.minRequests then Open else Closed)
      && (c'.state == Open ==> c'.openedAt == 0)
  {
    FailureIsPut(cfg, c.ring, k);
    AllFailuresTrip(cfg, k + 1);
    ClosedRecords(cfg, c, Bucket(0, k + 1), k + 1 >= cfg.minRequests);
  }

  lemma AllowedWhileClosed(cfg: Config, s: Sys)
    requires CoreValid(cfg, s.core) && s.core.state == Closed && s.ref.state == Closed
    ensures var t := Do(cfg, s, TryAllow);
      && t.core == s.core && t.ref == s.ref && t.now == s.now
      && t.flights == s.flights[s.nextId := s.now] && t.nextId == s.nextId + 1
  {
  }

  lemma FinishRecords(cfg: Config, u: Sys, id: nat, ok: bool)
    requires CoreValid(cfg, u.core) && id in u.flights
    ensures var t := Do(cfg, u, Finish(id, ok));
      && t.core == RecordStep(cfg, u.core, u.now, ok) && t.ref == RecordLog(cfg, u.ref, u.now, ok)
      && t.flights == u.flights - {id} && t.now == u.now && t.nextId == u.nextId
  {
  }

  lemma AddAndRemove(flights: map<nat, int>, id: nat, at: int)
    requires id !in flights
    ensures flights[id := at] - {id} == flights
  {
  }

  /** One attempt allowed and failed: the failure is recorded, nothing else stays. */
  lemma AttemptFails(cfg: Config, s: Sys, k: nat, flights: map<nat, int>)
    requires cfg.Valid() && cfg.failureRatio <= 1.0 && Failing(cfg, s, k, flights)
    ensures var t := Do(cfg, Do(cfg, s, TryAllow), Finish(s.nextId, false));
      && t.flights == flights && t.now == 0 && t.nextId == s.nextId + 1
      && t.core == RecordStep(cfg, s.core, 0, false) && t.ref == RecordLog(cfg, s.ref, 0, false)
  {
    AllowedWhileClosed(cfg, s);
    var u := Do(cfg, s, TryAllow);
    FinishRecords(cfg, u, s.nextId, false);
    AddAndRemove(flights, s.nextId, 0);
  }

  lemma FailureStaysClosed(cfg: Config, s: Sys, k: nat, flights: map<nat, int>)
    requires cfg.Valid() && cfg.failureRatio <= 1.0 && Failing(cfg, s, k, flights)
    requires RecordStep(cfg, s.core, 0, false).state == Closed
    requires RecordStep(cfg, s.core, 0, false).ring.current == Some(0)
    ensures var t := Do(cfg, Do(cfg, s, TryAllow), Finish(s.nextId, false));
      t.ref.state == t.core.state ==> Failing(cfg, t, k + 1, flights)
  {
    AttemptFails(cfg, s, k, flights);
    LogGrows(cfg, s.ref);
  }

  /** While closed an outcome is logged, whether it trips or not. */
  lemma LogGrows(cfg: Config, l: LogCore)
    requires cfg.Valid() && l.state == Closed
    ensures RecordLog(cfg, l, 0, false).log == Then(l.log, Event(0, false))
  {
  }

  /** Attempts that began at time 0 have not grown old there. */
  ghost predicate AllAtZero(flights: map<nat, int>) { forall id :: id in flights ==> flights[id] == 0 }

  lemma AllowStaysYoung(cfg: Config, s: Sys, bound: int)
    requires CoreValid(cfg, s.core) && Younger(s, bound) && bound >= 1
    ensures Younger(Do(cfg, s, TryAllow), bound)
  {
  }

  lemma FinishStaysYoung(cfg: Config, s: Sys, id: nat, ok: bool, bound: int)
    requires CoreValid(cfg, s.core) && Younger(s, bound)
    ensures Younger(Do(cfg, s, Finish(id, ok)), bound)
  {
  }

  lemma TryOnce(cfg: Config, before: seq<Step>, v: Sys, ok: bool, bound: int)
    returns (steps: seq<Step>, s: Sys)
    requires cfg.Valid() && CoreValid(cfg, v.core) && Leads(cfg, before, v, bound) && Younger(v, bound) && bound >= 1
    ensures Leads(cfg, steps, s, bound) && s == Do(cfg, Do(cfg, v, TryAllow), Finish(v.nextId, ok))
  {
    AllowStaysYoung(cfg, v, bound);
    var half, u := OneMore(cfg, before, v, TryAllow, bound);
    FinishStaysYoung(cfg, u, v.nextId, ok, bound);
    steps, s := OneMore(cfg, half, u, Finish(v.nextId, ok), bound);
  }

  lemma {:induction false} FailTo(cfg: Config, before: seq<Step>, v: Sys, k: nat, flights: map<nat, int>, bound: int)
    returns (steps: seq<Step>, s: Sys)
    requires cfg.Valid() && cfg.failureRatio <= 1.0 && k < cfg.minRequests && bound >= 1 && AllAtZero(flights)
    requires CoreValid(cfg, v.core) && Leads(cfg, before, v, bound) && Failing(cfg, v, 0, flights)
    ensures Leads(cfg, steps, s, bound) && Failing(cfg, s, k, flights)
  {
    if k == 0 {
      steps, s := before, v;
    } else {
      var most, u := FailTo(cfg, before, v, k - 1, flights, bound);
      RunRefines(cfg, Start(cfg, 0), most);
      OneMoreFailure(cfg, u.core, k - 1);
      FailureStaysClosed(cfg, u, k - 1, flights);
      steps, s := TryOnce(cfg, most, u, false, bound);
      RunRefines(cfg, Start(cfg, 0), steps);
    }
  }

  /** Tripped at time 0, with the given attempts still in flight. */
  ghost predicate Tripped(cfg: Config, s: Sys, flights: map<nat, int>) {
    && CoreValid(cfg, s.core) && s.core.state == Open && s.core.openedAt == 0 && s.now == 0
    && s.flights == flights && forall id :: id in flights ==> id < s.nextId
  }

  lemma LastFailureTrips(cfg: Config, s: Sys, k: nat, flights: map<nat, int>)
    requires cfg.Valid() && cfg.failureRatio <= 1.0 && Failing(cfg, s, k, flights)
    requires RecordStep(cfg, s.core, 0, false).state == Open
    requires RecordStep(cfg, s.core, 0, false).openedAt == 0
    ensures Tripped(cfg, Do(cfg, Do(cfg, s, TryAllow), Finish(s.nextId, false)), flights)
  {
    AttemptFails(cfg, s, k, flights);
  }

  lemma Trip(cfg: Config, before: seq<Step>, v: Sys, flights: map<nat, int>, bound: int)
    returns (steps: seq<Step>, s: Sys)
    requires cfg.Valid() && cfg.failureRatio <= 1.0 && bound >= 1 && AllAtZero(flights)
    requires CoreValid(cfg, v.core) && Leads(cfg, before, v, bound) && Failing(cfg, v, 0, flights)
    ensures Leads(cfg, steps, s, bound) && Tripped(cfg, s, flights)
  {
    var most, u := FailTo(cfg, before, v, cfg.minRequests - 1, flights, bound);
    RunRefines(cfg, Start(cfg, 0), most);
    OneMoreFailure(cfg, u.core, cfg.minRequests - 1);
    LastFailureTrips(cfg, u, cfg.minRequests - 1, flights);
    steps, s := TryOnce(cfg, most, u, false, bound);
  }

  /** A half-open period has just begun, at OpenFor. */
  ghost predicate Probing(cfg: Config, s: Sys, probes: nat, successes: nat, flights: map<nat, int>) {
    && CoreValid(cfg, s.core) && s.core.state == HalfOpen && s.core.probes == probes && s.core.probeSuccess == successes
    && s.admitted == probes + successes && s.now == cfg.openFor
    && s.flights == flights && forall id :: id in flights ==> id < s.nextId
  }

  /** Waiting out OpenFor and trying once begins a half-open period. */
  lemma Begins(cfg: Config, before: seq<Step>, v: Sys, flights: map<nat, int>, bound: int)
    returns (steps: seq<Step>, s: Sys)
    requires cfg.Valid() && bound >= 1 && AllAtZero(flights) && (flights == map[] || cfg.openFor < bound)
    requires CoreValid(cfg, v.core) && Leads(cfg, before, v, bound) && Tripped(cfg, v, flights)
    ensures Leads(cfg, steps, s, bound) && v.nextId !in flights
    ensures Probing(cfg, s, 1, 0, flights[v.nextId := cfg.openFor])
  {
    steps, s := OneMore(cfg, before, v, Tick(cfg.openFor), bound);
    steps, s := OneMore(cfg, steps, s, TryAllow, bound);
  }

  lemma NothingFailing(cfg: Config)
    requires cfg.Valid()
    ensures Failing(cfg, Start(cfg, 0), 0, map[]) && forall bound: int :: Leads(cfg, [], Start(cfg, 0), bound)
  {
  }

  // ---------------------------------------------------------------- how many a period admits

  ghost predicate AllNow(s: Sys) { forall id :: id in s.flights ==> s.flights[id] == s.now }

  lemma ProbeAdmitted(cfg: Config, s: Sys, p: nat, q: nat)
    requires Probing(cfg, s, p, q, s.flights) && p < cfg.probes && AllNow(s) && |s.flights| == p
    ensures var t := Do(cfg, s, TryAllow); Probing(cfg, t, p + 1, q, t.flights) && AllNow(t) && |t.flights| == p + 1
  {
    assert s.nextId !in s.flights;
    assert s.flights[s.nextId := s.now].Keys == s.flights.Keys + {s.nextId};
  }

  lemma ProbeSucceeds(cfg: Config, s: Sys, p: nat, q: nat, id: nat)
    requires Probing(cfg, s, p, q, s.flights) && AllNow(s) && |s.flights| == p && id in s.flights && q + 1 < cfg.probes
    ensures p > 0
    ensures var t := Do(cfg, s, Finish(id, true));
      Probing(cfg, t, p - 1, q + 1, t.flights) && AllNow(t) && |t.flights| == p - 1
  {
    assert id in s.flights.Keys;
    assert (s.flights - {id}).Keys == s.flights.Keys - {id};
  }

  /** Probes are admitted up to HalfOpenProbes. */
  lemma {:induction false} AdmitAll(cfg: Config, before: seq<Step>, v: Sys, p: nat, q: nat)
    returns (steps: seq<Step>, s: Sys)
    requires cfg.Valid() && CoreValid(cfg, v.core) && Leads(cfg, before, v, cfg.openFor)
    requires Probing(cfg, v, p, q, v.flights) && AllNow(v) && |v.flights| == p <= cfg.probes
    ensures Leads(cfg, steps, s, cfg.openFor)
    ensures Probing(cfg, s, cfg.probes, q, s.flights) && AllNow(s) && |s.flights| == cfg.probes
    decreases cfg.probes - p
  {
    steps, s := before, v;
    if p >= cfg.probes {
    } else {
      ProbeAdmitted(cfg, s, p, q);
      steps, s := OneMore(cfg, steps, s, TryAllow, cfg.openFor);
      steps, s := AdmitAll(cfg, steps, s, p + 1, q);
    }
  }

  /** All but one of the probes in flight succeed. */
  lemma {:induction false} SucceedAllButOne(cfg: Config, before: seq<Step>, v: Sys, p: nat, q: nat)
    returns (steps: seq<Step>, s: Sys)
    requires cfg.Valid() && CoreValid(cfg, v.core) && Leads(cfg, before, v, cfg.openFor)
    requires Probing(cfg, v, p, q, v.flights) && AllNow(v) && |v.flights| == p && p >= 1 && p + q == cfg.probes
    ensures Leads(cfg, steps, s, cfg.openFor)
    ensures Probing(cfg, s, 1, cfg.probes - 1, s.flights) && AllNow(s) && |s.flights| == 1
    decreases p
  {
    steps, s := before, v;
    if p <= 1 {
    } else {
      HasMember(s.flights.Keys);
      var id :| id in s.flights.Keys;
      ProbeSucceeds(cfg, s, p, q, id);
      steps, s := OneMore(cfg, steps, s, Finish(id, true), cfg.openFor);
      steps, s := SucceedAllButOne(cfg, steps, s, p - 1, q + 1);
    }
  }

  /** The bound on admissions is tight for every configuration that can trip at all: a
      timely run in which one half-open period admits 2*HalfOpenProbes - 1 attempts. */
  lemma HalfOpenAdmitsMoreThanItsProbes(cfg: Config) returns (steps: seq<Step>, s: Sys)
    requires cfg.Valid() && cfg.failureRatio <= 1.0
    ensures s == Run(cfg, Start(cfg, 0), steps) && TimelyRun(cfg, Start(cfg, 0), steps)
    ensures s.core.state == HalfOpen && s.admitted == 2 * cfg.probes - 1
  {
    NothingFailing(cfg);
    steps, s := Trip(cfg, [], Start(cfg, 0), map[], cfg.openFor);
    steps, s := Begins(cfg, steps, s, map[], cfg.openFor);
    assert |s.flights| == 1;
    steps, s := AdmitAll(cfg, steps, s, 1, 0);
    steps, s := SucceedAllButOne(cfg, steps, s, cfg.probes, 0);
    steps, s := AdmitAll(cfg, steps, s, 1, cfg.probes - 1);
  }

  // ---------------------------------------------------------------- a ratio nothing reaches

  lemma {:induction false} SinceCounts(log: Log, from: int)
    ensures Since(log, from).success >= 0 && Since(log, from).failure >= 0
  {
    if log.Empty? {
    } else {
      SinceCounts(log.earlier, from);
    }
  }

  lemma RatioAtMostOne(cfg: Config, t: Bucket)
    requires cfg.Valid() && cfg.failureRatio > 1.0 && t.success >= 0 && t.failure >= 0
    ensures !Trips(cfg, t)
  {
    if t.success + t.failure >= cfg.minRequests {
      var n := (t.success + t.failure) as real;
      assert t.failure as real <= n;
      assert t.failure as real / n <= 1.0;
    }
  }

  lemma RecordStaysClosed(cfg: Config, s: Sys, ok: bool)
    requires CoreValid(cfg, s.core) && Refines(cfg, s) && s.core.state == Closed && cfg.failureRatio > 1.0
    ensures RecordStep(cfg, s.core, s.now, ok).state == Closed
  {
    var anchor := ClosedTrips(cfg, s, ok);
    var log := Then(s.ref.log, Event(s.now, ok));
    SinceCounts(log, Horizon(cfg, anchor));
    RatioAtMostOne(cfg, Since(log, Horizon(cfg, anchor)));
  }

  lemma DoStaysClosed(cfg: Config, s: Sys, step: Step)
    requires CoreValid(cfg, s.core) && Refines(cfg, s) && s.core.state == Closed && cfg.failureRatio > 1.0
    ensures Do(cfg, s, step).core.state == Closed
  {
    match step
    case Tick(_) =>
    case TryAllow => AllowedWhileClosed(cfg, s);
    case Finish(_, ok) => RecordStaysClosed(cfg, s, ok);
  }

  lemma {:induction false} NeverOpens(cfg: Config, t0: int, steps: seq<Step>)
    requires cfg.Valid() && cfg.failureRatio > 1.0
    ensures Run(cfg, Start(cfg, t0), steps).core.state == Closed
    decreases |steps|
  {
    if steps == [] {
    } else {
      var before, last := steps[..|steps| - 1], steps[|steps| - 1];
      NeverOpens(cfg, t0, before);
      RunRefines(cfg, Start(cfg, t0), before);
      DoStaysClosed(cfg, Run(cfg, Start(cfg, t0), before), last);
      assert before + [last] == steps;
      RunSnoc(cfg, Start(cfg, t0), before, last, 0);
    }
  }

  /** No timely run lets a half-open period admit more than HalfOpenProbes attempts,
      which is what the documentation says, exactly when HalfOpenProbes is 1 (or when
      the ratio is above 1, so that the circuit never opens). */
  ghost predicate AdmitsAtMostItsProbes(cfg: Config)
    requires cfg.Valid()
  {
    forall t0, steps ::
      TimelyRun(cfg, Start(cfg, t0), steps) && Run(cfg, Start(cfg, t0), steps).core.state == HalfOpen ==>
        Run(cfg, Start(cfg, t0), steps).admitted <= cfg.probes
  }

  lemma AdmitsItsProbesExactlyWhenOne(cfg: Config)
    requires cfg.Valid()
    ensures AdmitsAtMostItsProbes(cfg) <==> cfg.probes == 1 || cfg.failureRatio > 1.0
  {
    if cfg.probes == 1 || cfg.failureRatio > 1.0 {
      forall t0, steps | TimelyRun(cfg, Start(cfg, t0), steps) && Run(cfg, Start(cfg, t0), steps).core.state == HalfOpen
        ensures Run(cfg, Start(cfg, t0), steps).admitted <= cfg.probes
      {
        if cfg.probes == 1 {
          ProbesAreTheFlights(cfg, t0, steps);
        } else {
          NeverOpens(cfg, t0, steps);
        }
      }
    } else {
      var steps, s := HalfOpenAdmitsMoreThanItsProbes(cfg);
      assert s.admitted > cfg.probes;
    }
  }

  // ---------------------------------------------------------------- how long an operation may take

  /** OpenFor is too long: an attempt in flight since before the trip is not counted. */
  lemma ExactlyOpenForIsTooLate(cfg: Config) returns (steps: seq<Step>, s: Sys)
    requires cfg.Valid() && cfg.failureRatio <= 1.0
    ensures s == Run(cfg, Start(cfg, 0), steps) && YoungRun(cfg, Start(cfg, 0), steps, cfg.openFor + 1)
    ensures s.core.state == HalfOpen && s.core.probes == 1 && |s.flights| == 2
  {
    NothingFailing(cfg);
    AllowedWhileClosed(cfg, Start(cfg, 0));
    steps, s := OneMore(cfg, [], Start(cfg, 0), TryAllow, cfg.openFor + 1);
    var flights: map<nat, int> := map[0 := 0];
    assert s.flights == flights;
    steps, s := Trip(cfg, steps, s, flights, cfg.openFor + 1);
    var id := s.nextId;
    steps, s := Begins(cfg, steps, s, flights, cfg.openFor + 1);
    assert s.flights.Keys == {0, id};
  }

  lemma {:induction false} YoungerIsYoung(cfg: Config, s: Sys, steps: seq<Step>, a: int, b: int)
    requires CoreValid(cfg, s.core) && a <= b && YoungRun(cfg, s, steps, a)
    ensures YoungRun(cfg, s, steps, b)
    decreases |steps|
  {
    if steps == [] {
    } else {
      YoungerIsYoung(cfg, Do(cfg, s, steps[0]), steps[1..], a, b);
    }
  }

  /** In runs whose operations take less than bound, half-open's counter is the number of
      attempts in flight. */
  ghost predicate CountsItsFlights(cfg: Config, bound: int)
    requires cfg.Valid()
  {
    forall t0, steps ::
      YoungRun(cfg, Start(cfg, t0), steps, bound) && Run(cfg, Start(cfg, t0), steps).core.state == HalfOpen ==>
        Run(cfg, Start(cfg, t0), steps).core.probes == |Run(cfg, Start(cfg, t0), steps).flights|
  }

  /** The advice to keep operations below OpenFor is exact: a bound on their duration makes
      the counter right in every run if and only if it is at most OpenFor (or the circuit
      can never open). */
  lemma OpenForIsExact(cfg: Config, bound: int)
    requires cfg.Valid()
    ensures CountsItsFlights(cfg, bound) <==> bound <= cfg.openFor || cfg.failureRatio > 1.0
  {
    if bound <= cfg.openFor || cfg.failureRatio > 1.0 {
      forall t0, steps |
        YoungRun(cfg, Start(cfg, t0), steps, bound) && Run(cfg, Start(cfg, t0), steps).core.state == HalfOpen
        ensures Run(cfg, Start(cfg, t0), steps).core.probes == |Run(cfg, Start(cfg, t0), steps).flights|
      {
        if bound <= cfg.openFor {
          YoungerIsYoung(cfg, Start(cfg, t0), steps, bound, cfg.openFor);
          ProbesAreTheFlights(cfg, t0, steps);
        } else {
          NeverOpens(cfg, t0, steps);
        }
      }
    } else {
      var steps, s := ExactlyOpenForIsTooLate(cfg);
      YoungerIsYoung(cfg, Start(cfg, 0), steps, cfg.openFor + 1, bound);
    }
  }
}
