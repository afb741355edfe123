/** The three-state circuit breaker of x/circuitbreaker.

    The breaker is a class over a ring of counters (`Breaker`); its methods are
    proved against step functions on the value `Core`.  Two references sit beside
    it: an event log with no ring at all (`LogCore`), and a system of callers with
    attempts in flight (`Sys`). */
module CircuitBreaker {
  import opened Common

  datatype State = Closed | Open | HalfOpen

  datatype Bucket = Bucket(success: int, failure: int)

  // ---------------------------------------------------------------- configuration

  const DEFAULT_FAILURE_RATIO := 0.5
  const DEFAULT_MIN_REQUESTS := 10
  const SECOND := 1_000_000_000
  const DEFAULT_WINDOW := 10 * SECOND
  const DEFAULT_WINDOW_BUCKETS := 10
  const DEFAULT_OPEN_FOR := 30 * SECOND
  const DEFAULT_HALF_OPEN_PROBES := 1

  /** Config as the caller writes it; durations are nanoseconds. */
  datatype Options = Options(
    failureRatio: real, minRequests: int, window: int,
    windowBuckets: int, openFor: int, halfOpenProbes: int)

  /** Config after New has filled the defaults in. */
  datatype Config = Config(
    failureRatio: real, minRequests: int, span: int, size: int, openFor: int, probes: int)
  {
    predicate Valid() {
      failureRatio > 0.0 && minRequests >= 1 && span >= 1 && size >= 1 && openFor >= 1 && probes >= 1
    }
  }

  function Given(value: int, otherwise: int): int { if value <= 0 then otherwise else value }

  /** The buckets cover the window up to less than one unit each; more buckets than units
      get one unit each, and cover more. */
  function Normalize(o: Options): (c: Config)
    ensures c.Valid() && c.size == if o.windowBuckets <= 0 then DEFAULT_WINDOW_BUCKETS else o.windowBuckets
    ensures var window := if o.window <= 0 then DEFAULT_WINDOW else o.window;
      if c.size <= window then c.span * c.size <= window < (c.span + 1) * c.size else c.span == 1
    ensures c.failureRatio == if o.failureRatio <= 0.0 then DEFAULT_FAILURE_RATIO else o.failureRatio
    ensures c.minRequests == if o.minRequests <= 0 then DEFAULT_MIN_REQUESTS else o.minRequests
    ensures c.openFor == if o.openFor <= 0 then DEFAULT_OPEN_FOR else o.openFor
    ensures c.probes == if o.halfOpenProbes <= 0 then DEFAULT_HALF_OPEN_PROBES else o.halfOpenProbes
  {
    var window := Given(o.window, DEFAULT_WINDOW);
    var size := Given(o.windowBuckets, DEFAULT_WINDOW_BUCKETS);
    var span := window / size;
    DivBounds(window, size);
    Config(
      if o.failureRatio <= 0.0 then DEFAULT_FAILURE_RATIO else o.failureRatio,
      Given(o.minRequests, DEFAULT_MIN_REQUESTS),
      if span <= 0 then 1 else span,
      size,
      Given(o.openFor, DEFAULT_OPEN_FOR),
      Given(o.halfOpenProbes, DEFAULT_HALF_OPEN_PROBES))
  }

  lemma DivBounds(a: int, b: int)
    requires b > 0
    ensures (a / b) * b <= a < (a / b + 1) * b
    ensures b <= a ==> a / b >= 1
    ensures 0 <= a < b ==> a / b == 0
  {
    assert a == (a / b) * b + a % b;
  }

  // ---------------------------------------------------------------- the ring

  /** current is None while the Go field is the zero time. */
  datatype Ring = Ring(cells: seq<Bucket>, idx: nat, current: Option<int>)

  predicate RingValid(cfg: Config, r: Ring) {
    |r.cells| == cfg.size && r.idx < cfg.size
  }

  /** Go's integer division, toward zero, by repeated subtraction. */
  function Quotient(a: int, b: int): int
    requires b > 0
    decreases a < 0, if a < 0 then -a else a
  {
    if a < 0 then -Quotient(-a, b)
    else if a < b then 0
    else 1 + Quotient(a - b, b)
  }

  lemma {:induction false} QuotientIsDivision(a: int, b: int)
    requires b > 0 && a >= 0
    ensures Quotient(a, b) == a / b
    decreases a
  {
    if a >= b {
      QuotientIsDivision(a - b, b);
      DivBounds(a, b);
      DivBounds(a - b, b);
      DivUnique(a, b, a / b, (a - b) / b + 1);
    } else {
      DivBounds(a, b);
      DivUnique(a, b, a / b, 0);
    }
  }

  lemma DivUnique(a: int, b: int, p: int, q: int)
    requires b > 0 && p * b <= a < (p + 1) * b && q * b <= a < (q + 1) * b
    ensures p == q
  {
    if p < q {
      MulMonotone(p + 1, q, b);
    } else if q < p {
      MulMonotone(q + 1, p, b);
    }
  }

  lemma MulMonotone(a: int, b: int, c: int)
    requires a <= b && c >= 0
    ensures a * c <= b * c
  {
    assert b * c - a * c == (b - a) * c;
  }

  /** The length of k bucket spans. */
  function Spans(k: nat, span: int): int {
    if k == 0 then 0 else Spans(k - 1, span) + span
  }

  lemma {:induction false} SpansIsProduct(k: nat, span: int)
    ensures Spans(k, span) == k * span
  {
    if k == 0 {
    } else {
      SpansIsProduct(k - 1, span);
      assert (k - 1) * span + span == k * span;
    }
  }

  function Zeros(n: nat): (z: seq<Bucket>)
    ensures |z| == n && forall i :: 0 <= i < n ==> z[i] == Bucket(0, 0)
  {
    seq(n, _ => Bucket(0, 0))
  }

  function RotateOnce(cfg: Config, r: Ring): (r': Ring)
    requires cfg.Valid() && RingValid(cfg, r) && r.current.Some?
    ensures RingValid(cfg, r') && r'.current.Some?
    ensures r'.idx == if r.idx + 1 == cfg.size then 0 else r.idx + 1
  {
    var i := (r.idx + 1) % cfg.size;
    Ring(r.cells[i := Bucket(0, 0)], i, Some(r.current.value + cfg.span))
  }

  function Rotate(cfg: Config, r: Ring, steps: nat): (r': Ring)
    requires cfg.Valid() && RingValid(cfg, r) && r.current.Some?
    ensures RingValid(cfg, r') && r'.current.Some?
  {
    if steps == 0 then r else RotateOnce(cfg, Rotate(cfg, r, steps - 1))
  }

  function Advance(cfg: Config, r: Ring, now: int): (r': Ring)
    requires cfg.Valid() && RingValid(cfg, r)
    ensures RingValid(cfg, r') && r'.current.Some?
  {
    if r.current.None? then r.(current := Some(now)) else
    var steps := Quotient(now - r.current.value, cfg.span);
    if steps <= 0 then r
    else if steps >= cfg.size then Ring(Zeros(cfg.size), 0, Some(now))
    else Rotate(cfg, r, steps)
  }

  function Plus(a: Bucket, b: Bucket): Bucket {
    Bucket(a.success + b.success, a.failure + b.failure)
  }

  /** The sum of the first n cells. */
  function SumTo(cells: seq<Bucket>, n: nat): Bucket
    requires n <= |cells|
  {
    if n == 0 then Bucket(0, 0) else Plus(SumTo(cells, n - 1), cells[n - 1])
  }

  function Totals(cells: seq<Bucket>): Bucket {
    SumTo(cells, |cells|)
  }

  function One(ok: bool): Bucket { if ok then Bucket(1, 0) else Bucket(0, 1) }

  function Bump(r: Ring, ok: bool): Ring
    requires r.idx < |r.cells|
  {
    r.(cells := r.cells[r.idx := Plus(r.cells[r.idx], One(ok))])
  }

  /** An outcome counted in the bucket covering now. */
  function Put(cfg: Config, r: Ring, now: int, ok: bool): (r': Ring)
    requires cfg.Valid() && RingValid(cfg, r)
    ensures RingValid(cfg, r') && r'.current.Some?
  {
    Bump(Advance(cfg, r, now), ok)
  }

  /** The trip decision on a window's totals. */
  predicate Trips(cfg: Config, t: Bucket)
    requires cfg.Valid()
  {
    t.success + t.failure >= cfg.minRequests &&
    t.failure as real / (t.success + t.failure) as real >= cfg.failureRatio
  }

  // ---------------------------------------------------------------- step functions

  datatype Core = Core(state: State, ring: Ring, openedAt: int, probes: nat, probeSuccess: nat)

  predicate CoreValid(cfg: Config, c: Core) { cfg.Valid() && RingValid(cfg, c.ring) }

  function NewCore(cfg: Config): Core
    requires cfg.Valid()
  {
    Core(Closed, Ring(Zeros(cfg.size), 0, None), 0, 0, 0)
  }

  function Transition(c: Core, to: State): Core {
    c.(state := to, probes := 0, probeSuccess := 0)
  }

  function OpenCircuit(c: Core, now: int): Core {
    Transition(c.(openedAt := now), Open)
  }

  /** Allow: the new state and whether the attempt may proceed. */
  function AllowStep(cfg: Config, c: Core, now: int): (Core, bool) {
    match c.state
    case Open =>
      if now - c.openedAt < cfg.openFor then (c, false)
      else (Transition(c, HalfOpen).(probes := 1), true)
    case HalfOpen =>
      if c.probes >= cfg.probes then (c, false) else (c.(probes := c.probes + 1), true)
    case Closed => (c, true)
  }

  function RecordStep(cfg: Config, c: Core, now: int, ok: bool): (c': Core)
    requires CoreValid(cfg, c)
    ensures CoreValid(cfg, c')
  {
    match c.state
    case Closed =>
      var c1 := c.(ring := Put(cfg, c.ring, now, ok));
      if Trips(cfg, Totals(c1.ring.cells)) then OpenCircuit(c1, now) else c1
    case HalfOpen =>
      if c.probes == 0 then c
      else
        var c1 := c.(probes := c.probes - 1);
        if !ok then OpenCircuit(c1, now)
        else if c1.probeSuccess + 1 >= cfg.probes then
          Transition(c1, Closed).(ring := c1.ring.(cells := Zeros(cfg.size), current := None))
        else c1.(probeSuccess := c1.probeSuccess + 1)
    case Open => c
  }

  // ---------------------------------------------------------------- the class

  class Breaker {
    const cfg: Config
    var state: State
    const buckets: array<Bucket>
    var idx: nat
    var current: Option<int>
    var openedAt: int
    var probes: nat
    var probeSuccess: nat

    ghost predicate Valid()
      reads this
    {
      cfg.Valid() && buckets.Length == cfg.size && idx < cfg.size
    }

    ghost function View(): Core
      reads this, buckets
    {
      Core(state, Ring(buckets[..], idx, current), openedAt, probes, probeSuccess)
    }

    constructor (o: Options)
      ensures Valid() && cfg == Normalize(o) && fresh(buckets)
      ensures View() == NewCore(cfg)
    {
      var c := Normalize(o);
      cfg := c;
      state, idx, current, openedAt, probes, probeSuccess := Closed, 0, None, 0, 0, 0;
      buckets := new Bucket[c.size](_ => Bucket(0, 0));
      new;
      assert buckets[..] == Zeros(cfg.size);
    }

    method Allow(now: int) returns (ok: bool)
      requires Valid()
      modifies this
      ensures Valid() && (View(), ok) == AllowStep(cfg, old(View()), now)
    {
      match state {
        case Open =>
          if now - openedAt < cfg.openFor {
            return false;
          }
          MoveTo(HalfOpen);
          probes := probes + 1;
        case HalfOpen =>
          if probes >= cfg.probes {
            return false;
          }
          probes := probes + 1;
        case Closed =>
      }
      ok := true;
    }

    method Record(now: int, ok: bool)
      requires Valid()
      modifies this, buckets
      ensures Valid() && View() == RecordStep(cfg, old(View()), now, ok)
    {
      match state {
        case Closed => RecordClosed(now, ok);
        case HalfOpen => RecordProbe(now, ok);
        case Open =>
      }
    }

    method RecordClosed(now: int, ok: bool)
      requires Valid() && state == Closed
      modifies this, buckets
      ensures Valid() && View() == RecordStep(cfg, old(View()), now, ok)
    {
      AdvanceTo(now);
      ghost var r := Ring(buckets[..], idx, current);
      buckets[idx] := Plus(buckets[idx], One(ok));
      assert buckets[..] == r.cells[r.idx := Plus(r.cells[r.idx], One(ok))];
      var t := Sum();
      if Trips(cfg, t) {
        openedAt := now;
        MoveTo(Open);
      }
    }

    method RecordProbe(now: int, ok: bool)
      requires Valid() && state == HalfOpen
      modifies this, buckets
      ensures Valid() && View() == RecordStep(cfg, old(View()), now, ok)
    {
      if probes == 0 {
        return;
      }
      probes := probes - 1;
      if !ok {
        openedAt := now;
        MoveTo(Open);
      } else {
        probeSuccess := probeSuccess + 1;
        if probeSuccess >= cfg.probes {
          MoveTo(Closed);
          Clear();
          current := None;
        }
      }
    }

    method MoveTo(to: State)
      requires Valid()
      modifies this`state, this`probes, this`probeSuccess
      ensures Valid() && View() == Transition(old(View()), to)
    {
      state, probes, probeSuccess := to, 0, 0;
    }

    method Clear()
      requires Valid()
      modifies buckets
      ensures buckets[..] == Zeros(cfg.size)
    {
      forall i | 0 <= i < buckets.Length {
        buckets[i] := Bucket(0, 0);
      }
    }

    /** advance: rotate the ring to the bucket covering now. */
    method AdvanceTo(now: int)
      requires Valid()
      modifies this`idx, this`current, buckets
      ensures Valid()
      ensures Ring(buckets[..], idx, current) == Advance(cfg, old(Ring(buckets[..], idx, current)), now)
    {
      if current.None? {
        current := Some(now);
        return;
      }
      var d := now - current.value;
      if d < 0 {
        StepsBounds(-d, cfg.span);
        return;
      }
      var steps := d / cfg.span;
      QuotientIsDivision(d, cfg.span);
      if steps <= 0 {
        return;
      }
      if steps >= buckets.Length {
        Clear();
        idx := 0;
        current := Some(now);
        return;
      }
      for i := 0 to steps
        invariant Valid() && current.Some?
        invariant Ring(buckets[..], idx, current) == Rotate(cfg, old(Ring(buckets[..], idx, current)), i)
      {
        idx := (idx + 1) % buckets.Length;
        buckets[idx] := Bucket(0, 0);
        current := Some(current.value + cfg.span);
      }
    }

    method Sum() returns (t: Bucket)
      ensures t == Totals(buckets[..])
    {
      t := Bucket(0, 0);
      for i := 0 to buckets.Length
        invariant t == SumTo(buckets[..], i)
      {
        t := Plus(t, buckets[i]);
      }
    }
  }

  // ---------------------------------------------------------------- reference: an event log

  datatype Event = Event(at: int, ok: bool)

  /** Outcomes in the order they were recorded. */
  datatype Log = Empty | Then(earlier: Log, last: Event)

  /** The same breaker with no ring: every outcome recorded since the circuit last
      closed, and the anchor the buckets are counted from. */
  datatype LogCore = LogCore(
    state: State, log: Log, anchor: Option<int>, openedAt: int, probes: nat, probeSuccess: nat)

  function NewLog(): LogCore { LogCore(Closed, Empty, None, 0, 0, 0) }

  /** Outcomes of the log no older than `from`. */
  function Since(log: Log, from: int): Bucket {
    match log
    case Empty => Bucket(0, 0)
    case Then(earlier, e) => if e.at >= from then Plus(Since(earlier, from), One(e.ok)) else Since(earlier, from)
  }

  /** The window opens n-1 whole spans before the anchor. */
  function Horizon(cfg: Config, anchor: int): int
    requires cfg.Valid()
  {
    anchor - Spans(cfg.size - 1, cfg.span)
  }

  function MoveAnchor(cfg: Config, anchor: Option<int>, now: int): int
    requires cfg.Valid()
  {
    if anchor.None? then now else
    var steps := Quotient(now - anchor.value, cfg.span);
    if steps <= 0 then anchor.value
    else if steps >= cfg.size then now
    else anchor.value + Spans(steps, cfg.span)
  }

  function AllowLog(cfg: Config, l: LogCore, now: int): (LogCore, bool) {
    match l.state
    case Open =>
      if now - l.openedAt < cfg.openFor then (l, false)
      else (l.(state := HalfOpen, probes := 1, probeSuccess := 0), true)
    case HalfOpen =>
      if l.probes >= cfg.probes then (l, false) else (l.(probes := l.probes + 1), true)
    case Closed => (l, true)
  }

  function TripLog(l: LogCore, now: int): LogCore {
    l.(state := Open, openedAt := now, probes := 0, probeSuccess := 0)
  }

  function RecordLog(cfg: Config, l: LogCore, now: int, ok: bool): LogCore
    requires cfg.Valid()
  {
    match l.state
    case Closed =>
      var anchor := MoveAnchor(cfg, l.anchor, now);
      var l1 := l.(anchor := Some(anchor), log := Then(l.log, Event(now, ok)));
      if Trips(cfg, Since(l1.log, Horizon(cfg, anchor))) then TripLog(l1, now) else l1
    case HalfOpen =>
      if l.probes == 0 then l
      else if !ok then TripLog(l, now)
      else if l.probeSuccess + 1 >= cfg.probes then LogCore(Closed, Empty, None, l.openedAt, 0, 0)
      else l.(probes := l.probes - 1, probeSuccess := l.probeSuccess + 1)
    case Open => l
  }

  // ---------------------------------------------------------------- ring versus log

  /** How many bucket spans before `cur` the instant lies; 0 for cur and later. */
  function Age(at: int, cur: int, span: int): nat
    requires span > 0
    decreases cur - at
  {
    if cur <= at then 0 else 1 + Age(at, cur - span, span)
  }

  lemma {:induction false} SpansNonNegative(k: nat, span: int)
    requires span > 0
    ensures Spans(k, span) >= 0
  {
    if k == 0 {
    } else {
      SpansNonNegative(k - 1, span);
    }
  }

  lemma {:induction false} AgeBound(at: int, cur: int, span: int, k: nat)
    requires span > 0
    ensures Age(at, cur, span) <= k <==> at >= cur - Spans(k, span)
    decreases cur - at
  {
    SpansNonNegative(k, span);
    if cur <= at || k == 0 {
    } else {
      AgeBound(at, cur - span, span, k - 1);
    }
  }

  /** Which cell of the ring holds outcomes of a given age. */
  function Slot(size: nat, idx: nat, age: nat): (j: nat)
    requires idx < size && age < size
    ensures j < size
  {
    if age <= idx then idx - age else idx + size - age
  }

  function CountAge(log: Log, cur: int, span: int, age: nat): Bucket
    requires span > 0
  {
    match log
    case Empty => Bucket(0, 0)
    case Then(earlier, e) =>
      var rest := CountAge(earlier, cur, span, age);
      if Age(e.at, cur, span) == age then Plus(rest, One(e.ok)) else rest
  }

  predicate AllBefore(log: Log, bound: int) {
    log.Then? ==> log.last.at < bound && AllBefore(log.earlier, bound)
  }

  predicate CellShows(cfg: Config, r: Ring, log: Log, j: nat)
    requires cfg.Valid() && RingValid(cfg, r) && r.current.Some? && j < cfg.size
  {
    r.cells[j] == CountAge(log, r.current.value, cfg.span, Slot(cfg.size, r.idx, j))
  }

  /** The ring holds exactly the log, one cell per age, all events before cur + span. */
  ghost predicate Shows(cfg: Config, r: Ring, log: Log)
    requires cfg.Valid()
  {
    && RingValid(cfg, r)
    && (r.current.None? ==> log == Empty && r.cells == Zeros(cfg.size))
    && (r.current.Some? ==>
          && AllBefore(log, r.current.value + cfg.span)
          && forall j :: 0 <= j < cfg.size ==> CellShows(cfg, r, log, j))
  }

  lemma AgeShifts(at: int, cur: int, span: int)
    requires span > 0 && at < cur + span
    ensures Age(at, cur + span, span) == 1 + Age(at, cur, span)
  {
    assert cur + span - span == cur;
  }

  lemma {:induction false} CountAgeShifts(log: Log, cur: int, span: int, k: nat)
    requires span > 0 && AllBefore(log, cur + span)
    ensures CountAge(log, cur + span, span, k + 1) == CountAge(log, cur, span, k)
    ensures CountAge(log, cur + span, span, 0) == Bucket(0, 0)
  {
    if log.Empty? {
    } else {
      CountAgeShifts(log.earlier, cur, span, k);
      AgeShifts(log.last.at, cur, span);
    }
  }

  lemma {:induction false} AllBeforeMonotone(log: Log, a: int, b: int)
    requires AllBefore(log, a) && a <= b
    ensures AllBefore(log, b)
  {
    if log.Empty? {
    } else {
      AllBeforeMonotone(log.earlier, a, b);
    }
  }

  /** Nothing recorded before cur - (n-1)*span has an age below n. */
  lemma {:induction false} CountAgeNone(log: Log, cur: int, span: int, k: nat, n: nat)
    requires span > 0 && k < n && AllBefore(log, cur - Spans(n - 1, span))
    ensures CountAge(log, cur, span, k) == Bucket(0, 0)
  {
    if log.Empty? {
    } else {
      CountAgeNone(log.earlier, cur, span, k, n);
      AgeBound(log.last.at, cur, span, n - 1);
    }
  }

  lemma SlotTurns(size: nat, idx: nat, next: nat, j: nat)
    requires idx < size && j < size && next == if idx + 1 == size then 0 else idx + 1
    ensures j == next ==> Slot(size, next, j) == 0
    ensures j != next ==> Slot(size, next, j) == Slot(size, idx, j) + 1
  {
  }

  /** One turn of the ring ages every cell but the one it clears. */
  lemma RotateOnceShowsCell(cfg: Config, r: Ring, log: Log, j: nat)
    requires cfg.Valid() && RingValid(cfg, r) && r.current.Some? && j < cfg.size
    requires AllBefore(log, r.current.value + cfg.span) && CellShows(cfg, r, log, j)
    ensures CellShows(cfg, RotateOnce(cfg, r), log, j)
  {
    var age := Slot(cfg.size, r.idx, j);
    CountAgeShifts(log, r.current.value, cfg.span, age);
    SlotTurns(cfg.size, r.idx, RotateOnce(cfg, r).idx, j);
  }

  lemma RotateOnceShows(cfg: Config, r: Ring, log: Log)
    requires cfg.Valid() && Shows(cfg, r, log) && r.current.Some?
    ensures Shows(cfg, RotateOnce(cfg, r), log)
  {
    var cur := r.current.value;
    AllBeforeMonotone(log, cur + cfg.span, cur + cfg.span + cfg.span);
    forall j | 0 <= j < cfg.size ensures CellShows(cfg, RotateOnce(cfg, r), log, j) {
      RotateOnceShowsCell(cfg, r, log, j);
    }
  }

  lemma {:induction false} RotateShows(cfg: Config, r: Ring, log: Log, steps: nat)
    requires cfg.Valid() && Shows(cfg, r, log) && r.current.Some?
    ensures Shows(cfg, Rotate(cfg, r, steps), log)
    ensures Rotate(cfg, r, steps).current.value == r.current.value + Spans(steps, cfg.span)
  {
    if steps == 0 {
    } else {
      RotateShows(cfg, r, log, steps - 1);
      RotateOnceShows(cfg, Rotate(cfg, r, steps - 1), log);
    }
  }

  lemma ClearShows(cfg: Config, log: Log, cur: int, now: int)
    requires cfg.Valid() && AllBefore(log, cur + cfg.span)
    requires Spans(cfg.size, cfg.span) <= now - cur
    ensures Shows(cfg, Ring(Zeros(cfg.size), 0, Some(now)), log)
  {
    SpansNonNegative(cfg.size, cfg.span);
    AllBeforeMonotone(log, cur + cfg.span, now - Spans(cfg.size - 1, cfg.span));
    AllBeforeMonotone(log, cur + cfg.span, now + cfg.span);
    var r := Ring(Zeros(cfg.size), 0, Some(now));
    forall j | 0 <= j < cfg.size ensures CellShows(cfg, r, log, j) {
      CountAgeNone(log, now, cfg.span, Slot(cfg.size, 0, j), cfg.size);
    }
  }

  lemma {:induction false} SpansMonotone(j: nat, k: nat, span: int)
    requires span > 0 && j <= k
    ensures Spans(j, span) <= Spans(k, span)
  {
    if j >= k {
    } else {
      SpansMonotone(j, k - 1, span);
    }
  }

  lemma {:induction false} StepsBounds(d: int, span: int)
    requires d >= 0 && span > 0
    ensures Quotient(d, span) >= 0
    ensures Spans(Quotient(d, span), span) <= d < Spans(Quotient(d, span), span) + span
    decreases d
  {
    if d < span {
    } else {
      StepsBounds(d - span, span);
    }
  }

  /** Rotation, full clear and re-anchoring all keep the log, and land on a bucket
      that contains now. */
  lemma AdvanceShows(cfg: Config, r: Ring, log: Log, now: int)
    requires cfg.Valid() && Shows(cfg, r, log) && (r.current.Some? ==> r.current.value <= now)
    ensures Shows(cfg, Advance(cfg, r, now), log)
    ensures Advance(cfg, r, now).current == Some(MoveAnchor(cfg, r.current, now))
    ensures var cur := MoveAnchor(cfg, r.current, now); cur <= now < cur + cfg.span
  {
    if r.current.Some? {
      StepsBounds(now - r.current.value, cfg.span);
      var steps := Quotient(now - r.current.value, cfg.span);
      if steps >= cfg.size {
        SpansMonotone(cfg.size, steps, cfg.span);
        ClearShows(cfg, log, r.current.value, now);
      } else {
        RotateShows(cfg, r, log, steps);
      }
    }
  }

  lemma CountAgeThen(log: Log, e: Event, cur: int, span: int, k: nat)
    requires span > 0 && cur <= e.at
    ensures CountAge(Then(log, e), cur, span, k) ==
            if k == 0 then Plus(CountAge(log, cur, span, k), One(e.ok)) else CountAge(log, cur, span, k)
  {
    assert Age(e.at, cur, span) == 0;
  }

  lemma PutShowsCell(cfg: Config, r: Ring, log: Log, e: Event, j: nat)
    requires cfg.Valid() && RingValid(cfg, r) && r.current.Some? && j < cfg.size
    requires r.current.value <= e.at && CellShows(cfg, r, log, j)
    ensures CellShows(cfg, Bump(r, e.ok), Then(log, e), j)
  {
    var age := Slot(cfg.size, r.idx, j);
    assert age == 0 <==> j == r.idx;
    CountAgeThen(log, e, r.current.value, cfg.span, age);
  }

  /** Recording an outcome in the current bucket shows the longer log. */
  lemma PutShows(cfg: Config, r: Ring, log: Log, e: Event)
    requires cfg.Valid() && Shows(cfg, r, log) && r.current.Some?
    requires r.current.value <= e.at < r.current.value + cfg.span
    ensures Shows(cfg, Bump(r, e.ok), Then(log, e))
  {
    forall j | 0 <= j < cfg.size ensures CellShows(cfg, Bump(r, e.ok), Then(log, e), j) {
      PutShowsCell(cfg, r, log, e, j);
    }
  }

  /** The cells as they should be. */
  function Cells(cfg: Config, idx: nat, cur: int, log: Log): (cells: seq<Bucket>)
    requires cfg.Valid() && idx < cfg.size
    ensures |cells| == cfg.size
    ensures forall j :: 0 <= j < cfg.size ==> cells[j] == CountAge(log, cur, cfg.span, Slot(cfg.size, idx, j))
  {
    seq(cfg.size, j requires 0 <= j < cfg.size => CountAge(log, cur, cfg.span, Slot(cfg.size, idx, j)))
  }

  /** Slot is its own inverse. */
  lemma SlotTwice(size: nat, idx: nat, age: nat, j: nat)
    requires idx < size && age < size && j < size
    ensures Slot(size, idx, age) == j <==> Slot(size, idx, j) == age
  {
  }

  lemma {:induction false} SumOfNothing(cells: seq<Bucket>, m: nat)
    requires m <= |cells| && forall j :: 0 <= j < m ==> cells[j] == Bucket(0, 0)
    ensures SumTo(cells, m) == Bucket(0, 0)
  {
    if m == 0 {
    } else {
      SumOfNothing(cells, m - 1);
    }
  }

  lemma {:induction false} SumOfSame(a: seq<Bucket>, b: seq<Bucket>, m: nat)
    requires m <= |a| == |b| && forall j :: 0 <= j < m ==> a[j] == b[j]
    ensures SumTo(a, m) == SumTo(b, m)
  {
    if m == 0 {
    } else {
      SumOfSame(a, b, m - 1);
    }
  }

  /** What one cell gains, the sum gains. */
  lemma {:induction false} SumGains(cells: seq<Bucket>, at: nat, gain: Bucket, m: nat)
    requires at < m <= |cells|
    ensures SumTo(cells[at := Plus(cells[at], gain)], m) == Plus(SumTo(cells, m), gain)
  {
    if at == m - 1 {
      SumOfSame(cells[at := Plus(cells[at], gain)], cells, m - 1);
    } else {
      SumGains(cells, at, gain, m - 1);
    }
  }

  lemma CountAgeGrows(log: Log, e: Event, cur: int, span: int, k: nat)
    requires span > 0
    ensures Age(e.at, cur, span) == k ==>
              CountAge(Then(log, e), cur, span, k) == Plus(CountAge(log, cur, span, k), One(e.ok))
    ensures Age(e.at, cur, span) != k ==> CountAge(Then(log, e), cur, span, k) == CountAge(log, cur, span, k)
  {
  }

  /** One more outcome lands in exactly one cell, or in none when it is too old. */
  lemma CellsGrow(cfg: Config, idx: nat, cur: int, log: Log, e: Event, age: nat)
    requires cfg.Valid() && idx < cfg.size && age == Age(e.at, cur, cfg.span)
    ensures age >= cfg.size ==> Cells(cfg, idx, cur, Then(log, e)) == Cells(cfg, idx, cur, log)
    ensures age < cfg.size ==>
              var cells, at := Cells(cfg, idx, cur, log), Slot(cfg.size, idx, age);
              Cells(cfg, idx, cur, Then(log, e)) == cells[at := Plus(cells[at], One(e.ok))]
  {
    forall j | 0 <= j < cfg.size
      ensures Cells(cfg, idx, cur, Then(log, e))[j] ==
              if Slot(cfg.size, idx, j) == age then Plus(Cells(cfg, idx, cur, log)[j], One(e.ok))
              else Cells(cfg, idx, cur, log)[j]
    {
      CountAgeGrows(log, e, cur, cfg.span, Slot(cfg.size, idx, j));
    }
    if age < cfg.size {
      forall j | 0 <= j < cfg.size ensures Slot(cfg.size, idx, age) == j <==> Slot(cfg.size, idx, j) == age {
        SlotTwice(cfg.size, idx, age, j);
      }
    }
  }

  lemma InWindow(cfg: Config, at: int, cur: int)
    requires cfg.Valid()
    ensures Age(at, cur, cfg.span) < cfg.size <==> at >= Horizon(cfg, cur)
  {
    AgeBound(at, cur, cfg.span, cfg.size - 1);
  }

  lemma {:induction false} CellsAreTheWindow(cfg: Config, idx: nat, cur: int, log: Log, from: int)
    requires cfg.Valid() && idx < cfg.size && from == Horizon(cfg, cur)
    ensures Totals(Cells(cfg, idx, cur, log)) == Since(log, from)
  {
    match log
    case Empty => SumOfNothing(Cells(cfg, idx, cur, Empty), cfg.size);
    case Then(earlier, e) =>
      var age := Age(e.at, cur, cfg.span);
      CellsAreTheWindow(cfg, idx, cur, earlier, from);
      InWindow(cfg, e.at, cur);
      CellsGrow(cfg, idx, cur, earlier, e, age);
      if age < cfg.size {
        SumGains(Cells(cfg, idx, cur, earlier), Slot(cfg.size, idx, age), One(e.ok), cfg.size);
      }
  }

  /** The sliding window is exact: whatever rotations, clears and re-anchorings led
      here, the ring's totals count precisely the logged outcomes no older than
      current - (n-1)*span. */
  lemma WindowIsExact(cfg: Config, r: Ring, log: Log, from: int)
    requires cfg.Valid() && Shows(cfg, r, log) && r.current.Some? && from == Horizon(cfg, r.current.value)
    ensures Totals(r.cells) == Since(log, from)
  {
    var cells := Cells(cfg, r.idx, r.current.value, log);
    forall j | 0 <= j < cfg.size ensures r.cells[j] == cells[j] {
      assert CellShows(cfg, r, log, j);
    }
    assert r.cells == cells;
    CellsAreTheWindow(cfg, r.idx, r.current.value, log, from);
  }

  // ---------------------------------------------------------------- callers and runs

  /** A breaker, its log reference, a clock that never runs backwards, and the
      attempts that were allowed and not yet recorded, with the time of their Allow.
      since and admitted describe the current half-open period. */
  datatype Sys = Sys(
    core: Core, ref: LogCore, now: int, flights: map<nat, int>, nextId: nat, since: int, admitted: nat)

  datatype Step = Tick(d: nat) | TryAllow | Finish(id: nat, ok: bool)

  function Start(cfg: Config, t0: int): Sys
    requires cfg.Valid()
  {
    Sys(NewCore(cfg), NewLog(), t0, map[], 0, t0, 0)
  }

  /** One step; finishing an attempt that is not in flight is not a step. */
  function Do(cfg: Config, s: Sys, step: Step): (s': Sys)
    requires CoreValid(cfg, s.core)
    ensures CoreValid(cfg, s'.core)
  {
    match step
    case Tick(d) => s.(now := s.now + d)
    case TryAllow =>
      var (core, ok) := AllowStep(cfg, s.core, s.now);
      var s1 := s.(core := core, ref := AllowLog(cfg, s.ref, s.now).0);
      if !ok then s1
      else
        var began := s.core.state == Open;
        s1.(flights := s.flights[s.nextId := s.now], nextId := s.nextId + 1,
            since := if began then s.now else s.since,
            admitted := if began then 1 else s.admitted + 1)
    case Finish(id, ok) =>
      if id !in s.flights then s
      else s.(core := RecordStep(cfg, s.core, s.now, ok), ref := RecordLog(cfg, s.ref, s.now, ok),
              flights := s.flights - {id})
  }

  function Run(cfg: Config, s: Sys, steps: seq<Step>): (s': Sys)
    requires CoreValid(cfg, s.core)
    ensures CoreValid(cfg, s'.core)
    decreases |steps|
  {
    if steps == [] then s else Run(cfg, Do(cfg, s, steps[0]), steps[1..])
  }

  // ------------------------------------------------- every run: the ring refines the log

  ghost predicate Refines(cfg: Config, s: Sys)
    requires cfg.Valid()
  {
    && s.core.state == s.ref.state
    && s.core.openedAt == s.ref.openedAt
    && s.core.probes == s.ref.probes
    && s.core.probeSuccess == s.ref.probeSuccess
    && s.core.ring.current == s.ref.anchor
    && Shows(cfg, s.core.ring, s.ref.log)
    && (s.ref.anchor.Some? ==> s.ref.anchor.value <= s.now)
  }

  lemma BumpIsExact(cfg: Config, r: Ring, log: Log, now: int, ok: bool)
    requires cfg.Valid() && Shows(cfg, r, log) && r.current.Some?
    requires r.current.value <= now < r.current.value + cfg.span
    ensures var log' := Then(log, Event(now, ok));
      && Shows(cfg, Bump(r, ok), log')
      && Totals(Bump(r, ok).cells) == Since(log', Horizon(cfg, r.current.value))
  {
    PutShows(cfg, r, log, Event(now, ok));
    WindowIsExact(cfg, Bump(r, ok), Then(log, Event(now, ok)), Horizon(cfg, r.current.value));
  }

  /** Recording while closed: the ring shows the longer log, and its totals are the
      window of that log. */
  lemma PutIsExact(cfg: Config, r: Ring, log: Log, now: int, ok: bool)
    requires cfg.Valid() && Shows(cfg, r, log) && (r.current.Some? ==> r.current.value <= now)
    ensures var r' := Put(cfg, r, now, ok);
      && r'.current == Some(MoveAnchor(cfg, r.current, now))
      && r'.current.value <= now < r'.current.value + cfg.span
      && Shows(cfg, r', Then(log, Event(now, ok)))
      && Totals(r'.cells) == Since(Then(log, Event(now, ok)), Horizon(cfg, r'.current.value))
  {
    AdvanceShows(cfg, r, log, now);
    BumpIsExact(cfg, Advance(cfg, r, now), log, now, ok);
  }

  /** Ring breaker and log breaker stay in step: an outcome recorded while closed, */
  lemma ClosedRecordRefines(cfg: Config, s: Sys, ok: bool)
    requires CoreValid(cfg, s.core) && Refines(cfg, s) && s.core.state == Closed
    ensures Refines(cfg, s.(core := RecordStep(cfg, s.core, s.now, ok), ref := RecordLog(cfg, s.ref, s.now, ok)))
  {
    PutIsExact(cfg, s.core.ring, s.ref.log, s.now, ok);
  }

  /** and one recorded in any other state. */
  lemma OtherRecordRefines(cfg: Config, s: Sys, ok: bool)
    requires CoreValid(cfg, s.core) && Refines(cfg, s) && s.core.state != Closed
    ensures Refines(cfg, s.(core := RecordStep(cfg, s.core, s.now, ok), ref := RecordLog(cfg, s.ref, s.now, ok)))
  {
  }

  lemma {:induction false} RunRefines(cfg: Config, s: Sys, steps: seq<Step>)
    requires CoreValid(cfg, s.core) && Refines(cfg, s)
    ensures Refines(cfg, Run(cfg, s, steps))
    decreases |steps|
  {
    if steps == [] {
    } else {
      match steps[0] {
        case Finish(_, ok) =>
          if s.core.state == Closed {
            ClosedRecordRefines(cfg, s, ok);
          } else {
            OtherRecordRefines(cfg, s, ok);
          }
        case _ =>
      }
      RunRefines(cfg, Do(cfg, s, steps[0]), steps[1..]);
    }
  }

  /** In every run the ring breaker and the log breaker are in the same state and
      give the same answer to Allow, and while a window is open the ring's totals are
      exactly the logged outcomes inside it. */
  lemma RingBreakerRefinesLogBreaker(cfg: Config, t0: int, steps: seq<Step>)
    requires cfg.Valid()
    ensures var s := Run(cfg, Start(cfg, t0), steps);
      && s.core.state == s.ref.state
      && AllowStep(cfg, s.core, s.now).1 == AllowLog(cfg, s.ref, s.now).1
      && s.core.ring.current == s.ref.anchor
      && (s.ref.anchor.Some? ==>
            Totals(s.core.ring.cells) == Since(s.ref.log, Horizon(cfg, s.ref.anchor.value)))
  {
    RunRefines(cfg, Start(cfg, t0), steps);
    var s := Run(cfg, Start(cfg, t0), steps);
    if s.ref.anchor.Some? {
      WindowIsExact(cfg, s.core.ring, s.ref.log, Horizon(cfg, s.ref.anchor.value));
    }
  }

  lemma HorizonBounds(cfg: Config, anchor: int, now: int)
    requires cfg.Valid() && anchor <= now < anchor + cfg.span
    ensures now - cfg.size * cfg.span < Horizon(cfg, anchor) <= now - (cfg.size - 1) * cfg.span
  {
    SpansIsProduct(cfg.size, cfg.span);
    SpansIsProduct(cfg.size - 1, cfg.span);
  }

  /** Recording while closed trips exactly when the window of the longer log does. */
  lemma ClosedTrips(cfg: Config, s: Sys, ok: bool) returns (anchor: int)
    requires CoreValid(cfg, s.core) && Refines(cfg, s) && s.core.state == Closed
    ensures anchor <= s.now < anchor + cfg.span
    ensures RecordStep(cfg, s.core, s.now, ok).state == Open <==>
            Trips(cfg, Since(Then(s.ref.log, Event(s.now, ok)), Horizon(cfg, anchor)))
  {
    PutIsExact(cfg, s.core.ring, s.ref.log, s.now, ok);
    anchor := Put(cfg, s.core.ring, s.now, ok).current.value;
  }

  function Outcomes(log: Log, from: int): nat {
    match log
    case Empty => 0
    case Then(earlier, e) => Outcomes(earlier, from) + if e.at >= from then 1 else 0
  }

  function Failures(log: Log, from: int): nat {
    match log
    case Empty => 0
    case Then(earlier, e) => Failures(earlier, from) + if e.at >= from && !e.ok then 1 else 0
  }

  lemma {:induction false} SinceCounts(log: Log, from: int)
    ensures Since(log, from).failure == Failures(log, from) <= Outcomes(log, from)
    ensures Since(log, from).success + Since(log, from).failure == Outcomes(log, from)
  {
    match log
    case Empty =>
    case Then(earlier, e) =>
      SinceCounts(earlier, from);
      if e.at >= from {
        PlusOne(Since(earlier, from), e.ok);
        assert Since(log, from) == Plus(Since(earlier, from), One(e.ok));
      } else {
        assert Since(log, from) == Since(earlier, from);
      }
  }

  lemma PlusOne(b: Bucket, ok: bool)
    ensures Plus(b, One(ok)).failure == b.failure + if ok then 0 else 1
    ensures Plus(b, One(ok)).success == b.success + if ok then 1 else 0
  {
  }

  /** The circuit's rule, without a division: enough outcomes, and enough failures among them. */
  predicate RuleMet(cfg: Config, outcomes: nat, failures: nat) {
    outcomes >= cfg.minRequests && failures as real >= cfg.failureRatio * outcomes as real
  }

  lemma TripsExactlyByTheRule(cfg: Config, t: Bucket)
    requires cfg.Valid() && t.success >= 0 && t.failure >= 0
    ensures Trips(cfg, t) <==> RuleMet(cfg, t.success + t.failure, t.failure)
  {
    if t.success + t.failure >= cfg.minRequests {
      RatioAtLeast(t.failure as real, (t.success + t.failure) as real, cfg.failureRatio);
    }
  }

  lemma WindowTripsByTheRule(cfg: Config, log: Log, from: int)
    requires cfg.Valid()
    ensures Trips(cfg, Since(log, from)) <==> RuleMet(cfg, Outcomes(log, from), Failures(log, from))
  {
    SinceCounts(log, from);
    TripsExactlyByTheRule(cfg, Since(log, from));
  }

  lemma RatioAtLeast(a: real, b: real, r: real)
    requires b > 0.0
    ensures a / b >= r <==> a >= r * b
  {
    var q := a / b;
    assert q * b == a;
    if q >= r {
      assert (q - r) * b >= 0.0;
    } else {
      assert (r - q) * b > 0.0;
    }
  }

  lemma ClosedOpensByTheRule(cfg: Config, s: Sys, ok: bool) returns (anchor: int)
    requires CoreValid(cfg, s.core) && Refines(cfg, s) && s.core.state == Closed
    ensures anchor <= s.now < anchor + cfg.span
    ensures var log := Then(s.ref.log, Event(s.now, ok));
      RecordStep(cfg, s.core, s.now, ok).state ==
        if RuleMet(cfg, Outcomes(log, Horizon(cfg, anchor)), Failures(log, Horizon(cfg, anchor))) then Open else Closed
  {
    anchor := ClosedTrips(cfg, s, ok);
    WindowTripsByTheRule(cfg, Then(s.ref.log, Event(s.now, ok)), Horizon(cfg, anchor));
  }

  /** In every run, an outcome recorded while closed trips the circuit exactly when there
      are at least MinRequests outcomes logged since some instant `from`, and FailureRatio
      of them failed; every outcome of age at most (n-1)*span lies after `from` and none of
      age n*span or more does. */
  lemma TripsOnTheWindow(cfg: Config, t0: int, steps: seq<Step>, ok: bool) returns (from: int)
    requires cfg.Valid() && Run(cfg, Start(cfg, t0), steps).core.state == Closed
    ensures var s := Run(cfg, Start(cfg, t0), steps);
      var log := Then(s.ref.log, Event(s.now, ok));
      && s.now - cfg.size * cfg.span < from <= s.now - (cfg.size - 1) * cfg.span
      && RecordStep(cfg, s.core, s.now, ok).state ==
         if RuleMet(cfg, Outcomes(log, from), Failures(log, from)) then Open else Closed
  {
    RunRefines(cfg, Start(cfg, t0), steps);
    var s := Run(cfg, Start(cfg, t0), steps);
    var anchor := ClosedOpensByTheRule(cfg, s, ok);
    from := Horizon(cfg, anchor);
    HorizonBounds(cfg, anchor, s.now);
  }

  // ------------------------------------------------- timely runs: probes are the flights

  /** Every attempt has been in flight for less than bound. */
  ghost predicate Younger(s: Sys, bound: int) {
    forall id :: id in s.flights ==> s.now - s.flights[id] < bound
  }

  /** Every allowed attempt is recorded less than bound after its Allow. */
  ghost predicate YoungRun(cfg: Config, s: Sys, steps: seq<Step>, bound: int)
    requires CoreValid(cfg, s.core)
    decreases |steps|
  {
    Younger(s, bound) && (steps == [] || YoungRun(cfg, Do(cfg, s, steps[0]), steps[1..], bound))
  }

  /** The documented condition: operations take less than OpenFor. */
  ghost predicate TimelyRun(cfg: Config, s: Sys, steps: seq<Step>)
    requires CoreValid(cfg, s.core)
  {
    YoungRun(cfg, s, steps, cfg.openFor)
  }

  ghost predicate FlightInv(cfg: Config, s: Sys) {
    && (forall id :: id in s.flights ==> id < s.nextId && s.flights[id] <= s.now)
    && (s.core.state == Open ==>
          s.core.openedAt <= s.now && forall id :: id in s.flights ==> s.flights[id] <= s.core.openedAt)
    && (s.core.state == HalfOpen ==>
          && s.since <= s.now
          && s.core.probes == |s.flights| <= cfg.probes
          && s.core.probeSuccess < cfg.probes
          && s.admitted == s.core.probes + s.core.probeSuccess
          && forall id :: id in s.flights ==> s.since <= s.flights[id])
  }

  lemma AllowKeepsFlights(cfg: Config, s: Sys)
    requires CoreValid(cfg, s.core) && FlightInv(cfg, s) && Younger(s, cfg.openFor)
    ensures FlightInv(cfg, Do(cfg, s, TryAllow))
  {
    var s' := Do(cfg, s, TryAllow);
    if s.core.state == Open && s'.core.state == HalfOpen {
      assert s.flights.Keys == {};
      assert s'.flights.Keys == {s.nextId};
      assert |s'.flights| == 1;
    } else if s'.nextId != s.nextId {
      assert s'.flights.Keys == s.flights.Keys + {s.nextId};
      assert |s'.flights| == |s.flights| + 1;
    }
  }

  lemma FinishKeepsFlights(cfg: Config, s: Sys, id: nat, ok: bool)
    requires CoreValid(cfg, s.core) && FlightInv(cfg, s)
    ensures FlightInv(cfg, Do(cfg, s, Finish(id, ok)))
  {
    if id in s.flights {
      var left := s.flights - {id};
      assert left.Keys == s.flights.Keys - {id};
      assert |left| == |s.flights| - 1;
    }
  }

  lemma {:induction false} RunKeepsFlights(cfg: Config, s: Sys, steps: seq<Step>)
    requires CoreValid(cfg, s.core) && FlightInv(cfg, s) && TimelyRun(cfg, s, steps)
    ensures FlightInv(cfg, Run(cfg, s, steps))
    decreases |steps|
  {
    if steps == [] {
    } else {
      match steps[0] {
        case Tick(_) =>
        case TryAllow => AllowKeepsFlights(cfg, s);
        case Finish(id, ok) => FinishKeepsFlights(cfg, s, id, ok);
      }
      RunKeepsFlights(cfg, Do(cfg, s, steps[0]), steps[1..]);
    }
  }

  /** In every timely run, a half-open breaker's probe counter is the number of
      attempts in flight, all allowed since the half-open period began and at most
      HalfOpenProbes of them; no Record meets the stale-result branch; and one
      half-open period admits at most 2*HalfOpenProbes - 1 attempts. */
  lemma ProbesAreTheFlights(cfg: Config, t0: int, steps: seq<Step>)
    requires cfg.Valid() && TimelyRun(cfg, Start(cfg, t0), steps)
    ensures var s := Run(cfg, Start(cfg, t0), steps);
      s.core.state == HalfOpen ==>
        && s.core.probes == |s.flights| <= cfg.probes
        && (forall id :: id in s.flights ==> s.since <= s.flights[id] && s.core.probes > 0)
        && s.admitted == s.core.probes + s.core.probeSuccess <= 2 * cfg.probes - 1
  {
    RunKeepsFlights(cfg, Start(cfg, t0), steps);
    var s := Run(cfg, Start(cfg, t0), steps);
    forall id | id in s.flights ensures |s.flights| > 0 {
      assert id in s.flights.Keys;
    }
  }
}
