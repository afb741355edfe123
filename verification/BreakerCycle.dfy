/** The circuit's life as its documentation tells it, over every run: what counts while
    it is closed, how long it stays open, and what ends a half-open period. */
module BreakerCycle {
  import opened Common
  import opened CircuitBreaker

  // ---------------------------------------------------------------- what happened, told by the steps

  /** The outcome the step records, if it finishes an attempt in flight. */
  function Outcome(s: Sys, step: Step): Option<bool> {
    if step.Finish? && step.id in s.flights then Some(step.ok) else None
  }

  function Admits(cfg: Config, s: Sys, step: Step): bool
    requires CoreValid(cfg, s.core)
  {
    step.TryAllow? && Do(cfg, s, step).nextId != s.nextId
  }

  /** The outcomes of the current closed period, and the time of the last trip. */
  datatype Past = Past(log: Log, tripped: int)

  function Noted(cfg: Config, past: Past, s: Sys, step: Step): Past
    requires CoreValid(cfg, s.core)
  {
    var before, after := s.core.state, Do(cfg, s, step).core.state;
    var log :=
      if before == Closed && Outcome(s, step).Some? then Then(past.log, Event(s.now, Outcome(s, step).value))
      else if before != Closed && after == Closed then Empty
      else past.log;
    Past(log, if before != Open && after == Open then s.now else past.tripped)
  }

  function PastOf(cfg: Config, past: Past, s: Sys, steps: seq<Step>): Past
    requires CoreValid(cfg, s.core)
    decreases |steps|
  {
    if steps == [] then past
    else PastOf(cfg, Noted(cfg, past, s, steps[0]), Do(cfg, s, steps[0]), steps[1..])
  }

  /** The breaker knows its past, as far as its state needs it. */
  ghost predicate Knows(s: Sys, past: Past) {
    && (s.core.state == Closed ==> s.ref.log == past.log)
    && (s.core.state == Open ==> s.core.openedAt == past.tripped)
  }

  lemma StepKnows(cfg: Config, past: Past, s: Sys, step: Step)
    requires CoreValid(cfg, s.core) && Refines(cfg, s) && Knows(s, past)
    ensures Knows(Do(cfg, s, step), Noted(cfg, past, s, step))
  {
  }

  lemma {:induction false} RunKnows(cfg: Config, past: Past, s: Sys, steps: seq<Step>)
    requires CoreValid(cfg, s.core) && Refines(cfg, s) && Knows(s, past)
    ensures Knows(Run(cfg, s, steps), PastOf(cfg, past, s, steps))
    decreases |steps|
  {
    if steps == [] {
    } else {
      RunRefines(cfg, s, [steps[0]]);
      assert [steps[0]][1..] == [];
      assert Run(cfg, s, [steps[0]]) == Do(cfg, s, steps[0]);
      StepKnows(cfg, past, s, steps[0]);
      RunKnows(cfg, Noted(cfg, past, s, steps[0]), Do(cfg, s, steps[0]), steps[1..]);
    }
  }

  // ---------------------------------------------------------------- closed

  /** In every run: a closed circuit lets every attempt through, and an outcome leaves it
      closed unless it completes a window of enough outcomes, enough of them failures,
      among those recorded since the circuit last closed. */
  lemma ClosedUntilTheRuleIsMet(cfg: Config, t0: int, steps: seq<Step>, id: nat, ok: bool) returns (from: int)
    requires cfg.Valid()
    requires var s := Run(cfg, Start(cfg, t0), steps); s.core.state == Closed && id in s.flights
    ensures var s := Run(cfg, Start(cfg, t0), steps);
      var log := Then(PastOf(cfg, Past(Empty, t0), Start(cfg, t0), steps).log, Event(s.now, ok));
      && Admits(cfg, s, TryAllow)
      && s.now - cfg.size * cfg.span < from <= s.now - (cfg.size - 1) * cfg.span
      && Do(cfg, s, Finish(id, ok)).core.state ==
         if RuleMet(cfg, Outcomes(log, from), Failures(log, from)) then Open else Closed
  {
    RunKnows(cfg, Past(Empty, t0), Start(cfg, t0), steps);
    from := TripsOnTheWindow(cfg, t0, steps, ok);
  }

  // ---------------------------------------------------------------- open

  /** In every run: an open circuit refuses every attempt until OpenFor after it tripped,
      then admits one and is half-open; late outcomes of earlier attempts change nothing. */
  lemma OpenForOpenFor(cfg: Config, t0: int, steps: seq<Step>, id: nat, ok: bool)
    requires cfg.Valid() && Run(cfg, Start(cfg, t0), steps).core.state == Open
    ensures var s := Run(cfg, Start(cfg, t0), steps);
      var tripped := PastOf(cfg, Past(Empty, t0), Start(cfg, t0), steps).tripped;
      && (Admits(cfg, s, TryAllow) <==> s.now >= tripped + cfg.openFor)
      && Do(cfg, s, TryAllow).core.state == (if s.now >= tripped + cfg.openFor then HalfOpen else Open)
      && Do(cfg, s, Finish(id, ok)).core == s.core
  {
    RunKnows(cfg, Past(Empty, t0), Start(cfg, t0), steps);
  }

  // ---------------------------------------------------------------- half-open

  /** In every timely run: a half-open circuit admits another attempt exactly while fewer
      than HalfOpenProbes are in flight; one failure opens it again, and the success that
      makes HalfOpenProbes of them in this period closes it. The successes of the period are
      the attempts it admitted that are no longer in flight. */
  lemma HalfOpenEndsOnItsOutcomes(cfg: Config, t0: int, steps: seq<Step>, id: nat, ok: bool)
    requires cfg.Valid() && TimelyRun(cfg, Start(cfg, t0), steps)
    requires var s := Run(cfg, Start(cfg, t0), steps); s.core.state == HalfOpen && id in s.flights
    ensures var s := Run(cfg, Start(cfg, t0), steps);
      && (Admits(cfg, s, TryAllow) <==> |s.flights| < cfg.probes)
      && Do(cfg, s, TryAllow).core.state == HalfOpen
      && Do(cfg, s, Finish(id, ok)).core.state ==
         if !ok then Open else if s.admitted - |s.flights| + 1 >= cfg.probes then Closed else HalfOpen
  {
    RunKeepsFlights(cfg, Start(cfg, t0), steps);
    ProbesAreTheFlights(cfg, t0, steps);
  }
}
