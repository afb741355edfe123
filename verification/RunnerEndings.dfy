/** How a run of cli/migrationx on sqlite ends, told by what it read and what it met on the
    way: every other run may commit between any two of its steps. */
module RunnerEndings {
  import opened Common
  import opened Loader
  import opened Plans
  import opened Effects
  import opened SqliteRunners

  /** The migration the step settles for the runner: it commits it itself, or its probe,
      inside the transaction, finds it already as it is to be. */
  function Settled(s: System, step: Step, id: nat): Option<Migration> {
    if step.Act? && step.id == id && id in s.runners && s.runners[id].pc.Working? then
      var r := s.runners[id];
      match r.pc.phase
      case Begun =>
        if step.action.Probe? && (r.pc.m.version in s.history <==> !r.kind.Down?) then Some(r.pc.m) else None
      case Written(_) => if step.action.Commit? then Some(r.pc.m) else None
      case _ => None
    else None
  }

  function SettledBy(s: System, step: Step, id: nat): seq<Migration> {
    match Settled(s, step, id) case None => [] case Some(m) => [m]
  }

  /** What the runner has settled, in order. */
  function SettledIn(start: History, steps: seq<Step>, id: nat): seq<Migration> {
    if steps == [] then []
    else
      var before := steps[..|steps| - 1];
      SettledIn(start, before, id) + SettledBy(Run(Initial(start), before), steps[|steps| - 1], id)
  }

  type Reading = Option<Decision<seq<Migration>>>

  function PlanAfter(s: System, step: Step, id: nat, plan: Reading): Reading {
    if step == Act(id, Read) && id in s.runners && s.runners[id].pc.Ready?
    then Some(Plan(s.runners[id].ms, s.runners[id].kind, s.history))
    else plan
  }

  /** What the runner decided to do from the history it read. */
  function PlanRead(start: History, steps: seq<Step>, id: nat): Reading {
    if steps == [] then None
    else
      var before := steps[..|steps| - 1];
      PlanAfter(Run(Initial(start), before), steps[|steps| - 1], id, PlanRead(start, before, id))
  }

  /** The runner meets no failure: every statement it sends succeeds. */
  ghost predicate Smooth(steps: seq<Step>, id: nat) {
    forall i :: 0 <= i < |steps| && steps[i].Act? && steps[i].id == id ==>
      steps[i].action in {Read, Begin, Probe, Exec, Record, Commit}
  }

  ghost predicate LacksScript(plan: seq<Migration>, down: bool) {
    exists i :: 0 <= i < |plan| && StatementsOf(plan[i], down).None?
  }

  /** Where the runner stands, as against its plan. */
  ghost predicate Stands(r: Runner, plan: Reading, settled: seq<Migration>, smooth: bool) {
    match r.pc
    case Ready => plan == None && settled == []
    case Working(m, rest, _) => plan == Some(Yes(settled + [m] + rest))
    case Stranded => !smooth
    case Stopped(ok) =>
      if ok then plan == Some(Yes(settled))
      else
        smooth ==> plan.Some? && (plan.value.No? || LacksScript(plan.value.value, r.kind.Down?))
  }

  /** A runner that has not started has read nothing and settled nothing. */
  lemma {:induction false} NothingYet(start: History, steps: seq<Step>, id: nat)
    requires id !in Run(Initial(start), steps).runners
    ensures PlanRead(start, steps, id) == None && SettledIn(start, steps, id) == []
    decreases |steps|
  {
    if steps == [] {
    } else {
      var before := steps[..|steps| - 1];
      if id in Run(Initial(start), before).runners {
        RunnerStays(Run(Initial(start), before), steps[|steps| - 1], id);
      }
      NothingYet(start, before, id);
    }
  }

  /** The next migration of a plan, or its end. */
  lemma NextStands(settled: seq<Migration>, rest: seq<Migration>, r: Runner, smooth: bool)
    requires r.pc == Next(rest)
    ensures Stands(r, Some(Yes(settled + rest)), settled, smooth)
  {
    if rest == [] {
      assert settled + rest == settled;
    } else {
      assert settled + [rest[0]] + rest[1..] == settled + rest;
    }
  }

  lemma ReadingStands(s: System, id: nat)
    requires id in s.runners && s.runners[id].pc.Ready?
    ensures var r := Do(s, Act(id, Read)).runners[id];
      Stands(r, Some(Plan(r.ms, r.kind, s.history)), [], true)
  {
    var r := s.runners[id];
    var plan := Plan(r.ms, r.kind, s.history);
    if plan.Yes? {
      NextStands([], plan.value, Do(s, Act(id, Read)).runners[id], true);
      assert [] + plan.value == plan.value;
    }
  }

  /** The step of a runner at work. */
  lemma WorkStands(s: System, id: nat, action: Action, settled: seq<Migration>, smooth: bool)
    requires id in s.runners && s.runners[id].pc.Working? && SqliteRunners.Faithful(s, id)
    requires smooth ==> action in {Read, Begin, Probe, Exec, Record, Commit}
    ensures var pc := s.runners[id].pc;
      id in Do(s, Act(id, action)).runners &&
      Stands(Do(s, Act(id, action)).runners[id], Some(Yes(settled + [pc.m] + pc.rest)),
             settled + SettledBy(s, Act(id, action), id), smooth)
  {
    var r := s.runners[id];
    var t := Do(s, Act(id, action));
    if Settled(s, Act(id, action), id).Some? {
      assert t.runners[id].pc == Next(r.pc.rest);
      NextStands(settled + [r.pc.m], r.pc.rest, t.runners[id], smooth);
    } else {
      assert settled + [] == settled;
      var plan := settled + [r.pc.m] + r.pc.rest;
      assert plan[|settled|] == r.pc.m;
    }
  }

  lemma ActorStands(s: System, id: nat, action: Action, plan: Reading, settled: seq<Migration>, smooth: bool)
    requires RunnersHold(s) && id in s.runners && Stands(s.runners[id], plan, settled, smooth)
    requires smooth ==> action in {Read, Begin, Probe, Exec, Record, Commit}
    ensures var step := Act(id, action);
      id in Do(s, step).runners &&
      Stands(Do(s, step).runners[id], PlanAfter(s, step, id, plan), settled + SettledBy(s, step, id), smooth)
  {
    assert settled + [] == settled;
    match s.runners[id].pc
    case Ready =>
      if action.Read? {
        ReadingStands(s, id);
      }
    case Working(_, _, _) =>
      assert SqliteRunners.Faithful(s, id);
      WorkStands(s, id, action, settled, smooth);
    case _ =>
  }

  lemma StepStands(s: System, step: Step, id: nat, plan: Reading, settled: seq<Migration>, smooth: bool)
    requires RunnersHold(s) && id in s.runners && Stands(s.runners[id], plan, settled, smooth)
    requires smooth && step.Act? && step.id == id ==> step.action in {Read, Begin, Probe, Exec, Record, Commit}
    ensures id in Do(s, step).runners
    ensures Stands(Do(s, step).runners[id], PlanAfter(s, step, id, plan), settled + SettledBy(s, step, id), smooth)
  {
    if step.Act? && step.id == id {
      ActorStands(s, id, step.action, plan, settled, smooth);
    } else {
      OtherStands(s, step, id);
      assert settled + [] == settled;
    }
  }

  lemma NewcomerStands(s: System, step: Step, id: nat, smooth: bool)
    requires id !in s.runners && id in Do(s, step).runners
    ensures Stands(Do(s, step).runners[id], PlanAfter(s, step, id, None), [] + SettledBy(s, step, id), smooth)
  {
  }

  ghost predicate StandsIn(start: History, steps: seq<Step>, id: nat, smooth: bool) {
    var s := Run(Initial(start), steps);
    id in s.runners ==> Stands(s.runners[id], PlanRead(start, steps, id), SettledIn(start, steps, id), smooth)
  }

  lemma NextStandsIn(start: History, steps: seq<Step>, id: nat, smooth: bool)
    requires steps != [] && (smooth ==> Smooth(steps, id)) && StandsIn(start, steps[..|steps| - 1], id, smooth)
    ensures StandsIn(start, steps, id, smooth)
  {
    var before, last := steps[..|steps| - 1], steps[|steps| - 1];
    var s := Run(Initial(start), before);
    if id in s.runners {
      RunHolds(start, before);
      StepStands(s, last, id, PlanRead(start, before, id), SettledIn(start, before, id), smooth);
    } else if id in Do(s, last).runners {
      NothingYet(start, before, id);
      NewcomerStands(s, last, id, smooth);
    }
  }

  lemma {:induction false} RunStands(start: History, steps: seq<Step>, id: nat, smooth: bool)
    requires smooth ==> Smooth(steps, id)
    ensures StandsIn(start, steps, id, smooth)
    decreases |steps|
  {
    if steps == [] {
    } else {
      RunStands(start, steps[..|steps| - 1], id, smooth);
      NextStandsIn(start, steps, id, smooth);
    }
  }

  lemma OtherStands(s: System, step: Step, id: nat)
    requires RunnersHold(s) && id in s.runners && !(step.Act? && step.id == id)
    ensures id in Do(s, step).runners && Do(s, step).runners[id] == s.runners[id]
  {
    if step.id != id {
      OthersHold(s, step, id);
    }
  }

  /** In every interleaving: a run that reports success has settled every migration of the
      plan it read, in the plan's order; each it committed itself, or found, under the lock,
      already applied (for a Down: already gone). */
  lemma SuccessSettlesThePlan(start: History, steps: seq<Step>, id: nat)
    requires var s := Run(Initial(start), steps); id in s.runners && s.runners[id].pc == Stopped(true)
    ensures PlanRead(start, steps, id) == Some(Yes(SettledIn(start, steps, id)))
  {
    RunStands(start, steps, id, false);
  }

  /** In every interleaving: a run all of whose statements succeed never reports a failure,
      whatever other runs do, unless it refused the history it read or comes to a migration
      without the script it needs; in particular not because others were faster. */
  lemma OthersNeverFailARun(start: History, steps: seq<Step>, id: nat)
    requires Smooth(steps, id)
    requires var s := Run(Initial(start), steps); id in s.runners && s.runners[id].pc == Stopped(false)
    ensures PlanRead(start, steps, id).Some?
    ensures var plan := PlanRead(start, steps, id).value;
      plan.No? || LacksScript(plan.value, Run(Initial(start), steps).runners[id].kind.Down?)
  {
    RunStands(start, steps, id, true);
  }
}
