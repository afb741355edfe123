/** Concurrent runs over one file set on sqlite, each planning from a stale read: which
    mixes of Up and Down keep the history downward closed at every moment. */
module ClosedRuns {
  import opened Common
  import opened Loader
  import opened Plans
  import opened Effects
  import opened SqliteRunners

  // ---------------------------------------------------------------- which runs stay apart

  /** The oldest version a Down may roll back; every version is positive. */
  function Floor(target: int): int { if target < 0 then 1 else target + 1 }

  /** An Up and a Down that can meet: there is room for an older file the Down rolls back
      and a newer one the Up applies. An Up target of 0 or less means no bound. */
  predicate Meet(up: Kind, down: Kind) {
    up.Up? && down.Down? && (up.target <= 0 || Floor(down.target) < up.target)
  }

  ghost predicate AnyMeet(kinds: set<Kind>) { exists up, down :: up in kinds && down in kinds && Meet(up, down) }

  /** Every run is started over ms with one of these kinds. */
  ghost predicate Starts(ms: seq<Migration>, kinds: set<Kind>, steps: seq<Step>) {
    forall i :: 0 <= i < |steps| && steps[i].Start? ==> steps[i].ms == ms && steps[i].kind in kinds
  }

  /** Ups stay at or below the line and Downs at or above it. */
  ghost predicate Sides(ms: seq<Migration>, line: int, kind: Kind) {
    match kind
    case Up(_, _, target) => 0 < target <= line || forall m :: m in ms ==> m.version <= line
    case Down(target) => line <= Floor(target)
  }

  ghost predicate AllSides(ms: seq<Migration>, line: int, steps: seq<Step>) {
    forall i :: 0 <= i < |steps| && steps[i].Start? ==> steps[i].ms == ms && Sides(ms, line, steps[i].kind)
  }

  // ---------------------------------------------------------------- what is left to do

  /** Whatever is older than the i-th migration to apply is applied, or comes before it. */
  ghost predicate Prepared(ms: seq<Migration>, history: History, todo: seq<Migration>) {
    forall i, f :: 0 <= i < |todo| && f in ms && f.version < todo[i].version ==> f.version in history || f in todo[..i]
  }

  /** Whatever is newer than the i-th migration to roll back is gone, or comes before it. */
  ghost predicate Stripped(ms: seq<Migration>, history: History, todo: seq<Migration>) {
    forall i, f :: 0 <= i < |todo| && f in ms && todo[i].version < f.version && f.version in history ==> f in todo[..i]
  }

  ghost predicate Safe(ms: seq<Migration>, line: int, history: History, down: bool, todo: seq<Migration>) {
    if down then Stripped(ms, history, todo) && forall i :: 0 <= i < |todo| ==> line <= todo[i].version
    else Prepared(ms, history, todo) && forall i :: 0 <= i < |todo| ==> todo[i].version <= line
  }

  ghost predicate RunnerSafe(ms: seq<Migration>, line: int, history: History, r: Runner) {
    && r.ms == ms && Sides(ms, line, r.kind)
    && (r.pc.Working? ==> Safe(ms, line, history, r.kind.Down?, [r.pc.m] + r.pc.rest))
  }

  ghost predicate AllSafe(ms: seq<Migration>, line: int, s: System) {
    forall id :: id in s.runners ==> RunnerSafe(ms, line, s.history, s.runners[id])
  }

  lemma PreparedNext(ms: seq<Migration>, history: History, m: Migration, rest: seq<Migration>)
    requires Prepared(ms, history, [m] + rest) && m.version in history
    ensures Prepared(ms, history, rest)
  {
    var todo := [m] + rest;
    forall i, f | 0 <= i < |rest| && f in ms && f.version < rest[i].version
      ensures f.version in history || f in rest[..i]
    {
      assert todo[i + 1] == rest[i];
      assert todo[..i + 1] == [m] + rest[..i];
    }
  }

  lemma StrippedNext(ms: seq<Migration>, history: History, m: Migration, rest: seq<Migration>)
    requires Stripped(ms, history, [m] + rest) && m.version !in history
    ensures Stripped(ms, history, rest)
  {
    var todo := [m] + rest;
    forall i, f | 0 <= i < |rest| && f in ms && rest[i].version < f.version && f.version in history
      ensures f in rest[..i]
    {
      assert todo[i + 1] == rest[i];
      assert todo[..i + 1] == [m] + rest[..i];
    }
  }

  lemma SafeNext(ms: seq<Migration>, line: int, history: History, down: bool, m: Migration, rest: seq<Migration>)
    requires Safe(ms, line, history, down, [m] + rest) && (m.version in history) != down
    ensures Safe(ms, line, history, down, rest)
  {
    var todo := [m] + rest;
    forall i | 0 <= i < |rest| ensures todo[i + 1] == rest[i] {}
    if down {
      StrippedNext(ms, history, m, rest);
    } else {
      PreparedNext(ms, history, m, rest);
    }
  }

  /** A plan may be followed as it was made as long as the history changes on the other
      runners' side of the line: rows come at or below it and go at or above it. */
  ghost predicate AcrossTheLine(line: int, before: History, after: History) {
    && (forall v :: v in after && v !in before ==> v <= line)
    && (forall v :: v in before && v !in after ==> line <= v)
  }

  lemma SafeAcross(ms: seq<Migration>, line: int, before: History, after: History, down: bool, todo: seq<Migration>)
    requires Safe(ms, line, before, down, todo) && AcrossTheLine(line, before, after)
    ensures Safe(ms, line, after, down, todo)
  {
  }

  lemma UpPlanIsSafe(ms: seq<Migration>, line: int, history: History, kind: Kind)
    requires ValidFiles(ms) && kind.Up? && Sides(ms, line, kind) && Plan(ms, kind, history).Yes?
    ensures Safe(ms, line, history, false, Plan(ms, kind, history).value)
  {
    var todo := Plan(ms, kind, history).value;
    UpPlanIsClosed(ms, history, kind.allow, kind.limit, kind.target);
    UpPlanIsPrefix(ms, history, kind.allow, kind.limit, kind.target);
    forall i | 0 <= i < |todo| ensures todo[i].version <= line {
      TodoMembers(ms, history.Keys, kind.target, todo[i]);
    }
  }

  lemma DownPlanIsSafe(ms: seq<Migration>, line: int, history: History, kind: Kind)
    requires ValidFiles(ms) && kind.Down? && Sides(ms, line, kind) && Plan(ms, kind, history).Yes?
    ensures Safe(ms, line, history, true, Plan(ms, kind, history).value)
  {
    var todo := Plan(ms, kind, history).value;
    var all := Rollbacks(ms, history.Keys, kind.target);
    RollbacksDescend(ms, history.Keys, kind.target);
    forall i | 0 <= i < |todo| ensures todo[i] == all[i] && line <= todo[i].version {
      assert all[i] in all;
      RollbackMembers(ms, history.Keys, kind.target, all[i]);
      var k :| 0 <= k < |ms| && ms[k] == all[i];
    }
    forall i, f | 0 <= i < |todo| && f in ms && todo[i].version < f.version && f.version in history
      ensures f in todo[..i]
    {
      assert all[i] in all;
      RollbackMembers(ms, history.Keys, kind.target, all[i]);
      RollbackMembers(ms, history.Keys, kind.target, f);
      var j :| 0 <= j < |all| && all[j] == f;
      assert j < i;
      assert todo[..i][j] == f;
    }
  }

  lemma PlanIsSafe(ms: seq<Migration>, line: int, history: History, kind: Kind)
    requires ValidFiles(ms) && Sides(ms, line, kind) && Plan(ms, kind, history).Yes?
    ensures Safe(ms, line, history, kind.Down?, Plan(ms, kind, history).value)
  {
    if kind.Up? {
      UpPlanIsSafe(ms, line, history, kind);
    } else {
      DownPlanIsSafe(ms, line, history, kind);
    }
  }

  // ---------------------------------------------------------------- every step keeps it

  lemma NextSafe(ms: seq<Migration>, line: int, history: History, r: Runner, todo: seq<Migration>)
    requires r.ms == ms && Sides(ms, line, r.kind) && r.pc == Next(todo)
    requires Safe(ms, line, history, r.kind.Down?, todo)
    ensures RunnerSafe(ms, line, history, r)
  {
    if todo != [] {
      assert [todo[0]] + todo[1..] == todo;
    }
  }

  /** A runner that has not finished with a migration is still on it. */
  lemma WorkingOrStopped(s: System, step: Step)
    requires step.Act? && step.id in s.runners && s.runners[step.id].pc.Working?
    requires SqliteRunners.Faithful(s, step.id)
    ensures step.id in Do(s, step).runners
    ensures var pc, pc' := s.runners[step.id].pc, Do(s, step).runners[step.id].pc;
      || (pc'.Working? && pc'.m == pc.m && pc'.rest == pc.rest)
      || pc' == Stopped(false) || pc'.Stranded?
      || (pc' == Next(pc.rest) && (pc.m.version in Do(s, step).history) != s.runners[step.id].kind.Down?)
  {
  }

  /** A commit adds the oldest missing row, or takes the newest away. */
  lemma CommitCloses(ms: seq<Migration>, line: int, s: System, step: Step)
    requires RunnersHold(s) && AllSafe(ms, line, s) && Closed(ms, s.history)
    ensures AcrossTheLine(line, s.history, Do(s, step).history) && Closed(ms, Do(s, step).history)
  {
    CommitPublishes(s, step);
    if Commits(s, step) {
      var r := s.runners[step.id];
      assert RunnerSafe(ms, line, s.history, r);
      var todo := [r.pc.m] + r.pc.rest;
      assert todo[0] == r.pc.m && todo[..0] == [];
    }
  }

  lemma ActorSafe(ms: seq<Migration>, line: int, s: System, step: Step)
    requires ValidFiles(ms) && RunnersHold(s) && AllSafe(ms, line, s)
    requires step.Act? && step.id in s.runners && AcrossTheLine(line, s.history, Do(s, step).history)
    ensures step.id in Do(s, step).runners
    ensures RunnerSafe(ms, line, Do(s, step).history, Do(s, step).runners[step.id])
  {
    var t := Do(s, step);
    RunnerStays(s, step, step.id);
    var r, r' := s.runners[step.id], t.runners[step.id];
    assert RunnerSafe(ms, line, s.history, r) && SqliteRunners.Faithful(s, step.id);
    match r.pc
    case Stopped(_) =>
    case Stranded =>
    case Ready =>
      if r'.pc.Working? {
        PlanIsSafe(ms, line, s.history, r.kind);
        NextSafe(ms, line, s.history, r', Plan(r.ms, r.kind, s.history).value);
      }
    case Working(m, rest, phase) =>
      SafeAcross(ms, line, s.history, t.history, r.kind.Down?, [m] + rest);
      WorkingOrStopped(s, step);
      if r'.pc == Next(rest) && (m.version in t.history) != r.kind.Down? {
        SafeNext(ms, line, t.history, r.kind.Down?, m, rest);
        NextSafe(ms, line, t.history, r', rest);
      }
  }

  /** A runner that does not move keeps a plan that is still safe. */
  lemma OthersSafe(ms: seq<Migration>, line: int, s: System, step: Step, id: nat)
    requires RunnersHold(s) && AllSafe(ms, line, s) && id in s.runners && !(step.Act? && id == step.id)
    requires AcrossTheLine(line, s.history, Do(s, step).history)
    ensures id in Do(s, step).runners && RunnerSafe(ms, line, Do(s, step).history, Do(s, step).runners[id])
  {
    var r := s.runners[id];
    assert RunnerSafe(ms, line, s.history, r);
    if id != step.id {
      OthersHold(s, step, id);
    }
    if r.pc.Working? {
      SafeAcross(ms, line, s.history, Do(s, step).history, r.kind.Down?, [r.pc.m] + r.pc.rest);
    }
  }

  lemma NewcomerSafe(ms: seq<Migration>, line: int, s: System, step: Step)
    requires step.Start? && step.ms == ms && Sides(ms, line, step.kind) && step.id !in s.runners
    ensures step.id in Do(s, step).runners && RunnerSafe(ms, line, Do(s, step).history, Do(s, step).runners[step.id])
  {
  }

  lemma NobodyElseJoins(s: System, step: Step, id: nat)
    requires id in Do(s, step).runners
    ensures id in s.runners || (step.Start? && id == step.id)
  {
  }

  lemma RunnerStaysSafe(ms: seq<Migration>, line: int, s: System, step: Step, id: nat)
    requires ValidFiles(ms) && RunnersHold(s) && AllSafe(ms, line, s)
    requires step.Start? ==> step.ms == ms && Sides(ms, line, step.kind)
    requires AcrossTheLine(line, s.history, Do(s, step).history) && id in Do(s, step).runners
    ensures RunnerSafe(ms, line, Do(s, step).history, Do(s, step).runners[id])
  {
    NobodyElseJoins(s, step, id);
    if id !in s.runners {
      NewcomerSafe(ms, line, s, step);
    } else if step.Act? && id == step.id {
      ActorSafe(ms, line, s, step);
    } else {
      OthersSafe(ms, line, s, step, id);
    }
  }

  lemma DoStaysSafe(ms: seq<Migration>, line: int, s: System, step: Step)
    requires ValidFiles(ms) && RunnersHold(s) && AllSafe(ms, line, s) && Closed(ms, s.history)
    requires step.Start? ==> step.ms == ms && Sides(ms, line, step.kind)
    ensures AllSafe(ms, line, Do(s, step)) && Closed(ms, Do(s, step).history)
  {
    CommitCloses(ms, line, s, step);
    forall id | id in Do(s, step).runners ensures RunnerSafe(ms, line, Do(s, step).history, Do(s, step).runners[id]) {
      RunnerStaysSafe(ms, line, s, step, id);
    }
  }

  /** Runs that keep to their sides of a line keep the history downward closed, whatever
      they interleave, skip, fail or crash at. */
  lemma {:induction false} SidedRunsStayClosed(ms: seq<Migration>, line: int, start: History, steps: seq<Step>)
    requires ValidFiles(ms) && Closed(ms, start) && AllSides(ms, line, steps)
    ensures AllSafe(ms, line, Run(Initial(start), steps)) && Closed(ms, Run(Initial(start), steps).history)
    decreases |steps|
  {
    if steps == [] {
    } else {
      var before, last := steps[..|steps| - 1], steps[|steps| - 1];
      SidedRunsStayClosed(ms, line, start, before);
      RunHolds(start, before);
      assert last == steps[|steps| - 1];
      DoStaysSafe(ms, line, Run(Initial(start), before), last);
    }
  }

  // ---------------------------------------------------------------- where to draw the line

  ghost predicate UpOnly(ms: seq<Migration>, steps: seq<Step>) {
    forall i :: 0 <= i < |steps| && steps[i].Start? ==> steps[i].ms == ms && steps[i].kind.Up?
  }

  ghost predicate DownOnly(ms: seq<Migration>, steps: seq<Step>) {
    forall i :: 0 <= i < |steps| && steps[i].Start? ==> steps[i].ms == ms && steps[i].kind.Down?
  }

  lemma NewestFile(ms: seq<Migration>) returns (line: int)
    requires ValidFiles(ms)
    ensures forall m :: m in ms ==> m.version <= line
  {
    line := if ms == [] then 0 else ms[|ms| - 1].version;
  }

  /** From a downward closed history, every state that any interleaving of concurrent
      Up, UpByOne and UpTo runners reaches is downward closed, runs that skip, fail,
      crash or stop at their limit included. */
  lemma UpRunsStayClosed(ms: seq<Migration>, start: History, steps: seq<Step>)
    requires ValidFiles(ms) && Closed(ms, start) && UpOnly(ms, steps)
    ensures Closed(ms, Run(Initial(start), steps).history)
  {
    var line := NewestFile(ms);
    SidedRunsStayClosed(ms, line, start, steps);
  }

  /** The same holds of Down and DownTo runners among themselves. */
  lemma DownRunsStayClosed(ms: seq<Migration>, start: History, steps: seq<Step>)
    requires ValidFiles(ms) && Closed(ms, start) && DownOnly(ms, steps)
    ensures Closed(ms, Run(Initial(start), steps).history)
  {
    SidedRunsStayClosed(ms, 1, start, steps);
  }

  /** So runs that only apply never make each other fail with the out-of-order refusal,
      whatever they interleave with. */
  lemma UpRunsAreInOrder(ms: seq<Migration>, start: History, steps: seq<Step>, limit: nat, target: int)
    requires ValidFiles(ms) && Closed(ms, start) && UpOnly(ms, steps)
    ensures UpPlan(ms, Run(Initial(start), steps).history, false, limit, target) != No(OutOfOrder)
  {
    UpRunsStayClosed(ms, start, steps);
    var history := Run(Initial(start), steps).history;
    if Verify(ms, history).Yes? {
      RefusedExactlyWhenOpen(ms, history, limit, target);
    }
  }

  /** The Down that reaches furthest back. */
  lemma {:induction false} FurthestDown(kinds: set<Kind>) returns (furthest: Option<Kind>)
    ensures furthest.None? ==> forall k :: k in kinds ==> k.Up?
    ensures furthest.Some? ==> furthest.value in kinds && furthest.value.Down?
    ensures furthest.Some? ==>
              forall k :: k in kinds && k.Down? ==> Floor(furthest.value.target) <= Floor(k.target)
  {
    if kinds == {} {
      furthest := None;
    } else {
      var some :| some in kinds;
      var others := kinds - {some};
      furthest := FurthestDown(others);
      assert forall k :: k in kinds ==> k == some || k in others;
      if some.Down? && (furthest.None? || Floor(some.target) < Floor(furthest.value.target)) {
        furthest := Some(some);
      }
    }
  }

  /** Kinds of which no two meet fit on two sides of a line. */
  lemma NoneMeetStaysClosed(ms: seq<Migration>, kinds: set<Kind>, start: History, steps: seq<Step>)
    requires ValidFiles(ms) && Closed(ms, start) && !AnyMeet(kinds) && Starts(ms, kinds, steps)
    ensures Closed(ms, Run(Initial(start), steps).history)
  {
    var down := FurthestDown(kinds);
    if down.None? {
      UpRunsStayClosed(ms, start, steps);
    } else {
      var line := Floor(down.value.target);
      forall k | k in kinds ensures Sides(ms, line, k) {
        assert !Meet(k, down.value);
      }
      SidedRunsStayClosed(ms, line, start, steps);
    }
  }

  // ---------------------------------------------------------------- an Up and a Down that meet

  lemma RunSnoc(s: System, steps: seq<Step>, step: Step)
    ensures Run(s, steps + [step]) == Do(Run(s, steps), step)
  {
    assert (steps + [step])[..|steps|] == steps;
  }

  /** A runner about to begin m, whose script is one statement, with the lock free and
      the history as its plan saw it. */
  ghost predicate CanFinish(s: System, id: nat, m: Migration, rest: seq<Migration>) {
    && id in s.runners && s.runners[id].pc == Working(m, rest, Between) && s.writer == None
    && Transactional(m, s.runners[id].kind.Down?)
    && StatementsOf(m, s.runners[id].kind.Down?).Some? && |StatementsOf(m, s.runners[id].kind.Down?).value| == 1
    && (m.version in s.history <==> s.runners[id].kind.Down?)
  }

  lemma Opens(s: System, id: nat, m: Migration, rest: seq<Migration>) returns (t: System)
    requires CanFinish(s, id, m, rest)
    ensures t == Do(Do(s, Act(id, Begin)), Act(id, Probe))
    ensures t == Set(s, id, Working(m, rest, Probed([]))).(writer := Some(id))
  {
    var u := Do(s, Act(id, Begin));
    assert u == Set(s, id, Working(m, rest, Begun)).(writer := Some(id));
    t := Do(u, Act(id, Probe));
    assert t.runners == s.runners[id := s.runners[id].(pc := Working(m, rest, Probed([])))];
  }

  lemma Finishes(s: System, id: nat, m: Migration, rest: seq<Migration>) returns (t: System, ran: seq<string>)
    requires CanFinish(s, id, m, rest)
    ensures t == Do(Do(Do(Do(Do(s, Act(id, Begin)), Act(id, Probe)), Act(id, Exec)), Act(id, Record)), Act(id, Commit))
    ensures t == Publish(s, id, Done(m, s.runners[id].kind.Down?, ran), Next(rest))
  {
    var u := Opens(s, id, m, rest);
    ran := [StatementsOf(m, s.runners[id].kind.Down?).value[0]];
    var v := Do(u, Act(id, Exec));
    assert [] + ran == ran;
    assert v.runners == s.runners[id := s.runners[id].(pc := Working(m, rest, Probed(ran)))];
    assert v == Set(s, id, Working(m, rest, Probed(ran))).(writer := Some(id));
    var w := Do(v, Act(id, Record));
    assert w == Set(s, id, Working(m, rest, Written(ran))).(writer := Some(id));
    t := Do(w, Act(id, Commit));
    assert t.runners == Set(s, id, Next(rest)).runners;
  }

  lemma FiveMore(s: System, steps: seq<Step>, a: Step, b: Step, c: Step, d: Step, e: Step)
    ensures Run(s, steps + [a] + [b] + [c] + [d] + [e]) == Do(Do(Do(Do(Do(Run(s, steps), a), b), c), d), e)
  {
    RunSnoc(s, steps, a);
    RunSnoc(s, steps + [a], b);
    RunSnoc(s, steps + [a] + [b], c);
    RunSnoc(s, steps + [a] + [b] + [c], d);
    RunSnoc(s, steps + [a] + [b] + [c] + [d], e);
  }

  /** The older file applied, the newer one not: the Up plans the newer, the Down the older. */
  lemma TwoPlans(a: Migration, b: Migration, start: History, up: Kind, down: Kind)
    requires up.Up? && down.Down? && start == map[a.version := RowOf(a)]
    requires Floor(down.target) == a.version < b.version && (up.target <= 0 || b.version <= up.target)
    ensures Plan([a, b], up, start) == Yes([b])
    ensures Plan([a, b], down, start) == Yes([a])
  {
    var ms, applied := [a, b], start.Keys;
    assert ms[1..] == [b] && [b][1..] == [] && ms[..1] == [a] && [a][..0] == [];
    assert ChecksumsMatch(ms, start) && ms[0].version in Versions(ms) && NoOrphans(ms, start);
    assert Pending([b], applied) == [b];
    assert Pending(ms, applied) == [b];
    assert UpTo([b], up.target) == [b];
    assert !AnyLate([b], applied);
    assert Limited([b], up.limit) == [b];
    assert a.version in start;
    assert Rollbacks([a], applied, down.target) == [a];
    assert Rollbacks(ms, applied, down.target) == [a];
    assert [a][..1] == [a];
  }

  lemma ReadsOne(s: System, id: nat, m: Migration) returns (t: System)
    requires id in s.runners && s.runners[id].pc.Ready?
        && Plan(s.runners[id].ms, s.runners[id].kind, s.history) == Yes([m])
    ensures t == Do(s, Act(id, Read)) == Set(s, id, Working(m, [], Between))
  {
    t := Do(s, Act(id, Read));
    assert [m][1..] == [];
  }

  /** An Up and a Down have both read the history before either begins. */
  lemma BothHavePlanned(a: Migration, b: Migration, start: History, up: Kind, down: Kind)
    returns (steps: seq<Step>, s: System)
    requires up.Up? && down.Down? && start == map[a.version := RowOf(a)]
    requires Floor(down.target) == a.version < b.version && (up.target <= 0 || b.version <= up.target)
    ensures s == Run(Initial(start), steps) && |steps| == 4
    ensures steps[0] == Start(0, [a, b], up) && steps[1] == Start(1, [a, b], down) && steps[2].Act? && steps[3].Act?
    ensures s.history == start && s.writer == None && 0 in s.runners && 1 in s.runners
    ensures s.runners[0] == Runner([a, b], up, Working(b, [], Between))
    ensures s.runners[1] == Runner([a, b], down, Working(a, [], Between))
  {
    var ms := [a, b];
    TwoPlans(a, b, start, up, down);
    var s0 := Initial(start);
    var s2 := Do(Do(s0, Start(0, ms, up)), Start(1, ms, down));
    assert s2.runners[0] == Runner(ms, up, Ready) && s2.runners[1] == Runner(ms, down, Ready);
    var s3 := ReadsOne(s2, 0, b);
    s := ReadsOne(s3, 1, a);
    RunSnoc(s0, [], Start(0, ms, up));
    RunSnoc(s0, [] + [Start(0, ms, up)], Start(1, ms, down));
    RunSnoc(s0, [] + [Start(0, ms, up)] + [Start(1, ms, down)], Act(0, Read));
    RunSnoc(s0, [] + [Start(0, ms, up)] + [Start(1, ms, down)] + [Act(0, Read)], Act(1, Read));
    steps := [] + [Start(0, ms, up)] + [Start(1, ms, down)] + [Act(0, Read)] + [Act(1, Read)];
  }

  /** steps goes on after before without starting another run. */
  ghost predicate OnlyActs(before: seq<Step>, steps: seq<Step>) {
    |before| <= |steps|
    && forall i :: 0 <= i < |steps| ==> if i < |before| then steps[i] == before[i] else steps[i].Act?
  }

  lemma StartsAfter(ms: seq<Migration>, kinds: set<Kind>, before: seq<Step>, steps: seq<Step>)
    requires Starts(ms, kinds, before) && OnlyActs(before, steps)
    ensures Starts(ms, kinds, steps)
  {
  }

  lemma FinishesAfter(s0: System, before: seq<Step>, id: nat, m: Migration, rest: seq<Migration>)
    returns (steps: seq<Step>, s: System, ran: seq<string>)
    requires CanFinish(Run(s0, before), id, m, rest)
    ensures s == Run(s0, steps)
    ensures s == Publish(Run(s0, before), id, Done(m, Run(s0, before).runners[id].kind.Down?, ran), Next(rest))
    ensures OnlyActs(before, steps)
  {
    s, ran := Finishes(Run(s0, before), id, m, rest);
    FiveMore(s0, before, Act(id, Begin), Act(id, Probe), Act(id, Exec), Act(id, Record), Act(id, Commit));
    steps := before + [Act(id, Begin)] + [Act(id, Probe)] + [Act(id, Exec)] + [Act(id, Record)] + [Act(id, Commit)];
  }

  /** An Up that planned before a concurrent Down leaves the newer file applied over the
      older one the Down took away, although every guard in the code did its work. */
  lemma ADownCanOpenTheHistory(a: Migration, b: Migration, up: Kind, down: Kind) returns (steps: seq<Step>)
    requires up.Up? && down.Down?
    requires Floor(down.target) == a.version < b.version && (up.target <= 0 || b.version <= up.target)
    requires a.down.Some? && !b.up.noTx && !a.down.value.noTx
    requires |b.up.statements| == 1 && |a.down.value.statements| == 1
    ensures var start := map[a.version := RowOf(a)];
      Closed([a, b], start) && !Closed([a, b], Run(Initial(start), steps).history)
    ensures Starts([a, b], {up, down}, steps)
  {
    var start := map[a.version := RowOf(a)];
    var first, s := BothHavePlanned(a, b, start, up, down);
    var middle, t, ran1 := FinishesAfter(Initial(start), first, 1, a, []);
    assert t.runners[0] == s.runners[0];
    var all, u, ran0 := FinishesAfter(Initial(start), middle, 0, b, []);
    steps := all;
    assert a in [a, b] && b in [a, b] && b.version in u.history && a.version !in u.history;
    assert Starts([a, b], {up, down}, first);
    StartsAfter([a, b], {up, down}, first, middle);
    StartsAfter([a, b], {up, down}, middle, all);
  }

  lemma MeetingKindsOpenAHistory(kinds: set<Kind>, up: Kind, down: Kind)
    returns (ms: seq<Migration>, start: History, steps: seq<Step>)
    requires up in kinds && down in kinds && Meet(up, down)
    ensures ValidFiles(ms) && Closed(ms, start) && Starts(ms, kinds, steps)
    ensures !Closed(ms, Run(Initial(start), steps).history)
  {
    var script := Scanner.Script(["x"], false);
    var a := Migration(Floor(down.target), "a", "", script, Some(script));
    var b := Migration(Floor(down.target) + 1, "b", "", script, None);
    ms, start := [a, b], map[a.version := RowOf(a)];
    steps := ADownCanOpenTheHistory(a, b, up, down);
  }

  /** Which kinds of runs may interleave: the history stays downward closed in every
      interleaving over every file set exactly when no Up among them can apply a file
      newer than one that a Down among them can roll back. Ups alone never meet, and
      neither do Downs. */
  lemma ClosedExactlyWithoutMeeting(kinds: set<Kind>)
    ensures (forall ms, start, steps :: ValidFiles(ms) && Closed(ms, start) && Starts(ms, kinds, steps) ==>
               Closed(ms, Run(Initial(start), steps).history))
            <==> !AnyMeet(kinds)
  {
    if AnyMeet(kinds) {
      var up, down :| up in kinds && down in kinds && Meet(up, down);
      var ms, start, steps := MeetingKindsOpenAHistory(kinds, up, down);
      assert ValidFiles(ms) && Closed(ms, start) && Starts(ms, kinds, steps);
    } else {
      forall ms, start, steps | ValidFiles(ms) && Closed(ms, start) && Starts(ms, kinds, steps)
        ensures Closed(ms, Run(Initial(start), steps).history)
      {
        NoneMeetStaysClosed(ms, kinds, start, steps);
      }
    }
  }
}
