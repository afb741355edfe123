/** Concurrent runs of cli/migrationx over one sqlite history table. There is no run-long
    lock: each run reads the history unlocked, decides its plan from that snapshot, and
    takes the write lock once per migration, inside whose transaction it looks again.
    Every database statement is one atomic step and any step may fail or be the last. */
module SqliteRunners {
  import opened Common
  import opened Loader
  import opened Plans
  import opened Effects

  /** Where a runner stands in the migration it is on. Probed and Written hold what the
      open transaction has executed so far; nobody else sees it before COMMIT. */
  datatype Phase = Between | Begun | Probed(ran: seq<string>) | Written(ran: seq<string>)

  datatype Pc =
    | Ready
    | Working(m: Migration, rest: seq<Migration>, phase: Phase)
    | Stranded
    | Stopped(ok: bool)

  datatype Runner = Runner(ms: seq<Migration>, kind: Kind, pc: Pc)

  datatype System = System(history: History, log: seq<Effect>, runners: map<nat, Runner>, writer: Option<nat>)

  /** CommitLost is a COMMIT that took effect although the runner is told it failed.
      CommitFails is one that did not: execTx rolls nothing back after it, so the run is
      over (Stranded) while its connection still has the transaction open, until somebody
      closes the connection (Drop). */
  datatype Action = Read | Begin | Probe | Exec | Record | Commit | CommitLost | CommitFails | Fail | Drop

  datatype Step = Start(id: nat, ms: seq<Migration>, kind: Kind) | Act(id: nat, action: Action)

  function Initial(history: History): System { System(history, [], map[], None) }

  // ---------------------------------------------------------------- one step

  function Set(s: System, id: nat, pc: Pc): System
    requires id in s.runners
  {
    s.(runners := s.runners[id := s.runners[id].(pc := pc)])
  }

  function Next(todo: seq<Migration>): Pc {
    if todo == [] then Stopped(true) else Working(todo[0], todo[1..], Between)
  }

  function Publish(s: System, id: nat, e: Effect, pc: Pc): System
    requires id in s.runners
  {
    var t := Set(s, id, pc);
    System(Apply(s.history, e), s.log + [e], t.runners, None)
  }

  /** execTx and rollback, one statement at a time; an action the runner is not at
      leaves everything as it is, and so does a no-transaction script, which this
      model does not run. */
  function Advance(s: System, id: nat, m: Migration, rest: seq<Migration>, phase: Phase, action: Action): System
    requires id in s.runners
  {
    var down := s.runners[id].kind.Down?;
    match phase
    case Between =>
      if !action.Begin? || !Transactional(m, down) then s
      else if StatementsOf(m, down).None? then Set(s, id, Stopped(false))
      else if s.writer.Some? then s
      else Set(s, id, Working(m, rest, Begun)).(writer := Some(id))
    case Begun =>
      if !action.Probe? then s
      else if (m.version in s.history) != down then Set(s, id, Next(rest)).(writer := None)
      else Set(s, id, Working(m, rest, Probed([])))
    case Probed(ran) =>
      (match StatementsOf(m, down)
       case None => s
       case Some(script) =>
         if action.Exec? && |ran| < |script| then Set(s, id, Working(m, rest, Probed(ran + [script[|ran|]])))
         else if action.Record? && |ran| >= |script| then Set(s, id, Working(m, rest, Written(ran)))
         else s)
    case Written(ran) =>
      if action.Commit? then Publish(s, id, Done(m, down, ran), Next(rest))
      else if action.CommitLost? then Publish(s, id, Done(m, down, ran), Stopped(false))
      else if action.CommitFails? then Set(s, id, Stranded)
      else s
  }

  /** Failing anywhere but at COMMIT releases the lock: the code rolls back, and sqlite
      does so for a crash and when the connection is closed. */
  function Fails(s: System, id: nat, open: bool): System
    requires id in s.runners
  {
    Set(s, id, Stopped(false)).(writer := if open then None else s.writer)
  }

  function Do(s: System, step: Step): System {
    match step
    case Start(id, ms, kind) =>
      if id in s.runners then s else s.(runners := s.runners[id := Runner(ms, kind, Ready)])
    case Act(id, action) =>
      if id !in s.runners then s
      else
        match s.runners[id].pc
        case Stopped(_) => s
        case Stranded => if action.Drop? then Fails(s, id, true) else s
        case Ready =>
          if action.Fail? then Fails(s, id, false)
          else if action.Read? then
            (match Plan(s.runners[id].ms, s.runners[id].kind, s.history)
             case No(_) => Set(s, id, Stopped(false))
             case Yes(todo) => Set(s, id, Next(todo)))
          else s
        case Working(m, rest, phase) =>
          if action.Fail? then Fails(s, id, !phase.Between?) else Advance(s, id, m, rest, phase, action)
  }

  function Run(s: System, steps: seq<Step>): System
    decreases |steps|
  {
    if steps == [] then s else Do(Run(s, steps[..|steps| - 1]), steps[|steps| - 1])
  }

  // ---------------------------------------------------------------- what every step keeps

  predicate InTransaction(pc: Pc) { pc.Stranded? || (pc.Working? && !pc.phase.Between?) }

  /** The lock is held by exactly the runner inside a transaction. */
  ghost predicate Locked(s: System, id: nat)
    requires id in s.runners
  {
    s.writer == Some(id) <==> InTransaction(s.runners[id].pc)
  }

  /** From the probe on, the history still answers as it did, and the transaction has
      run a prefix of the script: all of it once the history write is made. */
  ghost predicate Faithful(s: System, id: nat)
    requires id in s.runners
  {
    var r := s.runners[id];
    match r.pc
    case Working(m, rest, Probed(ran)) =>
      && (m.version in s.history <==> r.kind.Down?) && Transactional(m, r.kind.Down?)
      && StatementsOf(m, r.kind.Down?).Some? && ran <= StatementsOf(m, r.kind.Down?).value
    case Working(m, rest, Written(ran)) =>
      && (m.version in s.history <==> r.kind.Down?) && Transactional(m, r.kind.Down?)
      && StatementsOf(m, r.kind.Down?) == Some(ran)
    case Working(m, rest, Begun) => StatementsOf(m, r.kind.Down?).Some? && Transactional(m, r.kind.Down?)
    case _ => true
  }

  /** What is left to do comes from the runner's own files. */
  ghost predicate Own(r: Runner) {
    r.pc.Working? ==> r.pc.m in r.ms && forall i :: 0 <= i < |r.pc.rest| ==> r.pc.rest[i] in r.ms
  }

  /** An effect some runner's transactional file accounts for, script and row in full. */
  ghost predicate FromFile(s: System, e: Effect) {
    exists id, i ::
      id in s.runners && 0 <= i < |s.runners[id].ms| && IsEffectOf(e, s.runners[id].ms[i])
      && Transactional(s.runners[id].ms[i], e.down)
  }

  ghost predicate InStep(start: History, s: System, v: int) {
    RowAfter(start, s.log, |s.log|, v) == if v in s.history then Some(s.history[v]) else None
  }

  ghost predicate RunnersHold(s: System) {
    && (forall id :: id in s.runners ==> Locked(s, id) && Faithful(s, id) && Own(s.runners[id]))
    && (s.writer.Some? ==> s.writer.value in s.runners)
  }

  ghost predicate LogHolds(start: History, s: System) {
    && (forall i :: 0 <= i < |s.log| ==> InTurn(start, s.log, i))
    && (forall v :: InStep(start, s, v))
  }

  ghost predicate FilesHold(s: System) {
    forall i :: 0 <= i < |s.log| ==> FromFile(s, s.log[i])
  }

  lemma PublishKeepsLog(start: History, s: System, id: nat, e: Effect, pc: Pc)
    requires LogHolds(start, s) && id in s.runners
    requires e.version in s.history <==> e.down
    ensures LogHolds(start, Publish(s, id, e, pc))
  {
    var t := Publish(s, id, e, pc);
    var n := |s.log|;
    forall i | 0 <= i < |t.log| ensures InTurn(start, t.log, i) {
      StandingOfPrefix(start, s.log, e, i, t.log[i].version);
      if i == n {
        StandingIsARow(start, s.log, n, e.version);
        assert InStep(start, s, e.version);
      } else {
        assert InTurn(start, s.log, i);
      }
    }
    forall v ensures InStep(start, t, v) {
      assert InStep(start, s, v);
      StandingOfPrefix(start, s.log, e, n, v);
    }
  }

  /** The step is a COMMIT that reaches the database. */
  predicate Commits(s: System, step: Step) {
    && step.Act? && step.id in s.runners && s.runners[step.id].pc.Working? && s.runners[step.id].pc.phase.Written?
    && (step.action.Commit? || step.action.CommitLost?)
  }

  function Committed(r: Runner): Effect
    requires r.pc.Working? && r.pc.phase.Written?
  {
    Done(r.pc.m, r.kind.Down?, r.pc.phase.ran)
  }

  /** Only a COMMIT changes what the database holds; everything else leaves it alone. */
  lemma CommitPublishes(s: System, step: Step)
    ensures !Commits(s, step) ==> Do(s, step).history == s.history && Do(s, step).log == s.log
    ensures Commits(s, step) ==>
              Do(s, step) == Publish(s, step.id, Committed(s.runners[step.id]), Do(s, step).runners[step.id].pc)
  {
  }

  lemma DoKeepsLog(start: History, s: System, step: Step)
    requires RunnersHold(s) && LogHolds(start, s)
    ensures LogHolds(start, Do(s, step))
  {
    var t := Do(s, step);
    CommitPublishes(s, step);
    if Commits(s, step) {
      assert Faithful(s, step.id);
      PublishKeepsLog(start, s, step.id, Committed(s.runners[step.id]), t.runners[step.id].pc);
    } else {
      SameLogHolds(start, s, t);
    }
  }

  lemma SameLogHolds(start: History, s: System, t: System)
    requires LogHolds(start, s) && t.history == s.history && t.log == s.log
    ensures LogHolds(start, t)
  {
    forall v ensures InStep(start, t, v) {
      assert InStep(start, s, v);
    }
  }

  /** Another runner does not notice: while it is in a transaction nobody can commit. */
  lemma OthersHold(s: System, step: Step, id: nat)
    requires RunnersHold(s) && id in s.runners && step.id != id
    ensures id in Do(s, step).runners && Do(s, step).runners[id] == s.runners[id]
    ensures Locked(Do(s, step), id) && Faithful(Do(s, step), id)
  {
    assert Locked(s, id) && Faithful(s, id);
    CommitPublishes(s, step);
    if step.id in s.runners {
      assert Locked(s, step.id);
    }
  }

  lemma ActorLocks(s: System, step: Step)
    requires RunnersHold(s) && step.Act? && step.id in s.runners
    ensures step.id in Do(s, step).runners && Locked(Do(s, step), step.id)
  {
    assert Locked(s, step.id);
  }

  lemma ScriptGrows(script: seq<string>, ran: seq<string>)
    requires ran <= script
    ensures |ran| < |script| ==> ran + [script[|ran|]] <= script
    ensures |ran| >= |script| ==> ran == script
  {
  }

  lemma ProbedIsFaithful(s: System, step: Step)
    requires step.Act? && step.id in s.runners && s.runners[step.id].pc.Working? && s.runners[step.id].pc.phase.Probed?
    requires Faithful(s, step.id)
    ensures Faithful(Do(s, step), step.id)
  {
    var r := s.runners[step.id];
    ScriptGrows(StatementsOf(r.pc.m, r.kind.Down?).value, r.pc.phase.ran);
  }

  lemma BegunIsFaithful(s: System, step: Step)
    requires step.Act? && step.id in s.runners && s.runners[step.id].pc.Working? && s.runners[step.id].pc.phase.Begun?
    requires Faithful(s, step.id) && StatementsOf(s.runners[step.id].pc.m, s.runners[step.id].kind.Down?).Some?
    ensures Faithful(Do(s, step), step.id)
  {
  }

  lemma ActorIsFaithful(s: System, step: Step)
    requires RunnersHold(s) && step.Act? && step.id in s.runners
    ensures step.id in Do(s, step).runners && Faithful(Do(s, step), step.id)
  {
    assert Faithful(s, step.id);
    var pc := s.runners[step.id].pc;
    if pc.Working? && pc.phase.Probed? {
      ProbedIsFaithful(s, step);
    } else if pc.Working? && pc.phase.Begun? {
      BegunIsFaithful(s, step);
    }
  }

  lemma ActorOwns(s: System, step: Step)
    requires RunnersHold(s) && step.Act? && step.id in s.runners
    ensures step.id in Do(s, step).runners && Own(Do(s, step).runners[step.id])
  {
    var r := s.runners[step.id];
    assert Own(r);
    if r.pc.Ready? && Plan(r.ms, r.kind, s.history).Yes? {
      PlansAreFiles(r.ms, r.kind, s.history);
    }
  }

  lemma NewcomerHolds(s: System, id: nat, ms: seq<Migration>, kind: Kind)
    requires RunnersHold(s) && id !in s.runners
    ensures var t := Do(s, Start(id, ms, kind));
      id in t.runners && Locked(t, id) && Faithful(t, id) && Own(t.runners[id])
  {
  }

  lemma RunnerHolds(s: System, step: Step, id: nat)
    requires RunnersHold(s) && id in Do(s, step).runners
    ensures Locked(Do(s, step), id) && Faithful(Do(s, step), id) && Own(Do(s, step).runners[id])
  {
    if id != step.id {
      OthersHold(s, step, id);
    } else if step.Act? {
      ActorLocks(s, step);
      ActorIsFaithful(s, step);
      ActorOwns(s, step);
    } else if id !in s.runners {
      NewcomerHolds(s, id, step.ms, step.kind);
    }
  }

  ghost predicate SameRunner(s: System, t: System, id: nat)
    requires id in s.runners
  {
    id in t.runners && t.runners[id].ms == s.runners[id].ms && t.runners[id].kind == s.runners[id].kind
  }

  lemma SetStays(s: System, id: nat, pc: Pc, other: nat)
    requires id in s.runners && other in s.runners
    ensures SameRunner(s, Set(s, id, pc), other)
  {
  }

  lemma AdvanceStays(s: System, id: nat, m: Migration, rest: seq<Migration>, phase: Phase, action: Action, other: nat)
    requires id in s.runners && other in s.runners
    ensures SameRunner(s, Advance(s, id, m, rest, phase, action), other)
  {
    var t := Advance(s, id, m, rest, phase, action);
    SetStays(s, id, t.runners[id].pc, other);
    assert t.runners == s.runners || t.runners == Set(s, id, t.runners[id].pc).runners;
  }

  lemma RunnerStays(s: System, step: Step, id: nat)
    requires id in s.runners
    ensures SameRunner(s, Do(s, step), id)
  {
    if step.Act? && step.id in s.runners {
      var pc := s.runners[step.id].pc;
      if pc.Working? {
        AdvanceStays(s, step.id, pc.m, pc.rest, pc.phase, step.action, id);
      }
    }
  }

  lemma WriterStays(s: System, step: Step)
    ensures Do(s, step).writer in {None, s.writer} || (Do(s, step).writer == Some(step.id) && step.id in s.runners)
  {
  }

  lemma DoKeepsRunners(s: System, step: Step)
    requires RunnersHold(s)
    ensures RunnersHold(Do(s, step))
  {
    WriterStays(s, step);
    if Do(s, step).writer.Some? {
      RunnerStays(s, step, Do(s, step).writer.value);
    }
    forall id | id in Do(s, step).runners
      ensures Locked(Do(s, step), id) && Faithful(Do(s, step), id) && Own(Do(s, step).runners[id])
    {
      RunnerHolds(s, step, id);
    }
  }

  // ---------------------------------------------------------------- complete effects

  lemma FilesStay(s: System, step: Step, e: Effect)
    requires FromFile(s, e)
    ensures FromFile(Do(s, step), e)
  {
    var id, i :|
      id in s.runners && 0 <= i < |s.runners[id].ms| && IsEffectOf(e, s.runners[id].ms[i])
      && Transactional(s.runners[id].ms[i], e.down);
    RunnerStays(s, step, id);
    assert IsEffectOf(e, Do(s, step).runners[id].ms[i]);
  }

  lemma DoKeepsFiles(s: System, step: Step)
    requires RunnersHold(s) && FilesHold(s)
    ensures FilesHold(Do(s, step))
  {
    var t := Do(s, step);
    CommitPublishes(s, step);
    forall i | 0 <= i < |t.log| ensures FromFile(t, t.log[i]) {
      if i < |s.log| {
        assert t.log[i] == s.log[i];
      } else {
        var r := s.runners[step.id];
        assert Faithful(s, step.id) && Own(r);
        assert t.log[i] == Committed(r);
        var k :| 0 <= k < |r.ms| && r.ms[k] == r.pc.m;
        assert IsEffectOf(t.log[i], s.runners[step.id].ms[k]);
        assert FromFile(s, t.log[i]);
      }
      FilesStay(s, step, t.log[i]);
    }
  }

  // ---------------------------------------------------------------- every run

  lemma {:induction false} RunHolds(history: History, steps: seq<Step>)
    ensures var s := Run(Initial(history), steps);
      RunnersHold(s) && LogHolds(history, s) && FilesHold(s)
    decreases |steps|
  {
    if steps == [] {
      forall v ensures InStep(history, Initial(history), v) {}
    } else {
      var before := steps[..|steps| - 1];
      RunHolds(history, before);
      var s := Run(Initial(history), before);
      DoKeepsRunners(s, steps[|steps| - 1]);
      DoKeepsLog(history, s, steps[|steps| - 1]);
      DoKeepsFiles(s, steps[|steps| - 1]);
    }
  }

  /** For every interleaving of any number of Up and Down runners, with whatever file
      sets they were started, from whatever snapshots they planned, and failing wherever
      they fail: the committed effects on a version strictly alternate between applying
      and rolling back, and its history row exists exactly when the last one applied it
      (or, where nothing was committed, exactly when it was there at the start). */
  lemma EffectsAlternate(start: History, steps: seq<Step>, i: int, j: int)
    requires Consecutive(Run(Initial(start), steps).log, i, j)
    ensures var log := Run(Initial(start), steps).log; log[i].down != log[j].down
  {
    RunHolds(start, steps);
    var log := Run(Initial(start), steps).log;
    StandingSince(start, log, i, j);
    assert InTurn(start, log, j);
  }

  /** The first effect on a version applies it exactly when it was not applied before. */
  lemma FirstEffect(start: History, steps: seq<Step>, i: int)
    requires 0 <= i < |Run(Initial(start), steps).log|
    requires var log := Run(Initial(start), steps).log; forall k :: 0 <= k < i ==> log[k].version != log[i].version
    ensures var log := Run(Initial(start), steps).log; log[i].down <==> log[i].version in start
  {
    RunHolds(start, steps);
    var log := Run(Initial(start), steps).log;
    NothingStanding(start, log, i, log[i].version);
    assert InTurn(start, log, i);
  }

  /** Effect i is the last one on version v. */
  ghost predicate LastOf(log: seq<Effect>, i: nat, v: int)
    requires i < |log|
  {
    log[i].version == v && forall k :: i < k < |log| ==> log[k].version != v
  }

  lemma RowIsTheLastEffect(start: History, steps: seq<Step>, v: int)
    ensures var s := Run(Initial(start), steps);
      && (forall i :: 0 <= i < |s.log| && LastOf(s.log, i, v) ==>
            (v in s.history <==> !s.log[i].down) && (v in s.history ==> s.history[v] == s.log[i].row))
      && ((forall k :: 0 <= k < |s.log| ==> s.log[k].version != v) ==>
            (v in s.history <==> v in start) && (v in s.history ==> s.history[v] == start[v]))
  {
    RunHolds(start, steps);
    var s := Run(Initial(start), steps);
    assert InStep(start, s, v);
    forall i | 0 <= i < |s.log| && LastOf(s.log, i, v)
      ensures RowAfter(start, s.log, |s.log|, v) == if s.log[i].down then None else Some(s.log[i].row)
    {
      RowSince(start, s.log, i, |s.log|);
    }
    if forall k :: 0 <= k < |s.log| ==> s.log[k].version != v {
      NothingStanding(start, s.log, |s.log|, v);
    }
  }

  /** Whatever was committed is one file's whole script with that file's row: no
      transaction publishes part of a script, and none publishes one script twice. */
  lemma EffectsAreWholeScripts(start: History, steps: seq<Step>)
    ensures FilesHold(Run(Initial(start), steps))
  {
    RunHolds(start, steps);
  }

  // ---------------------------------------------------------------- a COMMIT that fails

  lemma {:induction false} RunJoins(s: System, before: seq<Step>, more: seq<Step>)
    ensures Run(s, before + more) == Run(Run(s, before), more)
    decreases |more|
  {
    if more == [] {
      assert before + more == before;
    } else {
      RunJoins(s, before, more[..|more| - 1]);
      assert (before + more)[..|before + more| - 1] == before + more[..|more| - 1];
    }
  }

  ghost predicate Without(steps: seq<Step>, step: Step) { forall i :: 0 <= i < |steps| ==> steps[i] != step }

  lemma StrandedStays(s: System, step: Step, id: nat)
    requires RunnersHold(s) && id in s.runners && s.runners[id].pc.Stranded? && step != Act(id, Drop)
    ensures var t := Do(s, step);
      id in t.runners && t.runners[id].pc.Stranded? && t.history == s.history && t.log == s.log
  {
    assert Locked(s, id);
    if step.Act? && step.id in s.runners && step.id != id {
      assert Locked(s, step.id);
      OthersHold(s, step, id);
    }
  }

  /** From a failed COMMIT on the lock stays taken and nothing is committed, by whatever
      runners, until the connection with the open transaction is closed. */
  lemma {:induction false} StrandedKeepsTheLock(start: History, before: seq<Step>, more: seq<Step>, id: nat)
    requires var s := Run(Initial(start), before); id in s.runners && s.runners[id].pc.Stranded?
    requires Without(more, Act(id, Drop))
    ensures var s, t := Run(Initial(start), before), Run(Initial(start), before + more);
      && id in t.runners && t.runners[id].pc.Stranded? && t.writer == Some(id)
      && t.history == s.history && t.log == s.log
    decreases |more|
  {
    RunHolds(start, before + more);
    RunJoins(Initial(start), before, more);
    var t := Run(Initial(start), before + more);
    if more == [] {
    } else {
      var shorter := more[..|more| - 1];
      StrandedKeepsTheLock(start, before, shorter, id);
      RunHolds(start, before + shorter);
      RunJoins(Initial(start), before, shorter);
      StrandedStays(Run(Initial(start), before + shorter), more[|more| - 1], id);
    }
    assert Locked(t, id);
  }

  /** A run is over when it has nothing left to execute. */
  predicate Over(pc: Pc) { pc.Stopped? || pc.Stranded? }

  lemma OnlyCommitStrands(s: System, step: Step, id: nat)
    requires id in Do(s, step).runners && Do(s, step).runners[id].pc.Stranded?
    ensures step == Act(id, CommitFails) || (id in s.runners && s.runners[id].pc.Stranded?)
  {
    if step.Act? && step.id in s.runners && s.runners[step.id].pc.Working? {
      var pc := s.runners[step.id].pc;
      AdvanceStrands(s, step.id, pc.m, pc.rest, pc.phase, step.action);
    }
  }

  lemma AdvanceStrands(s: System, id: nat, m: Migration, rest: seq<Migration>, phase: Phase, action: Action)
    requires id in s.runners && s.runners[id].pc.Working?
    ensures var t := Advance(s, id, m, rest, phase, action);
      && t.runners == s.runners[id := s.runners[id].(pc := t.runners[id].pc)]
      && (t.runners[id].pc.Stranded? ==> phase.Written? && action.CommitFails?)
  {
    assert s.runners == s.runners[id := s.runners[id]];
  }

  lemma {:induction false} StrandedByCommit(start: History, steps: seq<Step>, id: nat)
    requires var s := Run(Initial(start), steps); id in s.runners && s.runners[id].pc.Stranded?
    ensures !Without(steps, Act(id, CommitFails))
    decreases |steps|
  {
    if steps == [] {
    } else {
      var before, last := steps[..|steps| - 1], steps[|steps| - 1];
      OnlyCommitStrands(Run(Initial(start), before), last, id);
      if last != Act(id, CommitFails) {
        StrandedByCommit(start, before, id);
        var i :| 0 <= i < |before| && before[i] == Act(id, CommitFails);
        assert steps[i] == Act(id, CommitFails);
      } else {
        assert steps[|steps| - 1] == Act(id, CommitFails);
      }
    }
  }

  /** Where a run is over and holds the lock all the same, its COMMIT had failed: on every
      other path execTx leaves no transaction open. */
  lemma OnlyAFailedCommitStrands(start: History, steps: seq<Step>, id: nat)
    requires var s := Run(Initial(start), steps); id in s.runners && Over(s.runners[id].pc) && s.writer == Some(id)
    ensures !Without(steps, Act(id, CommitFails))
  {
    RunHolds(start, steps);
    assert Locked(Run(Initial(start), steps), id);
    StrandedByCommit(start, steps, id);
  }

  /** The run is over after the step, and its transaction open. */
  ghost predicate Strands(s: System, step: Step, id: nat) {
    var t := Do(s, step);
    id in t.runners && Over(t.runners[id].pc) && t.writer == Some(id)
  }

  /** In every reachable state: a run can end in its next step with its transaction open if
      and only if that step is its COMMIT. */
  lemma StrandsExactlyAtCommit(start: History, steps: seq<Step>, id: nat)
    requires var s := Run(Initial(start), steps); id in s.runners && !Over(s.runners[id].pc)
    ensures var s := Run(Initial(start), steps);
      (exists step :: Strands(s, step, id)) <==> s.runners[id].pc.Working? && s.runners[id].pc.phase.Written?
  {
    RunHolds(start, steps);
    var s := Run(Initial(start), steps);
    if s.runners[id].pc.Working? && s.runners[id].pc.phase.Written? {
      assert Locked(s, id);
      assert Strands(s, Act(id, CommitFails), id);
    } else {
      forall step ensures !Strands(s, step, id) {
        DoKeepsRunners(s, step);
        var t := Do(s, step);
        if id in t.runners && Over(t.runners[id].pc) {
          assert Locked(t, id);
          NotStranded(s, step, id);
        }
      }
    }
  }

  lemma NotStranded(s: System, step: Step, id: nat)
    requires id in s.runners && !Over(s.runners[id].pc)
    requires !(s.runners[id].pc.Working? && s.runners[id].pc.phase.Written?)
    ensures id in Do(s, step).runners && !Do(s, step).runners[id].pc.Stranded?
  {
    RunnerStays(s, step, id);
    if Do(s, step).runners[id].pc.Stranded? {
      OnlyCommitStrands(s, step, id);
    }
  }
}
