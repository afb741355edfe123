/** Runs of cli/migrationx on mysql. One run at a time holds GET_LOCK. A no-transaction
    script runs statement by statement on the bare connection, framed by a dirty mark on
    its history row; any statement may fail, may take effect and still be reported as
    failed, or may be the last one before a crash, which frees the lock. */
module MysqlRuns {
  import opened Common
  import opened Loader
  import opened Plans
  import opened Effects

  /** Statements the database took in one piece on behalf of a version. */
  datatype Piece = Piece(version: int, texts: seq<string>)

  datatype Phase = Between | Probed | Marked(ran: seq<string>)

  datatype Pc = Deciding | Working(m: Migration, rest: seq<Migration>, phase: Phase)

  datatype Session = Session(ms: seq<Migration>, kind: Kind, pc: Pc)

  /** dirty: the versions whose row has the dirty column set. */
  datatype Server = Server(history: History, dirty: set<int>, trace: seq<Piece>, log: seq<Effect>,
      session: Option<Session>)

  /** What a session can meet next: the statement it waits for succeeds, takes effect but
      is reported as failed (lost), or fails without effect; a crash is a failure too. */
  datatype Outcome = Success | Lost | Failure

  datatype Step = Start(ms: seq<Migration>, kind: Kind) | Act(outcome: Outcome)

  function Initial(history: History): Server { Server(history, {}, [], [], None) }

  // ---------------------------------------------------------------- one step

  function Goes(s: Server, ses: Session, pc: Pc): Server { s.(session := Some(ses.(pc := pc))) }

  /** The run ends and its lock is released. */
  function Ends(s: Server): Server { s.(session := None) }

  function Next(s: Server, ses: Session, todo: seq<Migration>): Server {
    if todo == [] then Ends(s) else Goes(s, ses, Working(todo[0], todo[1..], Between))
  }

  /** The effect on the database is there; whether the run goes on depends on the answer. */
  function After(outcome: Outcome, lost: Server, next: Server): Server {
    if outcome.Lost? then Ends(lost) else next
  }

  /** markDirty inserts the row with the mark set; setDirty(true) sets it where a row is. */
  function Mark(s: Server, m: Migration, down: bool): Server {
    if !down then s.(history := s.history[m.version := RowOf(m)], dirty := s.dirty + {m.version})
    else if m.version in s.history then s.(dirty := s.dirty + {m.version})
    else s
  }

  /** The last write of a no-transaction script: clear the mark, or delete the row. */
  function Record(s: Server, m: Migration, down: bool, ran: seq<string>): Server {
    s.(history := if down then s.history - {m.version} else s.history,
       dirty := s.dirty - {m.version},
       log := s.log + [Done(m, down, ran)])
  }

  /** A transaction that commits: script and history write in one piece. */
  function Transact(s: Server, m: Migration, down: bool, script: seq<string>): Server {
    var e := Done(m, down, script);
    s.(history := Apply(s.history, e), dirty := if down then s.dirty - {m.version} else s.dirty,
       trace := s.trace + [Piece(m.version, script)], log := s.log + [e])
  }

  function Execute(s: Server, m: Migration, text: string): Server {
    s.(trace := s.trace + [Piece(m.version, [text])])
  }

  /** apply and rollback: execTx as one step, execRaw statement by statement. */
  function Advance(s: Server, ses: Session, m: Migration, rest: seq<Migration>, phase: Phase,
      outcome: Outcome): Server {
    var down := ses.kind.Down?;
    match StatementsOf(m, down)
    case None => Ends(s)
    case Some(script) =>
      match phase
      case Between =>
        if Transactional(m, down) then
          if (m.version in s.history) != down then (if outcome.Lost? then Ends(s) else Next(s, ses, rest))
          else
            var t := Transact(s, m, down, script);
            After(outcome, t, Next(t, ses, rest))
        else if outcome.Lost? then Ends(s)
        else if !down && m.version in s.history then Next(s, ses, rest)
        else Goes(s, ses, Working(m, rest, Probed))
      case Probed =>
        var t := Mark(s, m, down);
        After(outcome, t, Goes(t, ses, Working(m, rest, Marked([]))))
      case Marked(ran) =>
        if |ran| < |script| then
          var t := Execute(s, m, script[|ran|]);
          After(outcome, t, Goes(t, ses, Working(m, rest, Marked(ran + [script[|ran|]]))))
        else
          var t := Record(s, m, down, ran);
          After(outcome, t, Next(t, ses, rest))
  }

  /** Reading the history and the dirty rows, and deciding: verify, checkDirty, plan. */
  function Decide(s: Server, ses: Session): Server {
    match Plan(ses.ms, ses.kind, s.history)
    case No(_) => Ends(s)
    case Yes(todo) => if s.dirty != {} then Ends(s) else Next(s, ses, todo)
  }

  function Do(s: Server, step: Step): Server {
    match step
    case Start(ms, kind) => if s.session.Some? then s else s.(session := Some(Session(ms, kind, Deciding)))
    case Act(outcome) =>
      match s.session
      case None => s
      case Some(ses) =>
        if outcome.Failure? then Ends(s)
        else
          match ses.pc
          case Deciding => if outcome.Lost? then Ends(s) else Decide(s, ses)
          case Working(m, rest, phase) => Advance(s, ses, m, rest, phase, outcome)
  }

  function Run(s: Server, steps: seq<Step>): Server
    decreases |steps|
  {
    if steps == [] then s else Do(Run(s, steps[..|steps| - 1]), steps[|steps| - 1])
  }

  // ---------------------------------------------------------------- what has been executed

  /** Everything the database executed on behalf of version v, in order. */
  function Executed(trace: seq<Piece>, v: int): seq<string>
    decreases |trace|
  {
    if trace == [] then []
    else Executed(trace[..|trace| - 1], v) + if trace[|trace| - 1].version == v then trace[|trace| - 1].texts else []
  }

  /** The scripts of the finished migrations of version v, in order. */
  function Finished(log: seq<Effect>, v: int): seq<string>
    decreases |log|
  {
    if log == [] then []
    else Finished(log[..|log| - 1], v) + if log[|log| - 1].version == v then log[|log| - 1].ran else []
  }

  lemma ExecutedSnoc(trace: seq<Piece>, p: Piece, v: int)
    ensures Executed(trace + [p], v) == Executed(trace, v) + if p.version == v then p.texts else []
  {
    assert (trace + [p])[..|trace|] == trace;
  }

  lemma FinishedSnoc(log: seq<Effect>, e: Effect, v: int)
    ensures Finished(log + [e], v) == Finished(log, v) + if e.version == v then e.ran else []
  {
    assert (log + [e])[..|log|] == log;
  }

  // ---------------------------------------------------------------- what every step keeps

  function RowIn(history: History, v: int): Option<Row> { if v in history then Some(history[v]) else None }

  /** A clean version: only whole scripts have run, and the row tells which came last. */
  ghost predicate Clean(start: History, s: Server, v: int) {
    && Executed(s.trace, v) == Finished(s.log, v)
    && RowAfter(start, s.log, |s.log|, v) == RowIn(s.history, v)
  }

  ghost predicate Few(dirty: set<int>) { forall a, b :: a in dirty && b in dirty ==> a == b }

  /** What a Down still has to do is applied, each version once. */
  ghost predicate Due(history: History, kind: Kind, todo: seq<Migration>) {
    kind.Down? ==>
      && (forall i :: 0 <= i < |todo| ==> todo[i].version in history)
      && Descending(todo)
  }

  /** Between the mark and the record. */
  ghost predicate InProgress(start: History, s: Server, m: Migration, down: bool, ran: seq<string>) {
    && s.dirty == {m.version} && m.version in s.history
    && (!down ==> s.history[m.version] == RowOf(m))
    && StatementsOf(m, down).Some? && ran <= StatementsOf(m, down).value
    && Executed(s.trace, m.version) == Finished(s.log, m.version) + ran
    && (Standing(start, s.log, |s.log|, m.version) <==> down)
  }

  ghost predicate SessionHolds(start: History, s: Server) {
    match s.session
    case None => Few(s.dirty)
    case Some(ses) =>
      match ses.pc
      case Deciding => Few(s.dirty)
      case Working(m, rest, phase) =>
        && Due(s.history, ses.kind, [m] + rest)
        && match phase
           case Between => s.dirty == {}
           case Probed => s.dirty == {} && (m.version in s.history <==> ses.kind.Down?)
           case Marked(ran) => InProgress(start, s, m, ses.kind.Down?, ran)
  }

  ghost predicate Holds(start: History, s: Server) {
    && SessionHolds(start, s)
    && (forall v :: v !in s.dirty ==> Clean(start, s, v))
    && (forall i :: 0 <= i < |s.log| ==> InTurn(start, s.log, i))
  }

  ghost predicate GoodFiles(step: Step) { step.Start? ==> ValidFiles(step.ms) }

  ghost predicate SessionFiles(s: Server) { s.session.Some? ==> ValidFiles(s.session.value.ms) }

  lemma DueNext(history: History, more: History, kind: Kind, m: Migration, rest: seq<Migration>)
    requires Due(history, kind, [m] + rest) && more.Keys >= history.Keys - {m.version}
    ensures Due(more, kind, rest)
    ensures rest != [] ==> Due(more, kind, [rest[0]] + rest[1..])
  {
    var todo := [m] + rest;
    forall i | 0 <= i < |rest| && kind.Down? ensures rest[i].version in more {
      assert todo[i + 1] == rest[i] && todo[0] == m;
    }
    forall i, j | 0 <= i < j < |rest| && kind.Down? ensures rest[i].version > rest[j].version {
      assert todo[i + 1] == rest[i] && todo[j + 1] == rest[j];
    }
    if rest != [] {
      assert [rest[0]] + rest[1..] == rest;
    }
  }

  lemma PlanIsDue(ms: seq<Migration>, kind: Kind, history: History)
    requires ValidFiles(ms) && Plan(ms, kind, history).Yes?
    ensures Due(history, kind, Plan(ms, kind, history).value)
  {
    var todo := Plan(ms, kind, history).value;
    if kind.Down? {
      var all := Rollbacks(ms, history.Keys, kind.target);
      RollbacksDescend(ms, history.Keys, kind.target);
      forall i | 0 <= i < |todo| ensures todo[i].version in history {
        assert todo[i] == all[i] && all[i] in all;
        RollbackMembers(ms, history.Keys, kind.target, all[i]);
      }
    }
  }

  /** Finishing version e.version, with pieces that amount to e's script. */
  lemma FinishKeepsClean(start: History, s: Server, t: Server, e: Effect, v: int)
    requires t.log == s.log + [e] && (v != e.version ==> v !in s.dirty)
    requires v !in s.dirty ==> Clean(start, s, v)
    requires v != e.version ==> Executed(t.trace, v) == Executed(s.trace, v)
    requires v != e.version ==> RowIn(t.history, v) == RowIn(s.history, v)
    requires v == e.version ==>
               && Executed(t.trace, v) == Finished(s.log, v) + e.ran
               && RowIn(t.history, v) == if e.down then None else Some(e.row)
    ensures Clean(start, t, v)
  {
    FinishedSnoc(s.log, e, v);
    StandingOfPrefix(start, s.log, e, |s.log|, v);
  }

  lemma FinishKeepsTurns(start: History, log: seq<Effect>, e: Effect)
    requires forall i :: 0 <= i < |log| ==> InTurn(start, log, i)
    requires e.down <==> Standing(start, log, |log|, e.version)
    ensures forall i :: 0 <= i < |log + [e]| ==> InTurn(start, log + [e], i)
  {
    forall i | 0 <= i < |log + [e]| ensures InTurn(start, log + [e], i) {
      StandingOfPrefix(start, log, e, i, (log + [e])[i].version);
      assert i < |log| ==> InTurn(start, log, i);
    }
  }

  lemma NextHolds(start: History, s: Server, ses: Session, todo: seq<Migration>)
    requires s.dirty == {} && (todo != [] ==> Due(s.history, ses.kind, [todo[0]] + todo[1..]))
    requires forall v :: Clean(start, s, v)
    requires forall i :: 0 <= i < |s.log| ==> InTurn(start, s.log, i)
    ensures Holds(start, Next(s, ses, todo)) && Holds(start, Ends(s))
  {
    forall v ensures Clean(start, Next(s, ses, todo), v) && Clean(start, Ends(s), v) {
      assert Clean(start, s, v);
    }
  }

  /** A transaction's step. */
  lemma TransactHolds(start: History, s: Server, ses: Session, m: Migration, rest: seq<Migration>, script: seq<string>)
    requires Holds(start, s) && s.dirty == {} && Due(s.history, ses.kind, [m] + rest)
    requires m.version in s.history <==> ses.kind.Down?
    ensures var t := Transact(s, m, ses.kind.Down?, script);
      Holds(start, Next(t, ses, rest)) && Holds(start, Ends(t))
  {
    var e := Done(m, ses.kind.Down?, script);
    var t := Transact(s, m, ses.kind.Down?, script);
    assert Clean(start, s, m.version);
    StandingIsARow(start, s.log, |s.log|, m.version);
    FinishKeepsTurns(start, s.log, e);
    forall v ensures Clean(start, t, v) {
      ExecutedSnoc(s.trace, Piece(m.version, script), v);
      assert Clean(start, s, v);
      FinishKeepsClean(start, s, t, e, v);
    }
    DueNext(s.history, t.history, ses.kind, m, rest);
    NextHolds(start, t, ses, rest);
  }

  /** The record step: the mark goes, the effect is there. */
  lemma RecordHolds(start: History, s: Server, ses: Session, m: Migration, rest: seq<Migration>, ran: seq<string>)
    requires Holds(start, s) && InProgress(start, s, m, ses.kind.Down?, ran) && Due(s.history, ses.kind, [m] + rest)
    ensures var t := Record(s, m, ses.kind.Down?, ran);
      Holds(start, Next(t, ses, rest)) && Holds(start, Ends(t))
  {
    var e := Done(m, ses.kind.Down?, ran);
    var t := Record(s, m, ses.kind.Down?, ran);
    FinishKeepsTurns(start, s.log, e);
    forall v ensures Clean(start, t, v) {
      assert v !in s.dirty ==> Clean(start, s, v);
      FinishKeepsClean(start, s, t, e, v);
    }
    DueNext(s.history, t.history, ses.kind, m, rest);
    NextHolds(start, t, ses, rest);
  }

  /** The mark: from here on the version is dirty, and the only one. */
  lemma MarkHolds(start: History, s: Server, ses: Session, m: Migration, rest: seq<Migration>)
    requires Holds(start, s) && s.session == Some(ses) && ses.pc == Working(m, rest, Probed)
    requires StatementsOf(m, ses.kind.Down?).Some?
    ensures var t := Mark(s, m, ses.kind.Down?);
      Holds(start, Goes(t, ses, Working(m, rest, Marked([])))) && Holds(start, Ends(t))
  {
    var t := Mark(s, m, ses.kind.Down?);
    assert Clean(start, s, m.version);
    StandingIsARow(start, s.log, |s.log|, m.version);
    assert Executed(s.trace, m.version) + [] == Executed(s.trace, m.version);
    assert t.history.Keys == s.history.Keys + {m.version};
    var u := Goes(t, ses, Working(m, rest, Marked([])));
    forall v | v !in t.dirty ensures Clean(start, u, v) && Clean(start, Ends(t), v) {
      assert Clean(start, s, v);
    }
  }

  /** One more statement of the script: the version stays dirty. */
  lemma ExecuteHolds(start: History, s: Server, ses: Session, m: Migration, rest: seq<Migration>, ran: seq<string>,
      text: string)
    requires Holds(start, s) && s.session == Some(ses) && ses.pc == Working(m, rest, Marked(ran))
    requires StatementsOf(m, ses.kind.Down?).Some? && ran + [text] <= StatementsOf(m, ses.kind.Down?).value
    ensures var t := Execute(s, m, text);
      Holds(start, Goes(t, ses, Working(m, rest, Marked(ran + [text])))) && Holds(start, Ends(t))
  {
    var t := Execute(s, m, text);
    var u := Goes(t, ses, Working(m, rest, Marked(ran + [text])));
    ExecutedSnoc(s.trace, Piece(m.version, [text]), m.version);
    assert Finished(s.log, m.version) + ran + [text] == Finished(s.log, m.version) + (ran + [text]);
    forall v | v !in t.dirty ensures Clean(start, u, v) && Clean(start, Ends(t), v) {
      assert Clean(start, s, v);
      ExecuteKeepsClean(start, s, m, text, v);
    }
  }

  lemma ExecuteKeepsClean(start: History, s: Server, m: Migration, text: string, v: int)
    requires Clean(start, s, v) && v != m.version
    ensures Clean(start, Execute(s, m, text), v)
  {
    ExecutedSnoc(s.trace, Piece(m.version, [text]), v);
  }

  lemma EndsHolds(start: History, s: Server)
    requires Holds(start, s)
    ensures Holds(start, Ends(s))
  {
    forall v | v !in s.dirty ensures Clean(start, Ends(s), v) {
      assert Clean(start, s, v);
    }
  }

  lemma GoesHolds(start: History, s: Server, ses: Session, m: Migration, rest: seq<Migration>)
    requires Holds(start, s) && s.session == Some(ses) && ses.pc == Working(m, rest, Between)
    requires m.version in s.history <==> ses.kind.Down?
    ensures Holds(start, Goes(s, ses, Working(m, rest, Probed)))
  {
    var t := Goes(s, ses, Working(m, rest, Probed));
    forall v | v !in t.dirty ensures Clean(start, t, v) {
      assert Clean(start, s, v);
    }
  }

  lemma SkipHolds(start: History, s: Server, ses: Session, m: Migration, rest: seq<Migration>)
    requires Holds(start, s) && s.dirty == {} && Due(s.history, ses.kind, [m] + rest)
    ensures Holds(start, Next(s, ses, rest))
  {
    DueNext(s.history, s.history, ses.kind, m, rest);
    forall v ensures Clean(start, s, v) {}
    NextHolds(start, s, ses, rest);
  }

  lemma BetweenHolds(start: History, s: Server, ses: Session, m: Migration, rest: seq<Migration>, outcome: Outcome)
    requires Holds(start, s) && s.session == Some(ses) && ses.pc == Working(m, rest, Between)
    ensures Holds(start, Advance(s, ses, m, rest, Between, outcome))
  {
    var down := ses.kind.Down?;
    EndsHolds(start, s);
    if StatementsOf(m, down).Some? {
      assert ([m] + rest)[0] == m;
      if (m.version in s.history) != down {
        SkipHolds(start, s, ses, m, rest);
      } else if Transactional(m, down) {
        TransactHolds(start, s, ses, m, rest, StatementsOf(m, down).value);
      } else {
        GoesHolds(start, s, ses, m, rest);
      }
    }
  }

  lemma AdvanceHolds(start: History, s: Server, ses: Session, m: Migration, rest: seq<Migration>, phase: Phase,
      outcome: Outcome)
    requires Holds(start, s) && s.session == Some(ses) && ses.pc == Working(m, rest, phase)
    ensures Holds(start, Advance(s, ses, m, rest, phase, outcome))
  {
    var down := ses.kind.Down?;
    EndsHolds(start, s);
    if StatementsOf(m, down).Some? {
      var script := StatementsOf(m, down).value;
      match phase
      case Between => BetweenHolds(start, s, ses, m, rest, outcome);
      case Probed => MarkHolds(start, s, ses, m, rest);
      case Marked(ran) =>
        if |ran| < |script| {
          ExecuteHolds(start, s, ses, m, rest, ran, script[|ran|]);
        } else {
          RecordHolds(start, s, ses, m, rest, ran);
        }
    }
  }

  lemma DecideHolds(start: History, s: Server, ses: Session)
    requires Holds(start, s) && s.session == Some(ses) && ses.pc.Deciding? && ValidFiles(ses.ms)
    ensures Holds(start, Decide(s, ses))
  {
    EndsHolds(start, s);
    if Plan(ses.ms, ses.kind, s.history).Yes? && s.dirty == {} {
      var todo := Plan(ses.ms, ses.kind, s.history).value;
      PlanIsDue(ses.ms, ses.kind, s.history);
      assert todo != [] ==> [todo[0]] + todo[1..] == todo;
      forall v ensures Clean(start, s, v) {}
      NextHolds(start, s, ses, todo);
    }
  }

  lemma StartHolds(start: History, s: Server, ses: Session)
    requires Holds(start, s) && s.session == None && ses.pc.Deciding?
    ensures Holds(start, s.(session := Some(ses)))
  {
    forall v | v !in s.dirty ensures Clean(start, s.(session := Some(ses)), v) {
      assert Clean(start, s, v);
    }
  }

  lemma FilesStay(s: Server, step: Step)
    requires SessionFiles(s) && GoodFiles(step)
    ensures SessionFiles(Do(s, step))
  {
  }

  lemma DoHolds(start: History, s: Server, step: Step)
    requires Holds(start, s) && SessionFiles(s) && GoodFiles(step)
    ensures Holds(start, Do(s, step))
  {
    if step.Start? {
      if s.session.None? {
        StartHolds(start, s, Session(step.ms, step.kind, Deciding));
      }
    } else if s.session.Some? {
      EndsHolds(start, s);
      var ses := s.session.value;
      match ses.pc
      case Deciding => DecideHolds(start, s, ses);
      case Working(m, rest, phase) => AdvanceHolds(start, s, ses, m, rest, phase, step.outcome);
    }
  }

  ghost predicate AllGoodFiles(steps: seq<Step>) { forall i :: 0 <= i < |steps| ==> GoodFiles(steps[i]) }

  lemma {:induction false} RunHolds(start: History, steps: seq<Step>)
    requires AllGoodFiles(steps)
    ensures Holds(start, Run(Initial(start), steps)) && SessionFiles(Run(Initial(start), steps))
    decreases |steps|
  {
    if steps == [] {
      forall v ensures Clean(start, Initial(start), v) {}
    } else {
      var before := steps[..|steps| - 1];
      RunHolds(start, before);
      assert GoodFiles(steps[|steps| - 1]);
      DoHolds(start, Run(Initial(start), before), steps[|steps| - 1]);
      FilesStay(Run(Initial(start), before), steps[|steps| - 1]);
    }
  }

  // ---------------------------------------------------------------- whose scripts they are

  ghost predicate FromFiles(steps: seq<Step>, e: Effect) {
    exists k, i :: 0 <= k < |steps| && steps[k].Start? && 0 <= i < |steps[k].ms| && IsEffectOf(e, steps[k].ms[i])
  }

  ghost predicate Started(steps: seq<Step>, ms: seq<Migration>) {
    exists k :: 0 <= k < |steps| && steps[k].Start? && steps[k].ms == ms
  }

  /** A session works on files it was started with, and a transaction on nothing else. */
  ghost predicate Owned(steps: seq<Step>, s: Server) {
    && (s.session.Some? ==> Started(steps, s.session.value.ms))
    && (s.session.Some? && s.session.value.pc.Working? ==>
          && s.session.value.pc.m in s.session.value.ms
          && forall i :: 0 <= i < |s.session.value.pc.rest| ==> s.session.value.pc.rest[i] in s.session.value.ms)
    && (forall i :: 0 <= i < |s.log| ==> FromFiles(steps, s.log[i]))
  }

  lemma FromFilesGrows(steps: seq<Step>, step: Step, e: Effect)
    requires FromFiles(steps, e)
    ensures FromFiles(steps + [step], e)
  {
    var k, i :| 0 <= k < |steps| && steps[k].Start? && 0 <= i < |steps[k].ms| && IsEffectOf(e, steps[k].ms[i]);
    assert (steps + [step])[k] == steps[k];
  }

  lemma StartedGrows(steps: seq<Step>, step: Step, ms: seq<Migration>)
    requires Started(steps, ms)
    ensures Started(steps + [step], ms)
  {
    var k :| 0 <= k < |steps| && steps[k].Start? && steps[k].ms == ms;
    assert (steps + [step])[k] == steps[k];
  }

  /** An effect can only be the one the session is working on, in full. */
  lemma NewEffect(start: History, s: Server, step: Step)
    requires Holds(start, s)
    ensures Do(s, step).log == s.log
         || (s.session.Some? && s.session.value.pc.Working?
             && exists e :: Do(s, step).log == s.log + [e] && IsEffectOf(e, s.session.value.pc.m))
  {
    if step.Act? && s.session.Some? && s.session.value.pc.Working? && Do(s, step).log != s.log {
      var ses := s.session.value;
      var down := ses.kind.Down?;
      var script := StatementsOf(ses.pc.m, down).value;
      assert ses.pc.phase.Marked? ==> ses.pc.phase.ran == script;
      assert IsEffectOf(Done(ses.pc.m, down, script), ses.pc.m);
      assert Do(s, step).log == s.log + [Done(ses.pc.m, down, script)];
    }
  }

  lemma SessionIsOwned(steps: seq<Step>, s: Server, step: Step)
    requires Owned(steps, s)
    ensures var t := Do(s, step);
      t.session.Some? ==>
        && Started(steps + [step], t.session.value.ms)
        && (t.session.value.pc.Working? ==>
              && t.session.value.pc.m in t.session.value.ms
              && forall i :: 0 <= i < |t.session.value.pc.rest| ==> t.session.value.pc.rest[i] in t.session.value.ms)
  {
    if step.Start? && s.session.None? {
      assert (steps + [step])[|steps|] == step;
    } else if s.session.Some? {
      var ses := s.session.value;
      StartedGrows(steps, step, ses.ms);
      if ses.pc.Deciding? && Plan(ses.ms, ses.kind, s.history).Yes? {
        PlansAreFiles(ses.ms, ses.kind, s.history);
      }
    }
  }

  lemma DoOwns(start: History, steps: seq<Step>, s: Server, step: Step)
    requires Holds(start, s) && Owned(steps, s)
    ensures Owned(steps + [step], Do(s, step))
  {
    var t := Do(s, step);
    SessionIsOwned(steps, s, step);
    NewEffect(start, s, step);
    forall i | 0 <= i < |t.log| ensures FromFiles(steps + [step], t.log[i]) {
      if i == |s.log| {
        var ses := s.session.value;
        var e :| t.log == s.log + [e] && IsEffectOf(e, ses.pc.m);
        var k :| 0 <= k < |steps| && steps[k].Start? && steps[k].ms == ses.ms;
        var j :| 0 <= j < |ses.ms| && ses.ms[j] == ses.pc.m;
        assert IsEffectOf(e, steps[k].ms[j]);
      } else {
        assert FromFiles(steps, s.log[i]);
      }
      FromFilesGrows(steps, step, t.log[i]);
    }
  }

  lemma {:induction false} RunOwns(start: History, steps: seq<Step>)
    requires AllGoodFiles(steps)
    ensures Owned(steps, Run(Initial(start), steps))
    decreases |steps|
  {
    if steps == [] {
    } else {
      var before, last := steps[..|steps| - 1], steps[|steps| - 1];
      RunOwns(start, before);
      RunHolds(start, before);
      DoOwns(start, before, Run(Initial(start), before), last);
      assert before + [last] == steps;
    }
  }

  // ---------------------------------------------------------------- what a dirty version ran

  /** Beyond finished migrations, exactly the first n statements of e's script. */
  ghost predicate RanFirst(s: Server, e: Effect, n: nat) {
    n <= |e.ran| && Executed(s.trace, e.version) == Finished(s.log, e.version) + e.ran[..n]
  }

  ghost predicate Interrupted(steps: seq<Step>, s: Server, v: int) {
    exists e, n :: FromFiles(steps, e) && e.version == v && RanFirst(s, e, n)
  }

  ghost predicate AllInterrupted(steps: seq<Step>, s: Server) { forall v :: v in s.dirty ==> Interrupted(steps, s, v) }

  lemma OwnEffect(steps: seq<Step>, s: Server) returns (e: Effect)
    requires Owned(steps, s) && s.session.Some? && s.session.value.pc.Working?
    requires StatementsOf(s.session.value.pc.m, s.session.value.kind.Down?).Some?
    ensures var m, down := s.session.value.pc.m, s.session.value.kind.Down?;
      FromFiles(steps, e) && e == Done(m, down, StatementsOf(m, down).value)
  {
    var ses := s.session.value;
    e := Done(ses.pc.m, ses.kind.Down?, StatementsOf(ses.pc.m, ses.kind.Down?).value);
    var k :| 0 <= k < |steps| && steps[k].Start? && steps[k].ms == ses.ms;
    var j :| 0 <= j < |ses.ms| && ses.ms[j] == ses.pc.m;
    assert IsEffectOf(e, steps[k].ms[j]);
  }

  /** Steps that leave a dirty version's statements and finished migrations alone. */
  lemma QuietOrWorking(start: History, s: Server, step: Step, v: int)
    requires Holds(start, s) && v in Do(s, step).dirty
    ensures || (v in s.dirty && Do(s, step).trace == s.trace && Do(s, step).log == s.log)
            || (step.Act? && s.session.Some? && s.session.value.pc.Working? && v == s.session.value.pc.m.version
                && StatementsOf(s.session.value.pc.m, s.session.value.kind.Down?).Some?
                && (s.session.value.pc.phase.Probed? || s.session.value.pc.phase.Marked?))
  {
  }

  lemma MarkInterrupts(start: History, s: Server, ses: Session, e: Effect, outcome: Outcome)
    requires Holds(start, s) && s.session == Some(ses) && ses.pc.Working? && ses.pc.phase.Probed?
    requires StatementsOf(ses.pc.m, ses.kind.Down?) == Some(e.ran) && e.version == ses.pc.m.version
    requires e.version in Do(s, Act(outcome)).dirty
    ensures RanFirst(Do(s, Act(outcome)), e, 0)
  {
    assert Clean(start, s, e.version);
    assert e.ran[..0] == [];
  }

  lemma ExecuteInterrupts(start: History, s: Server, ses: Session, e: Effect)
    requires Holds(start, s) && s.session == Some(ses) && ses.pc.Working? && ses.pc.phase.Marked?
    requires StatementsOf(ses.pc.m, ses.kind.Down?) == Some(e.ran) && e.version == ses.pc.m.version
    requires |ses.pc.phase.ran| < |e.ran|
    ensures RanFirst(Execute(s, ses.pc.m, e.ran[|ses.pc.phase.ran|]), e, |ses.pc.phase.ran| + 1)
  {
    var ran := ses.pc.phase.ran;
    assert InProgress(start, s, ses.pc.m, ses.kind.Down?, ran);
    ExecutedSnoc(s.trace, Piece(e.version, [e.ran[|ran|]]), e.version);
    assert Finished(s.log, e.version) + ran + [e.ran[|ran|]] == Finished(s.log, e.version) + e.ran[..|ran| + 1];
  }

  lemma MarkedInterrupts(start: History, s: Server, ses: Session, e: Effect, outcome: Outcome)
    requires Holds(start, s) && s.session == Some(ses) && ses.pc.Working? && ses.pc.phase.Marked?
    requires StatementsOf(ses.pc.m, ses.kind.Down?) == Some(e.ran) && e.version == ses.pc.m.version
    requires e.version in Do(s, Act(outcome)).dirty
    ensures exists n :: RanFirst(Do(s, Act(outcome)), e, n)
  {
    var ran := ses.pc.phase.ran;
    if outcome.Failure? {
      assert ran == e.ran[..|ran|];
      assert RanFirst(Do(s, Act(outcome)), e, |ran|);
    } else if |ran| < |e.ran| {
      ExecuteInterrupts(start, s, ses, e);
      assert RanFirst(Do(s, Act(outcome)), e, |ran| + 1);
    }
  }

  lemma DoInterrupts(start: History, steps: seq<Step>, s: Server, step: Step)
    requires Holds(start, s) && Owned(steps, s) && AllInterrupted(steps, s)
    ensures AllInterrupted(steps + [step], Do(s, step))
  {
    var t := Do(s, step);
    forall v | v in t.dirty ensures Interrupted(steps + [step], t, v) {
      QuietOrWorking(start, s, step, v);
      if v in s.dirty && t.trace == s.trace && t.log == s.log {
        assert Interrupted(steps, s, v);
        var e, n :| FromFiles(steps, e) && e.version == v && RanFirst(s, e, n);
        FromFilesGrows(steps, step, e);
        assert RanFirst(t, e, n);
      } else {
        var e := OwnEffect(steps, s);
        if s.session.value.pc.phase.Probed? {
          MarkInterrupts(start, s, s.session.value, e, step.outcome);
          assert RanFirst(Do(s, Act(step.outcome)), e, 0);
        } else {
          MarkedInterrupts(start, s, s.session.value, e, step.outcome);
        }
        assert step == Act(step.outcome);
        FromFilesGrows(steps, step, e);
      }
    }
  }

  lemma {:induction false} RunInterrupts(start: History, steps: seq<Step>)
    requires AllGoodFiles(steps)
    ensures AllInterrupted(steps, Run(Initial(start), steps))
    decreases |steps|
  {
    if steps == [] {
    } else {
      var before, last := steps[..|steps| - 1], steps[|steps| - 1];
      RunInterrupts(start, before);
      RunHolds(start, before);
      RunOwns(start, before);
      DoInterrupts(start, before, Run(Initial(start), before), last);
      assert before + [last] == steps;
    }
  }

  /** What the operator finds under a dirty version: whole scripts, then the first
      statements of one more script, in order, and nothing else. */
  lemma DirtyVersionsRanAPrefix(start: History, steps: seq<Step>, v: int)
    requires AllGoodFiles(steps) && v in Run(Initial(start), steps).dirty
    ensures Interrupted(steps, Run(Initial(start), steps), v)
  {
    RunInterrupts(start, steps);
  }

  // ---------------------------------------------------------------- every run

  /** In every state that runs reach, failing or crashing after any statement: a version
      that is not dirty has executed whole scripts of finished migrations and nothing
      else, each a file's complete script, in strict turns of applying and rolling back;
      its row is there exactly when the last turn applied it; and at most one version
      is dirty. */
  lemma CleanVersionsRanWholeScripts(start: History, steps: seq<Step>, v: int)
    requires AllGoodFiles(steps)
    ensures var s := Run(Initial(start), steps);
      && Few(s.dirty)
      && (forall i :: 0 <= i < |s.log| ==> InTurn(start, s.log, i) && FromFiles(steps, s.log[i]))
      && (v !in s.dirty ==>
            && Executed(s.trace, v) == Finished(s.log, v)
            && (v in s.history <==> Standing(start, s.log, |s.log|, v)))
  {
    RunHolds(start, steps);
    RunOwns(start, steps);
    var s := Run(Initial(start), steps);
    if v !in s.dirty {
      assert Clean(start, s, v);
      StandingIsARow(start, s.log, |s.log|, v);
    }
  }

  /** No Down run is ever started. */
  ghost predicate OnlyUps(steps: seq<Step>) { forall i :: 0 <= i < |steps| && steps[i].Start? ==> steps[i].kind.Up? }

  ghost predicate Applying(s: Server) {
    && (s.session.Some? ==> s.session.value.kind.Up?)
    && forall i :: 0 <= i < |s.log| ==> !s.log[i].down
  }

  lemma {:induction false} OnlyUpsApply(start: History, steps: seq<Step>)
    requires OnlyUps(steps)
    ensures Applying(Run(Initial(start), steps))
    decreases |steps|
  {
    if steps == [] {
    } else {
      var before, last := steps[..|steps| - 1], steps[|steps| - 1];
      OnlyUpsApply(start, before);
      assert last.Start? ==> steps[|steps| - 1].kind.Up?;
      StaysApplying(Run(Initial(start), before), last);
    }
  }

  lemma StaysApplying(s: Server, step: Step)
    requires Applying(s) && (step.Start? ==> step.kind.Up?)
    ensures Applying(Do(s, step))
  {
    if step.Act? && s.session.Some? && s.session.value.pc.Working? {
      var ses := s.session.value;
      AdvanceStaysApplying(s, ses, ses.pc.m, ses.pc.rest, ses.pc.phase, step.outcome);
    }
  }

  lemma AdvanceStaysApplying(s: Server, ses: Session, m: Migration, rest: seq<Migration>, phase: Phase,
      outcome: Outcome)
    requires Applying(s) && s.session == Some(ses)
    ensures Applying(Advance(s, ses, m, rest, phase, outcome))
  {
  }

  /** Between turns of applying only, a version is touched at most once. */
  lemma {:induction false} OneTurn(start: History, log: seq<Effect>, n: nat, v: int) returns (e: Option<Effect>)
    requires n <= |log| && v !in start
    requires forall i :: 0 <= i < |log| ==> !log[i].down && InTurn(start, log, i)
    ensures e.Some? <==> Standing(start, log, n, v)
    ensures e.Some? ==> e.value in log[..n] && e.value.version == v
    ensures Finished(log[..n], v) == if e.Some? then e.value.ran else []
  {
    if n == 0 {
      e := None;
    } else {
      assert log[..n][..n - 1] == log[..n - 1];
      assert InTurn(start, log, n - 1);
      e := OneTurn(start, log, n - 1, v);
      if log[n - 1].version == v {
        e := Some(log[n - 1]);
      }
    }
  }

  /** Applying only, from a history without v: a v that is not dirty has run nothing
      of its up script if it has no row, and all of it, once, if it has one. */
  lemma UpRunsRunNoneOrAll(start: History, steps: seq<Step>, v: int)
    requires AllGoodFiles(steps) && OnlyUps(steps) && v !in start
    ensures var s := Run(Initial(start), steps);
      v !in s.dirty ==>
        if v in s.history
        then exists e :: FromFiles(steps, e) && e.version == v && !e.down && Executed(s.trace, v) == e.ran
        else Executed(s.trace, v) == []
  {
    CleanVersionsRanWholeScripts(start, steps, v);
    OnlyUpsApply(start, steps);
    var s := Run(Initial(start), steps);
    var e := OneTurn(start, s.log, |s.log|, v);
    assert s.log[..|s.log|] == s.log;
    if e.Some? {
      var i :| 0 <= i < |s.log| && s.log[i] == e.value;
      assert FromFiles(steps, s.log[i]);
    }
  }

  // ---------------------------------------------------------------- dirty means stop

  /** s and t agree on everything the database holds. */
  ghost predicate SameData(s: Server, t: Server) {
    s.history == t.history && s.dirty == t.dirty && s.trace == t.trace && s.log == t.log
  }

  /** While any version is dirty, no run that starts executes a statement or changes a
      row: however many are started, everything stays as it was. */
  lemma {:induction false} DirtyStopsEveryRun(s: Server, steps: seq<Step>)
    requires s.dirty != {} && s.session == None
    ensures SameData(s, Run(s, steps))
    ensures Run(s, steps).session.Some? ==> Run(s, steps).session.value.pc.Deciding?
    decreases |steps|
  {
    if steps == [] {
    } else {
      DirtyStopsEveryRun(s, steps[..|steps| - 1]);
    }
  }

  // ---------------------------------------------------------------- inside a transaction

  /** A transactional script as mysql takes it: kept is committed, open would be undone. */
  datatype Sent = Sent(kept: seq<string>, open: seq<string>)

  /** The first n statements have succeeded. DDL commits what came before it, and itself. */
  function Sending(ddl: string -> bool, script: seq<string>, n: nat): (t: Sent)
    requires n <= |script|
    ensures t.kept + t.open == script[..n]
  {
    if n == 0 then Sent([], [])
    else
      var t := Sending(ddl, script, n - 1);
      assert script[..n] == script[..n - 1] + [script[n - 1]];
      if ddl(script[n - 1]) then Sent(t.kept + t.open + [script[n - 1]], []) else t.(open := t.open + [script[n - 1]])
  }

  /** What stays of a script that stops after n statements: the next one, or the history
      write, fails or is never sent. DDL that fails has still committed what came before. */
  function Stays(ddl: string -> bool, script: seq<string>, n: nat, arrived: bool): seq<string>
    requires n <= |script|
  {
    var t := Sending(ddl, script, n);
    if arrived && n < |script| && ddl(script[n]) then t.kept + t.open else t.kept
  }

  /** The transaction is undone, but for what stays. */
  function Undone(s: Server, m: Migration, stays: seq<string>): Server {
    Ends(s.(trace := s.trace + [Piece(m.version, stays)]))
  }

  lemma {:induction false} NothingKept(ddl: string -> bool, script: seq<string>, n: nat)
    requires n <= |script| && forall i :: 0 <= i < n ==> !ddl(script[i])
    ensures Sending(ddl, script, n).kept == []
  {
    if n == 0 {
    } else {
      NothingKept(ddl, script, n - 1);
    }
  }

  lemma InterruptedIsClean(start: History, s: Server, m: Migration, stays: seq<string>)
    requires Clean(start, s, m.version)
    ensures Clean(start, Undone(s, m, stays), m.version) <==> stays == []
  {
    ExecutedSnoc(s.trace, Piece(m.version, stays), m.version);
    assert |Executed(s.trace + [Piece(m.version, stays)], m.version)| == |Executed(s.trace, m.version)| + |stays|;
    assert stays == [] ==> Executed(s.trace, m.version) + stays == Executed(s.trace, m.version);
  }

  /** A transactional script may be taken as one step, whatever stops it, if and only if it
      holds no DDL at all: with a single DDL statement it can already have run while its
      version is neither recorded nor marked dirty. */
  lemma OneStepExactlyWithoutDdl(start: History, s: Server, m: Migration, ddl: string -> bool, script: seq<string>)
    requires Clean(start, s, m.version)
    ensures (forall n: nat, arrived: bool :: n <= |script| ==>
               Clean(start, Undone(s, m, Stays(ddl, script, n, arrived)), m.version))
            <==> forall i :: 0 <= i < |script| ==> !ddl(script[i])
  {
    if forall i :: 0 <= i < |script| ==> !ddl(script[i]) {
      forall n: nat, arrived: bool | n <= |script|
        ensures Clean(start, Undone(s, m, Stays(ddl, script, n, arrived)), m.version) {
        NothingKept(ddl, script, n);
        InterruptedIsClean(start, s, m, Stays(ddl, script, n, arrived));
      }
    } else {
      var i :| 0 <= i < |script| && ddl(script[i]);
      assert |Stays(ddl, script, i + 1, false)| >= 1;
      InterruptedIsClean(start, s, m, Stays(ddl, script, i + 1, false));
    }
  }
}
