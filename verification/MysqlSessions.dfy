/** What a run of cli/migrationx on mysql achieves when nothing goes wrong: all of the plan
    it made, statement by statement, and nothing else. */
module MysqlSessions {
  import opened Common
  import opened Loader
  import opened Plans
  import opened Effects
  import opened MysqlRuns

  /** n statements that all succeed. */
  function Succeeds(n: nat): seq<Step> { seq(n, _ => Act(Success)) }

  /** By some number of successful statements s becomes t. */
  ghost predicate Reaches(s: Server, t: Server) { exists n: nat :: Run(s, Succeeds(n)) == t }

  lemma ReachesItself(s: Server)
    ensures Reaches(s, s)
  {
    assert Succeeds(0) == [];
    assert Run(s, Succeeds(0)) == s;
  }

  lemma {:induction false} RunJoins(s: Server, before: seq<Step>, more: seq<Step>)
    ensures Run(s, before + more) == Run(Run(s, before), more)
    decreases |more|
  {
    if more == [] {
      assert before + more == before;
    } else {
      RunJoins(s, before, more[..|more| - 1]);
      assert (before + more)[..|before + more| - 1] == before + more[..|more| - 1];
    }
  }

  lemma ReachesTwice(s: Server, t: Server, u: Server)
    requires Reaches(s, t) && Reaches(t, u)
    ensures Reaches(s, u)
  {
    var m: nat :| Run(s, Succeeds(m)) == t;
    var n: nat :| Run(t, Succeeds(n)) == u;
    RunJoins(s, Succeeds(m), Succeeds(n));
    assert Succeeds(m) + Succeeds(n) == Succeeds(m + n);
  }

  lemma OneStep(s: Server, t: Server)
    requires t == Do(s, Act(Success))
    ensures Reaches(s, t)
  {
    assert Succeeds(1) == [Act(Success)] && [Act(Success)][..0] == [];
    assert Run(s, []) == s;
    assert Run(s, Succeeds(1)) == t;
  }

  /** The effects a plan is to have, in its order. */
  function EffectsOf(todo: seq<Migration>, down: bool): seq<Effect>
    requires HasScripts(todo, down)
  {
    seq(|todo|, i requires 0 <= i < |todo| => Done(todo[i], down, StatementsOf(todo[i], down).value))
  }

  predicate HasScripts(todo: seq<Migration>, down: bool) {
    forall i :: 0 <= i < |todo| ==> StatementsOf(todo[i], down).Some?
  }

  /** Each migration still to do is not done yet, and none comes twice. */
  ghost predicate Undone(history: History, todo: seq<Migration>, down: bool) {
    && (forall i :: 0 <= i < |todo| ==> (todo[i].version in history <==> down))
    && (forall i, j :: 0 <= i < j < |todo| ==> todo[i].version != todo[j].version)
  }

  ghost predicate Touches(todo: seq<Migration>, v: int) { exists i :: 0 <= i < |todo| && todo[i].version == v }

  /** The history with a plan done: its files' rows added, or its versions' rows gone. */
  ghost predicate AllDone(history: History, todo: seq<Migration>, down: bool, h: History) {
    && (forall v :: v in h <==> if Touches(todo, v) then !down else v in history)
    && (forall v :: v in h && !Touches(todo, v) ==> h[v] == history[v])
    && (!down ==> forall i :: 0 <= i < |todo| ==> todo[i].version in h && h[todo[i].version] == RowOf(todo[i]))
  }

  /** What one migration makes of the history. */
  function DoneOne(history: History, m: Migration, down: bool): History {
    if down then history - {m.version} else history[m.version := RowOf(m)]
  }

  lemma TouchesNext(todo: seq<Migration>, v: int)
    requires todo != []
    ensures Touches(todo, v) <==> v == todo[0].version || Touches(todo[1..], v)
  {
    if Touches(todo, v) {
      var i :| 0 <= i < |todo| && todo[i].version == v;
      assert i > 0 ==> todo[1..][i - 1].version == v;
    }
  }

  lemma AllDoneNext(history: History, todo: seq<Migration>, down: bool, h: History)
    requires todo != [] && Undone(history, todo, down)
    requires AllDone(DoneOne(history, todo[0], down), todo[1..], down, h)
    ensures AllDone(history, todo, down, h)
  {
    assert !Touches(todo[1..], todo[0].version);
    forall v ensures Touches(todo, v) <==> v == todo[0].version || Touches(todo[1..], v) {
      TouchesNext(todo, v);
    }
    forall i | 0 <= i < |todo| && !down ensures todo[i].version in h && h[todo[i].version] == RowOf(todo[i]) {
      assert i > 0 ==> todo[1..][i - 1] == todo[i];
    }
  }

  /** t is s after migration m, whose turn it was. */
  ghost predicate Through(s: Server, t: Server, ses: Session, m: Migration, rest: seq<Migration>) {
    && StatementsOf(m, ses.kind.Down?).Some?
    && t.session == Next(s, ses, rest).session && t.dirty == {}
    && t.history == DoneOne(s.history, m, ses.kind.Down?)
    && t.log == s.log + [Done(m, ses.kind.Down?, StatementsOf(m, ses.kind.Down?).value)]
  }

  /** The script runs to its end, and its mark is taken away again. */
  lemma {:induction false} ScriptRuns(s: Server, ses: Session, m: Migration, rest: seq<Migration>, ran: seq<string>)
    returns (t: Server)
    requires StatementsOf(m, ses.kind.Down?).Some? && ran <= StatementsOf(m, ses.kind.Down?).value
    requires s.session == Some(ses) && ses.pc == Working(m, rest, Marked(ran)) && s.dirty == {m.version}
    requires m.version in s.history && (!ses.kind.Down? ==> s.history[m.version] == RowOf(m))
    ensures Reaches(s, t) && Through(s, t, ses, m, rest)
    decreases |StatementsOf(m, ses.kind.Down?).value| - |ran|
  {
    var script := StatementsOf(m, ses.kind.Down?).value;
    var next := Do(s, Act(Success));
    OneStep(s, next);
    if |ran| == |script| {
      assert ran == script;
      t := next;
      assert !ses.kind.Down? ==> s.history[m.version := RowOf(m)] == s.history;
    } else {
      var more := ran + [script[|ran|]];
      t := ScriptRuns(next, ses.(pc := Working(m, rest, Marked(more))), m, rest, more);
      ReachesTwice(s, next, t);
    }
  }

  /** One migration, from between to between. */
  lemma MigrationRuns(s: Server, ses: Session, m: Migration, rest: seq<Migration>) returns (t: Server)
    requires StatementsOf(m, ses.kind.Down?).Some? && s.dirty == {}
    requires s.session == Some(ses) && ses.pc == Working(m, rest, Between)
    requires m.version in s.history <==> ses.kind.Down?
    ensures Reaches(s, t) && Through(s, t, ses, m, rest)
  {
    t := Do(s, Act(Success));
    OneStep(s, t);
    if !Transactional(m, ses.kind.Down?) {
      var marked := Do(t, Act(Success));
      OneStep(t, marked);
      ReachesTwice(s, t, marked);
      t := ScriptRuns(marked, ses.(pc := Working(m, rest, Marked([]))), m, rest, []);
      ReachesTwice(s, marked, t);
    }
  }

  /** t is s after all of a plan. */
  ghost predicate Complete(s: Server, t: Server, todo: seq<Migration>, down: bool) {
    && HasScripts(todo, down) && t.session == None && t.dirty == {}
    && AllDone(s.history, todo, down, t.history) && t.log == s.log + EffectsOf(todo, down)
  }

  lemma CompleteNext(s: Server, t: Server, u: Server, ses: Session, todo: seq<Migration>)
    requires todo != [] && HasScripts(todo, ses.kind.Down?) && Undone(s.history, todo, ses.kind.Down?)
    requires Through(s, t, ses, todo[0], todo[1..]) && Complete(t, u, todo[1..], ses.kind.Down?)
    ensures Complete(s, u, todo, ses.kind.Down?)
  {
    var down := ses.kind.Down?;
    AllDoneNext(s.history, todo, down, u.history);
    assert EffectsOf(todo, down) ==
           [Done(todo[0], down, StatementsOf(todo[0], down).value)] + EffectsOf(todo[1..], down);
  }

  lemma {:induction false} PlanRuns(s: Server, ses: Session, todo: seq<Migration>) returns (t: Server)
    requires HasScripts(todo, ses.kind.Down?) && Undone(s.history, todo, ses.kind.Down?) && s.dirty == {}
    requires s.session == Next(s, ses, todo).session
    ensures Reaches(s, t) && Complete(s, t, todo, ses.kind.Down?)
    decreases |todo|
  {
    if todo == [] {
      t := s;
      ReachesItself(s);
      assert EffectsOf(todo, ses.kind.Down?) == [];
    } else {
      var middle := MigrationRuns(s, ses.(pc := Working(todo[0], todo[1..], Between)), todo[0], todo[1..]);
      t := PlanRuns(middle, ses, todo[1..]);
      ReachesTwice(s, middle, t);
      CompleteNext(s, middle, t, ses, todo);
    }
  }

  lemma PlanIsUndone(ms: seq<Migration>, kind: Kind, history: History)
    requires ValidFiles(ms) && Plan(ms, kind, history).Yes?
    ensures Undone(history, Plan(ms, kind, history).value, kind.Down?)
  {
    match kind
    case Up(allow, limit, target) => UpPlanIsClosed(ms, history, allow, limit, target);
    case Down(_) => PlanIsDue(ms, kind, history);
  }

  /** A run on a clean history all of whose statements succeed ends, and leaves exactly what
      its plan calls for: each of its scripts run once, in its order, and their rows added,
      or taken away, and no version dirty. */
  lemma SuccessfulSession(s: Server, ms: seq<Migration>, kind: Kind) returns (n: nat)
    requires s.session == None && s.dirty == {} && ValidFiles(ms)
    requires Plan(ms, kind, s.history).Yes? && HasScripts(Plan(ms, kind, s.history).value, kind.Down?)
    ensures var todo := Plan(ms, kind, s.history).value;
      var t := Run(s, [Start(ms, kind)] + Succeeds(n));
      && t.session == None && t.dirty == {} && AllDone(s.history, todo, kind.Down?, t.history)
      && t.log == s.log + EffectsOf(todo, kind.Down?)
  {
    var todo := Plan(ms, kind, s.history).value;
    var started := Do(s, Start(ms, kind));
    var planned := Do(started, Act(Success));
    PlanIsUndone(ms, kind, s.history);
    OneStep(started, planned);
    var t := PlanRuns(planned, Session(ms, kind, Deciding), todo);
    ReachesTwice(started, planned, t);
    n :| Run(started, Succeeds(n)) == t;
    assert [Start(ms, kind)][..0] == [] && Run(s, []) == s;
    assert Run(s, [Start(ms, kind)]) == started;
    RunJoins(s, [Start(ms, kind)], Succeeds(n));
  }
}
