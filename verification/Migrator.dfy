/** The engine of cli/migrationx as one caller sees it: Up, Down, Status and Version over
    a history table nobody else is changing, with scripts that either apply or fail. */
module Migrator {
  import opened Common
  import opened Loader
  import opened Plans

  /** How a call ends. */
  datatype Ending = Success | Refused(why: Refusal) | DirtyState | Failed(version: int) | NoDown(version: int)

  // ---------------------------------------------------------------- what a run does

  datatype State = State(history: History, ending: Ending)

  /** execTx: probe, then the script and its row, or nothing. */
  function ApplyOne(history: History, m: Migration, fails: set<int>): State {
    if m.version in history then State(history, Success)
    else if m.version in fails then State(history, Failed(m.version))
    else State(history[m.version := RowOf(m)], Success)
  }

  function RollbackOne(history: History, m: Migration, fails: set<int>): State {
    if m.down.None? then State(history, NoDown(m.version))
    else if m.version !in history then State(history, Success)
    else if m.version in fails then State(history, Failed(m.version))
    else State(history - {m.version}, Success)
  }

  function One(history: History, m: Migration, down: bool, fails: set<int>): State {
    if down then RollbackOne(history, m, fails) else ApplyOne(history, m, fails)
  }

  /** A plan's first n migrations, one after the other until one does not succeed. */
  function Through(history: History, plan: seq<Migration>, n: nat, down: bool, fails: set<int>): State
    requires n <= |plan|
  {
    if n == 0 then State(history, Success)
    else
      var before := Through(history, plan, n - 1, down, fails);
      if before.ending.Success? then One(before.history, plan[n - 1], down, fails) else before
  }

  function Follow(history: History, dirty: set<int>, plan: Decision<seq<Migration>>, down: bool,
      fails: set<int>): State {
    match plan
    case No(why) =>
      if dirty != {} && (why.NothingApplied? || why.OutOfOrder?) then State(history, DirtyState)
      else State(history, Refused(why))
    case Yes(todo) => if dirty != {} then State(history, DirtyState) else Through(history, todo, |todo|, down, fails)
  }

  function UpRun(ms: seq<Migration>, history: History, dirty: set<int>, allow: bool, limit: nat, target: int,
      fails: set<int>): State {
    Follow(history, dirty, UpPlan(ms, history, allow, limit, target), false, fails)
  }

  function DownRun(ms: seq<Migration>, history: History, dirty: set<int>, target: int, fails: set<int>): State {
    Follow(history, dirty, DownPlan(ms, history, target), true, fails)
  }

  // ---------------------------------------------------------------- runs that succeed

  function VersionsOf(plan: seq<Migration>, n: nat): set<int>
    requires n <= |plan|
  {
    set i | 0 <= i < n :: plan[i].version
  }

  /** Applying a whole plan adds its versions, with their files' rows, and no others. */
  lemma {:induction false} ThroughUp(history: History, plan: seq<Migration>, n: nat, fails: set<int>)
    requires n <= |plan| && Through(history, plan, n, false, fails).ending.Success?
    ensures var h := Through(history, plan, n, false, fails).history;
      && h.Keys == history.Keys + VersionsOf(plan, n)
      && (forall v :: v in history ==> h[v] == history[v])
  {
    if n == 0 {
    } else {
      ThroughUp(history, plan, n - 1, fails);
    }
  }

  /** A row that was not there before is a file's row. */
  ghost predicate HasRow(plan: seq<Migration>, v: int, row: Row) {
    exists i :: 0 <= i < |plan| && plan[i].version == v && row == Row(plan[i].name, plan[i].checksum)
  }

  lemma {:induction false} ThroughUpRows(history: History, plan: seq<Migration>, n: nat, fails: set<int>)
    requires n <= |plan|
    ensures var h := Through(history, plan, n, false, fails).history;
      forall v :: v in h && v !in history ==> HasRow(plan, v, h[v])
  {
    if n == 0 {
    } else {
      ThroughUpRows(history, plan, n - 1, fails);
    }
  }

  lemma {:induction false} ThroughDown(history: History, plan: seq<Migration>, n: nat, fails: set<int>)
    requires n <= |plan| && Through(history, plan, n, true, fails).ending.Success?
    ensures Through(history, plan, n, true, fails).history == history - VersionsOf(plan, n)
  {
    if n == 0 {
    } else {
      ThroughDown(history, plan, n - 1, fails);
    }
  }

  lemma TodoVersions(ms: seq<Migration>, applied: set<int>, target: int)
    ensures var todo := UpTo(Pending(ms, applied), target);
      forall v :: v in VersionsOf(todo, |todo|) <==> v in Versions(ms) && v !in applied && (target <= 0 || v <= target)
  {
    var todo := UpTo(Pending(ms, applied), target);
    forall v
      ensures v in VersionsOf(todo, |todo|) <==> v in Versions(ms) && v !in applied && (target <= 0 || v <= target)
    {
      if v in VersionsOf(todo, |todo|) {
        var i :| 0 <= i < |todo| && todo[i].version == v;
        TodoMembers(ms, applied, target, todo[i]);
      }
      if v in Versions(ms) && v !in applied && (target <= 0 || v <= target) {
        var j :| 0 <= j < |ms| && ms[j].version == v;
        TodoMembers(ms, applied, target, ms[j]);
        var i :| 0 <= i < |todo| && todo[i] == ms[j];
      }
    }
  }

  /** A successful Up or UpTo applies exactly the missing files up to its target. */
  lemma SuccessfulUpTo(ms: seq<Migration>, history: History, dirty: set<int>, allow: bool, target: int, fails: set<int>)
    requires UpRun(ms, history, dirty, allow, 0, target, fails).ending.Success?
    ensures var h := UpRun(ms, history, dirty, allow, 0, target, fails).history;
      && (forall v :: v in h <==> v in history || (v in Versions(ms) && (target <= 0 || v <= target)))
      && (forall v :: v in history ==> h[v] == history[v])
      && (forall v :: v in h && v !in history ==> HasRow(ms, v, h[v]))
  {
    var todo := UpTo(Pending(ms, history.Keys), target);
    assert UpPlan(ms, history, allow, 0, target) == Yes(todo);
    ThroughUp(history, todo, |todo|, fails);
    ThroughUpRows(history, todo, |todo|, fails);
    TodoVersions(ms, history.Keys, target);
    var h := Through(history, todo, |todo|, false, fails).history;
    forall i | 0 <= i < |todo| ensures todo[i] in ms {
      TodoMembers(ms, history.Keys, target, todo[i]);
    }
    forall v | v in h && v !in history ensures HasRow(ms, v, h[v]) {
      RowOfAFile(ms, todo, v, h[v]);
    }
  }

  lemma RowOfAFile(ms: seq<Migration>, plan: seq<Migration>, v: int, row: Row)
    requires HasRow(plan, v, row) && forall i :: 0 <= i < |plan| ==> plan[i] in ms
    ensures HasRow(ms, v, row)
  {
    var i :| 0 <= i < |plan| && plan[i].version == v && row == Row(plan[i].name, plan[i].checksum);
    var j :| 0 <= j < |ms| && ms[j] == plan[i];
  }

  /** A successful Up makes the history exactly the file set. */
  lemma SuccessfulUp(ms: seq<Migration>, history: History, dirty: set<int>, allow: bool, fails: set<int>)
    requires UpRun(ms, history, dirty, allow, 0, 0, fails).ending.Success?
    ensures UpRun(ms, history, dirty, allow, 0, 0, fails).history.Keys == Versions(ms)
  {
    SuccessfulUpTo(ms, history, dirty, allow, 0, fails);
    assert Verify(ms, history).Yes? && NoOrphans(ms, history);
    var h := UpRun(ms, history, dirty, allow, 0, 0, fails).history;
    assert forall v :: v in h.Keys <==> v in Versions(ms);
  }

  ghost predicate OldestMissing(ms: seq<Migration>, history: History, v: int) {
    v in Versions(ms) && v !in history && forall w :: w in Versions(ms) && w !in history ==> v <= w
  }

  lemma FirstIsOldest(ms: seq<Migration>, history: History)
    requires ValidFiles(ms)
    ensures var todo := UpTo(Pending(ms, history.Keys), 0);
      if todo == [] then Versions(ms) <= history.Keys else OldestMissing(ms, history, todo[0].version)
  {
    var pending := Pending(ms, history.Keys);
    var todo := UpTo(pending, 0);
    TodoVersions(ms, history.Keys, 0);
    PendingAscends(ms, history.Keys);
    UpToAscends(pending, 0);
    if todo == [] {
      forall v | v in Versions(ms) ensures v in history {
        assert v !in VersionsOf(todo, |todo|);
      }
    } else {
      assert todo[0].version in VersionsOf(todo, |todo|);
      forall w | w in Versions(ms) && w !in history ensures todo[0].version <= w {
        assert w in VersionsOf(todo, |todo|);
      }
    }
  }

  /** A successful UpByOne applies the oldest missing file, if any is missing. */
  lemma SuccessfulUpByOne(ms: seq<Migration>, history: History, dirty: set<int>, allow: bool, fails: set<int>)
    requires ValidFiles(ms) && UpRun(ms, history, dirty, allow, 1, 0, fails).ending.Success?
    ensures var h := UpRun(ms, history, dirty, allow, 1, 0, fails).history;
      if Versions(ms) <= history.Keys then h == history
      else exists v :: OldestMissing(ms, history, v) && h.Keys == history.Keys + {v}
  {
    var todo := UpTo(Pending(ms, history.Keys), 0);
    FirstIsOldest(ms, history);
    assert UpPlan(ms, history, allow, 1, 0) == Yes(Limited(todo, 1));
    if todo != [] {
      ThroughUp(history, todo[..1], 1, fails);
      assert VersionsOf(todo[..1], 1) == {todo[0].version};
      assert OldestMissing(ms, history, todo[0].version);
    }
  }

  lemma RollbackVersions(ms: seq<Migration>, applied: set<int>, target: int)
    requires Ascending(ms)
    ensures var all := Rollbacks(ms, applied, target);
      forall v :: v in VersionsOf(all, |all|) <==> v in Versions(ms) && v in applied && (target < 0 || v > target)
  {
    var all := Rollbacks(ms, applied, target);
    forall v ensures v in VersionsOf(all, |all|) <==> v in Versions(ms) && v in applied && (target < 0 || v > target) {
      if v in VersionsOf(all, |all|) {
        var i :| 0 <= i < |all| && all[i].version == v;
        RollbackMembers(ms, applied, target, all[i]);
      }
      if v in Versions(ms) && v in applied && (target < 0 || v > target) {
        var j :| 0 <= j < |ms| && ms[j].version == v;
        RollbackMembers(ms, applied, target, ms[j]);
        var i :| 0 <= i < |all| && all[i] == ms[j];
      }
    }
  }

  /** The rows of versions up to v. */
  function Below(history: History, version: int): History { map v | v in history && v <= version :: history[v] }

  /** A successful DownTo(t) keeps exactly the applied versions up to t. */
  lemma SuccessfulDownTo(ms: seq<Migration>, history: History, dirty: set<int>, target: nat, fails: set<int>)
    requires ValidFiles(ms) && DownRun(ms, history, dirty, target, fails).ending.Success?
    ensures DownRun(ms, history, dirty, target, fails).history == Below(history, target)
  {
    var all := Rollbacks(ms, history.Keys, target);
    assert DownPlan(ms, history, target) == Yes(all);
    ThroughDown(history, all, |all|, fails);
    RollbackVersions(ms, history.Keys, target);
  }

  /** A successful Down takes away the newest applied version alone. */
  lemma SuccessfulDown(ms: seq<Migration>, history: History, dirty: set<int>, fails: set<int>)
    requires ValidFiles(ms) && DownRun(ms, history, dirty, -1, fails).ending.Success?
    ensures exists v :: v in history && DownRun(ms, history, dirty, -1, fails).history == history - {v}
              && forall w :: w in history ==> w <= v
  {
    var all := Rollbacks(ms, history.Keys, -1);
    RollbackVersions(ms, history.Keys, -1);
    RollbacksDescend(ms, history.Keys, -1);
    var some :| some in history;
    assert some in VersionsOf(all, |all|);
    var v := all[0].version;
    ThroughDown(history, all[..1], 1, fails);
    assert VersionsOf(all[..1], 1) == {v} && v in VersionsOf(all, |all|);
    forall w | w in history ensures w <= v {
      assert w in VersionsOf(all, |all|);
    }
  }

  // ---------------------------------------------------------------- runs that stop

  /** The history with the rows of a plan's first n files. */
  ghost predicate AppliedFirst(history: History, plan: seq<Migration>, n: nat, h: History)
    requires n <= |plan|
  {
    && (forall v :: v in h <==> v in history || v in VersionsOf(plan, n))
    && (forall v :: v in history ==> h[v] == history[v])
    && (forall i :: 0 <= i < n ==> plan[i].version in h && h[plan[i].version] == RowOf(plan[i]))
  }

  /** The plan's first k scripts run in order, and n is where they stop. */
  ghost predicate StopsUp(plan: seq<Migration>, k: nat, n: nat, fails: set<int>, ending: Ending)
    requires k <= |plan|
  {
    && n <= k && (forall i :: 0 <= i < n ==> plan[i].version !in fails)
    && if n == k then ending == Success else plan[n].version in fails && ending == Failed(plan[n].version)
  }

  lemma {:induction false} ThroughStopsUp(history: History, plan: seq<Migration>, k: nat, fails: set<int>)
    returns (n: nat)
    requires k <= |plan| && Ascending(plan) && forall i :: 0 <= i < |plan| ==> plan[i].version !in history
    ensures StopsUp(plan, k, n, fails, Through(history, plan, k, false, fails).ending)
    ensures AppliedFirst(history, plan, n, Through(history, plan, k, false, fails).history)
  {
    if k == 0 {
      n := 0;
    } else {
      n := ThroughStopsUp(history, plan, k - 1, fails);
      var before := Through(history, plan, k - 1, false, fails);
      if n == k - 1 {
        AppliesOneMore(history, plan, n, before.history);
        if plan[k - 1].version !in fails {
          n := k;
        }
      }
    }
  }

  lemma AppliesOneMore(history: History, plan: seq<Migration>, n: nat, h: History)
    requires n < |plan| && Ascending(plan) && plan[n].version !in history && AppliedFirst(history, plan, n, h)
    ensures plan[n].version !in h
    ensures AppliedFirst(history, plan, n + 1, h[plan[n].version := RowOf(plan[n])])
  {
    assert plan[n].version !in VersionsOf(plan, n);
    assert VersionsOf(plan, n + 1) == VersionsOf(plan, n) + {plan[n].version};
  }

  /** What Up leaves behind, however it ends: the rows of its plan up to the first script
      that fails, and of no other file; the ending names that script. */
  lemma UpStopsAtTheFirstFailure(ms: seq<Migration>, history: History, allow: bool, limit: nat, target: int,
      fails: set<int>) returns (n: nat)
    requires ValidFiles(ms) && UpPlan(ms, history, allow, limit, target).Yes?
    ensures var plan := UpPlan(ms, history, allow, limit, target).value;
      var r := UpRun(ms, history, {}, allow, limit, target, fails);
      StopsUp(plan, |plan|, n, fails, r.ending) && AppliedFirst(history, plan, n, r.history)
  {
    var plan := UpPlan(ms, history, allow, limit, target).value;
    UpPlanIsClosed(ms, history, allow, limit, target);
    n := ThroughStopsUp(history, plan, |plan|, fails);
  }

  lemma OlderAreBefore(ms: seq<Migration>, applied: set<int>, plan: seq<Migration>, n: nat)
    requires n < |plan| && Ascending(plan)
    requires forall i :: 0 <= i < |plan| ==> plan[i] in ms && plan[i].version !in applied
    requires forall m :: m in ms && m.version < plan[n].version && m.version !in applied ==> m in plan[..n]
    ensures forall w :: w in VersionsOf(plan, n) <==> w !in applied && w in Versions(ms) && w < plan[n].version
  {
    forall w ensures w in VersionsOf(plan, n) <==> w !in applied && w in Versions(ms) && w < plan[n].version {
      if w in VersionsOf(plan, n) {
        var i :| 0 <= i < n && plan[i].version == w;
        InVersions(ms, plan[i]);
      }
      if w !in applied && w in Versions(ms) && w < plan[n].version {
        var j :| 0 <= j < |ms| && ms[j].version == w;
        InPrefix(plan, n, ms[j]);
      }
    }
  }

  lemma InPrefix(plan: seq<Migration>, n: nat, m: Migration)
    requires n <= |plan| && m in plan[..n]
    ensures m.version in VersionsOf(plan, n)
  {
    var i :| 0 <= i < n && plan[i] == m;
  }

  /** An Up or UpTo that fails at v had no row for v and has none: its script is the oldest
      missing one that fails, and exactly the missing files older than v have got their rows. */
  lemma FailedUp(ms: seq<Migration>, history: History, allow: bool, limit: nat, target: int, fails: set<int>, v: int)
    requires ValidFiles(ms) && UpRun(ms, history, {}, allow, limit, target, fails).ending == Failed(v)
    ensures var h := UpRun(ms, history, {}, allow, limit, target, fails).history;
      && v in fails && v in Versions(ms) && v !in history && v !in h && (target <= 0 || v <= target)
      && (forall w :: w in h <==> w in history || (w in Versions(ms) && w < v))
      && (forall w :: w in history ==> h[w] == history[w])
      && (forall w :: w in h && w !in history ==> w !in fails && HasRow(ms, w, h[w]))
  {
    var plan := UpPlan(ms, history, allow, limit, target).value;
    UpPlanIsClosed(ms, history, allow, limit, target);
    UpPlanIsPrefix(ms, history, allow, limit, target);
    var n := UpStopsAtTheFirstFailure(ms, history, allow, limit, target, fails);
    var h := UpRun(ms, history, {}, allow, limit, target, fails).history;
    TodoMembers(ms, history.Keys, target, plan[n]);
    InVersions(ms, plan[n]);
    OlderAreBefore(ms, history.Keys, plan, n);
    NewRowsAreFiles(ms, history, plan, n, fails, h);
  }

  lemma NewRowsAreFiles(ms: seq<Migration>, history: History, plan: seq<Migration>, n: nat, fails: set<int>, h: History)
    requires n <= |plan| && AppliedFirst(history, plan, n, h) && forall i :: 0 <= i < |plan| ==> plan[i] in ms
    requires forall i :: 0 <= i < n ==> plan[i].version !in fails
    ensures forall w :: w in h && w !in history ==> w !in fails && HasRow(ms, w, h[w])
  {
    forall w | w in h && w !in history ensures w !in fails && HasRow(ms, w, h[w]) {
      var i :| 0 <= i < n && plan[i].version == w;
      var j :| 0 <= j < |ms| && ms[j] == plan[i];
    }
  }

  ghost predicate StopsDown(plan: seq<Migration>, k: nat, n: nat, fails: set<int>, ending: Ending)
    requires k <= |plan|
  {
    && n <= k && (forall i :: 0 <= i < n ==> plan[i].version !in fails && plan[i].down.Some?)
    && if n == k then ending == Success
       else if plan[n].down.None? then ending == NoDown(plan[n].version)
       else plan[n].version in fails && ending == Failed(plan[n].version)
  }

  lemma {:induction false} ThroughStopsDown(history: History, plan: seq<Migration>, k: nat, fails: set<int>)
    returns (n: nat)
    requires k <= |plan| && Descending(plan) && forall i :: 0 <= i < |plan| ==> plan[i].version in history
    ensures StopsDown(plan, k, n, fails, Through(history, plan, k, true, fails).ending)
    ensures Through(history, plan, k, true, fails).history == history - VersionsOf(plan, n)
  {
    if k == 0 {
      n := 0;
    } else {
      n := ThroughStopsDown(history, plan, k - 1, fails);
      if n == k - 1 {
        assert plan[k - 1].version !in VersionsOf(plan, k - 1);
        if plan[k - 1].version !in fails && plan[k - 1].down.Some? {
          n := k;
          assert VersionsOf(plan, k) == VersionsOf(plan, k - 1) + {plan[k - 1].version};
        }
      }
    }
  }

  lemma DownPlanDescends(ms: seq<Migration>, history: History, target: int)
    requires ValidFiles(ms) && DownPlan(ms, history, target).Yes?
    ensures var plan := DownPlan(ms, history, target).value;
      && Descending(plan)
      && (forall i :: 0 <= i < |plan| ==> plan[i] in ms && plan[i].version in history
                                          && (target < 0 || plan[i].version > target))
      && (forall i, v :: 0 <= i < |plan| && v in history && v > plan[i].version ==> v in VersionsOf(plan, i))
  {
    var all := Rollbacks(ms, history.Keys, target);
    var plan := DownPlan(ms, history, target).value;
    RollbacksDescend(ms, history.Keys, target);
    RollbackVersions(ms, history.Keys, target);
    forall i | 0 <= i < |plan|
      ensures plan[i] in ms && plan[i].version in history && (target < 0 || plan[i].version > target) {
      RollbackMembers(ms, history.Keys, target, all[i]);
      assert plan[i] == all[i];
    }
    forall i, v | 0 <= i < |plan| && v in history && v > plan[i].version ensures v in VersionsOf(plan, i) {
      assert v in VersionsOf(all, |all|);
      var j :| 0 <= j < |all| && all[j].version == v;
      assert j < i && plan[j] == all[j];
    }
  }

  /** What Down leaves behind, however it ends: the history without its plan's files up to
      the first that has no down script or whose script fails; the ending names it. */
  lemma DownStopsAtTheFirstFailure(ms: seq<Migration>, history: History, target: int, fails: set<int>) returns (n: nat)
    requires ValidFiles(ms) && DownPlan(ms, history, target).Yes?
    ensures var plan := DownPlan(ms, history, target).value;
      var r := DownRun(ms, history, {}, target, fails);
      StopsDown(plan, |plan|, n, fails, r.ending) && r.history == history - VersionsOf(plan, n)
  {
    var plan := DownPlan(ms, history, target).value;
    DownPlanDescends(ms, history, target);
    n := ThroughStopsDown(history, plan, |plan|, fails);
  }

  ghost predicate LacksDown(ms: seq<Migration>, v: int) {
    exists i :: 0 <= i < |ms| && ms[i].version == v && ms[i].down.None?
  }

  /** A Down or DownTo that stops at v leaves its row, and has rolled back exactly the
      applied versions newer than v. */
  lemma FailedDown(ms: seq<Migration>, history: History, target: int, fails: set<int>, v: int)
    requires ValidFiles(ms)
    requires DownRun(ms, history, {}, target, fails).ending in {Failed(v), NoDown(v)}
    ensures var r := DownRun(ms, history, {}, target, fails);
      && r.history == Below(history, v) && v in history && (target < 0 || v > target)
      && if r.ending.NoDown? then LacksDown(ms, v) else v in fails && !LacksDown(ms, v)
  {
    var plan := DownPlan(ms, history, target).value;
    DownPlanDescends(ms, history, target);
    var n := DownStopsAtTheFirstFailure(ms, history, target, fails);
    assert plan[n].version == v;
    NewerAreBefore(history, plan, n);
    LacksDownItself(ms, plan[n]);
  }

  lemma NewerAreBefore(history: History, plan: seq<Migration>, n: nat)
    requires n < |plan| && Descending(plan)
    requires forall v :: v in history && v > plan[n].version ==> v in VersionsOf(plan, n)
    ensures history - VersionsOf(plan, n) == Below(history, plan[n].version)
  {
    forall w | w in VersionsOf(plan, n) ensures w > plan[n].version {
      var i :| 0 <= i < n && plan[i].version == w;
    }
  }

  lemma LacksDownItself(ms: seq<Migration>, m: Migration)
    requires ValidFiles(ms) && m in ms
    ensures LacksDown(ms, m.version) <==> m.down.None?
  {
    var j :| 0 <= j < |ms| && ms[j] == m;
  }

  /** Whatever Up or Down did, succeeding or not, the history they leave verifies again. */
  lemma RunsKeepTheHistoryVerified(ms: seq<Migration>, history: History, dirty: set<int>, allow: bool, limit: nat,
      target: int, fails: set<int>)
    requires ValidFiles(ms) && Verify(ms, history).Yes?
    ensures Verify(ms, UpRun(ms, history, dirty, allow, limit, target, fails).history).Yes?
    ensures Verify(ms, DownRun(ms, history, dirty, target, fails).history).Yes?
  {
    if dirty == {} && UpPlan(ms, history, allow, limit, target).Yes? {
      var plan := UpPlan(ms, history, allow, limit, target).value;
      UpPlanIsClosed(ms, history, allow, limit, target);
      var n := UpStopsAtTheFirstFailure(ms, history, allow, limit, target, fails);
      AppliedVerifies(ms, history, plan, n, UpRun(ms, history, {}, allow, limit, target, fails).history);
    }
    if dirty == {} && DownPlan(ms, history, target).Yes? {
      var n := DownStopsAtTheFirstFailure(ms, history, target, fails);
    }
  }

  lemma AppliedVerifies(ms: seq<Migration>, history: History, plan: seq<Migration>, n: nat, h: History)
    requires ValidFiles(ms) && Verify(ms, history).Yes? && n <= |plan| && AppliedFirst(history, plan, n, h)
    requires forall i :: 0 <= i < |plan| ==> plan[i] in ms
    ensures Verify(ms, h).Yes?
  {
    forall v | v in h ensures v in Versions(ms) {
      if v in history {
        assert v in history.Keys;
      } else {
        var i :| 0 <= i < n && plan[i].version == v;
        InVersions(ms, plan[i]);
      }
    }
    forall j | 0 <= j < |ms| && ms[j].version in h ensures ms[j].checksum == h[ms[j].version].checksum {
      if ms[j].version !in history {
        var i :| 0 <= i < n && plan[i].version == ms[j].version;
        var k :| 0 <= k < |ms| && ms[k] == plan[i];
        assert k == j;
      }
    }
    assert h.Keys <= Versions(ms);
  }

  // ---------------------------------------------------------------- runs that are refused

  ghost predicate ChecksumDiffers(ms: seq<Migration>, history: History) {
    exists m :: m in ms && m.version in history && m.checksum != history[m.version].checksum
  }

  ghost predicate HasOrphan(ms: seq<Migration>, history: History) {
    exists v :: v in history && forall m :: m in ms ==> m.version != v
  }

  lemma VerifyRefusesExactly(ms: seq<Migration>, history: History)
    ensures Verify(ms, history) == No(ChecksumMismatch) <==> ChecksumDiffers(ms, history)
    ensures Verify(ms, history) == No(Orphan) <==> !ChecksumDiffers(ms, history) && HasOrphan(ms, history)
    ensures Verify(ms, history).Yes? <==> !ChecksumDiffers(ms, history) && !HasOrphan(ms, history)
  {
    if !ChecksumsMatch(ms, history) {
      var i :| 0 <= i < |ms| && ms[i].version in history && ms[i].checksum != history[ms[i].version].checksum;
      assert ms[i] in ms;
    }
    if !NoOrphans(ms, history) {
      var v := SomeBeyond(history.Keys, Versions(ms));
      forall m | m in ms ensures m.version != v {
        InVersions(ms, m);
      }
    }
    forall v | v in Versions(ms) ensures exists m :: m in ms && m.version == v {
      var i :| 0 <= i < |ms| && ms[i].version == v;
      assert ms[i] in ms;
    }
  }

  /** When Up is refused, and with which answer: a changed file, then a row without a file,
      then a dirty version, then a file out of order. Then nothing changes; otherwise it runs. */
  lemma UpRefusedExactly(ms: seq<Migration>, history: History, dirty: set<int>, allow: bool, limit: nat, target: int,
      fails: set<int>)
    requires ValidFiles(ms)
    ensures var r := UpRun(ms, history, dirty, allow, limit, target, fails);
      if ChecksumDiffers(ms, history) then r == State(history, Refused(ChecksumMismatch))
      else if HasOrphan(ms, history) then r == State(history, Refused(Orphan))
      else if dirty != {} then r == State(history, DirtyState)
      else if !allow && !Closed(ms, history) then r == State(history, Refused(OutOfOrder))
      else r.ending.Success? || r.ending.Failed?
  {
    VerifyRefusesExactly(ms, history);
    if Verify(ms, history).Yes? {
      RefusedExactlyWhenOpen(ms, history, limit, target);
      if dirty == {} && UpPlan(ms, history, allow, limit, target).Yes? {
        var n := UpStopsAtTheFirstFailure(ms, history, allow, limit, target, fails);
      }
    }
  }

  lemma DownRefusedExactly(ms: seq<Migration>, history: History, dirty: set<int>, target: int, fails: set<int>)
    requires ValidFiles(ms)
    ensures var r := DownRun(ms, history, dirty, target, fails);
      if ChecksumDiffers(ms, history) then r == State(history, Refused(ChecksumMismatch))
      else if HasOrphan(ms, history) then r == State(history, Refused(Orphan))
      else if dirty != {} then r == State(history, DirtyState)
      else if history == map[] then r == State(history, Refused(NothingApplied))
      else r.ending.Success? || r.ending.Failed? || r.ending.NoDown?
  {
    VerifyRefusesExactly(ms, history);
    if dirty == {} && DownPlan(ms, history, target).Yes? {
      var n := DownStopsAtTheFirstFailure(ms, history, target, fails);
    }
  }

  // ---------------------------------------------------------------- up and back

  /** The newest applied version, 0 when there is none. */
  ghost predicate IsNewest(history: History, v: int) {
    (history == map[] && v == 0) || (v in history && forall w :: w in history ==> w <= v)
  }

  lemma BackAgain(ms: seq<Migration>, history: History, up: History, version: int)
    requires ValidFiles(ms) && IsNewest(history, version) && NoOrphans(ms, history)
    requires forall v :: v in up <==> v in history || v in Versions(ms)
    requires forall v :: v in history ==> up[v] == history[v]
    ensures Below(up, version) == history <==> Closed(ms, history)
  {
    var down := Below(up, version);
    if Closed(ms, history) {
      forall v | v in down ensures v in history {
        AtMostNewest(ms, history, version, v);
      }
      assert down.Keys == history.Keys;
    } else {
      var f, g :| f in ms && g in ms && f.version < g.version && g.version in history && f.version !in history;
      InVersions(ms, f);
      assert f.version in down;
    }
  }

  /** Up, then DownTo the version it started from, restores the history, rows and all,
      exactly when no file older than that version was missing. */
  lemma UpThenDownTo(ms: seq<Migration>, history: History, allow: bool, version: nat, fails: set<int>, fails': set<int>)
    requires ValidFiles(ms) && IsNewest(history, version)
    requires UpRun(ms, history, {}, allow, 0, 0, fails).ending.Success?
    requires DownRun(ms, UpRun(ms, history, {}, allow, 0, 0, fails).history, {}, version, fails').ending.Success?
    ensures DownRun(ms, UpRun(ms, history, {}, allow, 0, 0, fails).history, {}, version, fails').history == history
            <==> Closed(ms, history)
  {
    var up := UpRun(ms, history, {}, allow, 0, 0, fails).history;
    SuccessfulUpTo(ms, history, {}, allow, 0, fails);
    SuccessfulDownTo(ms, up, {}, version, fails');
    assert Verify(ms, history).Yes?;
    BackAgain(ms, history, up, version);
  }

  lemma InVersions(ms: seq<Migration>, m: Migration)
    requires m in ms
    ensures m.version in Versions(ms)
  {
    var i :| 0 <= i < |ms| && ms[i] == m;
  }

  /** In a closed history every file up to the newest version is applied. */
  lemma AtMostNewest(ms: seq<Migration>, history: History, version: int, v: int)
    requires ValidFiles(ms) && Closed(ms, history) && NoOrphans(ms, history) && IsNewest(history, version)
    requires v in history || (v in Versions(ms) && v <= version)
    ensures v in history
  {
    if v in Versions(ms) {
      var i :| 0 <= i < |ms| && ms[i].version == v;
      assert ms[i] in ms;
      if version in history {
        assert version in Versions(ms);
        var j :| 0 <= j < |ms| && ms[j].version == version;
        assert ms[j] in ms;
      }
    }
  }

  /** So with out-of-order files refused, the way back always restores it. */
  lemma UpThenDownToRestores(ms: seq<Migration>, history: History, version: nat, fails: set<int>, fails': set<int>)
    requires ValidFiles(ms) && IsNewest(history, version)
    requires UpRun(ms, history, {}, false, 0, 0, fails).ending.Success?
    requires DownRun(ms, UpRun(ms, history, {}, false, 0, 0, fails).history, {}, version, fails').ending.Success?
    ensures DownRun(ms, UpRun(ms, history, {}, false, 0, 0, fails).history, {}, version, fails').history == history
  {
    RefusedExactlyWhenOpen(ms, history, 0, 0);
    UpThenDownTo(ms, history, false, version, fails, fails');
  }

  // ---------------------------------------------------------------- the engine

  /** Once a plan has stopped, its remaining migrations change nothing. */
  lemma {:induction false} ThroughStops(history: History, plan: seq<Migration>, k: nat, n: nat, down: bool,
      fails: set<int>)
    requires k <= n <= |plan| && !Through(history, plan, k, down, fails).ending.Success?
    ensures Through(history, plan, n, down, fails) == Through(history, plan, k, down, fails)
  {
    if k >= n {
    } else {
      ThroughStops(history, plan, k, n - 1, down, fails);
    }
  }

  lemma PendingStep(ms: seq<Migration>, i: nat, applied: set<int>)
    requires i < |ms|
    ensures Pending(ms[i..], applied)
         == (if ms[i].version in applied then [] else [ms[i]]) + Pending(ms[i + 1..], applied)
  {
    assert ms[i..][1..] == ms[i + 1..];
  }

  /** The pending files found so far and those still to find are all of them. */
  lemma PendingMoves(ms: seq<Migration>, i: nat, applied: set<int>, found: seq<Migration>)
    requires i < |ms|
    ensures found + Pending(ms[i..], applied)
         == (if ms[i].version in applied then found else found + [ms[i]]) + Pending(ms[i + 1..], applied)
  {
    PendingStep(ms, i, applied);
  }

  /** The plan's k-th migration is the next to go through, or the last. */
  lemma ThroughNext(history: History, plan: seq<Migration>, k: nat, down: bool, fails: set<int>)
    requires 0 < k <= |plan| && Through(history, plan, k - 1, down, fails).ending.Success?
    ensures Through(history, plan, k, down, fails)
         == One(Through(history, plan, k - 1, down, fails).history, plan[k - 1], down, fails)
    ensures !Through(history, plan, k, down, fails).ending.Success? ==>
              Through(history, plan, |plan|, down, fails) == Through(history, plan, k, down, fails)
  {
    if !Through(history, plan, k, down, fails).ending.Success? {
      ThroughStops(history, plan, k, |plan|, down, fails);
    }
  }

  /** How many of the first i pending files are to be applied. */
  function Taken(pending: seq<Migration>, target: int, i: nat): nat
    requires i <= |pending|
  {
    if i == 0 then 0
    else Taken(pending, target, i - 1) + if target > 0 && pending[i - 1].version > target then 0 else 1
  }

  lemma {:induction false} TakenIsUpTo(pending: seq<Migration>, target: int, i: nat)
    requires i <= |pending|
    ensures var todo, k := UpTo(pending, target), Taken(pending, target, i);
      k <= |todo| && UpTo(pending[i..], target) == todo[k..]
  {
    if i == 0 {
      assert pending[0..] == pending;
    } else {
      var todo, k := UpTo(pending, target), Taken(pending, target, i - 1);
      TakenIsUpTo(pending, target, i - 1);
      assert pending[i - 1..][1..] == pending[i..];
      if !(target > 0 && pending[i - 1].version > target) {
        TakesNext(todo, k, pending[i - 1], UpTo(pending[i..], target));
      }
    }
  }

  /** The next pending file is beyond the target, or the limit is reached, or it is the next
      of the plan. */
  lemma TakesOne(pending: seq<Migration>, target: int, limit: nat, i: nat)
    requires i < |pending| && Taken(pending, target, i) <= |Limited(UpTo(pending, target), limit)|
    ensures var plan, k := Limited(UpTo(pending, target), limit), Taken(pending, target, i);
      target <= 0 || pending[i].version <= target ==>
        if limit > 0 && k == limit then k == |plan| else k < |plan| && plan[k] == pending[i]
  {
    TakenIsUpTo(pending, target, i);
    if target <= 0 || pending[i].version <= target {
      assert pending[i..][1..] == pending[i + 1..];
      TakesNext(UpTo(pending, target), Taken(pending, target, i), pending[i], UpTo(pending[i + 1..], target));
    }
  }

  lemma AllTaken(pending: seq<Migration>, target: int, limit: nat)
    requires Taken(pending, target, |pending|) <= |Limited(UpTo(pending, target), limit)|
    ensures Taken(pending, target, |pending|) == |Limited(UpTo(pending, target), limit)|
  {
    TakenIsUpTo(pending, target, |pending|);
    assert UpTo(pending, target)[Taken(pending, target, |pending|)..] == [];
  }

  /** The next file downwards is not applied, or ends the plan, or is the next to do. */
  lemma RollbacksTake(ms: seq<Migration>, i: nat, applied: set<int>, target: int, todo: seq<Migration>, k: nat)
    requires 0 < i <= |ms| && k <= |todo| && Rollbacks(ms[..i], applied, target) == todo[k..]
    ensures if ms[i - 1].version !in applied then Rollbacks(ms[..i - 1], applied, target) == todo[k..]
            else if target >= 0 && ms[i - 1].version <= target then k == |todo|
            else k < |todo| && todo[k] == ms[i - 1] && Rollbacks(ms[..i - 1], applied, target) == todo[k + 1..]
  {
    assert ms[..i][..i - 1] == ms[..i - 1];
    if ms[i - 1].version in applied && !(target >= 0 && ms[i - 1].version <= target) {
      TakesNext(todo, k, ms[i - 1], Rollbacks(ms[..i - 1], applied, target));
    }
  }

  /** One migration's place in the list the plan takes its migrations from. */
  lemma TakesNext(all: seq<Migration>, k: nat, m: Migration, rest: seq<Migration>)
    requires k <= |all| && all[k..] == [m] + rest
    ensures k < |all| && all[k] == m && all[k + 1..] == rest
  {
    assert all[k..][0] == m;
    assert all[k..][1..] == rest;
  }

  /** The larger of 0 and every version of the set. */
  method MaxVersion(versions: set<int>) returns (newest: int)
    ensures newest >= 0 && (newest == 0 || newest in versions)
    ensures forall v :: v in versions ==> v <= newest
  {
    newest := 0;
    var todo := versions;
    while todo != {}
      invariant todo <= versions
      invariant newest >= 0 && (newest == 0 || newest in versions)
      invariant forall v :: v in versions && v !in todo ==> v <= newest
      decreases todo
    {
      var v := AnyOf(todo);
      if newest < v {
        newest := v;
      }
      todo := todo - {v};
    }
  }

  class Engine {
    const ms: seq<Migration>
    const allowOutOfOrder: bool
    var history: History
    var dirty: set<int>

    constructor (ms: seq<Migration>, allowOutOfOrder: bool, history: History, dirty: set<int>)
      ensures this.ms == ms && this.allowOutOfOrder == allowOutOfOrder
      ensures this.history == history && this.dirty == dirty
    {
      this.ms := ms;
      this.allowOutOfOrder := allowOutOfOrder;
      this.history := history;
      this.dirty := dirty;
    }

    method VerifyChecksums() returns (same: bool)
      ensures same <==> ChecksumsMatch(ms, history)
    {
      var i := 0;
      while i < |ms|
        invariant i <= |ms|
        invariant forall k :: 0 <= k < i && ms[k].version in history ==>
            ms[k].checksum == history[ms[k].version].checksum
      {
        if ms[i].version in history && ms[i].checksum != history[ms[i].version].checksum {
          return false;
        }
        i := i + 1;
      }
      return true;
    }

    /** verify: a checksum that differs comes before an applied version without a file. */
    method VerifyRows() returns (r: Decision<()>)
      requires ValidFiles(ms)
      ensures r == Verify(ms, history)
    {
      var same := VerifyChecksums();
      if !same {
        return No(ChecksumMismatch);
      }
      var todo := history.Keys;
      while todo != {}
        invariant todo <= history.Keys
        invariant history.Keys - todo <= Versions(ms)
        decreases todo
      {
        var v := AnyOf(todo);
        if v !in Versions(ms) {
          return No(Orphan);
        }
        todo := todo - {v};
      }
      return Yes(());
    }

    /** apply: probe, script and row in one transaction. */
    method Apply(m: Migration, fails: set<int>) returns (ending: Ending)
      modifies this`history
      ensures State(history, ending) == ApplyOne(old(history), m, fails)
    {
      if m.version in history {
        return Success;
      }
      if m.version in fails {
        return Failed(m.version);
      }
      history := history[m.version := RowOf(m)];
      return Success;
    }

    method Rollback(m: Migration, fails: set<int>) returns (ending: Ending)
      modifies this`history
      ensures State(history, ending) == RollbackOne(old(history), m, fails)
    {
      if m.down.None? {
        return NoDown(m.version);
      }
      if m.version !in history {
        return Success;
      }
      if m.version in fails {
        return Failed(m.version);
      }
      history := history - {m.version};
      return Success;
    }

    /** The files not yet applied, and whether any is older than the newest applied. */
    method FindPending(applied: set<int>, newest: int) returns (pending: seq<Migration>, late: bool)
      requires ValidFiles(ms)
      requires newest >= 0 && (newest == 0 || newest in applied) && forall v :: v in applied ==> v <= newest
      ensures pending == Pending(ms, applied) && (late <==> AnyLate(pending, applied))
    {
      pending, late := [], false;
      var i := 0;
      assert ms[0..] == ms;
      while i < |ms|
        invariant i <= |ms|
        invariant pending + Pending(ms[i..], applied) == Pending(ms, applied)
        invariant late <==> AnyLate(pending, applied)
      {
        PendingMoves(ms, i, applied, pending);
        if ms[i].version !in applied {
          ghost var was := pending;
          pending := pending + [ms[i]];
          LateSnoc(was, ms[i], applied, newest);
          if ms[i].version < newest {
            late := true;
          }
        }
        i := i + 1;
      }
    }

    /** up. */
    method Up(limit: nat, target: int, fails: set<int>) returns (ending: Ending)
      requires ValidFiles(ms)
      modifies this`history
      ensures State(history, ending) == UpRun(ms, old(history), dirty, allowOutOfOrder, limit, target, fails)
    {
      var applied := history;
      var ok := VerifyRows();
      if ok.No? {
        return Refused(ok.why);
      }
      if dirty != {} {
        return DirtyState;
      }
      var newest := MaxVersion(applied.Keys);
      var pending, late := FindPending(applied.Keys, newest);
      if late && !allowOutOfOrder {
        return Refused(OutOfOrder);
      }
      ending := ApplyPending(pending, limit, target, fails);
    }

    method ApplyPending(pending: seq<Migration>, limit: nat, target: int, fails: set<int>) returns (ending: Ending)
      modifies this`history
      ensures var plan := Limited(UpTo(pending, target), limit);
        State(history, ending) == Through(old(history), plan, |plan|, false, fails)
    {
      ghost var applied := history;
      ghost var plan := Limited(UpTo(pending, target), limit);
      var count, i := 0, 0;
      ending := Success;
      ghost var reached := false;
      while i < |pending|
        invariant i <= |pending| && count == Taken(pending, target, i) <= |plan| && ending.Success? && !reached
        invariant Through(applied, plan, count, false, fails) == State(history, ending)
      {
        var m := pending[i];
        TakesOne(pending, target, limit, i);
        i := i + 1;
        if target > 0 && m.version > target {
          continue;
        }
        if limit > 0 && count == limit {
          reached := true;
          break;
        }
        ending := Apply(m, fails);
        count := count + 1;
        ThroughNext(applied, plan, count, false, fails);
        if !ending.Success? {
          return;
        }
      }
      if !reached {
        AllTaken(pending, target, limit);
      }
    }

    /** down. */
    method Down(target: int, fails: set<int>) returns (ending: Ending)
      requires ValidFiles(ms)
      modifies this`history
      ensures State(history, ending) == DownRun(ms, old(history), dirty, target, fails)
    {
      var applied := history;
      var ok := VerifyRows();
      if ok.No? {
        return Refused(ok.why);
      }
      if dirty != {} {
        return DirtyState;
      }
      if applied == map[] {
        return Refused(NothingApplied);
      }
      ending := RollbackApplied(target, fails);
    }

    method RollbackApplied(target: int, fails: set<int>) returns (ending: Ending)
      requires ValidFiles(ms)
      modifies this`history
      ensures var all := Rollbacks(ms, old(history).Keys, target);
        var plan := if target < 0 && all != [] then all[..1] else all;
        State(history, ending) == Through(old(history), plan, |plan|, true, fails)
    {
      var applied := history;
      ghost var all := Rollbacks(ms, applied.Keys, target);
      ghost var plan := if target < 0 && all != [] then all[..1] else all;
      ghost var count := 0;
      var i := |ms|;
      assert ms[..i] == ms;
      while i > 0
        invariant 0 <= i <= |ms| && count <= |plan|
        invariant Rollbacks(ms[..i], applied.Keys, target) == all[count..]
        invariant target < 0 ==> count == 0
        invariant Through(applied, plan, count, true, fails) == State(history, Success)
      {
        RollbacksTake(ms, i, applied.Keys, target, all, count);
        i := i - 1;
        var m := ms[i];
        if m.version !in applied {
          continue;
        }
        if target >= 0 && m.version <= target {
          break;
        }
        ending := Rollback(m, fails);
        count := count + 1;
        if !ending.Success? {
          ThroughStops(applied, plan, count, |plan|, true, fails);
          return;
        }
        if target < 0 {
          break;
        }
      }
      assert count == |plan|;
      return Success;
    }

    /** Version: the newest applied version, 0 when there is none. */
    method Version() returns (r: Decision<int>)
      requires ValidFiles(ms)
      ensures Verify(ms, history).No? ==> r == No(Verify(ms, history).why)
      ensures Verify(ms, history).Yes? ==> r.Yes? && r.value >= 0 && IsNewest(history, r.value)
    {
      var ok := VerifyRows();
      if ok.No? {
        return No(ok.why);
      }
      var newest := MaxVersion(history.Keys);
      assert forall v :: v in history.Keys ==> v in Versions(ms);
      assert history != map[] ==> exists v :: v in history.Keys by {
        HasMember(history.Keys);
        assert history.Keys == {} ==> history == map[];
      }
      return Yes(newest);
    }

    /** The report on each file, in the files' order. */
    method ReportFiles(newest: int) returns (rows: seq<Report>)
      requires ValidFiles(ms)
      requires IsMax(newest, history.Keys * Versions(ms))
      ensures |rows| == |ms|
      ensures forall i :: 0 <= i < |ms| ==> rows[i] == FileReport(ms[i], history, dirty, history.Keys * Versions(ms))
    {
      rows := [];
      var i := 0;
      while i < |ms|
        invariant i == |rows| <= |ms|
        invariant forall k :: 0 <= k < i ==> rows[k] == FileReport(ms[k], history, dirty, history.Keys * Versions(ms))
      {
        var m := ms[i];
        LateIsBelowMax(m, history.Keys * Versions(ms), newest);
        var known := m.version in history;
        var late, dirtied := !known && m.version < newest, known && m.version in dirty;
        rows := rows + [Report(m.version, m.name, known, late, false, dirtied)];
        i := i + 1;
      }
    }

    /** The report on each applied version without a file, after those on the files. */
    method ReportOrphans(files: seq<Report>) returns (rows: seq<Report>)
      requires |files| == |ms| && Ascending(ms) && forall i :: 0 <= i < |ms| ==> files[i].version == ms[i].version
      ensures OnePerVersion(rows)
      ensures forall e :: e in rows <==> e in files || IsOrphanReport(e, ms, history, dirty)
    {
      rows := files;
      var todo := history.Keys - Versions(ms);
      while todo != {}
        invariant todo <= history.Keys - Versions(ms)
        invariant forall e :: e in rows <==> e in files || (e.version !in todo && IsOrphanReport(e, ms, history, dirty))
        invariant OnePerVersion(rows)
        decreases todo
      {
        var v := AnyOf(todo);
        var e := Report(v, history[v].name, true, false, true, v in dirty);
        assert forall k :: 0 <= k < |rows| ==> rows[k] in rows && rows[k].version != v;
        rows := rows + [e];
        todo := todo - {v};
      }
    }

    /** Status: one row for every version that has a file or a history row, oldest first. */
    method Status() returns (r: Decision<seq<Report>>)
      requires ValidFiles(ms)
      ensures r.Yes? <==> ChecksumsMatch(ms, history)
      ensures r.Yes? ==> IsStatus(r.value, ms, history, dirty)
    {
      var same := VerifyChecksums();
      if !same {
        return No(ChecksumMismatch);
      }
      var newest := MaxVersion(history.Keys * Versions(ms));
      var files := ReportFiles(newest);
      var rows := ReportOrphans(files);
      var sorted := Sorted(rows);
      assert IsStatus(sorted, ms, history, dirty) by {
        forall e ensures e in sorted <==> IsReport(e, ms, history, dirty) {
          var known := history.Keys * Versions(ms);
          assert e in files <==> exists i :: 0 <= i < |ms| && e == FileReport(ms[i], history, dirty, known);
        }
      }
      return Yes(sorted);
    }
  }

  // ---------------------------------------------------------------- status

  datatype Report = Report(version: int, name: string, applied: bool, outOfOrder: bool, orphaned: bool, dirty: bool)

  /** A missing file is out of order when a newer file is applied. */
  function FileReport(m: Migration, history: History, dirty: set<int>, known: set<int>): Report {
    var applied := m.version in history;
    Report(m.version, m.name, applied, !applied && Late(m, known), false, applied && m.version in dirty)
  }

  predicate IsOrphanReport(e: Report, ms: seq<Migration>, history: History, dirty: set<int>) {
    e.version in history && e.version !in Versions(ms)
    && e == Report(e.version, history[e.version].name, true, false, true, e.version in dirty)
  }

  ghost predicate IsReport(e: Report, ms: seq<Migration>, history: History, dirty: set<int>) {
    || (exists i :: 0 <= i < |ms| && e == FileReport(ms[i], history, dirty, history.Keys * Versions(ms)))
    || IsOrphanReport(e, ms, history, dirty)
  }

  /** Strictly ascending, and exactly the reports on files and on history rows. */
  ghost predicate IsStatus(rows: seq<Report>, ms: seq<Migration>, history: History, dirty: set<int>) {
    && Increasing(rows)
    && (forall e :: e in rows <==> IsReport(e, ms, history, dirty))
  }

  ghost predicate OnePerVersion(rows: seq<Report>) {
    forall i, j :: 0 <= i < j < |rows| ==> rows[i].version != rows[j].version
  }

  ghost predicate Increasing(rows: seq<Report>) {
    forall i, j :: 0 <= i < j < |rows| ==> rows[i].version < rows[j].version
  }

  ghost predicate IsMax(newest: int, versions: set<int>) {
    newest >= 0 && (newest == 0 || newest in versions) && forall v :: v in versions ==> v <= newest
  }

  lemma LateIsBelowMax(m: Migration, versions: set<int>, newest: int)
    requires m.version > 0 && IsMax(newest, versions)
    ensures Late(m, versions) <==> m.version < newest
  {
  }

  /** sorted is the first i rows in order. */
  ghost predicate SortedSoFar(rows: seq<Report>, i: nat, sorted: seq<Report>)
    requires i <= |rows|
  {
    Increasing(sorted) && forall e :: e in sorted <==> e in rows[..i]
  }

  method Sorted(rows: seq<Report>) returns (sorted: seq<Report>)
    requires OnePerVersion(rows)
    ensures Increasing(sorted) && forall e :: e in sorted <==> e in rows
  {
    sorted := [];
    var i := 0;
    while i < |rows|
      invariant i <= |rows| && SortedSoFar(rows, i, sorted)
    {
      var j := 0;
      while j < |sorted| && sorted[j].version < rows[i].version
        invariant j <= |sorted| && forall k :: 0 <= k < j ==> sorted[k].version < rows[i].version
      {
        j := j + 1;
      }
      PutInOrder(rows, i, sorted, j);
      sorted := Inserted(sorted, j, rows[i]);
      i := i + 1;
    }
    assert rows[..i] == rows;
  }

  lemma NewVersion(rows: seq<Report>, i: nat, sorted: seq<Report>, k: nat)
    requires OnePerVersion(rows) && i < |rows| && SortedSoFar(rows, i, sorted) && k < |sorted|
    ensures sorted[k].version != rows[i].version
  {
    assert sorted[k] in rows[..i];
  }

  lemma PutInOrder(rows: seq<Report>, i: nat, sorted: seq<Report>, j: nat)
    requires OnePerVersion(rows) && i < |rows| && SortedSoFar(rows, i, sorted) && j <= |sorted|
    requires forall k :: 0 <= k < j ==> sorted[k].version < rows[i].version
    requires j < |sorted| ==> sorted[j].version >= rows[i].version
    ensures SortedSoFar(rows, i + 1, Inserted(sorted, j, rows[i]))
  {
    InsertedAt(sorted, j, rows[i]);
    forall k | j <= k < |sorted| ensures sorted[k].version > rows[i].version {
      NewVersion(rows, i, sorted, k);
    }
    assert rows[..i + 1] == rows[..i] + [rows[i]];
  }

  /** What each row tells: whether its version is applied, whether a file has it, whether it
      was left dirty, whether a newer file is applied over it, and the file's or row's name. */
  lemma RowsTell(rows: seq<Report>, ms: seq<Migration>, history: History, dirty: set<int>, e: Report)
    requires ValidFiles(ms) && IsStatus(rows, ms, history, dirty) && e in rows
    ensures e.applied <==> e.version in history
    ensures e.orphaned <==> forall m :: m in ms ==> m.version != e.version
    ensures e.dirty <==> e.version in history && e.version in dirty
    ensures e.outOfOrder <==>
            && e.version !in history
            && exists m :: m in ms && m.version in history && e.version < m.version
    ensures if e.orphaned then e.name == history[e.version].name
            else exists m :: m in ms && m.version == e.version && e.name == m.name
  {
    var known := history.Keys * Versions(ms);
    assert IsReport(e, ms, history, dirty);
    forall m | m in ms ensures m.version in Versions(ms) {
      InVersions(ms, m);
    }
    if IsOrphanReport(e, ms, history, dirty) {
    } else {
      var k :| 0 <= k < |ms| && e == FileReport(ms[k], history, dirty, known);
      assert ms[k] in ms;
      LateBelowAFile(ms, history, ms[k]);
    }
  }

  lemma LateBelowAFile(ms: seq<Migration>, history: History, f: Migration)
    ensures Late(f, history.Keys * Versions(ms)) <==>
            exists m :: m in ms && m.version in history && f.version < m.version
  {
    if Late(f, history.Keys * Versions(ms)) {
      var v :| v in history.Keys * Versions(ms) && f.version < v;
      var j :| 0 <= j < |ms| && ms[j].version == v;
      assert ms[j] in ms;
    }
    if exists m :: m in ms && m.version in history && f.version < m.version {
      var m :| m in ms && m.version in history && f.version < m.version;
      InVersions(ms, m);
      assert m.version in history.Keys * Versions(ms);
    }
  }

  /** Every version of files or history has exactly one row. */
  lemma OneRowEach(rows: seq<Report>, ms: seq<Migration>, history: History, dirty: set<int>, v: int)
    requires IsStatus(rows, ms, history, dirty) && v in Versions(ms) + history.Keys
    ensures exists i :: 0 <= i < |rows| && rows[i].version == v
              && forall j :: 0 <= j < |rows| && rows[j].version == v ==> j == i
  {
    var e: Report;
    if v in Versions(ms) {
      var k :| 0 <= k < |ms| && ms[k].version == v;
      e := FileReport(ms[k], history, dirty, history.Keys * Versions(ms));
    } else {
      e := Report(v, history[v].name, true, false, true, v in dirty);
    }
    assert IsReport(e, ms, history, dirty);
    var i :| 0 <= i < |rows| && rows[i] == e;
  }

  ghost predicate Warns(rows: seq<Report>) { exists i :: 0 <= i < |rows| && rows[i].outOfOrder }

  lemma WarningIsLate(rows: seq<Report>, ms: seq<Migration>, history: History, dirty: set<int>)
    requires NoOrphans(ms, history) && IsStatus(rows, ms, history, dirty) && Warns(rows)
    ensures AnyLate(Pending(ms, history.Keys), history.Keys)
  {
    var pending, known := Pending(ms, history.Keys), history.Keys * Versions(ms);
    var i :| 0 <= i < |rows| && rows[i].outOfOrder;
    assert rows[i] in rows && IsReport(rows[i], ms, history, dirty);
    var k :| 0 <= k < |ms| && rows[i] == FileReport(ms[k], history, dirty, known);
    PendingMembers(ms, history.Keys, ms[k]);
    var j :| 0 <= j < |pending| && pending[j] == ms[k];
    assert Late(pending[j], history.Keys);
  }

  lemma LateIsWarned(rows: seq<Report>, ms: seq<Migration>, history: History, dirty: set<int>)
    requires NoOrphans(ms, history) && IsStatus(rows, ms, history, dirty)
    requires AnyLate(Pending(ms, history.Keys), history.Keys)
    ensures Warns(rows)
  {
    var pending, known := Pending(ms, history.Keys), history.Keys * Versions(ms);
    assert known == history.Keys;
    var j :| 0 <= j < |pending| && Late(pending[j], history.Keys);
    PendingMembers(ms, history.Keys, pending[j]);
    var k :| 0 <= k < |ms| && ms[k] == pending[j];
    assert IsReport(FileReport(ms[k], history, dirty, known), ms, history, dirty);
    var i :| 0 <= i < |rows| && rows[i] == FileReport(ms[k], history, dirty, known);
  }

  /** Status warns of an out-of-order file exactly when Up without AllowOutOfOrder
      refuses, for a history that passes verification and has nothing dirty. */
  lemma StatusPredictsUp(rows: seq<Report>, ms: seq<Migration>, history: History, limit: nat, target: int,
      fails: set<int>)
    requires Verify(ms, history).Yes? && IsStatus(rows, ms, history, {})
    ensures Warns(rows) <==> UpRun(ms, history, {}, false, limit, target, fails).ending == Refused(OutOfOrder)
  {
    if Warns(rows) {
      WarningIsLate(rows, ms, history, {});
    }
    if AnyLate(Pending(ms, history.Keys), history.Keys) {
      LateIsWarned(rows, ms, history, {});
    }
    NeverRefusedLater(ms, history, limit, target, fails);
  }

  /** A run that gets past its checks does not end in the out-of-order refusal. */
  lemma NeverRefusedLater(ms: seq<Migration>, history: History, limit: nat, target: int, fails: set<int>)
    ensures UpRun(ms, history, {}, false, limit, target, fails).ending == Refused(OutOfOrder)
            <==> Verify(ms, history).Yes? && AnyLate(Pending(ms, history.Keys), history.Keys)
  {
    var plan := UpPlan(ms, history, false, limit, target);
    if plan.Yes? {
      ThroughRefusesNothing(history, plan.value, |plan.value|, false, fails);
    }
  }

  lemma {:induction false} ThroughRefusesNothing(history: History, plan: seq<Migration>, n: nat, down: bool,
      fails: set<int>)
    requires n <= |plan|
    ensures !Through(history, plan, n, down, fails).ending.Refused?
  {
    if n == 0 {
    } else {
      ThroughRefusesNothing(history, plan, n - 1, down, fails);
    }
  }

  lemma LateSnoc(pending: seq<Migration>, m: Migration, applied: set<int>, newest: int)
    requires newest >= 0 && (newest == 0 || newest in applied) && forall v :: v in applied ==> v <= newest
    requires m.version > 0
    ensures AnyLate(pending + [m], applied) <==> AnyLate(pending, applied) || m.version < newest
  {
    var more := pending + [m];
    if AnyLate(pending, applied) {
      var i :| 0 <= i < |pending| && Late(pending[i], applied);
      assert Late(more[i], applied);
    }
    if m.version < newest {
      assert Late(more[|pending|], applied);
    }
  }
}
