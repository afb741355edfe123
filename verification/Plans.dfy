/** What one run of cli/migrationx decides to do from the history it read: the
    checks, the pending or applied migrations, and the order they are taken in. */
module Plans {
  import opened Loader

  /** A history-table row; its version is the key it is stored under. */
  datatype Row = Row(name: string, checksum: string)

  type History = map<int, Row>

  datatype Refusal = ChecksumMismatch | Orphan | OutOfOrder | NothingApplied

  function RowOf(m: Migration): Row { Row(m.name, m.checksum) }

  /** What New was given: loaded files are in ascending order and positive. */
  ghost predicate ValidFiles(ms: seq<Migration>) {
    Ascending(ms) && forall i :: 0 <= i < |ms| ==> ms[i].version > 0
  }

  function Versions(ms: seq<Migration>): set<int> {
    set i | 0 <= i < |ms| :: ms[i].version
  }

  // ---------------------------------------------------------------- verification

  predicate ChecksumsMatch(ms: seq<Migration>, applied: History) {
    forall i :: 0 <= i < |ms| && ms[i].version in applied ==> ms[i].checksum == applied[ms[i].version].checksum
  }

  predicate NoOrphans(ms: seq<Migration>, applied: History) { applied.Keys <= Versions(ms) }

  /** verify: checksums first, then orphans. */
  function Verify(ms: seq<Migration>, applied: History): Decision<()> {
    if !ChecksumsMatch(ms, applied) then No(ChecksumMismatch)
    else if !NoOrphans(ms, applied) then No(Orphan)
    else Yes(())
  }

  datatype Decision<+T> = Yes(value: T) | No(why: Refusal)

  // ---------------------------------------------------------------- up

  function Pending(ms: seq<Migration>, applied: set<int>): seq<Migration> {
    if ms == [] then []
    else (if ms[0].version in applied then [] else [ms[0]]) + Pending(ms[1..], applied)
  }

  /** Older than the newest applied migration. */
  predicate Late(m: Migration, applied: set<int>) {
    exists v :: v in applied && m.version < v
  }

  predicate AnyLate(pending: seq<Migration>, applied: set<int>) {
    exists i :: 0 <= i < |pending| && Late(pending[i], applied)
  }

  /** Pending migrations up to target; target 0 means no bound. */
  function UpTo(pending: seq<Migration>, target: int): seq<Migration> {
    if pending == [] then []
    else (if target > 0 && pending[0].version > target then [] else [pending[0]]) + UpTo(pending[1..], target)
  }

  /** The first limit of them; limit 0 means all. */
  function Limited(todo: seq<Migration>, limit: nat): seq<Migration> {
    if limit > 0 && limit <= |todo| then todo[..limit] else todo
  }

  /** The migrations up applies, in order, unless one of them fails. */
  function UpPlan(ms: seq<Migration>, applied: History, allow: bool, limit: nat,
      target: int): Decision<seq<Migration>> {
    var pending := Pending(ms, applied.Keys);
    match Verify(ms, applied)
    case No(why) => No(why)
    case Yes(_) =>
      if !allow && AnyLate(pending, applied.Keys) then No(OutOfOrder)
      else Yes(Limited(UpTo(pending, target), limit))
  }

  // ---------------------------------------------------------------- down

  /** Applied migrations newer than target, newest first. */
  function Rollbacks(ms: seq<Migration>, applied: set<int>, target: int): seq<Migration> {
    if ms == [] then []
    else
      var last := ms[|ms| - 1];
      if last.version !in applied then Rollbacks(ms[..|ms| - 1], applied, target)
      else if target >= 0 && last.version <= target then []
      else [last] + Rollbacks(ms[..|ms| - 1], applied, target)
  }

  /** The migrations down rolls back, in order; target -1 means exactly one. */
  function DownPlan(ms: seq<Migration>, applied: History, target: int): Decision<seq<Migration>> {
    match Verify(ms, applied)
    case No(why) => No(why)
    case Yes(_) =>
      if applied == map[] then No(NothingApplied)
      else
        var all := Rollbacks(ms, applied.Keys, target);
        Yes(if target < 0 && all != [] then all[..1] else all)
  }

  // ---------------------------------------------------------------- what plans hold

  lemma {:induction false} PendingMembers(ms: seq<Migration>, applied: set<int>, m: Migration)
    ensures m in Pending(ms, applied) <==> m in ms && m.version !in applied
  {
    if ms == [] {
    } else {
      PendingMembers(ms[1..], applied, m);
      assert ms == [ms[0]] + ms[1..];
    }
  }

  lemma {:induction false} UpToMembers(pending: seq<Migration>, target: int, m: Migration)
    ensures m in UpTo(pending, target) <==> m in pending && (target <= 0 || m.version <= target)
  {
    if pending == [] {
    } else {
      UpToMembers(pending[1..], target, m);
      assert pending == [pending[0]] + pending[1..];
    }
  }

  lemma {:induction false} RollbackMembers(ms: seq<Migration>, applied: set<int>, target: int, m: Migration)
    requires Ascending(ms)
    ensures m in Rollbacks(ms, applied, target) <==>
            m in ms && m.version in applied && (target < 0 || m.version > target)
  {
    if ms == [] {
    } else {
      var last, rest := ms[|ms| - 1], ms[..|ms| - 1];
      assert ms == rest + [last];
      RollbackMembers(rest, applied, target, m);
      if m in rest {
        var i :| 0 <= i < |rest| && rest[i] == m;
        assert m.version < last.version;
      }
    }
  }

  ghost predicate Descending(todo: seq<Migration>) {
    forall i, j :: 0 <= i < j < |todo| ==> todo[i].version > todo[j].version
  }

  /** Migrations are rolled back newest first, none of them twice. */
  lemma {:induction false} RollbacksDescend(ms: seq<Migration>, applied: set<int>, target: int)
    requires Ascending(ms)
    ensures Descending(Rollbacks(ms, applied, target))
  {
    if ms == [] {
    } else {
      var last, rest := ms[|ms| - 1], ms[..|ms| - 1];
      RollbacksDescend(rest, applied, target);
      var older := Rollbacks(rest, applied, target);
      forall i | 0 <= i < |older| ensures older[i].version < last.version {
        RollbackMembers(rest, applied, target, older[i]);
        var k :| 0 <= k < |rest| && rest[k] == older[i];
        assert rest[k] == ms[k];
      }
    }
  }

  lemma AscendingTail(ms: seq<Migration>)
    requires Ascending(ms) && ms != []
    ensures Ascending(ms[1..]) && forall m :: m in ms[1..] ==> ms[0].version < m.version
  {
  }

  lemma AscendingCons(m: Migration, rest: seq<Migration>)
    requires Ascending(rest) && forall x :: x in rest ==> m.version < x.version
    ensures Ascending([m] + rest)
  {
    assert forall i :: 0 <= i < |rest| ==> rest[i] in rest;
  }

  lemma {:induction false} PendingAscends(ms: seq<Migration>, applied: set<int>)
    requires Ascending(ms)
    ensures Ascending(Pending(ms, applied))
  {
    if ms == [] {
    } else {
      AscendingTail(ms);
      PendingAscends(ms[1..], applied);
      var rest := Pending(ms[1..], applied);
      forall m | m in rest ensures ms[0].version < m.version {
        PendingMembers(ms[1..], applied, m);
      }
      AscendingCons(ms[0], rest);
      assert [] + rest == rest;
    }
  }

  lemma {:induction false} UpToAscends(pending: seq<Migration>, target: int)
    requires Ascending(pending)
    ensures Ascending(UpTo(pending, target))
  {
    if pending == [] {
    } else {
      AscendingTail(pending);
      UpToAscends(pending[1..], target);
      var rest := UpTo(pending[1..], target);
      forall m | m in rest ensures pending[0].version < m.version {
        UpToMembers(pending[1..], target, m);
      }
      AscendingCons(pending[0], rest);
      assert [] + rest == rest;
    }
  }

  lemma UpPlanIsPrefix(ms: seq<Migration>, applied: History, allow: bool, limit: nat, target: int)
    requires UpPlan(ms, applied, allow, limit, target).Yes?
    ensures UpPlan(ms, applied, allow, limit, target).value <= UpTo(Pending(ms, applied.Keys), target)
  {
  }

  lemma TodoMembers(ms: seq<Migration>, applied: set<int>, target: int, m: Migration)
    ensures m in UpTo(Pending(ms, applied), target) <==>
            m in ms && m.version !in applied && (target <= 0 || m.version <= target)
  {
    UpToMembers(Pending(ms, applied), target, m);
    PendingMembers(ms, applied, m);
  }

  lemma FoundBefore(todo: seq<Migration>, k: nat, i: nat, m: Migration)
    requires Ascending(todo) && i < k <= |todo| && m in todo && m.version < todo[i].version
    ensures m in todo[..k][..i]
  {
    var j :| 0 <= j < |todo| && todo[j] == m;
    assert j < i;
    assert todo[..k][..i][j] == m;
  }

  /** An up plan is ascending, holds pending files only, and leaves out no pending file
      older than one it takes. */
  lemma UpPlanIsClosed(ms: seq<Migration>, applied: History, allow: bool, limit: nat, target: int)
    requires ValidFiles(ms) && UpPlan(ms, applied, allow, limit, target).Yes?
    ensures var plan := UpPlan(ms, applied, allow, limit, target).value;
      && Ascending(plan)
      && (forall i :: 0 <= i < |plan| ==> plan[i] in ms && plan[i].version !in applied)
      && (forall i, m :: 0 <= i < |plan| && m in ms && m.version < plan[i].version && m.version !in applied ==>
          m in plan[..i])
      && (limit > 0 ==> |plan| <= limit)
      && (limit == 0 || |plan| < limit ==>
            forall m :: m in ms && m.version !in applied && (target <= 0 || m.version <= target) ==> m in plan)
  {
    var todo := UpTo(Pending(ms, applied.Keys), target);
    var plan := UpPlan(ms, applied, allow, limit, target).value;
    forall m ensures m in todo <==> m in ms && m.version !in applied && (target <= 0 || m.version <= target) {
      TodoMembers(ms, applied.Keys, target, m);
    }
    UpPlanIsPrefix(ms, applied, allow, limit, target);
    PendingAscends(ms, applied.Keys);
    UpToAscends(Pending(ms, applied.Keys), target);
    PrefixIsClosed(ms, applied.Keys, target, todo, plan);
  }

  lemma PrefixIsClosed(ms: seq<Migration>, applied: set<int>, target: int, todo: seq<Migration>, plan: seq<Migration>)
    requires Ascending(todo) && todo == UpTo(Pending(ms, applied), target) && plan <= todo
    ensures Ascending(plan)
    ensures forall i :: 0 <= i < |plan| ==> plan[i] in ms && plan[i].version !in applied
    ensures forall i, m :: 0 <= i < |plan| && m in ms && m.version < plan[i].version && m.version !in applied ==>
        m in plan[..i]
  {
    forall i | 0 <= i < |plan| ensures plan[i] in ms && plan[i].version !in applied {
      assert plan[i] == todo[i] && todo[i] in todo;
      TodoMembers(ms, applied, target, todo[i]);
    }
    forall i, m | 0 <= i < |plan| && m in ms && m.version < plan[i].version && m.version !in applied
      ensures m in plan[..i]
    {
      assert plan[i] == todo[i] && todo[i] in todo;
      TodoMembers(ms, applied, target, todo[i]);
      TodoMembers(ms, applied, target, m);
      assert plan == todo[..|plan|];
      FoundBefore(todo, |plan|, i, m);
    }
  }

  // ---------------------------------------------------------------- out of order

  /** No applied file has an older file that is not applied. */
  ghost predicate Closed(ms: seq<Migration>, history: History) {
    forall f, g :: f in ms && g in ms && f.version < g.version && g.version in history ==> f.version in history
  }

  lemma LateIsOpen(ms: seq<Migration>, history: History)
    requires NoOrphans(ms, history)
    ensures AnyLate(Pending(ms, history.Keys), history.Keys) <==> !Closed(ms, history)
  {
    var pending := Pending(ms, history.Keys);
    if AnyLate(pending, history.Keys) {
      var i :| 0 <= i < |pending| && Late(pending[i], history.Keys);
      var v :| v in history.Keys && pending[i].version < v;
      assert v in Versions(ms);
      var j :| 0 <= j < |ms| && ms[j].version == v;
      PendingMembers(ms, history.Keys, pending[i]);
      assert ms[j] in ms;
    }
    if !Closed(ms, history) {
      var f, g :| f in ms && g in ms && f.version < g.version && g.version in history && f.version !in history;
      PendingMembers(ms, history.Keys, f);
      var i :| 0 <= i < |pending| && pending[i] == f;
      assert Late(pending[i], history.Keys);
    }
  }

  /** Out-of-order files are refused exactly when a verified history is not closed. */
  lemma RefusedExactlyWhenOpen(ms: seq<Migration>, history: History, limit: nat, target: int)
    requires Verify(ms, history).Yes?
    ensures UpPlan(ms, history, false, limit, target) == No(OutOfOrder) <==> !Closed(ms, history)
  {
    LateIsOpen(ms, history);
  }
}
