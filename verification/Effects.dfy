/** What a migration leaves behind once it is through: an effect, and how a log of
    effects adds up, version by version, to a history table. */
module Effects {
  import opened Common
  import opened Loader
  import opened Plans

  datatype Kind = Up(allow: bool, limit: nat, target: int) | Down(target: int)

  function Plan(ms: seq<Migration>, kind: Kind, history: History): Decision<seq<Migration>> {
    match kind
    case Up(allow, limit, target) => UpPlan(ms, history, allow, limit, target)
    case Down(target) => DownPlan(ms, history, target)
  }

  /** One finished migration: what it executed and the history write that went with it. */
  datatype Effect = Effect(version: int, down: bool, ran: seq<string>, row: Row)

  function StatementsOf(m: Migration, down: bool): Option<seq<string>> {
    if !down then Some(m.up.statements)
    else match m.down case None => None case Some(script) => Some(script.statements)
  }

  predicate Transactional(m: Migration, down: bool) {
    if down then m.down.None? || !m.down.value.noTx else !m.up.noTx
  }

  function Done(m: Migration, down: bool, ran: seq<string>): Effect {
    Effect(m.version, down, ran, RowOf(m))
  }

  /** What a committed transaction does to the history table. */
  function Apply(history: History, e: Effect): History {
    if e.down then history - {e.version} else history[e.version := e.row]
  }

  ghost predicate IsEffectOf(e: Effect, m: Migration) {
    && e.version == m.version && e.row == Row(m.name, m.checksum)
    && if e.down then m.down.Some? && e.ran == m.down.value.statements else e.ran == m.up.statements
  }

  // ---------------------------------------------------------------- adding a log up

  /** Whether version v is applied after the first n effects, by its last one alone. */
  function Standing(start: History, log: seq<Effect>, n: nat, v: int): bool
    requires n <= |log|
  {
    if n == 0 then v in start
    else if log[n - 1].version == v then !log[n - 1].down
    else Standing(start, log, n - 1, v)
  }

  function RowAfter(start: History, log: seq<Effect>, n: nat, v: int): Option<Row>
    requires n <= |log|
  {
    if n == 0 then if v in start then Some(start[v]) else None
    else if log[n - 1].version == v then if log[n - 1].down then None else Some(log[n - 1].row)
    else RowAfter(start, log, n - 1, v)
  }

  /** Effect i rolls back exactly what is applied and applies exactly what is not. */
  ghost predicate InTurn(start: History, log: seq<Effect>, i: nat)
    requires i < |log|
  {
    log[i].down <==> Standing(start, log, i, log[i].version)
  }

  lemma {:induction false} StandingIsARow(start: History, log: seq<Effect>, n: nat, v: int)
    requires n <= |log|
    ensures Standing(start, log, n, v) <==> RowAfter(start, log, n, v).Some?
  {
    if n == 0 || log[n - 1].version == v {
    } else {
      StandingIsARow(start, log, n - 1, v);
    }
  }

  lemma {:induction false} StandingOfPrefix(start: History, log: seq<Effect>, e: Effect, n: nat, v: int)
    requires n <= |log|
    ensures Standing(start, log + [e], n, v) == Standing(start, log, n, v)
    ensures RowAfter(start, log + [e], n, v) == RowAfter(start, log, n, v)
  {
    if n == 0 {
    } else {
      StandingOfPrefix(start, log, e, n - 1, v);
    }
  }

  /** Effects i and j touch version v and none in between does. */
  ghost predicate Consecutive(log: seq<Effect>, i: int, j: int) {
    && 0 <= i < j < |log| && log[i].version == log[j].version
    && forall k :: i < k < j ==> log[k].version != log[i].version
  }

  lemma {:induction false} StandingSince(start: History, log: seq<Effect>, i: int, n: int)
    requires 0 <= i < n <= |log| && forall k :: i < k < n ==> log[k].version != log[i].version
    ensures Standing(start, log, n, log[i].version) == !log[i].down
  {
    if n - 1 <= i {
    } else {
      StandingSince(start, log, i, n - 1);
    }
  }

  lemma {:induction false} NothingStanding(start: History, log: seq<Effect>, n: nat, v: int)
    requires n <= |log| && forall k :: 0 <= k < n ==> log[k].version != v
    ensures Standing(start, log, n, v) <==> v in start
    ensures RowAfter(start, log, n, v) == if v in start then Some(start[v]) else None
  {
    if n == 0 {
    } else {
      NothingStanding(start, log, n - 1, v);
    }
  }

  lemma {:induction false} RowSince(start: History, log: seq<Effect>, i: int, n: int)
    requires 0 <= i < n <= |log| && forall k :: i < k < n ==> log[k].version != log[i].version
    ensures RowAfter(start, log, n, log[i].version) == if log[i].down then None else Some(log[i].row)
  {
    if n - 1 <= i {
    } else {
      RowSince(start, log, i, n - 1);
    }
  }

  // ---------------------------------------------------------------- plans

  lemma {:induction false} RollbacksAreFiles(ms: seq<Migration>, applied: set<int>, target: int, m: Migration)
    ensures m in Rollbacks(ms, applied, target) ==> m in ms
  {
    if ms == [] {
    } else {
      RollbacksAreFiles(ms[..|ms| - 1], applied, target, m);
    }
  }

  lemma PlansAreFiles(ms: seq<Migration>, kind: Kind, history: History)
    requires Plan(ms, kind, history).Yes?
    ensures forall i :: 0 <= i < |Plan(ms, kind, history).value| ==> Plan(ms, kind, history).value[i] in ms
  {
    var plan := Plan(ms, kind, history).value;
    forall i | 0 <= i < |plan| ensures plan[i] in ms {
      match kind
      case Up(allow, limit, target) =>
        UpPlanIsPrefix(ms, history, allow, limit, target);
        TodoMembers(ms, history.Keys, target, plan[i]);
      case Down(target) =>
        RollbacksAreFiles(ms, history.Keys, target, plan[i]);
    }
  }
}
