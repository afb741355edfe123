/** The idempotency protocol over the bounded in-process store: every interleaving of
    requests, each store command carried out by MemoryStore instead of the unbounded map
    of its contract. */
module IdempotencyOverStore {
  import opened Common
  import opened MemoryStore
  import opened Responses
  import opened Idempotency

  /** sys.table is the store's map; lastSweep is the rest of its state. */
  datatype Bounded = Bounded(sys: Sys, lastSweep: Option<int>)

  function StartOver(t0: int): Bounded { Bounded(Start(t0), None) }

  function StoreOf(b: Bounded): Mem<Record> { Mem(b.sys.table, b.lastSweep) }

  function ClaimOver(cfg: Config, max: int, b: Bounded, id: nat, at: int): (Mem<Record>, Outcome)
    requires id in b.sys.clients
  {
    var r := b.sys.clients[id].request;
    SetNXStep(max, StoreOf(b), at, r.key, ClaimRecord(cfg, r), cfg.ttl)
  }

  /** Where the claim's outcome takes the client; a full store's refusal is an error to it. */
  function AfterClaim(cfg: Config, s: Sys, id: nat, at: int, m: Mem<Record>, out: Outcome, lost: bool): Bounded
    requires At(s, id, Arrived)
  {
    var s1 := s.(table := m.entries);
    var moved :=
      if out == Full || lost then Move(s1, id, Answered(Problem(STATUS_UNAVAILABLE)))
      else if out == Taken then Move(s1, id, Duplicate)
      else
        var x := Exec(s.clients[id].request, s.now, at + cfg.ttl, None);
        Move(s1.(execs := s.execs + [x]), id, Running(|s.execs|));
    Bounded(moved, m.lastSweep)
  }

  /** A claim sent to the store, with a reading as old as it may be. */
  function TryClaimOver(cfg: Config, max: int, b: Bounded, id: nat, at: int, fate: Fate): Bounded
    requires At(b.sys, id, Arrived)
  {
    if fate.Failed? then b.(sys := Move(b.sys, id, Answered(Problem(STATUS_UNAVAILABLE))))
    else
      var (m, out) := ClaimOver(cfg, max, b, id, at);
      AfterClaim(cfg, b.sys, id, at, m, out, fate.Lost?)
  }

  /** The claim of a client that is to make one; its reading is not from the future. */
  predicate Claims(s: Sys, step: Step) { step.TryClaim? && At(s, step.id, Arrived) && step.at <= s.now }

  /** Get, Set and Delete read the clock under the lock and act on the store's map as the
      contract says; what a claim sees is up to the store. */
  function DoOver(cfg: Config, max: int, b: Bounded, step: Step): Bounded {
    if step.TryClaim? then
      if Claims(b.sys, step) then TryClaimOver(cfg, max, b, step.id, step.at, step.fate) else b
    else b.(sys := Do(cfg, b.sys, step))
  }

  function RunOver(cfg: Config, max: int, b: Bounded, steps: seq<Step>): Bounded
    decreases |steps|
  {
    if steps == [] then b else RunOver(cfg, max, DoOver(cfg, max, b, steps[0]), steps[1..])
  }

  /** Every claimant's final Set or Delete happens before its TTL ends. */
  ghost predicate TimelyOver(cfg: Config, max: int, b: Bounded, steps: seq<Step>)
    decreases |steps|
  {
    Timely(b.sys) && (steps == [] || TimelyOver(cfg, max, DoOver(cfg, max, b, steps[0]), steps[1..]))
  }

  // ---------------------------------------------------------------- the protocol's step

  /** A claim looks at its key as of its own reading, or as of now if the store has dropped
      the key; one the full store refuses failed without effect. */
  function Explained(cfg: Config, max: int, b: Bounded, step: Step): Step {
    if !Claims(b.sys, step) then (if step.TryClaim? then Tick(0) else step)
    else
      var seen := SeenAt(b.sys.table, b.sys.clients[step.id].request.key, step.at, b.sys.now);
      var refused := !step.fate.Failed? && ClaimOver(cfg, max, b, step.id, step.at).1 == Full;
      TryClaim(step.id, step.at, seen, if refused then Failed else step.fate)
  }

  function ExplainedRun(cfg: Config, max: int, b: Bounded, steps: seq<Step>): seq<Step>
    decreases |steps|
  {
    if steps == [] then []
    else [Explained(cfg, max, b, steps[0])] + ExplainedRun(cfg, max, DoOver(cfg, max, b, steps[0]), steps[1..])
  }

  /** The two agree on everything a client can observe, the store holds what the contract's
      map holds, all of it that is live, and is within bounds. */
  ghost predicate Alike(max: int, b: Bounded, s: Sys) {
    && b.sys.now == s.now && b.sys.clients == s.clients && b.sys.execs == s.execs
    && Covers(b.sys.table, s.table, s.now)
    && |b.sys.table| <= max
  }

  /** What the store's answer to a claim says of the contract's map. */
  ghost predicate OutcomeTells(cfg: Config, max: int, s: Sys, id: nat, at: int, seen: int, m: Mem<Record>, out: Outcome)
    requires id in s.clients
  {
    var r := s.clients[id].request;
    && |m.entries| <= max
    && match out
       case Full => Covers(m.entries, s.table, s.now)
       case Taken => Live(s.table, seen, r.key) && Covers(m.entries, s.table, s.now)
       case Stored =>
         && !Live(s.table, seen, r.key)
         && Covers(m.entries, s.table[r.key := Entry(ClaimRecord(cfg, r), at + cfg.ttl)], s.now)
  }

  lemma ClaimTells(cfg: Config, max: int, b: Bounded, s: Sys, id: nat, at: int)
    requires max >= 1 && Alike(max, b, s) && id in s.clients && at <= s.now
    ensures var (m, out) := ClaimOver(cfg, max, b, id, at);
      OutcomeTells(cfg, max, s, id, at, SeenAt(b.sys.table, s.clients[id].request.key, at, s.now), m, out)
  {
    var r := s.clients[id].request;
    SetNXBounded(max, StoreOf(b), at, r.key, ClaimRecord(cfg, r), cfg.ttl);
    SetNXLate(max, StoreOf(b), s.table, s.now, at, r.key, ClaimRecord(cfg, r), cfg.ttl);
  }

  /** The client goes where the outcome takes it on both sides. */
  lemma OutcomeAlike(cfg: Config, max: int, b: Bounded, s: Sys, id: nat, at: int, seen: int, lost: bool,
      m: Mem<Record>, out: Outcome)
    requires Alike(max, b, s) && At(s, id, Arrived) && OutcomeTells(cfg, max, s, id, at, seen, m, out)
    ensures var fate := if out == Full then Failed else if lost then Lost else Applied;
      Alike(max, AfterClaim(cfg, b.sys, id, at, m, out, lost), TryClaimStep(cfg, s, id, at, seen, fate))
  {
  }

  /** The step the protocol takes for a claim. */
  lemma ExplainedClaim(cfg: Config, max: int, b: Bounded, step: Step)
    requires Claims(b.sys, step)
    ensures var seen := SeenAt(b.sys.table, b.sys.clients[step.id].request.key, step.at, b.sys.now);
      var out := ClaimOver(cfg, max, b, step.id, step.at).1;
      && Explained(cfg, max, b, step) ==
         TryClaim(step.id, step.at, seen, if !step.fate.Failed? && out == Full then Failed else step.fate)
      && step.at <= seen <= b.sys.now
  {
  }

  lemma ClaimAlike(cfg: Config, max: int, b: Bounded, s: Sys, step: Step)
    requires max >= 1 && Alike(max, b, s) && Claims(s, step)
    ensures Alike(max, DoOver(cfg, max, b, step), Do(cfg, s, Explained(cfg, max, b, step)))
  {
    ExplainedClaim(cfg, max, b, step);
    if !step.fate.Failed? {
      var (m, out) := ClaimOver(cfg, max, b, step.id, step.at);
      var seen := SeenAt(b.sys.table, s.clients[step.id].request.key, step.at, s.now);
      ClaimTells(cfg, max, b, s, step.id, step.at);
      OutcomeAlike(cfg, max, b, s, step.id, step.at, seen, step.fate.Lost?, m, out);
    }
  }

  lemma InspectAlike(cfg: Config, max: int, b: Bounded, s: Sys, id: nat, fails: bool)
    requires Alike(max, b, s)
    ensures Alike(max, DoOver(cfg, max, b, Inspect(id, fails)), Do(cfg, s, Inspect(id, fails)))
  {
    if At(s, id, Duplicate) {
      StoreSees(b.sys.table, s.table, s.clients[id].request.key, s.now, s.now);
    }
  }

  lemma SettledTablesAlike(cfg: Config, a: Table<Record>, b: Table<Record>, now: int, r: Request,
      writes: seq<WriteCall>, panicked: bool)
    requires Covers(a, b, now)
    ensures var c, d := SettledTable(cfg, a, now, r, writes, panicked), SettledTable(cfg, b, now, r, writes, panicked);
      Covers(c, d, now) && |c| <= |a|
  {
    ReplaceLate(a, b, now, now, r.key, StoredRecord(cfg, r, writes));
    RemoveShrinks(a, r.key);
  }

  lemma SettleAlike(cfg: Config, max: int, b: Bounded, s: Sys, id: nat, fate: Fate)
    requires Alike(max, b, s)
    ensures Alike(max, DoOver(cfg, max, b, Settle(id, fate)), Do(cfg, s, Settle(id, fate)))
  {
    if id in s.clients && s.clients[id].phase.Settling? && s.clients[id].phase.exec < |s.execs| {
      var phase := s.clients[id].phase;
      SettledTablesAlike(cfg, b.sys.table, s.table, s.now, s.clients[id].request, phase.writes, phase.panicked);
    }
  }

  lemma DoAlike(cfg: Config, max: int, b: Bounded, s: Sys, step: Step)
    requires max >= 1 && Alike(max, b, s)
    ensures Alike(max, DoOver(cfg, max, b, step), Do(cfg, s, Explained(cfg, max, b, step)))
  {
    match step
    case TryClaim(_, _, _, _) =>
      if Claims(s, step) {
        ClaimAlike(cfg, max, b, s, step);
      }
    case Tick(d) => CoversLater(b.sys.table, s.table, s.now, s.now + d);
    case Inspect(id, fails) => InspectAlike(cfg, max, b, s, id, fails);
    case Settle(id, fate) => SettleAlike(cfg, max, b, s, id, fate);
    case Arrive(_, _) =>
    case Finish(_, _) =>
    case Panic(_, _) =>
  }

  /** Every run over the store is a run of the protocol, in which refused claims failed,
      and it is timely if the run over the store is. */
  lemma {:induction false} RunAlike(cfg: Config, max: int, b: Bounded, s: Sys, steps: seq<Step>)
    requires max >= 1 && Alike(max, b, s)
    ensures Alike(max, RunOver(cfg, max, b, steps), Run(cfg, s, ExplainedRun(cfg, max, b, steps)))
    ensures TimelyOver(cfg, max, b, steps) ==> TimelyRun(cfg, s, ExplainedRun(cfg, max, b, steps))
    decreases |steps|
  {
    if steps == [] {
    } else {
      var b1 := DoOver(cfg, max, b, steps[0]);
      var rest := ExplainedRun(cfg, max, b1, steps[1..]);
      var all := ExplainedRun(cfg, max, b, steps);
      assert all[0] == Explained(cfg, max, b, steps[0]) && all[1..] == rest;
      DoAlike(cfg, max, b, s, steps[0]);
      RunAlike(cfg, max, b1, Do(cfg, s, all[0]), steps[1..]);
    }
  }

  // ---------------------------------------------------------------- every interleaving over the store

  /** In every timely interleaving over the bounded store, at most one client per key is
      executing or settling. */
  lemma OneExecutionPerKeyOverStore(cfg: Config, max: int, t0: int, steps: seq<Step>, a: nat, b: nat)
    requires max >= 1 && TimelyOver(cfg, max, StartOver(t0), steps)
    ensures var s := RunOver(cfg, max, StartOver(t0), steps).sys;
      a in s.clients && b in s.clients && a != b && Busy(s.clients[a].phase) && Busy(s.clients[b].phase) ==>
        s.clients[a].request.key != s.clients[b].request.key
  {
    RunAlike(cfg, max, StartOver(t0), Start(t0), steps);
    AtMostOneExecutionPerKey(cfg, t0, ExplainedRun(cfg, max, StartOver(t0), steps), a, b);
  }

  /** Executions of one key never overlap, and one that was not released holds the key for
      its TTL, whatever the store sweeps or refuses meanwhile. */
  lemma ExecutionsAreSeparatedOverStore(cfg: Config, max: int, t0: int, steps: seq<Step>, i: nat, j: nat)
    requires max >= 1 && TimelyOver(cfg, max, StartOver(t0), steps)
    ensures var s := RunOver(cfg, max, StartOver(t0), steps).sys;
      i < j < |s.execs| && s.execs[i].request.key == s.execs[j].request.key ==>
        && s.execs[i].end.Some? && s.execs[i].end.value.at <= s.execs[j].claimed
        && (Released(cfg, s.execs[i]) || s.execs[i].expires <= s.execs[j].claimed)
  {
    RunAlike(cfg, max, StartOver(t0), Start(t0), steps);
    ExecutionsAreSeparated(cfg, t0, ExplainedRun(cfg, max, StartOver(t0), steps), i, j);
  }

  /** Over the store too a new request within the TTL of an execution that did not give its
      key back becomes a duplicate, however late its reading and however full the store,
      and is told of that execution. */
  lemma DuplicatesAreToldOverStore(cfg: Config, max: int, t0: int, steps: seq<Step>, id: nat, at: int, seen: int,
      e: nat)
    requires max >= 1 && TimelyOver(cfg, max, StartOver(t0), steps)
    requires var s := RunOver(cfg, max, StartOver(t0), steps).sys;
      && e < |s.execs| && !Released(cfg, s.execs[e]) && s.now < s.execs[e].expires && at <= s.now
      && id in s.clients && s.clients[id].request.key == s.execs[e].request.key
    ensures var b := RunOver(cfg, max, StartOver(t0), steps);
      && (At(b.sys, id, Arrived) ==>
            At(DoOver(cfg, max, b, TryClaim(id, at, seen, Applied)).sys, id, Duplicate))
      && (At(b.sys, id, Duplicate) ==>
            At(DoOver(cfg, max, b, Inspect(id, false)).sys, id,
               Answered(Told(cfg, b.sys.clients[id].request, b.sys.execs[e]))))
  {
    var b := RunOver(cfg, max, StartOver(t0), steps);
    var explained := ExplainedRun(cfg, max, StartOver(t0), steps);
    var s := Run(cfg, Start(t0), explained);
    RunAlike(cfg, max, StartOver(t0), Start(t0), steps);
    DuplicatesAreToldOfTheExecution(cfg, t0, explained, id, e);
    RunKeeps(cfg, Start(t0), explained);
    assert Guarded(cfg, s, e);
    StoreSees(b.sys.table, s.table, s.clients[id].request.key, s.now, s.now);
  }

  lemma {:induction false} ExplainedStaysClean(cfg: Config, max: int, b: Bounded, steps: seq<Step>)
    requires CleanSteps(steps)
    ensures CleanSteps(ExplainedRun(cfg, max, b, steps))
    decreases |steps|
  {
    if steps == [] {
    } else {
      assert steps[0].Arrive? ==> Clean(steps[0].request);
      ExplainedStaysClean(cfg, max, DoOver(cfg, max, b, steps[0]), steps[1..]);
    }
  }

  /** A replay over the store is the response of one finished, unreleased execution of the
      very same request. */
  lemma ReplayIsTheExecutionOverStore(cfg: Config, max: int, t0: int, steps: seq<Step>, id: nat) returns (e: nat)
    requires max >= 1 && TimelyOver(cfg, max, StartOver(t0), steps) && CleanSteps(steps)
    requires forall x: string, y: string :: cfg.hash(x) == cfg.hash(y) ==> x == y
    requires var s := RunOver(cfg, max, StartOver(t0), steps).sys;
      id in s.clients && s.clients[id].phase.Answered? && s.clients[id].phase.reply.Replayed?
    ensures var s := RunOver(cfg, max, StartOver(t0), steps).sys;
      && e < |s.execs| && s.execs[e].request == s.clients[id].request && s.execs[e].end.Some?
      && !s.execs[e].end.value.panicked && !s.execs[e].end.value.fate.Failed?
      && var writes := s.execs[e].end.value.writes;
         s.clients[id].phase.reply == Replayed(ResponseOf(writes))
  {
    RunAlike(cfg, max, StartOver(t0), Start(t0), steps);
    ExplainedStaysClean(cfg, max, StartOver(t0), steps);
    e := ReplayIsTheExecution(cfg, t0, ExplainedRun(cfg, max, StartOver(t0), steps), id);
  }
}
