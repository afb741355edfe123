/** One request through the middleware of httpx/middleware/idempotency.go over the
    in-process store, as the store commands the handler issues, and the proof that these
    are the steps of the protocol over that store, whatever other requests do meanwhile. */
module IdempotencyHandler {
  import opened MemoryStore
  import opened Responses
  import opened Idempotency
  import opened IdempotencyOverStore

  /** What the wrapped handler did: its writes, and whether it panicked. */
  datatype Execution = Execution(writes: seq<WriteCall>, panicked: bool)

  datatype Result = Ran | Instead(reply: Reply)

  /** What the request does after its claim: answer at once, look the record up, or run
      the handler and settle. */
  function ConcludeStep(cfg: Config, m: Mem<Record>, r: Request, now: int, out: Outcome,
      x: Execution): (Mem<Record>, Result) {
    match out
    case Full => (m, Instead(Problem(STATUS_UNAVAILABLE)))
    case Taken => (m, Instead(AnswerDuplicate(cfg, r, Lookup(m.entries, now, r.key))))
    case Stored => (m.(entries := SettledTable(cfg, m.entries, now, r, x.writes, x.panicked)), Ran)
  }

  class Middleware {
    const cfg: Config
    const store: Store<Record>

    constructor (cfg: Config, store: Store<Record>)
      ensures this.cfg == cfg && this.store == store
    {
      this.cfg, this.store := cfg, store;
    }

    /** A whole request nobody comes between: at and now are its two readings. */
    method Serve(r: Request, at: int, now: int, x: Execution) returns (result: Result)
      requires store.Valid()
      modifies store
      ensures store.Valid()
      ensures var (m, out) := SetNXStep(store.maxRecords, old(store.View()), at, r.key, ClaimRecord(cfg, r), cfg.ttl);
        (store.View(), result) == ConcludeStep(cfg, m, r, now, out, x)
    {
      var out := Claim(r, at);
      result := Conclude(r, now, out, x);
    }

    method Claim(r: Request, at: int) returns (out: Outcome)
      requires store.Valid()
      modifies store
      ensures store.Valid()
      ensures (store.View(), out) ==
              SetNXStep(store.maxRecords, old(store.View()), at, r.key, ClaimRecord(cfg, r), cfg.ttl)
    {
      out := store.SetNX(at, r.key, ClaimRecord(cfg, r), cfg.ttl);
    }

    /** The response goes through a capture writer; what it captured decides between
        Set and Delete, a panic always deletes. */
    method Conclude(r: Request, now: int, out: Outcome, x: Execution) returns (result: Result)
      requires store.Valid()
      modifies store
      ensures store.Valid()
      ensures (store.View(), result) == ConcludeStep(cfg, old(store.View()), r, now, out, x)
    {
      if out == Full {
        return Instead(Problem(STATUS_UNAVAILABLE));
      }
      if out == Taken {
        var found := store.Get(now, r.key);
        return Instead(AnswerDuplicate(cfg, r, found));
      }
      var capture := Execute(x);
      var status := if capture.status == 0 then STATUS_OK else capture.status;
      if x.panicked || status >= STATUS_INTERNAL || capture.truncated {
        store.Delete(r.key);
      } else {
        var header := StorableHeader(HeaderOf(x.writes));
        store.Set(now, r.key, Record(Fingerprint(cfg, r), false, Response(status, capture.body, header)));
      }
      return Ran;
    }

    /** The wrapped handler, writing through the capture writer. */
    method Execute(x: Execution) returns (c: Capture)
      ensures c == Captured(cfg.max, x.writes)
    {
      var w := new CaptureWriter(cfg.max);
      for i := 0 to |x.writes|
        invariant fresh(w) && w.Valid() && w.max == cfg.max
        invariant w.forwarded == x.writes[..i]
      {
        match x.writes[i]
        case Header(status) => w.WriteHeader(status);
        case Body(bytes) => w.Write(bytes);
        case SetHeader(key, values) => w.ChangeHeader(key, values);
      }
      assert x.writes[..|x.writes|] == x.writes;
      c := Capture(w.status, w.body, w.truncated);
    }
  }

  // ---------------------------------------------------------------- steps of the protocol

  lemma {:induction false} RunJoins(cfg: Config, max: int, b: Bounded, before: seq<Step>, more: seq<Step>)
    ensures RunOver(cfg, max, b, before + more) == RunOver(cfg, max, RunOver(cfg, max, b, before), more)
    decreases |before|
  {
    if before == [] {
      assert before + more == more;
    } else {
      assert (before + more)[1..] == before[1..] + more;
      RunJoins(cfg, max, DoOver(cfg, max, b, before[0]), before[1..], more);
    }
  }

  lemma RunTwo(cfg: Config, max: int, b: Bounded, s: Step, t: Step)
    ensures RunOver(cfg, max, b, [s, t]) == DoOver(cfg, max, DoOver(cfg, max, b, s), t)
  {
    var c := DoOver(cfg, max, b, s);
    assert [s, t][1..] == [t] && [t][1..] == [];
    assert RunOver(cfg, max, c, [t]) == DoOver(cfg, max, c, t);
  }

  /** Steps of other requests, and time passing. */
  ghost predicate Others(steps: seq<Step>, id: nat) {
    forall i :: 0 <= i < |steps| ==> steps[i].Tick? || steps[i].id != id
  }

  lemma OtherLeaves(cfg: Config, max: int, b: Bounded, step: Step, id: nat)
    requires id in b.sys.clients && (step.Tick? || step.id != id)
    ensures var c := DoOver(cfg, max, b, step);
      id in c.sys.clients && c.sys.clients[id] == b.sys.clients[id] && |c.sys.execs| >= |b.sys.execs|
  {
  }

  lemma {:induction false} OthersLeave(cfg: Config, max: int, b: Bounded, others: seq<Step>, id: nat)
    requires id in b.sys.clients && Others(others, id)
    ensures var c := RunOver(cfg, max, b, others);
      id in c.sys.clients && c.sys.clients[id] == b.sys.clients[id] && |c.sys.execs| >= |b.sys.execs|
    decreases |others|
  {
    if others == [] {
    } else {
      OtherLeaves(cfg, max, b, others[0], id);
      OthersLeave(cfg, max, DoOver(cfg, max, b, others[0]), others[1..], id);
    }
  }

  function PhaseAfter(out: Outcome, exec: nat): Phase {
    match out
    case Full => Answered(Problem(STATUS_UNAVAILABLE))
    case Taken => Duplicate
    case Stored => Running(exec)
  }

  /** The client arrived and its claim went out, with the reading it had taken. */
  function ClaimSteps(id: nat, r: Request, at: int): seq<Step> { [Arrive(id, r), TryClaim(id, at, at, Applied)] }

  lemma OutcomeLeadsOn(cfg: Config, s: Sys, id: nat, at: int, m: Mem<Record>, out: Outcome)
    requires At(s, id, Arrived)
    ensures var c := AfterClaim(cfg, s, id, at, m, out, false);
      && StoreOf(c) == m && id in c.sys.clients
      && c.sys.clients[id] == Client(s.clients[id].request, PhaseAfter(out, |s.execs|))
      && (out == Stored ==> |c.sys.execs| == |s.execs| + 1)
  {
  }

  lemma ClaimLeadsOn(cfg: Config, max: int, a: Bounded, id: nat, at: int)
    requires At(a.sys, id, Arrived) && at <= a.sys.now
    ensures var (m, out) := ClaimOver(cfg, max, a, id, at);
      var c := DoOver(cfg, max, a, TryClaim(id, at, at, Applied));
      && StoreOf(c) == m && id in c.sys.clients
      && c.sys.clients[id] == Client(a.sys.clients[id].request, PhaseAfter(out, |a.sys.execs|))
      && (out == Stored ==> |c.sys.execs| == |a.sys.execs| + 1)
  {
    var (m, out) := ClaimOver(cfg, max, a, id, at);
    OutcomeLeadsOn(cfg, a.sys, id, at, m, out);
  }

  /** The claim is a step of the protocol over the store. */
  lemma ClaimIsAStep(cfg: Config, max: int, b: Bounded, id: nat, r: Request, at: int)
    requires id !in b.sys.clients && at <= b.sys.now
    ensures var (m, out) := SetNXStep(max, StoreOf(b), at, r.key, ClaimRecord(cfg, r), cfg.ttl);
      var c := RunOver(cfg, max, b, ClaimSteps(id, r, at));
      && StoreOf(c) == m && id in c.sys.clients
      && c.sys.clients[id] == Client(r, PhaseAfter(out, |b.sys.execs|))
      && (out == Stored ==> |c.sys.execs| == |b.sys.execs| + 1)
  {
    RunTwo(cfg, max, b, Arrive(id, r), TryClaim(id, at, at, Applied));
    ClaimLeadsOn(cfg, max, DoOver(cfg, max, b, Arrive(id, r)), id, at);
  }

  /** The store is as the request left it, and the client has its answer. */
  ghost predicate SameEnd(m: Mem<Record>, result: Result, b: Bounded, id: nat) {
    && StoreOf(b) == m && id in b.sys.clients
    && b.sys.clients[id].phase == match result case Ran => Served case Instead(reply) => Answered(reply)
  }

  lemma SettlingIsTwoSteps(cfg: Config, max: int, c: Bounded, id: nat, x: Execution)
    requires id in c.sys.clients && c.sys.clients[id].phase.Running? && c.sys.clients[id].phase.exec < |c.sys.execs|
    ensures var r := c.sys.clients[id].request;
      var u := DoOver(cfg, max, c, if x.panicked then Panic(id, x.writes) else Finish(id, x.writes));
      var m := StoreOf(c);
      var t := DoOver(cfg, max, u, Settle(id, Applied));
      SameEnd(m.(entries := SettledTable(cfg, m.entries, c.sys.now, r, x.writes, x.panicked)), Ran, t, id)
  {
  }

  function LastSteps(out: Outcome, id: nat, x: Execution): seq<Step> {
    match out
    case Full => []
    case Taken => [Inspect(id, false)]
    case Stored => [if x.panicked then Panic(id, x.writes) else Finish(id, x.writes), Settle(id, Applied)]
  }

  /** What the handler does after its claim, from whatever state others have led to. */
  lemma ConcludingIsARun(cfg: Config, max: int, c: Bounded, out: Outcome, exec: nat, id: nat, r: Request, x: Execution)
    requires id in c.sys.clients && c.sys.clients[id] == Client(r, PhaseAfter(out, exec))
    requires out == Stored ==> exec < |c.sys.execs|
    ensures var (m, result) := ConcludeStep(cfg, StoreOf(c), r, c.sys.now, out, x);
      SameEnd(m, result, RunOver(cfg, max, c, LastSteps(out, id, x)), id)
  {
    match out
    case Full =>
    case Taken => assert [Inspect(id, false)][1..] == [];
    case Stored =>
      SettlingIsTwoSteps(cfg, max, c, id, x);
      RunTwo(cfg, max, c, if x.panicked then Panic(id, x.writes) else Finish(id, x.writes), Settle(id, Applied));
  }

  /** What one request's handler does is part of a run of the protocol over the store, with
      any steps of other requests between its commands and a claim whose reading may be old:
      the store and the answer are what Claim and Conclude make them. So the theorems on
      every run over the store speak of this handler. */
  lemma ServeIsARun(cfg: Config, max: int, b: Bounded, id: nat, r: Request, at: int, others: seq<Step>, x: Execution)
    requires id !in b.sys.clients && at <= b.sys.now && Others(others, id)
    ensures var (claimed, out) := SetNXStep(max, StoreOf(b), at, r.key, ClaimRecord(cfg, r), cfg.ttl);
      var c := RunOver(cfg, max, b, ClaimSteps(id, r, at));
      var d := RunOver(cfg, max, c, others);
      var (m, result) := ConcludeStep(cfg, StoreOf(d), r, d.sys.now, out, x);
      && StoreOf(c) == claimed
      && SameEnd(m, result, RunOver(cfg, max, b, ClaimSteps(id, r, at) + others + LastSteps(out, id, x)), id)
  {
    var out := SetNXStep(max, StoreOf(b), at, r.key, ClaimRecord(cfg, r), cfg.ttl).1;
    var c := RunOver(cfg, max, b, ClaimSteps(id, r, at));
    ClaimIsAStep(cfg, max, b, id, r, at);
    OthersLeave(cfg, max, c, others, id);
    ConcludingIsARun(cfg, max, RunOver(cfg, max, c, others), out, |b.sys.execs|, id, r, x);
    RunJoins(cfg, max, b, ClaimSteps(id, r, at), others);
    RunJoins(cfg, max, b, ClaimSteps(id, r, at) + others, LastSteps(out, id, x));
  }
}
