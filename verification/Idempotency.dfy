/** The idempotency middleware of httpx/middleware/idempotency.go: the fingerprint of a
    request, and the claim / execute / store-or-release protocol over a Store.

    The protocol runs on the Store contract of MemoryStore (an unbounded map that
    forgets a key when its TTL ends); any store that refines it will do.  Bytes and
    characters are `char`; a record is stored as itself rather than as JSON. */
module Idempotency {
  import opened Common
  import opened MemoryStore
  import opened Responses

  const STATUS_CONFLICT := 409
  const STATUS_UNPROCESSABLE := 422
  const STATUS_INTERNAL := 500
  const STATUS_UNAVAILABLE := 503

  // ---------------------------------------------------------------- fingerprints

  datatype Request = Request(key: string, verb: string, uri: string, body: string)

  predicate NulFree(s: string) { '\0' !in s }

  /** The bytes fed to the hash. */
  function Preimage(r: Request): string {
    r.verb + ['\0'] + r.uri + ['\0'] + r.body
  }

  lemma FirstNul(a: string, s: string)
    requires NulFree(a)
    ensures var x := a + ['\0'] + s;
      x[|a|] == '\0' && forall i :: 0 <= i < |a| ==> x[i] != '\0'
  {
  }

  lemma FirstNulSplits(a: string, b: string, s: string, t: string)
    requires NulFree(a) && NulFree(b) && a + ['\0'] + s == b + ['\0'] + t
    ensures a == b && s == t
  {
    var x, y := a + ['\0'] + s, b + ['\0'] + t;
    FirstNul(a, s);
    FirstNul(b, t);
    assert |a| == |b|;
    assert a == x[..|a|] == y[..|b|] == b;
    assert s == x[|a| + 1..] == y[|b| + 1..] == t;
  }

  /** The separators keep method, URI and body apart. */
  lemma PreimageInjective(p: Request, q: Request)
    requires NulFree(p.verb) && NulFree(q.verb) && NulFree(p.uri) && NulFree(q.uri)
    requires Preimage(p) == Preimage(q)
    ensures p.verb == q.verb && p.uri == q.uri && p.body == q.body
  {
    var s, t := p.uri + ['\0'] + p.body, q.uri + ['\0'] + q.body;
    assert Preimage(p) == p.verb + ['\0'] + s;
    assert Preimage(q) == q.verb + ['\0'] + t;
    FirstNulSplits(p.verb, q.verb, s, t);
    FirstNulSplits(p.uri, q.uri, p.body, q.body);
  }

  /** What is hashed before the body. */
  function Head(verb: string, uri: string): string { verb + ['\0'] + uri + ['\0'] }

  lemma HashedIsHeadAndBody(r: Request)
    ensures Preimage(r) == Head(r.verb, r.uri) + r.body
  {
  }

  /** Two methods and URIs can be confused, by some bodies, if and only if what is hashed
      before the body is for one a prefix of what it is for the other. */
  lemma ConfusedExactlyOnPrefix(key: string, verb: string, uri: string, verb': string, uri': string)
    ensures (exists b, c :: Preimage(Request(key, verb, uri, b)) == Preimage(Request(key, verb', uri', c)))
            <==> Head(verb, uri) <= Head(verb', uri') || Head(verb', uri') <= Head(verb, uri)
  {
    var g, h := Head(verb, uri), Head(verb', uri');
    if exists b, c :: Preimage(Request(key, verb, uri, b)) == Preimage(Request(key, verb', uri', c)) {
      var b, c :| Preimage(Request(key, verb, uri, b)) == Preimage(Request(key, verb', uri', c));
      HashedIsHeadAndBody(Request(key, verb, uri, b));
      HashedIsHeadAndBody(Request(key, verb', uri', c));
      assert g + b == h + c;
      assert if |g| <= |h| then g == (h + c)[..|g|] == h[..|g|] else h == (g + b)[..|h|] == g[..|h|];
    } else if g <= h {
      MeetOnPrefix(key, verb, uri, verb', uri');
    } else if h <= g {
      MeetOnPrefix(key, verb', uri', verb, uri);
    }
  }

  lemma MeetOnPrefix(key: string, verb: string, uri: string, verb': string, uri': string)
    requires Head(verb, uri) <= Head(verb', uri')
    ensures var b := Head(verb', uri')[|Head(verb, uri)|..];
      Preimage(Request(key, verb, uri, b)) == Preimage(Request(key, verb', uri', ""))
  {
    var g, h := Head(verb, uri), Head(verb', uri');
    HashedIsHeadAndBody(Request(key, verb, uri, h[|g|..]));
    HashedIsHeadAndBody(Request(key, verb', uri', ""));
    assert g + h[|g|..] == h == h + "";
  }

  /** Without NULs in them that happens only to equal ones. */
  lemma NulFreeIsNeverConfused(verb: string, uri: string, verb': string, uri': string)
    requires NulFree(verb) && NulFree(uri) && NulFree(verb') && NulFree(uri')
    ensures Head(verb, uri) <= Head(verb', uri') ==> verb == verb' && uri == uri'
  {
    if Head(verb, uri) <= Head(verb', uri') {
      MeetOnPrefix("", verb, uri, verb', uri');
      PreimageInjective(Request("", verb, uri, Head(verb', uri')[|Head(verb, uri)|..]), Request("", verb', uri', ""));
    }
  }

  /** Without NUL-freedom the encoding is ambiguous. */
  lemma PreimageNeedsNulFree(key: string)
    ensures exists p: Request, q: Request :: p.key == q.key == key && Preimage(p) == Preimage(q) && p.uri != q.uri
  {
    var p := Request(key, "A", "B", "C\0D");
    var q := Request(key, "A", "B\0C", "D");
    assert Preimage(p) == "A\0B\0C\0D" == Preimage(q);
    assert |p.uri| == 1 && |q.uri| == 3;
  }

  // ---------------------------------------------------------------- the protocol

  datatype Response = Response(status: int, body: string, header: Headers)

  datatype Record = Record(digest: string, inFlight: bool, response: Response)

  datatype Policy = ReplayStored | Reject

  datatype Config = Config(
    hash: string -> string, ttl: int, max: nat, policy: Policy,
    inFlightStatus: int, mismatchStatus: int, rejectStatus: int)

  function DefaultStatus(status: int, fallback: int): int {
    if status == 0 then fallback else status
  }

  function Fingerprint(cfg: Config, r: Request): string { cfg.hash(Preimage(r)) }

  /** The record a claim stores. */
  function ClaimRecord(cfg: Config, r: Request): Record {
    Record(Fingerprint(cfg, r), true, Response(0, "", map[]))
  }

  /** What a request gets without running the handler; a replay is marked as one besides. */
  datatype Reply = Problem(status: int) | Replayed(response: Response)

  datatype Phase =
    | Arrived
    | Duplicate                                // SetNX found the key taken
    | Running(exec: nat)                       // the handler is executing
    | Settling(exec: nat, writes: seq<WriteCall>, panicked: bool) // it returned or panicked
    | Served                                   // its own response went out
    | Answered(reply: Reply)

  datatype Client = Client(request: Request, phase: Phase)

  /** How an execution ended: when its store command was issued, what the handler wrote,
      whether it panicked, and what became of the command. */
  datatype End = End(at: int, writes: seq<WriteCall>, panicked: bool, fate: Fate)

  datatype Exec = Exec(request: Request, claimed: int, expires: int, end: Option<End>)

  datatype Sys = Sys(now: int, table: Table<Record>, clients: map<nat, Client>, execs: seq<Exec>)

  /** What became of one command sent to the store: it succeeded; it failed and had no
      effect; or its effect happened and the acknowledgement was lost. */
  datatype Fate = Applied | Failed | Lost

  /** SetNX may read the clock before it gets hold of the store: at is its own reading, by
      which the record will expire, and the store looks at the key as of an instant seen
      between that reading and now. */
  datatype Step =
    | Tick(d: nat)
    | Arrive(id: nat, request: Request)
    | TryClaim(id: nat, at: int, seen: int, fate: Fate)
    | Inspect(id: nat, fails: bool)
    | Finish(id: nat, writes: seq<WriteCall>)
    | Panic(id: nat, writes: seq<WriteCall>)
    | Settle(id: nat, fate: Fate)

  function Start(t0: int): Sys { Sys(t0, map[], map[], []) }

  function Move(s: Sys, id: nat, phase: Phase): Sys
    requires id in s.clients
  {
    s.(clients := s.clients[id := s.clients[id].(phase := phase)])
  }

  predicate At(s: Sys, id: nat, phase: Phase) { id in s.clients && s.clients[id].phase == phase }

  function TryClaimStep(cfg: Config, s: Sys, id: nat, at: int, seen: int, fate: Fate): Sys
    requires At(s, id, Arrived)
  {
    var r := s.clients[id].request;
    var won := !Live(s.table, seen, r.key);
    var table := if won then s.table[r.key := Entry(ClaimRecord(cfg, r), at + cfg.ttl)] else s.table;
    match fate
    case Failed => Move(s, id, Answered(Problem(STATUS_UNAVAILABLE)))
    case Lost => Move(s.(table := table), id, Answered(Problem(STATUS_UNAVAILABLE)))
    case Applied =>
      if !won then Move(s, id, Duplicate)
      else
        Move(s.(table := table, execs := s.execs + [Exec(r, s.now, at + cfg.ttl, None)]),
             id, Running(|s.execs|))
  }

  /** answerDuplicate, on what Get returned. */
  function AnswerDuplicate(cfg: Config, r: Request, found: Option<Record>): Reply {
    if found.None? then Problem(DefaultStatus(cfg.inFlightStatus, STATUS_CONFLICT))
    else
      var rec := found.value;
      if rec.digest != Fingerprint(cfg, r) then Problem(DefaultStatus(cfg.mismatchStatus, STATUS_UNPROCESSABLE))
      else if rec.inFlight then Problem(DefaultStatus(cfg.inFlightStatus, STATUS_CONFLICT))
      else if cfg.policy == Reject then Problem(DefaultStatus(cfg.rejectStatus, STATUS_CONFLICT))
      else Replayed(rec.response)
  }

  /** Whether the middleware deletes the record rather than storing the response. */
  predicate Releases(cfg: Config, writes: seq<WriteCall>, panicked: bool) {
    var c := Captured(cfg.max, writes);
    panicked || (if c.status == 0 then STATUS_OK else c.status) >= STATUS_INTERNAL || c.truncated
  }

  function StoredRecord(cfg: Config, r: Request, writes: seq<WriteCall>): Record {
    var c := Captured(cfg.max, writes);
    var response := Response(if c.status == 0 then STATUS_OK else c.status, c.body, Storable(HeaderOf(writes)));
    Record(Fingerprint(cfg, r), false, response)
  }

  /** The store's map after the command that ends an execution. */
  function SettledTable(cfg: Config, t: Table<Record>, now: int, r: Request, writes: seq<WriteCall>, panicked: bool)
    : Table<Record>
  {
    if Releases(cfg, writes, panicked) then Remove(t, r.key)
    else Replace(t, now, r.key, StoredRecord(cfg, r, writes))
  }

  /** The deferred delete after a panic, the delete of an unstorable response, or the
      set of the response; errors are ignored. */
  function SettleStep(cfg: Config, s: Sys, id: nat, fate: Fate): Sys
    requires id in s.clients && s.clients[id].phase.Settling? && s.clients[id].phase.exec < |s.execs|
  {
    var r := s.clients[id].request;
    var Settling(e, writes, panicked) := s.clients[id].phase;
    var table := if fate.Failed? then s.table else SettledTable(cfg, s.table, s.now, r, writes, panicked);
    var end := Some(End(s.now, writes, panicked, fate));
    Move(s.(table := table, execs := s.execs[e := s.execs[e].(end := end)]), id, Served)
  }

  /** One atomic step; a step whose guard is false changes nothing. */
  function Do(cfg: Config, s: Sys, step: Step): Sys {
    match step
    case Tick(d) => s.(now := s.now + d)
    case Arrive(id, r) => if id in s.clients then s else s.(clients := s.clients[id := Client(r, Arrived)])
    case TryClaim(id, at, seen, fate) =>
      if At(s, id, Arrived) && at <= seen <= s.now then TryClaimStep(cfg, s, id, at, seen, fate) else s
    case Inspect(id, fails) =>
      if !At(s, id, Duplicate) then s
      else if fails then Move(s, id, Answered(Problem(STATUS_UNAVAILABLE)))
      else
        var r := s.clients[id].request;
        Move(s, id, Answered(AnswerDuplicate(cfg, r, Lookup(s.table, s.now, r.key))))
    case Finish(id, writes) =>
      if id in s.clients && s.clients[id].phase.Running?
      then Move(s, id, Settling(s.clients[id].phase.exec, writes, false)) else s
    case Panic(id, writes) =>
      if id in s.clients && s.clients[id].phase.Running?
      then Move(s, id, Settling(s.clients[id].phase.exec, writes, true)) else s
    case Settle(id, fate) =>
      if id in s.clients && s.clients[id].phase.Settling? && s.clients[id].phase.exec < |s.execs|
      then SettleStep(cfg, s, id, fate) else s
  }

  function Run(cfg: Config, s: Sys, steps: seq<Step>): Sys
    decreases |steps|
  {
    if steps == [] then s else Run(cfg, Do(cfg, s, steps[0]), steps[1..])
  }

  /** What the client was sent, headers as the handler left them. */
  function ResponseOf(writes: seq<WriteCall>): Response {
    Response(FinalStatus(writes), WholeBody(writes), Storable(HeaderOf(writes)))
  }

  // ---------------------------------------------------------------- the hypothesis

  predicate Busy(p: Phase) { p.Running? || p.Settling? }

  /** No claimant is still executing or settling when its TTL has ended. */
  ghost predicate Timely(s: Sys) {
    forall e :: 0 <= e < |s.execs| && s.execs[e].end.None? ==> s.now < s.execs[e].expires
  }

  /** Every claimant's final Set or Delete happens before its TTL ends. */
  ghost predicate TimelyRun(cfg: Config, s: Sys, steps: seq<Step>)
    decreases |steps|
  {
    Timely(s) && (steps == [] || TimelyRun(cfg, Do(cfg, s, steps[0]), steps[1..]))
  }

  // ---------------------------------------------------------------- the invariant

  /** The response may be kept: the handler returned, without a server error, and what it
      wrote fits. Said of the writes themselves. */
  predicate Keepable(cfg: Config, writes: seq<WriteCall>, panicked: bool) {
    !panicked && FinalStatus(writes) < STATUS_INTERNAL && |WholeBody(writes)| <= cfg.max
  }

  /** The execution gave its key back: its response was not to be kept, and the store got
      the command to delete the record. */
  predicate Released(cfg: Config, x: Exec) {
    x.end.Some? && !x.end.value.fate.Failed? && !Keepable(cfg, x.end.value.writes, x.end.value.panicked)
  }

  /** The response was to be kept, and the store got the command to store it. */
  predicate Stored(cfg: Config, x: Exec) {
    x.end.Some? && !x.end.value.fate.Failed? && Keepable(cfg, x.end.value.writes, x.end.value.panicked)
  }

  /** What the table holds of an execution that was not released. */
  function RecordOf(cfg: Config, x: Exec): Record {
    if Stored(cfg, x) then Record(Fingerprint(cfg, x.request), false, ResponseOf(x.end.value.writes))
    else ClaimRecord(cfg, x.request)
  }

  /** The record of an execution that was not released is in the table for its whole
      TTL, so the key cannot be claimed again; once stored it is the response. */
  ghost predicate Guarded(cfg: Config, s: Sys, e: nat)
    requires e < |s.execs|
  {
    var x := s.execs[e];
    (x.end.Some? ==> x.end.value.at <= s.now) &&
    (!Released(cfg, x) && s.now < x.expires ==>
       x.request.key in s.table && s.table[x.request.key] == Entry(RecordOf(cfg, x), x.expires))
  }

  /** Executions i and j of one key, in the order of their claims: i was over before j
      began, and unless i was released its TTL was over too. */
  predicate Separated(cfg: Config, x: Exec, y: Exec) {
    x.request.key == y.request.key ==>
      x.end.Some? && x.end.value.at <= y.claimed && (!Released(cfg, x) ==> x.expires <= y.claimed)
  }

  ghost predicate Ordered(cfg: Config, s: Sys) {
    forall i, j :: 0 <= i < j < |s.execs| ==> Separated(cfg, s.execs[i], s.execs[j])
  }

  /** A busy client is the one its execution belongs to, and that is not over. */
  ghost predicate Owned(s: Sys, id: nat)
    requires id in s.clients
  {
    var c := s.clients[id];
    Busy(c.phase) ==>
      c.phase.exec < |s.execs| && s.execs[c.phase.exec].request == c.request && s.execs[c.phase.exec].end.None?
  }

  /** A response a finished, storable execution produced. */
  ghost predicate Produced(cfg: Config, x: Exec, digest: string, response: Response) {
    Stored(cfg, x) && Fingerprint(cfg, x.request) == digest && response == ResponseOf(x.end.value.writes)
  }

  ghost predicate HasSource(cfg: Config, execs: seq<Exec>, key: string, digest: string, response: Response) {
    exists e :: 0 <= e < |execs| && execs[e].request.key == key && Produced(cfg, execs[e], digest, response)
  }

  /** Every stored response, and every replayed one, came from an execution. */
  ghost predicate Honest(cfg: Config, s: Sys) {
    && (forall k :: k in s.table && !s.table[k].value.inFlight ==>
          HasSource(cfg, s.execs, k, s.table[k].value.digest, s.table[k].value.response))
    && (forall id :: id in s.clients && s.clients[id].phase.Answered? && s.clients[id].phase.reply.Replayed? ==>
          var c := s.clients[id];
          HasSource(cfg, s.execs, c.request.key, Fingerprint(cfg, c.request), c.phase.reply.response))
  }

  ghost predicate Inv(cfg: Config, s: Sys) {
    && (forall e :: 0 <= e < |s.execs| ==> s.execs[e].claimed <= s.now && Guarded(cfg, s, e))
    && Ordered(cfg, s)
    && (forall id :: id in s.clients ==> Owned(s, id))
    && (forall a, b ::
          a in s.clients && b in s.clients && a != b && Busy(s.clients[a].phase) && Busy(s.clients[b].phase)
          ==> s.clients[a].phase.exec != s.clients[b].phase.exec)
    && Honest(cfg, s)
  }

  // ---------------------------------------------------------------- every step keeps it

  lemma {:induction false} SourceStays(cfg: Config, execs: seq<Exec>, execs': seq<Exec>, key: string, digest: string,
      response: Response)
    requires HasSource(cfg, execs, key, digest, response)
    requires |execs| <= |execs'|
    requires forall e :: 0 <= e < |execs| && execs[e].end.Some? ==> execs'[e] == execs[e]
    ensures HasSource(cfg, execs', key, digest, response)
  {
    var e :| 0 <= e < |execs| && execs[e].request.key == key && Produced(cfg, execs[e], digest, response);
    assert execs'[e] == execs[e];
  }

  lemma MoveKeeps(cfg: Config, s: Sys, id: nat, phase: Phase)
    requires Inv(cfg, s) && id in s.clients
    requires Busy(phase) ==> Busy(s.clients[id].phase) && phase.exec == s.clients[id].phase.exec
    requires phase.Answered? && phase.reply.Replayed? ==>
               var r := s.clients[id].request;
               HasSource(cfg, s.execs, r.key, Fingerprint(cfg, r), phase.reply.response)
    ensures Inv(cfg, Move(s, id, phase))
  {
    var s' := Move(s, id, phase);
    forall i | i in s'.clients ensures Owned(s', i) {
      assert Owned(s, i);
    }
    forall e | 0 <= e < |s'.execs| ensures Guarded(cfg, s', e) {
      assert Guarded(cfg, s, e);
    }
  }

  /** A claim changes the table at its own key only, where nothing was live. */
  lemma ClaimTableKeeps(cfg: Config, s: Sys, key: string, e: Entry<Record>)
    requires Inv(cfg, s) && e.value.inFlight && !Live(s.table, s.now, key)
    ensures Inv(cfg, s.(table := s.table[key := e]))
  {
    var s' := s.(table := s.table[key := e]);
    forall e | 0 <= e < |s'.execs| ensures Guarded(cfg, s', e) {
      assert Guarded(cfg, s, e);
    }
    forall i | i in s'.clients ensures Owned(s', i) {
      assert Owned(s, i);
    }
  }

  /** A won claim: every earlier execution of the key is over, released or expired. */
  lemma WonClaimKeeps(cfg: Config, s: Sys, id: nat, at: int, seen: int)
    requires Inv(cfg, s) && Timely(s) && At(s, id, Arrived) && at <= seen <= s.now
    requires !Live(s.table, seen, s.clients[id].request.key)
    ensures Inv(cfg, TryClaimStep(cfg, s, id, at, seen, Applied))
  {
    var r := s.clients[id].request;
    var claim := Entry(ClaimRecord(cfg, r), at + cfg.ttl);
    var s1 := s.(table := s.table[r.key := claim]);
    ClaimTableKeeps(cfg, s, r.key, claim);
    var x := Exec(r, s.now, at + cfg.ttl, None);
    var s' := TryClaimStep(cfg, s, id, at, seen, Applied);
    assert s'.execs == s.execs + [x];
    forall e | 0 <= e < |s.execs| ensures Separated(cfg, s.execs[e], x) {
      assert Guarded(cfg, s, e);
    }
    forall i, j | 0 <= i < j < |s'.execs| ensures Separated(cfg, s'.execs[i], s'.execs[j]) {
      if j < |s.execs| {
        assert Separated(cfg, s.execs[i], s.execs[j]);
      }
    }
    forall e | 0 <= e < |s'.execs| ensures s'.execs[e].claimed <= s'.now && Guarded(cfg, s', e) {
      if e < |s.execs| {
        assert Guarded(cfg, s1, e);
      }
    }
    forall i | i in s'.clients ensures Owned(s', i) {
      assert Owned(s, i);
    }
    SourcesStay(cfg, s1, s');
  }

  /** Sources survive as long as finished executions do. */
  lemma SourcesStay(cfg: Config, s: Sys, s': Sys)
    requires Honest(cfg, s) && |s.execs| <= |s'.execs|
    requires forall e :: 0 <= e < |s.execs| && s.execs[e].end.Some? ==> s'.execs[e] == s.execs[e]
    requires forall k :: k in s'.table && !s'.table[k].value.inFlight ==>
        k in s.table && s'.table[k].value == s.table[k].value
    requires forall id :: id in s'.clients && s'.clients[id].phase.Answered? && s'.clients[id].phase.reply.Replayed? ==>
               id in s.clients && s'.clients[id] == s.clients[id]
    ensures Honest(cfg, s')
  {
    forall k | k in s'.table && !s'.table[k].value.inFlight
      ensures HasSource(cfg, s'.execs, k, s'.table[k].value.digest, s'.table[k].value.response)
    {
      var v := s.table[k].value;
      SourceStays(cfg, s.execs, s'.execs, k, v.digest, v.response);
    }
    forall id | id in s'.clients && s'.clients[id].phase.Answered? && s'.clients[id].phase.reply.Replayed?
      ensures var c := s'.clients[id];
        HasSource(cfg, s'.execs, c.request.key, Fingerprint(cfg, c.request), c.phase.reply.response)
    {
      var c := s.clients[id];
      SourceStays(cfg, s.execs, s'.execs, c.request.key, Fingerprint(cfg, c.request), c.phase.reply.response);
    }
  }

  /** Deleting or rewriting the record of a key whose only unfinished execution is e. */
  lemma SettleTableKeeps(cfg: Config, s: Sys, s': Sys, e: nat)
    requires Inv(cfg, s) && e < |s.execs| && s.execs[e].end.None? && s'.now == s.now
    requires |s'.execs| == |s.execs|
    requires forall i :: 0 <= i < |s.execs| && i != e ==> s'.execs[i] == s.execs[i]
    requires s'.execs[e].request == s.execs[e].request && s'.execs[e].claimed == s.execs[e].claimed
    requires s'.execs[e].expires == s.execs[e].expires && s'.execs[e].end.Some? && s'.execs[e].end.value.at == s.now
    requires forall k :: k != s.execs[e].request.key ==>
               (k in s'.table <==> k in s.table) && (k in s.table ==> s'.table[k] == s.table[k])
    ensures forall i :: 0 <= i < |s'.execs| && i != e ==> Guarded(cfg, s', i)
    ensures Ordered(cfg, s')
  {
    var key := s.execs[e].request.key;
    forall i | 0 <= i < |s'.execs| && i != e ensures Guarded(cfg, s', i) {
      assert Guarded(cfg, s, i);
      if s.execs[i].request.key == key {
        if i < e {
          assert Separated(cfg, s.execs[i], s.execs[e]);
        } else {
          assert Separated(cfg, s.execs[e], s.execs[i]);
        }
      }
    }
    forall i, j | 0 <= i < j < |s'.execs| ensures Separated(cfg, s'.execs[i], s'.execs[j]) {
      assert Separated(cfg, s.execs[i], s.execs[j]);
    }
  }

  lemma SettleKeepsGuards(cfg: Config, s: Sys, id: nat, fate: Fate)
    requires Inv(cfg, s) && Timely(s) && id in s.clients && s.clients[id].phase.Settling?
    requires s.clients[id].phase.exec < |s.execs|
    ensures var s' := SettleStep(cfg, s, id, fate);
      (forall i :: 0 <= i < |s'.execs| ==> s'.execs[i].claimed <= s'.now && Guarded(cfg, s', i)) && Ordered(cfg, s')
  {
    var s' := SettleStep(cfg, s, id, fate);
    var e := s.clients[id].phase.exec;
    assert Owned(s, id) && Guarded(cfg, s, e);
    SettleTableKeeps(cfg, s, s', e);
    SettledIsRecorded(cfg, s, id, fate);
  }

  lemma SettleKeepsOwners(cfg: Config, s: Sys, id: nat, fate: Fate)
    requires Inv(cfg, s) && id in s.clients && s.clients[id].phase.Settling?
    requires s.clients[id].phase.exec < |s.execs|
    ensures var s' := SettleStep(cfg, s, id, fate);
      && (forall i :: i in s'.clients ==> Owned(s', i))
      && forall a, b ::
           a in s'.clients && b in s'.clients && a != b && Busy(s'.clients[a].phase) && Busy(s'.clients[b].phase)
           ==> s'.clients[a].phase.exec != s'.clients[b].phase.exec
  {
    var s' := SettleStep(cfg, s, id, fate);
    forall i | i in s'.clients ensures Owned(s', i) {
      assert Owned(s, i);
    }
  }

  /** The middleware releases exactly what is not to be kept, and what it stores is what
      the client was sent. */
  lemma ReleasesExactlyTheUnkeepable(cfg: Config, r: Request, writes: seq<WriteCall>, panicked: bool)
    ensures Releases(cfg, writes, panicked) <==> !Keepable(cfg, writes, panicked)
    ensures Keepable(cfg, writes, panicked) ==>
              StoredRecord(cfg, r, writes) == Record(Fingerprint(cfg, r), false, ResponseOf(writes))
  {
    CaptureIsExact(cfg.max, writes);
  }

  lemma SettledIsRecorded(cfg: Config, s: Sys, id: nat, fate: Fate)
    requires Inv(cfg, s) && Timely(s) && id in s.clients && s.clients[id].phase.Settling?
    requires s.clients[id].phase.exec < |s.execs|
    ensures Guarded(cfg, SettleStep(cfg, s, id, fate), s.clients[id].phase.exec)
  {
    var e := s.clients[id].phase.exec;
    assert Owned(s, id) && Guarded(cfg, s, e);
    ReleasesExactlyTheUnkeepable(cfg, s.clients[id].request, s.clients[id].phase.writes, s.clients[id].phase.panicked);
  }

  lemma SettleKeepsHonest(cfg: Config, s: Sys, id: nat, fate: Fate)
    requires Inv(cfg, s) && id in s.clients && s.clients[id].phase.Settling?
    requires s.clients[id].phase.exec < |s.execs|
    ensures Honest(cfg, SettleStep(cfg, s, id, fate))
  {
    var s' := SettleStep(cfg, s, id, fate);
    var Settling(e, writes, panicked) := s.clients[id].phase;
    var r := s.clients[id].request;
    assert Owned(s, id);
    if fate.Failed? || Releases(cfg, writes, panicked) || !Live(s.table, s.now, r.key) {
      SourcesStay(cfg, s, s');
    } else {
      var rec := StoredRecord(cfg, r, writes);
      ReleasesExactlyTheUnkeepable(cfg, r, writes, panicked);
      assert s'.execs[e] == s.execs[e].(end := Some(End(s.now, writes, false, fate)));
      assert Produced(cfg, s'.execs[e], rec.digest, rec.response);
      assert HasSource(cfg, s'.execs, r.key, rec.digest, rec.response);
      var s1 := s'.(table := s.table - {r.key});
      SourcesStay(cfg, s, s1);
      assert s'.table[r.key].value == rec;
    }
  }

  lemma SettleKeeps(cfg: Config, s: Sys, id: nat, fate: Fate)
    requires Inv(cfg, s) && Timely(s) && id in s.clients && s.clients[id].phase.Settling?
    requires s.clients[id].phase.exec < |s.execs|
    ensures Inv(cfg, SettleStep(cfg, s, id, fate))
  {
    SettleKeepsGuards(cfg, s, id, fate);
    SettleKeepsOwners(cfg, s, id, fate);
    SettleKeepsHonest(cfg, s, id, fate);
  }

  /** A claim that took effect although its client is told it failed. */
  lemma LostClaimKeeps(cfg: Config, s: Sys, id: nat, at: int, seen: int)
    requires Inv(cfg, s) && At(s, id, Arrived) && at <= seen <= s.now
    requires !Live(s.table, seen, s.clients[id].request.key)
    ensures Inv(cfg, TryClaimStep(cfg, s, id, at, seen, Lost))
  {
    var r := s.clients[id].request;
    var claim := Entry(ClaimRecord(cfg, r), at + cfg.ttl);
    ClaimTableKeeps(cfg, s, r.key, claim);
    MoveKeeps(cfg, s.(table := s.table[r.key := claim]), id, Answered(Problem(STATUS_UNAVAILABLE)));
  }

  lemma TryClaimKeeps(cfg: Config, s: Sys, id: nat, at: int, seen: int, fate: Fate)
    requires Inv(cfg, s) && Timely(s) && At(s, id, Arrived) && at <= seen <= s.now
    ensures Inv(cfg, TryClaimStep(cfg, s, id, at, seen, fate))
  {
    var r := s.clients[id].request;
    var won := !Live(s.table, seen, r.key);
    match fate {
      case Failed => MoveKeeps(cfg, s, id, Answered(Problem(STATUS_UNAVAILABLE)));
      case Lost =>
        if won {
          LostClaimKeeps(cfg, s, id, at, seen);
        } else {
          MoveKeeps(cfg, s, id, Answered(Problem(STATUS_UNAVAILABLE)));
        }
      case Applied =>
        if won {
          WonClaimKeeps(cfg, s, id, at, seen);
        } else {
          MoveKeeps(cfg, s, id, Duplicate);
        }
    }
  }

  lemma PassiveKeeps(cfg: Config, s: Sys, s': Sys)
    requires Inv(cfg, s) && s'.table == s.table && s'.execs == s.execs && s.now <= s'.now
    requires forall id :: id in s.clients ==> id in s'.clients && s'.clients[id] == s.clients[id]
    requires forall id :: id in s'.clients && id !in s.clients ==> s'.clients[id].phase.Arrived?
    ensures Inv(cfg, s')
  {
    forall e | 0 <= e < |s'.execs| ensures Guarded(cfg, s', e) {
      assert Guarded(cfg, s, e);
    }
    forall i | i in s'.clients ensures Owned(s', i) {
      if i in s.clients {
        assert Owned(s, i);
      }
    }
    SourcesStay(cfg, s, s');
  }

  lemma InspectKeeps(cfg: Config, s: Sys, id: nat, fails: bool)
    requires Inv(cfg, s)
    ensures Inv(cfg, Do(cfg, s, Inspect(id, fails)))
  {
    if At(s, id, Duplicate) {
      if fails {
        MoveKeeps(cfg, s, id, Answered(Problem(STATUS_UNAVAILABLE)));
      } else {
        var r := s.clients[id].request;
        MoveKeeps(cfg, s, id, Answered(AnswerDuplicate(cfg, r, Lookup(s.table, s.now, r.key))));
      }
    }
  }

  lemma DoKeeps(cfg: Config, s: Sys, step: Step)
    requires Inv(cfg, s) && Timely(s)
    ensures Inv(cfg, Do(cfg, s, step))
  {
    match step {
      case Tick(_) => PassiveKeeps(cfg, s, Do(cfg, s, step));
      case Arrive(_, _) => PassiveKeeps(cfg, s, Do(cfg, s, step));
      case TryClaim(id, at, seen, fate) =>
        if At(s, id, Arrived) && at <= seen <= s.now {
          TryClaimKeeps(cfg, s, id, at, seen, fate);
        }
      case Inspect(id, fails) => InspectKeeps(cfg, s, id, fails);
      case Finish(id, writes) =>
        if id in s.clients && s.clients[id].phase.Running? {
          MoveKeeps(cfg, s, id, Settling(s.clients[id].phase.exec, writes, false));
        }
      case Panic(id, writes) =>
        if id in s.clients && s.clients[id].phase.Running? {
          MoveKeeps(cfg, s, id, Settling(s.clients[id].phase.exec, writes, true));
        }
      case Settle(id, fate) =>
        if id in s.clients && s.clients[id].phase.Settling? && s.clients[id].phase.exec < |s.execs| {
          SettleKeeps(cfg, s, id, fate);
        }
    }
  }

  lemma {:induction false} RunKeeps(cfg: Config, s: Sys, steps: seq<Step>)
    requires Inv(cfg, s) && TimelyRun(cfg, s, steps)
    ensures Inv(cfg, Run(cfg, s, steps))
    decreases |steps|
  {
    if steps == [] {
    } else {
      DoKeeps(cfg, s, steps[0]);
      RunKeeps(cfg, Do(cfg, s, steps[0]), steps[1..]);
    }
  }

  // ---------------------------------------------------------------- all runs

  /** In every timely run, at most one client per key is executing or settling. */
  lemma AtMostOneExecutionPerKey(cfg: Config, t0: int, steps: seq<Step>, a: nat, b: nat)
    requires TimelyRun(cfg, Start(t0), steps)
    ensures var s := Run(cfg, Start(t0), steps);
      a in s.clients && b in s.clients && a != b && Busy(s.clients[a].phase) && Busy(s.clients[b].phase) ==>
        s.clients[a].request.key != s.clients[b].request.key
  {
    RunKeeps(cfg, Start(t0), steps);
    var s := Run(cfg, Start(t0), steps);
    if a in s.clients && b in s.clients && a != b && Busy(s.clients[a].phase) && Busy(s.clients[b].phase) {
      assert Owned(s, a) && Owned(s, b);
      var i, j := s.clients[a].phase.exec, s.clients[b].phase.exec;
      assert Separated(cfg, s.execs[if i < j then i else j], s.execs[if i < j then j else i]);
    }
  }

  /** In every timely run, two executions of one key never overlap, and the later one
      was claimed after the earlier one's TTL unless the earlier one gave its key back: it
      panicked, ended with a server error or wrote too much, and its record was deleted. */
  lemma ExecutionsAreSeparated(cfg: Config, t0: int, steps: seq<Step>, i: nat, j: nat)
    requires TimelyRun(cfg, Start(t0), steps)
    ensures var s := Run(cfg, Start(t0), steps);
      i < j < |s.execs| && s.execs[i].request.key == s.execs[j].request.key ==>
        && s.execs[i].end.Some? && s.execs[i].end.value.at <= s.execs[j].claimed
        && (Released(cfg, s.execs[i]) || s.execs[i].expires <= s.execs[j].claimed)
  {
    RunKeeps(cfg, Start(t0), steps);
    var s := Run(cfg, Start(t0), steps);
    if i < j < |s.execs| {
      assert Separated(cfg, s.execs[i], s.execs[j]);
    }
  }

  /** What a duplicate is to be told of the execution that holds its key. */
  function Told(cfg: Config, r: Request, x: Exec): Reply {
    if Fingerprint(cfg, r) != Fingerprint(cfg, x.request) then
      Problem(if cfg.mismatchStatus == 0 then STATUS_UNPROCESSABLE else cfg.mismatchStatus)
    else if !Stored(cfg, x) then Problem(if cfg.inFlightStatus == 0 then STATUS_CONFLICT else cfg.inFlightStatus)
    else if cfg.policy == ReplayStored then Replayed(ResponseOf(x.end.value.writes))
    else Problem(if cfg.rejectStatus == 0 then STATUS_CONFLICT else cfg.rejectStatus)
  }

  /** In every timely run: within the TTL of an execution that did not give its key back, a
      new request with the key does not run the handler, and is told of that execution: that
      it differs from it, that it is still going on (or its response was lost on the way to
      the store), or its response. */
  lemma DuplicatesAreToldOfTheExecution(cfg: Config, t0: int, steps: seq<Step>, id: nat, e: nat)
    requires TimelyRun(cfg, Start(t0), steps)
    requires var s := Run(cfg, Start(t0), steps);
      && e < |s.execs| && !Released(cfg, s.execs[e]) && s.now < s.execs[e].expires
      && id in s.clients && s.clients[id].request.key == s.execs[e].request.key
    ensures var s := Run(cfg, Start(t0), steps);
      && (At(s, id, Arrived) ==> Do(cfg, s, TryClaim(id, s.now, s.now, Applied)) == Move(s, id, Duplicate))
      && (At(s, id, Duplicate) ==>
            Do(cfg, s, Inspect(id, false)) == Move(s, id, Answered(Told(cfg, s.clients[id].request, s.execs[e]))))
  {
    RunKeeps(cfg, Start(t0), steps);
    assert Guarded(cfg, Run(cfg, Start(t0), steps), e);
  }

  /** A request whose store command fails is refused, and runs nothing. */
  lemma StoreErrorsFailClosed(cfg: Config, s: Sys, id: nat, at: int, seen: int, fate: Fate)
    requires at <= seen <= s.now && !fate.Applied?
    ensures At(s, id, Arrived) ==>
              var t := Do(cfg, s, TryClaim(id, at, seen, fate));
              At(t, id, Answered(Problem(STATUS_UNAVAILABLE))) && t.execs == s.execs
    ensures At(s, id, Duplicate) ==>
              Do(cfg, s, Inspect(id, true)) == Move(s, id, Answered(Problem(STATUS_UNAVAILABLE)))
  {
  }

  ghost predicate Clean(r: Request) { NulFree(r.verb) && NulFree(r.uri) }

  /** No arriving method or URI contains a NUL. */
  ghost predicate CleanSteps(steps: seq<Step>) {
    forall i :: 0 <= i < |steps| && steps[i].Arrive? ==> Clean(steps[i].request)
  }

  ghost predicate AllClean(s: Sys) {
    && (forall id :: id in s.clients ==> Clean(s.clients[id].request))
    && (forall e :: 0 <= e < |s.execs| ==> Clean(s.execs[e].request))
  }

  lemma {:induction false} RunKeepsClean(cfg: Config, s: Sys, steps: seq<Step>)
    requires AllClean(s) && CleanSteps(steps)
    ensures AllClean(Run(cfg, s, steps))
    decreases |steps|
  {
    if steps == [] {
    } else {
      assert steps[0].Arrive? ==> Clean(steps[0].request);
      RunKeepsClean(cfg, Do(cfg, s, steps[0]), steps[1..]);
    }
  }

  /** In every timely run over a collision-free hash, a replay carries the first final
      status and the whole body of an execution of the very same request, and that
      execution returned without a panic, a 5xx or an overflow, and was not released. */
  lemma ReplayIsTheExecution(cfg: Config, t0: int, steps: seq<Step>, id: nat) returns (e: nat)
    requires TimelyRun(cfg, Start(t0), steps) && CleanSteps(steps)
    requires forall x: string, y: string :: cfg.hash(x) == cfg.hash(y) ==> x == y
    requires var s := Run(cfg, Start(t0), steps);
      id in s.clients && s.clients[id].phase.Answered? && s.clients[id].phase.reply.Replayed?
    ensures var s := Run(cfg, Start(t0), steps);
      && e < |s.execs| && s.execs[e].request == s.clients[id].request && s.execs[e].end.Some?
      && !s.execs[e].end.value.panicked && !s.execs[e].end.value.fate.Failed?
      && var writes := s.execs[e].end.value.writes;
         s.clients[id].phase.reply == Replayed(ResponseOf(writes))
         && FinalStatus(writes) < STATUS_INTERNAL && |WholeBody(writes)| <= cfg.max
  {
    RunKeeps(cfg, Start(t0), steps);
    RunKeepsClean(cfg, Start(t0), steps);
    var s := Run(cfg, Start(t0), steps);
    var c := s.clients[id];
    e :| 0 <= e < |s.execs| && s.execs[e].request.key == c.request.key &&
         Produced(cfg, s.execs[e], Fingerprint(cfg, c.request), c.phase.reply.response);
    PreimageInjective(s.execs[e].request, c.request);
  }
}
