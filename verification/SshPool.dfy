/** The pool of x/sshx/pool.go: many managed connections sharing a dial semaphore, and
    the pool's own Add and Close interleaving with everything its members do. */
module SshPool {
  import opened SshManaged

  /** What the pool's mutex guards: conns are the members Close will close. */
  datatype Roll = Roll(dead: bool, conns: seq<nat>)

  function Registering(r: Roll, id: nat): Roll { if r.dead then r else r.(conns := r.conns + [id]) }

  /** Close's section takes the whole list away; a second Close finds nothing. */
  function Retiring(r: Roll): (Roll, seq<nat>) { if r.dead then (r, []) else (Roll(true, []), r.conns) }

  class Registry {
    var dead: bool
    var conns: seq<nat>

    ghost function View(): Roll reads this { Roll(dead, conns) }

    constructor ()
      ensures View() == Roll(false, [])
    {
      dead, conns := false, [];
    }

    /** add's section: whether the pool was closed already. */
    method Register(id: nat) returns (closed: bool)
      modifies this
      ensures closed == old(dead) && View() == Registering(old(View()), id)
    {
      closed := dead;
      if !closed {
        conns := conns + [id];
      }
    }

    method Retire() returns (todo: seq<nat>)
      modifies this
      ensures (View(), todo) == Retiring(old(View()))
    {
      if dead {
        return [];
      }
      dead := true;
      todo := conns;
      conns := [];
    }
  }

  /** sem: slots taken; closing: the members a Close in progress has still to close. */
  datatype Pool = Pool(cap: nat, sem: nat, roll: Roll, closing: seq<nat>, members: map<nat, World>)

  function Empty(cap: nat): Pool { Pool(cap, 0, Roll(false, []), [], map[]) }

  datatype Act =
    | Add(id: nat)
    | Member(id: nat, step: Step)
    | ClosePool
    | CloseNext

  /** A member added after Close: closed at once, its loop never started. */
  const STILLBORN := START.(f := Closing(FRESH), loop := Exited, cancelled := true)

  predicate InDial(w: World) { w.loop.InFlight? }

  /** The semaphore follows the member: taken on the way into the dial, given back after. */
  function Slots(sem: nat, before: World, after: World): nat {
    if !InDial(before) && InDial(after) then sem + 1
    else if InDial(before) && !InDial(after) && sem > 0 then sem - 1
    else sem
  }

  function Perform(p: Pool, act: Act): Pool {
    match act
    case Add(id) =>
      if id in p.members then p
      else p.(members := p.members[id := if p.roll.dead then STILLBORN else START], roll := Registering(p.roll, id))
    case Member(id, step) =>
      if id !in p.members || (step.Acquire? && p.sem >= p.cap) then p
      else
        var w := SshManaged.Do(p.members[id], step);
        p.(members := p.members[id := w], sem := Slots(p.sem, p.members[id], w))
    case ClosePool => var (roll, todo) := Retiring(p.roll); p.(roll := roll, closing := p.closing + todo)
    case CloseNext =>
      if p.closing == [] || p.closing[0] !in p.members then p
      else
        var w := p.members[p.closing[0]];
        if !w.f.closed then p.(members := p.members[p.closing[0] := SshManaged.Do(w, Close)])
        else if !w.cancelled then p.(members := p.members[p.closing[0] := SshManaged.Do(w, Cancel)])
        else p.(closing := p.closing[1..])
  }

  function PoolRun(p: Pool, acts: seq<Act>): Pool
    decreases |acts|
  {
    if acts == [] then p else Perform(PoolRun(p, acts[..|acts| - 1]), acts[|acts| - 1])
  }

  // ---------------------------------------------------------------- the semaphore

  function Dialers(members: map<nat, World>): set<nat> { set id | id in members && InDial(members[id]) }

  lemma DialersOf(members: map<nat, World>, id: nat, w: World)
    ensures Dialers(members[id := w]) ==
            if InDial(w) then Dialers(members) + {id} else Dialers(members) - {id}
  {
  }

  ghost predicate SemHolds(p: Pool) { p.sem == |Dialers(p.members)| && p.sem <= p.cap }

  lemma OnlyAcquireDials(w: World, step: Step)
    ensures !InDial(w) && InDial(SshManaged.Do(w, step)) ==> step.Acquire?
  {
  }

  /** Putting w in id's place moves the semaphore as it moves the set of dialing members. */
  lemma SlotsFollow(members: map<nat, World>, id: nat, w: World)
    requires id in members
    ensures |Dialers(members[id := w])| == Slots(|Dialers(members)|, members[id], w)
  {
    DialersOf(members, id, w);
    assert InDial(members[id]) <==> id in Dialers(members);
  }

  lemma MemberKeepsSem(p: Pool, id: nat, step: Step)
    requires SemHolds(p)
    ensures SemHolds(Perform(p, Member(id, step)))
  {
    if id in p.members {
      SlotsFollow(p.members, id, SshManaged.Do(p.members[id], step));
      OnlyAcquireDials(p.members[id], step);
    }
  }

  /** Closing a member does not touch its dial. */
  lemma CloseNextKeepsSem(p: Pool)
    requires SemHolds(p)
    ensures SemHolds(Perform(p, CloseNext))
  {
    if p.closing != [] && p.closing[0] in p.members {
      var id := p.closing[0];
      var w := p.members[id];
      SlotsFollow(p.members, id, SshManaged.Do(w, Close));
      SlotsFollow(p.members, id, SshManaged.Do(w, Cancel));
      assert InDial(SshManaged.Do(w, Close)) == InDial(w) == InDial(SshManaged.Do(w, Cancel));
    }
  }

  lemma SemKept(p: Pool, act: Act)
    requires SemHolds(p)
    ensures SemHolds(Perform(p, act))
  {
    match act
    case Add(id) =>
      if id !in p.members {
        DialersOf(p.members, id, if p.roll.dead then STILLBORN else START);
        assert id !in Dialers(p.members);
      }
    case Member(id, step) => MemberKeepsSem(p, id, step);
    case ClosePool =>
    case CloseNext => CloseNextKeepsSem(p);
  }

  /** Dials in flight over all members never exceed the pool's limit. */
  lemma {:induction false} DialsStayUnderTheCap(cap: nat, acts: seq<Act>)
    ensures SemHolds(PoolRun(Empty(cap), acts)) && PoolRun(Empty(cap), acts).cap == cap
    decreases |acts|
  {
    if acts == [] {
    } else {
      var before := acts[..|acts| - 1];
      DialsStayUnderTheCap(cap, before);
      SemKept(PoolRun(Empty(cap), before), acts[|acts| - 1]);
    }
  }

  // ---------------------------------------------------------------- closing the pool

  /** A member is closed, or Close has it on its list, or a Close yet to come has. */
  ghost predicate Accounted(p: Pool, id: nat)
    requires id in p.members
  {
    (p.members[id].f.closed && p.members[id].cancelled) || id in p.closing || id in p.roll.conns
  }

  ghost predicate CloseHolds(p: Pool) {
    && (forall id :: id in p.members ==> Accounted(p, id))
    && (if p.roll.dead then p.roll.conns == [] else p.closing == [])
    && (forall i :: 0 <= i < |p.closing| ==> p.closing[i] in p.members)
    && (forall i :: 0 <= i < |p.roll.conns| ==> p.roll.conns[i] in p.members)
  }

  /** A step never undoes a Close. */
  lemma StaysClosed(w: World, step: Step)
    ensures w.f.closed ==> SshManaged.Do(w, step).f.closed
    ensures w.cancelled ==> SshManaged.Do(w, step).cancelled
  {
  }

  lemma AddKeepsClose(p: Pool, id: nat)
    requires CloseHolds(p)
    ensures CloseHolds(Perform(p, Add(id)))
  {
    var q := Perform(p, Add(id));
    forall x | x in q.members ensures Accounted(q, x) {
      assert x in p.members ==> Accounted(p, x);
      if id !in p.members && !p.roll.dead {
        assert q.roll.conns[|p.roll.conns|] == id;
        assert forall i :: 0 <= i < |p.roll.conns| ==> q.roll.conns[i] == p.roll.conns[i];
      }
    }
  }

  lemma MemberKeepsClose(p: Pool, id: nat, step: Step)
    requires CloseHolds(p)
    ensures CloseHolds(Perform(p, Member(id, step)))
  {
    var q := Perform(p, Member(id, step));
    forall x | x in q.members ensures Accounted(q, x) {
      assert Accounted(p, x);
      if x == id {
        StaysClosed(p.members[id], step);
      }
    }
  }

  lemma CloseNextKeepsClose(p: Pool)
    requires CloseHolds(p)
    ensures CloseHolds(Perform(p, CloseNext))
  {
    var q := Perform(p, CloseNext);
    if p.closing != [] {
      var head, rest := p.closing[0], p.closing[1..];
      assert p.closing == [head] + rest;
      StaysClosed(p.members[head], Close);
      StaysClosed(p.members[head], Cancel);
      forall x | x in q.members ensures Accounted(q, x) {
        assert Accounted(p, x);
      }
    }
  }

  lemma CloseKept(p: Pool, act: Act)
    requires CloseHolds(p)
    ensures CloseHolds(Perform(p, act))
  {
    match act
    case Add(id) => AddKeepsClose(p, id);
    case Member(id, step) => MemberKeepsClose(p, id, step);
    case ClosePool =>
      forall x | x in p.members ensures Accounted(Perform(p, ClosePool), x) {
        assert Accounted(p, x);
        assert p.closing + [] == p.closing && [] + p.roll.conns == p.roll.conns;
      }
    case CloseNext => CloseNextKeepsClose(p);
  }

  lemma {:induction false} RunKeepsClose(cap: nat, acts: seq<Act>)
    ensures CloseHolds(PoolRun(Empty(cap), acts))
    decreases |acts|
  {
    if acts == [] {
    } else {
      var before := acts[..|acts| - 1];
      RunKeepsClose(cap, before);
      CloseKept(PoolRun(Empty(cap), before), acts[|acts| - 1]);
    }
  }

  ghost predicate AllHold(p: Pool) { forall id :: id in p.members ==> Holds(p.members[id]) }

  lemma AllKept(p: Pool, act: Act)
    requires AllHold(p)
    ensures AllHold(Perform(p, act))
  {
    var q := Perform(p, act);
    forall id | id in q.members ensures Holds(q.members[id]) {
      if id in p.members {
        if act.Member? {
          StepHolds(p.members[id], act.step);
        }
        StepHolds(p.members[id], Close);
        StepHolds(p.members[id], Cancel);
      }
    }
  }

  lemma {:induction false} RunKeepsAll(cap: nat, acts: seq<Act>)
    ensures AllHold(PoolRun(Empty(cap), acts))
    decreases |acts|
  {
    if acts == [] {
    } else {
      var before := acts[..|acts| - 1];
      RunKeepsAll(cap, before);
      AllKept(PoolRun(Empty(cap), before), acts[|acts| - 1]);
    }
  }

  /** When the pool's Close has come to its end, every member ever added, before it or
      after, is closed for good: it hands nothing out, at most one connection of it is
      still on its way down, and none once its loop has exited. */
  lemma ClosedPoolClosesEveryMember(cap: nat, acts: seq<Act>, id: nat)
    requires var p := PoolRun(Empty(cap), acts); p.roll.dead && p.closing == [] && id in p.members
    ensures var w := PoolRun(Empty(cap), acts).members[id];
      && w.f.closed && w.cancelled && w.f.state.Closed? && Handing(w.f) == ErrClosed
      && (forall c, d :: c in w.open && d in w.open ==> c == d)
      && (w.loop.Exited? ==> w.open == {} && w.f.client.None?)
  {
    RunKeepsClose(cap, acts);
    RunKeepsAll(cap, acts);
    var p := PoolRun(Empty(cap), acts);
    assert Accounted(p, id) && Holds(p.members[id]);
  }

  // ---------------------------------------------------------------- what goes on

  /** In every interleaving a member that is to dial can do so at once if and only if fewer
      members than the limit are dialing. */
  lemma DialsExactlyBelowTheCap(cap: nat, acts: seq<Act>, id: nat)
    requires var p := PoolRun(Empty(cap), acts); id in p.members && p.members[id].loop.Dialing?
    ensures var p := PoolRun(Empty(cap), acts);
      Perform(p, Member(id, Acquire)).members[id].loop.InFlight? <==> |Dialers(p.members)| < cap
  {
    DialsStayUnderTheCap(cap, acts);
  }

  /** A pool takes members on until it is closed; from then on they are closed from the start. */
  lemma {:induction false} TakesMembersUntilClosed(cap: nat, acts: seq<Act>, id: nat)
    ensures var p := PoolRun(Empty(cap), acts);
      && (p.roll.dead <==> ClosePool in acts)
      && (id !in p.members ==>
            Perform(p, Add(id)).members == p.members[id := if ClosePool in acts then STILLBORN else START])
    decreases |acts|
  {
    if acts == [] {
    } else {
      var before, last := acts[..|acts| - 1], acts[|acts| - 1];
      assert acts == before + [last];
      TakesMembersUntilClosed(cap, before, id);
    }
  }
}
