/** One self-healing connection of x/sshx/pool.go: the fields its mutex guards, and the
    interleaving of its maintenance loop, the callers using it, and Close. Every section
    under the mutex, channel operation, dial and close is one atomic step. */
module SshManaged {
  import opened Common

  datatype State = Connecting | Ready | Broken | Closed

  /** The guarded fields, and whether the one-slot redial channel is full. */
  datatype Fields = Fields(client: Option<nat>, state: State, closed: bool, token: bool)

  datatype Handout = Live(c: nat) | NotReady | ErrClosed

  const FRESH := Fields(None, Connecting, false, false)

  // ---------------------------------------------------------------- the guarded sections

  /** set: nothing after Close; the client changes with a new one or with Ready. */
  function Setting(f: Fields, state: State, c: Option<nat>): Fields {
    if f.closed then f
    else f.(state := state, client := if c.Some? || state.Ready? then c else f.client)
  }

  /** signalReconnect's section: it marks only the live client broken. */
  function Marks(f: Fields, c: nat): bool { !f.closed && f.state.Ready? && f.client == Some(c) }

  function Marked(f: Fields, c: nat): Fields { if Marks(f, c) then f.(state := Broken) else f }

  function Cleared(f: Fields, c: nat): Fields { if f.client == Some(c) then f.(client := None) else f }

  function Handing(f: Fields): Handout {
    if f.closed then ErrClosed
    else if !f.state.Ready? || f.client.None? then NotReady
    else Live(f.client.value)
  }

  function Closing(f: Fields): Fields { f.(closed := true, state := Closed) }

  class Managed {
    var client: Option<nat>
    var state: State
    var closed: bool
    var token: bool

    ghost function View(): Fields reads this { Fields(client, state, closed, token) }

    constructor ()
      ensures View() == FRESH
    {
      client, state, closed, token := None, Connecting, false, false;
    }

    method Set(next: State, c: Option<nat>)
      modifies this
      ensures View() == Setting(old(View()), next, c)
    {
      if closed {
        return;
      }
      state := next;
      if c.Some? || next.Ready? {
        client := c;
      }
    }

    /** The section alone; the caller goes on to TrySend when it answers true. */
    method Mark(c: nat) returns (changed: bool)
      modifies this
      ensures changed == Marks(old(View()), c) && View() == Marked(old(View()), c)
    {
      changed := !closed && state.Ready? && client == Some(c);
      if changed {
        state := Broken;
      }
    }

    /** A send that never blocks: a token already waiting serves for this one too. */
    method TrySend() returns (dropped: bool)
      modifies this
      ensures dropped == old(token) && View() == old(View()).(token := true)
    {
      dropped := token;
      token := true;
    }

    method Drain() returns (drained: bool)
      modifies this
      ensures drained == old(token) && View() == old(View()).(token := false)
    {
      drained := token;
      token := false;
    }

    method Clear(c: nat)
      modifies this
      ensures View() == Cleared(old(View()), c)
    {
      if client == Some(c) {
        client := None;
      }
    }

    method HandOut() returns (h: Handout)
      ensures h == Handing(View())
    {
      if closed {
        return ErrClosed;
      }
      if !state.Ready? || client.None? {
        return NotReady;
      }
      return Live(client.value);
    }

    method Close()
      modifies this
      ensures View() == Closing(old(View()))
    {
      closed, state := true, Closed;
    }
  }

  // ---------------------------------------------------------------- the machine

  /** Where the maintenance loop is. Taken: it has a redial token and has not yet recorded
      Broken; Tearing and Clearing: before and after the connection itself is closed. */
  datatype Loop =
    | Dialing | InFlight | Failed | Waiting
    | Draining(c: nat) | Announcing(c: nat) | Serving(c: nat) | Taken(c: nat)
    | Tearing(c: nat, redial: bool) | Clearing(c: nat, redial: bool)
    | Exited

  /** open: connections dialed and not closed, numbered as dialed; held: those handed out
      to callers; marked: those a caller's report marked broken; sends: reports between
      their section and their send. The counters say what became of the tokens. */
  datatype World = World(
    f: Fields, loop: Loop, cancelled: bool,
    dialed: nat, open: set<nat>, held: set<nat>, marked: set<nat>,
    sends: nat, dropped: nat, drained: nat, redials: nat)

  const START := World(FRESH, Dialing, false, 0, {}, {}, {}, 0, 0, 0, 0)

  datatype Step =
    | Acquire | DialOk | DialFails | DialCancelled
    | RecordFailure | Wake | Drain | Announce
    | TakeToken | RecordRedial | PingFails | Stop
    | CloseConnection | Clear
    | HandOut | Report(c: nat) | Send | Close | Cancel

  function LoopStep(w: World, step: Step): World {
    match w.loop
    case Dialing =>
      if step.Acquire? then w.(loop := InFlight)
      else if step.Stop? && w.cancelled then w.(loop := Exited)
      else w
    case InFlight =>
      if step.DialOk? then w.(loop := Draining(w.dialed), dialed := w.dialed + 1, open := w.open + {w.dialed})
      else if step.DialFails? then w.(loop := Failed)
      else if step.DialCancelled? && w.cancelled then w.(loop := Exited)
      else w
    case Failed => if step.RecordFailure? then w.(loop := Waiting, f := Setting(w.f, Broken, None)) else w
    case Waiting =>
      if step.Wake? then w.(loop := Dialing) else if step.Stop? && w.cancelled then w.(loop := Exited) else w
    case Draining(c) =>
      if step.Drain? then
        w.(loop := Announcing(c), f := w.f.(token := false), drained := w.drained + if w.f.token then 1 else 0)
      else w
    case Announcing(c) => if step.Announce? then w.(loop := Serving(c), f := Setting(w.f, Ready, Some(c))) else w
    case Serving(c) =>
      if step.TakeToken? && w.f.token then w.(loop := Taken(c), f := w.f.(token := false), redials := w.redials + 1)
      else if step.PingFails? then w.(loop := Tearing(c, true), f := Setting(w.f, Broken, None))
      else if step.Stop? && w.cancelled then w.(loop := Tearing(c, false))
      else w
    case Taken(c) => if step.RecordRedial? then w.(loop := Tearing(c, true), f := Setting(w.f, Broken, None)) else w
    case Tearing(c, redial) =>
      if step.CloseConnection? then w.(loop := Clearing(c, redial), open := w.open - {c}) else w
    case Clearing(c, redial) =>
      if step.Clear? then w.(loop := if redial then Dialing else Exited, f := Cleared(w.f, c)) else w
    case Exited => w
  }

  /** A step the world is not ready for leaves it as it is. A report comes from a caller
      that was handed c, at any later time. */
  function Do(w: World, step: Step): World {
    match step
    case HandOut => if Handing(w.f).Live? then w.(held := w.held + {Handing(w.f).c}) else w
    case Report(c) =>
      if !(c in w.held && Marks(w.f, c)) then w
      else w.(f := Marked(w.f, c), marked := w.marked + {c}, sends := w.sends + 1)
    case Send =>
      if w.sends == 0 then w
      else w.(sends := w.sends - 1, f := w.f.(token := true), dropped := w.dropped + if w.f.token then 1 else 0)
    case Close => w.(f := Closing(w.f))
    case Cancel => if w.f.closed then w.(cancelled := true) else w
    case _ => LoopStep(w, step)
  }

  function Run(w: World, steps: seq<Step>): World
    decreases |steps|
  {
    if steps == [] then w else Do(Run(w, steps[..|steps| - 1]), steps[|steps| - 1])
  }

  // ---------------------------------------------------------------- what every step keeps

  /** The connection the loop has in hand and has not closed. */
  function InHand(loop: Loop): Option<nat> {
    match loop
    case Draining(c) => Some(c)
    case Announcing(c) => Some(c)
    case Serving(c) => Some(c)
    case Taken(c) => Some(c)
    case Tearing(c, _) => Some(c)
    case _ => None
  }

  /** The connection that may stand in the client field. */
  function Holder(loop: Loop): Option<nat> {
    match loop
    case Serving(c) => Some(c)
    case Taken(c) => Some(c)
    case Tearing(c, _) => Some(c)
    case Clearing(c, _) => Some(c)
    case _ => None
  }

  ghost predicate ClientHolds(w: World) {
    && (w.f.client.Some? ==> w.f.client == Holder(w.loop))
    && (w.f.state.Ready? ==> w.f.client.Some? && (w.loop.Serving? || w.loop.Taken?))
    && (w.f.closed <==> w.f.state.Closed?)
    && (w.cancelled ==> w.f.closed)
    && (w.loop.Exited? ==> w.cancelled)
    && ((w.loop.Tearing? || w.loop.Clearing?) && !w.loop.redial ==> w.cancelled)
  }

  ghost predicate ConnectionsHold(w: World) {
    && w.open == (if InHand(w.loop).Some? then {InHand(w.loop).value} else {})
    && (InHand(w.loop).Some? ==> InHand(w.loop).value == w.dialed - 1)
    && (Holder(w.loop).Some? ==> Holder(w.loop).value == w.dialed - 1)
  }

  /** Every mark went one of five ways, and no connection is marked twice: the live
      client is unmarked as long as it is announced Ready. */
  ghost predicate TokensHold(w: World) {
    && w.redials + w.drained + w.dropped + w.sends + (if w.f.token then 1 else 0) == |w.marked|
    && MarksHold(w)
  }

  ghost predicate MarksHold(w: World) {
    && w.marked <= w.held
    && (forall c :: c in w.held ==> c < w.dialed)
    && (w.f.state.Ready? && w.f.client.Some? ==> w.f.client.value !in w.marked)
    && (w.loop.Draining? || w.loop.Announcing? ==> w.loop.c !in w.held)
  }

  ghost predicate Holds(w: World) { ClientHolds(w) && ConnectionsHold(w) && TokensHold(w) }

  lemma LoopKeepsClient(w: World, step: Step)
    requires ClientHolds(w)
    ensures ClientHolds(LoopStep(w, step))
  {
  }

  lemma ClientKept(w: World, step: Step)
    requires ClientHolds(w)
    ensures ClientHolds(Do(w, step))
  {
    match step
    case HandOut =>
    case Report(_) =>
    case Send =>
    case Close =>
    case Cancel =>
    case _ => LoopKeepsClient(w, step);
  }

  lemma ConnectionsKept(w: World, step: Step)
    requires ConnectionsHold(w)
    ensures ConnectionsHold(Do(w, step))
  {
  }

  lemma LoopKeepsMarks(w: World, step: Step)
    requires Holds(w)
    ensures MarksHold(LoopStep(w, step)) && LoopStep(w, step).marked == w.marked
  {
  }

  lemma LoopKeepsTokens(w: World, step: Step)
    requires Holds(w)
    ensures TokensHold(LoopStep(w, step))
  {
    LoopKeepsMarks(w, step);
  }

  /** A report can only mark the connection in the client field, and only once. */
  lemma ReportKeepsTokens(w: World, c: nat)
    requires Holds(w)
    ensures TokensHold(Do(w, Report(c)))
  {
    if c in w.held && Marks(w.f, c) {
      assert c !in w.marked;
    }
  }

  lemma TokensKept(w: World, step: Step)
    requires Holds(w)
    ensures TokensHold(Do(w, step))
  {
    match step
    case HandOut =>
    case Report(c) => ReportKeepsTokens(w, c);
    case Send =>
    case Close =>
    case Cancel =>
    case _ => LoopKeepsTokens(w, step);
  }

  lemma StepHolds(w: World, step: Step)
    requires Holds(w)
    ensures Holds(Do(w, step))
  {
    ClientKept(w, step);
    ConnectionsKept(w, step);
    TokensKept(w, step);
  }

  lemma {:induction false} RunHolds(steps: seq<Step>)
    ensures Holds(Run(START, steps))
    decreases |steps|
  {
    if steps == [] {
    } else {
      var before := steps[..|steps| - 1];
      RunHolds(before);
      var w := Run(START, before);
      ClientKept(w, steps[|steps| - 1]);
      ConnectionsKept(w, steps[|steps| - 1]);
      TokensKept(w, steps[|steps| - 1]);
    }
  }

  // ---------------------------------------------------------------- every run

  /** What a caller is handed is the loop's current connection: the newest one dialed,
      still open, the only one open, and not reported by anybody. */
  lemma HandedOutIsCurrent(steps: seq<Step>, c: nat)
    requires Handing(Run(START, steps).f) == Live(c)
    ensures var w := Run(START, steps);
      && (w.loop == Serving(c) || w.loop == Taken(c))
      && w.open == {c} && c == w.dialed - 1 && c !in w.marked
  {
    RunHolds(steps);
  }

  /** At no moment is more than one connection open. */
  lemma AtMostOneOpen(steps: seq<Step>, c: nat, d: nat)
    requires c in Run(START, steps).open && d in Run(START, steps).open
    ensures c == d
  {
    RunHolds(steps);
  }

  /** Closed is terminal: from then on nothing is handed out and nothing marked, and
      the state stays Closed whatever the loop and the callers still do. */
  lemma {:induction false} ClosedIsTerminal(w: World, steps: seq<Step>)
    requires w.f.closed && w.f.state.Closed?
    ensures Shut(w, Run(w, steps)) && Handing(Run(w, steps).f) == ErrClosed
    decreases |steps|
  {
    if steps == [] {
    } else {
      ClosedIsTerminal(w, steps[..|steps| - 1]);
      StaysShut(w, Run(w, steps[..|steps| - 1]), steps[|steps| - 1]);
    }
  }

  /** x comes after the closed world w, and is closed still. */
  ghost predicate Shut(w: World, x: World) {
    && x.f.closed && x.f.state.Closed?
    && x.held == w.held && x.marked == w.marked && (x.f.client == w.f.client || x.f.client.None?)
  }

  lemma StaysShut(w: World, x: World, step: Step)
    requires Shut(w, x)
    ensures Shut(w, Do(x, step))
  {
  }

  /** When the loop has exited, Close has been called, no connection is left open, and
      none is left in the fields. */
  lemma ExitLeavesNothing(steps: seq<Step>)
    requires Run(START, steps).loop.Exited?
    ensures var w := Run(START, steps); w.open == {} && w.f.client.None? && w.f.closed && w.cancelled
  {
    RunHolds(steps);
  }

  /** Redials on demand, and tokens waiting, under way, dropped or drained, together are
      as many as the connections callers reported; each was handed out before. */
  lemma RedialsAreReported(steps: seq<Step>)
    ensures var w := Run(START, steps);
      && w.redials + w.drained + w.dropped + w.sends + (if w.f.token then 1 else 0) == |w.marked|
      && w.redials <= |w.marked| && w.marked <= w.held
  {
    RunHolds(steps);
  }

  // ---------------------------------------------------------------- a report is not lost

  /** A connection served as Broken was reported, and its token waits or is on its way. */
  ghost predicate Awaited(w: World) { w.loop.Serving? && w.f.state.Broken? ==> w.f.token || w.sends > 0 }

  lemma AwaitedKept(w: World, step: Step)
    requires ClientHolds(w) && Awaited(w)
    ensures Awaited(Do(w, step))
  {
  }

  lemma {:induction false} RunAwaits(steps: seq<Step>)
    ensures Awaited(Run(START, steps))
    decreases |steps|
  {
    if steps == [] {
    } else {
      var before := steps[..|steps| - 1];
      RunAwaits(before);
      RunHolds(before);
      AwaitedKept(Run(START, before), steps[|steps| - 1]);
    }
  }

  /** A reported connection gets its redial: as long as it is served, the loop can take a
      token for it, at once or after one pending send. */
  lemma AReportGetsItsRedial(steps: seq<Step>, c: nat)
    requires Run(START, steps).loop == Serving(c) && Run(START, steps).f.state.Broken?
    ensures var w := Run(START, steps);
      && (w.f.token || w.sends > 0)
      && Do(if w.f.token then w else Do(w, Send), TakeToken).loop == Taken(c)
  {
    RunAwaits(steps);
  }

  lemma OneMore(w: World, steps: seq<Step>, v: World, others: seq<Step>, step: Step)
    requires Run(w, steps) == Run(v, others)
    ensures Run(w, steps + [step]) == Run(v, others + [step])
  {
    assert (steps + [step])[..|steps|] == steps && (others + [step])[..|others|] == others;
  }

  lemma {:induction false} RunJoins(w: World, before: seq<Step>, more: seq<Step>)
    ensures Run(w, before + more) == Run(Run(w, before), more)
    decreases |more|
  {
    if more == [] {
      assert before + more == before;
    } else {
      var shorter, last := more[..|more| - 1], more[|more| - 1];
      assert before + more == before + shorter + [last] && more == shorter + [last];
      RunJoins(w, before, shorter);
      OneMore(w, before + shorter, Run(w, before), shorter, last);
    }
  }

  lemma RunFirst(w: World, step: Step, more: seq<Step>)
    ensures Run(w, [step] + more) == Run(Do(w, step), more)
  {
    RunJoins(w, [step], more);
    assert [step][..0] == [] && Run(w, [step]) == Do(w, step);
  }

  lemma RunFour(w: World, a: Step, b: Step, c: Step, d: Step)
    ensures Run(w, [a, b, c, d]) == Do(Do(Do(Do(w, a), b), c), d)
  {
    assert [a, b, c, d] == [a] + ([b] + ([c] + ([d] + [])));
    RunFirst(w, a, [b] + ([c] + ([d] + [])));
    RunFirst(Do(w, a), b, [c] + ([d] + []));
    RunFirst(Do(Do(w, a), b), c, [d] + []);
    RunFirst(Do(Do(Do(w, a), b), c), d, []);
  }

  // ---------------------------------------------------------------- what the state tells

  ghost predicate ReadyTells(w: World) {
    && (w.f.state.Ready? <==> (w.loop.Serving? || w.loop.Taken?) && w.loop.c !in w.marked)
    && (w.f.state.Ready? ==> w.f.client == Some(w.loop.c))
  }

  ghost predicate ConnectingTells(w: World) {
    && (w.f.state.Connecting? ==>
          || (w.dialed == 0 && (w.loop.Dialing? || w.loop.InFlight? || w.loop.Failed?))
          || (w.dialed == 1 && (w.loop.Draining? || w.loop.Announcing?)))
    && (w.loop.Waiting? || w.loop.Tearing? || w.loop.Clearing? ==> w.f.state.Broken?)
  }

  /** Until Close: Ready exactly while an unreported connection is served, Connecting only
      before the first dial has come to anything, and Broken while a failure is dealt with. */
  ghost predicate StateTells(w: World) { !w.f.closed ==> ReadyTells(w) && ConnectingTells(w) }

  lemma ReadyTellsOn(w: World, step: Step)
    requires Holds(w) && ReadyTells(w) && !w.f.closed && !step.Close?
    ensures ReadyTells(Do(w, step))
  {
    if step.Report? && step.c in w.held && Marks(w.f, step.c) {
      assert w.loop.c == step.c;
    }
  }

  lemma ConnectingTellsOnLoop(w: World, step: Step)
    requires Holds(w) && ConnectingTells(w) && !w.f.closed
    ensures ConnectingTells(LoopStep(w, step))
  {
  }

  lemma ConnectingTellsOn(w: World, step: Step)
    requires Holds(w) && ConnectingTells(w) && !w.f.closed && !step.Close?
    ensures ConnectingTells(Do(w, step))
  {
    match step
    case HandOut =>
    case Report(_) =>
    case Send =>
    case Cancel =>
    case _ => ConnectingTellsOnLoop(w, step);
  }

  lemma StateTellsOn(w: World, step: Step)
    requires Holds(w) && StateTells(w)
    ensures StateTells(Do(w, step))
  {
    if !w.f.closed && !step.Close? {
      ReadyTellsOn(w, step);
      ConnectingTellsOn(w, step);
    } else if w.f.closed {
      ClosedForGood(w, step);
    }
  }

  lemma ClosedForGood(w: World, step: Step)
    requires w.f.closed
    ensures Do(w, step).f.closed
  {
  }

  lemma {:induction false} StateTellsAlways(steps: seq<Step>)
    ensures StateTells(Run(START, steps))
    decreases |steps|
  {
    if steps == [] {
    } else {
      var before := steps[..|steps| - 1];
      StateTellsAlways(before);
      RunHolds(before);
      StateTellsOn(Run(START, before), steps[|steps| - 1]);
    }
  }

  // ---------------------------------------------------------------- the loop can always exit

  /** How many steps the cancelled loop has to its end. */
  function Distance(loop: Loop): nat {
    match loop
    case Exited => 0
    case Dialing => 1
    case InFlight => 1
    case Waiting => 1
    case Failed => 2
    case Clearing(_, redial) => if redial then 2 else 1
    case Tearing(_, redial) => if redial then 3 else 2
    case Taken(_) => 4
    case Serving(_) => 3
    case Announcing(_) => 4
    case Draining(_) => 5
  }

  function TowardsExit(loop: Loop): Step {
    match loop
    case InFlight => DialCancelled
    case Failed => RecordFailure
    case Draining(_) => Drain
    case Announcing(_) => Announce
    case Taken(_) => RecordRedial
    case Tearing(_, _) => CloseConnection
    case Clearing(_, _) => Step.Clear
    case _ => Stop
  }

  /** Steps of the loop alone, and the cancellation of its context: no caller does anything. */
  predicate Alone(step: Step) {
    !step.HandOut? && !step.Report? && !step.Send? && !step.Close?
  }

  ghost predicate AllAlone(steps: seq<Step>) { forall i :: 0 <= i < |steps| ==> Alone(steps[i]) }

  lemma {:induction false} CancelledLoopExits(w: World) returns (more: seq<Step>)
    requires w.cancelled && w.f.closed
    ensures AllAlone(more) && |more| == Distance(w.loop) && Run(w, more).loop.Exited?
    decreases Distance(w.loop)
  {
    if w.loop.Exited? {
      more := [];
    } else {
      var step := TowardsExit(w.loop);
      var rest := CancelledLoopExits(Do(w, step));
      more := [step] + rest;
      RunFirst(w, step, rest);
    }
  }

  ghost predicate NoClose(steps: seq<Step>) { forall i :: 0 <= i < |steps| ==> !steps[i].Close? }

  lemma {:induction false} NotClosedUnlessAsked(w: World, more: seq<Step>)
    requires !w.f.closed && NoClose(more)
    ensures !Run(w, more).f.closed
    decreases |more|
  {
    if more == [] {
    } else {
      NotClosedUnlessAsked(w, more[..|more| - 1]);
      StaysOpenBut(Run(w, more[..|more| - 1]), more[|more| - 1]);
    }
  }

  lemma StaysOpenBut(w: World, step: Step)
    requires !w.f.closed && !step.Close?
    ensures !Do(w, step).f.closed
  {
  }

  /** In every reachable state, wherever the loop stands: it can exit without a further
      Close if and only if Close has been called; then it needs nobody else, and at most
      six steps. */
  lemma ExitsExactlyAfterClose(steps: seq<Step>)
    ensures var w := Run(START, steps);
      && ((exists more :: NoClose(more) && Run(w, more).loop.Exited?) <==> w.f.closed)
      && (w.f.closed ==> exists more :: AllAlone(more) && |more| <= 6 && Run(w, more).loop.Exited?)
  {
    var w := Run(START, steps);
    RunHolds(steps);
    if w.f.closed {
      var rest := CancelledLoopExits(Do(w, Cancel));
      var more := [Cancel] + rest;
      RunFirst(w, Cancel, rest);
      assert AllAlone(more) && |more| <= 6 && Run(w, more).loop.Exited? && NoClose(more);
    } else if exists more :: NoClose(more) && Run(w, more).loop.Exited? {
      var more :| NoClose(more) && Run(w, more).loop.Exited?;
      NotClosedUnlessAsked(w, more);
      RunJoins(START, steps, more);
      RunHolds(steps + more);
      assert false;
    }
  }

  // ---------------------------------------------------------------- the loop can always serve again

  predicate Usable(w: World) { Handing(w.f).Live? }

  /** How many steps the loop has to its next usable connection. */
  function Way(w: World): nat {
    if Usable(w) then 0
    else
      match w.loop
      case Announcing(_) => 1
      case Draining(_) => 2
      case InFlight => 3
      case Dialing => 4
      case Waiting => 5
      case Clearing(_, _) => 5
      case Failed => 6
      case Tearing(_, _) => 6
      case Taken(_) => 7
      case Serving(_) => 7
      case Exited => 0
  }

  function TowardsReady(loop: Loop): Step {
    match loop
    case Dialing => Acquire
    case InFlight => DialOk
    case Failed => RecordFailure
    case Waiting => Wake
    case Serving(_) => PingFails
    case _ => TowardsExit(loop)
  }

  lemma NearsReady(w: World)
    requires Holds(w) && !w.f.closed && !Usable(w)
    ensures var v := Do(w, TowardsReady(w.loop));
      !v.f.closed && Alone(TowardsReady(w.loop)) && (Usable(v) || Way(v) < Way(w))
  {
  }

  lemma {:induction false} OpenLoopServes(w: World) returns (more: seq<Step>)
    requires Holds(w) && !w.f.closed
    ensures AllAlone(more) && Usable(Run(w, more))
    decreases Way(w)
  {
    if Usable(w) {
      more := [];
    } else {
      var step := TowardsReady(w.loop);
      NearsReady(w);
      StepHolds(w, step);
      var rest := OpenLoopServes(Do(w, step));
      more := [step] + rest;
      RunFirst(w, step, rest);
    }
  }

  /** In every reachable state, after whatever failed dials, pings and reports: the loop by
      itself can come to a connection that callers are handed, if and only if Close has not
      been called. */
  lemma ServesAgainExactlyUntilClose(steps: seq<Step>)
    ensures (exists more :: AllAlone(more) && Usable(Run(Run(START, steps), more))) <==> !Run(START, steps).f.closed
  {
    var w := Run(START, steps);
    RunHolds(steps);
    if !w.f.closed {
      var more := OpenLoopServes(w);
    } else {
      forall more ensures !Usable(Run(w, more)) {
        ClosedIsTerminal(w, more);
      }
    }
  }

  // ---------------------------------------------------------------- whose token it was

  /** Past the drain, the token and the sends under way are c's own. */
  ghost predicate Drained(w: World, c: nat) {
    && (w.loop == Announcing(c) ==> !w.f.token && w.sends == 0)
    && (w.loop == Serving(c) && (w.f.token || w.sends > 0) ==> c in w.marked)
    && (w.loop == Taken(c) ==> c in w.marked)
  }

  /** From the drain before connection c is announced, every token the loop can take
      while serving c is c's own. */
  ghost predicate OwnTokens(w: World, c: nat) {
    && c < w.dialed
    && (w.loop == Draining(c) ==> w.sends == 0)
    && Drained(w, c)
  }

  lemma OwnTokensKept(w: World, step: Step, c: nat)
    requires Holds(w) && OwnTokens(w, c)
    ensures OwnTokens(Do(w, step), c)
  {
  }

  lemma {:induction false} RunOwns(w: World, more: seq<Step>, c: nat)
    requires Holds(w) && OwnTokens(w, c)
    ensures Holds(Run(w, more)) && OwnTokens(Run(w, more), c)
    decreases |more|
  {
    if more == [] {
    } else {
      RunOwns(w, more[..|more| - 1], c);
      var v := Run(w, more[..|more| - 1]);
      StepHolds(v, more[|more| - 1]);
      OwnTokensKept(v, more[|more| - 1], c);
    }
  }

  /** The loop ends connection c for a token, although nobody reported c. */
  ghost predicate EndsUnreported(w: World, more: seq<Step>, c: nat) {
    Run(w, more).loop == Taken(c) && c !in Run(w, more).marked
  }

  lemma ALateSendEndsIt(w: World, c: nat)
    requires Holds(w) && w.loop == Draining(c) && w.sends > 0
    ensures EndsUnreported(w, [Drain, Announce, Send, TakeToken], c)
  {
    RunFour(w, Drain, Announce, Send, TakeToken);
    var x := Do(Do(w, Drain), Announce);
    assert c !in w.marked && x.loop == Serving(c) && x.sends == w.sends;
    assert Do(x, Send).loop == Serving(c) && Do(x, Send).f.token;
  }

  /** The drain before Ready protects a new connection exactly when no report is between
      its section and its send at that moment: from there some continuation ends the
      connection for a token nobody sent on its account if and only if one is. */
  lemma DrainProtectsExactlyWithoutPendingSends(steps: seq<Step>, c: nat)
    requires Run(START, steps).loop == Draining(c)
    ensures (exists more :: EndsUnreported(Run(START, steps), more, c)) <==> Run(START, steps).sends > 0
  {
    var w := Run(START, steps);
    RunHolds(steps);
    if w.sends > 0 {
      ALateSendEndsIt(w, c);
    } else if exists more :: EndsUnreported(w, more, c) {
      var more :| EndsUnreported(w, more, c);
      RunOwns(w, more, c);
    }
  }

  /** No report is between its section and its send when the loop drains the channel. */
  ghost predicate Prompt(steps: seq<Step>)
    decreases |steps|
  {
    steps == [] ||
    var before, last := steps[..|steps| - 1], steps[|steps| - 1];
    Prompt(before) && (last.Drain? && Run(START, before).loop.Draining? ==> Run(START, before).sends == 0)
  }

  lemma DrainedKept(w: World, step: Step, c: nat)
    requires Holds(w) && Drained(w, c)
    requires step.Drain? && w.loop.Draining? ==> w.sends == 0
    ensures Drained(Do(w, step), c)
  {
  }

  lemma {:induction false} PromptRunsDrain(steps: seq<Step>, c: nat)
    requires Prompt(steps)
    ensures Drained(Run(START, steps), c)
    decreases |steps|
  {
    if steps == [] {
    } else {
      var before := steps[..|steps| - 1];
      PromptRunsDrain(before, c);
      RunHolds(before);
      DrainedKept(Run(START, before), steps[|steps| - 1], c);
    }
  }

  /** So in runs where no report straddles a drain, a token only ever ends the connection
      it was reported for. */
  lemma PromptTokensEndTheReported(steps: seq<Step>, c: nat)
    requires Prompt(steps) && Run(START, steps).loop == Taken(c)
    ensures c in Run(START, steps).marked
  {
    PromptRunsDrain(steps, c);
  }

  lemma Then(steps: seq<Step>, w: World, step: Step) returns (more: seq<Step>, next: World)
    requires w == Run(START, steps)
    ensures more == steps + [step] && next == Do(w, step) == Run(START, more)
  {
    more, next := steps + [step], Do(w, step);
    assert more[..|more| - 1] == steps;
  }

  /** The loop dials once more and announces what it got. */
  lemma ServesNext(before: seq<Step>, v: World) returns (steps: seq<Step>, w: World)
    requires v == Run(START, before) && v.loop.Dialing? && !v.f.closed && !v.f.token
    ensures w == Run(START, steps)
    ensures w == v.(loop := Serving(v.dialed), dialed := v.dialed + 1, open := v.open + {v.dialed},
                    f := Setting(v.f, Ready, Some(v.dialed)))
  {
    steps, w := Then(before, v, Acquire);
    steps, w := Then(steps, w, DialOk);
    assert w == v.(loop := Draining(v.dialed), dialed := v.dialed + 1, open := v.open + {v.dialed});
    steps, w := Then(steps, w, Drain);
    assert w.loop == Announcing(v.dialed) && w.f == v.f;
    steps, w := Then(steps, w, Announce);
  }

  /** A ping fails and the connection is torn down for a redial. */
  lemma PingEnds(before: seq<Step>, v: World) returns (steps: seq<Step>, w: World)
    requires v == Run(START, before) && v.loop.Serving? && !v.f.closed && v.f.client == Some(v.loop.c)
    ensures w == Run(START, steps)
    ensures w == v.(loop := Dialing, open := v.open - {v.loop.c}, f := v.f.(state := Broken, client := None))
  {
    steps, w := Then(before, v, PingFails);
    steps, w := Then(steps, w, CloseConnection);
    assert w.loop == Clearing(v.loop.c, true) && w.f == v.f.(state := Broken);
    steps, w := Then(steps, w, Clear);
  }

  /** Connection 0 was handed out, reported and torn down on a failed ping, while the
      report has not sent its token. */
  lemma AReportIsUnderWay() returns (steps: seq<Step>, w: World)
    ensures w == Run(START, steps)
    ensures w.loop.Dialing? && w.sends == 1 && w.dialed == 1 && w.marked == {0} && !w.f.token && !w.f.closed
  {
    steps, w := ServesNext([], START);
    steps, w := Then(steps, w, HandOut);
    steps, w := Then(steps, w, Report(0));
    steps, w := PingEnds(steps, w);
  }

  /** The moment is reached: connection 0 is reported and torn down on a failed ping, and
      the late send ends connection 1, which nobody reported. */
  lemma ALateTokenEndsTheSuccessor() returns (steps: seq<Step>)
    ensures Run(START, steps).loop == Taken(1) && 1 !in Run(START, steps).marked && 1 in Run(START, steps).open
  {
    var before, w := AReportIsUnderWay();
    before, w := Then(before, w, Acquire);
    before, w := Then(before, w, DialOk);
    DrainProtectsExactlyWithoutPendingSends(before, 1);
    var more :| EndsUnreported(w, more, 1);
    steps := before + more;
    RunJoins(START, before, more);
    RunHolds(steps);
  }
}
