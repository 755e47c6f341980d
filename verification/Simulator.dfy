/** The simulator's methods on its mutable execution state, tied to the step function. */
module Simulators {
  import opened Ast
  import opened Evaluation
  import opened Hierarchy
  import opened Typechecker
  import opened ExecutionStates
  import opened Simulation
  import opened Invariants
  import opened Runs
  import opened BigStep
  import opened Traces

  /** How a call ended: normally, with the program halted, or still looping. */
  datatype Status = Finished | ProgramExit | Looping

  /** Where a simulation stands after a number of rounds. */
  datatype Ending = StillRunning | NoTransition | ManyTransitions | Unfinished

  function StatusOf(p: Progress): Status {
    match p
    case Running(_) => Finished
    case Stopped => ProgramExit
    case Diverged => Looping
  }

  lemma {:induction false} ViableOfSnoc(sn: Snapshot, event: string, ts: seq<Transition>, t: Transition)
    ensures ViableOf(sn, event, ts + [t]) == ViableOf(sn, event, ts) + (if Viable(sn, event, t) then [t] else [])
  {
    if ts == [] {
      assert [t][1..] == [];
    } else {
      assert (ts + [t])[1..] == ts[1..] + [t];
      ViableOfSnoc(sn, event, ts[1..], t);
    }
  }

  /** One state of the walk, added to what was found below it. */
  lemma WalkStep(ch: Chart, sn: Snapshot, event: string, curr: StateId, found: seq<Transition>)
    requires IsTree(ch) && IsState(ch, curr)
    ensures
      var all := found + ViableOf(sn, event, ch.states[curr].transitions);
      found + Walk(ch, sn, event, curr) == if curr == ROOT then all else all + Walk(ch, sn, event, Super(ch, curr))
  {
    var above := if curr == ROOT then [] else Walk(ch, sn, event, Super(ch, curr));
    Reassociate(found, ViableOf(sn, event, ch.states[curr].transitions), above);
  }

  lemma Reassociate(a: seq<Transition>, b: seq<Transition>, c: seq<Transition>)
    ensures a + (b + c) == a + b + c && b + [] == b
  {}

  /** The events that `n` rounds take from a queue; an empty queue gives "null". */
  function EventsSeen(queue: seq<string>, n: nat): (r: seq<string>)
    ensures |r| == n
  {
    seq(n, i requires 0 <= i < n => if i < |queue| then queue[i] else "null")
  }

  /** A simulation result as the loop reports it. */
  predicate Reports(r: StepResult, ending: Ending, curr: StateId, sn: Snapshot) {
    match r
    case Next(c, s) => ending == StillRunning && curr == c && sn == s
    case HaltNoViable => ending == NoTransition
    case HaltNonDeterminism(_) => ending == ManyTransitions
    case Diverges => ending == Unfinished
  }

  class Simulator {
    const statechart: Chart
    const eState: ExecutionState
    var validTransitions: seq<Transition>

    constructor (ch: Chart)
      requires IsTree(ch)
      ensures fresh(eState) && statechart == ch && eState.chart == ch && eState.Snap() == Initial(ch)
      ensures eState.eventQueue == ch.events
    {
      statechart := ch;
      var e := new ExecutionState(ch);
      for i := 0 to |ch.events|
        invariant fresh(e) && e.chart == ch && e.Snap() == Initial(ch) && e.eventQueue == ch.events[..i]
      {
        e.AddEvent(ch.events[i]);
        assert ch.events[..i + 1] == ch.events[..i] + [ch.events[i]];
      }
      assert ch.events[..|ch.events|] == ch.events;
      eState := e;
      validTransitions := [];
    }

    // ----- Statements -----

    method ExecuteStatement(fuel: nat, s: Statement) returns (r: Status)
      modifies eState`valueEnvironment
      ensures r == StatusOf(RunStatement(fuel, s, old(eState.Snap())))
      ensures r.Finished? ==> eState.Snap() == RunStatement(fuel, s, old(eState.Snap())).sn
      ensures r.Finished? ==> Means(s, old(eState.valueEnvironment), Done(eState.valueEnvironment))
      decreases fuel, s
    {
      ghost var before := eState.Snap();
      match s {
        case StatementList(ss) =>
          r := ExecuteStatementList(fuel, ss);
        case Assignment(_, d, rhs) =>
          eState.SetValue(d, Evaluate(rhs, eState.valueEnvironment));
          r := Finished;
        case IfStatement(c, thenBody, elseBody) =>
          var v := ConditionValue(c, eState.valueEnvironment);
          if v == Some(true) {
            r := ExecuteStatement(fuel, thenBody);
          } else if v == Some(false) {
            r := ExecuteStatement(fuel, elseBody);
          } else {
            r := Finished;
          }
        case WhileStatement(c, body) =>
          r := Finished;
          if ConditionValue(c, eState.valueEnvironment) == Some(true) {
            r := ExecuteStatement(fuel, body);
            if r.Finished? {
              if fuel == 0 {
                r := Looping;
              } else {
                r := ExecuteStatement(fuel - 1, s);
              }
            }
          }
        case ExpressionStatement(_) => r := Finished;
        case SkipStatement => r := Finished;
        case HaltStatement => r := ProgramExit;
      }
      if r.Finished? {
        RunMeans(fuel, s, before);
      }
    }

    method ExecuteStatementList(fuel: nat, ss: seq<Statement>) returns (r: Status)
      modifies eState`valueEnvironment
      ensures
        match ExecuteList(fuel, ss, old(eState.valueEnvironment))
        case Done(values) => r == Finished && eState.valueEnvironment == values
        case Halted(_) => r == ProgramExit
        case OutOfFuel => r == Looping
      decreases fuel, ss
    {
      ghost var start := eState.valueEnvironment;
      for i := 0 to |ss|
        invariant ExecuteList(fuel, ss, start) == ExecuteList(fuel, ss[i..], eState.valueEnvironment)
      {
        assert ss[i..][0] == ss[i] && ss[i..][1..] == ss[i + 1..];
        r := ExecuteStatement(fuel, ss[i]);
        if !r.Finished? {
          return;
        }
      }
      r := Finished;
    }

    // ----- Choosing -----

    /** One state of the walk: counts the viable transitions, keeps the last and lists them. */
    method CollectViable(ts: seq<Transition>, i: nat, output: Option<Transition>, event: string,
                         ghost found: seq<Transition>)
      returns (n: nat, last: Option<Transition>, ghost all: seq<Transition>)
      requires i == |found| && (i > 0 ==> validTransitions == found && output == Some(found[i - 1]))
      modifies this`validTransitions
      ensures all == found + ViableOf(eState.Snap(), event, ts)
      ensures n == |all| && (n > 0 ==> validTransitions == all && last == Some(all[n - 1]))
    {
      n, last, all := i, output, found;
      ghost var sn := eState.Snap();
      for k := 0 to |ts|
        invariant all == found + ViableOf(sn, event, ts[..k])
        invariant n == |all| && (n > 0 ==> validTransitions == all && last == Some(all[n - 1]))
      {
        var t := ts[k];
        ViableOfSnoc(sn, event, ts[..k], t);
        assert ts[..k + 1] == ts[..k] + [t];
        var present := eState.PresentInConfiguration(t.source);
        if GuardHolds(t.guard, eState.valueEnvironment) && present && t.trigger == event {
          last := Some(t);
          n := n + 1;
          if n == 1 {
            validTransitions := [];
          }
          validTransitions := validTransitions + [t];
          all := all + [t];
        }
      }
      assert ts[..|ts|] == ts;
    }

    /** The upward walk, as a recursion that carries the number found and the last one. */
    method GetValidTransition(curr: StateId, fix: StateId, i: nat, output: Option<Transition>, event: string,
                              ghost found: seq<Transition>)
      returns (sel: Selection)
      requires IsTree(statechart) && IsState(statechart, curr) && IsState(statechart, fix)
      requires i == |found| && (i > 0 ==> validTransitions == found && output == Some(found[i - 1]))
      requires found + Walk(statechart, eState.Snap(), event, curr) == Walk(statechart, eState.Snap(), event, fix)
      modifies this`validTransitions
      ensures sel == Select(statechart, eState.Snap(), fix, event)
      ensures Typechecked(statechart) && eState.configuration == Path(statechart, fix) ==>
        Settles(statechart, eState.Snap(), event, sel)
      decreases event != "null", curr, 1
    {
      if Typechecked(statechart) && eState.configuration == Path(statechart, fix) {
        SelectSettles(statechart, eState.Snap(), fix, event);
      }
      WalkStep(statechart, eState.Snap(), event, curr, found);
      var n, last, all := CollectViable(statechart.states[curr].transitions, i, output, event, found);
      if curr != ROOT {
        sel := GetValidTransition(Super(statechart, curr), fix, n, last, event, all);
      } else {
        sel := Conclude(fix, n, last, event, all);
      }
    }

    /** The end of the walk at the statechart: retry with "null", or report, or return the one. */
    method Conclude(fix: StateId, n: nat, last: Option<Transition>, event: string, ghost found: seq<Transition>)
      returns (sel: Selection)
      requires IsTree(statechart) && IsState(statechart, fix)
      requires n == |found| && (n > 0 ==> validTransitions == found && last == Some(found[n - 1]))
      requires found == Walk(statechart, eState.Snap(), event, fix)
      modifies this`validTransitions
      ensures sel == Select(statechart, eState.Snap(), fix, event)
      decreases event != "null", 0, 0
    {
      if n == 0 {
        if event == "null" {
          sel := NoViable;
        } else {
          sel := GetValidTransition(fix, fix, n, last, "null", []);
        }
      } else if n > 1 {
        sel := NonDeterminism(validTransitions);
      } else {
        sel := Take(last.value);
      }
    }

    // ----- Performing -----

    ghost predicate Ready()
      reads eState
    {
      && Typechecked(statechart) && eState.chart == statechart
      && StaticsReady(statechart, eState.Snap()) && HistoryValid(statechart, eState.Snap())
    }

    /** Entering and running the entry statement; no entry dereferences null. */
    method EnterAndRun(fuel: nat, s: StateId) returns (r: Status)
      requires Ready() && IsState(statechart, s)
      modifies eState
      ensures Ready() && eState.eventQueue == old(eState.eventQueue)
      ensures
        var p := RunStatement(fuel, statechart.states[s].entry, Enter(statechart, old(eState.Snap()), s));
        r == StatusOf(p) && (p.Running? ==> eState.Snap() == p.sn)
    {
      var thrown := eState.EnterState(s);
      r := ExecuteStatement(fuel, statechart.states[s].entry);
    }

    method RunAndExit(fuel: nat, s: StateId) returns (r: Status)
      requires Ready() && IsState(statechart, s)
      modifies eState
      ensures Ready() && eState.eventQueue == old(eState.eventQueue)
      ensures
        var p := RunStatement(fuel, statechart.states[s].exit, old(eState.Snap()));
        r == StatusOf(p) && (p.Running? ==> eState.Snap() == Exit(statechart, p.sn, s))
    {
      r := ExecuteStatement(fuel, statechart.states[s].exit);
      if r.Finished? {
        NamesDistinct(statechart, s);
        if s != ROOT { assert IsChild(statechart, Super(statechart, s), s); }
        eState.ExitState(s);
      }
    }

    /** Bubbles up to the LUB. */
    method BubbleUp(fuel: nat, curr: StateId, lub: StateId) returns (r: Status)
      requires Ready() && IsState(statechart, curr) && lub in Path(statechart, curr)
      modifies eState
      ensures Ready() && eState.eventQueue == old(eState.eventQueue)
      ensures
        var p := ExitUp(statechart, fuel, old(eState.Snap()), curr, lub);
        r == StatusOf(p) && (p.Running? ==> eState.Snap() == p.sn)
    {
      var current := curr;
      PathOfRoot(statechart);
      while current != lub
        invariant Ready() && eState.eventQueue == old(eState.eventQueue)
        invariant IsState(statechart, current) && lub in Path(statechart, current)
        invariant ExitUp(statechart, fuel, old(eState.Snap()), curr, lub)
               == ExitUp(statechart, fuel, eState.Snap(), current, lub)
        decreases current
      {
        PathOfSub(statechart, current);
        r := RunAndExit(fuel, current);
        if !r.Finished? {
          return;
        }
        current := Super(statechart, current);
      }
      r := Finished;
    }

    /** Bubbles down to the destination: the path is collected upwards and entered backwards. */
    method BubbleDown(fuel: nat, destination: StateId, lub: StateId) returns (r: Status)
      requires Ready() && IsState(statechart, destination) && lub in Path(statechart, destination)
      modifies eState
      ensures Ready() && eState.eventQueue == old(eState.eventQueue)
      ensures
        var p := EnterDown(statechart, fuel, old(eState.Snap()), Below(statechart, lub, destination));
        r == StatusOf(p) && (p.Running? ==> eState.Snap() == p.sn)
    {
      ghost var down := Below(statechart, lub, destination);
      var path := CollectPath(destination, lub);
      r := EnterBackwards(fuel, path, down);
    }

    method EnterBackwards(fuel: nat, path: seq<StateId>, ghost down: seq<StateId>) returns (r: Status)
      requires Ready() && AllStates(statechart, down) && down == Backwards(path)
      modifies eState
      ensures Ready() && eState.eventQueue == old(eState.eventQueue)
      ensures
        var p := EnterDown(statechart, fuel, old(eState.Snap()), down);
        r == StatusOf(p) && (p.Running? ==> eState.Snap() == p.sn)
    {
      var i := |path| - 1;
      assert path[..|path|] == path;
      while i != -1
        invariant -1 <= i < |path| && AllStates(statechart, Backwards(path[..i + 1]))
        invariant Ready() && eState.eventQueue == old(eState.eventQueue)
        invariant EnterDown(statechart, fuel, old(eState.Snap()), down)
               == EnterDown(statechart, fuel, eState.Snap(), Backwards(path[..i + 1]))
        decreases i
      {
        EnterDownNext(statechart, fuel, eState.Snap(), path, i);
        r := EnterAndRun(fuel, path[i]);
        if !r.Finished? {
          return;
        }
        i := i - 1;
      }
      r := Finished;
    }

    method CollectPath(destination: StateId, lub: StateId) returns (path: seq<StateId>)
      requires IsTree(statechart) && IsState(statechart, destination) && lub in Path(statechart, destination)
      ensures Backwards(path) == Below(statechart, lub, destination)
    {
      path := [];
      var current := destination;
      PathOfRoot(statechart);
      ghost var down := Below(statechart, lub, destination);
      while current != lub
        invariant Collecting(statechart, lub, current, down, path)
        decreases current
      {
        CollectNext(statechart, lub, current, down, path);
        path := path + [current];
        current := Super(statechart, current);
      }
    }

    /** The action, recorded in the log. */
    method ExecuteAction(fuel: nat, t: Transition) returns (r: Status)
      requires Ready()
      modifies eState
      ensures Ready() && eState.eventQueue == old(eState.eventQueue)
      ensures
        var sn := old(eState.Snap());
        var p := RunStatement(fuel, t.action, sn.(log := sn.log + [Acted(t)]));
        r == StatusOf(p) && (p.Running? ==> eState.Snap() == p.sn)
    {
      eState.log := eState.log + [Acted(t)];
      r := ExecuteStatement(fuel, t.action);
    }

    method PerformTransition(fuel: nat, t: Transition, curr: StateId) returns (r: Status)
      requires Ready() && IsState(statechart, curr) && HasEnds(statechart, t) && PlacedAtLub(statechart, t)
      requires t.placement in Path(statechart, curr)
      modifies eState
      ensures Ready() && eState.eventQueue == old(eState.eventQueue)
      ensures
        var p := Perform(statechart, fuel, old(eState.Snap()), curr, t);
        r == StatusOf(p) && (p.Running? ==> eState.Snap() == p.sn)
      ensures r.Finished? && Traced(statechart, old(eState.Snap())) ==> Traced(statechart, eState.Snap())
    {
      ghost var before := eState.Snap();
      if Traced(statechart, before) {
        PerformTraced(statechart, fuel, before, curr, t);
      }
      var lub := ComputeLub(statechart, t.source, t.destination);
      LubIsDeepest(statechart, t.source, t.destination);
      r := BubbleUp(fuel, curr, lub.value);
      if r.Finished? {
        r := ExecuteAction(fuel, t);
        if r.Finished? {
          r := BubbleDown(fuel, t.destination, lub.value);
        }
      }
    }

    method GetAtomicState(fuel: nat, state: StateId, tag: int) returns (r: Status, atomic: StateId)
      requires Ready() && IsState(statechart, state)
      modifies eState
      ensures Ready() && eState.eventQueue == old(eState.eventQueue)
      ensures
        var l := AtomicState(statechart, fuel, old(eState.Snap()), state, tag);
        match l
        case Landed(c, sn) => r == Finished && atomic == c && eState.Snap() == sn
        case NotLanded(p) => r == StatusOf(p) && !r.Finished?
      ensures r.Finished? && Traced(statechart, old(eState.Snap())) ==> Traced(statechart, eState.Snap())
      decreases |statechart.states| - state
    {
      ghost var before := eState.Snap();
      if Traced(statechart, before) {
        AtomicTraced(statechart, fuel, before, state, tag);
      }
      atomic := state;
      r := Finished;
      if tag == 1 {
        r := EnterAndRun(fuel, state);
        if !r.Finished? {
          return;
        }
      }
      if statechart.states[state].states != [] {
        var next := statechart.states[state].states[0];
        if statechart.states[state].history {
          next := eState.GetHistoryState(state);
        }
        assert next == NextSubstate(statechart, eState.Snap(), state);
        r, atomic := GetAtomicState(fuel, next, 1);
      }
    }

    // ----- The simulation loop -----

    /** One round of the loop. */
    method Round(fuel: nat, curr: StateId, event: string) returns (ending: Ending, next: StateId)
      requires Typechecked(statechart) && eState.chart == statechart && Stable(statechart, eState.Snap(), curr)
      modifies this`validTransitions, eState
      ensures eState.eventQueue == old(eState.eventQueue)
      ensures Reports(Step(statechart, fuel, curr, old(eState.Snap()), event), ending, next, eState.Snap())
    {
      next := curr;
      HistoryIsValid(statechart, eState.Snap());
      var sel := GetValidTransition(curr, curr, 0, None, event, []);
      match sel
      case NoViable => ending := NoTransition;
      case NonDeterminism(_) => ending := ManyTransitions;
      case Take(t) => ending, next := TakeSelected(fuel, curr, event, t);
    }

    /** Performs the selected transition and descends from its destination. */
    method TakeSelected(fuel: nat, curr: StateId, ghost event: string, t: Transition)
      returns (ending: Ending, next: StateId)
      requires Typechecked(statechart) && eState.chart == statechart && Stable(statechart, eState.Snap(), curr)
      requires Select(statechart, eState.Snap(), curr, event) == Take(t)
      modifies eState
      ensures eState.eventQueue == old(eState.eventQueue)
      ensures Reports(Step(statechart, fuel, curr, old(eState.Snap()), event), ending, next, eState.Snap())
    {
      ghost var sn := eState.Snap();
      StepTakes(statechart, fuel, curr, sn, event, t);
      ending, next := Unfinished, curr;
      var r := PerformTransition(fuel, t, curr);
      if r.Finished? {
        r, next := GetAtomicState(fuel, t.destination, 0);
        if r.Finished? {
          ending := StillRunning;
        }
      }
    }

    /** Enters the statechart down to its first atomic state. */
    method Begin(fuel: nat) returns (r: (Status, StateId))
      requires Typechecked(statechart) && StaticsPopulated(statechart)
      requires eState.chart == statechart && eState.Snap() == Initial(statechart)
      modifies eState
      ensures eState.eventQueue == old(eState.eventQueue)
      ensures
        var start := Start(statechart, fuel);
        if start.Next? then r == (Finished, start.curr) && eState.Snap() == start.sn
        else !r.0.Finished? && start.Diverges?
    {
      InitialInv(statechart);
      var status, atomic := GetAtomicState(fuel, ROOT, 1);
      r := (status, atomic);
    }

    /** The body of the main loop: the next event and its round. */
    method LoopBody(fuel: nat, curr: StateId, ghost events: seq<string>, ghost left: nat)
      returns (ending: Ending, next: StateId)
      requires Typechecked(statechart) && eState.chart == statechart && Stable(statechart, eState.Snap(), curr)
      requires left > 0 && events == EventsSeen(eState.eventQueue, left)
      modifies this`validTransitions, eState
      ensures events[1..] == EventsSeen(eState.eventQueue, left - 1)
      ensures Reports(Step(statechart, fuel, curr, old(eState.Snap()), events[0]), ending, next, eState.Snap())
      ensures ending.StillRunning? ==> Stable(statechart, eState.Snap(), next)
    {
      ghost var queue := eState.eventQueue;
      var event := eState.GetEvent();
      TakeEvent(queue, eState.eventQueue, event, left);
      ending, next := Round(fuel, curr, event);
    }

    /** Up to `rounds` rounds of the main loop on the events in the queue. */
    method MainLoop(fuel: nat, rounds: nat, start: StateId) returns (ending: Ending, curr: StateId)
      requires Typechecked(statechart) && eState.chart == statechart && Stable(statechart, eState.Snap(), start)
      modifies this`validTransitions, eState
      ensures Reports(Run(statechart, fuel, start, old(eState.Snap()), EventsSeen(old(eState.eventQueue), rounds)),
                      ending, curr, eState.Snap())
    {
      curr := start;
      ghost var left: nat := rounds;
      ghost var events := EventsSeen(eState.eventQueue, left);
      ghost var goal := Run(statechart, fuel, curr, eState.Snap(), events);
      var counter := 0;
      while counter < rounds
        invariant counter <= rounds && left == rounds - counter
        invariant events == EventsSeen(eState.eventQueue, left)
        invariant Stable(statechart, eState.Snap(), curr)
        invariant goal == Run(statechart, fuel, curr, eState.Snap(), events)
      {
        RunCons(statechart, fuel, curr, eState.Snap(), events);
        ending, curr := LoopBody(fuel, curr, events, left);
        if !ending.StillRunning? {
          return;
        }
        events, left := events[1..], left - 1;
        counter := counter + 1;
      }
      ending := StillRunning;
    }

    /** The whole simulation, cut after `rounds` rounds: exactly the run. */
    method Simulate(fuel: nat, rounds: nat) returns (ending: Ending, curr: StateId)
      requires Typechecked(statechart) && StaticsPopulated(statechart)
      requires eState.chart == statechart && eState.Snap() == Initial(statechart)
      modifies this`validTransitions, eState
      ensures
        var start := Start(statechart, fuel);
        var events := EventsSeen(old(eState.eventQueue), rounds);
        Reports(if start.Next? then Run(statechart, fuel, start.curr, start.sn, events) else start,
                ending, curr, eState.Snap())
      ensures ending.StillRunning? ==> Leaves(statechart, eState.log, eState.valueEnvironment)
    {
      StartTraced(statechart, fuel);
      ghost var seen, first := EventsSeen(eState.eventQueue, rounds), Start(statechart, fuel);
      if first.Next? {
        RunTraced(statechart, fuel, first.curr, first.sn, seen);
      }
      var start := Begin(fuel);
      if start.0.Finished? {
        ending, curr := MainLoop(fuel, rounds, start.1);
      } else {
        ending, curr := Unfinished, ROOT;
      }
    }
  }

  lemma TakeEvent(queue: seq<string>, queue': seq<string>, event: string, n: nat)
    requires n > 0
    requires if queue == [] then event == "null" && queue' == [] else [event] + queue' == queue
    ensures EventsSeen(queue, n)[0] == event && EventsSeen(queue, n)[1..] == EventsSeen(queue', n - 1)
  {
    assert queue != [] ==> forall i | 0 <= i < |queue'| :: queue'[i] == queue[i + 1];
    assert EventsSeen(queue, n)[1..] == EventsSeen(queue', n - 1);
  }

  lemma RunCons(ch: Chart, fuel: nat, curr: StateId, sn: Snapshot, events: seq<string>)
    requires Typechecked(ch) && Stable(ch, sn, curr) && events != []
    ensures
      var r := Step(ch, fuel, curr, sn, events[0]);
      Run(ch, fuel, curr, sn, events) == if r.Next? then Run(ch, fuel, r.curr, r.sn, events[1..]) else r
  {}

  lemma BackwardsNext(path: seq<StateId>, i: nat)
    requires i < |path|
    ensures Backwards(path[..i + 1])[0] == path[i] && Backwards(path[..i + 1])[1..] == Backwards(path[..i])
  {}

  lemma EnterDownNext(ch: Chart, fuel: nat, sn: Snapshot, path: seq<StateId>, i: nat)
    requires i < |path| && AllStates(ch, Backwards(path[..i + 1]))
    ensures IsState(ch, path[i]) && AllStates(ch, Backwards(path[..i]))
    ensures
      var p := RunStatement(fuel, ch.states[path[i]].entry, Enter(ch, sn, path[i]));
      EnterDown(ch, fuel, sn, Backwards(path[..i + 1]))
        == if p.Running? then EnterDown(ch, fuel, p.sn, Backwards(path[..i])) else p
  {
    BackwardsNext(path, i);
  }

  /** What is collected so far, read backwards, completes the way down. */
  ghost predicate Collecting(ch: Chart, lub: StateId, current: StateId, down: seq<StateId>, path: seq<StateId>)
    requires IsTree(ch)
  {
    IsState(ch, current) && lub in Path(ch, current) && down == Below(ch, lub, current) + Backwards(path)
  }

  lemma CollectNext(ch: Chart, lub: StateId, current: StateId, down: seq<StateId>, path: seq<StateId>)
    requires IsTree(ch) && current != lub && Collecting(ch, lub, current, down, path)
    ensures current != ROOT && Collecting(ch, lub, Super(ch, current), down, path + [current])
  {
    PathOfRoot(ch);
    BelowSnoc(ch, current, lub);
    BackwardsSnoc(Below(ch, lub, Super(ch, current)), path, current);
  }

  lemma BackwardsSnoc(above: seq<StateId>, path: seq<StateId>, s: StateId)
    ensures above + [s] + Backwards(path) == above + Backwards(path + [s])
  {
    assert Backwards(path + [s]) == [s] + Backwards(path);
  }
}
