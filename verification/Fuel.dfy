/** The bound on loop rounds only cuts: whatever ends within it is the same for every larger bound. */
module Fuel {
  import opened Ast
  import opened Evaluation
  import opened Hierarchy
  import opened Typechecker
  import opened ExecutionStates
  import opened Simulation
  import opened Invariants
  import opened Runs

  lemma StatementFuel(fuel: nat, fuel': nat, s: Statement, sn: Snapshot)
    requires fuel <= fuel' && !RunStatement(fuel, s, sn).Diverged?
    ensures RunStatement(fuel', s, sn) == RunStatement(fuel, s, sn)
  {
    FuelIrrelevant(fuel, fuel', s, sn.values);
  }

  lemma {:induction false} ExitUpFuel(ch: Chart, fuel: nat, fuel': nat, sn: Snapshot, current: StateId, lub: StateId)
    requires IsTree(ch) && IsState(ch, current) && lub in Path(ch, current)
    requires fuel <= fuel' && !ExitUp(ch, fuel, sn, current, lub).Diverged?
    ensures ExitUp(ch, fuel', sn, current, lub) == ExitUp(ch, fuel, sn, current, lub)
    decreases current
  {
    if current != lub {
      PathOfRoot(ch);
      StatementFuel(fuel, fuel', ch.states[current].exit, sn);
      var p := RunStatement(fuel, ch.states[current].exit, sn);
      if p.Running? { ExitUpFuel(ch, fuel, fuel', Exit(ch, p.sn, current), Super(ch, current), lub); }
    }
  }

  lemma {:induction false} EnterDownFuel(ch: Chart, fuel: nat, fuel': nat, sn: Snapshot, path: seq<StateId>)
    requires AllStates(ch, path)
    requires fuel <= fuel' && !EnterDown(ch, fuel, sn, path).Diverged?
    ensures EnterDown(ch, fuel', sn, path) == EnterDown(ch, fuel, sn, path)
    decreases |path|
  {
    if path != [] {
      var s, entered := path[0], Enter(ch, sn, path[0]);
      StatementFuel(fuel, fuel', ch.states[s].entry, entered);
      var p := RunStatement(fuel, ch.states[s].entry, entered);
      if p.Running? { EnterDownFuel(ch, fuel, fuel', p.sn, path[1..]); }
    }
  }

  predicate Cut(l: Landing) { l.NotLanded? && l.p.Diverged? }

  lemma {:induction false} DescendFuel(ch: Chart, fuel: nat, fuel': nat, sn: Snapshot, s: StateId)
    requires IsTree(ch) && IsState(ch, s) && HistoryValid(ch, sn)
    requires fuel <= fuel' && !Cut(Descend(ch, fuel, sn, s))
    ensures Descend(ch, fuel', sn, s) == Descend(ch, fuel, sn, s)
    decreases |ch.states| - s
  {
    if ch.states[s].states != [] {
      var c := NextSubstate(ch, sn, s);
      var entered := Enter(ch, sn, c);
      StatementFuel(fuel, fuel', ch.states[c].entry, entered);
      var p := RunStatement(fuel, ch.states[c].entry, entered);
      if p.Running? { DescendFuel(ch, fuel, fuel', p.sn, c); }
    }
  }

  lemma AtomicStateFuel(ch: Chart, fuel: nat, fuel': nat, sn: Snapshot, s: StateId, tag: int)
    requires IsTree(ch) && IsState(ch, s) && HistoryValid(ch, sn)
    requires fuel <= fuel' && !Cut(AtomicState(ch, fuel, sn, s, tag))
    ensures AtomicState(ch, fuel', sn, s, tag) == AtomicState(ch, fuel, sn, s, tag)
  {
    if tag == 1 {
      var entered := Enter(ch, sn, s);
      StatementFuel(fuel, fuel', ch.states[s].entry, entered);
      var p := RunStatement(fuel, ch.states[s].entry, entered);
      if p.Running? { DescendFuel(ch, fuel, fuel', p.sn, s); }
    } else {
      DescendFuel(ch, fuel, fuel', sn, s);
    }
  }

  lemma PerformFuel(ch: Chart, fuel: nat, fuel': nat, sn: Snapshot, curr: StateId, t: Transition)
    requires IsTree(ch) && IsState(ch, curr) && HasEnds(ch, t) && PlacedAtLub(ch, t) && t.placement in Path(ch, curr)
    requires fuel <= fuel' && !Perform(ch, fuel, sn, curr, t).Diverged?
    ensures Perform(ch, fuel', sn, curr, t) == Perform(ch, fuel, sn, curr, t)
  {
    LubIsDeepest(ch, t.source, t.destination);
    ExitUpFuel(ch, fuel, fuel', sn, curr, t.placement);
    var up := ExitUp(ch, fuel, sn, curr, t.placement);
    if up.Running? {
      var acting := up.sn.(log := up.sn.log + [Acted(t)]);
      StatementFuel(fuel, fuel', t.action, acting);
      var acted := RunStatement(fuel, t.action, acting);
      if acted.Running? { EnterDownFuel(ch, fuel, fuel', acted.sn, Below(ch, t.placement, t.destination)); }
    }
  }

  /** A round that ends or halts does so for every larger bound, in the same state. */
  lemma StepFuel(ch: Chart, fuel: nat, fuel': nat, curr: StateId, sn: Snapshot, event: string)
    requires Typechecked(ch) && Stable(ch, sn, curr)
    requires fuel <= fuel' && !Step(ch, fuel, curr, sn, event).Diverges?
    ensures Step(ch, fuel', curr, sn, event) == Step(ch, fuel, curr, sn, event)
  {
    var s := Select(ch, sn, curr, event);
    if s.Take? {
      SelectedFits(ch, sn, curr, event);
      PerformInv(ch, fuel, sn, curr, s.t);
      var p := Perform(ch, fuel, sn, curr, s.t);
      if p.Running? {
        PerformFuel(ch, fuel, fuel', sn, curr, s.t);
        HistoryIsValid(ch, p.sn);
        AtomicStateFuel(ch, fuel, fuel', p.sn, s.t.destination, 0);
      }
    }
  }

  lemma {:induction false} RunFuel(ch: Chart, fuel: nat, fuel': nat, curr: StateId, sn: Snapshot, events: seq<string>)
    requires Typechecked(ch) && Stable(ch, sn, curr)
    requires fuel <= fuel' && !Run(ch, fuel, curr, sn, events).Diverges?
    ensures Run(ch, fuel', curr, sn, events) == Run(ch, fuel, curr, sn, events)
    decreases |events|
  {
    if events != [] {
      StepFuel(ch, fuel, fuel', curr, sn, events[0]);
      var r := Step(ch, fuel, curr, sn, events[0]);
      if r.Next? { RunFuel(ch, fuel, fuel', r.curr, r.sn, events[1..]); }
    }
  }

  lemma StartFuel(ch: Chart, fuel: nat, fuel': nat)
    requires Typechecked(ch) && StaticsPopulated(ch)
    requires fuel <= fuel' && Start(ch, fuel).Next?
    ensures Start(ch, fuel') == Start(ch, fuel)
  {
    InitialInv(ch);
    AtomicStateFuel(ch, fuel, fuel', Initial(ch), ROOT, 1);
  }

  /** What a simulation reaches it reaches for every larger bound: the bound hides nothing. */
  lemma ReachedFuel(ch: Chart, fuel: nat, fuel': nat, events: seq<string>, curr: StateId, sn: Snapshot)
    requires Typechecked(ch) && StaticsPopulated(ch)
    requires fuel <= fuel' && ReachedBy(ch, fuel, events, curr, sn)
    ensures ReachedBy(ch, fuel', events, curr, sn)
  {
    StartFuel(ch, fuel, fuel');
    var s := Start(ch, fuel);
    RunFuel(ch, fuel, fuel', s.curr, s.sn, events);
  }
}
