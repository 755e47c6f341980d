/** When entering a state dereferences null: the exact condition, at every point of a simulation. */
module Entries {
  import opened Ast
  import opened Hierarchy
  import opened Typechecker
  import opened ExecutionStates
  import opened Simulation
  import opened Invariants
  import opened Runs

  /** The phases that steps are made of.  Entering a single state is a phase too, so every entry of a
      simulation comes right after some phases. */
  datatype Phase =
    | Leaving(current: StateId, lub: StateId)
    | Acting(t: Transition)
    | Entering(path: seq<StateId>)
    | Landing(s: StateId)

  ghost predicate CanRun(ch: Chart, sn: Snapshot, phase: Phase)
    requires IsTree(ch)
  {
    match phase
    case Leaving(current, lub) => IsState(ch, current) && lub in Path(ch, current)
    case Acting(_) => true
    case Entering(path) => AllStates(ch, path)
    case Landing(s) => IsState(ch, s) && HistoryValid(ch, sn)
  }

  ghost predicate PhaseEnds(ch: Chart, fuel: nat, sn: Snapshot, phase: Phase, sn': Snapshot)
    requires IsTree(ch) && CanRun(ch, sn, phase)
  {
    match phase
    case Leaving(current, lub) => ExitUp(ch, fuel, sn, current, lub) == Running(sn')
    case Acting(t) => RunStatement(fuel, t.action, sn.(log := sn.log + [Acted(t)])) == Running(sn')
    case Entering(path) => EnterDown(ch, fuel, sn, path) == Running(sn')
    case Landing(s) =>
      var l := Descend(ch, fuel, sn, s);
      l.Landed? && l.sn == sn'
  }

  /** The phases lead from the populated state to `sn`. */
  ghost predicate ReachedThrough(ch: Chart, fuel: nat, phases: seq<Phase>, sn: Snapshot)
    requires IsTree(ch)
    decreases |phases|, 1
  {
    if phases == [] then sn == Initial(ch)
    else exists before :: LastPhase(ch, fuel, phases, before, sn)
  }

  ghost predicate LastPhase(ch: Chart, fuel: nat, phases: seq<Phase>, before: Snapshot, sn: Snapshot)
    requires IsTree(ch) && phases != []
    decreases |phases|, 0
  {
    var n := |phases| - 1;
    && ReachedThrough(ch, fuel, phases[..n], before)
    && CanRun(ch, before, phases[n]) && PhaseEnds(ch, fuel, before, phases[n], sn)
  }

  /** A state with static variables is known once it is populated or was exited. */
  ghost predicate KnownExactly(ch: Chart, sn: Snapshot)
    requires IsTree(ch)
  {
    forall s: StateId | IsState(ch, s) && HasStatic(ch.states[s].declarations) ::
      s in sn.valueHistory <==> IsPopulated(ch, s) || LastExit(sn.log, s).Some?
  }

  lemma LastExitSnoc(log: seq<Event>, e: Event, s: StateId)
    ensures LastExit(log + [e], s) == if e.Exited? && e.s == s then Some(e.values) else LastExit(log, s)
  {
    assert (log + [e])[..|log|] == log;
  }

  /** Events other than exits change nothing about it. */
  lemma OtherKnown(ch: Chart, sn: Snapshot, e: Event, sn': Snapshot)
    requires IsTree(ch) && KnownExactly(ch, sn) && !e.Exited?
    requires sn'.log == sn.log + [e] && sn'.valueHistory == sn.valueHistory
    ensures KnownExactly(ch, sn')
  {
    forall s ensures LastExit(sn'.log, s) == LastExit(sn.log, s) { LastExitSnoc(sn.log, e, s); }
  }

  lemma EnterKnown(ch: Chart, sn: Snapshot, s: StateId)
    requires IsTree(ch) && IsState(ch, s) && KnownExactly(ch, sn)
    ensures KnownExactly(ch, Enter(ch, sn, s))
  {
    var sn' := Enter(ch, sn, s);
    OtherKnown(ch, sn, Entered(s, sn'.values), sn');
  }

  lemma ExitKnown(ch: Chart, sn: Snapshot, s: StateId)
    requires IsTree(ch) && IsState(ch, s) && KnownExactly(ch, sn)
    ensures KnownExactly(ch, Exit(ch, sn, s))
  {
    var sn' := Exit(ch, sn, s);
    forall x: StateId | IsState(ch, x) && HasStatic(ch.states[x].declarations)
      ensures x in sn'.valueHistory <==> IsPopulated(ch, x) || LastExit(sn'.log, x).Some?
    {
      LastExitSnoc(sn.log, Exited(s, sn.values), x);
    }
  }

  lemma {:induction false} ExitUpKnown(ch: Chart, fuel: nat, sn: Snapshot, current: StateId, lub: StateId)
    requires IsTree(ch) && IsState(ch, current) && lub in Path(ch, current) && KnownExactly(ch, sn)
    ensures
      var p := ExitUp(ch, fuel, sn, current, lub);
      p.Running? ==> KnownExactly(ch, p.sn)
    decreases current
  {
    if current != lub {
      PathOfRoot(ch);
      var p := RunStatement(fuel, ch.states[current].exit, sn);
      if p.Running? {
        ExitKnown(ch, p.sn, current);
        ExitUpKnown(ch, fuel, Exit(ch, p.sn, current), Super(ch, current), lub);
      }
    }
  }

  lemma {:induction false} EnterDownKnown(ch: Chart, fuel: nat, sn: Snapshot, path: seq<StateId>)
    requires IsTree(ch) && AllStates(ch, path) && KnownExactly(ch, sn)
    ensures
      var p := EnterDown(ch, fuel, sn, path);
      p.Running? ==> KnownExactly(ch, p.sn)
    decreases |path|
  {
    if path != [] {
      EnterKnown(ch, sn, path[0]);
      var p := RunStatement(fuel, ch.states[path[0]].entry, Enter(ch, sn, path[0]));
      if p.Running? { EnterDownKnown(ch, fuel, p.sn, path[1..]); }
    }
  }

  lemma {:induction false} DescendKnown(ch: Chart, fuel: nat, sn: Snapshot, s: StateId)
    requires IsTree(ch) && IsState(ch, s) && HistoryValid(ch, sn) && KnownExactly(ch, sn)
    ensures
      var l := Descend(ch, fuel, sn, s);
      l.Landed? ==> KnownExactly(ch, l.sn)
    decreases |ch.states| - s
  {
    if ch.states[s].states != [] {
      var c := NextSubstate(ch, sn, s);
      EnterKnown(ch, sn, c);
      var p := RunStatement(fuel, ch.states[c].entry, Enter(ch, sn, c));
      if p.Running? { DescendKnown(ch, fuel, p.sn, c); }
    }
  }

  lemma ActKnown(ch: Chart, fuel: nat, sn: Snapshot, t: Transition)
    requires IsTree(ch) && KnownExactly(ch, sn)
    ensures
      var p := RunStatement(fuel, t.action, sn.(log := sn.log + [Acted(t)]));
      p.Running? ==> KnownExactly(ch, p.sn)
  {
    var p := RunStatement(fuel, t.action, sn.(log := sn.log + [Acted(t)]));
    if p.Running? { OtherKnown(ch, sn, Acted(t), p.sn); }
  }

  lemma PhaseKnown(ch: Chart, fuel: nat, sn: Snapshot, phase: Phase, sn': Snapshot)
    requires IsTree(ch) && CanRun(ch, sn, phase) && PhaseEnds(ch, fuel, sn, phase, sn') && KnownExactly(ch, sn)
    ensures KnownExactly(ch, sn')
  {
    match phase
    case Leaving(current, lub) => ExitUpKnown(ch, fuel, sn, current, lub);
    case Acting(t) => ActKnown(ch, fuel, sn, t);
    case Entering(path) => EnterDownKnown(ch, fuel, sn, path);
    case Landing(s) => DescendKnown(ch, fuel, sn, s);
  }

  lemma InitialKnown(ch: Chart)
    requires WellLinked(ch)
    ensures KnownExactly(ch, Initial(ch))
  {
    InitialBlank(ch);
    InitialKnows(ch);
  }

  lemma {:induction false} ReachedKnown(ch: Chart, fuel: nat, phases: seq<Phase>, sn: Snapshot)
    requires WellLinked(ch) && ReachedThrough(ch, fuel, phases, sn)
    ensures KnownExactly(ch, sn)
  {
    if phases == [] {
      InitialKnown(ch);
    } else {
      var n := |phases| - 1;
      var before :| LastPhase(ch, fuel, phases, before, sn);
      ReachedKnown(ch, fuel, phases[..n], before);
      PhaseKnown(ch, fuel, before, phases[n], sn);
    }
  }

  /** Whatever phases came before, an entry dereferences null exactly when the state has a static
      variable, lies deeper than the direct substates of the statechart, and was never exited. */
  lemma EnterThrowsExactly(ch: Chart, fuel: nat, phases: seq<Phase>, sn: Snapshot, s: StateId)
    requires WellLinked(ch) && ReachedThrough(ch, fuel, phases, sn) && IsState(ch, s)
    ensures EnterThrows(ch, sn, s) <==>
      HasStatic(ch.states[s].declarations) && !IsPopulated(ch, s) && LastExit(sn.log, s).None?
  {
    ReachedKnown(ch, fuel, phases, sn);
  }
}
