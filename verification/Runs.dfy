/** Steps and whole runs of the simulator: they keep the invariants, choose the right transition and
    exit, act and enter in order. */
module Runs {
  import opened Ast
  import opened Environments
  import opened Evaluation
  import opened Hierarchy
  import opened Typechecker
  import opened ExecutionStates
  import opened Simulation
  import opened Invariants

  // ----- The order of events -----

  datatype Mark = In(s: StateId) | Out(s: StateId) | Act(t: Transition)

  function MarkOf(e: Event): Mark {
    match e
    case Entered(s, _) => In(s)
    case Exited(s, _) => Out(s)
    case Acted(t) => Act(t)
  }

  function Marks(log: seq<Event>): seq<Mark> {
    seq(|log|, i requires 0 <= i < |log| => MarkOf(log[i]))
  }

  lemma MarksSnoc(log: seq<Event>, e: Event)
    ensures Marks(log + [e]) == Marks(log) + [MarkOf(e)]
  {}

  function Ins(path: seq<StateId>): seq<Mark> {
    seq(|path|, i requires 0 <= i < |path| => In(path[i]))
  }

  /** Exits of a path, innermost first. */
  function Outs(path: seq<StateId>): seq<Mark> {
    seq(|path|, i requires 0 <= i < |path| => Out(path[|path| - 1 - i]))
  }

  // ----- What statements of a state or transition may write -----

  lemma StateWrites(ch: Chart, s: StateId)
    requires WellLinked(ch) && IsState(ch, s)
    ensures forall d | Declares(EnvironmentOf(ch, s), d) :: Declared(ch, d) && d.owner in Path(ch, s)
  {
    forall d | Declares(EnvironmentOf(ch, s), d) ensures Declared(ch, d) && d.owner in Path(ch, s) {
      EnvironmentDeclares(ch, s, d);
    }
  }

  /** An action writes no local of its destination, only of states above it. */
  lemma ActionWrites(ch: Chart, t: Transition)
    requires WellLinked(ch) && HasEnds(ch, t) && PlacedAtLub(ch, t)
    ensures forall d | Declares(WriteEnvironment(ch, t), d) ::
      Declared(ch, d) && (d.scope.Local? ==> d.owner in Supers(ch, t.destination))
  {
    WriteEnvironmentIs(ch, t);
    StateWrites(ch, Super(ch, t.destination));
  }

  lemma EntryInv(ch: Chart, fuel: nat, sn: Snapshot, s: StateId, conf: seq<StateId>, ahead: seq<StateId>)
    requires Typechecked(ch) && IsState(ch, s) && Inv(ch, sn, conf, ahead)
    requires conf + [s] == Path(ch, s) <= ahead
    ensures
      var p := RunStatement(fuel, ch.states[s].entry, Enter(ch, sn, s));
      !p.Stopped? && (p.Running? ==> Inv(ch, p.sn, Path(ch, s), ahead))
  {
    assert TypecheckState(ch, s);
    EnterLocated(ch, sn, s, conf, ahead);
    EnterKept(ch, sn, s);
    StateWrites(ch, s);
    var env := EnvironmentOf(ch, s);
    StatementInv(ch, fuel, ch.states[s].entry, Enter(ch, sn, s), env, env, Path(ch, s), ahead, ahead);
  }

  lemma ExitInv(ch: Chart, fuel: nat, sn: Snapshot, s: StateId)
    requires Typechecked(ch) && IsState(ch, s) && s != ROOT && Inv(ch, sn, Path(ch, s), Path(ch, s))
    ensures
      var p := RunStatement(fuel, ch.states[s].exit, sn);
      !p.Stopped? && (p.Running? ==> Inv(ch, Exit(ch, p.sn, s), Path(ch, Super(ch, s)), Path(ch, Super(ch, s))))
  {
    assert TypecheckState(ch, s);
    StateWrites(ch, s);
    var env, path := EnvironmentOf(ch, s), Path(ch, s);
    StatementInv(ch, fuel, ch.states[s].exit, sn, env, env, path, path, path);
    var p := RunStatement(fuel, ch.states[s].exit, sn);
    if p.Running? {
      ExitLocated(ch, p.sn, s);
      ExitKept(ch, p.sn, s);
    }
  }

  // ----- The phases of a step keep the invariant -----

  lemma {:induction false} ExitUpInv(ch: Chart, fuel: nat, sn: Snapshot, current: StateId, lub: StateId)
    requires Typechecked(ch) && IsState(ch, current) && lub in Path(ch, current)
    requires Inv(ch, sn, Path(ch, current), Path(ch, current))
    ensures IsState(ch, lub)
    ensures
      var p := ExitUp(ch, fuel, sn, current, lub);
      !p.Stopped? && (p.Running? ==> Inv(ch, p.sn, Path(ch, lub), Path(ch, lub)))
    decreases current
  {
    if current != lub {
      PathOfRoot(ch);
      ExitInv(ch, fuel, sn, current);
      PathOfSub(ch, current);
      var p := RunStatement(fuel, ch.states[current].exit, sn);
      if p.Running? {
        ExitUpInv(ch, fuel, Exit(ch, p.sn, current), Super(ch, current), lub);
      }
    }
  }

  lemma EnterOneInv(ch: Chart, fuel: nat, sn: Snapshot, dest: StateId, i: nat)
    requires Typechecked(ch) && IsState(ch, dest) && i < |Path(ch, dest)|
    requires Inv(ch, sn, Path(ch, dest)[..i], Path(ch, dest))
    ensures IsState(ch, Path(ch, dest)[i])
    ensures
      var s := Path(ch, dest)[i];
      var p := RunStatement(fuel, ch.states[s].entry, Enter(ch, sn, s));
      !p.Stopped? && (p.Running? ==> Inv(ch, p.sn, Path(ch, dest)[..i + 1], Path(ch, dest)))
  {
    var path := Path(ch, dest);
    PathPrefix(ch, dest, i);
    assert path[..i] + [path[i]] == path[..i + 1];
    EntryInv(ch, fuel, sn, path[i], path[..i], path);
  }

  lemma {:induction false} EnterDownInv(ch: Chart, fuel: nat, sn: Snapshot, dest: StateId, i: nat)
    requires Typechecked(ch) && IsState(ch, dest) && i <= |Path(ch, dest)|
    requires Inv(ch, sn, Path(ch, dest)[..i], Path(ch, dest)) && AllStates(ch, Path(ch, dest)[i..])
    ensures
      var p := EnterDown(ch, fuel, sn, Path(ch, dest)[i..]);
      !p.Stopped? && (p.Running? ==> Inv(ch, p.sn, Path(ch, dest), Path(ch, dest)))
    decreases |Path(ch, dest)| - i
  {
    var path := Path(ch, dest);
    if i == |path| {
      assert path[..i] == path;
    } else {
      EnterOneInv(ch, fuel, sn, dest, i);
      assert path[i..][1..] == path[i + 1..];
      var p := RunStatement(fuel, ch.states[path[i]].entry, Enter(ch, sn, path[i]));
      if p.Running? {
        EnterDownInv(ch, fuel, p.sn, dest, i + 1);
      }
    }
  }

  /** From the LUB's path down to the destination. */
  lemma EnterFromInv(ch: Chart, fuel: nat, sn: Snapshot, lub: StateId, dest: StateId)
    requires Typechecked(ch) && IsState(ch, dest) && lub in Path(ch, dest) && IsState(ch, lub)
    requires Inv(ch, sn, Path(ch, lub), Path(ch, dest))
    ensures
      var p := EnterDown(ch, fuel, sn, Below(ch, lub, dest));
      !p.Stopped? && (p.Running? ==> Inv(ch, p.sn, Path(ch, dest), Path(ch, dest)))
  {
    OnPath(ch, lub, dest);
    var n := |Path(ch, lub)|;
    assert Path(ch, dest)[..n] == Path(ch, lub);
    assert Path(ch, dest)[n..] == Below(ch, lub, dest);
    EnterDownInv(ch, fuel, sn, dest, n);
  }

  lemma DescendOneInv(ch: Chart, fuel: nat, sn: Snapshot, s: StateId, c: StateId)
    requires Typechecked(ch) && IsState(ch, s) && IsState(ch, c) && c != ROOT && Super(ch, c) == s
    requires Inv(ch, sn, Path(ch, s), Path(ch, s))
    ensures
      var p := RunStatement(fuel, ch.states[c].entry, Enter(ch, sn, c));
      !p.Stopped? && (p.Running? ==> Inv(ch, p.sn, Path(ch, c), Path(ch, c)))
  {
    PathOfSub(ch, c);
    WidenAhead(ch, sn, Path(ch, s), Path(ch, s), Path(ch, c));
    EntryInv(ch, fuel, sn, c, Path(ch, s), Path(ch, c));
  }

  lemma {:induction false} DescendInv(ch: Chart, fuel: nat, sn: Snapshot, s: StateId)
    requires Typechecked(ch) && IsState(ch, s) && HistoryValid(ch, sn)
    requires Inv(ch, sn, Path(ch, s), Path(ch, s))
    ensures
      var l := Descend(ch, fuel, sn, s);
      (l.NotLanded? ==> l.p.Diverged?) && (l.Landed? ==> Stable(ch, l.sn, l.curr))
    decreases |ch.states| - s
  {
    if ch.states[s].states != [] {
      var c := NextSubstate(ch, sn, s);
      DescendOneInv(ch, fuel, sn, s, c);
      var p := RunStatement(fuel, ch.states[c].entry, Enter(ch, sn, c));
      if p.Running? {
        DescendInv(ch, fuel, p.sn, c);
      }
    }
  }

  lemma WidenAhead(ch: Chart, sn: Snapshot, conf: seq<StateId>, ahead: seq<StateId>, ahead': seq<StateId>)
    requires Inv(ch, sn, conf, ahead) && ahead <= ahead'
    ensures Inv(ch, sn, conf, ahead')
  {}

  // ----- The order of a step -----

  lemma {:induction false} ExitUpMarks(ch: Chart, fuel: nat, sn: Snapshot, current: StateId, lub: StateId)
    requires IsTree(ch) && IsState(ch, current) && lub in Path(ch, current)
    ensures
      var p := ExitUp(ch, fuel, sn, current, lub);
      p.Running? ==> Marks(p.sn.log) == Marks(sn.log) + Outs(Below(ch, lub, current))
    decreases current
  {
    if current == lub {
      assert Below(ch, lub, current) == [];
    } else {
      PathOfRoot(ch);
      OutsSnoc(ch, current, lub);
      var p := RunStatement(fuel, ch.states[current].exit, sn);
      if p.Running? {
        MarksSnoc(p.sn.log, Exited(current, p.sn.values));
        ExitUpMarks(ch, fuel, Exit(ch, p.sn, current), Super(ch, current), lub);
        Regroup(Marks(sn.log), Out(current), Outs(Below(ch, lub, Super(ch, current))));
      }
    }
  }

  lemma OutsSnoc(ch: Chart, current: StateId, lub: StateId)
    requires IsTree(ch) && IsState(ch, current) && current != ROOT && lub in Path(ch, current) && current != lub
    ensures lub in Path(ch, Super(ch, current))
    ensures Outs(Below(ch, lub, current)) == [Out(current)] + Outs(Below(ch, lub, Super(ch, current)))
  {
    PathOfSub(ch, current);
    OnPath(ch, lub, Super(ch, current));
    assert Below(ch, lub, current) == Below(ch, lub, Super(ch, current)) + [current];
  }

  lemma {:induction false} EnterDownMarks(ch: Chart, fuel: nat, sn: Snapshot, path: seq<StateId>)
    requires AllStates(ch, path)
    ensures
      var p := EnterDown(ch, fuel, sn, path);
      p.Running? ==> Marks(p.sn.log) == Marks(sn.log) + Ins(path)
    decreases |path|
  {
    if path != [] {
      var entered := Enter(ch, sn, path[0]);
      var p := RunStatement(fuel, ch.states[path[0]].entry, entered);
      if p.Running? {
        MarksSnoc(sn.log, Entered(path[0], entered.values));
        EnterDownMarks(ch, fuel, p.sn, path[1..]);
        assert Ins(path) == [In(path[0])] + Ins(path[1..]);
      }
    }
  }

  lemma {:induction false} DescendMarks(ch: Chart, fuel: nat, sn: Snapshot, s: StateId)
    requires IsTree(ch) && IsState(ch, s) && HistoryValid(ch, sn)
    ensures
      var l := Descend(ch, fuel, sn, s);
      l.Landed? ==>
        && IsState(ch, l.curr) && s in Path(ch, l.curr)
        && Marks(l.sn.log) == Marks(sn.log) + Ins(Below(ch, s, l.curr))
    decreases |ch.states| - s
  {
    if ch.states[s].states == [] {
      assert Below(ch, s, s) == [];
    } else {
      var c := NextSubstate(ch, sn, s);
      var entered := Enter(ch, sn, c);
      var p := RunStatement(fuel, ch.states[c].entry, entered);
      if p.Running? {
        MarksSnoc(sn.log, Entered(c, entered.values));
        DescendMarks(ch, fuel, p.sn, c);
        var l := Descend(ch, fuel, p.sn, c);
        if l.Landed? {
          InsBelow(ch, s, c, l.curr);
          Regroup(Marks(sn.log), In(c), Ins(Below(ch, c, l.curr)));
        }
      }
    }
  }

  lemma Regroup(a: seq<Mark>, m: Mark, b: seq<Mark>)
    ensures a + [m] + b == a + ([m] + b)
  {}

  lemma InsBelow(ch: Chart, s: StateId, c: StateId, curr: StateId)
    requires IsTree(ch) && IsState(ch, curr) && IsState(ch, c) && c != ROOT && Super(ch, c) == s
    requires c in Path(ch, curr)
    ensures s in Path(ch, curr)
    ensures Ins(Below(ch, s, curr)) == [In(c)] + Ins(Below(ch, c, curr))
  {
    OnPath(ch, c, curr);
    PathOfSub(ch, c);
    OnPath(ch, s, curr);
    var n := |Path(ch, s)|;
    assert Path(ch, curr)[n] == Path(ch, c)[n] == c;
    assert Below(ch, s, curr) == [c] + Below(ch, c, curr);
  }

  // ----- Stable states -----

  /** The simulation loop's invariant: `curr` is atomic, the configuration is its path, the valuation
      has exactly the locals of the configuration, and the histories agree with the log. */
  ghost predicate Stable(ch: Chart, sn: Snapshot, curr: StateId)
    requires IsTree(ch)
  {
    IsState(ch, curr) && ch.states[curr].states == [] && Inv(ch, sn, Path(ch, curr), Path(ch, curr))
  }

  lemma PerformInv(ch: Chart, fuel: nat, sn: Snapshot, curr: StateId, t: Transition)
    requires Typechecked(ch) && Stable(ch, sn, curr) && HasEnds(ch, t) && TypecheckTransition(ch, t)
    requires t.placement in Path(ch, curr)
    ensures
      var p := Perform(ch, fuel, sn, curr, t);
      !p.Stopped? && (p.Running? ==> Inv(ch, p.sn, Path(ch, t.destination), Path(ch, t.destination)))
  {
    ExitUpInv(ch, fuel, sn, curr, t.placement);
    var up := ExitUp(ch, fuel, sn, curr, t.placement);
    if up.Running? {
      ActionInv(ch, fuel, up.sn, t);
      var acted := RunStatement(fuel, t.action, up.sn.(log := up.sn.log + [Acted(t)]));
      if acted.Running? {
        EnterFromInv(ch, fuel, acted.sn, t.placement, t.destination);
      }
    }
  }

  lemma ActionInv(ch: Chart, fuel: nat, sn: Snapshot, t: Transition)
    requires Typechecked(ch) && HasEnds(ch, t) && TypecheckTransition(ch, t)
    requires Inv(ch, sn, Path(ch, t.placement), Path(ch, t.placement))
    ensures t.placement in Path(ch, t.destination)
    ensures
      var p := RunStatement(fuel, t.action, sn.(log := sn.log + [Acted(t)]));
      !p.Stopped? && (p.Running? ==> Inv(ch, p.sn, Path(ch, t.placement), Path(ch, t.destination)))
  {
    var lubPath, dest := Path(ch, t.placement), Path(ch, t.destination);
    LubIsDeepest(ch, t.source, t.destination);
    OnPath(ch, t.placement, t.destination);
    ActKept(ch, sn, t);
    ActionWrites(ch, t);
    StatementInv(ch, fuel, t.action, sn.(log := sn.log + [Acted(t)]), ReadEnvironment(ch, t),
                 WriteEnvironment(ch, t), lubPath, lubPath, dest);
  }

  /** Out of the active states innermost first, the action once, in to the destination outermost
      first. */
  lemma PerformMarks(ch: Chart, fuel: nat, sn: Snapshot, curr: StateId, t: Transition)
    requires IsTree(ch) && IsState(ch, curr) && HasEnds(ch, t) && PlacedAtLub(ch, t) && t.placement in Path(ch, curr)
    ensures t.placement in Path(ch, t.destination)
    ensures
      var p := Perform(ch, fuel, sn, curr, t);
      p.Running? ==>
        Marks(p.sn.log) == Marks(sn.log) + Outs(Below(ch, t.placement, curr)) + [Act(t)]
                                         + Ins(Below(ch, t.placement, t.destination))
  {
    LubIsDeepest(ch, t.source, t.destination);
    ExitUpMarks(ch, fuel, sn, curr, t.placement);
    var up := ExitUp(ch, fuel, sn, curr, t.placement);
    if up.Running? {
      MarksSnoc(up.sn.log, Acted(t));
      var acted := RunStatement(fuel, t.action, up.sn.(log := up.sn.log + [Acted(t)]));
      if acted.Running? {
        EnterDownMarks(ch, fuel, acted.sn, Below(ch, t.placement, t.destination));
      }
    }
  }

  // ----- The choice is exact -----

  ghost predicate InChart(ch: Chart, t: Transition) {
    exists s :: 0 <= s < |ch.states| && t in ch.states[s].transitions
  }

  lemma {:induction false} InViableOf(sn: Snapshot, event: string, ts: seq<Transition>, t: Transition)
    ensures t in ViableOf(sn, event, ts) <==> t in ts && Viable(sn, event, t)
  {
    if ts != [] {
      InViableOf(sn, event, ts[1..], t);
      assert ts == [ts[0]] + ts[1..];
    }
  }

  lemma PlacedHere(ch: Chart, s: StateId, t: Transition)
    requires WellLinked(ch) && IsState(ch, s)
    ensures t in ch.states[s].transitions <==> InChart(ch, t) && t.placement == s
  {}

  lemma {:induction false} InWalk(ch: Chart, sn: Snapshot, event: string, s: StateId, t: Transition)
    requires WellLinked(ch) && IsState(ch, s)
    ensures t in Walk(ch, sn, event, s) <==> InChart(ch, t) && t.placement in Path(ch, s) && Viable(sn, event, t)
  {
    InViableOf(sn, event, ch.states[s].transitions, t);
    PlacedHere(ch, s, t);
    if s == ROOT {
      PathOfRoot(ch);
    } else {
      InWalk(ch, sn, event, Super(ch, s), t);
      PathOfSub(ch, s);
    }
  }

  /** Transitions of a checked chart have ends and pass the checks. */
  lemma CheckedTransition(ch: Chart, t: Transition)
    requires Typechecked(ch) && InChart(ch, t)
    ensures HasEnds(ch, t) && TypecheckTransition(ch, t)
  {
    var s :| 0 <= s < |ch.states| && t in ch.states[s].transitions;
    assert TypecheckState(ch, s);
  }

  /** A transition placed at the LUB sits on every path that runs through its source. */
  lemma PlacementActive(ch: Chart, t: Transition, curr: StateId)
    requires IsTree(ch) && HasEnds(ch, t) && PlacedAtLub(ch, t)
    requires IsState(ch, curr) && t.source in Path(ch, curr)
    ensures t.placement in Path(ch, curr)
  {
    LubIsDeepest(ch, t.source, t.destination);
    OnPath(ch, t.source, curr);
    OnPath(ch, t.placement, t.source);
    OnPath(ch, t.placement, curr);
  }

  /** The upward walk meets every transition of the whole chart that may fire. */
  lemma WalkComplete(ch: Chart, sn: Snapshot, event: string, curr: StateId, t: Transition)
    requires Typechecked(ch) && IsState(ch, curr) && sn.config == Path(ch, curr)
    ensures t in Walk(ch, sn, event, curr) <==> Enabled(ch, sn, event, t)
  {
    InWalk(ch, sn, event, curr, t);
    if InChart(ch, t) && Viable(sn, event, t) {
      CheckedTransition(ch, t);
      PlacementActive(ch, t, curr);
    }
  }

  ghost predicate Distinct(ts: seq<Transition>) {
    forall i, j | 0 <= i < j < |ts| :: ts[i] != ts[j]
  }

  lemma {:induction false} ViableOfDistinct(sn: Snapshot, event: string, ts: seq<Transition>)
    requires Distinct(ts)
    ensures Distinct(ViableOf(sn, event, ts))
  {
    if ts != [] {
      ViableOfDistinct(sn, event, ts[1..]);
      InViableOf(sn, event, ts[1..], ts[0]);
      assert ts[0] !in ts[1..];
    }
  }

  lemma DistinctConcat(a: seq<Transition>, b: seq<Transition>)
    requires Distinct(a) && Distinct(b) && forall t | t in a :: t !in b
    ensures Distinct(a + b)
  {
    forall i, j | 0 <= i < j < |a + b| ensures (a + b)[i] != (a + b)[j] {
      if i < |a| <= j { assert a[i] in a && b[j - |a|] in b; }
    }
  }

  /** What a state itself offers is not offered again above it. */
  lemma WalkAbove(ch: Chart, sn: Snapshot, event: string, s: StateId, t: Transition)
    requires WellLinked(ch) && IsState(ch, s) && s != ROOT && t in ViableOf(sn, event, ch.states[s].transitions)
    ensures t !in Walk(ch, sn, event, Super(ch, s))
  {
    InViableOf(sn, event, ch.states[s].transitions, t);
    PlacedHere(ch, s, t);
    InWalk(ch, sn, event, Super(ch, s), t);
  }

  lemma {:induction false} WalkDistinct(ch: Chart, sn: Snapshot, event: string, s: StateId)
    requires Typechecked(ch) && IsState(ch, s)
    ensures Distinct(Walk(ch, sn, event, s))
  {
    NamesDistinct(ch, s);
    var here := ViableOf(sn, event, ch.states[s].transitions);
    ViableOfDistinct(sn, event, ch.states[s].transitions);
    if s != ROOT {
      var above := Walk(ch, sn, event, Super(ch, s));
      WalkDistinct(ch, sn, event, Super(ch, s));
      forall t | t in here ensures t !in above { WalkAbove(ch, sn, event, s, t); }
      DistinctConcat(here, above);
    }
  }

  /** A transition of the chart that may fire: its guard has the value true, its source is active and
      its trigger is the event. */
  ghost predicate Enabled(ch: Chart, sn: Snapshot, event: string, t: Transition) {
    && (exists s :: 0 <= s < |ch.states| && t in ch.states[s].transitions)
    && Evaluate(t.guard, sn.values) == Some(BooleanConstant(true))
    && t.source in sn.config
    && t.trigger == event
  }

  lemma FoundExactly(ch: Chart, sn: Snapshot, curr: StateId, event: string)
    requires Typechecked(ch) && IsState(ch, curr) && sn.config == Path(ch, curr)
    ensures Distinct(Walk(ch, sn, event, curr))
    ensures forall t :: t in Walk(ch, sn, event, curr) <==> Enabled(ch, sn, event, t)
  {
    WalkDistinct(ch, sn, event, curr);
    forall t ensures t in Walk(ch, sn, event, curr) <==> Enabled(ch, sn, event, t) {
      WalkComplete(ch, sn, event, curr, t);
    }
  }

  ghost predicate OnlyOne(ch: Chart, sn: Snapshot, event: string, t: Transition) {
    Enabled(ch, sn, event, t) && forall u | Enabled(ch, sn, event, u) :: u == t
  }

  ghost predicate Several(ch: Chart, sn: Snapshot, event: string) {
    exists t, u :: t != u && Enabled(ch, sn, event, t) && Enabled(ch, sn, event, u)
  }

  /** The choice takes `t` exactly when it is the only one in the chart that may fire, reports
      non-determinism exactly when several may, and finds none exactly when none may. */
  lemma ChoiceExact(ch: Chart, sn: Snapshot, curr: StateId, event: string)
    requires Typechecked(ch) && IsState(ch, curr) && sn.config == Path(ch, curr)
    ensures
      var c := Choose(ch, sn, curr, event);
      && (forall t :: c == Take(t) <==> OnlyOne(ch, sn, event, t))
      && (c.NonDeterminism? <==> Several(ch, sn, event))
      && (c.NonDeterminism? ==> forall t :: t in c.ts <==> Enabled(ch, sn, event, t))
      && (c.NoViable? <==> forall t :: !Enabled(ch, sn, event, t))
  {
    var found := Walk(ch, sn, event, curr);
    FoundExactly(ch, sn, curr, event);
    if found == [] {
      assert forall t :: t !in found;
    } else {
      assert found[0] in found;
      if |found| > 1 {
        assert found[1] in found && found[0] != found[1];
      } else {
        assert forall t :: t in found <==> t == found[0];
      }
    }
  }

  /** A selected transition belongs to the chart and may be performed from the current state. */
  lemma SelectedFits(ch: Chart, sn: Snapshot, curr: StateId, event: string)
    requires Typechecked(ch) && IsState(ch, curr) && sn.config == Path(ch, curr)
    requires Select(ch, sn, curr, event).Take?
    ensures
      var t := Select(ch, sn, curr, event).t;
      && InChart(ch, t) && HasEnds(ch, t) && TypecheckTransition(ch, t)
      && t.placement in Path(ch, curr) && t.source in Path(ch, curr)
      && (t.trigger == event || t.trigger == "null")
  {
    var t := Select(ch, sn, curr, event).t;
    ChoiceExact(ch, sn, curr, event);
    ChoiceExact(ch, sn, curr, "null");
    assert Enabled(ch, sn, t.trigger, t);
    CheckedTransition(ch, t);
    PlacementActive(ch, t, curr);
  }

  // ----- Steps -----

  datatype StepResult =
    | Next(curr: StateId, sn: Snapshot)
    | HaltNoViable
    | HaltNonDeterminism(ts: seq<Transition>)
    | Diverges

  /** One round of the simulation loop: choose, perform, descend from the destination. */
  ghost function Step(ch: Chart, fuel: nat, curr: StateId, sn: Snapshot, event: string): (r: StepResult)
    requires Typechecked(ch) && Stable(ch, sn, curr)
    ensures r.Next? ==> Stable(ch, r.sn, r.curr)
  {
    match Select(ch, sn, curr, event)
    case NoViable => HaltNoViable
    case NonDeterminism(ts) => HaltNonDeterminism(ts)
    case Take(t) =>
      SelectedFits(ch, sn, curr, event);
      PerformInv(ch, fuel, sn, curr, t);
      var p := Perform(ch, fuel, sn, curr, t);
      if !p.Running? then Diverges
      else
        HistoryIsValid(ch, p.sn);
        DescendInv(ch, fuel, p.sn, t.destination);
        var l := AtomicState(ch, fuel, p.sn, t.destination, 0);
        if l.NotLanded? then Diverges else Next(l.curr, l.sn)
  }

  /** A round that selects `t`: perform it, then descend from its destination. */
  lemma StepTakes(ch: Chart, fuel: nat, curr: StateId, sn: Snapshot, event: string, t: Transition)
    requires Typechecked(ch) && Stable(ch, sn, curr) && Select(ch, sn, curr, event) == Take(t)
    ensures HasEnds(ch, t) && PlacedAtLub(ch, t) && t.placement in Path(ch, curr)
    ensures StaticsReady(ch, sn) && HistoryValid(ch, sn)
    ensures
      var p := Perform(ch, fuel, sn, curr, t);
      if p.Running? then
        && HistoryValid(ch, p.sn)
        && var l := AtomicState(ch, fuel, p.sn, t.destination, 0);
        Step(ch, fuel, curr, sn, event) == if l.Landed? then Next(l.curr, l.sn) else Diverges
      else Step(ch, fuel, curr, sn, event) == Diverges
  {
    SelectedFits(ch, sn, curr, event);
    PerformInv(ch, fuel, sn, curr, t);
    HistoryIsValid(ch, sn);
    var p := Perform(ch, fuel, sn, curr, t);
    if p.Running? { HistoryIsValid(ch, p.sn); }
  }

  /** A step exits from the current state up to just below the LUB, innermost first, runs the action
      once, enters outermost first down to the destination and on to an atomic state below it. */
  lemma StepOrder(ch: Chart, fuel: nat, curr: StateId, sn: Snapshot, event: string)
    requires Typechecked(ch) && Stable(ch, sn, curr)
    ensures
      var r := Step(ch, fuel, curr, sn, event);
      r.Next? ==>
        var t := Select(ch, sn, curr, event).t;
        && Select(ch, sn, curr, event).Take? && HasEnds(ch, t)
        && t.source in Path(ch, curr) && t.placement in Path(ch, t.source)
        && t.placement in Path(ch, curr) && t.destination in Path(ch, r.curr) && t.placement in Path(ch, r.curr)
        && Marks(r.sn.log) == Marks(sn.log) + Outs(Below(ch, t.placement, curr)) + [Act(t)]
                                            + Ins(Below(ch, t.placement, r.curr))
  {
    var r := Step(ch, fuel, curr, sn, event);
    if r.Next? {
      var t := Select(ch, sn, curr, event).t;
      SelectedFits(ch, sn, curr, event);
      PerformInv(ch, fuel, sn, curr, t);
      PerformMarks(ch, fuel, sn, curr, t);
      var p := Perform(ch, fuel, sn, curr, t);
      HistoryIsValid(ch, p.sn);
      DescendMarks(ch, fuel, p.sn, t.destination);
      LubIsDeepest(ch, t.source, t.destination);
      BelowChain(ch, t.placement, t.destination, r.curr);
      Regroup2(Marks(sn.log) + Outs(Below(ch, t.placement, curr)) + [Act(t)],
               Ins(Below(ch, t.placement, t.destination)), Ins(Below(ch, t.destination, r.curr)));
    }
  }

  lemma Regroup2(a: seq<Mark>, b: seq<Mark>, c: seq<Mark>)
    ensures a + b + c == a + (b + c)
  {}

  lemma BelowChain(ch: Chart, lub: StateId, dest: StateId, curr: StateId)
    requires IsTree(ch) && IsState(ch, curr) && dest in Path(ch, curr) && IsState(ch, dest) && lub in Path(ch, dest)
    ensures lub in Path(ch, curr)
    ensures Ins(Below(ch, lub, curr)) == Ins(Below(ch, lub, dest)) + Ins(Below(ch, dest, curr))
  {
    OnPath(ch, dest, curr);
    OnPath(ch, lub, dest);
    OnPath(ch, lub, curr);
    SuffixesJoin(Path(ch, lub), Path(ch, dest), Path(ch, curr));
    InsConcat(Below(ch, lub, dest), Below(ch, dest, curr));
  }

  lemma SuffixesJoin(a: seq<StateId>, b: seq<StateId>, c: seq<StateId>)
    requires a <= b <= c
    ensures c[|a|..] == b[|a|..] + c[|b|..]
  {}

  lemma InsConcat(a: seq<StateId>, b: seq<StateId>)
    ensures Ins(a + b) == Ins(a) + Ins(b)
  {}

  // ----- The start -----

  /** The precondition the simulator relies on: only the statechart and its direct substates have
      static variables, because only those are populated. */
  ghost predicate StaticsPopulated(ch: Chart)
    requires IsTree(ch)
  {
    forall s | 0 <= s < |ch.states| && HasStatic(ch.states[s].declarations) :: IsPopulated(ch, s)
  }

  predicate IsPopulated(ch: Chart, s: StateId)
    requires IsTree(ch) && IsState(ch, s)
  {
    s == ROOT || ch.states[s].superstate == Some(ROOT)
  }

  /** Nothing has happened, and all shared variables are null. */
  ghost predicate Blank(ch: Chart, sn: Snapshot) {
    && sn.config == [] && sn.log == [] && sn.history == map[]
    && (forall d | d in sn.values :: Declared(ch, d) && !d.scope.Local? && sn.values[d] == None)
    && (forall s, d | s in sn.valueHistory && d in sn.valueHistory[s] :: sn.valueHistory[s][d] == None)
  }

  lemma {:induction false} PopulateBlank(ch: Chart, sn: Snapshot, s: StateId, decls: seq<Declaration>)
    requires Blank(ch, sn) && forall d | d in decls :: Declared(ch, d)
    ensures Blank(ch, PopulateDecls(sn, s, decls))
  {
    if decls != [] {
      var n := |decls| - 1;
      assert forall d | d in decls[..n] :: d in decls;
      PopulateBlank(ch, sn, s, decls[..n]);
      assert decls[n] in decls;
    }
  }

  lemma {:induction false} PopulateKnows(sn: Snapshot, s: StateId, decls: seq<Declaration>)
    ensures
      var known, known' := sn.valueHistory.Keys, PopulateDecls(sn, s, decls).valueHistory.Keys;
      known <= known' <= known + {s} && (HasStatic(decls) ==> s in known')
  {
    if decls != [] {
      var n := |decls| - 1;
      PopulateKnows(sn, s, decls[..n]);
      assert decls == decls[..n] + [decls[n]];
    }
  }

  /** Populating `states` makes those with static variables known, and no others. */
  ghost predicate Knows(ch: Chart, known: set<StateId>, known': set<StateId>, states: seq<StateId>) {
    && known <= known'
    && (forall s | s in known' :: s in known || s in states)
    && (forall s: StateId | s in states && IsState(ch, s) && HasStatic(ch.states[s].declarations) :: s in known')
  }

  lemma {:induction false} PopulateAllBlank(ch: Chart, sn: Snapshot, states: seq<StateId>)
    requires WellLinked(ch) && Blank(ch, sn) && AllStates(ch, states)
    ensures Blank(ch, PopulateAll(ch, sn, states))
    decreases |states|
  {
    if states != [] {
      var s := states[0];
      PopulateBlank(ch, sn, s, ch.states[s].declarations);
      PopulateAllBlank(ch, PopulateDecls(sn, s, ch.states[s].declarations), states[1..]);
    }
  }

  lemma {:induction false} PopulateAllKnows(ch: Chart, sn: Snapshot, states: seq<StateId>)
    requires AllStates(ch, states)
    ensures Knows(ch, sn.valueHistory.Keys, PopulateAll(ch, sn, states).valueHistory.Keys, states)
    decreases |states|
  {
    if states != [] {
      var s := states[0];
      PopulateKnows(sn, s, ch.states[s].declarations);
      PopulateAllKnows(ch, PopulateDecls(sn, s, ch.states[s].declarations), states[1..]);
      assert states == [s] + states[1..];
    }
  }

  lemma InitialBlank(ch: Chart)
    requires WellLinked(ch)
    ensures Blank(ch, Initial(ch))
  {
    var children, decls := ch.states[ROOT].states, ch.states[ROOT].declarations;
    assert forall i | 0 <= i < |children| :: IsChild(ch, ROOT, children[i]);
    PopulateBlank(ch, EMPTY, ROOT, decls);
    PopulateAllBlank(ch, PopulateDecls(EMPTY, ROOT, decls), children);
  }

  /** Among the states with static variables, exactly the populated ones are known. */
  lemma InitialKnows(ch: Chart)
    requires IsTree(ch)
    ensures forall s: StateId | IsState(ch, s) && HasStatic(ch.states[s].declarations) ::
      s in Initial(ch).valueHistory <==> IsPopulated(ch, s)
  {
    var children, decls := ch.states[ROOT].states, ch.states[ROOT].declarations;
    assert forall i | 0 <= i < |children| :: IsChild(ch, ROOT, children[i]);
    PopulateKnows(EMPTY, ROOT, decls);
    PopulateAllKnows(ch, PopulateDecls(EMPTY, ROOT, decls), children);
  }

  lemma InitialInv(ch: Chart)
    requires WellLinked(ch) && StaticsPopulated(ch)
    ensures Inv(ch, Initial(ch), [], [ROOT]) && HistoryValid(ch, Initial(ch))
  {
    InitialBlank(ch);
    InitialKnows(ch);
    var sn := Initial(ch);
    assert HistoryLogged(ch, sn) by {
      forall p ensures LastExitedChild(ch, sn.log, p) == None {}
    }
  }

  /** The start of a simulation: the statechart is entered down to an atomic state. */
  ghost function Start(ch: Chart, fuel: nat): (r: StepResult)
    requires Typechecked(ch) && StaticsPopulated(ch)
    ensures r.Next? ==> Stable(ch, r.sn, r.curr)
    ensures r.Next? || r.Diverges?
  {
    InitialInv(ch);
    PathOfRoot(ch);
    EntryInv(ch, fuel, Initial(ch), ROOT, [], [ROOT]);
    var l := AtomicState(ch, fuel, Initial(ch), ROOT, 1);
    var p := RunStatement(fuel, ch.states[ROOT].entry, Enter(ch, Initial(ch), ROOT));
    if p.Running? then
      HistoryIsValid(ch, p.sn);
      DescendInv(ch, fuel, p.sn, ROOT);
      if l.Landed? then Next(l.curr, l.sn) else Diverges
    else Diverges
  }

  /** The start enters the path to its atomic state, outermost first, and does nothing else. */
  lemma StartOrder(ch: Chart, fuel: nat)
    requires Typechecked(ch) && StaticsPopulated(ch)
    ensures
      var r := Start(ch, fuel);
      r.Next? ==> Marks(r.sn.log) == Ins(Path(ch, r.curr))
  {
    InitialInv(ch);
    InitialBlank(ch);
    EnteredMarks(ch, fuel, Initial(ch));
  }

  lemma RootAndBelow(ch: Chart, s: StateId)
    requires IsTree(ch) && IsState(ch, s) && ROOT in Path(ch, s)
    ensures Path(ch, s) == [ROOT] + Below(ch, ROOT, s)
  {
    PathOfRoot(ch);
    OnPath(ch, ROOT, s);
  }

  lemma EnteredMarks(ch: Chart, fuel: nat, sn: Snapshot)
    requires IsTree(ch) && HistoryValid(ch, sn) && sn.log == []
    ensures
      var l := AtomicState(ch, fuel, sn, ROOT, 1);
      l.Landed? ==> IsState(ch, l.curr) && Marks(l.sn.log) == Ins(Path(ch, l.curr))
  {
    var entered := Enter(ch, sn, ROOT);
    var p := RunStatement(fuel, ch.states[ROOT].entry, entered);
    if p.Running? {
      MarksSnoc(sn.log, Entered(ROOT, entered.values));
      DescendMarks(ch, fuel, p.sn, ROOT);
      var l := Descend(ch, fuel, p.sn, ROOT);
      if l.Landed? {
        RootAndBelow(ch, l.curr);
        InsConcat([ROOT], Below(ch, ROOT, l.curr));
        assert Marks(p.sn.log) == [In(ROOT)] == Ins([ROOT]);
      }
    }
  }

  // ----- Runs -----

  /** A run over the events that the rounds see, until it halts or the events are used up. */
  ghost function Run(ch: Chart, fuel: nat, curr: StateId, sn: Snapshot, events: seq<string>): (r: StepResult)
    requires Typechecked(ch) && Stable(ch, sn, curr)
    ensures r.Next? ==> Stable(ch, r.sn, r.curr)
    decreases |events|
  {
    if events == [] then Next(curr, sn)
    else
      var r := Step(ch, fuel, curr, sn, events[0]);
      if r.Next? then Run(ch, fuel, r.curr, r.sn, events[1..]) else r
  }

  /** Reached by some simulation of the chart. */
  ghost predicate Reachable(ch: Chart, curr: StateId, sn: Snapshot)
    requires Typechecked(ch) && StaticsPopulated(ch)
  {
    exists fuel, events: seq<string> :: ReachedBy(ch, fuel, events, curr, sn)
  }

  ghost predicate ReachedBy(ch: Chart, fuel: nat, events: seq<string>, curr: StateId, sn: Snapshot)
    requires Typechecked(ch) && StaticsPopulated(ch)
  {
    var s := Start(ch, fuel);
    s.Next? && Run(ch, fuel, s.curr, s.sn, events) == Next(curr, sn)
  }

  /** At every loop iteration of every simulation the configuration is exactly the path from the
      statechart to the current state, without repetition, and the current state is atomic. */
  lemma ConfigurationIsPath(ch: Chart, curr: StateId, sn: Snapshot)
    requires Typechecked(ch) && StaticsPopulated(ch) && Reachable(ch, curr, sn)
    ensures IsState(ch, curr) && ch.states[curr].states == []
    ensures sn.config == Path(ch, curr)
    ensures forall i, j | 0 <= i < j < |sn.config| :: sn.config[i] != sn.config[j]
  {
    PathStrict(ch, curr);
  }

  /** A local variable has an entry in the valuation exactly while its state is active. */
  lemma LocalsLiveWithTheirState(ch: Chart, curr: StateId, sn: Snapshot, d: Declaration)
    requires Typechecked(ch) && StaticsPopulated(ch) && Reachable(ch, curr, sn)
    requires Declared(ch, d) && d.scope.Local?
    ensures d in sn.values <==> d.owner in sn.config
  {}

  /** Whenever a state was entered, its locals were null and its statics held the value they had when
      the state was last left before, or null if it never was. */
  lemma EntriesRestoreStatics(ch: Chart, curr: StateId, sn: Snapshot, i: nat)
    requires Typechecked(ch) && StaticsPopulated(ch) && Reachable(ch, curr, sn)
    requires i < |sn.log| && sn.log[i].Entered?
    ensures EntryOk(ch, sn.log[..i], sn.log[i])
  {
    LogOkAt(ch, sn.log, i);
  }

  /** History entries are direct substates of their keys and the ones most recently exited, and no
      entry is ever missing its value history. */
  lemma HistoryIsLastExit(ch: Chart, curr: StateId, sn: Snapshot)
    requires Typechecked(ch) && StaticsPopulated(ch) && Reachable(ch, curr, sn)
    ensures HistoryValid(ch, sn) && HistoryLogged(ch, sn)
    ensures forall s: StateId | IsState(ch, s) :: !EnterThrows(ch, sn, s)
  {
    HistoryIsValid(ch, sn);
  }

  /** Reachable valuations are well typed. */
  lemma ReachableTyped(ch: Chart, curr: StateId, sn: Snapshot)
    requires Typechecked(ch) && StaticsPopulated(ch) && Reachable(ch, curr, sn)
    ensures WellTyped(sn.values)
  {}

  /** A selection as it should be: the only transition of the chart that may fire for the event, else
      the only one for "null"; non-determinism if there are several; nothing if there is none. */
  ghost predicate Settles(ch: Chart, sn: Snapshot, event: string, sel: Selection) {
    var none := forall t :: !Enabled(ch, sn, event, t);
    && (forall t :: sel == Take(t) <==> OnlyOne(ch, sn, event, t) || (none && OnlyOne(ch, sn, "null", t)))
    && (sel.NonDeterminism? <==> Several(ch, sn, event) || (none && Several(ch, sn, "null")))
    && (sel.NoViable? <==> none && forall t :: !Enabled(ch, sn, "null", t))
  }

  lemma SelectSettles(ch: Chart, sn: Snapshot, curr: StateId, event: string)
    requires Typechecked(ch) && IsState(ch, curr) && sn.config == Path(ch, curr)
    ensures Settles(ch, sn, event, Select(ch, sn, curr, event))
  {
    ChoiceExact(ch, sn, curr, event);
    ChoiceExact(ch, sn, curr, "null");
  }

  /** What the next round does in any reachable state, for any event.  In particular no transition
      whose guard is false or null is ever taken. */
  lemma RoundIsDeterminate(ch: Chart, curr: StateId, sn: Snapshot, event: string)
    requires Typechecked(ch) && StaticsPopulated(ch) && Reachable(ch, curr, sn)
    ensures Settles(ch, sn, event, Select(ch, sn, curr, event))
    ensures forall t: Transition | Evaluate(t.guard, sn.values) != Some(BooleanConstant(true)) ::
      Select(ch, sn, curr, event) != Take(t)
  {
    SelectSettles(ch, sn, curr, event);
  }
}
