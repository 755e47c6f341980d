/** Which values a simulation has at every point, as its log of entries, exits and actions says. */
module Traces {
  import opened Ast
  import opened Environments
  import opened Evaluation
  import opened BigStep
  import opened Hierarchy
  import opened Typechecker
  import opened ExecutionStates
  import opened Simulation
  import opened Invariants
  import opened Runs

  // ----- What an event does to the valuation -----

  /** Both valuations have the same value for the variable, or none. */
  ghost predicate SameAt(u: Store, v: Store, d: Declaration) {
    (d in u <==> d in v) && (d in u ==> u[d] == v[d])
  }

  ghost predicate Owns(ch: Chart, s: StateId, d: Declaration) {
    IsState(ch, s) && d in ch.states[s].declarations
  }

  /** Entering `s` after the log `before`: its locals become null, its statics get the value they had
      when it was last left, or null; every other variable, parameters included, stays. */
  ghost predicate EntersAt(ch: Chart, before: seq<Event>, s: StateId, u: Store, v: Store, d: Declaration) {
    if Owns(ch, s, d) && d.scope.Local? then d in v && v[d] == None
    else if Owns(ch, s, d) && d.scope.Static? then d in v && v[d] == LoggedValue(before, s, d)
    else SameAt(u, v, d)
  }

  ghost predicate EntryFrame(ch: Chart, before: seq<Event>, s: StateId, u: Store, v: Store) {
    forall d :: EntersAt(ch, before, s, u, v, d)
  }

  /** Exiting `s`: its locals are gone; every other variable stays. */
  ghost predicate ExitsAt(ch: Chart, s: StateId, u: Store, v: Store, d: Declaration) {
    if Owns(ch, s, d) && d.scope.Local? then d !in v else SameAt(u, v, d)
  }

  ghost predicate ExitFrame(ch: Chart, s: StateId, u: Store, v: Store) {
    forall d :: ExitsAt(ch, s, u, v, d)
  }

  /** At the start the shared variables of the statechart and its direct substates are null. */
  ghost predicate StartValues(ch: Chart, v: Store)
    requires IsTree(ch)
  {
    forall d ::
      && (d in v <==> !d.scope.Local? && exists s :: Owns(ch, s, d) && IsPopulated(ch, s))
      && (d in v ==> v[d] == None)
  }

  /** An event and the statement that belongs to it: an entry, then the entry statement; the exit
      statement, then an exit; an action. */
  ghost predicate EventMakes(ch: Chart, before: seq<Event>, e: Event, u: Store, v: Store) {
    match e
    case Entered(s, w) =>
      IsState(ch, s) && EntryFrame(ch, before, s, u, w) && Means(ch.states[s].entry, w, Done(v))
    case Exited(s, w) =>
      IsState(ch, s) && Means(ch.states[s].exit, u, Done(w)) && ExitFrame(ch, s, w, v)
    case Acted(t) => Means(t.action, u, Done(v))
  }

  /** The valuation that the events of the log leave, one after the other. */
  ghost predicate Leaves(ch: Chart, log: seq<Event>, v: Store)
    requires IsTree(ch)
    decreases |log|, 1
  {
    if log == [] then StartValues(ch, v) else exists u :: LeavesFrom(ch, log, u, v)
  }

  ghost predicate LeavesFrom(ch: Chart, log: seq<Event>, u: Store, v: Store)
    requires IsTree(ch) && log != []
    decreases |log|, 0
  {
    var n := |log| - 1;
    Leaves(ch, log[..n], u) && EventMakes(ch, log[..n], log[n], u, v)
  }

  lemma LeavesSnoc(ch: Chart, log: seq<Event>, e: Event, u: Store, v: Store)
    requires IsTree(ch) && Leaves(ch, log, u) && EventMakes(ch, log, e, u, v)
    ensures Leaves(ch, log + [e], v)
  {
    assert (log + [e])[..|log|] == log;
    assert LeavesFrom(ch, log + [e], u, v);
  }

  // ----- The log settles the valuation -----

  lemma SameStores(u: Store, v: Store)
    requires forall d :: SameAt(u, v, d)
    ensures u == v
  {
    assert u.Keys == v.Keys by {
      forall d ensures d in u <==> d in v { assert SameAt(u, v, d); }
    }
    forall d | d in u ensures u[d] == v[d] { assert SameAt(u, v, d); }
  }

  lemma ExitUnique(ch: Chart, s: StateId, u: Store, v: Store, v': Store)
    requires ExitFrame(ch, s, u, v) && ExitFrame(ch, s, u, v')
    ensures v == v'
  {
    forall d ensures SameAt(v, v', d) {
      assert ExitsAt(ch, s, u, v, d) && ExitsAt(ch, s, u, v', d);
    }
    SameStores(v, v');
  }

  lemma StartUnique(ch: Chart, v: Store, v': Store)
    requires IsTree(ch) && StartValues(ch, v) && StartValues(ch, v')
    ensures v == v'
  {
    forall d ensures SameAt(v, v', d) {
      assert d in v <==> !d.scope.Local? && exists s :: Owns(ch, s, d) && IsPopulated(ch, s);
    }
    SameStores(v, v');
  }

  /** The log leaves one valuation. */
  lemma {:induction false} LeavesUnique(ch: Chart, log: seq<Event>, v: Store, v': Store)
    requires IsTree(ch) && Leaves(ch, log, v) && Leaves(ch, log, v')
    ensures v == v'
    decreases |log|
  {
    if log == [] {
      StartUnique(ch, v, v');
    } else {
      var n := |log| - 1;
      var u :| LeavesFrom(ch, log, u, v);
      var u' :| LeavesFrom(ch, log, u', v');
      LeavesUnique(ch, log[..n], u, u');
      match log[n] {
        case Entered(s, w) => MeaningUnique(ch.states[s].entry, w, Done(v), Done(v'));
        case Exited(s, w) => ExitUnique(ch, s, w, v, v');
        case Acted(t) => MeaningUnique(t.action, u, Done(v), Done(v'));
      }
    }
  }

  // ----- Every phase of a step leaves what its log says -----

  ghost predicate Traced(ch: Chart, sn: Snapshot)
    requires IsTree(ch)
  {
    Leaves(ch, sn.log, sn.values) && ValuesLogged(ch, sn)
  }

  lemma RunMeans(fuel: nat, s: Statement, sn: Snapshot)
    requires RunStatement(fuel, s, sn).Running?
    ensures Means(s, sn.values, Done(RunStatement(fuel, s, sn).sn.values))
  {
    var t := ExecuteDerives(fuel, s, sn.values);
  }

  lemma EnterFrameAt(ch: Chart, sn: Snapshot, s: StateId, d: Declaration)
    requires IsState(ch, s) && ValuesLogged(ch, sn)
    ensures EntersAt(ch, sn.log, s, sn.values, Enter(ch, sn, s).values, d)
  {
    var decls := ch.states[s].declarations;
    var entered := EntryValues(decls, sn.valueHistory, s);
    assert Enter(ch, sn, s).values == sn.values + entered;
    if d in decls && !d.scope.Parameter? {
      assert d in entered && (d.scope.Local? ==> entered[d] == None);
      assert d.scope.Static? ==> entered[d] == SavedValue(sn.valueHistory, s, d);
      assert SavedValue(sn.valueHistory, s, d) == LoggedValue(sn.log, s, d);
    } else {
      assert d !in entered;
    }
  }

  lemma EnterFrames(ch: Chart, sn: Snapshot, s: StateId)
    requires IsState(ch, s) && ValuesLogged(ch, sn)
    ensures EntryFrame(ch, sn.log, s, sn.values, Enter(ch, sn, s).values)
  {
    forall d ensures EntersAt(ch, sn.log, s, sn.values, Enter(ch, sn, s).values, d) { EnterFrameAt(ch, sn, s, d); }
  }

  lemma ExitFrames(ch: Chart, sn: Snapshot, s: StateId)
    requires IsState(ch, s)
    ensures ExitFrame(ch, s, sn.values, Exit(ch, sn, s).values)
  {}

  lemma EnterTraced(ch: Chart, fuel: nat, sn: Snapshot, s: StateId)
    requires IsTree(ch) && IsState(ch, s) && Traced(ch, sn)
    ensures
      var p := RunStatement(fuel, ch.states[s].entry, Enter(ch, sn, s));
      p.Running? ==> Traced(ch, p.sn)
  {
    var entered := Enter(ch, sn, s);
    var p := RunStatement(fuel, ch.states[s].entry, entered);
    if p.Running? {
      EnterFrames(ch, sn, s);
      EnterValuesLogged(ch, sn, s);
      RunMeans(fuel, ch.states[s].entry, entered);
      LeavesSnoc(ch, sn.log, Entered(s, entered.values), sn.values, p.sn.values);
    }
  }

  lemma ExitTraced(ch: Chart, fuel: nat, sn: Snapshot, s: StateId)
    requires IsTree(ch) && IsState(ch, s) && Traced(ch, sn)
    ensures
      var p := RunStatement(fuel, ch.states[s].exit, sn);
      p.Running? ==> Traced(ch, Exit(ch, p.sn, s))
  {
    var p := RunStatement(fuel, ch.states[s].exit, sn);
    if p.Running? {
      RunMeans(fuel, ch.states[s].exit, sn);
      ExitFrames(ch, p.sn, s);
      ExitValuesLogged(ch, p.sn, s);
      LeavesSnoc(ch, sn.log, Exited(s, p.sn.values), sn.values, Exit(ch, p.sn, s).values);
    }
  }

  lemma ActTraced(ch: Chart, fuel: nat, sn: Snapshot, t: Transition)
    requires IsTree(ch) && Traced(ch, sn)
    ensures
      var p := RunStatement(fuel, t.action, sn.(log := sn.log + [Acted(t)]));
      p.Running? ==> Traced(ch, p.sn)
  {
    var acting := sn.(log := sn.log + [Acted(t)]);
    var p := RunStatement(fuel, t.action, acting);
    if p.Running? {
      RunMeans(fuel, t.action, acting);
      ActLogged(ch, sn, t, p.sn);
      LeavesAction(ch, sn, t, p.sn);
    }
  }

  lemma LeavesAction(ch: Chart, sn: Snapshot, t: Transition, sn': Snapshot)
    requires IsTree(ch) && Leaves(ch, sn.log, sn.values) && Means(t.action, sn.values, Done(sn'.values))
    requires sn'.log == sn.log + [Acted(t)]
    ensures Leaves(ch, sn'.log, sn'.values)
  {
    LeavesSnoc(ch, sn.log, Acted(t), sn.values, sn'.values);
  }

  lemma ActLogged(ch: Chart, sn: Snapshot, t: Transition, sn': Snapshot)
    requires ValuesLogged(ch, sn) && sn'.log == sn.log + [Acted(t)] && sn'.valueHistory == sn.valueHistory
    ensures ValuesLogged(ch, sn')
  {
    LogSnoc(ch, sn.log, Acted(t));
    forall x: StateId, d | IsState(ch, x) && d in ch.states[x].declarations
      ensures SavedValue(sn'.valueHistory, x, d) == LoggedValue(sn'.log, x, d)
    {
      assert SavedValue(sn.valueHistory, x, d) == LoggedValue(sn.log, x, d);
    }
  }

  lemma {:induction false} ExitUpTraced(ch: Chart, fuel: nat, sn: Snapshot, current: StateId, lub: StateId)
    requires IsTree(ch) && IsState(ch, current) && lub in Path(ch, current) && Traced(ch, sn)
    ensures
      var p := ExitUp(ch, fuel, sn, current, lub);
      p.Running? ==> Traced(ch, p.sn)
    decreases current
  {
    if current != lub {
      PathOfRoot(ch);
      ExitTraced(ch, fuel, sn, current);
      var p := RunStatement(fuel, ch.states[current].exit, sn);
      if p.Running? { ExitUpTraced(ch, fuel, Exit(ch, p.sn, current), Super(ch, current), lub); }
    }
  }

  lemma {:induction false} EnterDownTraced(ch: Chart, fuel: nat, sn: Snapshot, path: seq<StateId>)
    requires IsTree(ch) && AllStates(ch, path) && Traced(ch, sn)
    ensures
      var p := EnterDown(ch, fuel, sn, path);
      p.Running? ==> Traced(ch, p.sn)
    decreases |path|
  {
    if path != [] {
      EnterTraced(ch, fuel, sn, path[0]);
      var p := RunStatement(fuel, ch.states[path[0]].entry, Enter(ch, sn, path[0]));
      if p.Running? { EnterDownTraced(ch, fuel, p.sn, path[1..]); }
    }
  }

  lemma {:induction false} DescendTraced(ch: Chart, fuel: nat, sn: Snapshot, s: StateId)
    requires IsTree(ch) && IsState(ch, s) && HistoryValid(ch, sn) && Traced(ch, sn)
    ensures
      var l := Descend(ch, fuel, sn, s);
      l.Landed? ==> Traced(ch, l.sn)
    decreases |ch.states| - s
  {
    if ch.states[s].states != [] {
      var c := NextSubstate(ch, sn, s);
      EnterTraced(ch, fuel, sn, c);
      var p := RunStatement(fuel, ch.states[c].entry, Enter(ch, sn, c));
      if p.Running? { DescendTraced(ch, fuel, p.sn, c); }
    }
  }

  lemma PerformTraced(ch: Chart, fuel: nat, sn: Snapshot, curr: StateId, t: Transition)
    requires IsTree(ch) && IsState(ch, curr) && HasEnds(ch, t) && PlacedAtLub(ch, t) && t.placement in Path(ch, curr)
    requires Traced(ch, sn)
    ensures
      var p := Perform(ch, fuel, sn, curr, t);
      p.Running? ==> Traced(ch, p.sn)
  {
    LubIsDeepest(ch, t.source, t.destination);
    ExitUpTraced(ch, fuel, sn, curr, t.placement);
    var up := ExitUp(ch, fuel, sn, curr, t.placement);
    if up.Running? {
      ActTraced(ch, fuel, up.sn, t);
      var acted := RunStatement(fuel, t.action, up.sn.(log := up.sn.log + [Acted(t)]));
      if acted.Running? { EnterDownTraced(ch, fuel, acted.sn, Below(ch, t.placement, t.destination)); }
    }
  }

  lemma StepTraced(ch: Chart, fuel: nat, curr: StateId, sn: Snapshot, event: string)
    requires Typechecked(ch) && Stable(ch, sn, curr) && Leaves(ch, sn.log, sn.values)
    ensures
      var r := Step(ch, fuel, curr, sn, event);
      r.Next? ==> Leaves(ch, r.sn.log, r.sn.values)
  {
    var s := Select(ch, sn, curr, event);
    if s.Take? {
      StepTakes(ch, fuel, curr, sn, event, s.t);
      PerformTraced(ch, fuel, sn, curr, s.t);
      var p := Perform(ch, fuel, sn, curr, s.t);
      if p.Running? { AtomicTraced(ch, fuel, p.sn, s.t.destination, 0); }
    }
  }

  lemma {:induction false} RunTraced(ch: Chart, fuel: nat, curr: StateId, sn: Snapshot, events: seq<string>)
    requires Typechecked(ch) && Stable(ch, sn, curr) && Leaves(ch, sn.log, sn.values)
    ensures
      var r := Run(ch, fuel, curr, sn, events);
      r.Next? ==> Leaves(ch, r.sn.log, r.sn.values)
    decreases |events|
  {
    if events != [] {
      StepTraced(ch, fuel, curr, sn, events[0]);
      var r := Step(ch, fuel, curr, sn, events[0]);
      if r.Next? { RunTraced(ch, fuel, r.curr, r.sn, events[1..]); }
    }
  }

  // ----- The start -----

  lemma {:induction false} PopulateValues(sn: Snapshot, s: StateId, decls: seq<Declaration>, d: Declaration)
    ensures d in PopulateDecls(sn, s, decls).values <==> d in sn.values || (d in decls && !d.scope.Local?)
  {
    if decls != [] {
      var n := |decls| - 1;
      PopulateValues(sn, s, decls[..n], d);
      assert decls == decls[..n] + [decls[n]];
    }
  }

  ghost predicate OwnedShared(ch: Chart, states: seq<StateId>, d: Declaration) {
    !d.scope.Local? && exists s :: s in states && Owns(ch, s, d)
  }

  lemma {:induction false} PopulateAllValues(ch: Chart, sn: Snapshot, states: seq<StateId>, d: Declaration)
    requires AllStates(ch, states)
    ensures d in PopulateAll(ch, sn, states).values <==> d in sn.values || OwnedShared(ch, states, d)
    decreases |states|
  {
    if states != [] {
      var s, rest := states[0], states[1..];
      PopulateValues(sn, s, ch.states[s].declarations, d);
      PopulateAllValues(ch, PopulateDecls(sn, s, ch.states[s].declarations), rest, d);
      assert states == [s] + rest;
      assert Owns(ch, s, d) <==> d in ch.states[s].declarations;
    }
  }

  lemma InitialHas(ch: Chart, d: Declaration)
    requires IsTree(ch)
    ensures d in Initial(ch).values <==> !d.scope.Local? && exists s :: Owns(ch, s, d) && IsPopulated(ch, s)
  {
    var children, decls := ch.states[ROOT].states, ch.states[ROOT].declarations;
    assert forall i | 0 <= i < |children| :: IsChild(ch, ROOT, children[i]);
    PopulateValues(EMPTY, ROOT, decls, d);
    PopulateAllValues(ch, PopulateDecls(EMPTY, ROOT, decls), children, d);
    assert Owns(ch, ROOT, d) <==> d in decls;
    forall s | s in children ensures IsState(ch, s) && IsPopulated(ch, s) { assert IsChild(ch, ROOT, s); }
    assert forall s: StateId | IsState(ch, s) && IsPopulated(ch, s) :: s == ROOT || s in children;
  }

  lemma InitialTraced(ch: Chart)
    requires WellLinked(ch)
    ensures Traced(ch, Initial(ch))
  {
    InitialBlank(ch);
    var v := Initial(ch).values;
    forall d
      ensures d in v <==> !d.scope.Local? && exists s :: Owns(ch, s, d) && IsPopulated(ch, s)
      ensures d in v ==> v[d] == None
    {
      InitialHas(ch, d);
    }
  }

  lemma AtomicTraced(ch: Chart, fuel: nat, sn: Snapshot, s: StateId, tag: int)
    requires IsTree(ch) && IsState(ch, s) && HistoryValid(ch, sn) && Traced(ch, sn)
    ensures
      var l := AtomicState(ch, fuel, sn, s, tag);
      l.Landed? ==> Traced(ch, l.sn)
  {
    if tag == 1 {
      EnterTraced(ch, fuel, sn, s);
      var p := RunStatement(fuel, ch.states[s].entry, Enter(ch, sn, s));
      if p.Running? { DescendTraced(ch, fuel, p.sn, s); }
    } else {
      DescendTraced(ch, fuel, sn, s);
    }
  }

  lemma StartTraced(ch: Chart, fuel: nat)
    requires Typechecked(ch) && StaticsPopulated(ch)
    ensures
      var s := Start(ch, fuel);
      s.Next? ==> Leaves(ch, s.sn.log, s.sn.values)
  {
    InitialInv(ch);
    InitialTraced(ch);
    AtomicTraced(ch, fuel, Initial(ch), ROOT, 1);
  }

  // ----- Whole runs -----

  /** In every reachable state the valuation is the one that its log leaves: each entry sets the state's
      locals and statics and then the entry statement is executed once; each exit comes after the exit
      statement was executed once on what the event before it left, and removes the state's locals;
      each action is executed once. */
  lemma ReachableTraced(ch: Chart, fuel: nat, events: seq<string>, curr: StateId, sn: Snapshot)
    requires Typechecked(ch) && StaticsPopulated(ch) && ReachedBy(ch, fuel, events, curr, sn)
    ensures Leaves(ch, sn.log, sn.values)
  {
    StartTraced(ch, fuel);
    var s := Start(ch, fuel);
    RunTraced(ch, fuel, s.curr, s.sn, events);
  }

  /** The same, event by event. */
  lemma {:induction false} LeavesAt(ch: Chart, log: seq<Event>, v: Store, i: nat)
    returns (before: Store, after: Store)
    requires IsTree(ch) && Leaves(ch, log, v) && i < |log|
    ensures Leaves(ch, log[..i], before) && EventMakes(ch, log[..i], log[i], before, after)
    ensures Leaves(ch, log[..i + 1], after)
  {
    var n := |log| - 1;
    var u :| LeavesFrom(ch, log, u, v);
    if i == n {
      before, after := u, v;
      assert log[..n + 1] == log;
    } else {
      before, after := LeavesAt(ch, log[..n], u, i);
      assert log[..n][..i] == log[..i] && log[..n][..i + 1] == log[..i + 1];
    }
  }

  // ----- Values that survive -----

  /** The event neither owns the variable nor runs a statement that may write it. */
  ghost predicate Untouching(ch: Chart, e: Event, d: Declaration)
    requires IsTree(ch)
  {
    !e.Acted? && IsState(ch, e.s) && d.owner !in Path(ch, e.s)
  }

  lemma StateStatementKeeps(ch: Chart, s: StateId, body: Statement, u: Store, v: Store, d: Declaration)
    requires WellLinked(ch) && IsState(ch, s) && d.owner !in Path(ch, s)
    requires TypecheckStatement(body, EnvironmentOf(ch, s), EnvironmentOf(ch, s)) && Means(body, u, Done(v))
    ensures SameAt(u, v, d)
  {
    var env := EnvironmentOf(ch, s);
    var t :| Derives(t, body, u, Done(v));
    var fuel := DerivedExecutes(t, body, u, Done(v));
    ExecutionWrites(fuel, body, u, env, env);
    StateWrites(ch, s);
    assert !Declares(env, d);
  }

  lemma UntouchingKeeps(ch: Chart, before: seq<Event>, e: Event, u: Store, v: Store, d: Declaration)
    requires Typechecked(ch) && EventMakes(ch, before, e, u, v) && Untouching(ch, e, d)
    ensures SameAt(u, v, d)
  {
    assert TypecheckState(ch, e.s);
    assert e.s in Path(ch, e.s);
    assert !Owns(ch, e.s, d);
    match e
    case Entered(s, w) =>
      assert EntersAt(ch, before, s, u, w, d);
      StateStatementKeeps(ch, s, ch.states[s].entry, w, v, d);
    case Exited(s, w) =>
      StateStatementKeeps(ch, s, ch.states[s].exit, u, w, d);
      assert ExitsAt(ch, s, w, v, d);
  }

  /** A variable keeps its value over events that do not touch it. */
  lemma {:induction false} SpanKeeps(ch: Chart, log: seq<Event>, v: Store, i: nat, u: Store, d: Declaration)
    requires Typechecked(ch) && Leaves(ch, log, v) && i <= |log| && Leaves(ch, log[..i], u)
    requires forall k | i <= k < |log| :: Untouching(ch, log[k], d)
    ensures SameAt(u, v, d)
    decreases |log|
  {
    if i == |log| {
      assert log[..i] == log;
      LeavesUnique(ch, log, u, v);
    } else {
      var n := |log| - 1;
      var mid :| LeavesFrom(ch, log, mid, v);
      assert log[..n][..i] == log[..i];
      SpanKeeps(ch, log[..n], mid, i, u, d);
      UntouchingKeeps(ch, log[..n], log[n], mid, v, d);
    }
  }

  lemma SpanBetween(ch: Chart, log: seq<Event>, i: nat, u: Store, j: nat, v: Store, d: Declaration)
    requires Typechecked(ch) && i <= j <= |log| && Leaves(ch, log[..i], u) && Leaves(ch, log[..j], v)
    requires forall k | i <= k < j :: Untouching(ch, log[k], d)
    ensures SameAt(u, v, d)
  {
    assert log[..j][..i] == log[..i];
    SpanKeeps(ch, log[..j], v, i, u, d);
  }

  // ----- Values over a step -----

  /** What a round appends to the log: exits innermost first, the action, entries outermost first. */
  ghost predicate Appends(log: seq<Event>, log': seq<Event>, left: seq<StateId>, t: Transition, entered: seq<StateId>) {
    Marks(log') == Marks(log) + Outs(left) + [Act(t)] + Ins(entered)
  }

  lemma AppendedLength(log: seq<Event>, log': seq<Event>, left: seq<StateId>, t: Transition, entered: seq<StateId>)
    requires Appends(log, log', left, t, entered)
    ensures |log'| == |log| + |left| + 1 + |entered| && log'[|log| + |left|] == Acted(t)
  {
    var n := |log| + |left|;
    assert |Marks(log')| == |log'|;
    assert Marks(log')[n] == Act(t) && Marks(log')[n] == MarkOf(log'[n]);
  }

  lemma AppendedExit(log: seq<Event>, log': seq<Event>, left: seq<StateId>, t: Transition, entered: seq<StateId>,
                     i: nat)
    requires Appends(log, log', left, t, entered) && i < |left|
    ensures |log| + i < |log'| && log'[|log| + i].Exited? && log'[|log| + i].s == left[|left| - 1 - i]
  {
    AppendedLength(log, log', left, t, entered);
    assert Marks(log')[|log| + i] == Outs(left)[i] && Marks(log')[|log| + i] == MarkOf(log'[|log| + i]);
  }

  lemma AppendedEntry(log: seq<Event>, log': seq<Event>, left: seq<StateId>, t: Transition, entered: seq<StateId>,
                      i: nat)
    requires Appends(log, log', left, t, entered) && i < |entered|
    ensures
      var k := |log| + |left| + 1 + i;
      k < |log'| && log'[k].Entered? && log'[k].s == entered[i]
  {
    var k := |log| + |left| + 1 + i;
    AppendedLength(log, log', left, t, entered);
    assert Marks(log')[k] == Ins(entered)[i] && Marks(log')[k] == MarkOf(log'[k]);
  }

  /** The states strictly below `lub` on a path come in order: a later one is not above an earlier. */
  lemma BelowOrdered(ch: Chart, lub: StateId, s: StateId, i: nat, j: nat)
    requires IsTree(ch) && IsState(ch, s) && lub in Path(ch, s) && i < j < |Below(ch, lub, s)|
    ensures IsState(ch, Below(ch, lub, s)[i]) && Below(ch, lub, s)[j] !in Path(ch, Below(ch, lub, s)[i])
  {
    OnPath(ch, lub, s);
    PathStrict(ch, s);
    var n := |Path(ch, lub)|;
    assert Below(ch, lub, s)[i] == Path(ch, s)[n + i] && Below(ch, lub, s)[j] == Path(ch, s)[n + j];
    OnPath(ch, Path(ch, s)[n + i], s);
  }

  /** The exits after event m touch no variable of the state that event m exits. */
  lemma ExitsUntouching(ch: Chart, log: seq<Event>, log': seq<Event>, left: seq<StateId>, t: Transition,
                        entered: seq<StateId>, lub: StateId, curr: StateId, m: nat, n: nat, d: Declaration)
    requires IsTree(ch) && IsState(ch, curr) && lub in Path(ch, curr) && left == Below(ch, lub, curr)
    requires Appends(log, log', left, t, entered)
    requires |log| <= m < n == |log| + |left| && d.owner == left[n - 1 - m]
    ensures n < |log'| && forall k | m < k < n :: Untouching(ch, log'[k], d)
  {
    AppendedLength(log, log', left, t, entered);
    forall k | m < k < n ensures Untouching(ch, log'[k], d) {
      AppendedExit(log, log', left, t, entered, k - |log|);
      BelowOrdered(ch, lub, curr, n - 1 - k, n - 1 - m);
    }
  }

  /** The entries before event k touch no variable of the state that event k enters. */
  lemma EntriesUntouching(ch: Chart, log: seq<Event>, log': seq<Event>, left: seq<StateId>, t: Transition,
                          entered: seq<StateId>, lub: StateId, curr: StateId, n: nat, k: nat, d: Declaration)
    requires IsTree(ch) && IsState(ch, curr) && lub in Path(ch, curr) && entered == Below(ch, lub, curr)
    requires Appends(log, log', left, t, entered)
    requires n == |log| + |left| && n < k <= n + |entered| && d.owner == entered[k - n - 1]
    ensures k < |log'| && forall j | n < j < k :: Untouching(ch, log'[j], d)
  {
    AppendedLength(log, log', left, t, entered);
    forall j | n < j < k ensures Untouching(ch, log'[j], d) {
      AppendedEntry(log, log', left, t, entered, j - n - 1);
      BelowOrdered(ch, lub, curr, j - n - 1, k - n - 1);
    }
  }

  /** Right after an exit, every variable but the locals of the state has the value logged. */
  lemma AfterExit(ch: Chart, log: seq<Event>, v: Store, m: nat, d: Declaration) returns (after: Store)
    requires IsTree(ch) && Leaves(ch, log, v) && m < |log| && log[m].Exited? && !d.scope.Local?
    ensures Leaves(ch, log[..m + 1], after) && SameAt(log[m].values, after, d)
  {
    var u, u' := LeavesAt(ch, log, v, m);
    after := u';
    assert ExitsAt(ch, log[m].s, log[m].values, after, d);
  }

  /** Right before an entry, every parameter has the value logged. */
  lemma BeforeEntry(ch: Chart, log: seq<Event>, v: Store, k: nat, d: Declaration) returns (before: Store)
    requires IsTree(ch) && Leaves(ch, log, v) && k < |log| && log[k].Entered? && d.scope.Parameter?
    ensures Leaves(ch, log[..k], before) && SameAt(before, log[k].values, d)
  {
    var u, u' := LeavesAt(ch, log, v, k);
    before := u;
    assert EntersAt(ch, log[..k], log[k].s, before, log[k].values, d);
  }

  lemma {:induction false} LeavesPrefix(ch: Chart, log: seq<Event>, v: Store, n: nat) returns (u: Store)
    requires IsTree(ch) && Leaves(ch, log, v) && n <= |log|
    ensures Leaves(ch, log[..n], u)
  {
    u := v;
    assert log[..|log|] == log;
    if n < |log| {
      var before, after := LeavesAt(ch, log, v, n);
      u := before;
    }
  }

  /** The statics and parameters of a state left, from its exit to event n. */
  lemma ExitToEvent(ch: Chart, log: seq<Event>, v: Store, m: nat, n: nat, d: Declaration) returns (there: Store)
    requires Typechecked(ch) && Leaves(ch, log, v) && m < n <= |log| && log[m].Exited? && !d.scope.Local?
    requires forall k | m < k < n :: Untouching(ch, log[k], d)
    ensures Leaves(ch, log[..n], there) && SameAt(log[m].values, there, d)
  {
    var after := AfterExit(ch, log, v, m, d);
    there := LeavesPrefix(ch, log, v, n);
    SpanBetween(ch, log, m + 1, after, n, there, d);
  }

  /** The parameters of a state entered, from event m to its entry. */
  lemma EventToEntry(ch: Chart, log: seq<Event>, v: Store, m: nat, n: nat, d: Declaration) returns (there: Store)
    requires Typechecked(ch) && Leaves(ch, log, v) && m < n < |log| && log[n].Entered? && d.scope.Parameter?
    requires forall k | m < k < n :: Untouching(ch, log[k], d)
    ensures Leaves(ch, log[..m + 1], there) && SameAt(there, log[n].values, d)
  {
    there := LeavesPrefix(ch, log, v, m + 1);
    var before := BeforeEntry(ch, log, v, n, d);
    SpanBetween(ch, log, m + 1, there, n, before, d);
  }

  lemma OwnerIs(ch: Chart, s: StateId, d: Declaration)
    requires WellLinked(ch) && Owns(ch, s, d)
    ensures d.owner == s
  {}

  /** What a state left keeps: when the action starts (event n), the statics and parameters of a state
      that the round left (event m) have the values they had when it was left. */
  lemma LeftValuesKept(ch: Chart, log: seq<Event>, log': seq<Event>, left: seq<StateId>, t: Transition,
                       entered: seq<StateId>, lub: StateId, curr: StateId, v: Store, m: nat, n: nat, d: Declaration)
    returns (acting: Store)
    requires Typechecked(ch) && IsState(ch, curr) && lub in Path(ch, curr) && Leaves(ch, log', v)
    requires left == Below(ch, lub, curr) && Appends(log, log', left, t, entered)
    requires |log| <= m < n == |log| + |left| && !d.scope.Local? && Owns(ch, left[n - 1 - m], d)
    ensures n < |log'| && log'[m].Exited?
    ensures Leaves(ch, log'[..n], acting) && SameAt(log'[m].values, acting, d)
  {
    AppendedLength(log, log', left, t, entered);
    AppendedExit(log, log', left, t, entered, m - |log|);
    OwnerIs(ch, left[n - 1 - m], d);
    ExitsUntouching(ch, log, log', left, t, entered, lub, curr, m, n, d);
    acting := ExitToEvent(ch, log', v, m, n, d);
  }

  /** What reaches a state entered: its parameters have, when its entry statement starts (event k), the
      values that the action left in them (event n). */
  lemma ParametersArrive(ch: Chart, log: seq<Event>, log': seq<Event>, left: seq<StateId>, t: Transition,
                         entered: seq<StateId>, lub: StateId, curr: StateId, v: Store, n: nat, k: nat, d: Declaration)
    returns (acted: Store)
    requires Typechecked(ch) && IsState(ch, curr) && lub in Path(ch, curr) && Leaves(ch, log', v)
    requires entered == Below(ch, lub, curr) && Appends(log, log', left, t, entered)
    requires n == |log| + |left| && n < k <= n + |entered| && d.scope.Parameter? && Owns(ch, entered[k - n - 1], d)
    ensures k < |log'| && log'[k].Entered?
    ensures Leaves(ch, log'[..n + 1], acted) && SameAt(acted, log'[k].values, d)
  {
    AppendedLength(log, log', left, t, entered);
    AppendedEntry(log, log', left, t, entered, k - n - 1);
    OwnerIs(ch, entered[k - n - 1], d);
    EntriesUntouching(ch, log, log', left, t, entered, lub, curr, n, k, d);
    acted := EventToEntry(ch, log', v, n, k, d);
  }

  /** A round appends to the log the exits below the LUB, the action and the entries below the LUB, and
      its valuation is what they leave. */
  lemma RoundTraced(ch: Chart, fuel: nat, events: seq<string>, curr: StateId, sn: Snapshot, event: string)
    requires Typechecked(ch) && StaticsPopulated(ch) && ReachedBy(ch, fuel, events, curr, sn)
    requires Step(ch, fuel, curr, sn, event).Next? && Select(ch, sn, curr, event).Take?
    ensures
      var r, t := Step(ch, fuel, curr, sn, event), Select(ch, sn, curr, event).t;
      && t.placement in Path(ch, curr) && t.placement in Path(ch, r.curr) && t.destination in Path(ch, r.curr)
      && Appends(sn.log, r.sn.log, Below(ch, t.placement, curr), t, Below(ch, t.placement, r.curr))
      && Leaves(ch, r.sn.log, r.sn.values)
  {
    ReachableTraced(ch, fuel, events, curr, sn);
    StepTraced(ch, fuel, curr, sn, event);
    StepOrder(ch, fuel, curr, sn, event);
  }
}
