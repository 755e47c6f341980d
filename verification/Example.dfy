/** A chart that meets every assumption of the theorems about runs, and a run of it. */
module Example {
  import opened Ast
  import opened Environments
  import opened Evaluation
  import opened Hierarchy
  import opened Typechecker
  import opened ExecutionStates
  import opened Simulation
  import opened Invariants
  import opened Runs
  import opened Entries

  const SKIP := StatementList([])
  const TRUE := Literal(BooleanConstant(true))
  const COUNT := Declaration(0, "count", Static, IntType)
  const SEEN := Declaration(1, "seen", Local, BooleanType)

  /** On "toggle" the chart goes from its first substate to its second and sets a static variable. */
  const TOGGLE := Transition("t", 1, 2, "toggle", TRUE, Assignment("count", COUNT, Literal(IntegerConstant(1))), 0)
  const SWITCH := Chart([
      State("Switch", None, [1, 2], [TOGGLE], [COUNT], SKIP, SKIP, false, false, false),
      State("Off", Some(0), [], [], [SEEN], SKIP, SKIP, false, false, false),
      State("On", Some(0), [], [], [], SKIP, SKIP, false, false, false)
    ], ["toggle"])

  lemma SwitchIsTree()
    ensures IsTree(SWITCH)
  {
    var states := SWITCH.states;
    assert states[0].states == [1, 2] && states[1].states == [] && states[2].states == [];
    assert IsChild(SWITCH, 0, 1) && IsChild(SWITCH, 0, 2);
    assert [1, 2][0] == 1 && [1, 2][1] == 2;
  }

  lemma SwitchIsLinked()
    ensures WellLinked(SWITCH)
  {
    SwitchIsTree();
    assert |SWITCH.states| == 3;
  }

  lemma SwitchPaths()
    ensures IsTree(SWITCH)
    ensures Supers(SWITCH, 0) == [] && Supers(SWITCH, 1) == [0] && Supers(SWITCH, 2) == [0]
  {
    SwitchIsTree();
    assert Super(SWITCH, 1) == 0 && Super(SWITCH, 2) == 0;
  }

  lemma SkipChecks(env: Env)
    ensures TypecheckStatement(SKIP, env, env)
  {}

  lemma DistinctFour(a: string, b: string, c: string, d: string)
    requires a != b && a != c && a != d && b != c && b != d && c != d
    ensures NoDuplicates([a, b, c]) && NoDuplicates([a, b, c, d])
  {}

  lemma SwitchNames(s: StateId)
    requires s < 3
    ensures IsTree(SWITCH) && IsState(SWITCH, s) && NoDuplicates(NamesOf(SWITCH, s))
  {
    SwitchIsTree();
    if s == 0 {
      assert VariableNames([COUNT]) == ["count"] && TransitionNames([TOGGLE]) == ["t"];
      assert StateNames(SWITCH, [1, 2]) == ["Off", "On"];
      assert NamesOf(SWITCH, 0) == ["count", "Off", "On", "t"];
      DistinctFour("count", "Off", "On", "t");
    } else {
      assert |NamesOf(SWITCH, s)| <= 1;
    }
  }

  lemma SwitchStateChecks(s: StateId)
    requires s < 3
    ensures WellLinked(SWITCH) && IsState(SWITCH, s) && TypecheckState(SWITCH, s)
  {
    SwitchIsLinked();
    SwitchNames(s);
    ToggleChecks();
    SkipChecks(EnvironmentOf(SWITCH, s));
    assert forall t | t in SWITCH.states[s].transitions :: t == TOGGLE;
  }

  lemma SwitchIsTypechecked()
    ensures Typechecked(SWITCH)
  {
    SwitchIsLinked();
    assert |SWITCH.states| == 3;
    forall s | 0 <= s < 3 ensures TypecheckState(SWITCH, s) { SwitchStateChecks(s); }
  }

  lemma ToggleChecks()
    ensures IsTree(SWITCH) && TypecheckTransition(SWITCH, TOGGLE)
  {
    SwitchPaths();
    assert LastCommon([0], [0]) == Some(0);
    WriteLookup(SWITCH, TOGGLE, "count");
    assert Lookup(EnvironmentOf(SWITCH, 0), "count") == Some(COUNT);
  }

  /** Only the statechart has a static variable, and it is populated. */
  lemma SwitchIsPopulated()
    ensures WellLinked(SWITCH) && StaticsPopulated(SWITCH)
    ensures Initial(SWITCH) == Snapshot([], map[COUNT := None], map[], map[0 := map[COUNT := None]], [])
  {
    SwitchIsLinked();
    InitialBlank(SWITCH);
    forall s | 0 <= s < |SWITCH.states| && HasStatic(SWITCH.states[s].declarations)
      ensures IsPopulated(SWITCH, s)
    {
      assert s == 0 || s == 1 || s == 2;
    }
    var sn := PopulateDecls(EMPTY, 0, [COUNT]);
    assert [COUNT][..0] == [];
    assert PopulateDecls(EMPTY, 0, []) == EMPTY;
    assert sn == Snapshot([], map[COUNT := None], map[], map[0 := map[COUNT := None]], []);
    assert [SEEN][..0] == [];
    assert PopulateDecls(sn, 1, [SEEN]) == sn;
    assert PopulateAll(SWITCH, sn, [2]) == sn;
    assert [1, 2][1..] == [2];
    assert PopulateAll(SWITCH, sn, [1, 2]) == sn;
  }

  lemma SkipKeeps(fuel: nat, sn: Snapshot)
    ensures RunStatement(fuel, SKIP, sn) == Running(sn)
  {
    assert ExecuteList(fuel, [], sn.values) == Done(sn.values);
    assert Execute(fuel, SKIP, sn.values) == Done(sn.values);
  }

  /** The first substate, active with a null local. */
  predicate Off(sn: Snapshot) {
    sn.config == [0, 1] && sn.history == map[] && sn.values == map[COUNT := None, SEEN := None]
  }

  lemma SwitchDescends(fuel: nat, sn: Snapshot)
    requires sn.config == [0] && sn.history == map[] && sn.values == map[COUNT := None]
    ensures IsTree(SWITCH) && HistoryValid(SWITCH, sn)
    ensures Descend(SWITCH, fuel, sn, 0) == Landed(1, Enter(SWITCH, sn, 1))
    ensures Off(Enter(SWITCH, sn, 1))
  {
    SwitchIsTree();
    var off := Enter(SWITCH, sn, 1);
    assert EntryValues([SEEN], sn.valueHistory, 1) == map[SEEN := None];
    SkipKeeps(fuel, off);
    assert Descend(SWITCH, fuel, off, 1) == Landed(1, off);
  }

  /** The start: the statechart and its first substate are active, the local is null. */
  lemma SwitchStarts(fuel: nat)
    ensures Typechecked(SWITCH) && StaticsPopulated(SWITCH)
    ensures
      var r := Start(SWITCH, fuel);
      r.Next? && r.curr == 1 && Off(r.sn)
  {
    SwitchIsTypechecked();
    SwitchIsPopulated();
    var sn := Enter(SWITCH, Initial(SWITCH), 0);
    assert EntryValues([COUNT], map[0 := map[COUNT := None]], 0) == map[COUNT := None];
    SkipKeeps(fuel, sn);
    SwitchDescends(fuel, sn);
    assert AtomicState(SWITCH, fuel, Initial(SWITCH), 0, 1) == Landed(1, Enter(SWITCH, sn, 1));
  }

  lemma ToggleIsSelected(sn: Snapshot)
    requires sn.config == [0, 1]
    ensures IsTree(SWITCH) && Select(SWITCH, sn, 1, "toggle") == Take(TOGGLE)
  {
    SwitchPaths();
    assert ViableOf(sn, "toggle", []) == [];
    assert Viable(sn, "toggle", TOGGLE);
    assert [TOGGLE][1..] == [];
    assert ViableOf(sn, "toggle", [TOGGLE]) == [TOGGLE];
    assert Walk(SWITCH, sn, "toggle", 0) == [TOGGLE];
    assert Walk(SWITCH, sn, "toggle", 1) == [TOGGLE];
  }

  /** After the exit: the local is gone, and the history remembers the substate. */
  predicate Left(sn: Snapshot) {
    sn.config == [0] && sn.history == map[Some(0) := 1] && sn.values == map[COUNT := None]
  }

  lemma OffIsLeft(fuel: nat, sn: Snapshot)
    requires Off(sn)
    ensures IsTree(SWITCH) && 0 in Path(SWITCH, 1)
    ensures
      var p := ExitUp(SWITCH, fuel, sn, 1, 0);
      p.Running? && Left(p.sn)
  {
    SwitchPaths();
    SkipKeeps(fuel, sn);
    var out := Exit(SWITCH, sn, 1);
    assert [0, 1][1..] == [1] && RemoveFirst([1], 1) == [];
    assert Left(out);
    assert ExitUp(SWITCH, fuel, out, 0, 0) == Running(out);
  }

  /** The second substate is current after a toggle. */
  predicate On(sn: Snapshot) {
    && sn.config == [0, 2]
    && sn.history == map[Some(0) := 1]
    && sn.values == map[COUNT := Some(IntegerConstant(1))]
  }

  lemma OnIsEntered(fuel: nat, sn: Snapshot)
    requires sn.config == [0] && sn.history == map[Some(0) := 1]
    requires sn.values == map[COUNT := Some(IntegerConstant(1))]
    ensures
      var p := EnterDown(SWITCH, fuel, sn, [2]);
      p.Running? && On(p.sn)
  {
    var on := Enter(SWITCH, sn, 2);
    assert EntryValues([], sn.valueHistory, 2) == map[];
    SkipKeeps(fuel, on);
    assert [2][1..] == [];
    assert EnterDown(SWITCH, fuel, on, []) == Running(on);
  }

  lemma ToggleIsPerformed(fuel: nat, sn: Snapshot)
    requires Off(sn)
    ensures IsTree(SWITCH) && PlacedAtLub(SWITCH, TOGGLE) && 0 in Path(SWITCH, 1)
    ensures
      var p := Perform(SWITCH, fuel, sn, 1, TOGGLE);
      p.Running? && On(p.sn)
  {
    SwitchPaths();
    ToggleChecks();
    OffIsLeft(fuel, sn);
    var out := ExitUp(SWITCH, fuel, sn, 1, 0).sn;
    var acted := RunStatement(fuel, TOGGLE.action, out.(log := out.log + [Acted(TOGGLE)]));
    assert acted.Running? && acted.sn.values == map[COUNT := Some(IntegerConstant(1))];
    OnIsEntered(fuel, acted.sn);
    assert Below(SWITCH, 0, 2) == [2];
  }

  lemma OnIsAtomic(fuel: nat, sn: Snapshot)
    requires On(sn)
    ensures IsTree(SWITCH) && HistoryValid(SWITCH, sn) && AtomicState(SWITCH, fuel, sn, 2, 0) == Landed(2, sn)
  {
    SwitchIsTree();
  }

  lemma ToggleIsStepped(fuel: nat, sn: Snapshot)
    requires Typechecked(SWITCH) && Stable(SWITCH, sn, 1) && Off(sn)
    ensures
      var r := Step(SWITCH, fuel, 1, sn, "toggle");
      r.Next? && r.curr == 2 && On(r.sn)
  {
    ToggleIsSelected(sn);
    ToggleIsPerformed(fuel, sn);
    var p := Perform(SWITCH, fuel, sn, 1, TOGGLE);
    OnIsAtomic(fuel, p.sn);
  }

  lemma RunOfOne(ch: Chart, fuel: nat, curr: StateId, sn: Snapshot, event: string)
    requires Typechecked(ch) && Stable(ch, sn, curr)
    ensures Run(ch, fuel, curr, sn, [event]) == Step(ch, fuel, curr, sn, event)
  {
    var r := Step(ch, fuel, curr, sn, event);
    assert [event][0] == event && [event][1..] == [];
    if r.Next? { assert Run(ch, fuel, r.curr, r.sn, []) == r; }
  }

  /** A run: "toggle" leaves the first substate for the second. */
  lemma SwitchToggles(fuel: nat)
    ensures Typechecked(SWITCH) && StaticsPopulated(SWITCH)
    ensures exists sn :: ReachedBy(SWITCH, fuel, ["toggle"], 2, sn) && On(sn)
  {
    SwitchStarts(fuel);
    var s := Start(SWITCH, fuel);
    ToggleIsStepped(fuel, s.sn);
    var r := Step(SWITCH, fuel, 1, s.sn, "toggle");
    RunOfOne(SWITCH, fuel, 1, s.sn, "toggle");
    assert ReachedBy(SWITCH, fuel, ["toggle"], 2, r.sn);
  }

  // ----- A static variable too deep -----

  const TOTAL := Declaration(2, "total", Static, IntType)

  /** The static variable sits two levels below the statechart. */
  const DEEP := Chart([
      State("Deep", None, [1], [], [], SKIP, SKIP, false, false, false),
      State("Outer", Some(0), [2], [], [], SKIP, SKIP, false, false, false),
      State("Inner", Some(1), [], [], [TOTAL], SKIP, SKIP, false, false, false)
    ], [])

  lemma DeepIsTree()
    ensures IsTree(DEEP)
  {
    var states := DEEP.states;
    assert states[0].states == [1] && states[1].states == [2] && states[2].states == [];
    assert IsChild(DEEP, 0, 1) && IsChild(DEEP, 1, 2);
  }

  lemma DeepIsTypechecked()
    ensures Typechecked(DEEP)
  {
    DeepIsTree();
    assert |DEEP.states| == 3;
    forall s | 0 <= s < |DEEP.states| ensures TypecheckState(DEEP, s) {
      assert s == 0 || s == 1 || s == 2;
      SkipChecks(EnvironmentOf(DEEP, s));
    }
  }

  lemma DeepInitial()
    ensures IsTree(DEEP) && Initial(DEEP) == EMPTY
  {
    DeepIsTree();
    assert [1][1..] == [];
    assert PopulateAll(DEEP, EMPTY, []) == EMPTY;
    assert PopulateAll(DEEP, EMPTY, [1]) == EMPTY;
  }

  /** Entering the two outer states only adds to configuration and log. */
  lemma DeepEnters(fuel: nat, sn: Snapshot, path: seq<StateId>)
    requires path == [0, 1] || path == [1] || path == []
    requires LastExit(sn.log, 2) == None && sn.history == map[]
    ensures
      var p := EnterDown(DEEP, fuel, sn, path);
      p.Running? && LastExit(p.sn.log, 2) == None && p.sn.history == map[]
    decreases |path|
  {
    if path != [] {
      var entered := Enter(DEEP, sn, path[0]);
      LastExitSnoc(sn.log, Entered(path[0], entered.values), 2);
      SkipKeeps(fuel, entered);
      DeepEnters(fuel, entered, path[1..]);
    }
  }

  /** The checker accepts this chart, and its start dereferences null: after the first two entries the
      descent enters the state with the deep static variable. */
  lemma DeepThrows(fuel: nat) returns (sn: Snapshot)
    ensures Typechecked(DEEP) && ReachedThrough(DEEP, fuel, [Entering([0, 1])], sn)
    ensures HistoryValid(DEEP, sn) && NextSubstate(DEEP, sn, 1) == 2
    ensures EnterThrows(DEEP, sn, 2)
  {
    DeepIsTypechecked();
    DeepInitial();
    DeepEnters(fuel, EMPTY, [0, 1]);
    var phases := [Entering([0, 1])];
    sn := EnterDown(DEEP, fuel, Initial(DEEP), [0, 1]).sn;
    assert phases[..0] == [];
    assert LastPhase(DEEP, fuel, phases, Initial(DEEP), sn);
    EnterThrowsExactly(DEEP, fuel, phases, sn, 2);
  }
}
