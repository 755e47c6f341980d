/** A history state at work: left while its second substate was active, it resumes that one. */
module HistoryExample {
  import opened Ast
  import opened Hierarchy
  import opened Typechecker
  import opened ExecutionStates
  import opened Simulation
  import opened Invariants
  import opened Runs
  import opened Resumption
  import opened Example

  // ----- Charts whose statements do nothing -----

  ghost predicate Quiet(ch: Chart) {
    && (forall s | 0 <= s < |ch.states| :: ch.states[s].entry == SKIP && ch.states[s].exit == SKIP)
    && (forall t | InChart(ch, t) :: t.action == SKIP)
  }

  lemma {:induction false} ExitUpRuns(ch: Chart, fuel: nat, sn: Snapshot, current: StateId, lub: StateId)
    requires IsTree(ch) && Quiet(ch) && IsState(ch, current) && lub in Path(ch, current)
    ensures ExitUp(ch, fuel, sn, current, lub).Running?
    decreases current
  {
    if current != lub {
      PathOfRoot(ch);
      SkipKeeps(fuel, sn);
      ExitUpRuns(ch, fuel, Exit(ch, sn, current), Super(ch, current), lub);
    }
  }

  lemma {:induction false} EnterDownRuns(ch: Chart, fuel: nat, sn: Snapshot, path: seq<StateId>)
    requires Quiet(ch) && AllStates(ch, path)
    ensures EnterDown(ch, fuel, sn, path).Running?
    decreases |path|
  {
    if path != [] {
      var entered := Enter(ch, sn, path[0]);
      SkipKeeps(fuel, entered);
      EnterDownRuns(ch, fuel, entered, path[1..]);
    }
  }

  lemma {:induction false} DescendLands(ch: Chart, fuel: nat, sn: Snapshot, s: StateId)
    requires IsTree(ch) && Quiet(ch) && IsState(ch, s) && HistoryValid(ch, sn)
    ensures Descend(ch, fuel, sn, s).Landed?
    decreases |ch.states| - s
  {
    if ch.states[s].states != [] {
      var c := NextSubstate(ch, sn, s);
      SkipKeeps(fuel, Enter(ch, sn, c));
      DescendLands(ch, fuel, Enter(ch, sn, c), c);
    }
  }

  lemma PerformRuns(ch: Chart, fuel: nat, sn: Snapshot, curr: StateId, t: Transition)
    requires IsTree(ch) && Quiet(ch) && IsState(ch, curr) && HasEnds(ch, t) && PlacedAtLub(ch, t) && InChart(ch, t)
    requires t.placement in Path(ch, curr)
    ensures Perform(ch, fuel, sn, curr, t).Running?
  {
    LubIsDeepest(ch, t.source, t.destination);
    ExitUpRuns(ch, fuel, sn, curr, t.placement);
    var up := ExitUp(ch, fuel, sn, curr, t.placement).sn;
    var acting := up.(log := up.log + [Acted(t)]);
    SkipKeeps(fuel, acting);
    EnterDownRuns(ch, fuel, acting, Below(ch, t.placement, t.destination));
  }

  /** In such a chart a round ends whenever one transition may fire. */
  lemma QuietStep(ch: Chart, fuel: nat, curr: StateId, sn: Snapshot, event: string, t: Transition)
    requires Typechecked(ch) && Quiet(ch) && Stable(ch, sn, curr) && OnlyOne(ch, sn, event, t)
    ensures Select(ch, sn, curr, event) == Take(t)
    ensures Step(ch, fuel, curr, sn, event).Next?
  {
    ChoiceExact(ch, sn, curr, event);
    SelectedFits(ch, sn, curr, event);
    PerformRuns(ch, fuel, sn, curr, t);
    PerformInv(ch, fuel, sn, curr, t);
    var p := Perform(ch, fuel, sn, curr, t);
    HistoryIsValid(ch, p.sn);
    DescendLands(ch, fuel, p.sn, t.destination);
  }

  lemma QuietStart(ch: Chart, fuel: nat)
    requires Typechecked(ch) && StaticsPopulated(ch) && Quiet(ch)
    ensures Start(ch, fuel).Next?
  {
    InitialInv(ch);
    var entered := Enter(ch, Initial(ch), ROOT);
    SkipKeeps(fuel, entered);
    DescendLands(ch, fuel, entered, ROOT);
  }

  // ----- A player that remembers where it was -----

  const NEXT := Transition("n", 2, 3, "next", TRUE, SKIP, 1)
  const OUT := Transition("o", 1, 4, "out", TRUE, SKIP, 0)
  const BACK := Transition("b", 4, 1, "back", TRUE, SKIP, 0)

  /** "Playing" is a history state with two substates. */
  const PLAYER := Chart([
      State("Player", None, [1, 4], [OUT, BACK], [], SKIP, SKIP, false, false, false),
      State("Playing", Some(0), [2, 3], [NEXT], [], SKIP, SKIP, true, false, false),
      State("First", Some(1), [], [], [], SKIP, SKIP, false, false, false),
      State("Second", Some(1), [], [], [], SKIP, SKIP, false, false, false),
      State("Stopped", Some(0), [], [], [], SKIP, SKIP, false, false, false)
    ], ["next", "out", "back"])

  lemma PlayerIsTree()
    ensures IsTree(PLAYER)
  {
    var states := PLAYER.states;
    assert |states| == 5;
    forall s, i | 0 <= s < 5 && 0 <= i < |states[s].states| ensures IsChild(PLAYER, s, states[s].states[i]) {
      assert s == 0 || s == 1;
      assert i == 0 || i == 1;
    }
    forall s | 0 < s < 5 ensures states[s].superstate.Some? && states[s].superstate.value < s {}
    assert 1 in states[0].states && 4 in states[0].states && 2 in states[1].states && 3 in states[1].states;
  }

  lemma PlayerPaths()
    ensures IsTree(PLAYER)
    ensures Path(PLAYER, 0) == [0] && Path(PLAYER, 1) == [0, 1] && Path(PLAYER, 4) == [0, 4]
    ensures Path(PLAYER, 2) == [0, 1, 2] && Path(PLAYER, 3) == [0, 1, 3]
  {
    PlayerIsTree();
    PathOfSub(PLAYER, 1);
    PathOfSub(PLAYER, 2);
    PathOfSub(PLAYER, 3);
    PathOfSub(PLAYER, 4);
  }

  lemma PlayerTransitions(t: Transition)
    ensures InChart(PLAYER, t) <==> t == NEXT || t == OUT || t == BACK
  {
    var states := PLAYER.states;
    assert states[0].transitions == [OUT, BACK] && states[1].transitions == [NEXT];
    assert states[2].transitions == states[3].transitions == states[4].transitions == [];
    assert NEXT in states[1].transitions && OUT in states[0].transitions && BACK in states[0].transitions;
  }

  lemma PlayerIsLinked()
    ensures WellLinked(PLAYER)
  {
    PlayerIsTree();
    forall s, t | 0 <= s < |PLAYER.states| && t in PLAYER.states[s].transitions
      ensures t.placement == s && HasEnds(PLAYER, t)
    {
      PlayerTransitions(t);
      assert s == 0 || s == 1;
    }
  }

  lemma PlayerTransitionChecks(t: Transition)
    requires t == NEXT || t == OUT || t == BACK
    ensures IsTree(PLAYER) && HasEnds(PLAYER, t) && TypecheckTransition(PLAYER, t)
  {
    PlayerPaths();
    assert Supers(PLAYER, 1) == [0] && Supers(PLAYER, 4) == [0];
    assert Supers(PLAYER, 2) == [0, 1] && Supers(PLAYER, 3) == [0, 1];
    assert [0][1..] == [] && [0, 1][1..] == [1] && [1][1..] == [];
    assert LastCommon([0], [0]) == Some(0) && LastCommon([1], [1]) == Some(1);
    assert LastCommon([0, 1], [0, 1]) == Some(1);
    assert PLAYER.events == ["next", "out", "back"];
    assert "next" in PLAYER.events && "out" in PLAYER.events && "back" in PLAYER.events;
  }

  lemma RootNames()
    ensures IsTree(PLAYER) && NoDuplicates(NamesOf(PLAYER, 0))
  {
    PlayerIsTree();
    assert StateNames(PLAYER, [1, 4]) == ["Playing", "Stopped"];
    assert TransitionNames([OUT, BACK]) == ["o", "b"];
    assert NamesOf(PLAYER, 0) == ["Playing", "Stopped", "o", "b"];
    assert "Playing"[0] != "Stopped"[0] && "o"[0] != "b"[0];
    DistinctFour("Playing", "Stopped", "o", "b");
  }

  lemma PlayingNames()
    ensures IsTree(PLAYER) && NoDuplicates(NamesOf(PLAYER, 1))
  {
    PlayerIsTree();
    assert StateNames(PLAYER, [2, 3]) == ["First", "Second"];
    assert TransitionNames([NEXT]) == ["n"];
    assert NamesOf(PLAYER, 1) == ["First", "Second", "n"];
    DistinctFour("First", "Second", "n", "");
  }

  lemma PlayerNames(s: StateId)
    requires s < 5
    ensures IsTree(PLAYER) && IsState(PLAYER, s) && NoDuplicates(NamesOf(PLAYER, s))
  {
    RootNames();
    PlayingNames();
    if s > 1 { assert |NamesOf(PLAYER, s)| == 0; }
  }

  lemma PlayerStateChecks(s: StateId)
    requires s < 5
    ensures WellLinked(PLAYER) && IsState(PLAYER, s) && TypecheckState(PLAYER, s)
  {
    PlayerIsLinked();
    PlayerNames(s);
    SkipChecks(EnvironmentOf(PLAYER, s));
    forall t | t in PLAYER.states[s].transitions ensures TypecheckTransition(PLAYER, t) {
      PlayerTransitions(t);
      PlayerTransitionChecks(t);
    }
  }

  lemma PlayerIsTypechecked()
    ensures Typechecked(PLAYER) && StaticsPopulated(PLAYER)
  {
    PlayerIsLinked();
    assert |PLAYER.states| == 5;
    forall s | 0 <= s < 5 ensures TypecheckState(PLAYER, s) { PlayerStateChecks(s); }
  }

  lemma PlayerIsQuiet()
    ensures Quiet(PLAYER)
  {
    forall t | InChart(PLAYER, t) ensures t.action == SKIP { PlayerTransitions(t); }
  }

  /** The transition of an event is the only one that may fire where its source is active. */
  lemma PlayerFires(sn: Snapshot, t: Transition)
    requires (t == NEXT || t == OUT || t == BACK) && t.source in sn.config
    ensures OnlyOne(PLAYER, sn, t.trigger, t)
  {
    PlayerTransitions(t);
    assert "next"[0] != "out"[0] && "next"[0] != "back"[0] && "out"[0] != "back"[0];
    forall u | Enabled(PLAYER, sn, t.trigger, u) ensures u == t { PlayerTransitions(u); }
  }

  /** One round of the player: it ends below the destination, as the history says. */
  lemma PlayerStep(fuel: nat, curr: StateId, sn: Snapshot, t: Transition)
    requires Typechecked(PLAYER) && Stable(PLAYER, sn, curr)
    requires (t == NEXT || t == OUT || t == BACK) && t.source in Path(PLAYER, curr)
    ensures Select(PLAYER, sn, curr, t.trigger) == Take(t)
    ensures
      var r := Step(PLAYER, fuel, curr, sn, t.trigger);
      r.Next? && t.destination in Path(PLAYER, r.curr)
  {
    PlayerIsQuiet();
    PlayerFires(sn, t);
    QuietStep(PLAYER, fuel, curr, sn, t.trigger, t);
    StepOrder(PLAYER, fuel, curr, sn, t.trigger);
  }

  lemma PlayerChildren()
    ensures IsTree(PLAYER)
    ensures Passed(PLAYER, 4, 0, 0) && ActiveChild(PLAYER, 4, 0) == 4
    ensures Passed(PLAYER, 3, 0, 1) && Passed(PLAYER, 3, 1, 1) && ActiveChild(PLAYER, 3, 1) == 3
    ensures Passed(PLAYER, 2, 1, 1) && ActiveChild(PLAYER, 2, 1) == 2
    ensures !Passed(PLAYER, 4, 0, 1)
  {
    PlayerPaths();
  }

  /** An atomic state of the player, by a state on its path. */
  lemma PlayerLands(curr: StateId, dest: StateId)
    requires IsState(PLAYER, curr) && PLAYER.states[curr].states == []
    ensures IsTree(PLAYER) && (curr == 2 || curr == 3 || curr == 4)
    ensures dest in Path(PLAYER, curr) ==>
      (dest == 3 ==> curr == 3) && (dest == 4 ==> curr == 4) && (dest == 1 ==> curr != 4)
  {
    assert PLAYER.states[0].states == [1, 4] && PLAYER.states[1].states == [2, 3];
    PlayerPaths();
  }

  lemma PlayerStarts(fuel: nat)
    ensures Typechecked(PLAYER) && StaticsPopulated(PLAYER)
    ensures Start(PLAYER, fuel).Next? && Start(PLAYER, fuel).curr == 2
  {
    PlayerIsTypechecked();
    PlayerIsQuiet();
    QuietStart(PLAYER, fuel);
    StartRemembers(PLAYER, fuel);
    PlayerChildren();
    PlayerLands(Start(PLAYER, fuel).curr, 0);
  }

  // ----- A run that returns to the history state -----

  /** A run of two rounds. */
  lemma RunOfTwo(ch: Chart, fuel: nat, curr: StateId, sn: Snapshot, e1: string, e2: string)
    requires Typechecked(ch) && Stable(ch, sn, curr)
    ensures
      var r := Step(ch, fuel, curr, sn, e1);
      r.Next? ==> Run(ch, fuel, curr, sn, [e1, e2]) == Step(ch, fuel, r.curr, r.sn, e2)
  {
    var r := Step(ch, fuel, curr, sn, e1);
    assert [e1, e2][0] == e1 && [e1, e2][1..] == [e2];
    if r.Next? { RunOfOne(ch, fuel, r.curr, r.sn, e2); }
  }

  lemma RoundsOfOne(ch: Chart, fuel: nat, curr: StateId, sn: Snapshot, event: string, t: Transition)
    requires Typechecked(ch) && Stable(ch, sn, curr)
    requires Step(ch, fuel, curr, sn, event).Next? && Select(ch, sn, curr, event) == Take(t)
    ensures RoundsFrom(ch, fuel, curr, sn, [event]) == [Round(curr, t.placement)]
  {
    assert [event][0] == event && [event][1..] == [];
  }

  lemma RoundsCons(ch: Chart, fuel: nat, curr: StateId, sn: Snapshot, e1: string, e2: string, t: Transition)
    requires Typechecked(ch) && Stable(ch, sn, curr)
    requires Step(ch, fuel, curr, sn, e1).Next? && Select(ch, sn, curr, e1) == Take(t)
    ensures
      var r := Step(ch, fuel, curr, sn, e1);
      RoundsFrom(ch, fuel, curr, sn, [e1, e2])
        == [Round(curr, t.placement)] + RoundsFrom(ch, fuel, r.curr, r.sn, [e2])
  {
    assert [e1, e2][0] == e1 && [e1, e2][1..] == [e2];
  }

  lemma PlayerNext(fuel: nat, sn: Snapshot)
    requires Typechecked(PLAYER) && Stable(PLAYER, sn, 2)
    ensures Select(PLAYER, sn, 2, "next") == Take(NEXT)
    ensures
      var r := Step(PLAYER, fuel, 2, sn, "next");
      r.Next? && r.curr == 3
  {
    PlayerPaths();
    PlayerStep(fuel, 2, sn, NEXT);
    PlayerLands(Step(PLAYER, fuel, 2, sn, "next").curr, 3);
  }

  lemma PlayerOut(fuel: nat, sn: Snapshot)
    requires Typechecked(PLAYER) && Stable(PLAYER, sn, 3)
    ensures Select(PLAYER, sn, 3, "out") == Take(OUT)
    ensures
      var r := Step(PLAYER, fuel, 3, sn, "out");
      r.Next? && r.curr == 4
  {
    PlayerPaths();
    PlayerStep(fuel, 3, sn, OUT);
    PlayerLands(Step(PLAYER, fuel, 3, sn, "out").curr, 4);
  }

  /** The rounds "next" and "out" lead to the second substate and then out of the history state. */
  lemma PlayerRuns(fuel: nat, sn: Snapshot)
    requires Typechecked(PLAYER) && Stable(PLAYER, sn, 2)
    ensures
      var r := Run(PLAYER, fuel, 2, sn, ["next", "out"]);
      r.Next? && r.curr == 4
    ensures RoundsFrom(PLAYER, fuel, 2, sn, ["next", "out"]) == [Round(2, 1), Round(3, 0)]
  {
    PlayerNext(fuel, sn);
    var r1 := Step(PLAYER, fuel, 2, sn, "next");
    PlayerOut(fuel, r1.sn);
    RunOfTwo(PLAYER, fuel, 2, sn, "next", "out");
    RoundsCons(PLAYER, fuel, 2, sn, "next", "out", NEXT);
    RoundsOfOne(PLAYER, fuel, 3, r1.sn, "out", OUT);
  }

  lemma PlayerStops(fuel: nat) returns (sn: Snapshot)
    ensures Typechecked(PLAYER) && StaticsPopulated(PLAYER)
    ensures ReachedBy(PLAYER, fuel, ["next", "out"], 4, sn)
    ensures RoundsOf(PLAYER, fuel, ["next", "out"]) == [Round(2, 1), Round(3, 0)]
  {
    PlayerStarts(fuel);
    var start := Start(PLAYER, fuel).sn;
    PlayerRuns(fuel, start);
    sn := Run(PLAYER, fuel, 2, start, ["next", "out"]).sn;
  }

  /** The child of "Playing" that was active when it was last left is the second one. */
  lemma SecondWasActive()
    ensures IsTree(PLAYER)
    ensures ActiveWhenLeft(PLAYER, [Round(2, 1), Round(3, 0)] + [Round(4, 0)], 1) == Some(3)
  {
    PlayerChildren();
    LastActiveSnoc(PLAYER, [Round(2, 1), Round(3, 0)], Round(4, 0), 1, true);
    LastActiveSnoc(PLAYER, [Round(2, 1)], Round(3, 0), 1, true);
    assert [Round(2, 1)] + [Round(3, 0)] == [Round(2, 1), Round(3, 0)];
  }

  /** Coming back, the history state resumes its second substate, although its first one is the
      default. */
  lemma PlayerResumes(fuel: nat) returns (sn: Snapshot, resumed: Snapshot)
    ensures Typechecked(PLAYER) && StaticsPopulated(PLAYER)
    ensures ReachedBy(PLAYER, fuel, ["next", "out"], 4, sn)
    ensures Step(PLAYER, fuel, 4, sn, "back") == Next(3, resumed) && PLAYER.states[1].states[0] == 2
  {
    sn := PlayerStops(fuel);
    PlayerPaths();
    PlayerStep(fuel, 4, sn, BACK);
    var r := Step(PLAYER, fuel, 4, sn, "back");
    resumed := r.sn;
    PlayerLands(r.curr, 1);
    HistoryResumes(PLAYER, fuel, ["next", "out"], 4, sn, "back", 1);
    SecondWasActive();
    PlayerChildren();
  }
}
