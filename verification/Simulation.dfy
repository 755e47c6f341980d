/** One simulator step as a function of the execution state. */
module Simulation {
  import opened Ast
  import opened Evaluation
  import opened Hierarchy
  import opened ExecutionStates

  // ----- Choosing a transition -----

  predicate GuardHolds(guard: Expression, values: Store) {
    Evaluate(guard, values) == Some(BooleanConstant(true))
  }

  /** A transition that may fire: guard true, source active, trigger equal to the event.  A guard
      that is null or not Boolean raises an exception, and the transition is passed over. */
  predicate Viable(sn: Snapshot, event: string, t: Transition) {
    GuardHolds(t.guard, sn.values) && t.source in sn.config && t.trigger == event
  }

  function ViableOf(sn: Snapshot, event: string, ts: seq<Transition>): seq<Transition> {
    if ts == [] then []
    else (if Viable(sn, event, ts[0]) then [ts[0]] else []) + ViableOf(sn, event, ts[1..])
  }

  /** What the upward walk from `s` to the statechart collects. */
  function Walk(ch: Chart, sn: Snapshot, event: string, s: StateId): seq<Transition>
    requires IsTree(ch) && IsState(ch, s)
  {
    ViableOf(sn, event, ch.states[s].transitions) + (if s == ROOT then [] else Walk(ch, sn, event, Super(ch, s)))
  }

  datatype Selection = Take(t: Transition) | NoViable | NonDeterminism(ts: seq<Transition>)

  function Choose(ch: Chart, sn: Snapshot, curr: StateId, event: string): Selection
    requires IsTree(ch) && IsState(ch, curr)
  {
    var found := Walk(ch, sn, event, curr);
    if |found| == 1 then Take(found[0])
    else if |found| > 1 then NonDeterminism(found)
    else NoViable
  }

  /** Without a viable transition for the event, the search is repeated for "null". */
  function Select(ch: Chart, sn: Snapshot, curr: StateId, event: string): Selection
    requires IsTree(ch) && IsState(ch, curr)
  {
    var c := Choose(ch, sn, curr, event);
    if c.NoViable? && event != "null" then Choose(ch, sn, curr, "null") else c
  }

  // ----- Performing it -----

  datatype Progress = Running(sn: Snapshot) | Stopped | Diverged

  function RunStatement(fuel: nat, s: Statement, sn: Snapshot): Progress {
    match Execute(fuel, s, sn.values)
    case Done(values) => Running(sn.(values := values))
    case Halted(_) => Stopped
    case OutOfFuel => Diverged
  }

  /** Exits from `current` up to, and without, `lub`; each exit statement runs before its exit. */
  function ExitUp(ch: Chart, fuel: nat, sn: Snapshot, current: StateId, lub: StateId): Progress
    requires IsTree(ch) && IsState(ch, current) && lub in Path(ch, current)
    decreases current
  {
    if current == lub then Running(sn)
    else
      var p := RunStatement(fuel, ch.states[current].exit, sn);
      if !p.Running? then p
      else
        assert current != ROOT by { PathOfRoot(ch); }
        ExitUp(ch, fuel, Exit(ch, p.sn, current), Super(ch, current), lub)
  }

  lemma PathOfRoot(ch: Chart)
    requires IsTree(ch)
    ensures Path(ch, ROOT) == [ROOT]
  {}

  /** Enters the states in order; each entry statement runs after its entry. */
  function EnterDown(ch: Chart, fuel: nat, sn: Snapshot, path: seq<StateId>): Progress
    requires AllStates(ch, path)
    decreases |path|
  {
    if path == [] then Running(sn)
    else
      var p := RunStatement(fuel, ch.states[path[0]].entry, Enter(ch, sn, path[0]));
      if !p.Running? then p else EnterDown(ch, fuel, p.sn, path[1..])
  }

  /** The states strictly below `lub` down to `s`, outermost first. */
  function Below(ch: Chart, lub: StateId, s: StateId): (r: seq<StateId>)
    requires IsTree(ch) && IsState(ch, s) && lub in Path(ch, s)
    ensures AllStates(ch, r)
  {
    OnPath(ch, lub, s);
    assert forall i | 0 <= i < |Path(ch, s)| :: Path(ch, s)[i] in Path(ch, s);
    Path(ch, s)[|Path(ch, lub)|..]
  }

  lemma BelowSnoc(ch: Chart, current: StateId, lub: StateId)
    requires IsTree(ch) && IsState(ch, current) && current != ROOT && lub in Path(ch, current) && current != lub
    ensures lub in Path(ch, Super(ch, current))
    ensures Below(ch, lub, current) == Below(ch, lub, Super(ch, current)) + [current]
  {
    PathOfSub(ch, current);
    OnPath(ch, lub, Super(ch, current));
  }

  /** A path in the opposite order. */
  function Backwards(path: seq<StateId>): (r: seq<StateId>)
    ensures |r| == |path|
  {
    seq(|path|, i requires 0 <= i < |path| => path[|path| - 1 - i])
  }

  /** Recorded substates are substates. */
  ghost predicate HistoryValid(ch: Chart, sn: Snapshot) {
    forall s: StateId | Some(s) in sn.history :: IsChild(ch, s, sn.history[Some(s)])
  }

  /** The substate that a composite state is resumed or started with. */
  function NextSubstate(ch: Chart, sn: Snapshot, s: StateId): (c: StateId)
    requires IsTree(ch) && IsState(ch, s) && HistoryValid(ch, sn) && ch.states[s].states != []
    ensures IsChild(ch, s, c)
  {
    assert IsChild(ch, s, ch.states[s].states[0]);
    if ch.states[s].history then HistoryState(ch, sn, s) else ch.states[s].states[0]
  }

  datatype Landing = Landed(curr: StateId, sn: Snapshot) | NotLanded(p: Progress)

  /** Descends from an entered state to an atomic one, entering on the way. */
  function Descend(ch: Chart, fuel: nat, sn: Snapshot, s: StateId): Landing
    requires IsTree(ch) && IsState(ch, s) && HistoryValid(ch, sn)
    decreases |ch.states| - s
  {
    if ch.states[s].states == [] then Landed(s, sn)
    else
      var c := NextSubstate(ch, sn, s);
      var p := RunStatement(fuel, ch.states[c].entry, Enter(ch, sn, c));
      if !p.Running? then NotLanded(p) else Descend(ch, fuel, p.sn, c)
  }

  /** `get_atomic_state`: a tag of 1 enters the state itself first. */
  function AtomicState(ch: Chart, fuel: nat, sn: Snapshot, s: StateId, tag: int): Landing
    requires IsTree(ch) && IsState(ch, s) && HistoryValid(ch, sn)
  {
    if tag == 1 then
      var p := RunStatement(fuel, ch.states[s].entry, Enter(ch, sn, s));
      if !p.Running? then NotLanded(p) else Descend(ch, fuel, p.sn, s)
    else Descend(ch, fuel, sn, s)
  }

  /** `performTransition`: out of the active states up to the LUB, the action, down to the
      destination. */
  function Perform(ch: Chart, fuel: nat, sn: Snapshot, curr: StateId, t: Transition): Progress
    requires IsTree(ch) && IsState(ch, curr) && HasEnds(ch, t) && PlacedAtLub(ch, t)
    requires t.placement in Path(ch, curr)
  {
    LubIsDeepest(ch, t.source, t.destination);
    var up := ExitUp(ch, fuel, sn, curr, t.placement);
    if !up.Running? then up
    else
      var acted := RunStatement(fuel, t.action, up.sn.(log := up.sn.log + [Acted(t)]));
      if !acted.Running? then acted
      else EnterDown(ch, fuel, acted.sn, Below(ch, t.placement, t.destination))
  }
}
