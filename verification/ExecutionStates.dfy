/** The simulator's execution state: configuration, valuation, state history and value history. */
module ExecutionStates {
  import opened Ast
  import opened Environments
  import opened Evaluation
  import opened Hierarchy

  // ----- Values of an execution state -----

  /** What a simulation did, in order, with the valuation right after an entry and right before an
      exit.  The program keeps no such log; statements about whole runs refer to it. */
  datatype Event =
    | Entered(s: StateId, values: Store)
    | Exited(s: StateId, values: Store)
    | Acted(t: Transition)

  datatype Snapshot = Snapshot(config: seq<StateId>, values: Store, history: map<Option<StateId>, StateId>,
                               valueHistory: map<StateId, Store>, log: seq<Event>)

  /** A saved value; a missing entry reads as null. */
  function SavedValue(valueHistory: map<StateId, Store>, s: StateId, d: Declaration): Option<Constant> {
    if s in valueHistory then ValueOf(valueHistory[s], d) else None
  }

  function HasStatic(decls: seq<Declaration>): (r: bool)
    ensures r <==> exists d :: d in decls && d.scope.Static?
  {
    decls != [] && (decls[0].scope.Static? || HasStatic(decls[1..]))
  }

  /** The variables handled before the first static one. */
  function BeforeStatic(decls: seq<Declaration>): seq<Declaration> {
    if decls == [] || decls[0].scope.Static? then [] else [decls[0]] + BeforeStatic(decls[1..])
  }

  lemma {:induction false} BeforeStaticIs(decls: seq<Declaration>, i: nat)
    requires i < |decls| && decls[i].scope.Static? && !HasStatic(decls[..i])
    ensures BeforeStatic(decls) == decls[..i]
  {
    if i > 0 {
      assert decls[..i][0] == decls[0] && decls[..i][1..] == decls[1..][..i - 1];
      BeforeStaticIs(decls[1..], i - 1);
    }
  }

  /** Entering a state with static variables and no value history dereferences null. */
  predicate EnterThrows(ch: Chart, sn: Snapshot, s: StateId)
    requires IsState(ch, s)
  {
    HasStatic(ch.states[s].declarations) && s !in sn.valueHistory
  }

  /** Locals start at null, statics get their saved value, parameters keep theirs. */
  function EntryValues(decls: seq<Declaration>, valueHistory: map<StateId, Store>, s: StateId): Store {
    map d | d in decls && !d.scope.Parameter? :: if d.scope.Local? then None else SavedValue(valueHistory, s, d)
  }

  function Enter(ch: Chart, sn: Snapshot, s: StateId): Snapshot
    requires IsState(ch, s)
  {
    var values := sn.values + EntryValues(ch.states[s].declarations, sn.valueHistory, s);
    sn.(config := sn.config + [s], values := values, log := sn.log + [Entered(s, values)])
  }

  /** An entry up to the null dereference: variables from the first static one on are not reached. */
  function EnterCut(ch: Chart, sn: Snapshot, s: StateId): Snapshot
    requires IsState(ch, s)
  {
    sn.(config := sn.config + [s],
        values := sn.values + EntryValues(BeforeStatic(ch.states[s].declarations), sn.valueHistory, s))
  }

  /** Java's `List.remove(Object)`. */
  function RemoveFirst(config: seq<StateId>, s: StateId): seq<StateId> {
    if config == [] then []
    else if config[0] == s then config[1..]
    else [config[0]] + RemoveFirst(config[1..], s)
  }

  function ValuesOf(decls: seq<Declaration>, values: Store): Store {
    map d | d in decls :: ValueOf(values, d)
  }

  function Locals(decls: seq<Declaration>): set<Declaration> {
    set d | d in decls && d.scope.Local?
  }

  function Exit(ch: Chart, sn: Snapshot, s: StateId): Snapshot
    requires IsState(ch, s)
  {
    var decls := ch.states[s].declarations;
    Snapshot(RemoveFirst(sn.config, s),
             sn.values - Locals(decls),
             sn.history[ch.states[s].superstate := s],
             if decls == [] then sn.valueHistory else sn.valueHistory[s := ValuesOf(decls, sn.values)],
             sn.log + [Exited(s, sn.values)])
  }

  /** Every variable that is not local maps to null and makes its state known to the value history,
      whose entry is replaced each time. */
  function PopulateDecls(sn: Snapshot, s: StateId, decls: seq<Declaration>): Snapshot {
    if decls == [] then sn
    else
      var d, p := decls[|decls| - 1], PopulateDecls(sn, s, decls[..|decls| - 1]);
      if d.scope.Local? then p
      else p.(values := p.values[d := None], valueHistory := p.valueHistory[s := map[d := None]])
  }

  function PopulateAll(ch: Chart, sn: Snapshot, states: seq<StateId>): Snapshot
    requires AllStates(ch, states)
    decreases |states|
  {
    if states == [] then sn
    else PopulateAll(ch, PopulateDecls(sn, states[0], ch.states[states[0]].declarations), states[1..])
  }

  const EMPTY := Snapshot([], map[], map[], map[], [])

  /** The statechart and its direct substates are populated, nothing deeper. */
  function Initial(ch: Chart): Snapshot
    requires IsTree(ch)
  {
    assert forall i | 0 <= i < |ch.states[ROOT].states| :: IsChild(ch, ROOT, ch.states[ROOT].states[i]);
    PopulateAll(ch, PopulateDecls(EMPTY, ROOT, ch.states[ROOT].declarations), ch.states[ROOT].states)
  }

  // ----- The object -----

  class ExecutionState {
    const chart: Chart
    var valueEnvironment: Store
    var configuration: seq<StateId>
    var eventQueue: seq<string>
    var stateHistory: map<Option<StateId>, StateId>
    var valueHistory: map<StateId, Store>
    ghost var log: seq<Event>

    ghost function Snap(): Snapshot
      reads this
    {
      Snapshot(configuration, valueEnvironment, stateHistory, valueHistory, log)
    }

    constructor (ch: Chart)
      requires IsTree(ch)
      ensures chart == ch && Snap() == Initial(ch) && eventQueue == []
    {
      chart := ch;
      valueEnvironment, configuration, eventQueue, stateHistory, valueHistory := map[], [], [], map[], map[];
      log := [];
      new;
      Populate(ROOT);
      var children := ch.states[ROOT].states;
      assert forall i | 0 <= i < |children| :: IsChild(ch, ROOT, children[i]);
      for i := 0 to |children|
        invariant chart == ch && eventQueue == []
        invariant PopulateAll(ch, Snap(), children[i..]) == Initial(ch)
      {
        Populate(children[i]);
        assert children[i..][1..] == children[i + 1..];
      }
    }

    method Populate(s: StateId)
      requires IsState(chart, s)
      modifies this
      ensures Snap() == PopulateDecls(old(Snap()), s, chart.states[s].declarations)
      ensures eventQueue == old(eventQueue)
    {
      var decls := chart.states[s].declarations;
      ghost var before := Snap();
      for i := 0 to |decls|
        invariant eventQueue == old(eventQueue)
        invariant Snap() == PopulateDecls(before, s, decls[..i])
      {
        var d := decls[i];
        assert decls[..i + 1] == decls[..i] + [d];
        if !d.scope.Local? {
          valueEnvironment := valueEnvironment[d := None];
          valueHistory := valueHistory[s := map[d := None]];
        }
      }
      assert decls[..|decls|] == decls;
    }

    method AddEvent(e: string)
      modifies this`eventQueue
      ensures eventQueue == old(eventQueue) + [e]
    {
      eventQueue := eventQueue + [e];
    }

    /** An empty queue gives the event "null". */
    method GetEvent() returns (e: string)
      modifies this`eventQueue
      ensures old(eventQueue) == [] ==> e == "null" && eventQueue == []
      ensures old(eventQueue) != [] ==> [e] + eventQueue == old(eventQueue)
    {
      if eventQueue == [] {
        return "null";
      }
      e := eventQueue[0];
      eventQueue := eventQueue[1..];
    }

    method SetValue(d: Declaration, v: Option<Constant>)
      modifies this`valueEnvironment
      ensures valueEnvironment == old(valueEnvironment)[d := v]
    {
      valueEnvironment := valueEnvironment[d := v];
    }

    method SetHistoryState(s: Option<StateId>, c: StateId)
      modifies this`stateHistory
      ensures stateHistory == old(stateHistory)[s := c]
    {
      stateHistory := stateHistory[s := c];
    }

    /** The recorded substate, or the first one. */
    method GetHistoryState(s: StateId) returns (c: StateId)
      requires IsState(chart, s) && chart.states[s].states != []
      ensures c == HistoryState(chart, Snap(), s)
    {
      if Some(s) in stateHistory {
        return stateHistory[Some(s)];
      }
      return chart.states[s].states[0];
    }

    method PresentInConfiguration(s: StateId) returns (present: bool)
      ensures present <==> s in configuration
    {
      for i := 0 to |configuration|
        invariant forall j | 0 <= j < i :: configuration[j] != s
      {
        if configuration[i] == s {
          return true;
        }
      }
      return false;
    }

    /** `thrown`: the null dereference on a state without value history. */
    method EnterState(s: StateId) returns (thrown: bool)
      requires IsState(chart, s)
      modifies this
      ensures eventQueue == old(eventQueue)
      ensures thrown <==> EnterThrows(chart, old(Snap()), s)
      ensures !thrown ==> Snap() == Enter(chart, old(Snap()), s)
      ensures thrown ==> Snap() == EnterCut(chart, old(Snap()), s)
      ensures !thrown ==> forall d | d in chart.states[s].declarations ::
        && (d.scope.Local? ==> d in valueEnvironment && valueEnvironment[d] == None)
        && (d.scope.Static? ==> d in valueEnvironment && valueEnvironment[d] == ValueOf(valueHistory[s], d))
      ensures !thrown ==> forall d | d !in chart.states[s].declarations || d.scope.Parameter? ::
        && (d in valueEnvironment <==> d in old(valueEnvironment))
        && (d in valueEnvironment ==> valueEnvironment[d] == old(valueEnvironment)[d])
    {
      assert HasStatic(chart.states[s].declarations) || forall d | d in chart.states[s].declarations :: !d.scope.Static?;
      var decls := chart.states[s].declarations;
      configuration := configuration + [s];
      for i := 0 to |decls|
        invariant configuration == old(configuration) + [s] && stateHistory == old(stateHistory)
        invariant valueHistory == old(valueHistory) && eventQueue == old(eventQueue) && log == old(log)
        invariant valueEnvironment == old(valueEnvironment) + EntryValues(decls[..i], valueHistory, s)
        invariant s in valueHistory || !HasStatic(decls[..i])
      {
        var d := decls[i];
        assert decls[..i + 1] == decls[..i] + [d];
        EntrySnoc(decls[..i], d, valueHistory, s, old(valueEnvironment));
        if d.scope.Local? {
          valueEnvironment := valueEnvironment[d := None];
        } else if d.scope.Static? {
          if s !in valueHistory {
            BeforeStaticIs(decls, i);
            return true;
          }
          valueEnvironment := valueEnvironment[d := ValueOf(valueHistory[s], d)];
        }
      }
      assert decls[..|decls|] == decls;
      log := log + [Entered(s, valueEnvironment)];
      return false;
    }

    method ExitState(s: StateId)
      requires IsState(chart, s) && UniqueNames(chart.states[s].declarations)
      modifies this
      ensures Snap() == Exit(chart, old(Snap()), s) && eventQueue == old(eventQueue)
      ensures forall d | d in chart.states[s].declarations ::
        s in valueHistory && SavedValue(valueHistory, s, d) == ValueOf(old(valueEnvironment), d)
      ensures forall d | d in chart.states[s].declarations && d.scope.Local? :: d !in valueEnvironment
      ensures forall d | d !in chart.states[s].declarations || !d.scope.Local? ::
        && (d in valueEnvironment <==> d in old(valueEnvironment))
        && (d in valueEnvironment ==> valueEnvironment[d] == old(valueEnvironment)[d])
    {
      SetHistoryState(chart.states[s].superstate, s);
      configuration := RemoveFirst(configuration, s);
      log := log + [Exited(s, valueEnvironment)];
      SaveValues(s, chart.states[s].declarations);
    }

    /** The loop of an exit: every variable is saved, and locals are cleared. */
    method SaveValues(s: StateId, decls: seq<Declaration>)
      requires UniqueNames(decls)
      modifies this`valueEnvironment, this`valueHistory
      ensures valueEnvironment == old(valueEnvironment) - Locals(decls)
      ensures valueHistory == if decls == [] then old(valueHistory)
                              else old(valueHistory)[s := ValuesOf(decls, old(valueEnvironment))]
    {
      var temp: Store := map[];
      ghost var values := valueEnvironment;
      for i := 0 to |decls|
        invariant temp == ValuesOf(decls[..i], values)
        invariant valueEnvironment == values - Locals(decls[..i])
        invariant valueHistory == if i == 0 then old(valueHistory) else old(valueHistory)[s := temp]
      {
        var d := decls[i];
        ExitSnoc(decls[..i], d, values);
        UpdateTwice(old(valueHistory), s, temp, temp[d := ValueOf(valueEnvironment, d)]);
        assert decls[..i + 1] == decls[..i] + [d];
        temp := temp[d := ValueOf(valueEnvironment, d)];
        valueHistory := valueHistory[s := temp];
        if d.scope.Local? {
          valueEnvironment := valueEnvironment - {d};
        }
      }
      assert decls[..|decls|] == decls;
    }
  }

  function HistoryState(ch: Chart, sn: Snapshot, s: StateId): StateId
    requires IsState(ch, s) && ch.states[s].states != []
  {
    if Some(s) in sn.history then sn.history[Some(s)] else ch.states[s].states[0]
  }

  lemma EntrySnoc(decls: seq<Declaration>, d: Declaration, valueHistory: map<StateId, Store>, s: StateId, values: Store)
    ensures HasStatic(decls + [d]) <==> HasStatic(decls) || d.scope.Static?
    ensures
      var before, after := EntryValues(decls, valueHistory, s), EntryValues(decls + [d], valueHistory, s);
      values + after ==
        if d.scope.Parameter? then values + before
        else (values + before)[d := if d.scope.Local? then None else SavedValue(valueHistory, s, d)]
  {
    assert d in decls + [d];
    var before, after := EntryValues(decls, valueHistory, s), EntryValues(decls + [d], valueHistory, s);
    if d.scope.Parameter? {
      assert after == before;
    } else {
      var v := if d.scope.Local? then None else SavedValue(valueHistory, s, d);
      assert after == before[d := v];
      UpdateSum(values, before, d, v);
    }
  }

  lemma UpdateSum(a: Store, b: Store, d: Declaration, v: Option<Constant>)
    ensures a + b[d := v] == (a + b)[d := v]
  {}

  lemma UpdateTwice(m: map<StateId, Store>, s: StateId, a: Store, b: Store)
    ensures m[s := a][s := b] == m[s := b]
  {}

  lemma ExitSnoc(decls: seq<Declaration>, d: Declaration, values: Store)
    requires d !in decls
    ensures ValuesOf(decls + [d], values) == ValuesOf(decls, values)[d := ValueOf(values - Locals(decls), d)]
    ensures d.scope.Local? ==> values - Locals(decls + [d]) == values - Locals(decls) - {d}
    ensures !d.scope.Local? ==> values - Locals(decls + [d]) == values - Locals(decls)
  {
    assert Locals(decls + [d]) == if d.scope.Local? then Locals(decls) + {d} else Locals(decls);
  }
}
