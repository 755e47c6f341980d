/** What the type checker accepts, as far as the simulator relies on it. */
module Typechecker {
  import opened Ast
  import opened Environments
  import opened Evaluation
  import opened Hierarchy

  // ----- Name duplication -----

  /** The names a state introduces: variables, then substates, then transitions. */
  function NamesOf(ch: Chart, s: StateId): seq<string>
    requires IsTree(ch) && IsState(ch, s)
  {
    var st := ch.states[s];
    VariableNames(st.declarations) + StateNames(ch, st.states) + TransitionNames(st.transitions)
  }

  function VariableNames(ds: seq<Declaration>): (r: seq<string>)
    ensures |r| == |ds| && forall i | 0 <= i < |ds| :: r[i] == ds[i].vname
  {
    seq(|ds|, i requires 0 <= i < |ds| => ds[i].vname)
  }

  function StateNames(ch: Chart, ss: seq<StateId>): (r: seq<string>)
    ensures |r| == |ss| && forall i | 0 <= i < |ss| && IsState(ch, ss[i]) :: r[i] == ch.states[ss[i]].name
  {
    seq(|ss|, i requires 0 <= i < |ss| => if IsState(ch, ss[i]) then ch.states[ss[i]].name else "")
  }

  function TransitionNames(ts: seq<Transition>): (r: seq<string>)
    ensures |r| == |ts| && forall i | 0 <= i < |ts| :: r[i] == ts[i].name
  {
    seq(|ts|, i requires 0 <= i < |ts| => ts[i].name)
  }

  ghost predicate NoDuplicates(names: seq<string>) {
    forall i, j | 0 <= i < j < |names| :: names[i] != names[j]
  }

  /** The checker's walk with a growing set of names; false where it throws. */
  method CheckNameDuplication(ch: Chart, s: StateId) returns (ok: bool)
    requires IsTree(ch) && IsState(ch, s)
    ensures ok <==> NoDuplicates(NamesOf(ch, s))
  {
    var all := NamesOf(ch, s);
    var names: set<string> := {};
    for i := 0 to |all|
      invariant names == set n | n in all[..i]
      invariant NoDuplicates(all[..i])
    {
      assert all[..i + 1] == all[..i] + [all[i]];
      if all[i] in names {
        ghost var j :| 0 <= j < i && all[..i][j] == all[i];
        assert all[j] == all[i];
        return false;
      }
      names := names + {all[i]};
    }
    assert all[..|all|] == all;
    return true;
  }

  // ----- Transitions and states -----

  predicate TypecheckTransition(ch: Chart, t: Transition)
    requires IsTree(ch) && HasEnds(ch, t)
  {
    var src, dest := ch.states[t.source], ch.states[t.destination];
    && PlacedAtLub(ch, t)
    && !dest.region
    && (dest.fin ==> src.region && Lub(ch, t.source, t.destination) == dest.superstate)
    && t.trigger in ch.events
    && TypecheckExpression(t.guard, ReadEnvironment(ch, t)) == Some(BooleanType)
    && TypecheckStatement(t.action, ReadEnvironment(ch, t), WriteEnvironment(ch, t))
  }

  /** The nearest state properly above both. */
  ghost predicate NearestAbove(ch: Chart, p: StateId, a: StateId, b: StateId)
    requires IsTree(ch) && IsState(ch, a) && IsState(ch, b) && IsState(ch, p)
  {
    && IsAncestor(ch, p, a) && IsAncestor(ch, p, b)
    && forall c | IsAncestor(ch, c, a) && IsAncestor(ch, c, b) :: c == p || IsAncestor(ch, c, p)
  }

  /** Accepted are the transitions placed in the nearest state above both ends, not into a region, into
      a final state only from a region and within its superstate, on a declared event, with a Boolean
      guard over what the source sees and an action that writes what it may. */
  lemma TransitionAccepted(ch: Chart, t: Transition)
    requires IsTree(ch) && HasEnds(ch, t)
    ensures TypecheckTransition(ch, t) <==>
      && NearestAbove(ch, t.placement, t.source, t.destination)
      && !ch.states[t.destination].region
      && (ch.states[t.destination].fin ==>
            ch.states[t.source].region && ch.states[t.destination].superstate == Some(t.placement))
      && t.trigger in ch.events
      && TypecheckExpression(t.guard, EnvironmentOf(ch, t.source)) == Some(BooleanType)
      && TypecheckStatement(t.action, EnvironmentOf(ch, t.source), WriteEnvironment(ch, t))
  {
    LubIsDeepest(ch, t.source, t.destination);
    if NearestAbove(ch, t.placement, t.source, t.destination) {
      var l := Lub(ch, t.source, t.destination).value;
      assert l == t.placement || (l < t.placement && t.placement < l);
    }
  }

  /** What construction guarantees: declarations know their owner, transitions their placement. */
  ghost predicate WellLinked(ch: Chart) {
    && IsTree(ch)
    && (forall s, d | 0 <= s < |ch.states| && d in ch.states[s].declarations :: d.owner == s)
    && (forall s, t | 0 <= s < |ch.states| && t in ch.states[s].transitions :: t.placement == s && HasEnds(ch, t))
  }

  ghost predicate TypecheckState(ch: Chart, s: StateId)
    requires WellLinked(ch) && IsState(ch, s)
  {
    var env := EnvironmentOf(ch, s);
    && NoDuplicates(NamesOf(ch, s))
    && TypecheckStatement(ch.states[s].entry, env, env)
    && TypecheckStatement(ch.states[s].exit, env, env)
    && (forall t | t in ch.states[s].transitions :: TypecheckTransition(ch, t))
  }

  ghost predicate Typechecked(ch: Chart) {
    WellLinked(ch) && forall s | 0 <= s < |ch.states| :: TypecheckState(ch, s)
  }

  /** Checking names makes the state names, the variables and the transitions of a state distinct. */
  lemma NamesDistinct(ch: Chart, s: StateId)
    requires Typechecked(ch) && IsState(ch, s)
    ensures UniqueNames(ch.states[s].declarations)
    ensures forall i, j | 0 <= i < j < |ch.states[s].transitions| ::
      ch.states[s].transitions[i] != ch.states[s].transitions[j]
    ensures forall i, j | 0 <= i < j < |ch.states[s].states| ::
      SiblingsDiffer(ch, ch.states[s].states[i], ch.states[s].states[j])
  {
    var st := ch.states[s];
    var vs, ss, ts := VariableNames(st.declarations), StateNames(ch, st.states), TransitionNames(st.transitions);
    assert TypecheckState(ch, s);
    PartsDistinct(vs, ss, ts);
    forall i, j | 0 <= i < j < |st.declarations|
      ensures st.declarations[i].vname != st.declarations[j].vname
    {
      assert vs[i] != vs[j];
    }
    forall i, j | 0 <= i < j < |st.transitions| ensures st.transitions[i] != st.transitions[j] {
      assert ts[i] != ts[j];
    }
    forall i, j | 0 <= i < j < |st.states| ensures SiblingsDiffer(ch, st.states[i], st.states[j]) {
      assert ss[i] != ss[j];
    }
  }

  lemma PartsDistinct(vs: seq<string>, ss: seq<string>, ts: seq<string>)
    requires NoDuplicates(vs + ss + ts)
    ensures NoDuplicates(vs) && NoDuplicates(ss) && NoDuplicates(ts)
  {
    var all := vs + ss + ts;
    assert forall i | 0 <= i < |vs| :: all[i] == vs[i];
    assert forall i | 0 <= i < |ss| :: all[|vs| + i] == ss[i];
    assert forall i | 0 <= i < |ts| :: all[|vs| + |ss| + i] == ts[i];
  }

  lemma TypecheckedSiblings(ch: Chart)
    requires Typechecked(ch)
    ensures DistinctSiblings(ch)
  {
    forall s | 0 <= s < |ch.states|
      ensures forall i, j | 0 <= i < j < |ch.states[s].states| ::
        SiblingsDiffer(ch, ch.states[s].states[i], ch.states[s].states[j])
    {
      NamesDistinct(ch, s);
    }
  }

  /** In a checked chart the full path of a state resolves to that state, and only it does. */
  lemma CheckedNamesMatchStates(ch: Chart, name: seq<string>, s: StateId)
    requires Typechecked(ch) && IsState(ch, s) && name != []
    ensures NameToState(ch, name) == Some(s) <==> name == NamePath(ch, s)
  {
    TypecheckedSiblings(ch);
    NamesMatchStates(ch, name, s);
  }
}
