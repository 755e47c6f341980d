/** What holds of the execution state along every run of a type-checked chart. */
module Invariants {
  import opened Ast
  import opened Environments
  import opened Evaluation
  import opened Hierarchy
  import opened Typechecker
  import opened ExecutionStates
  import opened Simulation

  // ----- Reading the log -----

  /** Valuation at the most recent exit of a state. */
  function LastExit(log: seq<Event>, s: StateId): Option<Store> {
    if log == [] then None
    else
      var e := log[|log| - 1];
      if e.Exited? && e.s == s then Some(e.values) else LastExit(log[..|log| - 1], s)
  }

  /** Value of a variable when its state was last left; null if it never was. */
  function LoggedValue(log: seq<Event>, s: StateId, d: Declaration): Option<Constant> {
    var last := LastExit(log, s);
    if last.None? then None else ValueOf(last.value, d)
  }

  /** The substate of `p` that was exited most recently. */
  function LastExitedChild(ch: Chart, log: seq<Event>, p: Option<StateId>): Option<StateId> {
    if log == [] then None
    else
      var e := log[|log| - 1];
      if e.Exited? && IsState(ch, e.s) && ch.states[e.s].superstate == p then Some(e.s)
      else LastExitedChild(ch, log[..|log| - 1], p)
  }

  /** At an entry locals are null, and statics hold their value from the most recent exit. */
  ghost predicate EntryOk(ch: Chart, before: seq<Event>, e: Event)
    requires e.Entered?
  {
    && IsState(ch, e.s)
    && (forall d | d in ch.states[e.s].declarations && d.scope.Static? ::
          ValueOf(e.values, d) == LoggedValue(before, e.s, d))
    && (forall d | d in ch.states[e.s].declarations && d.scope.Local? :: d in e.values && e.values[d] == None)
  }

  ghost predicate LogOk(ch: Chart, log: seq<Event>) {
    log == [] ||
    (LogOk(ch, log[..|log| - 1]) && (log[|log| - 1].Entered? ==> EntryOk(ch, log[..|log| - 1], log[|log| - 1])))
  }

  lemma {:induction false} LogOkAt(ch: Chart, log: seq<Event>, i: nat)
    requires LogOk(ch, log) && i < |log| && log[i].Entered?
    ensures EntryOk(ch, log[..i], log[i])
  {
    if i < |log| - 1 {
      LogOkAt(ch, log[..|log| - 1], i);
      assert log[..|log| - 1][..i] == log[..i];
    }
  }

  lemma LogSnoc(ch: Chart, log: seq<Event>, e: Event)
    ensures (log + [e])[..|log + [e]| - 1] == log
    ensures LogOk(ch, log + [e]) <==> LogOk(ch, log) && (e.Entered? ==> EntryOk(ch, log, e))
  {
    assert (log + [e])[..|log + [e]| - 1] == log;
  }

  // ----- The invariants -----

  ghost predicate Declared(ch: Chart, d: Declaration) {
    IsState(ch, d.owner) && d in ch.states[d.owner].declarations
  }

  /** The configuration is `conf`, its locals have values, and only locals of `ahead` do. */
  ghost predicate Located(ch: Chart, sn: Snapshot, conf: seq<StateId>, ahead: seq<StateId>) {
    && sn.config == conf
    && (forall d | d in sn.values :: Declared(ch, d))
    && (forall d | d in sn.values && d.scope.Local? :: d.owner in ahead)
    && (forall d | Declared(ch, d) && d.scope.Local? && d.owner in conf :: d in sn.values)
  }

  /** History and value history say what the log says. */
  ghost predicate HistoryLogged(ch: Chart, sn: Snapshot) {
    forall p :: LastExitedChild(ch, sn.log, p) == (if p in sn.history then Some(sn.history[p]) else None)
  }

  ghost predicate ValuesLogged(ch: Chart, sn: Snapshot) {
    forall s: StateId, d | IsState(ch, s) && d in ch.states[s].declarations ::
      SavedValue(sn.valueHistory, s, d) == LoggedValue(sn.log, s, d)
  }

  /** No entry will dereference a missing value history. */
  ghost predicate StaticsReady(ch: Chart, sn: Snapshot) {
    forall s: StateId | IsState(ch, s) && HasStatic(ch.states[s].declarations) :: s in sn.valueHistory
  }

  ghost predicate StoresTyped(sn: Snapshot) {
    WellTyped(sn.values) && forall s | s in sn.valueHistory :: WellTyped(sn.valueHistory[s])
  }

  ghost predicate Kept(ch: Chart, sn: Snapshot) {
    HistoryLogged(ch, sn) && ValuesLogged(ch, sn) && StaticsReady(ch, sn) && StoresTyped(sn) && LogOk(ch, sn.log)
  }

  ghost predicate Inv(ch: Chart, sn: Snapshot, conf: seq<StateId>, ahead: seq<StateId>) {
    Located(ch, sn, conf, ahead) && Kept(ch, sn)
  }

  lemma {:induction false} ExitedChildIsChild(ch: Chart, log: seq<Event>, p: Option<StateId>)
    ensures
      var c := LastExitedChild(ch, log, p);
      c.Some? ==> IsState(ch, c.value) && ch.states[c.value].superstate == p
  {
    if log != [] { ExitedChildIsChild(ch, log[..|log| - 1], p); }
  }

  /** Every recorded history entry is a direct substate of its key. */
  lemma HistoryIsValid(ch: Chart, sn: Snapshot)
    requires IsTree(ch) && HistoryLogged(ch, sn)
    ensures HistoryValid(ch, sn)
  {
    forall s: StateId | Some(s) in sn.history ensures IsChild(ch, s, sn.history[Some(s)]) {
      ExitedChildIsChild(ch, sn.log, Some(s));
      assert LastExitedChild(ch, sn.log, Some(s)) == Some(sn.history[Some(s)]);
    }
  }

  // ----- Elementary operations -----

  lemma EntryValue(ch: Chart, sn: Snapshot, s: StateId, d: Declaration)
    requires IsState(ch, s) && d in ch.states[s].declarations
    ensures d.scope.Local? ==> d in Enter(ch, sn, s).values && Enter(ch, sn, s).values[d] == None
    ensures d.scope.Static? ==> ValueOf(Enter(ch, sn, s).values, d) == SavedValue(sn.valueHistory, s, d)
  {}

  lemma EnterLocated(ch: Chart, sn: Snapshot, s: StateId, conf: seq<StateId>, ahead: seq<StateId>)
    requires WellLinked(ch) && IsState(ch, s) && s in ahead && Located(ch, sn, conf, ahead)
    ensures Located(ch, Enter(ch, sn, s), conf + [s], ahead)
  {
    var sn' := Enter(ch, sn, s);
    forall d | Declared(ch, d) && d.scope.Local? && d.owner in conf + [s] ensures d in sn'.values {
      if d.owner == s { EntryValue(ch, sn, s, d); }
    }
  }

  lemma EnterValuesLogged(ch: Chart, sn: Snapshot, s: StateId)
    requires IsState(ch, s) && ValuesLogged(ch, sn)
    ensures ValuesLogged(ch, Enter(ch, sn, s)) && EntryOk(ch, sn.log, Entered(s, Enter(ch, sn, s).values))
  {
    var sn' := Enter(ch, sn, s);
    LogSnoc(ch, sn.log, Entered(s, sn'.values));
    forall d | d in ch.states[s].declarations && d.scope.Static?
      ensures ValueOf(sn'.values, d) == LoggedValue(sn.log, s, d)
    {
      EntryValue(ch, sn, s, d);
      assert SavedValue(sn.valueHistory, s, d) == LoggedValue(sn.log, s, d);
    }
    forall x: StateId, d | IsState(ch, x) && d in ch.states[x].declarations
      ensures SavedValue(sn'.valueHistory, x, d) == LoggedValue(sn'.log, x, d)
    {
      assert SavedValue(sn.valueHistory, x, d) == LoggedValue(sn.log, x, d);
    }
  }

  lemma EnterKept(ch: Chart, sn: Snapshot, s: StateId)
    requires WellLinked(ch) && IsState(ch, s) && Kept(ch, sn)
    ensures Kept(ch, Enter(ch, sn, s))
  {
    var sn' := Enter(ch, sn, s);
    LogSnoc(ch, sn.log, Entered(s, sn'.values));
    EnterValuesLogged(ch, sn, s);
    assert HistoryLogged(ch, sn') by {
      forall p ensures LastExitedChild(ch, sn'.log, p) == LastExitedChild(ch, sn.log, p) {}
    }
  }

  lemma ExitLocated(ch: Chart, sn: Snapshot, s: StateId)
    requires WellLinked(ch) && IsState(ch, s) && s != ROOT
    requires Located(ch, sn, Path(ch, s), Path(ch, s))
    ensures Located(ch, Exit(ch, sn, s), Path(ch, Super(ch, s)), Path(ch, Super(ch, s)))
  {
    PathOfSub(ch, s);
    RemoveLast(Path(ch, Super(ch, s)), s);
  }

  lemma {:induction false} RemoveLast(p: seq<StateId>, s: StateId)
    requires s !in p
    ensures RemoveFirst(p + [s], s) == p
  {
    if p == [] {
      assert [s][1..] == [];
    } else {
      assert (p + [s])[1..] == p[1..] + [s];
      RemoveLast(p[1..], s);
    }
  }

  lemma ExitValuesLogged(ch: Chart, sn: Snapshot, s: StateId)
    requires IsState(ch, s) && ValuesLogged(ch, sn)
    ensures ValuesLogged(ch, Exit(ch, sn, s))
  {
    var sn' := Exit(ch, sn, s);
    LogSnoc(ch, sn.log, Exited(s, sn.values));
    forall x: StateId, d | IsState(ch, x) && d in ch.states[x].declarations
      ensures SavedValue(sn'.valueHistory, x, d) == LoggedValue(sn'.log, x, d)
    {
      assert SavedValue(sn.valueHistory, x, d) == LoggedValue(sn.log, x, d);
    }
  }

  lemma ExitHistoryLogged(ch: Chart, sn: Snapshot, s: StateId)
    requires IsState(ch, s) && HistoryLogged(ch, sn)
    ensures HistoryLogged(ch, Exit(ch, sn, s))
  {
    var sn' := Exit(ch, sn, s);
    LogSnoc(ch, sn.log, Exited(s, sn.values));
    forall p ensures LastExitedChild(ch, sn'.log, p) == (if p in sn'.history then Some(sn'.history[p]) else None) {
      assert LastExitedChild(ch, sn.log, p) == (if p in sn.history then Some(sn.history[p]) else None);
    }
  }

  lemma ExitKept(ch: Chart, sn: Snapshot, s: StateId)
    requires WellLinked(ch) && IsState(ch, s) && Kept(ch, sn)
    ensures Kept(ch, Exit(ch, sn, s))
  {
    LogSnoc(ch, sn.log, Exited(s, sn.values));
    ExitValuesLogged(ch, sn, s);
    ExitHistoryLogged(ch, sn, s);
  }

  lemma ActKept(ch: Chart, sn: Snapshot, t: Transition)
    requires Kept(ch, sn)
    ensures Kept(ch, sn.(log := sn.log + [Acted(t)]))
  {
    var sn' := sn.(log := sn.log + [Acted(t)]);
    LogSnoc(ch, sn.log, Acted(t));
    forall p ensures LastExitedChild(ch, sn'.log, p) == LastExitedChild(ch, sn.log, p) {}
    forall x: StateId, d | IsState(ch, x) && d in ch.states[x].declarations
      ensures SavedValue(sn'.valueHistory, x, d) == LoggedValue(sn'.log, x, d)
    {
      assert SavedValue(sn.valueHistory, x, d) == LoggedValue(sn.log, x, d);
    }
  }

  /** A type-checked statement keeps everything, if what it may write lies in the states `ahead`. */
  lemma StatementInv(ch: Chart, fuel: nat, s: Statement, sn: Snapshot, renv: Env, wenv: Env,
                     conf: seq<StateId>, ahead: seq<StateId>, ahead': seq<StateId>)
    requires TypecheckStatement(s, renv, wenv) && Inv(ch, sn, conf, ahead)
    requires forall d | Declares(wenv, d) :: Declared(ch, d) && (d.scope.Local? ==> d.owner in ahead')
    requires forall x | x in ahead :: x in ahead'
    ensures
      var p := RunStatement(fuel, s, sn);
      !p.Stopped? && (p.Running? ==> Inv(ch, p.sn, conf, ahead') && p.sn.log == sn.log)
  {
    ExecutionWrites(fuel, s, sn.values, renv, wenv);
    ExecutionPreservesTypes(fuel, s, sn.values, renv, wenv);
    var r := Execute(fuel, s, sn.values);
    if r.Done? {
      var sn' := sn.(values := r.store);
      assert Kept(ch, sn') by {
        assert forall x: StateId, d | IsState(ch, x) && d in ch.states[x].declarations ::
          SavedValue(sn'.valueHistory, x, d) == SavedValue(sn.valueHistory, x, d);
        assert forall p :: LastExitedChild(ch, sn'.log, p) == LastExitedChild(ch, sn.log, p);
      }
      assert Located(ch, sn', conf, ahead');
    }
  }
}
