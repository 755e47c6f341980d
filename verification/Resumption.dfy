/** History states over whole runs: which substate a step records, and which one a later step
    resumes. */
module Resumption {
  import opened Ast
  import opened Hierarchy
  import opened Typechecker
  import opened ExecutionStates
  import opened Simulation
  import opened Invariants
  import opened Runs

  type History = map<Option<StateId>, StateId>

  function Recorded(h: History, p: StateId): Option<StateId> {
    if Some(p) in h then Some(h[Some(p)]) else None
  }

  /** From `curr` up to `lub`, a state is passed if it is on the path and not above `lub`, and it is
      not `curr` itself. */
  predicate Passed(ch: Chart, curr: StateId, lub: StateId, p: StateId)
    requires IsTree(ch) && IsState(ch, curr)
  {
    p != curr && p in Path(ch, curr) && IsState(ch, p) && lub in Path(ch, p)
  }

  /** What leaving `curr` up to `lub` records: for every state passed, its active child; nothing else
      changes. */
  ghost predicate RecordsPath(ch: Chart, h: History, h': History, curr: StateId, lub: StateId)
    requires IsTree(ch) && IsState(ch, curr)
  {
    forall p: StateId ::
      Recorded(h', p) == if Passed(ch, curr, lub, p) then Some(ActiveChild(ch, curr, p)) else Recorded(h, p)
  }

  lemma NonePassed(ch: Chart, curr: StateId)
    requires IsTree(ch) && IsState(ch, curr)
    ensures forall p: StateId :: !Passed(ch, curr, curr, p)
  {
    forall p: StateId ensures !Passed(ch, curr, curr, p) {
      OnPath(ch, p, curr);
    }
  }

  /** One exit, then the exits above it. */
  lemma RecordsMore(ch: Chart, h: History, h': History, current: StateId, lub: StateId)
    requires IsTree(ch) && IsState(ch, current) && current != ROOT && current != lub && lub in Path(ch, current)
    requires RecordsPath(ch, h[Some(Super(ch, current)) := current], h', Super(ch, current), lub)
    ensures RecordsPath(ch, h, h', current, lub)
  {
    var up := Super(ch, current);
    var h1 := h[Some(up) := current];
    PathOfSub(ch, current);
    forall p: StateId
      ensures Recorded(h', p)
           == if Passed(ch, current, lub, p) then Some(ActiveChild(ch, current, p)) else Recorded(h, p)
    {
      assert Recorded(h', p) == if Passed(ch, up, lub, p) then Some(ActiveChild(ch, up, p)) else Recorded(h1, p);
      PassedAbove(ch, current, lub, p);
    }
  }

  lemma PassedAbove(ch: Chart, current: StateId, lub: StateId, p: StateId)
    requires IsTree(ch) && IsState(ch, current) && current != ROOT && current != lub && lub in Path(ch, current)
    ensures
      var up := Super(ch, current);
      && (Passed(ch, current, lub, p) <==> p == up || Passed(ch, up, lub, p))
      && (p == up ==> p in Path(ch, current) && ActiveChild(ch, current, p) == current)
      && (Passed(ch, up, lub, p) ==> ActiveChild(ch, current, p) == ActiveChild(ch, up, p))
  {
    var up := Super(ch, current);
    PathOfSub(ch, current);
    if p == up {
      assert Path(ch, current)[|Path(ch, up)|] == current;
    } else if Passed(ch, up, lub, p) {
      ActiveChildIs(ch, up, p);
      assert Path(ch, current)[|Path(ch, p)|] == Path(ch, up)[|Path(ch, p)|];
    }
  }

  // ----- What the phases of a step record -----

  lemma {:induction false} ExitUpRecords(ch: Chart, fuel: nat, sn: Snapshot, current: StateId, lub: StateId)
    requires IsTree(ch) && IsState(ch, current) && lub in Path(ch, current)
    ensures
      var p := ExitUp(ch, fuel, sn, current, lub);
      p.Running? ==> RecordsPath(ch, sn.history, p.sn.history, current, lub)
    decreases current
  {
    if current == lub {
      NonePassed(ch, current);
    } else {
      PathOfRoot(ch);
      PathOfSub(ch, current);
      var p := RunStatement(fuel, ch.states[current].exit, sn);
      if p.Running? {
        var up := Super(ch, current);
        ExitUpRecords(ch, fuel, Exit(ch, p.sn, current), up, lub);
        var q := ExitUp(ch, fuel, Exit(ch, p.sn, current), up, lub);
        if q.Running? { RecordsMore(ch, sn.history, q.sn.history, current, lub); }
      }
    }
  }

  /** Entering records nothing. */
  lemma {:induction false} EnterDownRecords(ch: Chart, fuel: nat, sn: Snapshot, path: seq<StateId>)
    requires AllStates(ch, path)
    ensures
      var p := EnterDown(ch, fuel, sn, path);
      p.Running? ==> p.sn.history == sn.history
    decreases |path|
  {
    if path != [] {
      var p := RunStatement(fuel, ch.states[path[0]].entry, Enter(ch, sn, path[0]));
      if p.Running? { EnterDownRecords(ch, fuel, p.sn, path[1..]); }
    }
  }

  /** A composite state continues with the substate it recorded if it is a history state that has
      one, and with its first substate otherwise. */
  function Continues(ch: Chart, p: StateId, recorded: Option<StateId>): StateId
    requires IsTree(ch) && IsState(ch, p) && ch.states[p].states != []
  {
    if ch.states[p].history && recorded.Some? then recorded.value else ch.states[p].states[0]
  }

  predicate Takes(ch: Chart, sn: Snapshot, p: StateId, c: StateId)
    requires IsTree(ch) && IsState(ch, p)
  {
    ch.states[p].states != [] && c == Continues(ch, p, Recorded(sn.history, p))
  }

  /** The path from `s` down to `curr` takes what the histories give. */
  ghost predicate TakesDownTo(ch: Chart, sn: Snapshot, s: StateId, curr: StateId)
    requires IsTree(ch) && IsState(ch, curr)
  {
    forall p: StateId | Passed(ch, curr, s, p) :: Takes(ch, sn, p, ActiveChild(ch, curr, p))
  }

  lemma ResumesAbove(ch: Chart, sn: Snapshot, s: StateId, c: StateId, curr: StateId)
    requires IsTree(ch) && IsState(ch, curr) && IsState(ch, c) && c != ROOT && Super(ch, c) == s
    requires c in Path(ch, curr) && Takes(ch, sn, s, c) && TakesDownTo(ch, sn, c, curr)
    ensures s in Path(ch, curr) && TakesDownTo(ch, sn, s, curr)
  {
    OnPath(ch, c, curr);
    PathOfSub(ch, c);
    OnPath(ch, s, curr);
    forall q: StateId | Passed(ch, curr, s, q) ensures Takes(ch, sn, q, ActiveChild(ch, curr, q)) {
      PassedBelow(ch, curr, s, c, q);
    }
  }

  /** Descending records nothing, and it takes at every state the substate that the history known at
      the start gives. */
  lemma {:induction false} DescendResumes(ch: Chart, fuel: nat, sn: Snapshot, s: StateId)
    requires IsTree(ch) && IsState(ch, s) && HistoryValid(ch, sn)
    ensures
      var l := Descend(ch, fuel, sn, s);
      l.Landed? ==>
        && IsState(ch, l.curr) && l.sn.history == sn.history && s in Path(ch, l.curr)
        && TakesDownTo(ch, sn, s, l.curr)
    decreases |ch.states| - s
  {
    if ch.states[s].states == [] {
      NonePassed(ch, s);
    } else {
      var c := NextSubstate(ch, sn, s);
      var p := RunStatement(fuel, ch.states[c].entry, Enter(ch, sn, c));
      if p.Running? {
        DescendResumes(ch, fuel, p.sn, c);
        assert p.sn.history == sn.history;
        var l := Descend(ch, fuel, p.sn, c);
        if l.Landed? {
          ResumesAbove(ch, sn, s, c, l.curr);
        }
      }
    }
  }

  lemma PassedBelow(ch: Chart, curr: StateId, s: StateId, c: StateId, q: StateId)
    requires IsTree(ch) && IsState(ch, curr) && IsState(ch, c) && c != ROOT && Super(ch, c) == s
    requires c in Path(ch, curr) && s in Path(ch, curr) && Passed(ch, curr, s, q)
    ensures q == s ==> ActiveChild(ch, curr, q) == c
    ensures q != s ==> Passed(ch, curr, c, q)
  {
    OnPath(ch, c, curr);
    PathOfSub(ch, c);
    OnPath(ch, q, curr);
    OnPath(ch, s, q);
    var n := |Path(ch, s)|;
    if q == s {
      assert Path(ch, curr)[n] == Path(ch, c)[n] == c;
    } else {
      ActiveChildIs(ch, q, s);
      assert Path(ch, q)[n] == Path(ch, curr)[n] == Path(ch, c)[n];
    }
  }

  /** A round records the active child of every state that it leaves and of the LUB, and of no other. */
  lemma StepRecords(ch: Chart, fuel: nat, curr: StateId, sn: Snapshot, event: string)
    requires Typechecked(ch) && Stable(ch, sn, curr)
    ensures
      var r := Step(ch, fuel, curr, sn, event);
      r.Next? ==>
        && Select(ch, sn, curr, event).Take?
        && RecordsPath(ch, sn.history, r.sn.history, curr, Select(ch, sn, curr, event).t.placement)
  {
    var r := Step(ch, fuel, curr, sn, event);
    if r.Next? { StepDescends(ch, fuel, curr, sn, event); }
  }

  /** How a round ends: the histories that the descent from the destination consults are those that
      the exits recorded. */
  lemma StepDescends(ch: Chart, fuel: nat, curr: StateId, sn: Snapshot, event: string)
    requires Typechecked(ch) && Stable(ch, sn, curr) && Step(ch, fuel, curr, sn, event).Next?
    ensures
      var r, s := Step(ch, fuel, curr, sn, event), Select(ch, sn, curr, event);
      && s.Take? && HasEnds(ch, s.t) && PlacedAtLub(ch, s.t)
      && s.t.placement in Path(ch, curr) && s.t.destination in Path(ch, r.curr)
      && RecordsPath(ch, sn.history, r.sn.history, curr, s.t.placement)
      && TakesDownTo(ch, r.sn, s.t.destination, r.curr)
  {
    var t := Select(ch, sn, curr, event).t;
    SelectedFits(ch, sn, curr, event);
    PerformInv(ch, fuel, sn, curr, t);
    PerformRecords(ch, fuel, sn, curr, t);
    var p := Perform(ch, fuel, sn, curr, t);
    HistoryIsValid(ch, p.sn);
    DescendResumes(ch, fuel, p.sn, t.destination);
  }

  lemma PerformRecords(ch: Chart, fuel: nat, sn: Snapshot, curr: StateId, t: Transition)
    requires IsTree(ch) && IsState(ch, curr) && HasEnds(ch, t) && PlacedAtLub(ch, t) && t.placement in Path(ch, curr)
    ensures
      var p := Perform(ch, fuel, sn, curr, t);
      p.Running? ==> RecordsPath(ch, sn.history, p.sn.history, curr, t.placement)
  {
    LubIsDeepest(ch, t.source, t.destination);
    ExitUpRecords(ch, fuel, sn, curr, t.placement);
    var up := ExitUp(ch, fuel, sn, curr, t.placement);
    if up.Running? {
      var acted := RunStatement(fuel, t.action, up.sn.(log := up.sn.log + [Acted(t)]));
      if acted.Running? { EnterDownRecords(ch, fuel, acted.sn, Below(ch, t.placement, t.destination)); }
    }
  }

  // ----- Rounds of a run -----

  /** A finished round: the current state before it, and the LUB up to which it left states. */
  datatype Round = Round(curr: StateId, lub: StateId)

  ghost function RoundsFrom(ch: Chart, fuel: nat, curr: StateId, sn: Snapshot, events: seq<string>): seq<Round>
    requires Typechecked(ch) && Stable(ch, sn, curr)
    decreases |events|
  {
    if events == [] || !Step(ch, fuel, curr, sn, events[0]).Next? then []
    else
      var r := Step(ch, fuel, curr, sn, events[0]);
      [Round(curr, Select(ch, sn, curr, events[0]).t.placement)] + RoundsFrom(ch, fuel, r.curr, r.sn, events[1..])
  }

  /** All rounds of the simulation of `events`. */
  ghost function RoundsOf(ch: Chart, fuel: nat, events: seq<string>): seq<Round>
    requires Typechecked(ch) && StaticsPopulated(ch)
  {
    var s := Start(ch, fuel);
    if s.Next? then RoundsFrom(ch, fuel, s.curr, s.sn, events) else []
  }

  predicate Touched(ch: Chart, r: Round, p: StateId)
    requires IsTree(ch)
  {
    IsState(ch, r.curr) && Passed(ch, r.curr, r.lub, p)
  }

  /** The active child of `p` in the last round that touched it; `onlyLeft`: in the last round that
      left it, being its LUB does not count. */
  function LastActive(ch: Chart, rounds: seq<Round>, p: StateId, onlyLeft: bool): Option<StateId>
    requires IsTree(ch)
  {
    if rounds == [] then None
    else
      var r := rounds[|rounds| - 1];
      if Touched(ch, r, p) && (onlyLeft ==> p != r.lub) then Some(ActiveChild(ch, r.curr, p))
      else LastActive(ch, rounds[..|rounds| - 1], p, onlyLeft)
  }

  /** The substate of `p` that was active when `p` was last left. */
  function ActiveWhenLeft(ch: Chart, rounds: seq<Round>, p: StateId): Option<StateId>
    requires IsTree(ch)
  {
    LastActive(ch, rounds, p, true)
  }

  lemma LastActiveSnoc(ch: Chart, rounds: seq<Round>, r: Round, p: StateId, onlyLeft: bool)
    requires IsTree(ch)
    ensures LastActive(ch, rounds + [r], p, onlyLeft)
         == if Touched(ch, r, p) && (onlyLeft ==> p != r.lub) then Some(ActiveChild(ch, r.curr, p))
            else LastActive(ch, rounds, p, onlyLeft)
  {
    assert (rounds + [r])[..|rounds|] == rounds;
  }

  /** History holds the last active children; for composite states that are not active now, those are
      the children that were active when the state was last left. */
  ghost predicate Remembers(ch: Chart, sn: Snapshot, curr: StateId, rounds: seq<Round>)
    requires IsTree(ch) && IsState(ch, curr)
  {
    && (forall p: StateId :: Recorded(sn.history, p) == LastActive(ch, rounds, p, false))
    && (forall p: StateId | IsState(ch, p) && ch.states[p].states != [] && p !in Path(ch, curr) ::
          LastActive(ch, rounds, p, false) == ActiveWhenLeft(ch, rounds, p))
  }

  lemma PrefixesCompare(a: seq<StateId>, b: seq<StateId>, c: seq<StateId>)
    requires a <= c && b <= c
    ensures a <= b || b <= a
  {
    assert a == c[..|a|] && b == c[..|b|];
  }

  /** Of two states on a path one is above or at the other. */
  lemma Comparable(ch: Chart, curr: StateId, a: StateId, b: StateId)
    requires IsTree(ch) && IsState(ch, curr) && a in Path(ch, curr) && b in Path(ch, curr)
    ensures IsState(ch, a) && IsState(ch, b) && (a in Path(ch, b) || b in Path(ch, a))
  {
    OnPath(ch, a, curr);
    OnPath(ch, b, curr);
    PrefixesCompare(Path(ch, a), Path(ch, b), Path(ch, curr));
    OnPath(ch, a, b);
    OnPath(ch, b, a);
  }

  /** A composite state that is not active after a round was left by it, or was not active before. */
  lemma InactiveWasLeft(ch: Chart, curr: StateId, lub: StateId, curr': StateId, p: StateId)
    requires IsTree(ch) && IsState(ch, curr) && IsState(ch, curr') && IsState(ch, p)
    requires lub in Path(ch, curr) && lub in Path(ch, curr') && p != curr && p !in Path(ch, curr')
    ensures p != lub && (p in Path(ch, curr) ==> Passed(ch, curr, lub, p))
  {
    if p in Path(ch, curr) {
      Comparable(ch, curr, lub, p);
      if p in Path(ch, lub) {
        OnPath(ch, p, lub);
        OnPath(ch, lub, curr');
        OnPath(ch, p, curr');
      }
    }
  }

  lemma StepRemembers(ch: Chart, fuel: nat, curr: StateId, sn: Snapshot, event: string, rounds: seq<Round>)
    requires Typechecked(ch) && Stable(ch, sn, curr) && Step(ch, fuel, curr, sn, event).Next?
    requires Remembers(ch, sn, curr, rounds)
    ensures Select(ch, sn, curr, event).Take?
    ensures
      var r := Step(ch, fuel, curr, sn, event);
      Remembers(ch, r.sn, r.curr, rounds + [Round(curr, Select(ch, sn, curr, event).t.placement)])
  {
    var r := Step(ch, fuel, curr, sn, event);
    StepDescends(ch, fuel, curr, sn, event);
    StepOrder(ch, fuel, curr, sn, event);
    RoundRemembers(ch, sn, curr, rounds, Select(ch, sn, curr, event).t.placement, r.sn, r.curr);
  }

  lemma RoundRemembers(ch: Chart, sn: Snapshot, curr: StateId, rounds: seq<Round>, lub: StateId,
                       sn': Snapshot, curr': StateId)
    requires IsTree(ch) && IsState(ch, curr) && IsState(ch, curr') && ch.states[curr].states == []
    requires lub in Path(ch, curr) && lub in Path(ch, curr') && Remembers(ch, sn, curr, rounds)
    requires RecordsPath(ch, sn.history, sn'.history, curr, lub)
    ensures Remembers(ch, sn', curr', rounds + [Round(curr, lub)])
  {
    var round := Round(curr, lub);
    forall p: StateId ensures Recorded(sn'.history, p) == LastActive(ch, rounds + [round], p, false) {
      LastActiveSnoc(ch, rounds, round, p, false);
      assert Recorded(sn.history, p) == LastActive(ch, rounds, p, false);
    }
    forall p: StateId | IsState(ch, p) && ch.states[p].states != [] && p !in Path(ch, curr')
      ensures LastActive(ch, rounds + [round], p, false) == ActiveWhenLeft(ch, rounds + [round], p)
    {
      LastActiveSnoc(ch, rounds, round, p, false);
      LastActiveSnoc(ch, rounds, round, p, true);
      InactiveWasLeft(ch, curr, lub, curr', p);
    }
  }

  lemma LandingRemembers(ch: Chart, fuel: nat, sn: Snapshot)
    requires IsTree(ch) && sn.history == map[]
    ensures HistoryValid(ch, sn)
    ensures
      var l := AtomicState(ch, fuel, sn, ROOT, 1);
      l.Landed? ==>
        && IsState(ch, l.curr) && Remembers(ch, l.sn, l.curr, [])
        && forall p: StateId | Passed(ch, l.curr, ROOT, p) ::
             ch.states[p].states != [] && ActiveChild(ch, l.curr, p) == Continues(ch, p, None)
  {
    var p := RunStatement(fuel, ch.states[ROOT].entry, Enter(ch, sn, ROOT));
    if p.Running? { DescendResumes(ch, fuel, p.sn, ROOT); }
  }

  /** At the start nothing is remembered, and every composite state begins with its first substate. */
  lemma StartRemembers(ch: Chart, fuel: nat)
    requires Typechecked(ch) && StaticsPopulated(ch)
    ensures
      var s := Start(ch, fuel);
      s.Next? ==>
        && Remembers(ch, s.sn, s.curr, [])
        && forall p: StateId | Passed(ch, s.curr, ROOT, p) ::
             ch.states[p].states != [] && ActiveChild(ch, s.curr, p) == Continues(ch, p, None)
  {
    InitialBlank(ch);
    LandingRemembers(ch, fuel, Initial(ch));
  }

  lemma RegroupRounds(a: seq<Round>, r: Round, b: seq<Round>)
    ensures a + [r] + b == a + ([r] + b)
  {}

  lemma {:induction false} RunRemembers(ch: Chart, fuel: nat, curr: StateId, sn: Snapshot, events: seq<string>,
                                        rounds: seq<Round>)
    requires Typechecked(ch) && Stable(ch, sn, curr) && Remembers(ch, sn, curr, rounds)
    ensures
      var r := Run(ch, fuel, curr, sn, events);
      r.Next? ==> Remembers(ch, r.sn, r.curr, rounds + RoundsFrom(ch, fuel, curr, sn, events))
    decreases |events|
  {
    if events == [] {
      assert rounds + [] == rounds;
    } else {
      var r := Step(ch, fuel, curr, sn, events[0]);
      if r.Next? {
        StepRemembers(ch, fuel, curr, sn, events[0], rounds);
        var round := Round(curr, Select(ch, sn, curr, events[0]).t.placement);
        RunRemembers(ch, fuel, r.curr, r.sn, events[1..], rounds + [round]);
        RegroupRounds(rounds, round, RoundsFrom(ch, fuel, r.curr, r.sn, events[1..]));
      }
    }
  }

  lemma RunFromStart(ch: Chart, fuel: nat, curr: StateId, sn: Snapshot, events: seq<string>)
    requires Typechecked(ch) && Stable(ch, sn, curr) && Remembers(ch, sn, curr, [])
    ensures
      var r := Run(ch, fuel, curr, sn, events);
      r.Next? ==> Remembers(ch, r.sn, r.curr, RoundsFrom(ch, fuel, curr, sn, events))
  {
    RunRemembers(ch, fuel, curr, sn, events, []);
    assert [] + RoundsFrom(ch, fuel, curr, sn, events) == RoundsFrom(ch, fuel, curr, sn, events);
  }

  /** In every reachable state, history holds the active child of the last round that touched a
      state; for a state that is not active, that is the child that was active when it was last left. */
  lemma ReachableRemembers(ch: Chart, fuel: nat, events: seq<string>, curr: StateId, sn: Snapshot)
    requires Typechecked(ch) && StaticsPopulated(ch) && ReachedBy(ch, fuel, events, curr, sn)
    ensures IsState(ch, curr) && Remembers(ch, sn, curr, RoundsOf(ch, fuel, events))
  {
    StartRemembers(ch, fuel);
    var s := Start(ch, fuel);
    RunFromStart(ch, fuel, s.curr, s.sn, events);
  }

  /** What a round from a remembered state resumes. */
  lemma StepResumes(ch: Chart, fuel: nat, curr: StateId, sn: Snapshot, event: string, rounds: seq<Round>, p: StateId)
    requires Typechecked(ch) && Stable(ch, sn, curr) && Step(ch, fuel, curr, sn, event).Next?
    requires Remembers(ch, sn, curr, rounds)
    ensures
      var r, s := Step(ch, fuel, curr, sn, event), Select(ch, sn, curr, event);
      && s.Take?
      && (Passed(ch, r.curr, s.t.destination, p) ==>
            && ch.states[p].states != []
            && ActiveChild(ch, r.curr, p)
               == Continues(ch, p, ActiveWhenLeft(ch, rounds + [Round(curr, s.t.placement)], p)))
  {
    var r := Step(ch, fuel, curr, sn, event);
    StepDescends(ch, fuel, curr, sn, event);
    var t := Select(ch, sn, curr, event).t;
    if Passed(ch, r.curr, t.destination, p) {
      var round := Round(curr, t.placement);
      LastActiveSnoc(ch, rounds, round, p, false);
      LastActiveSnoc(ch, rounds, round, p, true);
      BelowDestination(ch, t, p);
      assert Takes(ch, r.sn, p, ActiveChild(ch, r.curr, p));
      assert Recorded(r.sn.history, p)
          == if Passed(ch, curr, t.placement, p) then Some(ActiveChild(ch, curr, p)) else Recorded(sn.history, p);
    }
  }

  lemma BelowDestination(ch: Chart, t: Transition, p: StateId)
    requires IsTree(ch) && HasEnds(ch, t) && PlacedAtLub(ch, t) && IsState(ch, p) && t.destination in Path(ch, p)
    ensures p != t.placement && t.placement in Path(ch, p)
  {
    LubIsDeepest(ch, t.source, t.destination);
    OnPath(ch, t.destination, p);
    OnPath(ch, t.placement, t.destination);
    OnPath(ch, t.placement, p);
  }

  /** History over whole runs: after any reachable state, a round that enters a composite state at or
      below its destination resumes the child that was active when that state was last left, in this
      round or an earlier one, if it is a history state that was ever left; else its first substate. */
  lemma HistoryResumes(ch: Chart, fuel: nat, events: seq<string>, curr: StateId, sn: Snapshot, event: string,
                       p: StateId)
    requires Typechecked(ch) && StaticsPopulated(ch) && ReachedBy(ch, fuel, events, curr, sn)
    ensures
      var r, s := Step(ch, fuel, curr, sn, event), Select(ch, sn, curr, event);
      r.Next? ==>
        && s.Take?
        && var rounds := RoundsOf(ch, fuel, events) + [Round(curr, s.t.placement)];
        Passed(ch, r.curr, s.t.destination, p) ==>
          && ch.states[p].states != []
          && ActiveChild(ch, r.curr, p) == Continues(ch, p, ActiveWhenLeft(ch, rounds, p))
  {
    ReachableRemembers(ch, fuel, events, curr, sn);
    if Step(ch, fuel, curr, sn, event).Next? {
      StepResumes(ch, fuel, curr, sn, event, RoundsOf(ch, fuel, events), p);
    }
  }
}
