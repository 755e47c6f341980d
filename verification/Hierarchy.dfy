/** The state tree of a statechart: superstates, least upper bounds, names, environments. */
module Hierarchy {
  import opened Ast
  import opened Environments

  datatype Transition = Transition(name: string, source: StateId, destination: StateId, trigger: string,
                                   guard: Expression, action: Statement, placement: StateId)

  datatype State = State(name: string, superstate: Option<StateId>, states: seq<StateId>,
                         transitions: seq<Transition>, declarations: seq<Declaration>,
                         entry: Statement, exit: Statement, history: bool, region: bool, fin: bool)

  /** State 0 is the statechart itself. */
  datatype Chart = Chart(states: seq<State>, events: seq<string>)

  const ROOT: StateId := 0

  /** The links form a tree: constructors see their substates first, so a superstate is never below
      a substate, which the numbering records by giving it the smaller index. */
  ghost predicate IsTree(ch: Chart) {
    && |ch.states| > 0 && ch.states[ROOT].superstate == None
    && (forall s | 0 < s < |ch.states| ::
          && ch.states[s].superstate.Some?
          && ch.states[s].superstate.value < s
          && s in ch.states[ch.states[s].superstate.value].states)
    && (forall s, i | 0 <= s < |ch.states| && 0 <= i < |ch.states[s].states| ::
          IsChild(ch, s, ch.states[s].states[i]))
  }

  predicate IsChild(ch: Chart, s: StateId, c: StateId) {
    0 < c < |ch.states| && ch.states[c].superstate == Some(s)
  }

  predicate IsState(ch: Chart, s: StateId) { s < |ch.states| }

  function Super(ch: Chart, s: StateId): (p: StateId)
    requires IsTree(ch) && IsState(ch, s) && s != ROOT
    ensures p < s
  {
    ch.states[s].superstate.value
  }

  /** All proper superstates, root first. */
  function Supers(ch: Chart, s: StateId): (r: seq<StateId>)
    requires IsTree(ch) && IsState(ch, s)
    ensures forall a | a in r :: a < s
  {
    if s == ROOT then [] else Supers(ch, Super(ch, s)) + [Super(ch, s)]
  }

  /** The states from the root down to `s`. */
  function Path(ch: Chart, s: StateId): (r: seq<StateId>)
    requires IsTree(ch) && IsState(ch, s)
    ensures r != [] && r[|r| - 1] == s
    ensures forall a | a in r :: a <= s
  {
    Supers(ch, s) + [s]
  }

  predicate IsAncestor(ch: Chart, a: StateId, s: StateId)
    requires IsTree(ch) && IsState(ch, s)
  {
    a in Supers(ch, s)
  }

  lemma PathOfSub(ch: Chart, s: StateId)
    requires IsTree(ch) && IsState(ch, s) && s != ROOT
    ensures Supers(ch, s) == Path(ch, Super(ch, s)) && Path(ch, s) == Path(ch, Super(ch, s)) + [s]
  {}

  /** A path passes through the paths of its states. */
  lemma {:induction false} PathPrefix(ch: Chart, s: StateId, i: nat)
    requires IsTree(ch) && IsState(ch, s) && i < |Path(ch, s)|
    ensures IsState(ch, Path(ch, s)[i]) && Path(ch, Path(ch, s)[i]) == Path(ch, s)[..i + 1]
  {
    if i == |Path(ch, s)| - 1 {
      assert Path(ch, s)[..i + 1] == Path(ch, s);
    } else {
      PathPrefix(ch, Super(ch, s), i);
      assert Path(ch, s)[..i + 1] == Path(ch, Super(ch, s))[..i + 1];
    }
  }

  lemma {:induction false} PathStrict(ch: Chart, s: StateId)
    requires IsTree(ch) && IsState(ch, s)
    ensures forall i, j | 0 <= i < j < |Path(ch, s)| :: Path(ch, s)[i] < Path(ch, s)[j]
  {
    if s != ROOT {
      PathStrict(ch, Super(ch, s));
      PathOfSub(ch, s);
      var p := Path(ch, Super(ch, s));
      forall i | 0 <= i < |p| ensures p[i] < s { assert p[i] in p; }
    }
  }

  /** `a` is above or at `s` exactly when its path begins the path of `s`. */
  lemma OnPath(ch: Chart, a: StateId, s: StateId)
    requires IsTree(ch) && IsState(ch, s)
    ensures a in Path(ch, s) <==> IsState(ch, a) && Path(ch, a) <= Path(ch, s)
  {
    if a in Path(ch, s) {
      var i :| 0 <= i < |Path(ch, s)| && Path(ch, s)[i] == a;
      PathPrefix(ch, s, i);
    }
    if IsState(ch, a) && Path(ch, a) <= Path(ch, s) {
      assert Path(ch, s)[|Path(ch, a)| - 1] == a;
    }
  }

  /** The substate of `p` on the path to `curr`. */
  function ActiveChild(ch: Chart, curr: StateId, p: StateId): (c: StateId)
    requires IsTree(ch) && IsState(ch, curr) && p in Path(ch, curr) && p != curr
    ensures IsState(ch, c) && c in Path(ch, curr) && c != ROOT && Super(ch, c) == p
  {
    ActiveChildIs(ch, curr, p);
    Path(ch, curr)[|Path(ch, p)|]
  }

  lemma ActiveChildIs(ch: Chart, curr: StateId, p: StateId)
    requires IsTree(ch) && IsState(ch, curr) && p in Path(ch, curr) && p != curr
    ensures IsState(ch, p) && |Path(ch, p)| < |Path(ch, curr)|
    ensures
      var c := Path(ch, curr)[|Path(ch, p)|];
      IsState(ch, c) && c in Path(ch, curr) && c != ROOT && Super(ch, c) == p
  {
    OnPath(ch, p, curr);
    var n := |Path(ch, p)|;
    assert Path(ch, curr)[|Path(ch, curr)| - 1] == curr && Path(ch, p)[n - 1] == p == Path(ch, curr)[n - 1];
    var c := Path(ch, curr)[n];
    PathPrefix(ch, curr, n);
    assert |Path(ch, ROOT)| == 1;
    if c != ROOT {
      PathOfSub(ch, c);
      assert Path(ch, Super(ch, c)) == Path(ch, curr)[..n] == Path(ch, p);
      assert Path(ch, p)[n - 1] == p;
    }
  }

  // ----- Least upper bound -----

  /** The last element that two lists share before they part. */
  function LastCommon(a1: seq<StateId>, a2: seq<StateId>): Option<StateId> {
    if a1 == [] || a2 == [] || a1[0] != a2[0] then None
    else
      var rest := LastCommon(a1[1..], a2[1..]);
      if rest.Some? then rest else Some(a1[0])
  }

  function Lub(ch: Chart, s1: StateId, s2: StateId): Option<StateId>
    requires IsTree(ch) && IsState(ch, s1) && IsState(ch, s2)
  {
    LastCommon(Supers(ch, s1), Supers(ch, s2))
  }

  /** The destructive walk: removes equal heads, remembering the last. */
  method ComputeLub(ch: Chart, s1: StateId, s2: StateId) returns (cca: Option<StateId>)
    requires IsTree(ch) && IsState(ch, s1) && IsState(ch, s2)
    ensures cca == Lub(ch, s1, s2)
  {
    var a1, a2 := Supers(ch, s1), Supers(ch, s2);
    cca := None;
    while |a1| != 0 && |a2| != 0
      invariant Lub(ch, s1, s2) == (var rest := LastCommon(a1, a2); if rest.Some? then rest else cca)
      decreases |a1|
    {
      if a1[0] == a2[0] {
        cca := Some(a1[0]);
        a1 := a1[1..];
        a2 := a2[1..];
      } else {
        break;
      }
    }
  }

  lemma {:induction false} LastCommonIsPrefix(a1: seq<StateId>, a2: seq<StateId>) returns (n: nat)
    ensures n <= |a1| && n <= |a2| && a1[..n] == a2[..n]
    ensures n < |a1| && n < |a2| ==> a1[n] != a2[n]
    ensures LastCommon(a1, a2) == if n == 0 then None else Some(a1[n - 1])
  {
    if a1 == [] || a2 == [] || a1[0] != a2[0] {
      n := 0;
    } else {
      var k := LastCommonIsPrefix(a1[1..], a2[1..]);
      n := k + 1;
      assert a1[..n] == [a1[0]] + a1[1..][..k] && a2[..n] == [a2[0]] + a2[1..][..k];
    }
  }

  /** `lub` is the deepest common proper superstate: it is one, and every other is above it. */
  lemma LubIsDeepest(ch: Chart, s1: StateId, s2: StateId)
    requires IsTree(ch) && IsState(ch, s1) && IsState(ch, s2)
    ensures Lub(ch, s1, s2) == None <==> s1 == ROOT || s2 == ROOT
    ensures
      var l := Lub(ch, s1, s2);
      l.Some? ==>
        && IsAncestor(ch, l.value, s1) && IsAncestor(ch, l.value, s2)
        && (forall c | IsAncestor(ch, c, s1) && IsAncestor(ch, c, s2) :: c == l.value || IsAncestor(ch, c, l.value))
  {
    if s1 != ROOT && s2 != ROOT {
      var p1, p2 := Super(ch, s1), Super(ch, s2);
      var n := LastCommonIsPrefix(Path(ch, p1), Path(ch, p2));
      RootFirst(ch, p1);
      RootFirst(ch, p2);
      var l := Path(ch, p1)[n - 1];
      PathPrefix(ch, p1, n - 1);
      assert l == Path(ch, p1)[..n][n - 1] == Path(ch, p2)[n - 1];
      forall c | c in Path(ch, p1) && c in Path(ch, p2) ensures c in Path(ch, l) {
        OnPath(ch, c, p1);
        OnPath(ch, c, p2);
        CommonPrefix(Path(ch, c), Path(ch, p1), Path(ch, p2), n);
      }
    }
  }

  /** A common prefix ends where the two lists part. */
  lemma CommonPrefix(p: seq<StateId>, a1: seq<StateId>, a2: seq<StateId>, n: nat)
    requires p != [] && p <= a1 && p <= a2 && n <= |a1| && n <= |a2|
    requires n < |a1| && n < |a2| ==> a1[n] != a2[n]
    ensures p[|p| - 1] in a1[..n]
  {
    assert forall j | 0 <= j < |p| :: p[j] == a1[j] && p[j] == a2[j];
    assert a1[..n][|p| - 1] == p[|p| - 1];
  }

  lemma {:induction false} RootFirst(ch: Chart, s: StateId)
    requires IsTree(ch) && IsState(ch, s)
    ensures Path(ch, s)[0] == ROOT
  {
    if s != ROOT { RootFirst(ch, Super(ch, s)); }
  }

  // ----- Names -----

  /** No two substates of a state share a name. */
  ghost predicate DistinctSiblings(ch: Chart) {
    forall s, i, j | 0 <= s < |ch.states| && 0 <= i < j < |ch.states[s].states| ::
      SiblingsDiffer(ch, ch.states[s].states[i], ch.states[s].states[j])
  }

  predicate SiblingsDiffer(ch: Chart, a: StateId, b: StateId) {
    IsState(ch, a) && IsState(ch, b) ==> ch.states[a].name != ch.states[b].name
  }

  /** Name components of a state, statechart first. */
  function NamePath(ch: Chart, s: StateId): (r: seq<string>)
    requires IsTree(ch) && IsState(ch, s)
    ensures r != []
  {
    if s == ROOT then [ch.states[s].name] else NamePath(ch, Super(ch, s)) + [ch.states[s].name]
  }

  predicate AllStates(ch: Chart, children: seq<StateId>) {
    forall i | 0 <= i < |children| :: IsState(ch, children[i])
  }

  /** First substate with the name. */
  function FindChild(ch: Chart, children: seq<StateId>, name: string): (r: Option<StateId>)
    requires AllStates(ch, children)
    ensures r.Some? ==> r.value in children && IsState(ch, r.value) && ch.states[r.value].name == name
  {
    if children == [] then None
    else if ch.states[children[0]].name == name then Some(children[0])
    else FindChild(ch, children[1..], name)
  }

  /** Resolves the components after the one that names `s` itself. */
  function Resolve(ch: Chart, s: StateId, rest: seq<string>): Option<StateId>
    requires IsTree(ch) && IsState(ch, s)
    decreases |rest|
  {
    if rest == [] then Some(s)
    else
      var c := FindChild(ch, ch.states[s].states, rest[0]);
      if c.None? then None else Resolve(ch, c.value, rest[1..])
  }

  function NameToState(ch: Chart, name: seq<string>): Option<StateId>
    requires IsTree(ch) && name != []
  {
    if ch.states[ROOT].name == name[0] then Resolve(ch, ROOT, name[1..]) else None
  }

  lemma {:induction false} FindChildComplete(ch: Chart, children: seq<StateId>, k: nat)
    requires AllStates(ch, children) && k < |children|
    requires forall i, j | 0 <= i < j < |children| :: ch.states[children[i]].name != ch.states[children[j]].name
    ensures FindChild(ch, children, ch.states[children[k]].name) == Some(children[k])
  {
    if k > 0 {
      assert ch.states[children[0]].name != ch.states[children[k]].name;
      FindChildComplete(ch, children[1..], k - 1);
    }
  }

  /** The substate found by name belongs to the state. */
  lemma FoundChild(ch: Chart, s: StateId, name: string)
    requires IsTree(ch) && IsState(ch, s)
    ensures
      var r := FindChild(ch, ch.states[s].states, name);
      r.Some? ==> r.value != ROOT && Super(ch, r.value) == s && NamePath(ch, r.value) == NamePath(ch, s) + [name]
  {
    var r := FindChild(ch, ch.states[s].states, name);
    if r.Some? {
      var i :| 0 <= i < |ch.states[s].states| && ch.states[s].states[i] == r.value;
      assert IsChild(ch, s, ch.states[s].states[i]);
    }
  }

  /** A substate is found by its own name. */
  lemma FindsChild(ch: Chart, c: StateId)
    requires IsTree(ch) && DistinctSiblings(ch) && IsState(ch, c) && c != ROOT
    ensures FindChild(ch, ch.states[Super(ch, c)].states, ch.states[c].name) == Some(c)
  {
    var s := Super(ch, c);
    var k :| 0 <= k < |ch.states[s].states| && ch.states[s].states[k] == c;
    forall i, j | 0 <= i < j < |ch.states[s].states|
      ensures ch.states[ch.states[s].states[i]].name != ch.states[ch.states[s].states[j]].name
    {
      assert SiblingsDiffer(ch, ch.states[s].states[i], ch.states[s].states[j]);
    }
    FindChildComplete(ch, ch.states[s].states, k);
  }

  /** Whatever a path resolves to is called by that path. */
  lemma {:induction false} ResolveSound(ch: Chart, s: StateId, rest: seq<string>)
    requires IsTree(ch) && IsState(ch, s) && Resolve(ch, s, rest).Some?
    ensures
      var r := Resolve(ch, s, rest).value;
      IsState(ch, r) && NamePath(ch, r) == NamePath(ch, s) + rest
    decreases |rest|
  {
    if rest == [] {
      assert NamePath(ch, s) + [] == NamePath(ch, s);
    } else {
      FoundChild(ch, s, rest[0]);
      var c := FindChild(ch, ch.states[s].states, rest[0]).value;
      ResolveSound(ch, c, rest[1..]);
      Rejoin(NamePath(ch, s), rest);
    }
  }

  lemma Rejoin(a: seq<string>, rest: seq<string>)
    requires rest != []
    ensures a + [rest[0]] + rest[1..] == a + rest
  {}

  lemma {:induction false} ResolveSnoc(ch: Chart, s: StateId, rest: seq<string>, c: StateId)
    requires IsTree(ch) && DistinctSiblings(ch) && IsState(ch, s) && IsState(ch, c) && c != ROOT
    requires Resolve(ch, s, rest) == Some(Super(ch, c))
    ensures Resolve(ch, s, rest + [ch.states[c].name]) == Some(c)
    decreases |rest|
  {
    var name := ch.states[c].name;
    if rest == [] {
      FindsChild(ch, c);
      assert rest + [name] == [name] && [name][1..] == [];
    } else {
      var d := FindChild(ch, ch.states[s].states, rest[0]).value;
      ResolveSnoc(ch, d, rest[1..], c);
      assert (rest + [name])[0] == rest[0] && (rest + [name])[1..] == rest[1..] + [name];
    }
  }

  lemma {:induction false} NamePathResolves(ch: Chart, s: StateId)
    requires IsTree(ch) && DistinctSiblings(ch) && IsState(ch, s)
    ensures NameToState(ch, NamePath(ch, s)) == Some(s)
  {
    if s != ROOT {
      var p := NamePath(ch, Super(ch, s));
      NamePathResolves(ch, Super(ch, s));
      ResolveSnoc(ch, ROOT, p[1..], s);
      assert NamePath(ch, s)[1..] == p[1..] + [ch.states[s].name];
    }
  }

  /** Names and states are mutually inverse: a name resolves to `s` exactly when it is its path. */
  lemma NamesMatchStates(ch: Chart, name: seq<string>, s: StateId)
    requires IsTree(ch) && DistinctSiblings(ch) && IsState(ch, s) && name != []
    ensures NameToState(ch, name) == Some(s) <==> name == NamePath(ch, s)
  {
    NamePathResolves(ch, s);
    if NameToState(ch, name) == Some(s) {
      ResolveSound(ch, ROOT, name[1..]);
      assert [name[0]] + name[1..] == name;
    }
  }

  // ----- Environments of states and transitions -----

  function EnvironmentOf(ch: Chart, s: StateId): (e: Env)
    requires IsTree(ch) && IsState(ch, s)
    ensures e.Env? && e.decls == ch.states[s].declarations
  {
    Env(ch.states[s].declarations, if s == ROOT then NoEnv else EnvironmentOf(ch, Super(ch, s)))
  }

  lemma {:induction false} EnvironmentDeclares(ch: Chart, s: StateId, d: Declaration)
    requires IsTree(ch) && IsState(ch, s)
    ensures Declares(EnvironmentOf(ch, s), d) <==>
      exists a :: a in Path(ch, s) && IsState(ch, a) && d in ch.states[a].declarations
  {
    if s == ROOT {
      assert Path(ch, s) == [s];
      assert !Declares(NoEnv, d);
      assert s in Path(ch, s);
    } else {
      var p := Super(ch, s);
      EnvironmentDeclares(ch, p, d);
      PathOfSub(ch, s);
      assert forall a :: a in Path(ch, s) <==> a in Path(ch, p) || a == s;
    }
  }

  lemma {:induction false} AncestorEnvironment(ch: Chart, a: StateId, s: StateId)
    requires IsTree(ch) && IsState(ch, s) && IsAncestor(ch, a, s)
    ensures IsState(ch, a) && ProperSuffix(EnvironmentOf(ch, a), EnvironmentOf(ch, s))
  {
    if a != Super(ch, s) {
      AncestorEnvironment(ch, a, Super(ch, s));
    }
  }

  function ParametersOf(decls: seq<Declaration>): (r: seq<Declaration>)
    ensures forall d | d in r :: d in decls && d.scope.Parameter?
    ensures forall d | d in decls && d.scope.Parameter? :: d in r
  {
    if decls == [] then []
    else (if decls[0].scope.Parameter? then [decls[0]] else []) + ParametersOf(decls[1..])
  }

  predicate HasEnds(ch: Chart, t: Transition) {
    IsState(ch, t.source) && IsState(ch, t.destination) && IsState(ch, t.placement)
  }

  function ReadEnvironment(ch: Chart, t: Transition): Env
    requires IsTree(ch) && HasEnds(ch, t)
  {
    EnvironmentOf(ch, t.source)
  }

  function RWEnvironment(ch: Chart, t: Transition): Env
    requires IsTree(ch) && HasEnds(ch, t)
  {
    EnvironmentOf(ch, t.placement)
  }

  function ReadOnlyEnvironment(ch: Chart, t: Transition): Env
    requires IsTree(ch) && HasEnds(ch, t)
  {
    CopyExclusive(EnvironmentOf(ch, t.source), EnvironmentOf(ch, t.placement))
  }

  function WriteOnlyEnvironment(ch: Chart, t: Transition): (e: Env)
    requires IsTree(ch) && HasEnds(ch, t)
    ensures e.Env?
  {
    CopyExclusive(Env(ParametersOf(ch.states[t.destination].declarations), EnvironmentOf(ch, t.destination).next),
                  EnvironmentOf(ch, t.placement))
  }

  function WriteEnvironment(ch: Chart, t: Transition): Env
    requires IsTree(ch) && HasEnds(ch, t)
  {
    CopyInclusive(WriteOnlyEnvironment(ch, t), EnvironmentOf(ch, t.placement))
  }

  /** The placement rule of the type checker. */
  predicate PlacedAtLub(ch: Chart, t: Transition)
    requires IsTree(ch) && HasEnds(ch, t)
  {
    Lub(ch, t.source, t.destination) == Some(t.placement)
  }

  /** A placed transition reads what its source sees, split into read-only and read-write parts. */
  lemma ReadEnvironmentSplits(ch: Chart, t: Transition)
    requires IsTree(ch) && HasEnds(ch, t) && PlacedAtLub(ch, t)
    ensures ReadOnlyEnvironment(ch, t).Env?
    ensures CopyInclusive(ReadOnlyEnvironment(ch, t), RWEnvironment(ch, t)) == ReadEnvironment(ch, t)
  {
    LubIsDeepest(ch, t.source, t.destination);
    AncestorEnvironment(ch, t.placement, t.source);
    CutAndRejoin(EnvironmentOf(ch, t.source), EnvironmentOf(ch, t.placement));
  }

  /** A placed transition writes parameters of its destination and what the superstate sees. */
  lemma WriteEnvironmentIs(ch: Chart, t: Transition)
    requires IsTree(ch) && HasEnds(ch, t) && PlacedAtLub(ch, t)
    ensures t.destination != ROOT
    ensures WriteEnvironment(ch, t)
         == Env(ParametersOf(ch.states[t.destination].declarations), EnvironmentOf(ch, Super(ch, t.destination)))
  {
    LubIsDeepest(ch, t.source, t.destination);
    AncestorEnvironment(ch, t.placement, t.destination);
    var env := EnvironmentOf(ch, t.placement);
    var head := Env(ParametersOf(ch.states[t.destination].declarations), EnvironmentOf(ch, t.destination).next);
    assert ProperSuffix(env, head);
    CutAndRejoin(head, env);
  }

  /** Hence a written name is a parameter of the destination first, and otherwise resolves as in the
      destination's superstate. */
  lemma WriteLookup(ch: Chart, t: Transition, name: string)
    requires IsTree(ch) && HasEnds(ch, t) && PlacedAtLub(ch, t)
    ensures t.destination != ROOT
    ensures
      var p := LookupDecl(ParametersOf(ch.states[t.destination].declarations), name);
      Lookup(WriteEnvironment(ch, t), name)
        == if p.Some? then p else Lookup(EnvironmentOf(ch, Super(ch, t.destination)), name)
  {
    WriteEnvironmentIs(ch, t);
  }
}
