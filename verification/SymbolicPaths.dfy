/** Paths of the execution tree: nodes that extend a node, the states a transition passes, and which
    nodes are a path through a statement or a transition. */
module SymbolicPaths {
  import opened Ast
  import opened Hierarchy
  import opened Simulation
  import opened Runs
  import opened SymbolicEvaluation

  // ----- Extension -----

  /** `leaf` is on the path of `n`. */
  predicate Extends(n: SETNode, leaf: SETNode) {
    n == leaf || (n.parent.Some? && Extends(n.parent.value, leaf))
  }

  lemma {:induction false} ExtendsTransitive(a: SETNode, b: SETNode, c: SETNode)
    requires Extends(a, b) && Extends(b, c)
    ensures Extends(a, c)
  {
    if a != b { ExtendsTransitive(a.parent.value, b, c); }
  }

  lemma {:induction false} ExtendsDeeper(a: SETNode, b: SETNode)
    requires Extends(a, b) && Built(a)
    ensures Built(b) && a.treedepth >= b.treedepth && a.depth >= b.depth
    ensures a != b ==> a.treedepth > b.treedepth
  {
    if a != b { ExtendsDeeper(a.parent.value, b); }
  }

  /** Nodes built on the path of `leaf`. */
  ghost predicate Grown(ns: seq<SETNode>, leaf: SETNode) {
    forall n | n in ns :: Built(n) && Extends(n, leaf)
  }

  lemma GrownFrom(ns: seq<SETNode>, mid: SETNode, leaf: SETNode)
    requires Grown(ns, mid) && Extends(mid, leaf)
    ensures Grown(ns, leaf)
  {
    forall n | n in ns ensures Extends(n, leaf) { ExtendsTransitive(n, mid, leaf); }
  }

  /** At most `bound` recorded assignments, or no more than the leaf had. */
  ghost predicate Bounded(ns: seq<SETNode>, leaf: SETNode, bound: int) {
    forall n | n in ns :: n.depth <= leaf.depth || n.depth <= bound
  }

  // ----- Nodes and states -----

  function NewDecision(cond: SymExpr, leaf: SETNode): SETNode {
    NewNode(Decision(cond), Some(leaf))
  }

  lemma ChildExtends(kind: Kind, leaf: SETNode)
    requires Built(leaf) && !kind.Instruction?
    ensures Built(NewNode(kind, Some(leaf))) && Extends(NewNode(kind, Some(leaf)), leaf)
    ensures NewNode(kind, Some(leaf)).treedepth == leaf.treedepth + 1 && NewNode(kind, Some(leaf)).depth == leaf.depth
  {
    assert Extends(leaf, leaf);
  }

  predicate IsInstruction(s: Statement) {
    s.Assignment? || s.ExpressionStatement? || s.SkipStatement? || s.HaltStatement?
  }

  ghost predicate Deeper(ns: seq<SETNode>, k: int) {
    forall n | n in ns :: n.treedepth > k
  }

  lemma DeeperAlso(ns: seq<SETNode>, k: int, k': int)
    requires Deeper(ns, k) && k' <= k
    ensures Deeper(ns, k')
  {}

  /** The initial value of a variable's type. */
  function DefaultValue(t: Type): SymExpr {
    match t
    case IntType => Constant(IntegerConstant(0))
    case StringType => Constant(StringLiteral(" "))
    case BooleanType => Constant(BooleanConstant(false))
  }

  /** The states from `s` up to the first whose superstate has the placement state's name. */
  function Climb(ch: Chart, s: StateId, placement: StateId): (r: seq<StateId>)
    requires IsTree(ch) && IsState(ch, s) && IsState(ch, placement) && IsAncestor(ch, placement, s)
    ensures r != [] && AllStates(ch, r)
  {
    var p := Super(ch, s);
    if ch.states[p].name == ch.states[placement].name then [s]
    else
      assert p != placement && placement in Supers(ch, p);
      [s] + Climb(ch, p, placement)
  }

  /** First substates below the destination. */
  function FirstSubstates(ch: Chart, s: StateId): (r: seq<StateId>)
    requires IsTree(ch) && IsState(ch, s)
    ensures AllStates(ch, r)
    decreases |ch.states| - s
  {
    if ch.states[s].states == [] then []
    else
      assert IsChild(ch, s, ch.states[s].states[0]);
      var c := ch.states[s].states[0];
      [c] + FirstSubstates(ch, c)
  }

  datatype Phase = Leaving | EnteringDestination | EnteringSubstate

  // ----- The configuration of the engine -----

  function StatesIn(path: seq<StateId>): set<StateId> { set s | s in path }

  /** `LinkedHashSet.add`: a new element joins at the end. */
  function With(conf: seq<StateId>, s: StateId): seq<StateId> { if s in conf then conf else conf + [s] }

  /** `LinkedHashSet.remove`. */
  function Without(conf: seq<StateId>, s: StateId): (r: seq<StateId>)
    ensures forall x :: x in r <==> x in conf && x != s
  {
    if conf == [] then []
    else
      assert conf == [conf[0]] + conf[1..];
      (if conf[0] == s then [] else [conf[0]]) + Without(conf[1..], s)
  }

  lemma RemovedFrom(conf: seq<StateId>, s: StateId)
    ensures StatesIn(Without(conf, s)) == StatesIn(conf) - {s}
  {}

  lemma AddedTo(conf: seq<StateId>, s: StateId)
    ensures StatesIn(With(conf, s)) == StatesIn(conf) + {s}
  {}

  lemma PrefixSnoc(states: seq<StateId>, i: nat)
    requires i < |states|
    ensures StatesIn(states[..i + 1]) == StatesIn(states[..i]) + {states[i]}
  {
    assert states[..i + 1] == states[..i] + [states[i]];
  }

  lemma AllStatesIn(ch: Chart, states: seq<StateId>)
    ensures AllStates(ch, states) <==> forall s | s in StatesIn(states) :: IsState(ch, s)
  {
    assert forall i | 0 <= i < |states| :: states[i] in StatesIn(states);
  }

  /** The configuration after a transition: the source and the states above it up to the LUB leave,
      the destination and those above it join, and so do the first substates below it. */
  function ConfAfter(ch: Chart, conf: set<StateId>, t: Transition): set<StateId>
    requires IsTree(ch) && HasEnds(ch, t) && PlacedAtLub(ch, t)
  {
    LubIsDeepest(ch, t.source, t.destination);
    conf - StatesIn(Climb(ch, t.source, t.placement))
      + StatesIn(Climb(ch, t.destination, t.placement)) + StatesIn(FirstSubstates(ch, t.destination))
  }

  /** A state and everything below it, in preorder. */
  function AllStatesBelow(ch: Chart, s: StateId): (r: seq<StateId>)
    requires IsTree(ch) && IsState(ch, s)
    ensures AllStates(ch, r)
    decreases |ch.states| - s, |ch.states[s].states| + 1
  {
    [s] + BelowFrom(ch, s, 0)
  }

  /** Everything below the substates from the i-th on. */
  function BelowFrom(ch: Chart, s: StateId, i: nat): (r: seq<StateId>)
    requires IsTree(ch) && IsState(ch, s) && i <= |ch.states[s].states|
    ensures AllStates(ch, r)
    decreases |ch.states| - s, |ch.states[s].states| - i
  {
    if i == |ch.states[s].states| then []
    else
      assert IsChild(ch, s, ch.states[s].states[i]);
      AllStatesBelow(ch, ch.states[s].states[i]) + BelowFrom(ch, s, i + 1)
  }

  lemma {:induction false} ChildBelowFrom(ch: Chart, s: StateId, i: nat, j: nat, x: StateId)
    requires IsTree(ch) && IsState(ch, s) && i <= j < |ch.states[s].states|
    requires IsChild(ch, s, ch.states[s].states[j]) && x in AllStatesBelow(ch, ch.states[s].states[j])
    ensures x in BelowFrom(ch, s, i)
    decreases j - i
  {
    if i < j { ChildBelowFrom(ch, s, i + 1, j, x); }
  }

  /** The traversal meets every state below. */
  lemma {:induction false} TraversalComplete(ch: Chart, s: StateId, x: StateId)
    requires IsTree(ch) && IsState(ch, x) && s in Path(ch, x) && IsState(ch, s)
    ensures x in AllStatesBelow(ch, s)
    decreases |ch.states| - s
  {
    if x != s {
      var c := ActiveChild(ch, x, s);
      TraversalComplete(ch, c, x);
      var j :| 0 <= j < |ch.states[s].states| && ch.states[s].states[j] == c;
      ChildBelowFrom(ch, s, 0, j, x);
    }
  }

  function TransitionsOf(ch: Chart, states: seq<StateId>): (r: seq<Transition>)
    requires AllStates(ch, states)
    ensures forall t :: t in r <==> exists s :: s in states && t in ch.states[s].transitions
    decreases |states|
  {
    if states == [] then []
    else
      assert states == [states[0]] + states[1..];
      ch.states[states[0]].transitions + TransitionsOf(ch, states[1..])
  }

  /** The engine collects exactly the transitions of the chart. */
  lemma AllTransitions(ch: Chart, t: Transition)
    requires IsTree(ch)
    ensures t in TransitionsOf(ch, AllStatesBelow(ch, ROOT)) <==> InChart(ch, t)
  {
    forall s: StateId | IsState(ch, s) ensures s in AllStatesBelow(ch, ROOT) {
      RootOnPath(ch, s);
      TraversalComplete(ch, ROOT, s);
    }
  }

  lemma {:induction false} RootOnPath(ch: Chart, s: StateId)
    requires IsTree(ch) && IsState(ch, s)
    ensures ROOT in Path(ch, s)
  {
    if s != ROOT { RootOnPath(ch, Super(ch, s)); }
  }

  /** Leaves the configuration: the source has the name of a state in it. */
  predicate Outgoing(ch: Chart, conf: seq<StateId>, t: Transition) {
    IsState(ch, t.source) && exists s :: s in conf && IsState(ch, s) && ch.states[s].name == ch.states[t.source].name
  }

  // ----- What the states passed are -----

  /** Nothing between `s` and `q` is called like the placement state, but `q` is. */
  ghost predicate FirstNamed(ch: Chart, s: StateId, placement: StateId, q: StateId)
    requires IsTree(ch) && IsState(ch, s) && IsState(ch, placement)
  {
    && IsAncestor(ch, q, s) && IsState(ch, q) && ch.states[q].name == ch.states[placement].name
    && forall x: StateId | IsAncestor(ch, x, s) && x > q && IsState(ch, x) ::
         ch.states[x].name != ch.states[placement].name
  }

  lemma FirstNamedBelow(ch: Chart, s: StateId, placement: StateId, q: StateId)
    requires IsTree(ch) && IsState(ch, s) && s != ROOT && IsState(ch, placement)
    requires ch.states[Super(ch, s)].name != ch.states[placement].name
    requires FirstNamed(ch, Super(ch, s), placement, q)
    ensures FirstNamed(ch, s, placement, q)
  {
    forall x: StateId | IsAncestor(ch, x, s) && x > q && IsState(ch, x)
      ensures ch.states[x].name != ch.states[placement].name
    {
      assert x == Super(ch, s) || IsAncestor(ch, x, Super(ch, s));
    }
  }

  lemma BackwardsCons(s: StateId, rest: seq<StateId>)
    ensures Backwards([s] + rest) == Backwards(rest) + [s]
  {}

  /** Climbing passes the states from `s` up to below the nearest one with the placement's name,
      innermost first. */
  lemma {:induction false} ClimbStops(ch: Chart, s: StateId, placement: StateId) returns (q: StateId)
    requires IsTree(ch) && IsState(ch, s) && IsState(ch, placement) && IsAncestor(ch, placement, s)
    ensures FirstNamed(ch, s, placement, q) && q in Path(ch, s)
    ensures Backwards(Climb(ch, s, placement)) == Below(ch, q, s)
  {
    var p := Super(ch, s);
    if ch.states[p].name == ch.states[placement].name {
      q := p;
      ClimbedOne(ch, s);
    } else {
      q := ClimbStops(ch, p, placement);
      FirstNamedBelow(ch, s, placement, q);
      BelowSnoc(ch, s, q);
      BackwardsCons(s, Climb(ch, p, placement));
    }
  }

  lemma ClimbedOne(ch: Chart, s: StateId)
    requires IsTree(ch) && IsState(ch, s) && s != ROOT
    ensures Super(ch, s) in Path(ch, s) && Below(ch, Super(ch, s), s) == [s] == Backwards([s])
  {
    PathOfSub(ch, s);
    BelowSnoc(ch, s, Super(ch, s));
  }

  /** It reaches the placement state exactly if no state between carries its name too. */
  lemma ClimbExactly(ch: Chart, s: StateId, placement: StateId)
    requires IsTree(ch) && IsState(ch, s) && IsState(ch, placement) && IsAncestor(ch, placement, s)
    ensures placement in Path(ch, s)
    ensures Backwards(Climb(ch, s, placement)) == Below(ch, placement, s) <==> FirstNamed(ch, s, placement, placement)
  {
    var q := ClimbStops(ch, s, placement);
    if FirstNamed(ch, s, placement, placement) {
      assert q == placement;
    }
    if Backwards(Climb(ch, s, placement)) == Below(ch, placement, s) {
      OnPath(ch, q, s);
      OnPath(ch, placement, s);
      assert |Path(ch, q)| == |Path(ch, placement)|;
      assert Path(ch, q) == Path(ch, placement);
      assert q == placement;
    }
  }

  /** First substates make a chain of first children that ends in an atomic state. */
  lemma {:induction false} FirstSubstatesChain(ch: Chart, s: StateId)
    requires IsTree(ch) && IsState(ch, s)
    ensures
      var chain := [s] + FirstSubstates(ch, s);
      && (forall i | 0 <= i < |chain| :: IsState(ch, chain[i]))
      && (forall i | 0 < i < |chain| :: IsFirstChild(ch, chain[i - 1], chain[i]))
      && ch.states[chain[|chain| - 1]].states == []
    decreases |ch.states| - s
  {
    if ch.states[s].states != [] {
      var c := ch.states[s].states[0];
      assert IsChild(ch, s, c);
      FirstSubstatesChain(ch, c);
      var chain, rest := [s] + FirstSubstates(ch, s), [c] + FirstSubstates(ch, c);
      assert chain == [s] + rest;
      assert forall i | 0 < i < |chain| :: chain[i] == rest[i - 1];
      forall i | 0 < i < |chain| ensures IsFirstChild(ch, chain[i - 1], chain[i]) {
        if i > 1 { assert IsFirstChild(ch, rest[i - 2], rest[i - 1]); }
      }
    }
  }

  predicate IsFirstChild(ch: Chart, p: StateId, c: StateId) {
    IsState(ch, p) && ch.states[p].states != [] && ch.states[p].states[0] == c
  }

  ghost predicate DistinctNames(ch: Chart) {
    forall a: StateId, b: StateId | IsState(ch, a) && IsState(ch, b) && ch.states[a].name == ch.states[b].name :: a == b
  }

  lemma InBackwards(path: seq<StateId>, x: StateId)
    ensures x in Backwards(path) <==> x in path
  {
    if x in path {
      var i :| 0 <= i < |path| && path[i] == x;
      assert Backwards(path)[|path| - 1 - i] == x;
    }
  }

  lemma InClimb(ch: Chart, s: StateId, placement: StateId, x: StateId)
    requires IsTree(ch) && IsState(ch, s) && IsState(ch, placement) && IsAncestor(ch, placement, s) && DistinctNames(ch)
    ensures placement in Path(ch, s)
    ensures x in Climb(ch, s, placement) <==> x in Below(ch, placement, s)
  {
    ClimbExactly(ch, s, placement);
    InBackwards(Climb(ch, s, placement), x);
  }

  /** With distinct names, the configuration loses the states from the source up to below the LUB, and
      gains those from below the LUB down to the destination and its first substates. */
  lemma ConfAfterExactly(ch: Chart, conf: set<StateId>, t: Transition, x: StateId)
    requires IsTree(ch) && HasEnds(ch, t) && PlacedAtLub(ch, t) && DistinctNames(ch)
    ensures t.placement in Path(ch, t.source) && t.placement in Path(ch, t.destination)
    ensures x in ConfAfter(ch, conf, t) <==>
      || x in Below(ch, t.placement, t.destination) || x in FirstSubstates(ch, t.destination)
      || (x in conf && x !in Below(ch, t.placement, t.source))
  {
    LubIsDeepest(ch, t.source, t.destination);
    InClimb(ch, t.source, t.placement, x);
    InClimb(ch, t.destination, t.placement, x);
  }

  /** With distinct names, exactly the transitions whose source is in the configuration are outgoing. */
  lemma OutgoingExactly(ch: Chart, conf: seq<StateId>, t: Transition)
    requires AllStates(ch, conf) && IsState(ch, t.source) && DistinctNames(ch)
    ensures Outgoing(ch, conf, t) <==> t.source in conf
  {}

  // ----- Paths through statements -----

  /** Answers of the external solver to "is this satisfiable"; it may answer equal queries
      differently, so it also receives the number of the query. */
  type SatOracle = (nat, SymExpr) -> bool

  ghost predicate Feasible(sat: SatOracle, e: SymExpr) {
    exists q :: sat(q, e)
  }

  /** `n` is reached from `leaf` along a path through `s`: a node for each assignment, and for each
      conditional a decision node and a path through a side that the solver found feasible.  Loops are
      passed over. */
  ghost predicate Along(sat: SatOracle, s: Statement, leaf: SETNode, n: SETNode)
    decreases s, 1
  {
    match s
    case Assignment(_, d, rhs) => n == NewInstruction(d, Embed(rhs), leaf)
    case StatementList(ss) => AlongList(sat, ss, leaf, n)
    case IfStatement(c, thenBody, elseBody) =>
      var cond := Embed(c);
      || (Feasible(sat, SymEval(cond, leaf)) && Along(sat, thenBody, NewDecision(cond, leaf), n))
      || (Feasible(sat, SymEval(Symbolic(cond, Null, Negation), leaf))
          && Along(sat, elseBody, NewDecision(cond, leaf), n))
    case WhileStatement(_, _) => n == leaf
    case _ => false
  }

  ghost predicate AlongList(sat: SatOracle, ss: seq<Statement>, leaf: SETNode, n: SETNode)
    decreases ss, 0
  {
    if ss == [] then n == leaf
    else exists mid :: Along(sat, ss[0], leaf, mid) && AlongList(sat, ss[1..], mid, n)
  }

  lemma {:induction false} AlongSnoc(sat: SatOracle, ss: seq<Statement>, s: Statement, leaf: SETNode,
                                     mid: SETNode, n: SETNode)
    requires AlongList(sat, ss, leaf, mid) && Along(sat, s, mid, n)
    ensures AlongList(sat, ss + [s], leaf, n)
  {
    if ss == [] {
      assert ([] + [s])[0] == s && ([] + [s])[1..] == [];
      assert AlongList(sat, [], n, n);
    } else {
      var next :| Along(sat, ss[0], leaf, next) && AlongList(sat, ss[1..], next, mid);
      AlongSnoc(sat, ss[1..], s, next, mid, n);
      assert (ss + [s])[0] == ss[0] && (ss + [s])[1..] == ss[1..] + [s];
    }
  }

  ghost predicate AllAlong(sat: SatOracle, s: Statement, leaf: SETNode, ns: seq<SETNode>) {
    forall n | n in ns :: Along(sat, s, leaf, n)
  }

  /** Every node comes from one of the leaves along `s`. */
  ghost predicate AlongSome(sat: SatOracle, s: Statement, leaves: seq<SETNode>, ns: seq<SETNode>) {
    forall n | n in ns :: exists l :: l in leaves && Along(sat, s, l, n)
  }

  ghost predicate AllAlongList(sat: SatOracle, ss: seq<Statement>, leaf: SETNode, ns: seq<SETNode>) {
    forall n | n in ns :: AlongList(sat, ss, leaf, n)
  }

  /** A path through the first statements, and then through the next. */
  lemma AlongNext(sat: SatOracle, ss: seq<Statement>, s: Statement, leaf: SETNode, mids: seq<SETNode>,
                  ns: seq<SETNode>)
    requires AllAlongList(sat, ss, leaf, mids) && AlongSome(sat, s, mids, ns)
    ensures AllAlongList(sat, ss + [s], leaf, ns)
  {
    forall n | n in ns ensures AlongList(sat, ss + [s], leaf, n) {
      var l :| l in mids && Along(sat, s, l, n);
      AlongSnoc(sat, ss, s, leaf, l, n);
    }
  }

  lemma AlongStart(sat: SatOracle, leaf: SETNode)
    ensures AllAlongList(sat, [], leaf, [leaf])
  {}

  /** Statements without conditionals, for which there is one path. */
  predicate Straight(s: Statement) {
    match s
    case Assignment(_, _, _) => true
    case WhileStatement(_, _) => true
    case StatementList(ss) => forall t | t in ss :: Straight(t)
    case _ => false
  }

  function Chain(s: Statement, leaf: SETNode): SETNode
    requires Straight(s)
    decreases s, 1
  {
    match s
    case Assignment(_, d, rhs) => NewInstruction(d, Embed(rhs), leaf)
    case StatementList(ss) => ChainList(ss, leaf)
    case _ => leaf
  }

  function ChainList(ss: seq<Statement>, leaf: SETNode): SETNode
    requires forall t | t in ss :: Straight(t)
    decreases ss, 0
  {
    if ss == [] then leaf else ChainList(ss[1..], Chain(ss[0], leaf))
  }

  /** A statement without conditionals keeps its one path while it stays within the depth bound. */
  ghost predicate KeepsChain(s: Statement, leaves: seq<SETNode>, live: seq<SETNode>, bound: int) {
    |leaves| == 1 && Straight(s) && Chain(s, leaves[0]).depth <= bound ==> live == [Chain(s, leaves[0])]
  }

  ghost predicate KeepsChainList(ss: seq<Statement>, leaf: SETNode, live: seq<SETNode>, bound: int) {
    (forall t | t in ss :: Straight(t)) && ChainList(ss, leaf).depth <= bound ==> live == [ChainList(ss, leaf)]
  }

  lemma KeepsNext(ss: seq<Statement>, s: Statement, leaf: SETNode, mids: seq<SETNode>, live: seq<SETNode>, bound: int)
    requires KeepsChainList(ss, leaf, mids, bound) && KeepsChain(s, mids, live, bound)
    ensures KeepsChainList(ss + [s], leaf, live, bound)
  {
    if (forall t | t in ss + [s] :: Straight(t)) && ChainList(ss + [s], leaf).depth <= bound {
      assert forall t | t in ss :: t in ss + [s];
      assert s in ss + [s];
      ChainSnoc(ss, s, leaf);
      ChainDeeper(s, ChainList(ss, leaf));
    }
  }

  /** A side that the solver finds feasible whenever it is asked, and that has one path within the
      bound, keeps that path. */
  ghost predicate BranchKept(sat: SatOracle, asked: SymExpr, c: Expression, body: Statement, leaf: SETNode,
                             live: seq<SETNode>, bound: int)
  {
    var node := NewDecision(Embed(c), leaf);
    (forall q :: sat(q, SymEval(asked, leaf))) && Straight(body) && Chain(body, node).depth <= bound ==>
      Chain(body, node) in live
  }

  lemma {:induction false} ChainDeeper(s: Statement, leaf: SETNode)
    requires Straight(s)
    ensures Chain(s, leaf).depth >= leaf.depth
    decreases s, 1
  {
    if s.StatementList? { ChainListDeeper(s.statements, leaf); }
  }

  lemma {:induction false} ChainListDeeper(ss: seq<Statement>, leaf: SETNode)
    requires forall t | t in ss :: Straight(t)
    ensures ChainList(ss, leaf).depth >= leaf.depth
    decreases ss, 0
  {
    if ss != [] {
      ChainDeeper(ss[0], leaf);
      ChainListDeeper(ss[1..], Chain(ss[0], leaf));
    }
  }

  lemma {:induction false} ChainSnoc(ss: seq<Statement>, s: Statement, leaf: SETNode)
    requires (forall t | t in ss :: Straight(t)) && Straight(s)
    ensures forall t | t in ss + [s] :: Straight(t)
    ensures ChainList(ss + [s], leaf) == Chain(s, ChainList(ss, leaf))
  {
    if ss == [] {
      assert ([] + [s])[0] == s && ([] + [s])[1..] == [];
    } else {
      ChainSnoc(ss[1..], s, Chain(ss[0], leaf));
      assert (ss + [s])[0] == ss[0] && (ss + [s])[1..] == ss[1..] + [s];
    }
  }

  // ----- Paths through states and transitions -----

  /** One instruction node with the initial value for each variable of the scope. */
  function Initialized(decls: seq<Declaration>, scope: Scope, leaf: SETNode): SETNode {
    if decls == [] then leaf
    else
      var n := |decls| - 1;
      var node := Initialized(decls[..n], scope, leaf);
      if decls[n].scope == scope then NewInstruction(decls[n], DefaultValue(decls[n].typ), node) else node
  }

  lemma InstructionReplay(d: Declaration, leaf: SETNode, inputs: Inputs)
    ensures
      var v := match d.typ
               case IntType => IntegerConstant(0)
               case StringType => StringLiteral(" ")
               case BooleanType => BooleanConstant(false);
      Replay(NewInstruction(d, DefaultValue(d.typ), leaf), inputs) == Replay(leaf, inputs)[d := Some(v)]
  {
    var value := DefaultValue(d.typ);
    assert EvaluateExp(d, value) == Symbolic(value, Null, Same);
    assert Denote(Symbolic(value, Null, Same), Replay(leaf, inputs), inputs)
        == Denote(value, Replay(leaf, inputs), inputs);
  }

  /** Afterwards the variables of the scope have 0, a space or false; the others are as before. */
  lemma {:induction false} InitializedValues(decls: seq<Declaration>, scope: Scope, leaf: SETNode, inputs: Inputs,
                                             d: Declaration)
    ensures
      var store := Replay(Initialized(decls, scope, leaf), inputs);
      if d in decls && d.scope == scope then
        d in store && store[d] == Some(match d.typ
                                       case IntType => IntegerConstant(0)
                                       case StringType => StringLiteral(" ")
                                       case BooleanType => BooleanConstant(false))
      else (d in store <==> d in Replay(leaf, inputs)) && (d in store ==> store[d] == Replay(leaf, inputs)[d])
  {
    if decls != [] {
      var n := |decls| - 1;
      InitializedValues(decls[..n], scope, leaf, inputs, d);
      InstructionReplay(decls[n], Initialized(decls[..n], scope, leaf), inputs);
      assert decls == decls[..n] + [decls[n]];
    }
  }

  /** The nodes of an entry before its statement; a first substate initialises its parameters too. */
  function EntryNode(ch: Chart, s: StateId, parameters: bool, leaf: SETNode): SETNode
    requires IsState(ch, s)
  {
    var decls := ch.states[s].declarations;
    var node := Initialized(decls, Local, NewNode(StateEntry(s), Some(leaf)));
    if parameters then Initialized(decls, Parameter, node) else node
  }

  ghost predicate AlongState(sat: SatOracle, ch: Chart, phase: Phase, s: StateId, leaf: SETNode, n: SETNode)
    requires IsState(ch, s)
  {
    match phase
    case Leaving => Along(sat, ch.states[s].exit, NewNode(StateExit(s), Some(leaf)), n)
    case EnteringDestination => Along(sat, ch.states[s].entry, EntryNode(ch, s, false, leaf), n)
    case EnteringSubstate => Along(sat, ch.states[s].entry, EntryNode(ch, s, true, leaf), n)
  }

  /** Through the states in order. */
  ghost predicate AlongStates(sat: SatOracle, ch: Chart, phase: Phase, states: seq<StateId>, leaf: SETNode, n: SETNode)
    requires AllStates(ch, states)
    decreases |states|, 1
  {
    if states == [] then n == leaf else exists mid :: AlongLast(sat, ch, phase, states, leaf, mid, n)
  }

  ghost predicate AlongLast(sat: SatOracle, ch: Chart, phase: Phase, states: seq<StateId>, leaf: SETNode,
                            mid: SETNode, n: SETNode)
    requires AllStates(ch, states) && states != []
    decreases |states|, 0
  {
    var k := |states| - 1;
    AlongStates(sat, ch, phase, states[..k], leaf, mid) && AlongState(sat, ch, phase, states[k], mid, n)
  }

  lemma AlongStatesSnoc(sat: SatOracle, ch: Chart, phase: Phase, states: seq<StateId>, s: StateId, leaf: SETNode,
                        mid: SETNode, n: SETNode)
    requires AllStates(ch, states) && IsState(ch, s)
    requires AlongStates(sat, ch, phase, states, leaf, mid) && AlongState(sat, ch, phase, s, mid, n)
    ensures AlongStates(sat, ch, phase, states + [s], leaf, n)
  {
    var all := states + [s];
    assert all[..|all| - 1] == states && all[|all| - 1] == s;
    assert AlongLast(sat, ch, phase, all, leaf, mid, n);
  }

  /** Through a transition: the exits up to the LUB, the action, the entries of the destination and the
      states above it, innermost first, and the entries of its first substates. */
  ghost predicate AlongTransition(sat: SatOracle, ch: Chart, t: Transition, leaf: SETNode, n: SETNode)
    requires IsTree(ch) && HasEnds(ch, t) && PlacedAtLub(ch, t)
  {
    LubIsDeepest(ch, t.source, t.destination);
    exists out, acted, entered ::
      && AlongStates(sat, ch, Leaving, Climb(ch, t.source, t.placement), leaf, out)
      && Along(sat, t.action, out, acted)
      && AlongStates(sat, ch, EnteringDestination, Climb(ch, t.destination, t.placement), acted, entered)
      && AlongStates(sat, ch, EnteringSubstate, FirstSubstates(ch, t.destination), entered, n)
  }

  /** Every node comes from one of the leaves through the state, or through the states. */
  ghost predicate ThroughState(sat: SatOracle, ch: Chart, phase: Phase, s: StateId, leaves: seq<SETNode>,
                               ns: seq<SETNode>)
    requires IsState(ch, s)
  {
    forall n | n in ns :: exists l :: l in leaves && AlongState(sat, ch, phase, s, l, n)
  }

  ghost predicate ThroughStates(sat: SatOracle, ch: Chart, phase: Phase, states: seq<StateId>, leaves: seq<SETNode>,
                                ns: seq<SETNode>)
    requires AllStates(ch, states)
  {
    forall n | n in ns :: exists l :: l in leaves && AlongStates(sat, ch, phase, states, l, n)
  }

  lemma ThroughNone(sat: SatOracle, ch: Chart, phase: Phase, leaves: seq<SETNode>)
    ensures ThroughStates(sat, ch, phase, [], leaves, leaves)
  {
    forall n | n in leaves ensures AlongStates(sat, ch, phase, [], n, n) {}
  }

  lemma ThroughNext(sat: SatOracle, ch: Chart, phase: Phase, states: seq<StateId>, s: StateId,
                    leaves: seq<SETNode>, mids: seq<SETNode>, ns: seq<SETNode>)
    requires AllStates(ch, states) && IsState(ch, s)
    requires ThroughStates(sat, ch, phase, states, leaves, mids) && ThroughState(sat, ch, phase, s, mids, ns)
    ensures ThroughStates(sat, ch, phase, states + [s], leaves, ns)
  {
    forall n | n in ns ensures exists l :: l in leaves && AlongStates(sat, ch, phase, states + [s], l, n) {
      var mid :| mid in mids && AlongState(sat, ch, phase, s, mid, n);
      var l :| l in leaves && AlongStates(sat, ch, phase, states, l, mid);
      AlongStatesSnoc(sat, ch, phase, states, s, l, mid, n);
    }
  }

  lemma ThroughTransition(sat: SatOracle, ch: Chart, t: Transition, leaf: SETNode, outs: seq<SETNode>,
                          acted: seq<SETNode>, entered: seq<SETNode>, ns: seq<SETNode>)
    requires IsTree(ch) && HasEnds(ch, t) && PlacedAtLub(ch, t)
    requires IsAncestor(ch, t.placement, t.source) && IsAncestor(ch, t.placement, t.destination)
    requires ThroughStates(sat, ch, Leaving, Climb(ch, t.source, t.placement), [leaf], outs)
    requires AlongSome(sat, t.action, outs, acted)
    requires ThroughStates(sat, ch, EnteringDestination, Climb(ch, t.destination, t.placement), acted, entered)
    requires ThroughStates(sat, ch, EnteringSubstate, FirstSubstates(ch, t.destination), entered, ns)
    ensures forall n | n in ns :: AlongTransition(sat, ch, t, leaf, n)
  {
    forall n | n in ns ensures AlongTransition(sat, ch, t, leaf, n) {
      var e :| e in entered && AlongStates(sat, ch, EnteringSubstate, FirstSubstates(ch, t.destination), e, n);
      var a :| a in acted
            && AlongStates(sat, ch, EnteringDestination, Climb(ch, t.destination, t.placement), a, e);
      var o :| o in outs && Along(sat, t.action, o, a);
      assert AlongStates(sat, ch, Leaving, Climb(ch, t.source, t.placement), leaf, o);
    }
  }

  /** `n` is reached from `leaf` through one of the transitions, whose guard was found feasible. */
  ghost predicate TakenFrom(sat: SatOracle, ch: Chart, outs: seq<Transition>, leaf: SETNode, n: SETNode)
    requires IsTree(ch)
  {
    exists t :: t in outs && HasEnds(ch, t) && PlacedAtLub(ch, t)
             && Feasible(sat, SymEval(Embed(t.guard), leaf)) && AlongTransition(sat, ch, t, leaf, n)
  }
}
