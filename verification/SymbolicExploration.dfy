/** The engine's exploration of the execution tree: blocks, transitions and the main loop. */
module SymbolicExploration {
  import opened Ast
  import opened Hierarchy
  import opened Typechecker
  import opened Runs
  import opened SymbolicEvaluation
  import opened SymbolicPaths

  class SymbolicExecutionEngine {
    const statechart: Chart
    const sat: SatOracle
    const maxDepth: int
    const maxTreeDepth: int
    var queries: nat
    var conf: seq<StateId>

    constructor (statechart: Chart, sat: SatOracle, maxDepth: int, maxTreeDepth: int)
      ensures this.statechart == statechart && this.sat == sat
      ensures this.maxDepth == maxDepth && this.maxTreeDepth == maxTreeDepth
      ensures queries == 0 && conf == []
    {
      this.statechart, this.sat, this.maxDepth, this.maxTreeDepth := statechart, sat, maxDepth, maxTreeDepth;
      queries, conf := 0, [];
    }

    method IsSat(e: SymExpr) returns (answer: bool)
      modifies this`queries
      ensures answer == sat(old(queries), e) && queries == old(queries) + 1
    {
      answer := sat(queries, e);
      queries := queries + 1;
    }

    // ----- Statements -----

    /** An assignment beyond the depth bound ends its path; expression and skip statements return
        nothing at all. */
    method ExecuteInstruction(s: Statement, leaf: SETNode) returns (done: seq<SETNode>, live: seq<SETNode>)
      requires IsInstruction(s) && Built(leaf)
      ensures Grown(done, leaf) && Grown(live, leaf) && Bounded(live, leaf, maxDepth)
      ensures s.Assignment? ==>
        var l := NewInstruction(s.lhs, Embed(s.rhs), leaf);
        if leaf.depth + 1 > maxDepth then done == [l] && live == [] else done == [] && live == [l]
      ensures s.HaltStatement? ==> done == [leaf] && live == []
      ensures s.ExpressionStatement? || s.SkipStatement? ==> done == [] && live == []
      ensures AllAlong(sat, s, leaf, live)
    {
      done, live := [], [];
      assert Extends(leaf, leaf);
      if s.Assignment? {
        var l := NewInstruction(s.lhs, Embed(s.rhs), leaf);
        if leaf.depth + 1 > maxDepth {
          done := done + [l];
        } else {
          live := live + [l];
        }
      }
      if s.HaltStatement? {
        done := done + [leaf];
      }
    }

    /** Only the result for the last leaf survives; loops are passed over. */
    method ExecuteStatement(s: Statement, leaves: seq<SETNode>, ghost from: SETNode)
      returns (done: seq<SETNode>, live: seq<SETNode>)
      requires Grown(leaves, from) && Bounded(leaves, from, maxDepth)
      modifies this`queries
      ensures Grown(done, from) && Grown(live, from) && Bounded(live, from, maxDepth)
      ensures AlongSome(sat, s, leaves, live) && KeepsChain(s, leaves, live, maxDepth)
      decreases s, 1
    {
      done, live := [], [];
      if s.WhileStatement? {
        live := leaves;
        return;
      }
      for i := 0 to |leaves|
        invariant Grown(done, from) && Grown(live, from) && Bounded(live, from, maxDepth)
        invariant i == 0 ==> live == []
        invariant AlongSome(sat, s, leaves, live) && (i > 0 ==> KeepsChain(s, [leaves[i - 1]], live, maxDepth))
      {
        var l := leaves[i];
        assert l in leaves;
        if IsInstruction(s) {
          done, live := ExecuteInstruction(s, l);
        } else if s.IfStatement? {
          done, live := ExecuteIf(s, l);
        } else {
          done, live := ExecuteBlock(s, l);
        }
        GrownFrom(done, l, from);
        GrownFrom(live, l, from);
      }
    }

    /** Every live or done node of a block extends the leaf it was given, and live ones keep to the
        depth bound. */
    method ExecuteBlock(block: Statement, leaf: SETNode)
      returns (done: seq<SETNode>, live: seq<SETNode>)
      requires Built(leaf)
      modifies this`queries
      ensures Grown(done, leaf) && Grown(live, leaf) && Bounded(live, leaf, maxDepth)
      ensures AllAlong(sat, block, leaf, live) && KeepsChain(block, [leaf], live, maxDepth)
      decreases block, if block.StatementList? then 0 else 3
    {
      assert Extends(leaf, leaf);
      if block.StatementList? {
        done, live := ExecuteList(block.statements, leaf);
      } else {
        done, live := ExecuteStatement(block, [leaf], leaf);
      }
    }

    /** The statements of a block in order, each on what the one before it left alive. */
    method ExecuteList(ss: seq<Statement>, leaf: SETNode) returns (done: seq<SETNode>, live: seq<SETNode>)
      requires Built(leaf)
      modifies this`queries
      ensures Grown(done, leaf) && Grown(live, leaf) && Bounded(live, leaf, maxDepth)
      ensures AllAlongList(sat, ss, leaf, live) && KeepsChainList(ss, leaf, live, maxDepth)
      decreases ss, 0
    {
      assert Extends(leaf, leaf);
      done, live := [], [leaf];
      AlongStart(sat, leaf);
      for i := 0 to |ss|
        invariant Grown(done, leaf) && Grown(live, leaf) && Bounded(live, leaf, maxDepth)
        invariant AllAlongList(sat, ss[..i], leaf, live) && KeepsChainList(ss[..i], leaf, live, maxDepth)
      {
        var more;
        ghost var mids := live;
        more, live := ExecuteStatement(ss[i], live, leaf);
        done := done + more;
        assert ss[..i + 1] == ss[..i] + [ss[i]];
        AlongNext(sat, ss[..i], ss[i], leaf, mids, live);
        KeepsNext(ss[..i], ss[i], leaf, mids, live, maxDepth);
      }
      assert ss[..|ss|] == ss;
    }

    method ExecuteIf(s: Statement, leaf: SETNode) returns (done: seq<SETNode>, live: seq<SETNode>)
      requires s.IfStatement? && Built(leaf)
      modifies this`queries
      ensures Grown(done, leaf) && Grown(live, leaf) && Bounded(live, leaf, maxDepth)
      ensures live == [] ==> leaf in done
      ensures AllAlong(sat, s, leaf, live)
      ensures BranchKept(sat, Embed(s.condition), s.condition, s.thenBody, leaf, live, maxDepth)
      ensures
        var negation := Symbolic(Embed(s.condition), Null, Negation);
        BranchKept(sat, negation, s.condition, s.elseBody, leaf, live, maxDepth)
      decreases s, 0
    {
      assert Extends(leaf, leaf);
      done, live := [], [];
      var cond := Embed(s.condition);
      var feasible := IsSat(SymEval(cond, leaf));
      done, live := ExecuteBranch(feasible, cond, s.thenBody, leaf);
      feasible := IsSat(SymEval(Symbolic(cond, Null, Negation), leaf));
      var done', live' := ExecuteBranch(feasible, cond, s.elseBody, leaf);
      done, live := done + done', live + live';
      if live == [] {
        done := done + [leaf];
      }
    }

    /** One side of a conditional: a decision node and the body, or the leaf is done. */
    method ExecuteBranch(feasible: bool, cond: SymExpr, body: Statement, leaf: SETNode)
      returns (done: seq<SETNode>, live: seq<SETNode>)
      requires Built(leaf)
      modifies this`queries
      ensures Grown(done, leaf) && Grown(live, leaf) && Bounded(live, leaf, maxDepth)
      ensures if feasible then AllAlong(sat, body, NewDecision(cond, leaf), live)
                               && KeepsChain(body, [NewDecision(cond, leaf)], live, maxDepth)
              else live == []
      decreases body, 4
    {
      assert Extends(leaf, leaf);
      if feasible {
        ChildExtends(Decision(cond), leaf);
        var node := NewDecision(cond, leaf);
        done, live := ExecuteBlock(body, node);
        GrownFrom(done, node, leaf);
        GrownFrom(live, node, leaf);
      } else {
        done, live := [leaf], [];
      }
    }

    // ----- Entering and leaving states -----

    /** A node for the state, then the statement: everything live is strictly deeper. */
    method Visit(node: SETNode, body: Statement, ghost leaf: SETNode)
      returns (done: seq<SETNode>, live: seq<SETNode>)
      requires Built(node) && Extends(node, leaf) && node.treedepth > leaf.treedepth
      modifies this`queries
      ensures Grown(done, leaf) && Grown(live, leaf) && Deeper(live, leaf.treedepth)
      ensures AllAlong(sat, body, node, live)
    {
      done, live := ExecuteBlock(body, node);
      forall n | n in live ensures n.treedepth > leaf.treedepth { ExtendsDeeper(n, node); }
      GrownFrom(done, node, leaf);
      GrownFrom(live, node, leaf);
    }

    method ExitState(s: StateId, leaf: SETNode)
      returns (done: seq<SETNode>, live: seq<SETNode>)
      requires IsState(statechart, s) && Built(leaf)
      modifies this`queries
      ensures Grown(done, leaf) && Grown(live, leaf) && Deeper(live, leaf.treedepth)
      ensures forall n | n in live :: AlongState(sat, statechart, Leaving, s, leaf, n)
    {
      ChildExtends(StateExit(s), leaf);
      done, live := Visit(NewNode(StateExit(s), Some(leaf)), statechart.states[s].exit, leaf);
    }

    method InitializeVariables(decls: seq<Declaration>, scope: Scope, leaf: SETNode) returns (node: SETNode)
      requires Built(leaf)
      ensures Built(node) && Extends(node, leaf) && node == Initialized(decls, scope, leaf)
    {
      node := leaf;
      for i := 0 to |decls|
        invariant Built(node) && Extends(node, leaf) && node == Initialized(decls[..i], scope, leaf)
      {
        assert decls[..i + 1][..i] == decls[..i];
        if decls[i].scope == scope {
          node := NewInstruction(decls[i], DefaultValue(decls[i].typ), node);
        }
      }
      assert decls[..|decls|] == decls;
    }

    /** `parameters`: substates also initialise their parameters. */
    method EnterState(s: StateId, parameters: bool, leaf: SETNode)
      returns (done: seq<SETNode>, live: seq<SETNode>)
      requires IsState(statechart, s) && Built(leaf)
      modifies this`queries
      ensures Grown(done, leaf) && Grown(live, leaf) && Deeper(live, leaf.treedepth)
      ensures forall n | n in live ::
        AlongState(sat, statechart, if parameters then EnteringSubstate else EnteringDestination, s, leaf, n)
    {
      ChildExtends(StateEntry(s), leaf);
      var entry := NewNode(StateEntry(s), Some(leaf));
      var node := InitializeVariables(statechart.states[s].declarations, Local, entry);
      if parameters {
        ghost var mid := node;
        node := InitializeVariables(statechart.states[s].declarations, Parameter, node);
        ExtendsTransitive(node, mid, entry);
      }
      ExtendsDeeper(node, entry);
      ExtendsTransitive(node, entry, leaf);
      done, live := Visit(node, statechart.states[s].entry, leaf);
    }

    // ----- Transitions -----

    /** One phase of a transition: every leaf through every state of the list, and each state out of
        or into the configuration. */
    method RunPhase(phase: Phase, states: seq<StateId>, start: seq<SETNode>, ghost leaf: SETNode, ghost k: int)
      returns (done: seq<SETNode>, live: seq<SETNode>)
      requires AllStates(statechart, states) && Grown(start, leaf) && Deeper(start, k)
      requires AllStates(statechart, conf)
      modifies this
      ensures Grown(done, leaf) && Grown(live, leaf) && Deeper(live, if states == [] then k else k + 1)
      ensures AllStates(statechart, conf)
      ensures StatesIn(conf) == if phase.Leaving? then StatesIn(old(conf)) - StatesIn(states)
                                else StatesIn(old(conf)) + StatesIn(states)
      ensures ThroughStates(sat, statechart, phase, states, start, live)
    {
      done, live := [], start;
      ghost var reached := k;
      ThroughNone(sat, statechart, phase, start);
      for i := 0 to |states|
        invariant Grown(done, leaf) && Grown(live, leaf) && Deeper(live, reached)
        invariant reached == if i == 0 then k else k + 1
        invariant AllStates(statechart, conf)
        invariant StatesIn(conf) == if phase.Leaving? then StatesIn(old(conf)) - StatesIn(states[..i])
                                    else StatesIn(old(conf)) + StatesIn(states[..i])
        invariant ThroughStates(sat, statechart, phase, states[..i], start, live)
      {
        var more;
        ghost var mids := live;
        DeeperAlso(live, reached, k);
        more, live := RunState(phase, states[i], live, leaf, k);
        reached := k + 1;
        done := done + more;
        PrefixSnoc(states, i);
        assert states[..i + 1] == states[..i] + [states[i]];
        ThroughNext(sat, statechart, phase, states[..i], states[i], start, mids, live);
        MoveConf(phase, states[i]);
      }
      assert reached == if states == [] then k else k + 1;
      assert states[..|states|] == states;
    }

    /** The state leaves or joins the configuration. */
    method MoveConf(phase: Phase, s: StateId)
      requires AllStates(statechart, conf) && IsState(statechart, s)
      modifies this`conf
      ensures AllStates(statechart, conf)
      ensures StatesIn(conf) == if phase.Leaving? then StatesIn(old(conf)) - {s} else StatesIn(old(conf)) + {s}
    {
      if phase.Leaving? {
        RemovedFrom(conf, s);
        conf := Without(conf, s);
        AllStatesIn(statechart, conf);
      } else {
        AddedTo(conf, s);
        conf := With(conf, s);
      }
    }

    method RunState(phase: Phase, s: StateId, leaves: seq<SETNode>, ghost leaf: SETNode, ghost k: int)
      returns (done: seq<SETNode>, live: seq<SETNode>)
      requires IsState(statechart, s) && Grown(leaves, leaf) && Deeper(leaves, k)
      modifies this`queries
      ensures Grown(done, leaf) && Grown(live, leaf) && Deeper(live, k + 1)
      ensures ThroughState(sat, statechart, phase, s, leaves, live)
    {
      done, live := [], [];
      for j := 0 to |leaves|
        invariant Grown(done, leaf) && Grown(live, leaf) && Deeper(live, k + 1)
        invariant ThroughState(sat, statechart, phase, s, leaves, live)
      {
        var l := leaves[j];
        assert l in leaves;
        var d, ls;
        match phase {
          case Leaving => d, ls := ExitState(s, l);
          case EnteringDestination => d, ls := EnterState(s, false, l);
          case EnteringSubstate => d, ls := EnterState(s, true, l);
        }
        GrownFrom(d, l, leaf);
        GrownFrom(ls, l, leaf);
        done, live := done + d, live + ls;
      }
    }

    method RunAction(action: Statement, start: seq<SETNode>, ghost leaf: SETNode, ghost k: int)
      returns (done: seq<SETNode>, live: seq<SETNode>)
      requires Grown(start, leaf) && Deeper(start, k)
      modifies this`queries
      ensures Grown(done, leaf) && Grown(live, leaf) && Deeper(live, k)
      ensures AlongSome(sat, action, start, live)
    {
      done, live := [], [];
      for j := 0 to |start|
        invariant Grown(done, leaf) && Grown(live, leaf) && Deeper(live, k)
        invariant AlongSome(sat, action, start, live)
      {
        var l := start[j];
        assert l in start;
        var d, ls := ExecuteBlock(action, l);
        forall n | n in ls ensures n.treedepth > k { ExtendsDeeper(n, l); }
        GrownFrom(d, l, leaf);
        GrownFrom(ls, l, leaf);
        done, live := done + d, live + ls;
      }
    }

    /** Every node extends the leaf, every live one is strictly deeper, and the configuration changes
        as the transition says, whatever the leaves do. */
    method TakeTransition(t: Transition, leaf: SETNode) returns (done: seq<SETNode>, live: seq<SETNode>)
      requires IsTree(statechart) && HasEnds(statechart, t) && PlacedAtLub(statechart, t) && Built(leaf)
      requires AllStates(statechart, conf)
      modifies this
      ensures Grown(done, leaf) && Grown(live, leaf) && Deeper(live, leaf.treedepth)
      ensures AllStates(statechart, conf)
      ensures StatesIn(conf) == ConfAfter(statechart, StatesIn(old(conf)), t)
      ensures forall n | n in live :: AlongTransition(sat, statechart, t, leaf, n)
    {
      LubIsDeepest(statechart, t.source, t.destination);
      assert Extends(leaf, leaf);
      ghost var k := leaf.treedepth - 1;
      var d;
      done, live := RunPhase(Leaving, Climb(statechart, t.source, t.placement), [leaf], leaf, k);
      ghost var outs := live;
      d, live := RunAction(t.action, live, leaf, k + 1);
      done := done + d;
      ghost var acted := live;
      d, live := RunPhase(EnteringDestination, Climb(statechart, t.destination, t.placement), live, leaf, k + 1);
      done := done + d;
      ghost var entered := live;
      d, live := RunPhase(EnteringSubstate, FirstSubstates(statechart, t.destination), live, leaf, k + 2);
      done := done + d;
      ThroughTransition(sat, statechart, t, leaf, outs, acted, entered, live);
    }

    // ----- The main loop -----

    /** The transitions that leave the configuration, by the names of their sources. */
    method ComputeOuts(all: seq<Transition>) returns (outs: seq<Transition>)
      ensures forall t :: t in outs <==> t in all && Outgoing(statechart, conf, t)
    {
      outs := [];
      for i := 0 to |all|
        invariant forall t :: t in outs <==> t in all[..i] && Outgoing(statechart, conf, t)
      {
        assert all[..i + 1] == all[..i] + [all[i]];
        if Outgoing(statechart, conf, all[i]) {
          outs := outs + [all[i]];
        }
      }
      assert all[..|all|] == all;
    }

    /** One leaf through every outgoing transition whose guard the solver finds satisfiable. */
    method ExpandLeaf(outs: seq<Transition>, leaf: SETNode) returns (done: seq<SETNode>, live: seq<SETNode>)
      requires IsTree(statechart) && Built(leaf) && AllStates(statechart, conf)
      requires forall t | t in outs :: HasEnds(statechart, t) && PlacedAtLub(statechart, t)
      modifies this
      ensures AllStates(statechart, conf)
      ensures Grown(done, leaf) && Grown(live, leaf) && Deeper(live, leaf.treedepth)
      ensures forall n | n in live :: TakenFrom(sat, statechart, outs, leaf, n)
    {
      done, live := [], [];
      assert Extends(leaf, leaf);
      for j := 0 to |outs|
        invariant Grown(done, leaf) && Grown(live, leaf) && Deeper(live, leaf.treedepth)
        invariant forall n | n in live :: TakenFrom(sat, statechart, outs, leaf, n)
        invariant AllStates(statechart, conf)
      {
        var t := outs[j];
        assert t in outs;
        var feasible := IsSat(SymEval(Embed(t.guard), leaf));
        if feasible {
          var d, ls := TakeTransition(t, leaf);
          done, live := done + d, live + ls;
        } else {
          done := done + [leaf];
        }
      }
    }

    method ExpandLeaves(outs: seq<Transition>, leaves: seq<SETNode>, ghost start: SETNode, ghost k: int)
      returns (done: seq<SETNode>, live: seq<SETNode>)
      requires IsTree(statechart) && Grown(leaves, start) && Deeper(leaves, k) && AllStates(statechart, conf)
      requires forall t | t in outs :: HasEnds(statechart, t) && PlacedAtLub(statechart, t)
      modifies this
      ensures AllStates(statechart, conf)
      ensures Grown(done, start) && Grown(live, start) && Deeper(live, k + 1)
      ensures forall n | n in live :: exists l :: l in leaves && TakenFrom(sat, statechart, outs, l, n)
    {
      done, live := [], [];
      for i := 0 to |leaves|
        invariant Grown(done, start) && Grown(live, start) && Deeper(live, k + 1) && AllStates(statechart, conf)
        invariant forall n | n in live :: exists l :: l in leaves && TakenFrom(sat, statechart, outs, l, n)
      {
        var leaf := leaves[i];
        assert leaf in leaves;
        var d, ls := ExpandLeaf(outs, leaf);
        GrownFrom(d, leaf, start);
        GrownFrom(ls, leaf, start);
        done, live := done + d, live + ls;
      }
    }

    /** Leaves beyond the tree-depth bound are done. */
    method CutDeep(grown: seq<SETNode>, ghost start: SETNode, ghost k: int)
      returns (done: seq<SETNode>, leaves: seq<SETNode>)
      requires Grown(grown, start) && Deeper(grown, k)
      ensures Grown(done, start) && Grown(leaves, start) && Deeper(leaves, k)
      ensures forall n | n in leaves :: n.treedepth <= maxTreeDepth
      ensures forall n | n in grown :: n in done || n in leaves
    {
      done, leaves := [], [];
      for i := 0 to |grown|
        invariant Grown(done, start) && Grown(leaves, start) && Deeper(leaves, k)
        invariant forall n | n in leaves :: n.treedepth <= maxTreeDepth
        invariant forall j | 0 <= j < i :: grown[j] in done || grown[j] in leaves
      {
        assert grown[i] in grown;
        if grown[i].treedepth > maxTreeDepth {
          done := done + [grown[i]];
        } else {
          leaves := leaves + [grown[i]];
        }
      }
    }

    /** The exploration loop terminates by the tree-depth bound: each round makes every leaf strictly
        deeper, and leaves deeper than the bound are done.  The outgoing transitions are those of the
        engine's own configuration. */
    method Explore(all: seq<Transition>, first: seq<SETNode>, ghost start: SETNode)
      returns (done: seq<SETNode>, rounds: nat)
      requires IsTree(statechart) && Grown(first, start) && AllStates(statechart, conf)
      requires forall t | t in all :: HasEnds(statechart, t) && PlacedAtLub(statechart, t)
      modifies this
      ensures Grown(done, start) && AllStates(statechart, conf)
      ensures rounds <= 1 || rounds <= maxTreeDepth - start.treedepth + 1
    {
      done, rounds := [], 0;
      var leaves := first;
      ghost var k := start.treedepth - 1;
      forall n | n in first ensures n.treedepth > k { ExtendsDeeper(n, start); }
      var outs := ComputeOuts(all);
      while leaves != []
        invariant AllStates(statechart, conf) && forall t | t in outs :: t in all
        invariant Grown(done, start) && Grown(leaves, start) && Deeper(leaves, k)
        invariant rounds == k - (start.treedepth - 1)
        invariant rounds > 0 ==> forall n | n in leaves :: n.treedepth <= maxTreeDepth
        invariant rounds <= 1 || rounds <= maxTreeDepth - start.treedepth + 1
        decreases if rounds == 0 then 1 else 0, maxTreeDepth - k
      {
        assert leaves[0] in leaves;
        var more, grown := ExpandLeaves(outs, leaves, start, k);
        outs := ComputeOuts(all);
        var cut;
        cut, leaves := CutDeep(grown, start, k + 1);
        done := done + more + cut;
        k, rounds := k + 1, rounds + 1;
      }
    }

    // ----- The whole execution -----

    /** The statics of every state, one node each. */
    method InitializeStatics(states: seq<StateId>, root: SETNode) returns (node: SETNode)
      requires AllStates(statechart, states) && Built(root)
      ensures Built(node) && Extends(node, root)
    {
      node := root;
      for i := 0 to |states|
        invariant Built(node) && Extends(node, root)
      {
        var next := InitializeVariables(statechart.states[states[i]].declarations, Static, node);
        ExtendsTransitive(next, node, root);
        node := next;
      }
    }

    /** Configurations keep the order in which states joined. */
    method AddToConf(states: seq<StateId>)
      requires AllStates(statechart, conf) && AllStates(statechart, states)
      modifies this`conf
      ensures AllStates(statechart, conf) && StatesIn(conf) == StatesIn(old(conf)) + StatesIn(states)
    {
      for i := 0 to |states|
        invariant AllStates(statechart, conf) && StatesIn(conf) == StatesIn(old(conf)) + StatesIn(states[..i])
      {
        PrefixSnoc(states, i);
        AddedTo(conf, states[i]);
        conf := With(conf, states[i]);
      }
      assert states[..|states|] == states;
    }

    /** Entering the first states: a leaf without live nodes drops the leaves after it. */
    method EnterFirst(s: StateId, leaves: seq<SETNode>, ghost start: SETNode)
      returns (done: seq<SETNode>, live: seq<SETNode>)
      requires IsState(statechart, s) && Grown(leaves, start)
      modifies this`queries
      ensures Grown(done, start) && Grown(live, start)
    {
      done, live := [], [];
      var j := 0;
      var go := true;
      while go && j < |leaves|
        invariant j <= |leaves| && Grown(done, start) && Grown(live, start)
      {
        var l := leaves[j];
        assert l in leaves;
        var d, ls := EnterState(s, true, l);
        GrownFrom(d, l, start);
        GrownFrom(ls, l, start);
        done, live := done + d, live + ls;
        go := ls != [];
        j := j + 1;
      }
    }

    /** The whole exploration of a checked chart ends, and all it returns extends the start node, whatever
        an earlier execution left in the configuration.
        `raised`: a statechart without substates has no first one to enter. */
    method Execute() returns (raised: bool, done: seq<SETNode>, ghost start: SETNode, rounds: nat)
      requires Typechecked(statechart) && AllStates(statechart, conf)
      modifies this
      ensures AllStates(statechart, conf)
      ensures raised <==> statechart.states[ROOT].states == []
      ensures Built(start) && Grown(done, start)
      ensures rounds <= 1 || rounds <= maxTreeDepth - start.treedepth + 1
    {
      done, rounds := [], 0;
      var all := AllStatesBelow(statechart, ROOT);
      var node := InitializeStatics(all, NewNode(Plain, None));
      start := node;
      AddToConf([ROOT]);
      raised := statechart.states[ROOT].states == [];
      if raised {
        return;
      }
      AddToConf(FirstSubstates(statechart, ROOT));
      var first := conf;
      var leaves := [node];
      assert Extends(node, node);
      for i := 0 to |first|
        invariant Grown(done, start) && Grown(leaves, start) && conf == first
      {
        var more;
        more, leaves := EnterFirst(first[i], leaves, start);
        done := done + more;
      }
      var ts := TransitionsOf(statechart, all);
      forall t | t in ts ensures HasEnds(statechart, t) && PlacedAtLub(statechart, t) {
        AllTransitions(statechart, t);
        CheckedTransition(statechart, t);
      }
      var more;
      more, rounds := Explore(ts, leaves, start);
      done := done + more;
    }
  }
}
