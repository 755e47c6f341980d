/** Symbolic expressions, the execution tree's nodes, and evaluation by backtracking through the
    assignments recorded on a node's path. */
module SymbolicEvaluation {
  import opened Ast
  import opened Evaluation

  // ----- Symbolic expressions -----

  /** `Same` and `Negation` stand for the one-operand operators " " and "!". */
  datatype SymOperator = Operation(op: Operator) | Same | Negation

  /** `Null` is Java's null; a symbolic expression with one operand has a null right operand. */
  datatype SymExpr =
    | Null
    | Constant(c: Ast.Constant)
    | NameRef(decl: Declaration)
    | BinaryExpr(left: SymExpr, right: SymExpr, op: Operator)
    | Symbolic(left: SymExpr, right: SymExpr, symOp: SymOperator)
    | SymVar(id: string)
    | Call

  function Embed(e: Expression): SymExpr {
    match e
    case Literal(c) => Constant(c)
    case Name(_, d) => NameRef(d)
    case Binary(l, r, op) => BinaryExpr(Embed(l), Embed(r), op)
  }

  // ----- Nodes of the execution tree -----

  datatype Kind =
    | Plain
    | Instruction(variable: Declaration, update: SymExpr)
    | Decision(value: SymExpr)
    | StateEntry(s: StateId)
    | StateExit(s: StateId)

  datatype SETNode = SETNode(kind: Kind, parent: Option<SETNode>, depth: int, treedepth: int)

  /** The base constructor: depths come from the parent. */
  function NewNode(kind: Kind, parent: Option<SETNode>): SETNode {
    match parent
    case None => SETNode(kind, None, 0, 0)
    case Some(p) => SETNode(kind, parent, p.depth, p.treedepth + 1)
  }

  /** What an instruction node records of its right-hand side; null for anything unknown. */
  function EvaluateExp(variable: Declaration, e: SymExpr): SymExpr {
    match e
    case BinaryExpr(l, r, op) => Symbolic(l, r, Operation(op))
    case NameRef(_) => Symbolic(e, Null, Same)
    case Constant(_) => Symbolic(e, Null, Same)
    case Call => Symbolic(SymVar(variable.vname + "_1"), Null, Same)
    case Symbolic(_, _, _) => e
    case SymVar(_) => Null
    case Null => Null
  }

  /** The instruction node's constructor overwrites the depth. */
  function NewInstruction(variable: Declaration, e: SymExpr, leaf: SETNode): SETNode {
    NewNode(Instruction(variable, EvaluateExp(variable, e)), Some(leaf)).(depth := leaf.depth + 1)
  }

  function ChainLength(n: SETNode): nat {
    if n.parent.None? then 0 else 1 + ChainLength(n.parent.value)
  }

  function InstructionCount(n: SETNode): nat {
    (if n.kind.Instruction? then 1 else 0) + (if n.parent.None? then 0 else InstructionCount(n.parent.value))
  }

  /** Built by the constructors only; instruction nodes always have a parent. */
  predicate Built(n: SETNode) {
    match n.parent
    case None => !n.kind.Instruction? && n == NewNode(n.kind, None)
    case Some(p) =>
      Built(p) && n == (if n.kind.Instruction? then NewNode(n.kind, Some(p)).(depth := p.depth + 1)
                        else NewNode(n.kind, Some(p)))
  }

  /** Along every chain `treedepth` is the chain length and `depth` counts the instruction nodes. */
  lemma {:induction false} DepthsCount(n: SETNode)
    requires Built(n)
    ensures n.treedepth == ChainLength(n) && n.depth == InstructionCount(n)
  {
    if n.parent.Some? { DepthsCount(n.parent.value); }
  }

  // ----- Backtracking -----

  datatype Found = Found(exp: SymExpr, node: SETNode) | NotFound

  /** The latest recorded update of the variable, with the node before it. */
  function Backtrack(d: Declaration, leaf: SETNode): (r: Found)
    ensures r.Found? ==> ChainLength(r.node) < ChainLength(leaf) && r.exp != Null
  {
    if leaf.kind.Instruction? && leaf.kind.variable == d && leaf.kind.update != Null && leaf.parent.Some? then
      Found(leaf.kind.update, leaf.parent.value)
    else if leaf.parent.Some? then Backtrack(d, leaf.parent.value)
    else NotFound
  }

  /** Replaces names by what the path assigned to them, down to constants and symbolic inputs. */
  function SymEval(e: SymExpr, leaf: SETNode): SymExpr
    decreases ChainLength(leaf), e
  {
    match e
    case BinaryExpr(l, r, op) => BinaryExpr(SymEval(l, leaf), SymEval(r, leaf), op)
    case Symbolic(l, r, op) =>
      if r != Null then Symbolic(SymEval(l, leaf), SymEval(r, leaf), op)
      else Symbolic(SymEval(l, leaf), Null, op)
    case Constant(_) => e
    case NameRef(d) =>
      var f := Backtrack(d, leaf);
      if f.NotFound? then Null else SymEval(f.exp, f.node)
    case SymVar(_) => e
    case Call => Null
    case Null => Null
  }

  // ----- Meaning -----

  /** Values of the symbolic inputs. */
  type Inputs = string -> Option<Ast.Constant>

  function ValueOrNull(o: Outcome): Option<Ast.Constant> {
    if o.Throws? then None else o.value
  }

  function Negated(v: Option<Ast.Constant>): Option<Ast.Constant> {
    if v.Some? && v.value.BooleanConstant? then Some(BooleanConstant(!v.value.b)) else None
  }

  /** Compositional meaning: every operator turns its own exceptions into null. */
  function Denote(e: SymExpr, store: Store, inputs: Inputs): Option<Ast.Constant> {
    match e
    case Null => None
    case Constant(c) => Some(c)
    case NameRef(d) => ValueOf(store, d)
    case BinaryExpr(l, r, op) => ValueOrNull(Apply(op, Denote(l, store, inputs), Denote(r, store, inputs)))
    case Symbolic(l, r, Operation(op)) => ValueOrNull(Apply(op, Denote(l, store, inputs), Denote(r, store, inputs)))
    case Symbolic(l, _, Same) => Denote(l, store, inputs)
    case Symbolic(l, _, Negation) => Negated(Denote(l, store, inputs))
    case SymVar(x) => inputs(x)
    case Call => None
  }

  /** The store after the assignments recorded on the path, from the root. */
  function Replay(leaf: SETNode, inputs: Inputs): Store
    decreases ChainLength(leaf)
  {
    if leaf.parent.None? then map[]
    else
      var before := Replay(leaf.parent.value, inputs);
      if leaf.kind.Instruction? && leaf.kind.update != Null then
        before[leaf.kind.variable := Denote(leaf.kind.update, before, inputs)]
      else before
  }

  /** The value a replay leaves in a variable comes from the update that backtracking finds. */
  lemma {:induction false} ReplayBacktrack(d: Declaration, leaf: SETNode, inputs: Inputs)
    ensures
      var f := Backtrack(d, leaf);
      ValueOf(Replay(leaf, inputs), d) ==
        if f.NotFound? then None else Denote(f.exp, Replay(f.node, inputs), inputs)
    decreases ChainLength(leaf)
  {
    if leaf.parent.Some? { ReplayBacktrack(d, leaf.parent.value, inputs); }
  }

  /** Symbolic evaluation agrees with execution: the meaning of its result, in any store, is the
      meaning of the expression in the store that replaying the path leaves. */
  lemma {:induction false} SymEvalAgrees(e: SymExpr, leaf: SETNode, inputs: Inputs, store: Store)
    ensures Denote(SymEval(e, leaf), store, inputs) == Denote(e, Replay(leaf, inputs), inputs)
    decreases ChainLength(leaf), e
  {
    match e
    case BinaryExpr(l, r, _) =>
      SymEvalAgrees(l, leaf, inputs, store);
      SymEvalAgrees(r, leaf, inputs, store);
    case Symbolic(l, r, _) =>
      SymEvalAgrees(l, leaf, inputs, store);
      if r != Null { SymEvalAgrees(r, leaf, inputs, store); }
    case NameRef(d) =>
      ReplayBacktrack(d, leaf, inputs);
      var f := Backtrack(d, leaf);
      if f.Found? { SymEvalAgrees(f.exp, f.node, inputs, store); }
    case _ =>
  }

  // ----- The result has no names -----

  predicate NameFree(e: SymExpr) {
    match e
    case NameRef(_) => false
    case BinaryExpr(l, r, _) => NameFree(l) && NameFree(r)
    case Symbolic(l, r, _) => NameFree(l) && NameFree(r)
    case _ => true
  }

  lemma {:induction false} SymEvalNameFree(e: SymExpr, leaf: SETNode)
    ensures NameFree(SymEval(e, leaf))
    decreases ChainLength(leaf), e
  {
    match e
    case BinaryExpr(l, r, _) =>
      SymEvalNameFree(l, leaf);
      SymEvalNameFree(r, leaf);
    case Symbolic(l, r, _) =>
      SymEvalNameFree(l, leaf);
      if r != Null { SymEvalNameFree(r, leaf); }
    case NameRef(d) =>
      var f := Backtrack(d, leaf);
      if f.Found? { SymEvalNameFree(f.exp, f.node); }
    case _ =>
  }

  // ----- No operand goes missing -----

  /** No null operand where the operator needs one. */
  predicate Complete(e: SymExpr) {
    match e
    case Null => false
    case Call => false
    case BinaryExpr(l, r, _) => Complete(l) && Complete(r)
    case Symbolic(l, r, Operation(_)) => Complete(l) && Complete(r)
    case Symbolic(l, r, _) => Complete(l) && r == Null
    case _ => true
  }

  function Uses(e: SymExpr): set<Declaration> {
    match e
    case NameRef(d) => {d}
    case BinaryExpr(l, r, _) => Uses(l) + Uses(r)
    case Symbolic(l, r, _) => Uses(l) + Uses(r)
    case _ => {}
  }

  function AssignedOn(leaf: SETNode): set<Declaration>
    decreases ChainLength(leaf)
  {
    if leaf.parent.None? then {}
    else AssignedOn(leaf.parent.value) +
         (if leaf.kind.Instruction? && leaf.kind.update != Null then {leaf.kind.variable} else {})
  }

  /** Every recorded assignment is complete and uses only what was assigned before it. */
  predicate AssignedBeforeUse(leaf: SETNode)
    decreases ChainLength(leaf)
  {
    leaf.parent.Some? ==>
      && AssignedBeforeUse(leaf.parent.value)
      && (leaf.kind.Instruction? ==>
            Complete(leaf.kind.update) && Uses(leaf.kind.update) <= AssignedOn(leaf.parent.value))
  }

  lemma {:induction false} BacktrackFinds(d: Declaration, leaf: SETNode)
    requires AssignedBeforeUse(leaf)
    ensures Backtrack(d, leaf).Found? <==> d in AssignedOn(leaf)
    ensures
      var f := Backtrack(d, leaf);
      f.Found? ==> Complete(f.exp) && Uses(f.exp) <= AssignedOn(f.node) && AssignedBeforeUse(f.node)
    decreases ChainLength(leaf)
  {
    if leaf.parent.Some? { BacktrackFinds(d, leaf.parent.value); }
  }

  /** On a path that assigns before it uses, the result is complete exactly when every variable of the
      expression has been assigned. */
  lemma {:induction false} SymEvalComplete(e: SymExpr, leaf: SETNode)
    requires AssignedBeforeUse(leaf) && Complete(e)
    ensures Complete(SymEval(e, leaf)) <==> Uses(e) <= AssignedOn(leaf)
    decreases ChainLength(leaf), e
  {
    match e
    case BinaryExpr(l, r, _) =>
      SymEvalComplete(l, leaf);
      SymEvalComplete(r, leaf);
    case Symbolic(l, r, op) =>
      SymEvalComplete(l, leaf);
      if r != Null { SymEvalComplete(r, leaf); }
    case NameRef(d) =>
      BacktrackFinds(d, leaf);
      var f := Backtrack(d, leaf);
      if f.Found? { SymEvalComplete(f.exp, f.node); }
    case _ =>
  }

  // ----- Against the simulator's evaluation -----

  /** Where no exception is raised the compositional meaning is the simulator's. */
  lemma {:induction false} DenoteIsEvaluation(e: Expression, store: Store, inputs: Inputs)
    requires EvaluateOperand(e, store).Result?
    ensures Denote(Embed(e), store, inputs) == Evaluate(e, store)
  {
    match e
    case Literal(_) =>
    case Name(_, _) =>
    case Binary(l, r, op) =>
      DenoteIsEvaluation(l, store, inputs);
      DenoteIsEvaluation(r, store, inputs);
  }

  /** Records assignments on a path, as the engine does for a block of them. */
  function Record(leaf: SETNode, assignments: seq<Statement>): SETNode
    requires forall a | a in assignments :: a.Assignment?
    decreases |assignments|
  {
    if assignments == [] then leaf
    else Record(NewInstruction(assignments[0].lhs, Embed(assignments[0].rhs), leaf), assignments[1..])
  }

  /** No assignment raises an exception when the simulator executes them in turn. */
  predicate Quiet(store: Store, assignments: seq<Statement>)
    requires forall a | a in assignments :: a.Assignment?
    decreases |assignments|
  {
    assignments != [] ==>
      && EvaluateOperand(assignments[0].rhs, store).Result?
      && Quiet(store[assignments[0].lhs := Evaluate(assignments[0].rhs, store)], assignments[1..])
  }

  /** Replaying recorded assignments gives the store that the simulator's execution gives. */
  lemma {:induction false} ReplayIsExecution(leaf: SETNode, assignments: seq<Statement>, inputs: Inputs, fuel: nat)
    requires forall a | a in assignments :: a.Assignment?
    requires Quiet(Replay(leaf, inputs), assignments)
    ensures ExecuteList(fuel, assignments, Replay(leaf, inputs)) == Done(Replay(Record(leaf, assignments), inputs))
    decreases |assignments|
  {
    if assignments != [] {
      var a, before := assignments[0], Replay(leaf, inputs);
      assert a in assignments;
      var node := NewInstruction(a.lhs, Embed(a.rhs), leaf);
      DenoteIsEvaluation(a.rhs, before, inputs);
      assert Denote(EvaluateExp(a.lhs, Embed(a.rhs)), before, inputs) == Denote(Embed(a.rhs), before, inputs);
      assert Replay(node, inputs) == before[a.lhs := Evaluate(a.rhs, before)];
      ReplayIsExecution(node, assignments[1..], inputs, fuel);
    }
  }

  /** A condition evaluated symbolically after a block of assignments means what the simulator
      computes after executing them, as long as nothing raises an exception. */
  lemma SymbolicAgreesWithSimulator(e: Expression, leaf: SETNode, assignments: seq<Statement>, inputs: Inputs,
                                    fuel: nat, store: Store)
    requires forall a | a in assignments :: a.Assignment?
    requires Quiet(Replay(leaf, inputs), assignments)
    requires
      var r := ExecuteList(fuel, assignments, Replay(leaf, inputs));
      r.Done? && EvaluateOperand(e, r.store).Result?
    ensures Denote(SymEval(Embed(e), Record(leaf, assignments)), store, inputs)
         == Evaluate(e, ExecuteList(fuel, assignments, Replay(leaf, inputs)).store)
  {
    var after := Record(leaf, assignments);
    ReplayIsExecution(leaf, assignments, inputs, fuel);
    SymEvalAgrees(Embed(e), after, inputs, store);
    DenoteIsEvaluation(e, Replay(after, inputs), inputs);
  }
}
