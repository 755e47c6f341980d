/** Evaluation of expressions and execution of statements over a valuation, and what type checking
    guarantees about them. */
module Evaluation {
  import opened Ast
  import opened Environments

  /** Variable valuation; a key may map to null (`None`), and an absent key reads as null too. */
  type Store = map<Declaration, Option<Constant>>

  function ValueOf(store: Store, d: Declaration): Option<Constant> {
    if d in store then store[d] else None
  }

  // ----- Java integers -----

  function Wrap32(x: int): (r: int)
    ensures -0x8000_0000 <= r < 0x8000_0000
    ensures -0x8000_0000 <= x < 0x8000_0000 ==> r == x
  {
    (x + 0x8000_0000) % 0x1_0000_0000 - 0x8000_0000
  }

  /** Division towards zero. */
  function TruncatedDiv(a: int, b: int): int
    requires b != 0
  {
    var q := (if a < 0 then -a else a) / (if b < 0 then -b else b);
    if (a < 0) == (b < 0) then q else -q
  }

  // ----- Expressions -----

  /** A value, null, or a Java exception on its way up. */
  datatype Outcome = Result(value: Option<Constant>) | Throws

  function BooleanResult(b: bool): Outcome { Result(Some(BooleanConstant(b))) }

  function IntegerResult(i: int): Outcome { Result(Some(IntegerConstant(Wrap32(i)))) }

  /** The operator dispatch on the left operand's class; a right operand of another class, or null,
      fails its cast. */
  function Apply(op: Operator, lhs: Option<Constant>, rhs: Option<Constant>): Outcome {
    if lhs.Some? && lhs.value.BooleanConstant? then
      var l := lhs.value.b;
      var castable := rhs.Some? && rhs.value.BooleanConstant?;
      match op
      case AndAlso => if !l then BooleanResult(false) else if castable then BooleanResult(rhs.value.b) else Throws
      case OrElse => if l then BooleanResult(true) else if castable then BooleanResult(rhs.value.b) else Throws
      case Eq => if castable then BooleanResult(l == rhs.value.b) else Throws
      case _ => Result(None)
    else if lhs.Some? && lhs.value.IntegerConstant? then
      var l := lhs.value.i;
      if op.AndAlso? || op.OrElse? then Result(None)
      else if !(rhs.Some? && rhs.value.IntegerConstant?) then Throws
      else
        var r := rhs.value.i;
        match op
        case Plus => IntegerResult(l + r)
        case Minus => IntegerResult(l - r)
        case Times => IntegerResult(l * r)
        case Divide => if r == 0 then Throws else IntegerResult(TruncatedDiv(l, r))
        case Ge => BooleanResult(l >= r)
        case Gt => BooleanResult(l > r)
        case Le => BooleanResult(l <= r)
        case Lt => BooleanResult(l < r)
        case Eq => BooleanResult(l == r)
        case _ => BooleanResult(l != r)
    else Result(None)
  }

  /** Operands are evaluated left to right; an exception skips the rest. */
  function EvaluateOperand(e: Expression, store: Store): Outcome {
    match e
    case Literal(c) => Result(Some(c))
    case Name(_, d) => Result(ValueOf(store, d))
    case Binary(left, right, op) =>
      var l := EvaluateOperand(left, store);
      if l.Throws? then Throws
      else
        var r := EvaluateOperand(right, store);
        if r.Throws? then Throws else Apply(op, l.value, r.value)
  }

  /** The entry point catches every exception and answers null. */
  function Evaluate(e: Expression, store: Store): Option<Constant> {
    var o := EvaluateOperand(e, store);
    if o.Throws? then None else o.value
  }

  // ----- Statements -----

  /** `OutOfFuel` stands for an execution that the given number of loop rounds does not finish. */
  datatype Execution = Done(store: Store) | Halted(store: Store) | OutOfFuel

  /** Only constants and binary expressions are looked at; null and anything not Boolean is caught. */
  function ConditionValue(cond: Expression, store: Store): Option<bool> {
    match cond
    case Literal(BooleanConstant(b)) => Some(b)
    case Binary(_, _, _) =>
      var v := Evaluate(cond, store);
      if v.Some? && v.value.BooleanConstant? then Some(v.value.b) else None
    case _ => None
  }

  function Execute(fuel: nat, s: Statement, store: Store): Execution
    decreases fuel, s
  {
    match s
    case Assignment(_, d, rhs) => Done(store[d := Evaluate(rhs, store)])
    case StatementList(ss) => ExecuteList(fuel, ss, store)
    case IfStatement(c, thenBody, elseBody) =>
      (match ConditionValue(c, store)
       case Some(true) => Execute(fuel, thenBody, store)
       case Some(false) => Execute(fuel, elseBody, store)
       case None => Done(store))
    case WhileStatement(c, body) =>
      if ConditionValue(c, store) == Some(true) then
        var round := Execute(fuel, body, store);
        if !round.Done? then round
        else if fuel == 0 then OutOfFuel
        else Execute(fuel - 1, s, round.store)
      else Done(store)
    case ExpressionStatement(_) => Done(store)
    case SkipStatement => Done(store)
    case HaltStatement => Halted(store)
  }

  function ExecuteList(fuel: nat, ss: seq<Statement>, store: Store): Execution
    decreases fuel, ss
  {
    if ss == [] then Done(store)
    else
      var first := Execute(fuel, ss[0], store);
      if first.Done? then ExecuteList(fuel, ss[1..], first.store) else first
  }

  /** More fuel never changes a finished execution, so its result is the statement's own. */
  lemma {:induction false} FuelIrrelevant(fuel: nat, fuel': nat, s: Statement, store: Store)
    requires fuel <= fuel' && !Execute(fuel, s, store).OutOfFuel?
    ensures Execute(fuel', s, store) == Execute(fuel, s, store)
    decreases fuel, s
  {
    match s
    case StatementList(ss) => FuelIrrelevantList(fuel, fuel', ss, store);
    case IfStatement(c, thenBody, elseBody) =>
      match ConditionValue(c, store) {
        case Some(true) => FuelIrrelevant(fuel, fuel', thenBody, store);
        case Some(false) => FuelIrrelevant(fuel, fuel', elseBody, store);
        case None =>
      }
    case WhileStatement(c, body) =>
      if ConditionValue(c, store) == Some(true) {
        FuelIrrelevant(fuel, fuel', body, store);
        var round := Execute(fuel, body, store);
        if round.Done? { FuelIrrelevant(fuel - 1, fuel' - 1, s, round.store); }
      }
    case _ =>
  }

  lemma {:induction false} FuelIrrelevantList(fuel: nat, fuel': nat, ss: seq<Statement>, store: Store)
    requires fuel <= fuel' && !ExecuteList(fuel, ss, store).OutOfFuel?
    ensures ExecuteList(fuel', ss, store) == ExecuteList(fuel, ss, store)
    decreases fuel, ss
  {
    if ss != [] {
      FuelIrrelevant(fuel, fuel', ss[0], store);
      var first := Execute(fuel, ss[0], store);
      if first.Done? { FuelIrrelevantList(fuel, fuel', ss[1..], first.store); }
    }
  }

  // ----- Type checking -----

  predicate IsArithmetic(op: Operator) { op.Plus? || op.Minus? || op.Times? || op.Divide? }

  predicate IsComparison(op: Operator) {
    op.Ge? || op.Gt? || op.Le? || op.Lt? || op.Ne? || op.Eq?
  }

  /** The type of an expression whose names are resolved in `env`; `None` where checking fails. */
  function TypecheckExpression(e: Expression, env: Env): Option<Type> {
    match e
    case Literal(c) => Some(TypeOfConstant(c))
    case Name(id, d) => if Lookup(env, id) == Some(d) then Some(d.typ) else None
    case Binary(left, right, op) =>
      var l, r := TypecheckExpression(left, env), TypecheckExpression(right, env);
      if l.None? || r.None? then None
      else if IsArithmetic(op) then
        (if l.value == IntType && r.value == IntType then Some(IntType) else None)
      else if IsComparison(op) then
        (if l.value == r.value then Some(BooleanType) else None)
      else if l.value == BooleanType && r.value == BooleanType then Some(BooleanType) else None
  }

  /** `renv` resolves what is read, `wenv` what is written. */
  predicate TypecheckStatement(s: Statement, renv: Env, wenv: Env) {
    match s
    case Assignment(id, d, rhs) => Lookup(wenv, id) == Some(d) && TypecheckExpression(rhs, renv) == Some(d.typ)
    case StatementList(ss) => forall t | t in ss :: TypecheckStatement(t, renv, wenv)
    case IfStatement(c, thenBody, elseBody) =>
      && TypecheckExpression(c, renv) == Some(BooleanType)
      && TypecheckStatement(thenBody, renv, wenv) && TypecheckStatement(elseBody, renv, wenv)
    case WhileStatement(c, body) =>
      TypecheckExpression(c, renv) == Some(BooleanType) && TypecheckStatement(body, renv, wenv)
    case ExpressionStatement(e) => TypecheckExpression(e, renv).Some?
    case SkipStatement => false
    case HaltStatement => false
  }

  /** What the checker accepts, by operand types: arithmetic on integers, comparisons of equal types,
      Boolean operators on Booleans. */
  lemma BinaryAccepted(left: Expression, right: Expression, op: Operator, env: Env)
    ensures
      var l, r := TypecheckExpression(left, env), TypecheckExpression(right, env);
      TypecheckExpression(Binary(left, right, op), env) ==
        if op in {Plus, Minus, Times, Divide} then
          (if l == Some(IntType) && r == Some(IntType) then Some(IntType) else None)
        else if op in {AndAlso, OrElse} then
          (if l == Some(BooleanType) && r == Some(BooleanType) then Some(BooleanType) else None)
        else
          (if l.Some? && l == r then Some(BooleanType) else None)
  {}

  /** Every variable holds null or a constant of its declared type. */
  ghost predicate WellTyped(store: Store) {
    forall d | d in store :: store[d].Some? ==> TypeOfConstant(store[d].value) == d.typ
  }

  lemma {:induction false} OperandType(e: Expression, env: Env, store: Store)
    requires WellTyped(store) && TypecheckExpression(e, env).Some?
    ensures
      var o := EvaluateOperand(e, store);
      o.Result? && o.value.Some? ==> TypeOfConstant(o.value.value) == TypecheckExpression(e, env).value
  {
    match e
    case Literal(_) =>
    case Name(_, _) =>
    case Binary(left, right, op) =>
      OperandType(left, env, store);
      OperandType(right, env, store);
  }

  /** A result that is not null has the type the checker gave. */
  lemma EvaluationPreservesType(e: Expression, env: Env, store: Store)
    requires WellTyped(store) && TypecheckExpression(e, env).Some? && Evaluate(e, store).Some?
    ensures TypeOfConstant(Evaluate(e, store).value) == TypecheckExpression(e, env).value
  {
    OperandType(e, env, store);
  }

  /** Type-checked statements keep the valuation well typed, and they never halt the program. */
  lemma {:induction false} ExecutionPreservesTypes(fuel: nat, s: Statement, store: Store, renv: Env, wenv: Env)
    requires WellTyped(store) && TypecheckStatement(s, renv, wenv)
    ensures
      var r := Execute(fuel, s, store);
      !r.Halted? && (r.Done? ==> WellTyped(r.store))
    decreases fuel, s
  {
    match s
    case Assignment(_, d, rhs) =>
      if Evaluate(rhs, store).Some? { EvaluationPreservesType(rhs, renv, store); }
    case StatementList(ss) => ListPreservesTypes(fuel, ss, store, renv, wenv);
    case IfStatement(c, thenBody, elseBody) =>
      match ConditionValue(c, store) {
        case Some(true) => ExecutionPreservesTypes(fuel, thenBody, store, renv, wenv);
        case Some(false) => ExecutionPreservesTypes(fuel, elseBody, store, renv, wenv);
        case None =>
      }
    case WhileStatement(c, body) =>
      if ConditionValue(c, store) == Some(true) {
        ExecutionPreservesTypes(fuel, body, store, renv, wenv);
        var round := Execute(fuel, body, store);
        if round.Done? && fuel > 0 { ExecutionPreservesTypes(fuel - 1, s, round.store, renv, wenv); }
      }
    case ExpressionStatement(_) =>
  }

  lemma {:induction false} ListPreservesTypes(fuel: nat, ss: seq<Statement>, store: Store, renv: Env, wenv: Env)
    requires WellTyped(store) && forall t | t in ss :: TypecheckStatement(t, renv, wenv)
    ensures
      var r := ExecuteList(fuel, ss, store);
      !r.Halted? && (r.Done? ==> WellTyped(r.store))
    decreases fuel, ss
  {
    if ss != [] {
      ExecutionPreservesTypes(fuel, ss[0], store, renv, wenv);
      var first := Execute(fuel, ss[0], store);
      if first.Done? { ListPreservesTypes(fuel, ss[1..], first.store, renv, wenv); }
    }
  }

  // ----- When evaluation is never null -----

  /** Operators the evaluator implements at the operands' type, division aside. */
  predicate Implemented(op: Operator, t: Type) {
    match t
    case IntType => !op.Divide? && !op.AndAlso? && !op.OrElse?
    case BooleanType => op.AndAlso? || op.OrElse? || op.Eq?
    case StringType => false
  }

  predicate AllImplemented(e: Expression, env: Env) {
    match e
    case Binary(left, right, op) =>
      var l := TypecheckExpression(left, env);
      AllImplemented(left, env) && AllImplemented(right, env) && l.Some? && Implemented(op, l.value)
    case _ => true
  }

  ghost predicate Assigned(e: Expression, store: Store) {
    match e
    case Literal(_) => true
    case Name(_, d) => ValueOf(store, d).Some?
    case Binary(left, right, _) => Assigned(left, store) && Assigned(right, store)
  }

  /** Over assigned variables, implemented operators always give a value. */
  lemma {:induction false} NeverNull(e: Expression, env: Env, store: Store)
    requires WellTyped(store) && TypecheckExpression(e, env).Some?
    requires Assigned(e, store) && AllImplemented(e, env)
    ensures EvaluateOperand(e, store).Result? && EvaluateOperand(e, store).value.Some?
    ensures Evaluate(e, store).Some?
  {
    match e
    case Literal(_) =>
    case Name(_, _) =>
    case Binary(left, right, op) =>
      NeverNull(left, env, store);
      NeverNull(right, env, store);
      OperandType(left, env, store);
      OperandType(right, env, store);
  }

  /** The checker admits more than the evaluator implements: comparing Booleans by anything but "=",
      or strings at all, gives null in every store. */
  lemma UnimplementedAlwaysNull(left: Expression, right: Expression, op: Operator, env: Env, store: Store)
    requires WellTyped(store) && TypecheckExpression(Binary(left, right, op), env).Some?
    requires !Implemented(op, TypecheckExpression(left, env).value) && !op.Divide?
    ensures Evaluate(Binary(left, right, op), store) == None
  {
    OperandType(left, env, store);
  }

  /** Division is null exactly when an operand is null or the divisor is zero. */
  lemma DivisionNull(left: Expression, right: Expression, env: Env, store: Store)
    requires WellTyped(store) && TypecheckExpression(Binary(left, right, Divide), env).Some?
    ensures Evaluate(Binary(left, right, Divide), store) == None <==>
      (Evaluate(left, store) == None || Evaluate(right, store) == None
       || Evaluate(right, store) == Some(IntegerConstant(0)))
  {
    OperandType(left, env, store);
    OperandType(right, env, store);
  }

  /** The operators on two values of the types that the checker admits. */
  lemma ApplyNullExactly(op: Operator, l: Constant, r: Constant)
    requires TypeOfConstant(l) == TypeOfConstant(r)
    requires IsArithmetic(op) ==> l.IntegerConstant?
    requires !IsArithmetic(op) && !IsComparison(op) ==> l.BooleanConstant?
    ensures
      var o := Apply(op, Some(l), Some(r));
      o.Throws? || o.value == None <==>
        if op.Divide? then r == IntegerConstant(0) else !Implemented(op, TypeOfConstant(l))
  {}

  /** What of the accepted expressions fails, exactly: over operands that have values, the result is
      null for a division by zero and for an operator that the evaluator lacks at the operands' type,
      and for nothing else. */
  lemma NullExactly(left: Expression, right: Expression, op: Operator, env: Env, store: Store)
    requires WellTyped(store) && TypecheckExpression(Binary(left, right, op), env).Some?
    requires Evaluate(left, store).Some? && Evaluate(right, store).Some?
    ensures Evaluate(Binary(left, right, op), store) == None <==>
      if op.Divide? then Evaluate(right, store) == Some(IntegerConstant(0))
      else !Implemented(op, TypecheckExpression(left, env).value)
  {
    OperandType(left, env, store);
    OperandType(right, env, store);
    ApplyNullExactly(op, Evaluate(left, store).value, Evaluate(right, store).value);
  }

  /** A null operand makes the result null, except on the right of an operator that its left operand
      decides. */
  lemma NullOperand(left: Expression, right: Expression, op: Operator, env: Env, store: Store)
    requires WellTyped(store) && TypecheckExpression(Binary(left, right, op), env).Some?
    requires Evaluate(left, store).None? || Evaluate(right, store).None?
    ensures Evaluate(Binary(left, right, op), store).Some? <==>
      && EvaluateOperand(right, store) == Result(None)
      && ((op.AndAlso? && Evaluate(left, store) == Some(BooleanConstant(false)))
          || (op.OrElse? && Evaluate(left, store) == Some(BooleanConstant(true))))
  {
    OperandType(left, env, store);
    OperandType(right, env, store);
  }

  /** The condition of a checked `if` or `while` is taken at its value, exactly unless it is a variable
      that has one: a bare Boolean variable runs neither branch. */
  lemma ConditionExactly(c: Expression, env: Env, store: Store)
    requires WellTyped(store) && TypecheckExpression(c, env) == Some(BooleanType)
    ensures (forall b :: ConditionValue(c, store) == Some(b) <==> Evaluate(c, store) == Some(BooleanConstant(b)))
      <==> !(c.Name? && ValueOf(store, c.decl).Some?)
  {
    OperandType(c, env, store);
    if c.Name? && ValueOf(store, c.decl).Some? {
      var b := ValueOf(store, c.decl).value.b;
      assert ConditionValue(c, store) != Some(b) && Evaluate(c, store) == Some(BooleanConstant(b));
    }
  }

  // ----- What a statement may write -----

  /** Only variables that `wenv` declares change, and none is removed. */
  ghost predicate WritesOnly(wenv: Env, store: Store, store': Store) {
    && store.Keys <= store'.Keys
    && (forall d | d in store'.Keys && !Declares(wenv, d) :: d in store.Keys && store'[d] == store[d])
  }

  lemma {:induction false} ExecutionWrites(fuel: nat, s: Statement, store: Store, renv: Env, wenv: Env)
    requires TypecheckStatement(s, renv, wenv)
    ensures
      var r := Execute(fuel, s, store);
      !r.Halted? && (r.Done? ==> WritesOnly(wenv, store, r.store))
    decreases fuel, s
  {
    match s
    case Assignment(id, d, rhs) => LookupDeclares(wenv, id);
    case StatementList(ss) => ListWrites(fuel, ss, store, renv, wenv);
    case IfStatement(c, thenBody, elseBody) =>
      match ConditionValue(c, store) {
        case Some(true) => ExecutionWrites(fuel, thenBody, store, renv, wenv);
        case Some(false) => ExecutionWrites(fuel, elseBody, store, renv, wenv);
        case None =>
      }
    case WhileStatement(c, body) =>
      if ConditionValue(c, store) == Some(true) {
        ExecutionWrites(fuel, body, store, renv, wenv);
        var round := Execute(fuel, body, store);
        if round.Done? && fuel > 0 { ExecutionWrites(fuel - 1, s, round.store, renv, wenv); }
      }
    case ExpressionStatement(_) =>
  }

  lemma {:induction false} ListWrites(fuel: nat, ss: seq<Statement>, store: Store, renv: Env, wenv: Env)
    requires forall t | t in ss :: TypecheckStatement(t, renv, wenv)
    ensures
      var r := ExecuteList(fuel, ss, store);
      !r.Halted? && (r.Done? ==> WritesOnly(wenv, store, r.store))
    decreases fuel, ss
  {
    if ss != [] {
      ExecutionWrites(fuel, ss[0], store, renv, wenv);
      var first := Execute(fuel, ss[0], store);
      if first.Done? { ListWrites(fuel, ss[1..], first.store, renv, wenv); }
    }
  }
}
