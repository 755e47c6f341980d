/** What a statement means, by rules instead of by recursion on a bound: a statement takes a valuation
    to a result exactly if a derivation shows it. */
module BigStep {
  import opened Ast
  import opened Evaluation

  /** A condition that is read at all; a bare variable is not, whatever its value. */
  ghost predicate ReadsAs(c: Expression, store: Store, b: bool) {
    !c.Name? && Evaluate(c, store) == Some(BooleanConstant(b))
  }

  /** `Then`: one statement, what it makes, and the statement after it. */
  datatype Derivation =
    | Axiom
    | Branch(chosen: Derivation)
    | Then(first: Derivation, mid: Execution, rest: Derivation)

  /** The derivation `t` shows that `s` takes `store` to `r`. */
  ghost predicate Derives(t: Derivation, s: Statement, store: Store, r: Execution)
    decreases t
  {
    match s
    case Assignment(_, d, rhs) => t == Axiom && r == Done(store[d := Evaluate(rhs, store)])
    case ExpressionStatement(_) => t == Axiom && r == Done(store)
    case SkipStatement => t == Axiom && r == Done(store)
    case HaltStatement => t == Axiom && r == Halted(store)
    case StatementList(ss) =>
      if ss == [] then t == Axiom && r == Done(store)
      else Sequence(t, ss[0], StatementList(ss[1..]), store, r)
    case IfStatement(c, thenBody, elseBody) =>
      if ReadsAs(c, store, true) then t.Branch? && Derives(t.chosen, thenBody, store, r)
      else if ReadsAs(c, store, false) then t.Branch? && Derives(t.chosen, elseBody, store, r)
      else t == Axiom && r == Done(store)
    case WhileStatement(c, body) =>
      if ReadsAs(c, store, true) then Sequence(t, body, s, store, r)
      else t == Axiom && r == Done(store)
  }

  /** First `a`; if it completes, then `b` on what it leaves. */
  ghost predicate Sequence(t: Derivation, a: Statement, b: Statement, store: Store, r: Execution)
    decreases t, 0
  {
    && t.Then? && Derives(t.first, a, store, t.mid)
    && (if t.mid.Done? then Derives(t.rest, b, t.mid.store, r) else r == t.mid)
  }

  ghost predicate Means(s: Statement, store: Store, r: Execution) {
    exists t :: Derives(t, s, store, r)
  }

  // ----- Execution agrees -----

  lemma ConditionRead(c: Expression, store: Store, b: bool)
    ensures ConditionValue(c, store) == Some(b) <==> ReadsAs(c, store, b)
  {}

  /** Whatever an execution ends with can be derived. */
  lemma {:induction false} ExecuteDerives(fuel: nat, s: Statement, store: Store) returns (t: Derivation)
    requires !Execute(fuel, s, store).OutOfFuel?
    ensures Derives(t, s, store, Execute(fuel, s, store))
    decreases fuel, s
  {
    t := Axiom;
    match s
    case StatementList(ss) => t := ListDerives(fuel, ss, store);
    case IfStatement(c, thenBody, elseBody) =>
      ConditionRead(c, store, true);
      ConditionRead(c, store, false);
      match ConditionValue(c, store) {
        case Some(true) =>
          t := ExecuteDerives(fuel, thenBody, store);
          t := Branch(t);
        case Some(false) =>
          t := ExecuteDerives(fuel, elseBody, store);
          t := Branch(t);
        case None =>
      }
    case WhileStatement(c, body) =>
      ConditionRead(c, store, true);
      if ConditionValue(c, store) == Some(true) {
        var round := Execute(fuel, body, store);
        var first := ExecuteDerives(fuel, body, store);
        var rest := Axiom;
        if round.Done? { rest := ExecuteDerives(fuel - 1, s, round.store); }
        t := Then(first, round, rest);
      }
    case _ =>
  }

  lemma {:induction false} ListDerives(fuel: nat, ss: seq<Statement>, store: Store) returns (t: Derivation)
    requires !ExecuteList(fuel, ss, store).OutOfFuel?
    ensures Derives(t, StatementList(ss), store, ExecuteList(fuel, ss, store))
    decreases fuel, ss
  {
    t := Axiom;
    if ss != [] {
      var mid := Execute(fuel, ss[0], store);
      var first := ExecuteDerives(fuel, ss[0], store);
      var rest := Axiom;
      if mid.Done? { rest := ListDerives(fuel, ss[1..], mid.store); }
      t := Then(first, mid, rest);
    }
  }

  function Larger(a: nat, b: nat): nat { if a >= b then a else b }

  /** Whatever can be derived is what the execution ends with, for a large enough bound. */
  lemma {:induction false} DerivedExecutes(t: Derivation, s: Statement, store: Store, r: Execution)
    returns (fuel: nat)
    requires Derives(t, s, store, r)
    ensures Execute(fuel, s, store) == r && !r.OutOfFuel?
    decreases t
  {
    fuel := 0;
    match s
    case StatementList(ss) =>
      if ss != [] { fuel := SequenceExecutes(t, ss[0], StatementList(ss[1..]), store, r); }
    case IfStatement(c, thenBody, elseBody) =>
      ConditionRead(c, store, true);
      ConditionRead(c, store, false);
      if ReadsAs(c, store, true) {
        fuel := DerivedExecutes(t.chosen, thenBody, store, r);
      } else if ReadsAs(c, store, false) {
        fuel := DerivedExecutes(t.chosen, elseBody, store, r);
      }
    case WhileStatement(c, body) =>
      ConditionRead(c, store, true);
      if ReadsAs(c, store, true) {
        var bound := SequenceExecutes(t, body, s, store, r);
        fuel := bound + 1;
        FuelIrrelevant(bound, fuel, body, store);
      }
    case _ =>
  }

  lemma {:induction false} SequenceExecutes(t: Derivation, a: Statement, b: Statement, store: Store, r: Execution)
    returns (fuel: nat)
    requires Sequence(t, a, b, store, r)
    ensures
      var first := Execute(fuel, a, store);
      !first.OutOfFuel? && !r.OutOfFuel? && r == if first.Done? then Execute(fuel, b, first.store) else first
    decreases t, 0
  {
    var f1 := DerivedExecutes(t.first, a, store, t.mid);
    fuel := f1;
    if t.mid.Done? {
      var f2 := DerivedExecutes(t.rest, b, t.mid.store, r);
      fuel := Larger(f1, f2);
      FuelIrrelevant(f1, fuel, a, store);
      FuelIrrelevant(f2, fuel, b, t.mid.store);
    }
  }

  /** Execution computes exactly the meaning: some bound ends with `r` if and only if `r` can be
      derived. */
  lemma ExecutionIsMeaning(s: Statement, store: Store, r: Execution)
    ensures Means(s, store, r) <==> !r.OutOfFuel? && exists fuel :: Execute(fuel, s, store) == r
  {
    if Means(s, store, r) {
      var t :| Derives(t, s, store, r);
      var fuel := DerivedExecutes(t, s, store, r);
    }
    if fuel: nat :| Execute(fuel, s, store) == r && !r.OutOfFuel? {
      var t := ExecuteDerives(fuel, s, store);
    }
  }

  /** A statement has at most one result. */
  lemma MeaningUnique(s: Statement, store: Store, r: Execution, r': Execution)
    requires Means(s, store, r) && Means(s, store, r')
    ensures r == r'
  {
    ExecutionIsMeaning(s, store, r);
    ExecutionIsMeaning(s, store, r');
    var f: nat :| Execute(f, s, store) == r;
    var f': nat :| Execute(f', s, store) == r';
    FuelIrrelevant(f, Larger(f, f'), s, store);
    FuelIrrelevant(f', Larger(f, f'), s, store);
  }

  // ----- Loops -----

  /** After a finished loop its condition is not true. */
  lemma {:induction false} LoopEndsFalse(t: Derivation, c: Expression, body: Statement, store: Store, store': Store)
    requires Derives(t, WhileStatement(c, body), store, Done(store'))
    ensures !ReadsAs(c, store', true)
    decreases t
  {
    if ReadsAs(c, store, true) { LoopEndsFalse(t.rest, c, body, t.mid.store, store'); }
  }

  lemma ListStep(t: Derivation, a: Statement, ss: seq<Statement>, store: Store, r: Execution)
    ensures Derives(t, StatementList([a] + ss), store, r) <==> Sequence(t, a, StatementList(ss), store, r)
  {
    assert ([a] + ss)[0] == a && ([a] + ss)[1..] == ss;
  }

  lemma LoopStep(t: Derivation, c: Expression, body: Statement, store: Store, r: Execution)
    requires ReadsAs(c, store, true)
    ensures Derives(t, WhileStatement(c, body), store, r) <==> Sequence(t, body, WhileStatement(c, body), store, r)
  {}

  /** One statement and then another, in terms of what they mean. */
  ghost predicate MeansInTurn(a: Statement, b: Statement, store: Store, r: Execution) {
    exists mid :: Means(a, store, mid) && if mid.Done? then Means(b, mid.store, r) else r == mid
  }

  lemma SequenceInTurn(t: Derivation, a: Statement, b: Statement, store: Store, r: Execution)
    requires Sequence(t, a, b, store, r)
    ensures MeansInTurn(a, b, store, r)
  {
    assert Means(a, store, t.mid);
    assert t.mid.Done? ==> Means(b, t.mid.store, r);
  }

  lemma InTurnSequence(a: Statement, b: Statement, store: Store, r: Execution) returns (t: Derivation)
    requires MeansInTurn(a, b, store, r)
    ensures Sequence(t, a, b, store, r)
  {
    var mid :| Means(a, store, mid) && if mid.Done? then Means(b, mid.store, r) else r == mid;
    var first :| Derives(first, a, store, mid);
    var rest := Axiom;
    if mid.Done? { rest :| Derives(rest, b, mid.store, r); }
    t := Then(first, mid, rest);
  }

  /** A list means its first statement and then the list of the others. */
  lemma ListUnfolds(a: Statement, ss: seq<Statement>, store: Store, r: Execution)
    ensures Means(StatementList([a] + ss), store, r) <==> MeansInTurn(a, StatementList(ss), store, r)
  {
    if Means(StatementList([a] + ss), store, r) {
      var t :| Derives(t, StatementList([a] + ss), store, r);
      ListStep(t, a, ss, store, r);
      SequenceInTurn(t, a, StatementList(ss), store, r);
    }
    if MeansInTurn(a, StatementList(ss), store, r) {
      var t := InTurnSequence(a, StatementList(ss), store, r);
      ListStep(t, a, ss, store, r);
    }
  }

  /** While the condition is true a loop means its body and then the loop; else it means nothing. */
  lemma LoopUnfolds(c: Expression, body: Statement, store: Store, r: Execution)
    ensures
      var loop := WhileStatement(c, body);
      Means(loop, store, r) <==>
        if ReadsAs(c, store, true) then MeansInTurn(body, loop, store, r) else r == Done(store)
  {
    var loop := WhileStatement(c, body);
    if !ReadsAs(c, store, true) {
      assert Derives(Axiom, loop, store, Done(store));
      return;
    }
    if Means(loop, store, r) {
      var t :| Derives(t, loop, store, r);
      LoopStep(t, c, body, store, r);
      SequenceInTurn(t, body, loop, store, r);
    }
    if MeansInTurn(body, loop, store, r) {
      var t := InTurnSequence(body, loop, store, r);
      LoopStep(t, c, body, store, r);
    }
  }

  /** A conditional means the branch that its condition selects, or nothing if the condition is not
      read. */
  lemma ConditionalMeans(c: Expression, a: Statement, b: Statement, store: Store, r: Execution)
    ensures
      Means(IfStatement(c, a, b), store, r) <==>
        if ReadsAs(c, store, true) then Means(a, store, r)
        else if ReadsAs(c, store, false) then Means(b, store, r)
        else r == Done(store)
  {
    var s := IfStatement(c, a, b);
    if ReadsAs(c, store, true) || ReadsAs(c, store, false) {
      var chosen := if ReadsAs(c, store, true) then a else b;
      if Means(s, store, r) {
        var t :| Derives(t, s, store, r);
        assert Derives(t.chosen, chosen, store, r);
      }
      if Means(chosen, store, r) {
        var t :| Derives(t, chosen, store, r);
        assert Derives(Branch(t), s, store, r);
      }
    } else {
      assert Derives(Axiom, s, store, Done(store));
    }
  }
}
