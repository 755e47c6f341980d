/** What a MaxSAT procedure has to return, the relaxation both procedures start from, and the
    naive procedure: linear search with an at-most-k constraint. */
module MaxSat {
  import opened Terms
  import opened Solvers
  import opened Circuits

  // ----- Specification -----

  /** `v` is the largest number of soft constraints that a model of the hard ones satisfies. */
  ghost predicate IsOptimum(hard: seq<Term>, soft: seq<Term>, v: int) {
    && (exists m :: Holds(hard, m) && CountTrue(soft, m) == v)
    && (forall m | Holds(hard, m) :: CountTrue(soft, m) <= v)
  }

  ghost predicate Satisfiable(hard: seq<Term>) {
    exists m :: Holds(hard, m)
  }

  /** The documented result: the optimum, or -1 when the hard constraints cannot be satisfied. */
  ghost predicate IsAnswer(hard: seq<Term>, soft: seq<Term>, r: int) {
    if Satisfiable(hard) then IsOptimum(hard, soft, r) else r == -1
  }

  lemma AnswerUnique(hard: seq<Term>, soft: seq<Term>, r: int, r': int)
    requires IsAnswer(hard, soft, r) && IsAnswer(hard, soft, r')
    ensures r == r'
  {
    if Satisfiable(hard) {
      var m :| Holds(hard, m) && CountTrue(soft, m) == r;
      var m' :| Holds(hard, m') && CountTrue(soft, m') == r';
    }
  }

  /** The optimum, counted by violated constraints: `k` are violated by one model, never fewer. */
  lemma OptimumFromViolations(hard: seq<Term>, soft: seq<Term>, k: nat, best: Model)
    requires Holds(hard, best) && CountFalse(soft, best) <= k
    requires forall m | Holds(hard, m) :: CountFalse(soft, m) >= k
    ensures IsOptimum(hard, soft, |soft| - k)
  {
    CountsAddUp(soft, best);
    forall m | Holds(hard, m) ensures CountTrue(soft, m) <= |soft| - k { CountsAddUp(soft, m); }
  }

  // ----- Relaxation -----

  /** Each constraint may be switched off by its auxiliary variable. */
  function Relaxed(soft: seq<Term>, aux: seq<Term>): (r: seq<Term>)
    requires |soft| == |aux|
    ensures |r| == |soft|
  {
    seq(|soft|, i requires 0 <= i < |soft| => Or(soft[i], aux[i]))
  }

  function FreshVars(base: nat, n: nat): (r: seq<Term>)
    ensures |r| == n
  {
    seq(n, i requires 0 <= i < n => Var(base + i))
  }

  lemma HoldsRelaxed(soft: seq<Term>, aux: seq<Term>, m: Model)
    requires |soft| == |aux|
    ensures Holds(Relaxed(soft, aux), m) <==> forall i | 0 <= i < |soft| :: Eval(soft[i], m) || Eval(aux[i], m)
  {
    var r := Relaxed(soft, aux);
    if Holds(r, m) {
      forall i | 0 <= i < |soft| ensures Eval(soft[i], m) || Eval(aux[i], m) { assert r[i] in r; }
    }
  }

  /** Every violated constraint is switched off. */
  lemma {:induction false} SwitchesCoverViolations(soft: seq<Term>, aux: seq<Term>, m: Model)
    requires |soft| == |aux|
    requires forall i | 0 <= i < |soft| :: Eval(soft[i], m) || Eval(aux[i], m)
    ensures CountFalse(soft, m) <= CountTrue(aux, m)
  {
    if soft != [] {
      assert Eval(soft[0], m) || Eval(aux[0], m);
      SwitchesCoverViolations(soft[1..], aux[1..], m);
    }
  }

  lemma {:induction false} SwitchesMatchViolations(soft: seq<Term>, aux: seq<Term>, m: Model)
    requires |soft| == |aux|
    requires forall i | 0 <= i < |soft| :: Eval(soft[i], m) != Eval(aux[i], m)
    ensures CountFalse(soft, m) == CountTrue(aux, m)
  {
    if soft != [] {
      assert Eval(soft[0], m) != Eval(aux[0], m);
      SwitchesMatchViolations(soft[1..], aux[1..], m);
    }
  }

  /** `m` below `base`, and from there on exactly the switches of the constraints it violates. */
  ghost function SwitchOff(m: Model, soft: seq<Term>, base: nat): Model {
    iset v: nat | if v < base then v in m else v < base + |soft| && !Eval(soft[v - base], m)
  }

  lemma SwitchOffProperty(m: Model, hard: seq<Term>, soft: seq<Term>, base: nat)
    requires AllBelow(hard, base) && AllBelow(soft, base)
    ensures
      var m', aux := SwitchOff(m, soft, base), FreshVars(base, |soft|);
      && Agree(m, m', base)
      && Holds(hard, m') == Holds(hard, m)
      && (forall i | 0 <= i < |soft| :: Eval(soft[i], m') != Eval(aux[i], m'))
      && CountFalse(soft, m') == CountFalse(soft, m) == CountTrue(aux, m')
  {
    var m', aux := SwitchOff(m, soft, base), FreshVars(base, |soft|);
    HoldsAgree(hard, m, m', base);
    CountFalseAgree(soft, m, m', base);
    forall i | 0 <= i < |soft| ensures Eval(soft[i], m') != Eval(aux[i], m') {
      EvalAgree(soft[i], m, m', base);
    }
    SwitchesMatchViolations(soft, aux, m');
  }

  // ----- Shared steps of the procedures -----

  method AssertHardConstraints(s: Solver, hard: seq<Term>)
    modifies s`asserted
    ensures s.asserted == old(s.asserted) + hard
  {
    for i := 0 to |hard|
      invariant s.asserted == old(s.asserted) + hard[..i]
    {
      s.Assert(hard[i]);
      assert hard[..i + 1] == hard[..i] + [hard[i]];
    }
    assert hard[..|hard|] == hard;
  }

  method MkFreshBoolVarArray(ctx: Context, n: nat) returns (vars: array<Term>)
    modifies ctx
    ensures fresh(vars) && vars.Length == n
    ensures vars[..] == FreshVars(old(ctx.next), n) && ctx.next == old(ctx.next) + n
  {
    vars := new Term[n](_ => False);
    for i := 0 to n
      invariant ctx.next == old(ctx.next) + i
      invariant forall j | 0 <= j < i :: vars[j] == Var(old(ctx.next) + j)
    {
      vars[i] := ctx.MkFreshBoolVar();
    }
  }

  method AssertSoftConstraints(ctx: Context, s: Solver, soft: array<Term>) returns (aux: array<Term>)
    modifies ctx, s`asserted
    ensures fresh(aux) && aux.Length == soft.Length
    ensures aux[..] == FreshVars(old(ctx.next), soft.Length) && ctx.next == old(ctx.next) + soft.Length
    ensures s.asserted == old(s.asserted) + Relaxed(soft[..], aux[..])
  {
    aux := MkFreshBoolVarArray(ctx, soft.Length);
    ghost var relaxed := Relaxed(soft[..], aux[..]);
    for i := 0 to soft.Length
      invariant ctx.next == old(ctx.next) + soft.Length
      invariant aux[..] == FreshVars(old(ctx.next), soft.Length)
      invariant s.asserted == old(s.asserted) + relaxed[..i]
    {
      s.Assert(Or(soft[i], aux[i]));
      assert relaxed[..i + 1] == relaxed[..i] + [relaxed[i]];
    }
    assert relaxed[..soft.Length] == relaxed;
  }

  // ----- Naive procedure -----

  datatype Outcome = Answer(value: int) | Bug

  method GetNumDisabledSoftConstraints(m: Model, aux: array<Term>) returns (numDisabled: nat)
    ensures numDisabled == CountTrue(aux[..], m)
  {
    numDisabled := 0;
    for i := 0 to aux.Length
      invariant numDisabled + CountTrue(aux[i..], m) == CountTrue(aux[..], m)
    {
      assert aux[i..][1..] == aux[i + 1..];
      if Eval(aux[i], m) {
        numDisabled := numDisabled + 1;
      }
    }
  }

  /** What the solver knows during the search: hard constraints, switches, at most `limit` off. */
  ghost predicate SearchState(asserted: seq<Term>, hard: seq<Term>, soft: seq<Term>, aux: seq<Term>, limit: nat)
    requires |soft| == |aux|
  {
    forall m :: Holds(asserted, m) <==>
      Holds(hard, m) && Holds(Relaxed(soft, aux), m) && CountTrue(aux, m) <= limit
  }

  lemma SearchTighten(asserted: seq<Term>, hard: seq<Term>, soft: seq<Term>, aux: seq<Term>, limit: nat, k: nat)
    requires |soft| == |aux| && 1 <= |soft| <= MAX_COUNTED && k < limit <= |soft|
    requires SearchState(asserted, hard, soft, aux, limit)
    ensures SearchState(asserted + AtMostAssertions(aux, k), hard, soft, aux, if |soft| == 1 then limit else k)
  {
    var asserted' := asserted + AtMostAssertions(aux, k);
    forall m
      ensures Holds(asserted', m) <==> Holds(asserted, m) && (|soft| == 1 || CountTrue(aux, m) <= k)
    {
      assert Holds(asserted', m) <==> Holds(asserted, m) && Holds(AtMostAssertions(aux, k), m);
      if |soft| > 1 { AtMostMeaning(aux, k, m); }
    }
  }

  lemma SearchUnsat(asserted: seq<Term>, hard: seq<Term>, soft: seq<Term>, base: nat, k: nat)
    requires AllBelow(hard, base) && AllBelow(soft, base)
    requires SearchState(asserted, hard, soft, FreshVars(base, |soft|), k)
    requires !Satisfiable(asserted)
    ensures forall m | Holds(hard, m) :: CountFalse(soft, m) > k
  {
    forall m | Holds(hard, m) ensures CountFalse(soft, m) > k {
      SwitchOffProperty(m, hard, soft, base);
      var m' := SwitchOff(m, soft, base);
      HoldsRelaxed(soft, FreshVars(base, |soft|), m');
      assert !Holds(asserted, m');
    }
  }

  lemma SearchSat(asserted: seq<Term>, hard: seq<Term>, soft: seq<Term>, aux: seq<Term>, limit: nat, m: Model)
    requires |soft| == |aux| && SearchState(asserted, hard, soft, aux, limit) && Holds(asserted, m)
    ensures Holds(hard, m) && CountFalse(soft, m) <= CountTrue(aux, m) <= limit
  {
    HoldsRelaxed(soft, aux, m);
    SwitchesCoverViolations(soft, aux, m);
  }

  lemma SearchStart(hard: seq<Term>, soft: seq<Term>, aux: seq<Term>)
    requires |soft| == |aux|
    ensures SearchState(hard + Relaxed(soft, aux), hard, soft, aux, |soft|)
  {
    forall m ensures CountTrue(aux, m) <= |soft| { CountsAddUp(aux, m); }
  }

  /** The search loop: `k` falls, and some model violates at most k + 1 constraints. */
  method LinearSearch(s: Solver, n: nat, aux: array<Term>, ghost hard: seq<Term>, ghost soft: seq<Term>,
                      ghost base: nat, ghost start: Model)
    returns (r: Outcome)
    requires Decisive(s.oracle) && 1 <= n == |soft| <= MAX_COUNTED
    requires AllBelow(hard, base) && AllBelow(soft, base) && aux[..] == FreshVars(base, n)
    requires SearchState(s.asserted, hard, soft, aux[..], n) && Holds(hard, start)
    modifies s
    ensures r.Answer? ==> IsOptimum(hard, soft, r.value)
    ensures r.Bug? ==> n == 1
  {
    ghost var auxs, best, limit: nat := aux[..], start, n;
    CountsAddUp(soft, best);
    var k: nat := n - 1;
    while true
      invariant k < limit <= n
      invariant SearchState(s.asserted, hard, soft, auxs, limit)
      invariant Holds(hard, best) && CountFalse(soft, best) <= k + 1
      decreases k
    {
      SearchTighten(s.asserted, hard, soft, auxs, limit, k);
      AssertAtMostK(s, n, aux, k);
      limit := if n == 1 then limit else k;
      assert aux[..n] == auxs;
      var isSat := s.Check([]);
      if isSat.Unsat? {
        NoModel(s.asserted, isSat.core);
        SearchUnsat(s.asserted, hard, soft, base, limit);
        OptimumFromViolations(hard, soft, k + 1, best);
        return Answer(n - k - 1);
      }
      SearchSat(s.asserted, hard, soft, auxs, limit, isSat.model);
      best := isSat.model;
      var numDisabled := GetNumDisabledSoftConstraints(isSat.model, aux);
      if numDisabled > k {
        return Bug;
      }
      k := numDisabled;
      if k == 0 {
        OptimumFromViolations(hard, soft, 0, best);
        return Answer(n);
      }
      k := k - 1;
    }
  }

  /** An empty core means that the assertions have no model. */
  lemma NoModel(asserted: seq<Term>, core: seq<Term>)
    requires Correct(asserted, [], Unsat(core))
    ensures !Satisfiable(asserted)
  {
    forall m ensures !Holds(asserted, m) { assert Holds(core, m); }
  }

  /** Returns the optimum for any number of soft constraints but one; with one it may stop at its
      own "BUG" check, because at-most-0 of one variable asserts nothing. */
  method NaiveMaxSat(ctx: Context, s: Solver, hard: seq<Term>, soft: array<Term>) returns (r: Outcome)
    requires Decisive(s.oracle) && soft.Length <= MAX_COUNTED
    requires AllBelow(s.asserted, ctx.next) && AllBelow(hard, ctx.next) && AllBelow(soft[..], ctx.next)
    modifies ctx, s
    ensures r.Answer? ==> IsAnswer(old(s.asserted) + hard, soft[..], r.value)
    ensures r.Bug? ==> soft.Length == 1 && Satisfiable(old(s.asserted) + hard)
  {
    AssertHardConstraints(s, hard);
    ghost var base, allHard, softs := ctx.next, s.asserted, soft[..];
    var isSat := s.Check([]);
    if isSat.Unsat? {
      NoModel(allHard, isSat.core);
      return Answer(-1);
    }
    ghost var best := isSat.model;
    if soft.Length == 0 {
      OptimumFromViolations(allHard, softs, 0, best);
      return Answer(0);
    }
    var aux := AssertSoftConstraints(ctx, s, soft);
    SearchStart(allHard, softs, aux[..]);
    r := LinearSearch(s, soft.Length, aux, allHard, softs, base, best);
  }

  /** With one soft constraint the "BUG" check can fire: some solver, correct on every query, answers
      the query of the first round with a model that switches the constraint off. */
  lemma SingleSoftMayReportBug(hard: seq<Term>, t: Term, base: nat)
    requires Satisfiable(hard) && AllBelow(hard, base)
    ensures
      var asserted := hard + Relaxed([t], [Var(base)]) + AtMostAssertions([Var(base)], 0);
      exists o: Oracle {:trigger Decisive(o)} :: Decisive(o) && SwitchesOff(o, asserted, Var(base))
  {
    var asserted := hard + Relaxed([t], [Var(base)]) + AtMostAssertions([Var(base)], 0);
    var m :| Holds(hard, m);
    var m' := m + iset{base};
    HoldsAgree(hard, m, m', base);
    HoldsRelaxed([t], [Var(base)], m');
    assert Correct(asserted, [], Sat(m'));
    ghost var o: Oracle := (q: nat, a: seq<Term>, assumptions: seq<Term>) =>
      if a == asserted && assumptions == [] then Sat(m') else BestAnswer(a, assumptions);
    assert Decisive(o) && SwitchesOff(o, asserted, Var(base));
  }

  /** The oracle's model of the assertions makes the switch true. */
  ghost predicate SwitchesOff(o: Oracle, asserted: seq<Term>, switch: Term) {
    forall q :: o(q, asserted, []).Sat? && Eval(switch, o(q, asserted, []).model)
  }
}
