/** The solver the MaxSAT procedures talk to.

    The answers come from an oracle that the model does not inspect.  An oracle may answer two
    equal queries differently, so it also receives the number of the query. */
module Solvers {
  import opened Terms

  datatype Answer = Sat(model: Model) | Unsat(core: seq<Term>)

  type Oracle = (nat, seq<Term>, seq<Term>) -> Answer

  /** `sat` comes with a model of everything; `unsat` comes with assumptions that clash with the
      assertions.  There is no "unknown". */
  ghost predicate Correct(asserted: seq<Term>, assumptions: seq<Term>, a: Answer) {
    match a
    case Sat(m) => Holds(asserted, m) && Holds(assumptions, m)
    case Unsat(core) =>
      && (forall c | c in core :: c in assumptions)
      && (forall m | Holds(asserted, m) :: !Holds(core, m))
  }

  ghost predicate Decisive(o: Oracle) {
    forall q, asserted, assumptions :: Correct(asserted, assumptions, o(q, asserted, assumptions))
  }

  ghost function BestAnswer(asserted: seq<Term>, assumptions: seq<Term>): (a: Answer)
    ensures Correct(asserted, assumptions, a)
  {
    if exists m :: Holds(asserted, m) && Holds(assumptions, m) then
      var m :| Holds(asserted, m) && Holds(assumptions, m);
      Sat(m)
    else
      Unsat(assumptions)
  }

  /** Source of fresh constants: `Z3_mk_fresh_const` never returns a constant seen before. */
  class Context {
    var next: nat

    constructor (next: nat)
      ensures this.next == next
    {
      this.next := next;
    }

    method MkFreshBoolVar() returns (t: Term)
      modifies this
      ensures t == Var(old(next)) && next == old(next) + 1
    {
      t := Var(next);
      next := next + 1;
    }
  }

  class Solver {
    const oracle: Oracle
    var asserted: seq<Term>
    var queries: nat

    constructor (oracle: Oracle)
      ensures this.oracle == oracle && asserted == [] && queries == 0
    {
      this.oracle := oracle;
      asserted, queries := [], 0;
    }

    method Assert(t: Term)
      modifies this`asserted
      ensures asserted == old(asserted) + [t]
    {
      asserted := asserted + [t];
    }

    method Check(assumptions: seq<Term>) returns (a: Answer)
      requires Decisive(oracle)
      modifies this`queries
      ensures Correct(asserted, assumptions, a)
    {
      a := oracle(queries, asserted, assumptions);
      queries := queries + 1;
    }
  }

  /** The procedures' assumption can be met: some oracle always answers correctly. */
  lemma DecisiveOracleExists()
    ensures exists o: (nat, seq<Term>, seq<Term>) -> Answer {:trigger Decisive(o)} :: Decisive(o)
  {
    ghost var o: Oracle := (q: nat, asserted: seq<Term>, assumptions: seq<Term>) => BestAnswer(asserted, assumptions);
    assert Decisive(o);
  }
}
