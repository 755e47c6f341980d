/** MaxRes relaxation of cores and its dual restriction of correction sets, with the accounting of
    the hitting-set MaxSAT solver that uses them. */
module MaxRes {
  import opened Terms

  // ----- Falsified formulas -----

  function Members(ts: seq<Term>): set<Term> { set t | t in ts }

  ghost function FalseOnes(fs: set<Term>, m: Model): set<Term> {
    set f | f in fs && !Eval(f, m)
  }

  /** The cost of a model: how many soft formulas it falsifies. */
  ghost function Falsified(fs: set<Term>, m: Model): nat { |FalseOnes(fs, m)| }

  lemma {:induction false} FalsifiedListing(ts: seq<Term>, m: Model)
    requires Distinct(ts)
    ensures Falsified(Members(ts), m) == CountFalse(ts, m)
  {
    if ts == [] {
      assert FalseOnes(Members([]), m) == {};
    } else {
      FalsifiedListing(ts[1..], m);
      assert ts == [ts[0]] + ts[1..];
      assert ts[0] !in ts[1..];
      var rest := FalseOnes(Members(ts[1..]), m);
      if Eval(ts[0], m) {
        assert FalseOnes(Members(ts), m) == rest;
      } else {
        assert FalseOnes(Members(ts), m) == rest + {ts[0]};
      }
    }
  }

  lemma FalsifiedUnion(a: set<Term>, b: set<Term>, m: Model)
    requires a !! b
    ensures Falsified(a + b, m) == Falsified(a, m) + Falsified(b, m)
  {
    assert FalseOnes(a + b, m) == FalseOnes(a, m) + FalseOnes(b, m);
    UnionSize(FalseOnes(a, m), FalseOnes(b, m));
  }

  /** Replacing a subset by new formulas changes the cost by their two counts. */
  lemma FalsifiedReplace(fs: set<Term>, removed: seq<Term>, added: seq<Term>, m: Model)
    requires Members(removed) <= fs && Members(added) !! fs && Distinct(removed) && Distinct(added)
    ensures Falsified(fs - Members(removed) + Members(added), m) + CountFalse(removed, m)
         == Falsified(fs, m) + CountFalse(added, m)
  {
    FalsifiedListing(removed, m);
    FalsifiedListing(added, m);
    var kept := fs - Members(removed);
    assert fs == kept + Members(removed);
    FalsifiedUnion(kept, Members(removed), m);
    FalsifiedUnion(kept, Members(added), m);
  }

  lemma UnionSize(a: set<Term>, b: set<Term>)
    requires a !! b
    ensures |a + b| == |a| + |b|
  {}

  // ----- The definitions -----

  /** Definitions added to the solver, the names that join the soft formulas, the next free name. */
  datatype Rewriting = Rewriting(defs: seq<Term>, names: seq<Term>, next: nat)

  /** Core relaxation: for each member but the first, "all earlier ones hold, or it does". */
  function RelaxDefs(core: seq<Term>, prefix: Term, next: nat): Rewriting {
    if |core| <= 1 then Rewriting([], [], next)
    else
      var p, d := Var(next), Var(next + 1);
      var rest := RelaxDefs(core[1..], p, next + 2);
      Rewriting([Iff(p, And(core[0], prefix)), Iff(d, Or(p, core[1]))] + rest.defs, [d] + rest.names, rest.next)
  }

  /** The dual: "some earlier one holds, and it does". */
  function RestrictDefs(cs: seq<Term>, prefix: Term, next: nat): Rewriting {
    if |cs| <= 1 then Rewriting([], [], next)
    else
      var p, d := Var(next), Var(next + 1);
      var rest := RestrictDefs(cs[1..], p, next + 2);
      Rewriting([Iff(p, Or(cs[0], prefix)), Iff(d, And(p, cs[1]))] + rest.defs, [d] + rest.names, rest.next)
  }

  lemma HoldsPair(a: Term, b: Term, rest: seq<Term>, m: Model)
    ensures Holds([a, b] + rest, m) <==> Eval(a, m) && Eval(b, m) && Holds(rest, m)
  {
    assert a in [a, b] + rest && b in [a, b] + rest;
  }

  /** With a true prefix the first false member is forgiven; with a false one the first member is. */
  lemma {:induction false} RelaxDefsCount(core: seq<Term>, prefix: Term, next: nat, m: Model)
    requires core != [] && Holds(RelaxDefs(core, prefix, next).defs, m)
    ensures
      var f := CountFalse(core, m);
      CountFalse(RelaxDefs(core, prefix, next).names, m)
        == if Eval(prefix, m) then (if f == 0 then 0 else f - 1) else CountFalse(core[1..], m)
  {
    if |core| > 1 {
      var p, d := Var(next), Var(next + 1);
      var rest := RelaxDefs(core[1..], p, next + 2);
      HoldsPair(Iff(p, And(core[0], prefix)), Iff(d, Or(p, core[1])), rest.defs, m);
      RelaxDefsCount(core[1..], p, next + 2, m);
      assert Eval(p, m) == (Eval(core[0], m) && Eval(prefix, m)) by {
        assert Eval(And(core[0], prefix), m) == Eval(p, m);
      }
      assert Eval(d, m) == (Eval(p, m) || Eval(core[1], m)) by {
        assert Eval(Or(p, core[1]), m) == Eval(d, m);
      }
      assert ([d] + rest.names)[1..] == rest.names;
    } else {
      assert core[1..] == [];
    }
  }

  lemma {:induction false} RestrictDefsCount(cs: seq<Term>, prefix: Term, next: nat, m: Model)
    requires cs != [] && Holds(RestrictDefs(cs, prefix, next).defs, m)
    ensures |RestrictDefs(cs, prefix, next).names| == |cs| - 1
    ensures
      var t := CountTrue(cs, m);
      CountTrue(RestrictDefs(cs, prefix, next).names, m)
        == if !Eval(prefix, m) then (if t == 0 then 0 else t - 1) else CountTrue(cs[1..], m)
  {
    if |cs| > 1 {
      var p, d := Var(next), Var(next + 1);
      var rest := RestrictDefs(cs[1..], p, next + 2);
      HoldsPair(Iff(p, Or(cs[0], prefix)), Iff(d, And(p, cs[1])), rest.defs, m);
      RestrictDefsCount(cs[1..], p, next + 2, m);
      assert Eval(p, m) == (Eval(cs[0], m) || Eval(prefix, m)) by {
        assert Eval(Or(cs[0], prefix), m) == Eval(p, m);
      }
      assert Eval(d, m) == (Eval(p, m) && Eval(cs[1], m)) by {
        assert Eval(And(p, cs[1]), m) == Eval(d, m);
      }
      assert ([d] + rest.names)[1..] == rest.names;
    } else {
      assert cs[1..] == [];
    }
  }

  /** The names are new and different from each other. */
  ghost predicate NewNames(rw: Rewriting, next: nat) {
    && next <= rw.next && AllBelow(rw.defs, rw.next) && Distinct(rw.names)
    && (forall t | t in rw.names :: t.Var? && next <= t.id < rw.next)
  }

  lemma NewNamesCons(rest: Rewriting, next: nat, a: Term, b: Term)
    requires NewNames(rest, next + 2) && Below(a, next + 2) && Below(b, next + 2)
    ensures NewNames(Rewriting([a, b] + rest.defs, [Var(next + 1)] + rest.names, rest.next), next)
  {
    BelowMonotone(a, next + 2, rest.next);
    BelowMonotone(b, next + 2, rest.next);
    var names := [Var(next + 1)] + rest.names;
    forall i, j | 0 <= i < j < |names| ensures names[i] != names[j] {
      assert names[j] == rest.names[j - 1] && names[j] in rest.names;
      if i > 0 { assert names[i] == rest.names[i - 1]; }
    }
  }

  lemma {:induction false} RelaxDefsNew(core: seq<Term>, prefix: Term, next: nat)
    requires AllBelow(core, next) && Below(prefix, next)
    ensures NewNames(RelaxDefs(core, prefix, next), next)
  {
    if |core| > 1 {
      AllBelowMonotone(core, next, next + 2);
      BelowMonotone(prefix, next, next + 2);
      var p, d := Var(next), Var(next + 1);
      RelaxDefsNew(core[1..], p, next + 2);
      assert Below(core[0], next + 2) && Below(core[1], next + 2);
      assert Below(And(core[0], prefix), next + 2) && Below(Or(p, core[1]), next + 2);
      NewNamesCons(RelaxDefs(core[1..], p, next + 2), next, Iff(p, And(core[0], prefix)), Iff(d, Or(p, core[1])));
    }
  }

  lemma {:induction false} RestrictDefsNew(cs: seq<Term>, prefix: Term, next: nat)
    requires AllBelow(cs, next) && Below(prefix, next)
    ensures NewNames(RestrictDefs(cs, prefix, next), next)
  {
    if |cs| > 1 {
      AllBelowMonotone(cs, next, next + 2);
      BelowMonotone(prefix, next, next + 2);
      var p, d := Var(next), Var(next + 1);
      RestrictDefsNew(cs[1..], p, next + 2);
      assert Below(cs[0], next + 2) && Below(cs[1], next + 2);
      assert Below(Or(cs[0], prefix), next + 2) && Below(And(p, cs[1]), next + 2);
      NewNamesCons(RestrictDefs(cs[1..], p, next + 2), next, Iff(p, Or(cs[0], prefix)), Iff(d, And(p, cs[1])));
    }
  }

  /** Two definitions over new names can always be met. */
  lemma DefinePair(m: Model, next: nat, x: Term, y: Term) returns (m': Model)
    requires Below(x, next) && Below(y, next + 1)
    ensures Agree(m, m', next) && Eval(Iff(Var(next), x), m') && Eval(Iff(Var(next + 1), y), m')
  {
    var m1 := iset v: nat | if v == next then Eval(x, m) else v in m;
    m' := iset v: nat | if v == next + 1 then Eval(y, m1) else v in m1;
    assert Agree(m1, m', next + 1);
    assert Agree(m, m', next);
    EvalAgree(x, m, m', next);
    EvalAgree(y, m1, m', next + 1);
  }

  /** The definitions exclude no model. */
  lemma {:induction false} RelaxDefsExtend(core: seq<Term>, prefix: Term, next: nat, m: Model) returns (m': Model)
    requires AllBelow(core, next) && Below(prefix, next)
    ensures Agree(m, m', next) && Holds(RelaxDefs(core, prefix, next).defs, m')
  {
    m' := m;
    if |core| > 1 {
      var p, d := Var(next), Var(next + 1);
      var x, y := And(core[0], prefix), Or(p, core[1]);
      assert Below(core[0], next) && Below(core[1], next);
      BelowMonotone(core[1], next, next + 1);
      var m1 := DefinePair(m, next, x, y);
      AllBelowMonotone(core, next, next + 2);
      m' := RelaxDefsExtend(core[1..], p, next + 2, m1);
      BelowMonotone(x, next, next + 2);
      BelowMonotone(y, next + 1, next + 2);
      EvalAgree(Iff(p, x), m1, m', next + 2);
      EvalAgree(Iff(d, y), m1, m', next + 2);
      HoldsPair(Iff(p, x), Iff(d, y), RelaxDefs(core[1..], p, next + 2).defs, m');
    }
  }

  lemma {:induction false} RestrictDefsExtend(cs: seq<Term>, prefix: Term, next: nat, m: Model) returns (m': Model)
    requires AllBelow(cs, next) && Below(prefix, next)
    ensures Agree(m, m', next) && Holds(RestrictDefs(cs, prefix, next).defs, m')
  {
    m' := m;
    if |cs| > 1 {
      var p, d := Var(next), Var(next + 1);
      var x, y := Or(cs[0], prefix), And(p, cs[1]);
      assert Below(cs[0], next) && Below(cs[1], next);
      BelowMonotone(cs[1], next, next + 1);
      var m1 := DefinePair(m, next, x, y);
      AllBelowMonotone(cs, next, next + 2);
      m' := RestrictDefsExtend(cs[1..], p, next + 2, m1);
      BelowMonotone(x, next, next + 2);
      BelowMonotone(y, next + 1, next + 2);
      EvalAgree(Iff(p, x), m1, m', next + 2);
      EvalAgree(Iff(d, y), m1, m', next + 2);
      HoldsPair(Iff(p, x), Iff(d, y), RestrictDefs(cs[1..], p, next + 2).defs, m');
    }
  }

  // ----- Theories -----

  /** The solver's assertions, the current soft formulas, the counter for names. */
  datatype Theory = Theory(asserted: seq<Term>, formulas: set<Term>, next: nat)

  ghost predicate Scoped(t: Theory) {
    AllBelow(t.asserted, t.next) && forall f | f in t.formulas :: Below(f, t.next)
  }

  function Rewrite(t: Theory, removed: seq<Term>, rw: Rewriting): Theory {
    Theory(t.asserted + rw.defs, t.formulas - Members(removed) + Members(rw.names), rw.next)
  }

  function RelaxCore(t: Theory, core: seq<Term>): Theory {
    if core == [] then t else Rewrite(t, core, RelaxDefs(core, True, t.next))
  }

  function RestrictCs(t: Theory, cs: seq<Term>): Theory {
    if cs == [] then t else Rewrite(t, cs, RestrictDefs(cs, False, t.next))
  }

  /** The list enumerates a set of current soft formulas. */
  ghost predicate Lists(t: Theory, removed: seq<Term>) {
    Distinct(removed) && Members(removed) <= t.formulas
  }

  lemma ListedBelow(t: Theory, removed: seq<Term>)
    requires Scoped(t) && Lists(t, removed)
    ensures AllBelow(removed, t.next)
  {
    forall f | f in removed ensures Below(f, t.next) { assert f in Members(removed); }
  }

  lemma RewriteScoped(t: Theory, removed: seq<Term>, rw: Rewriting)
    requires Scoped(t) && NewNames(rw, t.next)
    ensures Scoped(Rewrite(t, removed, rw)) && Members(rw.names) !! t.formulas
  {
    AllBelowMonotone(t.asserted, t.next, rw.next);
    forall f | f in t.formulas ensures Below(f, rw.next) && f !in Members(rw.names) {
      BelowMonotone(f, t.next, rw.next);
    }
  }

  /** Relaxing a core lowers the cost by exactly one for a model that falsifies it, else not at all. */
  lemma RelaxCoreCost(t: Theory, core: seq<Term>, m: Model)
    requires Scoped(t) && Lists(t, core) && Holds(RelaxCore(t, core).asserted, m)
    ensures Holds(t.asserted, m)
    ensures Falsified(RelaxCore(t, core).formulas, m) + (if CountFalse(core, m) > 0 then 1 else 0)
         == Falsified(t.formulas, m)
  {
    if core != [] {
      var rw := RelaxDefs(core, True, t.next);
      ListedBelow(t, core);
      RelaxDefsNew(core, True, t.next);
      RewriteScoped(t, core, rw);
      assert Holds(rw.defs, m);
      RelaxDefsCount(core, True, t.next, m);
      FalsifiedReplace(t.formulas, core, rw.names, m);
    }
  }

  /** Restricting a correction set leaves the cost of a model with a true member; a model with none
      would come out one cheaper. */
  lemma RestrictCsCost(t: Theory, cs: seq<Term>, m: Model)
    requires Scoped(t) && Lists(t, cs) && Holds(RestrictCs(t, cs).asserted, m)
    ensures Holds(t.asserted, m)
    ensures Falsified(RestrictCs(t, cs).formulas, m) + (if cs != [] && CountTrue(cs, m) == 0 then 1 else 0)
         == Falsified(t.formulas, m)
  {
    if cs != [] {
      var rw := RestrictDefs(cs, False, t.next);
      ListedBelow(t, cs);
      RestrictDefsNew(cs, False, t.next);
      RewriteScoped(t, cs, rw);
      assert Holds(rw.defs, m);
      RestrictDefsCount(cs, False, t.next, m);
      CountsAddUp(cs, m);
      CountsAddUp(rw.names, m);
      FalsifiedReplace(t.formulas, cs, rw.names, m);
    }
  }

  lemma RelaxCoreExtend(t: Theory, core: seq<Term>, m: Model) returns (m': Model)
    requires Scoped(t) && Lists(t, core) && Holds(t.asserted, m)
    ensures Agree(m, m', t.next) && Holds(RelaxCore(t, core).asserted, m')
  {
    m' := m;
    if core != [] {
      ListedBelow(t, core);
      m' := RelaxDefsExtend(core, True, t.next, m);
      HoldsAgree(t.asserted, m, m', t.next);
    }
  }

  lemma RelaxCoreScoped(t: Theory, core: seq<Term>)
    requires Scoped(t) && Lists(t, core)
    ensures Scoped(RelaxCore(t, core)) && RelaxCore(t, core).next >= t.next
  {
    if core != [] {
      ListedBelow(t, core);
      RelaxDefsNew(core, True, t.next);
      RewriteScoped(t, core, RelaxDefs(core, True, t.next));
    }
  }

  lemma RestrictCsScoped(t: Theory, cs: seq<Term>)
    requires Scoped(t) && Lists(t, cs)
    ensures Scoped(RestrictCs(t, cs)) && RestrictCs(t, cs).next >= t.next
  {
    if cs != [] {
      ListedBelow(t, cs);
      RestrictDefsNew(cs, False, t.next);
      RewriteScoped(t, cs, RestrictDefs(cs, False, t.next));
    }
  }

  // ----- Several disjoint sets -----

  ghost predicate DisjointLists(t: Theory, lists: seq<seq<Term>>) {
    && (forall i | 0 <= i < |lists| :: Lists(t, lists[i]))
    && (forall i, j | 0 <= i < j < |lists| :: Members(lists[i]) !! Members(lists[j]))
  }

  function RelaxAll(t: Theory, cores: seq<seq<Term>>): Theory
    decreases |cores|
  {
    if cores == [] then t else RelaxAll(RelaxCore(t, cores[0]), cores[1..])
  }

  function AnyOf(ts: seq<Term>): Term {
    if ts == [] then False else Or(ts[0], AnyOf(ts[1..]))
  }

  function RestrictOne(t: Theory, cs: seq<Term>): Theory {
    var r := RestrictCs(t, cs);
    r.(asserted := r.asserted + [AnyOf(cs)])
  }

  function RestrictAll(t: Theory, sets: seq<seq<Term>>): Theory
    decreases |sets|
  {
    if sets == [] then t else RestrictAll(RestrictOne(t, sets[0]), sets[1..])
  }

  lemma {:induction false} AnyOfMeaning(ts: seq<Term>, m: Model)
    ensures Eval(AnyOf(ts), m) <==> CountTrue(ts, m) > 0
  {
    if ts != [] { AnyOfMeaning(ts[1..], m); }
  }

  lemma {:induction false} AnyOfBelow(ts: seq<Term>, limit: nat)
    requires AllBelow(ts, limit)
    ensures Below(AnyOf(ts), limit)
  {
    if ts != [] {
      assert Below(ts[0], limit);
      AnyOfBelow(ts[1..], limit);
    }
  }

  /** A rewriting of one set leaves the sets disjoint from it in place. */
  lemma OthersStay(t: Theory, t': Theory, lists: seq<seq<Term>>)
    requires lists != [] && DisjointLists(t, lists)
    requires t.formulas - Members(lists[0]) <= t'.formulas
    ensures DisjointLists(t', lists[1..])
  {
    forall i | 0 <= i < |lists[1..]| ensures Lists(t', lists[1..][i]) {
      assert Members(lists[0]) !! Members(lists[i + 1]) && Lists(t, lists[i + 1]);
    }
  }

  /** Relaxing disjoint cores lowers the cost of every model that falsifies them by their number. */
  lemma {:induction false} RelaxAllCost(t: Theory, cores: seq<seq<Term>>, m: Model)
    requires Scoped(t) && DisjointLists(t, cores) && Holds(RelaxAll(t, cores).asserted, m)
    requires forall i | 0 <= i < |cores| :: CountFalse(cores[i], m) > 0
    ensures Holds(t.asserted, m)
    ensures Falsified(RelaxAll(t, cores).formulas, m) + |cores| == Falsified(t.formulas, m)
    decreases |cores|
  {
    if cores != [] {
      assert Lists(t, cores[0]) && CountFalse(cores[0], m) > 0;
      var t' := RelaxCore(t, cores[0]);
      RelaxCoreScoped(t, cores[0]);
      OthersStay(t, t', cores);
      RelaxAllCost(t', cores[1..], m);
      RelaxCoreCost(t, cores[0], m);
    }
  }

  lemma {:induction false} RelaxAllExtend(t: Theory, cores: seq<seq<Term>>, m: Model) returns (m': Model)
    requires Scoped(t) && DisjointLists(t, cores) && Holds(t.asserted, m)
    ensures Agree(m, m', t.next) && Holds(RelaxAll(t, cores).asserted, m')
    decreases |cores|
  {
    m' := m;
    if cores != [] {
      assert Lists(t, cores[0]);
      var t' := RelaxCore(t, cores[0]);
      RelaxCoreScoped(t, cores[0]);
      OthersStay(t, t', cores);
      var m1 := RelaxCoreExtend(t, cores[0], m);
      m' := RelaxAllExtend(t', cores[1..], m1);
    }
  }

  lemma RestrictOneProperty(t: Theory, cs: seq<Term>)
    requires Scoped(t) && Lists(t, cs)
    ensures Scoped(RestrictOne(t, cs)) && t.formulas - Members(cs) <= RestrictOne(t, cs).formulas
    ensures forall m | Holds(RestrictOne(t, cs).asserted, m) ::
      && Holds(t.asserted, m) && CountTrue(cs, m) > 0
      && Falsified(RestrictOne(t, cs).formulas, m) == Falsified(t.formulas, m)
  {
    var r := RestrictCs(t, cs);
    RestrictCsScoped(t, cs);
    ListedBelow(t, cs);
    AllBelowMonotone(cs, t.next, r.next);
    AnyOfBelow(cs, r.next);
    forall m | Holds(RestrictOne(t, cs).asserted, m)
      ensures Holds(t.asserted, m) && CountTrue(cs, m) > 0 && Falsified(r.formulas, m) == Falsified(t.formulas, m)
    {
      assert Eval(AnyOf(cs), m) && Holds(r.asserted, m);
      AnyOfMeaning(cs, m);
      RestrictCsCost(t, cs, m);
    }
  }

  /** Restricting correction sets keeps the cost of every model that is left, and each of those
      satisfies a member of every set. */
  lemma {:induction false} RestrictAllCost(t: Theory, sets: seq<seq<Term>>, m: Model)
    requires Scoped(t) && DisjointLists(t, sets) && Holds(RestrictAll(t, sets).asserted, m)
    ensures Holds(t.asserted, m)
    ensures Falsified(RestrictAll(t, sets).formulas, m) == Falsified(t.formulas, m)
    ensures forall i | 0 <= i < |sets| :: CountTrue(sets[i], m) > 0
    decreases |sets|
  {
    if sets != [] {
      assert Lists(t, sets[0]);
      var t' := RestrictOne(t, sets[0]);
      RestrictOneProperty(t, sets[0]);
      OthersStay(t, t', sets);
      RestrictAllCost(t', sets[1..], m);
      assert forall i | 0 < i < |sets| :: sets[i] == sets[1..][i - 1];
    }
  }

  /** Conversely, every model that satisfies a member of each correction set is left. */
  lemma {:induction false} RestrictAllExtend(t: Theory, sets: seq<seq<Term>>, m: Model) returns (m': Model)
    requires Scoped(t) && DisjointLists(t, sets) && Holds(t.asserted, m)
    requires forall i | 0 <= i < |sets| :: CountTrue(sets[i], m) > 0
    ensures Agree(m, m', t.next) && Holds(RestrictAll(t, sets).asserted, m')
    decreases |sets|
  {
    m' := m;
    if sets != [] {
      assert Lists(t, sets[0]);
      var t' := RestrictOne(t, sets[0]);
      ListedBelow(t, sets[0]);
      var m1 := RestrictDefsExtend(sets[0], False, t.next, m);
      HoldsAgree(t.asserted, m, m1, t.next);
      assert Holds(RestrictCs(t, sets[0]).asserted, m1);
      RestrictOneProperty(t, sets[0]);
      RestrictCsScoped(t, sets[0]);
      OthersStay(t, t', sets);
      forall i | 0 <= i < |sets| ensures CountTrue(sets[i], m1) > 0 {
        ListedBelow(t, sets[i]);
        CountFalseAgree(sets[i], m, m1, t.next);
        CountsAddUp(sets[i], m);
        CountsAddUp(sets[i], m1);
      }
      AnyOfMeaning(sets[0], m1);
      assert Holds(t'.asserted, m1);
      m' := RestrictAllExtend(t', sets[1..], m1);
    }
  }

  lemma {:induction false} RelaxAllScoped(t: Theory, cores: seq<seq<Term>>)
    requires Scoped(t) && DisjointLists(t, cores)
    ensures Scoped(RelaxAll(t, cores))
    decreases |cores|
  {
    if cores != [] {
      assert Lists(t, cores[0]);
      RelaxCoreScoped(t, cores[0]);
      OthersStay(t, RelaxCore(t, cores[0]), cores);
      RelaxAllScoped(RelaxCore(t, cores[0]), cores[1..]);
    }
  }

  lemma {:induction false} RestrictAllScoped(t: Theory, sets: seq<seq<Term>>)
    requires Scoped(t) && DisjointLists(t, sets)
    ensures Scoped(RestrictAll(t, sets))
    decreases |sets|
  {
    if sets != [] {
      assert Lists(t, sets[0]);
      RestrictOneProperty(t, sets[0]);
      OthersStay(t, RestrictOne(t, sets[0]), sets);
      RestrictAllScoped(RestrictOne(t, sets[0]), sets[1..]);
    }
  }

  // ----- The optimum -----

  /** `c` is the least number of soft formulas that a model of the assertions falsifies. */
  ghost predicate LeastCost(t: Theory, c: int) {
    && (exists m :: Holds(t.asserted, m) && Falsified(t.formulas, m) == c)
    && (forall m | Holds(t.asserted, m) :: Falsified(t.formulas, m) >= c)
  }

  ghost predicate RealCores(t: Theory, cores: seq<seq<Term>>) {
    forall m, i | 0 <= i < |cores| && Holds(t.asserted, m) :: CountFalse(cores[i], m) > 0
  }

  lemma FalsifiedAgree(t: Theory, m: Model, m': Model)
    requires Scoped(t) && Agree(m, m', t.next)
    ensures Falsified(t.formulas, m) == Falsified(t.formulas, m')
  {
    forall f | f in t.formulas ensures Eval(f, m) == Eval(f, m') { EvalAgree(f, m, m', t.next); }
    assert FalseOnes(t.formulas, m) == FalseOnes(t.formulas, m');
  }

  lemma {:induction false} RelaxAllKeepsAssertions(t: Theory, cores: seq<seq<Term>>, m: Model)
    requires Holds(RelaxAll(t, cores).asserted, m)
    ensures Holds(t.asserted, m)
    decreases |cores|
  {
    if cores != [] { RelaxAllKeepsAssertions(RelaxCore(t, cores[0]), cores[1..], m); }
  }

  /** MaxRes preserves the problem: relaxing real cores moves their number from the least cost to
      the offset, neither more nor less. */
  lemma RelaxAllOptimum(t: Theory, cores: seq<seq<Term>>, c: int)
    requires Scoped(t) && DisjointLists(t, cores) && RealCores(t, cores)
    ensures LeastCost(t, c) <==> LeastCost(RelaxAll(t, cores), c - |cores|)
  {
    var t' := RelaxAll(t, cores);
    forall m' | Holds(t'.asserted, m')
      ensures Holds(t.asserted, m') && Falsified(t'.formulas, m') + |cores| == Falsified(t.formulas, m')
    {
      RelaxAllKeepsAssertions(t, cores, m');
      RelaxAllCost(t, cores, m');
    }
    forall m | Holds(t.asserted, m)
      ensures exists m' :: Holds(t'.asserted, m') && Falsified(t'.formulas, m') + |cores| == Falsified(t.formulas, m)
    {
      var m' := RelaxAllExtend(t, cores, m);
      FalsifiedAgree(t, m, m');
    }
  }

  /** A model that makes no member of a listed set true falsifies all of them. */
  lemma AllFalseCosts(t: Theory, listed: seq<Term>, m: Model)
    requires Lists(t, listed) && CountTrue(listed, m) == 0
    ensures Falsified(t.formulas, m) >= |listed|
  {
    CountsAddUp(listed, m);
    FalsifiedListing(listed, m);
    var falseOnes, all := FalseOnes(Members(listed), m), FalseOnes(t.formulas, m);
    assert all == falseOnes + (all - falseOnes);
    UnionSize(falseOnes, all - falseOnes);
  }

  /** The dual: restriction keeps a least cost below the size of every set, and invents none.  The
      models it excludes falsify all of some set, so they cost at least that set's size. */
  lemma RestrictAllOptimum(t: Theory, sets: seq<seq<Term>>, c: int)
    requires Scoped(t) && DisjointLists(t, sets)
    requires forall i | 0 <= i < |sets| :: c < |sets[i]|
    ensures LeastCost(t, c) <==> LeastCost(RestrictAll(t, sets), c)
  {
    var t' := RestrictAll(t, sets);
    forall m' | Holds(t'.asserted, m')
      ensures Holds(t.asserted, m') && Falsified(t'.formulas, m') == Falsified(t.formulas, m')
    {
      RestrictAllCost(t, sets, m');
    }
    forall m | Holds(t.asserted, m)
      ensures Falsified(t.formulas, m) > c ||
        exists m' :: Holds(t'.asserted, m') && Falsified(t'.formulas, m') == Falsified(t.formulas, m)
    {
      if i :| 0 <= i < |sets| && CountTrue(sets[i], m) == 0 {
        AllFalseCosts(t, sets[i], m);
      } else {
        var m' := RestrictAllExtend(t, sets, m);
        FalsifiedAgree(t, m, m');
      }
    }
  }
}
