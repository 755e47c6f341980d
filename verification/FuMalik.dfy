/** The Fu & Malik procedure: soft constraints of an unsat core get blocking variables, at most
    one of which may be true, until the remaining assumptions are satisfiable. */
module FuMalik {
  import opened Terms
  import opened Solvers
  import opened Circuits
  import opened MaxSat

  // ----- One round as a transformation -----

  /** What a round rewrites: the assertions, the soft constraints with their auxiliary variables,
      and the blocking variables of the round. */
  datatype Relaxation = Relaxation(asserted: seq<Term>, soft: seq<Term>, aux: seq<Term>,
                                   blocks: seq<Term>, next: nat)

  ghost predicate Scoped(r: Relaxation) {
    && |r.soft| == |r.aux| && Distinct(r.aux)
    && AllBelow(r.asserted, r.next) && AllBelow(r.soft, r.next)
    && AllBelow(r.aux, r.next) && AllBelow(r.blocks, r.next)
  }

  /** Constraint i gets a blocking variable and a new auxiliary variable. */
  function Block(r: Relaxation, i: nat): (r': Relaxation)
    requires i < |r.soft| == |r.aux|
    ensures |r'.soft| == |r'.aux| == |r.soft|
  {
    var t := Or(r.soft[i], Var(r.next));
    Relaxation(r.asserted + [Or(t, Var(r.next + 1))], r.soft[i := t], r.aux[i := Var(r.next + 1)],
               r.blocks + [Var(r.next)], r.next + 2)
  }

  /** The first `n` constraints processed: those whose assumption is in the core are blocked. */
  function BlockCore(r: Relaxation, core: seq<Term>, n: nat): (r': Relaxation)
    requires n <= |r.soft| == |r.aux|
    ensures |r'.soft| == |r'.aux| == |r.soft|
    ensures forall j | n <= j < |r.soft| :: r'.soft[j] == r.soft[j] && r'.aux[j] == r.aux[j]
  {
    if n == 0 then r
    else
      var p := BlockCore(r, core, n - 1);
      if Not(r.aux[n - 1]) in core then Block(p, n - 1) else p
  }

  /** A model in which each auxiliary variable says exactly that its constraint is violated. */
  ghost predicate Follows(r: Relaxation, m: Model)
    requires |r.soft| == |r.aux|
  {
    && Holds(r.asserted, m)
    && (forall j | 0 <= j < |r.soft| :: Eval(r.soft[j], m) != Eval(r.aux[j], m))
  }

  lemma CountTrueSnoc(ts: seq<Term>, t: Term, m: Model)
    ensures CountTrue(ts + [t], m) == CountTrue(ts, m) + (if Eval(t, m) then 1 else 0)
  {
    CountFalseConcat(ts, [t], m);
    CountsAddUp(ts, m);
    CountsAddUp(ts + [t], m);
  }

  lemma CountTrueAgree(ts: seq<Term>, m: Model, m': Model, limit: nat)
    requires AllBelow(ts, limit) && Agree(m, m', limit)
    ensures CountTrue(ts, m) == CountTrue(ts, m')
  {
    CountFalseAgree(ts, m, m', limit);
    CountsAddUp(ts, m);
    CountsAddUp(ts, m');
  }

  lemma AllBelowUpdate(ts: seq<Term>, i: nat, t: Term, limit: nat)
    requires i < |ts| && AllBelow(ts, limit) && Below(t, limit)
    ensures AllBelow(ts[i := t], limit)
  {
    forall u | u in ts[i := t] ensures Below(u, limit) {
      var j :| 0 <= j < |ts| && ts[i := t][j] == u;
      assert j != i ==> ts[j] in ts;
    }
  }

  lemma BlockScoped(r: Relaxation, i: nat)
    requires Scoped(r) && i < |r.soft|
    ensures Scoped(Block(r, i))
  {
    var r' := Block(r, i);
    AllBelowMonotone(r.asserted, r.next, r'.next);
    AllBelowMonotone(r.soft, r.next, r'.next);
    AllBelowMonotone(r.aux, r.next, r'.next);
    AllBelowMonotone(r.blocks, r.next, r'.next);
    assert Below(r.soft[i], r'.next);
    AllBelowUpdate(r.soft, i, r'.soft[i], r'.next);
    AllBelowUpdate(r.aux, i, r'.aux[i], r'.next);
    assert Below(Or(r'.soft[i], Var(r.next + 1)), r'.next);
    forall j | 0 <= j < |r.aux| ensures r.aux[j] != Var(r.next + 1) { assert Below(r.aux[j], r.next); }
  }

  /** Soundness of one replacement: what a blocking variable excuses is counted. */
  lemma BlockCounts(r: Relaxation, i: nat, m: Model)
    requires i < |r.soft| == |r.aux| && Holds(Block(r, i).asserted, m)
    ensures Holds(r.asserted, m)
    ensures CountFalse(r.soft, m) + CountTrue(r.blocks, m)
         <= CountFalse(Block(r, i).soft, m) + CountTrue(Block(r, i).blocks, m)
    ensures Holds(Relaxed(r.soft, r.aux), m) ==> Holds(Relaxed(Block(r, i).soft, Block(r, i).aux), m)
  {
    var r' := Block(r, i);
    CountFalseUpdate(r.soft, i, r'.soft[i], m);
    CountTrueSnoc(r.blocks, Var(r.next), m);
    HoldsRelaxed(r.soft, r.aux, m);
    HoldsRelaxed(r'.soft, r'.aux, m);
    assert Eval(Or(r'.soft[i], Var(r.next + 1)), m);
  }

  /** Extends a model over the two new variables: the blocking variable as chosen, the auxiliary
      variable by its meaning. */
  ghost function ExtendBlock(r: Relaxation, i: nat, m: Model, block: bool): Model
    requires i < |r.soft|
  {
    iset v: nat |
      if v < r.next then v in m
      else if v == r.next then block
      else v == r.next + 1 && !block && !Eval(r.soft[i], m)
  }

  lemma BlockExtends(r: Relaxation, i: nat, m: Model, block: bool)
    requires Scoped(r) && i < |r.soft| && Follows(r, m)
    ensures
      var m', r' := ExtendBlock(r, i, m, block), Block(r, i);
      && Agree(m, m', r.next) && Follows(r', m')
      && CountTrue(r'.blocks, m') == CountTrue(r.blocks, m) + (if block then 1 else 0)
      && CountFalse(r'.soft, m') == CountFalse(r.soft, m) - (if block && !Eval(r.soft[i], m) then 1 else 0)
  {
    var m', r' := ExtendBlock(r, i, m, block), Block(r, i);
    HoldsAgree(r.asserted, m, m', r.next);
    CountFalseAgree(r.soft, m, m', r.next);
    CountTrueAgree(r.blocks, m, m', r.next);
    CountTrueSnoc(r.blocks, Var(r.next), m');
    CountFalseUpdate(r.soft, i, r'.soft[i], m');
    EvalAgree(r.soft[i], m, m', r.next);
    assert Eval(r'.soft[i], m') == (Eval(r.soft[i], m') || block);
    forall j | 0 <= j < |r'.soft| ensures Eval(r'.soft[j], m') != Eval(r'.aux[j], m') {
      if j != i {
        EvalAgree(r.soft[j], m, m', r.next);
        EvalAgree(r.aux[j], m, m', r.next);
      }
    }
  }

  lemma {:induction false} BlockCoreScoped(r: Relaxation, core: seq<Term>, n: nat)
    requires Scoped(r) && n <= |r.soft|
    ensures Scoped(BlockCore(r, core, n)) && BlockCore(r, core, n).next >= r.next
    ensures |BlockCore(r, core, n).blocks| <= |r.blocks| + n
  {
    if n > 0 {
      BlockCoreScoped(r, core, n - 1);
      BlockScoped(BlockCore(r, core, n - 1), n - 1);
    }
  }

  lemma {:induction false} BlockCoreCounts(r: Relaxation, core: seq<Term>, n: nat, m: Model)
    requires n <= |r.soft| == |r.aux| && Holds(BlockCore(r, core, n).asserted, m)
    requires Holds(r.asserted, m) ==> Holds(Relaxed(r.soft, r.aux), m)
    ensures Holds(r.asserted, m)
    ensures CountFalse(r.soft, m) + CountTrue(r.blocks, m)
         <= CountFalse(BlockCore(r, core, n).soft, m) + CountTrue(BlockCore(r, core, n).blocks, m)
    ensures Holds(Relaxed(BlockCore(r, core, n).soft, BlockCore(r, core, n).aux), m)
  {
    if n > 0 {
      var p := BlockCore(r, core, n - 1);
      if Not(r.aux[n - 1]) in core { BlockCounts(p, n - 1, m); }
      BlockCoreCounts(r, core, n - 1, m);
    }
  }

  /** `m'` extends `m` to the relaxation, with `excused` violations fewer and as many true blocks. */
  ghost predicate Excuses(r: Relaxation, r': Relaxation, m: Model, m': Model, excused: nat)
    requires |r'.soft| == |r'.aux|
  {
    && Agree(m, m', r.next) && Follows(r', m')
    && CountTrue(r'.blocks, m') == CountTrue(r.blocks, m) + excused
    && CountFalse(r'.soft, m') + excused == CountFalse(r.soft, m)
  }

  /** Processing constraint i, which the core names if `hit`, excuses it if it is constraint `w`. */
  lemma ExcuseStep(r: Relaxation, p: Relaxation, i: nat, hit: bool, m: Model, m': Model, w: nat)
    returns (m'': Model)
    requires Scoped(r) && Scoped(p) && r.next <= p.next && i < |p.soft| == |r.soft| && p.soft[i] == r.soft[i]
    requires Excuses(r, p, m, m', if w < i then 1 else 0)
    requires w == i ==> hit && !Eval(r.soft[i], m)
    ensures Excuses(r, if hit then Block(p, i) else p, m, m'', if w < i + 1 then 1 else 0)
  {
    m'' := m';
    if hit {
      assert Below(r.soft[i], r.next);
      EvalAgree(r.soft[i], m, m', r.next);
      BlockExtends(p, i, m', w == i);
      m'' := ExtendBlock(p, i, m', w == i);
    }
  }

  /** Constraint `w` is violated and named by the core. */
  ghost predicate Named(r: Relaxation, core: seq<Term>, m: Model, w: nat) {
    w < |r.soft| == |r.aux| && !Eval(r.soft[w], m) && Not(r.aux[w]) in core
  }

  lemma {:induction false} BlockingExtends(r: Relaxation, core: seq<Term>, n: nat, m: Model, w: nat)
    returns (p: Relaxation, m': Model)
    requires Scoped(r) && n <= |r.soft| && Follows(r, m) && Named(r, core, m, w)
    ensures p == BlockCore(r, core, n) && Scoped(p) && r.next <= p.next
    ensures Excuses(r, p, m, m', if w < n then 1 else 0)
  {
    p, m' := r, m;
    if n > 0 {
      var i, hit := n - 1, Not(r.aux[n - 1]) in core;
      p, m' := BlockingExtends(r, core, i, m, w);
      assert p.soft[i] == r.soft[i];
      m' := ExcuseStep(r, p, i, hit, m, m', w);
      if hit {
        BlockScoped(p, i);
        p := Block(p, i);
      }
    }
  }

  /** Any model that violates constraint `w` of the core extends to the blocked constraints with
      exactly that constraint excused. */
  lemma BlockCoreExtends(r: Relaxation, core: seq<Term>, n: nat, m: Model, w: nat) returns (m': Model)
    requires Scoped(r) && n <= |r.soft| && Follows(r, m) && Named(r, core, m, w)
    ensures Excuses(r, BlockCore(r, core, n), m, m', if w < n then 1 else 0)
  {
    var p, extended := BlockingExtends(r, core, n, m, w);
    m' := extended;
  }

  // ----- The invariant of the rounds -----

  /** After k rounds: whoever satisfies the assertions violates at most k of the original
      constraints more than of the current ones, and every model of the hard constraints extends
      to one that violates exactly k fewer. */
  ghost predicate RoundInvariant(hard: seq<Term>, orig: seq<Term>, base: nat, r: Relaxation, k: nat) {
    && Scoped(r) && |orig| == |r.soft| && base <= r.next
    && (forall m {:trigger Accounted(hard, orig, r, k, m)} | Holds(r.asserted, m) :: Accounted(hard, orig, r, k, m))
    && (forall m {:trigger Extendable(orig, base, r, k, m)} | Holds(hard, m) :: Extendable(orig, base, r, k, m))
  }

  ghost predicate Accounted(hard: seq<Term>, orig: seq<Term>, r: Relaxation, k: nat, m: Model)
    requires |r.soft| == |r.aux|
  {
    Holds(hard, m) && Holds(Relaxed(r.soft, r.aux), m) && CountFalse(orig, m) <= CountFalse(r.soft, m) + k
  }

  ghost predicate Extendable(orig: seq<Term>, base: nat, r: Relaxation, k: nat, m: Model)
    requires |r.soft| == |r.aux|
  {
    exists m' :: Extension(orig, base, r, k, m, m')
  }

  ghost predicate Extension(orig: seq<Term>, base: nat, r: Relaxation, k: nat, m: Model, m': Model)
    requires |r.soft| == |r.aux|
  {
    Agree(m, m', base) && Follows(r, m') && CountFalse(r.soft, m') + k == CountFalse(orig, m)
  }

  lemma RoundStart(hard: seq<Term>, orig: seq<Term>, base: nat)
    requires AllBelow(hard, base) && AllBelow(orig, base)
    ensures
      var aux := FreshVars(base, |orig|);
      RoundInvariant(hard, orig, base,
        Relaxation(hard + Relaxed(orig, aux), orig, aux, [], base + |orig|), 0)
  {
    var aux, next := FreshVars(base, |orig|), base + |orig|;
    var relaxed := Relaxed(orig, aux);
    var r := Relaxation(hard + relaxed, orig, aux, [], next);
    AllBelowMonotone(hard, base, next);
    AllBelowMonotone(orig, base, next);
    forall t | t in relaxed ensures Below(t, next) {
      var i :| 0 <= i < |orig| && t == relaxed[i];
      assert Below(orig[i], next);
    }
    forall m | Holds(r.asserted, m) ensures Accounted(hard, orig, r, 0, m) {}
    forall m | Holds(hard, m) ensures Extendable(orig, base, r, 0, m) {
      SwitchOffProperty(m, hard, orig, base);
      var m' := SwitchOff(m, orig, base);
      HoldsRelaxed(orig, aux, m');
      assert Extension(orig, base, r, 0, m, m');
    }
  }

  /** The relaxation a round leaves behind. */
  function NextRound(r: Relaxation, core: seq<Term>): Relaxation
    requires |r.soft| == |r.aux|
  {
    var b := BlockCore(r.(blocks := []), core, |r.soft|);
    b.(asserted := b.asserted + AtMostAssertions(b.blocks, 1), blocks := [])
  }

  ghost predicate IsCore(r: Relaxation, core: seq<Term>) {
    Correct(r.asserted, seq(|r.aux|, i requires 0 <= i < |r.aux| => Not(r.aux[i])), Unsat(core))
  }

  /** A core names a violated constraint of every model that follows the relaxation. */
  lemma CoreHasViolation(r: Relaxation, core: seq<Term>, m: Model) returns (w: nat)
    requires |r.soft| == |r.aux| && Follows(r, m) && IsCore(r, core)
    ensures w < |r.soft| && !Eval(r.soft[w], m) && Not(r.aux[w]) in core
  {
    assert !Holds(core, m);
    var c :| c in core && !Eval(c, m);
    var assumptions := seq(|r.aux|, i requires 0 <= i < |r.aux| => Not(r.aux[i]));
    assert c in assumptions;
    w :| 0 <= w < |r.aux| && assumptions[w] == c;
  }

  lemma NextRoundCounts(r: Relaxation, core: seq<Term>, m: Model)
    requires Scoped(r) && |r.soft| <= MAX_COUNTED
    requires Holds(r.asserted, m) ==> Holds(Relaxed(r.soft, r.aux), m)
    requires Holds(NextRound(r, core).asserted, m)
    ensures Holds(r.asserted, m)
    ensures CountFalse(r.soft, m) <= CountFalse(NextRound(r, core).soft, m) + 1
    ensures Holds(Relaxed(NextRound(r, core).soft, NextRound(r, core).aux), m)
  {
    var r0 := r.(blocks := []);
    var b := BlockCore(r0, core, |r.soft|);
    assert Holds(b.asserted, m) && Holds(AtMostAssertions(b.blocks, 1), m);
    BlockCoreCounts(r0, core, |r.soft|, m);
    BlockCoreScoped(r0, core, |r.soft|);
    AtMostMeaning(b.blocks, 1, m);
  }

  lemma NextRoundExtends(r: Relaxation, core: seq<Term>, m: Model) returns (m': Model)
    requires Scoped(r) && |r.soft| <= MAX_COUNTED && Follows(r, m) && IsCore(r, core)
    ensures
      var r' := NextRound(r, core);
      Agree(m, m', r.next) && |r'.soft| == |r'.aux| && Follows(r', m')
      && CountFalse(r'.soft, m') + 1 == CountFalse(r.soft, m)
  {
    var r0 := r.(blocks := []);
    var w := CoreHasViolation(r, core, m);
    m' := BlockCoreExtends(r0, core, |r.soft|, m, w);
    var b := BlockCore(r0, core, |r.soft|);
    BlockCoreScoped(r0, core, |r.soft|);
    AtMostMeaning(b.blocks, 1, m');
  }

  /** The at-most-one formula uses no new constants. */
  lemma NextRoundScoped(r: Relaxation, core: seq<Term>)
    requires Scoped(r)
    ensures Scoped(NextRound(r, core)) && NextRound(r, core).next >= r.next
    ensures |NextRound(r, core).soft| == |r.soft|
  {
    BlockCoreScoped(r.(blocks := []), core, |r.soft|);
    var b := BlockCore(r.(blocks := []), core, |r.soft|);
    AtMostScoped(b.blocks, 1, b.next);
  }

  lemma AtMostScoped(lits: seq<Term>, k: nat, limit: nat)
    requires AllBelow(lits, limit)
    ensures AllBelow(AtMostAssertions(lits, k), limit)
  {
    if k < |lits| && |lits| > 1 {
      CounterScoped(1, |lits|, lits, limit);
      LeScoped(CounterBits(1, |lits|, lits), k, limit);
    }
  }

  lemma {:induction false} SumScoped(xs: seq<Term>, ys: seq<Term>, cin: Term, limit: nat)
    requires |xs| == |ys| && AllBelow(xs, limit) && AllBelow(ys, limit) && Below(cin, limit)
    ensures AllBelow(Sum(xs, ys, cin), limit)
  {
    if xs != [] {
      assert Below(xs[0], limit) && Below(ys[0], limit);
      SumScoped(xs[1..], ys[1..], CarryBit(xs[0], ys[0], cin), limit);
    }
  }

  lemma {:induction false} PairSumsScoped(width: nat, packed: seq<Term>, limit: nat)
    requires width > 0 && AllBelow(packed, limit)
    ensures AllBelow(PairSums(width, packed), limit)
    decreases |packed|
  {
    if |packed| >= 2 * width {
      SumScoped(packed[..width], packed[width..2 * width], False, limit);
      PairSumsScoped(width, packed[2 * width..], limit);
    }
  }

  lemma {:induction false} CounterScoped(width: nat, numIns: nat, packed: seq<Term>, limit: nat)
    requires 0 < width <= |packed| && AllBelow(packed, limit)
    ensures AllBelow(CounterBits(width, numIns, packed), limit)
    decreases numIns
  {
    if numIns > 1 {
      PairSumsScoped(width, packed, limit);
      CounterScoped(width + 1, (numIns + 1) / 2, PairSums(width, packed), limit);
    }
  }

  lemma {:induction false} LeScoped(val: seq<Term>, k: nat, limit: nat)
    requires |val| > 0 && AllBelow(val, limit)
    ensures Below(LeFormula(val, k), limit)
  {
    assert Below(val[|val| - 1], limit);
    if |val| > 1 { LeScoped(val[..|val| - 1], k, limit); }
  }

  /** A round keeps the invariant and raises the lower bound by one. */
  lemma RoundStep(hard: seq<Term>, orig: seq<Term>, base: nat, r: Relaxation, k: nat, core: seq<Term>)
    requires RoundInvariant(hard, orig, base, r, k) && |orig| <= MAX_COUNTED && IsCore(r, core)
    ensures RoundInvariant(hard, orig, base, NextRound(r, core), k + 1)
  {
    var r' := NextRound(r, core);
    NextRoundScoped(r, core);
    forall m | Holds(r'.asserted, m) ensures Accounted(hard, orig, r', k + 1, m) {
      assert Holds(r.asserted, m) ==> Accounted(hard, orig, r, k, m);
      NextRoundCounts(r, core, m);
    }
    forall m0 | Holds(hard, m0) ensures Extendable(orig, base, r', k + 1, m0) {
      assert Extendable(orig, base, r, k, m0);
      var m :| Extension(orig, base, r, k, m0, m);
      var m' := NextRoundExtends(r, core, m);
      assert Extension(orig, base, r', k + 1, m0, m');
    }
  }

  /** No model of the hard constraints violates fewer than k of the original ones. */
  lemma RoundLowerBound(hard: seq<Term>, orig: seq<Term>, base: nat, r: Relaxation, k: nat, m: Model)
    requires RoundInvariant(hard, orig, base, r, k) && Holds(hard, m)
    ensures k <= CountFalse(orig, m) <= |orig|
  {
    assert Extendable(orig, base, r, k, m);
    var m' :| Extension(orig, base, r, k, m, m');
    CountsAddUp(orig, m);
  }

  /** When all assumptions hold, k is also an upper bound. */
  lemma RoundDone(hard: seq<Term>, orig: seq<Term>, base: nat, r: Relaxation, k: nat, m: Model)
    requires RoundInvariant(hard, orig, base, r, k) && Holds(r.asserted, m)
    requires forall j | 0 <= j < |r.aux| :: !Eval(r.aux[j], m)
    ensures IsOptimum(hard, orig, |orig| - k)
  {
    assert Accounted(hard, orig, r, k, m);
    HoldsRelaxed(r.soft, r.aux, m);
    forall t | t in r.soft ensures Eval(t, m) {
      var j :| 0 <= j < |r.soft| && t == r.soft[j];
      assert !Eval(r.aux[j], m);
    }
    CountFalseZero(r.soft, m);
    forall m0 | Holds(hard, m0) ensures CountFalse(orig, m0) >= k { RoundLowerBound(hard, orig, base, r, k, m0); }
    OptimumFromViolations(hard, orig, k, m);
  }

  // ----- The procedure -----

  lemma {:induction false} CoreMembers(core: seq<Term>)
    ensures |set c | c in core| <= |core|
  {
    if core != [] {
      CoreMembers(core[1..]);
      assert (set c | c in core) == {core[0]} + (set c | c in core[1..]);
    }
  }

  ghost function Blocked(r: Relaxation, core: seq<Term>, n: nat): set<Term>
    requires n <= |r.aux|
  {
    set i | 0 <= i < n && Not(r.aux[i]) in core :: Not(r.aux[i])
  }

  lemma BlockedSnoc(r: Relaxation, core: seq<Term>, n: nat)
    requires n < |r.aux| && Distinct(r.aux)
    ensures |Blocked(r, core, n + 1)| == |Blocked(r, core, n)| + (if Not(r.aux[n]) in core then 1 else 0)
  {
    var t := Not(r.aux[n]);
    if t in core {
      assert Blocked(r, core, n + 1) == Blocked(r, core, n) + {t};
      assert t !in Blocked(r, core, n);
    } else {
      assert Blocked(r, core, n + 1) == Blocked(r, core, n);
    }
  }

  lemma {:induction false} BlockedCount(r: Relaxation, core: seq<Term>, n: nat)
    requires n <= |r.soft| == |r.aux| && Distinct(r.aux)
    ensures |BlockCore(r, core, n).blocks| == |r.blocks| + |Blocked(r, core, n)|
  {
    if n > 0 {
      BlockedCount(r, core, n - 1);
      BlockedSnoc(r, core, n - 1);
    } else {
      assert Blocked(r, core, 0) == {};
    }
  }

  /** A core-sized array has room for the blocking variables. */
  lemma BlocksFit(r: Relaxation, core: seq<Term>, n: nat)
    requires n <= |r.soft| == |r.aux| && Distinct(r.aux) && r.blocks == []
    ensures |BlockCore(r, core, n).blocks| <= |core|
  {
    BlockedCount(r, core, n);
    CoreMembers(core);
    SubsetSize(Blocked(r, core, n), set c | c in core);
  }

  lemma {:induction false} SubsetSize(a: set<Term>, b: set<Term>)
    requires a <= b
    ensures |a| <= |b|
  {
    if a != {} {
      var x :| x in a;
      SubsetSize(a - {x}, b - {x});
    }
  }

  ghost function View(ctx: Context, s: Solver, soft: array<Term>, aux: array<Term>): Relaxation
    reads ctx, s, soft, aux
  {
    Relaxation(s.asserted, soft[..], aux[..], [], ctx.next)
  }

  method NegateAll(aux: array<Term>) returns (assumptions: array<Term>)
    ensures fresh(assumptions) && assumptions.Length == aux.Length
    ensures forall j | 0 <= j < aux.Length :: assumptions[j] == Not(aux[j])
  {
    assumptions := new Term[aux.Length](_ => False);
    for i := 0 to aux.Length
      invariant forall j | 0 <= j < i :: assumptions[j] == Not(aux[j])
    {
      assumptions[i] := Not(aux[i]);
    }
  }

  method InCore(t: Term, core: seq<Term>) returns (found: bool)
    ensures found <==> t in core
  {
    var j := 0;
    while j < |core|
      invariant 0 <= j <= |core|
      invariant t !in core[..j]
    {
      if t == core[j] { break; }
      assert core[..j + 1] == core[..j] + [core[j]];
      j := j + 1;
    }
    assert core[..|core|] == core;
    return j < |core|;
  }

  /** Blocks the constraint at `i` in place and asserts the relaxed constraint. */
  method BlockConstraint(ctx: Context, s: Solver, soft: array<Term>, aux: array<Term>, i: nat,
                         blockVars: array<Term>, k: nat)
    requires i < soft.Length == aux.Length && k < blockVars.Length
    requires soft != aux && soft != blockVars && aux != blockVars
    modifies ctx, s, soft, aux, blockVars
    ensures
      var p := Relaxation(old(s.asserted), old(soft[..]), old(aux[..]), old(blockVars[..k]), old(ctx.next));
      Block(p, i) == Relaxation(s.asserted, soft[..], aux[..], blockVars[..k + 1], ctx.next)
  {
    var blockVar := ctx.MkFreshBoolVar();
    var newAuxVar := ctx.MkFreshBoolVar();
    soft[i] := Or(soft[i], blockVar);
    aux[i] := newAuxVar;
    blockVars[k] := blockVar;
    s.Assert(Or(soft[i], newAuxVar));
    assert blockVars[..k + 1] == old(blockVars[..k]) + [blockVar];
  }

  /** Replaces the constraints of the core in place. */
  method UpdateSoft(ctx: Context, s: Solver, soft: array<Term>, aux: array<Term>,
                    assumptions: array<Term>, core: seq<Term>, ghost r: Relaxation)
    returns (blockVars: array<Term>, k: nat)
    requires soft.Length == aux.Length == assumptions.Length
    requires soft != aux && soft != assumptions && aux != assumptions
    requires r == View(ctx, s, soft, aux) && Distinct(r.aux)
    requires forall j | 0 <= j < aux.Length :: assumptions[j] == Not(aux[j])
    modifies ctx, s, soft, aux
    ensures fresh(blockVars) && k <= blockVars.Length == |core|
    ensures Relaxation(s.asserted, soft[..], aux[..], blockVars[..k], ctx.next) == BlockCore(r, core, soft.Length)
  {
    blockVars := new Term[|core|](_ => False);
    k := 0;
    ghost var p := r;
    assert blockVars[..0] == [];
    for i := 0 to soft.Length
      invariant k <= |core|
      invariant forall j | 0 <= j < aux.Length :: assumptions[j] == Not(r.aux[j])
      invariant p == Relaxation(s.asserted, soft[..], aux[..], blockVars[..k], ctx.next)
      invariant p == BlockCore(r, core, i)
    {
      var found := InCore(assumptions[i], core);
      if found {
        BlocksFit(r, core, i + 1);
        p := Block(p, i);
        BlockConstraint(ctx, s, soft, aux, i, blockVars, k);
        k := k + 1;
      }
    }
  }

  /** One round: done with a model of all assumptions, or the relaxation of a core. */
  method FuMalikStep(ctx: Context, s: Solver, soft: array<Term>, aux: array<Term>)
    returns (done: bool, ghost model: Model, ghost core: seq<Term>)
    requires Decisive(s.oracle) && soft.Length == aux.Length && soft != aux
    requires Distinct(aux[..])
    modifies ctx, s, soft, aux
    ensures done ==>
      && View(ctx, s, soft, aux) == old(View(ctx, s, soft, aux))
      && Holds(s.asserted, model) && forall j | 0 <= j < aux.Length :: !Eval(aux[j], model)
    ensures !done ==>
      && IsCore(old(View(ctx, s, soft, aux)), core)
      && View(ctx, s, soft, aux) == NextRound(old(View(ctx, s, soft, aux)), core)
  {
    ghost var r := View(ctx, s, soft, aux);
    var assumptions := NegateAll(aux);
    model, core := iset{}, [];
    assert assumptions[..] == seq(|r.aux|, i requires 0 <= i < |r.aux| => Not(r.aux[i]));
    var answer := s.Check(assumptions[..]);
    match answer
    case Sat(m) =>
      model := m;
      forall j | 0 <= j < aux.Length ensures !Eval(aux[j], m) {
        assert assumptions[..][j] == Not(aux[j]) && Not(aux[j]) in assumptions[..];
      }
      done := true;
    case Unsat(c) =>
      core := c;
      var blockVars, k := UpdateSoft(ctx, s, soft, aux, assumptions, c, r);
      AssertAtMostK(s, k, blockVars, 1);
      done := false;
  }

  /** Returns exactly the optimum, after as many rounds as constraints must be violated. */
  method FuMalikMaxSat(ctx: Context, s: Solver, hard: seq<Term>, soft: array<Term>) returns (r: int)
    requires Decisive(s.oracle) && soft.Length <= MAX_COUNTED
    requires AllBelow(s.asserted, ctx.next) && AllBelow(hard, ctx.next) && AllBelow(soft[..], ctx.next)
    modifies ctx, s, soft
    ensures IsAnswer(old(s.asserted) + hard, old(soft[..]), r)
  {
    AssertHardConstraints(s, hard);
    ghost var base, allHard, orig := ctx.next, s.asserted, soft[..];
    var isSat := s.Check([]);
    if isSat.Unsat? {
      NoModel(allHard, isSat.core);
      return -1;
    }
    ghost var start := isSat.model;
    if soft.Length == 0 {
      OptimumFromViolations(allHard, orig, 0, start);
      return 0;
    }
    var aux := AssertSoftConstraints(ctx, s, soft);
    RoundStart(allHard, orig, base);
    r := Rounds(ctx, s, soft, aux, allHard, orig, base, start);
  }

  /** The main loop. */
  method Rounds(ctx: Context, s: Solver, soft: array<Term>, aux: array<Term>, ghost hard: seq<Term>,
                ghost orig: seq<Term>, ghost base: nat, ghost start: Model)
    returns (r: int)
    requires Decisive(s.oracle) && soft.Length == aux.Length && soft != aux
    requires RoundInvariant(hard, orig, base, View(ctx, s, soft, aux), 0) && |orig| <= MAX_COUNTED
    requires Holds(hard, start)
    modifies ctx, s, soft, aux
    ensures IsOptimum(hard, orig, r)
  {
    var k: nat := 0;
    ghost var v := View(ctx, s, soft, aux);
    while true
      invariant v == View(ctx, s, soft, aux)
      invariant RoundInvariant(hard, orig, base, v, k)
      invariant k <= |orig|
      decreases |orig| - k
    {
      var done, model, core := FuMalikStep(ctx, s, soft, aux);
      if done {
        RoundDone(hard, orig, base, v, k, model);
        return soft.Length - k;
      }
      RoundStep(hard, orig, base, v, k, core);
      k := k + 1;
      v := NextRound(v, core);
      RoundLowerBound(hard, orig, base, v, k, start);
    }
  }
}
