/** Boolean terms as the MaxSAT examples build them through the Z3 API, and their meaning.

    A constant created by the API is `Var(id)`.  A model is the (possibly infinite) set of
    constants it makes true; every other constant is false, as model completion decides. */
module Terms {

  datatype Term =
    | True
    | False
    | Var(id: nat)
    | Not(arg: Term)
    | And(left: Term, right: Term)
    | Or(left: Term, right: Term)
    | Or3(first: Term, second: Term, third: Term)
    | Xor(left: Term, right: Term)
    | Iff(left: Term, right: Term)

  type Model = iset<nat>

  predicate Eval(t: Term, m: Model) {
    match t
    case True => true
    case False => false
    case Var(id) => id in m
    case Not(a) => !Eval(a, m)
    case And(a, b) => Eval(a, m) && Eval(b, m)
    case Or(a, b) => Eval(a, m) || Eval(b, m)
    case Or3(a, b, c) => Eval(a, m) || Eval(b, m) || Eval(c, m)
    case Xor(a, b) => Eval(a, m) != Eval(b, m)
    case Iff(a, b) => Eval(a, m) == Eval(b, m)
  }

  /** Every term of the list is true. */
  ghost predicate Holds(ts: seq<Term>, m: Model) {
    forall t | t in ts :: Eval(t, m)
  }

  function CountTrue(ts: seq<Term>, m: Model): nat {
    if ts == [] then 0 else (if Eval(ts[0], m) then 1 else 0) + CountTrue(ts[1..], m)
  }

  function CountFalse(ts: seq<Term>, m: Model): nat {
    if ts == [] then 0 else (if Eval(ts[0], m) then 0 else 1) + CountFalse(ts[1..], m)
  }

  ghost predicate Distinct(ts: seq<Term>) {
    forall i, j | 0 <= i < j < |ts| :: ts[i] != ts[j]
  }

  /** Only constants below `limit` occur in the term. */
  predicate Below(t: Term, limit: nat) {
    match t
    case True => true
    case False => true
    case Var(id) => id < limit
    case Not(a) => Below(a, limit)
    case And(a, b) => Below(a, limit) && Below(b, limit)
    case Or(a, b) => Below(a, limit) && Below(b, limit)
    case Or3(a, b, c) => Below(a, limit) && Below(b, limit) && Below(c, limit)
    case Xor(a, b) => Below(a, limit) && Below(b, limit)
    case Iff(a, b) => Below(a, limit) && Below(b, limit)
  }

  ghost predicate AllBelow(ts: seq<Term>, limit: nat) {
    forall t | t in ts :: Below(t, limit)
  }

  /** The two models agree on every constant below `limit`. */
  ghost predicate Agree(m: Model, m': Model, limit: nat) {
    forall v: nat | v < limit :: v in m <==> v in m'
  }

  lemma {:induction false} EvalAgree(t: Term, m: Model, m': Model, limit: nat)
    requires Below(t, limit) && Agree(m, m', limit)
    ensures Eval(t, m) == Eval(t, m')
  {
    match t
    case True =>
    case False =>
    case Var(_) =>
    case Not(a) => EvalAgree(a, m, m', limit);
    case And(a, b) => EvalAgree(a, m, m', limit); EvalAgree(b, m, m', limit);
    case Or(a, b) => EvalAgree(a, m, m', limit); EvalAgree(b, m, m', limit);
    case Or3(a, b, c) =>
      EvalAgree(a, m, m', limit); EvalAgree(b, m, m', limit); EvalAgree(c, m, m', limit);
    case Xor(a, b) => EvalAgree(a, m, m', limit); EvalAgree(b, m, m', limit);
    case Iff(a, b) => EvalAgree(a, m, m', limit); EvalAgree(b, m, m', limit);
  }

  lemma {:induction false} BelowMonotone(t: Term, limit: nat, limit': nat)
    requires Below(t, limit) && limit <= limit'
    ensures Below(t, limit')
  {
    match t
    case True =>
    case False =>
    case Var(_) =>
    case Not(a) => BelowMonotone(a, limit, limit');
    case And(a, b) => BelowMonotone(a, limit, limit'); BelowMonotone(b, limit, limit');
    case Or(a, b) => BelowMonotone(a, limit, limit'); BelowMonotone(b, limit, limit');
    case Or3(a, b, c) =>
      BelowMonotone(a, limit, limit'); BelowMonotone(b, limit, limit'); BelowMonotone(c, limit, limit');
    case Xor(a, b) => BelowMonotone(a, limit, limit'); BelowMonotone(b, limit, limit');
    case Iff(a, b) => BelowMonotone(a, limit, limit'); BelowMonotone(b, limit, limit');
  }

  lemma AllBelowMonotone(ts: seq<Term>, limit: nat, limit': nat)
    requires AllBelow(ts, limit) && limit <= limit'
    ensures AllBelow(ts, limit')
  {
    forall t | t in ts ensures Below(t, limit') { BelowMonotone(t, limit, limit'); }
  }

  lemma HoldsAgree(ts: seq<Term>, m: Model, m': Model, limit: nat)
    requires AllBelow(ts, limit) && Agree(m, m', limit)
    ensures Holds(ts, m) == Holds(ts, m')
  {
    forall t | t in ts ensures Eval(t, m) == Eval(t, m') { EvalAgree(t, m, m', limit); }
  }

  lemma {:induction false} CountFalseAgree(ts: seq<Term>, m: Model, m': Model, limit: nat)
    requires AllBelow(ts, limit) && Agree(m, m', limit)
    ensures CountFalse(ts, m) == CountFalse(ts, m')
  {
    if ts != [] {
      EvalAgree(ts[0], m, m', limit);
      CountFalseAgree(ts[1..], m, m', limit);
    }
  }

  lemma {:induction false} CountsAddUp(ts: seq<Term>, m: Model)
    ensures CountTrue(ts, m) + CountFalse(ts, m) == |ts|
  {
    if ts != [] { CountsAddUp(ts[1..], m); }
  }

  lemma {:induction false} CountFalseZero(ts: seq<Term>, m: Model)
    ensures CountFalse(ts, m) == 0 <==> Holds(ts, m)
  {
    if ts != [] {
      CountFalseZero(ts[1..], m);
      assert ts == [ts[0]] + ts[1..];
    }
  }

  lemma {:induction false} CountFalseConcat(ts: seq<Term>, us: seq<Term>, m: Model)
    ensures CountFalse(ts + us, m) == CountFalse(ts, m) + CountFalse(us, m)
  {
    if ts == [] {
      assert ts + us == us;
    } else {
      assert (ts + us)[1..] == ts[1..] + us;
      CountFalseConcat(ts[1..], us, m);
    }
  }

  /** Replacing one element changes the number of false terms by that element alone. */
  lemma CountFalseUpdate(ts: seq<Term>, i: nat, t: Term, m: Model)
    requires i < |ts|
    ensures CountFalse(ts[i := t], m) + (if Eval(ts[i], m) then 0 else 1)
         == CountFalse(ts, m) + (if Eval(t, m) then 0 else 1)
  {
    CountFalseConcat(ts[..i], [ts[i]] + ts[i + 1..], m);
    CountFalseConcat(ts[..i], [t] + ts[i + 1..], m);
    assert ts == ts[..i] + ([ts[i]] + ts[i + 1..]);
    assert ts[i := t] == ts[..i] + ([t] + ts[i + 1..]);
  }
}
