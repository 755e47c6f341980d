/** Which value an expression has: Java's 32-bit arithmetic, the order of integers and the truth tables,
    stated about evaluation alone. */
module Values {
  import opened Ast
  import opened Evaluation

  const MODULUS := 0x1_0000_0000

  predicate IsJavaInt(x: int) { -0x8000_0000 <= x < 0x8000_0000 }

  predicate Congruent(x: int, y: int) { (x - y) % MODULUS == 0 }

  /** The expression has this integer value, or this truth value. */
  predicate HasInt(e: Expression, store: Store, i: int) { Evaluate(e, store) == Some(IntegerConstant(i)) }

  predicate HasBool(e: Expression, store: Store, b: bool) { Evaluate(e, store) == Some(BooleanConstant(b)) }

  /** At most one Java integer is congruent to a number, so congruence determines the result. */
  lemma JavaIntUnique(x: int, y: int)
    requires IsJavaInt(x) && IsJavaInt(y) && Congruent(x, y)
    ensures x == y
  {}

  /** A literal has its own value, a variable the value stored for it, or null. */
  lemma LeafValue(e: Expression, store: Store)
    ensures e.Literal? ==> Evaluate(e, store) == Some(e.c)
    ensures e.Name? && e.decl in store ==> Evaluate(e, store) == store[e.decl]
    ensures e.Name? && e.decl !in store ==> Evaluate(e, store) == None
  {}

  lemma WrapCongruent(x: int)
    ensures IsJavaInt(Wrap32(x)) && Congruent(Wrap32(x), x)
  {
    var q := (x + 0x8000_0000) / MODULUS;
    assert Wrap32(x) - x == -(MODULUS * q);
    assert (MODULUS * -q) % MODULUS == 0;
  }

  /** The result of an operation on integers: the Java integer congruent to the mathematical one. */
  ghost predicate Computes(l: Expression, r: Expression, op: Operator, store: Store, exact: int) {
    exists i :: HasInt(Binary(l, r, op), store, i) && IsJavaInt(i) && Congruent(i, exact)
  }

  /** Sum, difference and product, modulo 2^32. */
  lemma ArithmeticValue(l: Expression, r: Expression, store: Store, a: int, b: int)
    requires HasInt(l, store, a) && HasInt(r, store, b)
    ensures Computes(l, r, Plus, store, a + b)
    ensures Computes(l, r, Minus, store, a - b)
    ensures Computes(l, r, Times, store, a * b)
  {
    WrapCongruent(a + b);
    WrapCongruent(a - b);
    WrapCongruent(a * b);
    assert HasInt(Binary(l, r, Plus), store, Wrap32(a + b));
    assert HasInt(Binary(l, r, Minus), store, Wrap32(a - b));
    assert HasInt(Binary(l, r, Times), store, Wrap32(a * b));
  }

  /** Without overflow they are exact. */
  lemma ArithmeticExact(l: Expression, r: Expression, op: Operator, store: Store, exact: int)
    requires Computes(l, r, op, store, exact) && IsJavaInt(exact)
    ensures HasInt(Binary(l, r, op), store, exact)
  {
    var i :| HasInt(Binary(l, r, op), store, i) && IsJavaInt(i) && Congruent(i, exact);
    JavaIntUnique(i, exact);
  }

  function Abs(x: int): nat { if x < 0 then -x else x }

  /** `q` is `a / b` rounded towards zero: what remains is smaller than the divisor and not of the
      other sign than `a`. */
  predicate IsQuotient(a: int, b: int, q: int) {
    var rest := a - q * b;
    Abs(rest) < Abs(b) && (a >= 0 ==> rest >= 0) && (a <= 0 ==> rest <= 0)
  }

  lemma Signs(q: int, d: int)
    ensures (-q) * d == -(q * d) && q * (-d) == -(q * d) && (-q) * (-d) == q * d
  {}

  /** The quotient of the absolute values, with the sign that both give. */
  lemma SignedQuotient(a: int, b: int, q: int, p: int)
    requires p == q * Abs(b) && p <= Abs(a) < p + Abs(b)
    ensures IsQuotient(a, b, if (a < 0) == (b < 0) then q else -q)
  {
    Signs(q, b);
    if b < 0 {
      assert p == -(q * b);
    } else {
      assert p == q * b;
    }
  }

  lemma EuclideanQuotient(n: nat, d: nat) returns (q: nat)
    requires d > 0
    ensures q == n / d && q * d <= n < q * d + d && q <= n
  {
    q := n / d;
    assert n == d * q + n % d;
    assert d * q == q * d;
    QuotientBound(n, d, q);
  }

  lemma QuotientBound(n: int, d: int, q: int)
    requires n >= 0 && d > 0 && q >= 0 && d * q <= n
    ensures q <= n
  {
    assert (d - 1) * q >= 0;
    assert (d - 1) * q == d * q - q;
  }

  lemma TruncatedDivIsQuotient(a: int, b: int)
    requires b != 0
    ensures IsQuotient(a, b, TruncatedDiv(a, b))
    ensures Abs(TruncatedDiv(a, b)) <= Abs(a)
  {
    var q := EuclideanQuotient(Abs(a), Abs(b));
    SignedQuotient(a, b, q, q * Abs(b));
    assert TruncatedDiv(a, b) == if (a < 0) == (b < 0) then q else -q;
  }

  /** Division rounds towards zero; of Java integers only -2^31 / -1 overflows, to -2^31. */
  lemma DivisionValue(l: Expression, r: Expression, store: Store, a: int, b: int)
    requires HasInt(l, store, a) && HasInt(r, store, b) && b != 0 && IsJavaInt(a) && IsJavaInt(b)
    ensures a == -0x8000_0000 && b == -1 ==> HasInt(Binary(l, r, Divide), store, -0x8000_0000)
    ensures !(a == -0x8000_0000 && b == -1) ==>
      exists q :: HasInt(Binary(l, r, Divide), store, q) && IsJavaInt(q) && IsQuotient(a, b, q)
  {
    var q := TruncatedDiv(a, b);
    TruncatedDivIsQuotient(a, b);
    assert HasInt(Binary(l, r, Divide), store, Wrap32(q));
    if !IsJavaInt(q) {
      assert q == 0x8000_0000 && a == -0x8000_0000;
      assert b == -1 || b == 1 || Abs(q * b) >= 2 * Abs(q);
    }
  }

  /** Exactly one of "<", "=" and ">" is true, as the integers are ordered. */
  lemma OrderValue(l: Expression, r: Expression, store: Store, a: int, b: int)
    requires HasInt(l, store, a) && HasInt(r, store, b)
    ensures HasBool(Binary(l, r, Lt), store, a < b) && HasBool(Binary(l, r, Gt), store, b < a)
    ensures HasBool(Binary(l, r, Eq), store, a == b) && HasBool(Binary(l, r, Ne), store, a != b)
    ensures HasBool(Binary(l, r, Le), store, !(b < a)) && HasBool(Binary(l, r, Ge), store, !(a < b))
  {}

  /** The truth tables of "&&", "||" and "=". */
  lemma TruthValue(l: Expression, r: Expression, store: Store, a: bool, b: bool)
    requires HasBool(l, store, a) && HasBool(r, store, b)
    ensures HasBool(Binary(l, r, AndAlso), store, if a then b else false)
    ensures HasBool(Binary(l, r, OrElse), store, if a then true else b)
    ensures HasBool(Binary(l, r, Eq), store, if a then b else !b)
  {}
}
