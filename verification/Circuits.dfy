/** Adders, counter circuit and comparator over arrays of Boolean terms (least significant bit
    first), and the at-most-k constraint built from them. */
module Circuits {
  import opened Terms
  import opened Solvers

  // ----- Binary numbers -----

  function Pow2(n: nat): (p: nat)
    ensures p >= 1
  {
    if n == 0 then 1 else 2 * Pow2(n - 1)
  }

  function Bit(b: bool): nat { if b then 1 else 0 }

  /** The number that a list of bits denotes under a model. */
  function Value(bits: seq<Term>, m: Model): nat {
    if bits == [] then 0 else Bit(Eval(bits[0], m)) + 2 * Value(bits[1..], m)
  }

  lemma {:induction false} ValueSnoc(bits: seq<Term>, b: Term, m: Model)
    ensures Value(bits + [b], m) == Value(bits, m) + (if Eval(b, m) then Pow2(|bits|) else 0)
  {
    if bits == [] {
      assert [b][1..] == [];
    } else {
      assert (bits + [b])[1..] == bits[1..] + [b];
      ValueSnoc(bits[1..], b, m);
    }
  }

  lemma {:induction false} ValueBound(bits: seq<Term>, m: Model)
    ensures Value(bits, m) < Pow2(|bits|)
  {
    if bits != [] { ValueBound(bits[1..], m); }
  }

  // ----- Adders -----

  function SumBit(a: Term, b: Term, cin: Term): Term { Xor(Xor(a, b), cin) }

  function CarryBit(a: Term, b: Term, cin: Term): Term { Or3(And(a, b), And(a, cin), And(b, cin)) }

  lemma FullAdderAdds(a: Term, b: Term, cin: Term, m: Model)
    ensures Bit(Eval(SumBit(a, b, cin), m)) + 2 * Bit(Eval(CarryBit(a, b, cin), m))
         == Bit(Eval(a, m)) + Bit(Eval(b, m)) + Bit(Eval(cin, m))
  {
    var x, y, c := Eval(a, m), Eval(b, m), Eval(cin, m);
    assert Eval(SumBit(a, b, cin), m) == ((x != y) != c);
    assert Eval(CarryBit(a, b, cin), m) == ((x && y) || (x && c) || (y && c)) by {
      assert Eval(And(a, b), m) == (x && y);
      assert Eval(And(a, cin), m) == (x && c);
      assert Eval(And(b, cin), m) == (y && c);
    }
  }

  /** The full adder adds its three inputs: one bit of the sum, and a carry worth two. */
  method MkFullAdder(a: Term, b: Term, cin: Term) returns (out: Term, cout: Term)
    ensures out == SumBit(a, b, cin) && cout == CarryBit(a, b, cin)
    ensures forall m :: Bit(Eval(out, m)) + 2 * Bit(Eval(cout, m))
                     == Bit(Eval(a, m)) + Bit(Eval(b, m)) + Bit(Eval(cin, m))
  {
    cout := Or3(And(a, b), And(a, cin), And(b, cin));
    out := Xor(Xor(a, b), cin);
    forall m ensures Bit(Eval(out, m)) + 2 * Bit(Eval(cout, m))
                  == Bit(Eval(a, m)) + Bit(Eval(b, m)) + Bit(Eval(cin, m))
    {
      FullAdderAdds(a, b, cin, m);
    }
  }

  /** Ripple addition of two numbers of equal width; the last bit is the carry. */
  function Sum(xs: seq<Term>, ys: seq<Term>, cin: Term): (s: seq<Term>)
    requires |xs| == |ys|
    ensures |s| == |xs| + 1
  {
    if xs == [] then [cin]
    else [SumBit(xs[0], ys[0], cin)] + Sum(xs[1..], ys[1..], CarryBit(xs[0], ys[0], cin))
  }

  lemma {:induction false} SumAdds(xs: seq<Term>, ys: seq<Term>, cin: Term, m: Model)
    requires |xs| == |ys|
    ensures Value(Sum(xs, ys, cin), m) == Value(xs, m) + Value(ys, m) + Bit(Eval(cin, m))
  {
    if xs == [] {
      assert [cin][1..] == [];
    } else {
      SumAdds(xs[1..], ys[1..], CarryBit(xs[0], ys[0], cin), m);
      FullAdderAdds(xs[0], ys[0], cin, m);
      var s := Sum(xs, ys, cin);
      assert s[1..] == Sum(xs[1..], ys[1..], CarryBit(xs[0], ys[0], cin));
    }
  }

  /** Where a ripple addition stands after `i` bits. */
  ghost predicate SumFrom(s: seq<Term>, xs: seq<Term>, ys: seq<Term>, cin: Term, i: nat) {
    |xs| == |ys| && i <= |xs| && |s| == |xs| + 1 && s[i..] == Sum(xs[i..], ys[i..], cin)
  }

  lemma SumStart(s: seq<Term>, xs: seq<Term>, ys: seq<Term>)
    requires |xs| == |ys| && s == Sum(xs, ys, False)
    ensures SumFrom(s, xs, ys, False, 0)
  {
    assert xs[0..] == xs && ys[0..] == ys && s[0..] == s;
  }

  lemma SumEnd(s: seq<Term>, xs: seq<Term>, ys: seq<Term>, cin: Term)
    requires SumFrom(s, xs, ys, cin, |xs|)
    ensures s[|xs|] == cin
  {
    assert s[|xs|] == s[|xs|..][0];
  }

  lemma SumStep(s: seq<Term>, xs: seq<Term>, ys: seq<Term>, cin: Term, i: nat)
    requires SumFrom(s, xs, ys, cin, i) && i < |xs|
    ensures s[i] == SumBit(xs[i], ys[i], cin)
    ensures SumFrom(s, xs, ys, CarryBit(xs[i], ys[i], cin), i + 1)
  {
    assert xs[i..][1..] == xs[i + 1..] && ys[i..][1..] == ys[i + 1..];
    assert s[i..][0] == s[i] && s[i..][1..] == s[i + 1..];
  }

  /** Adds the numbers `xs` and `ys` stored at `a` and `b` and writes the sum to `r` of another
      buffer, leaving what comes before. */
  method MkAdder(numBits: nat, input: array<Term>, a: nat, b: nat, result: array<Term>, r: nat,
                 ghost xs: seq<Term>, ghost ys: seq<Term>)
    requires 0 < numBits == |xs| == |ys| && input != result
    requires a + numBits <= input.Length && b + numBits <= input.Length
    requires forall j | 0 <= j < numBits :: xs[j] == input[a + j] && ys[j] == input[b + j]
    requires r + numBits + 1 <= result.Length
    modifies result
    ensures forall j | r <= j <= r + numBits :: result[j] == Sum(xs, ys, False)[j - r]
    ensures forall j | 0 <= j < r :: result[j] == old(result[j])
  {
    var cin, cout, out := False, False, False;
    ghost var s := Sum(xs, ys, False);
    SumStart(s, xs, ys);
    var i := 0;
    while i < numBits
      invariant 0 <= i <= numBits
      invariant i > 0 ==> cin == cout
      invariant SumFrom(s, xs, ys, cin, i)
      invariant forall j | 0 <= j < r :: result[j] == old(result[j])
      invariant forall j | r <= j < r + i :: result[j] == s[j - r]
    {
      SumStep(s, xs, ys, cin, i);
      out, cout := MkFullAdder(input[a + i], input[b + i], cin);
      result[r + i] := out;
      cin := cout;
      i := i + 1;
    }
    SumEnd(s, xs, ys, cin);
    result[r + numBits] := cout;
  }

  // ----- Packed numbers -----

  /** Cells taken by `num` numbers: their product, by repeated addition. */
  ghost function Cells(num: nat, width: nat): nat {
    if num == 0 then 0 else width + Cells(num - 1, width)
  }

  lemma {:induction false} CellsIsProduct(num: nat, width: nat)
    ensures Cells(num, width) == num * width
  {
    if num > 0 {
      CellsIsProduct(num - 1, width);
      TakeOne(num, width);
    }
  }

  /** Sum of the `width`-bit numbers stored one after the other. */
  function PackedSum(width: nat, packed: seq<Term>, m: Model): nat
    requires width > 0
  {
    if |packed| < width then 0
    else Value(packed[..width], m) + PackedSum(width, packed[width..], m)
  }

  /** One layer of the adder tree: neighbours are added, an odd last number gets a zero bit. */
  function PairSums(width: nat, packed: seq<Term>): (layer: seq<Term>)
    requires width > 0
    ensures |packed| >= width ==> |layer| >= width + 1
    decreases |packed|
  {
    if |packed| >= 2 * width then
      Sum(packed[..width], packed[width..2 * width], False) + PairSums(width, packed[2 * width..])
    else if |packed| >= width then packed[..width] + [False]
    else []
  }

  /** A layer conserves the sum of the packed numbers, odd tail included. */
  lemma {:induction false} PairSumsConserve(width: nat, packed: seq<Term>, m: Model)
    requires width > 0
    ensures PackedSum(width + 1, PairSums(width, packed), m) == PackedSum(width, packed, m)
    decreases |packed|
  {
    if |packed| >= 2 * width {
      var s, rest := Sum(packed[..width], packed[width..2 * width], False), packed[2 * width..];
      assert PairSums(width, packed) == s + PairSums(width, rest);
      assert (s + PairSums(width, rest))[..width + 1] == s;
      assert (s + PairSums(width, rest))[width + 1..] == PairSums(width, rest);
      SumAdds(packed[..width], packed[width..2 * width], False, m);
      PairSumsConserve(width, rest, m);
      assert packed[width..][..width] == packed[width..2 * width];
      assert packed[width..][width..] == rest;
    } else if |packed| >= width {
      var s := packed[..width] + [False];
      ValueSnoc(packed[..width], False, m);
      assert s[..width + 1] == s;
    }
  }

  lemma {:induction false} PairSumsLength(width: nat, numIns: nat, packed: seq<Term>)
    requires width > 0 && |packed| == Cells(numIns, width)
    ensures |PairSums(width, packed)| == Cells((numIns + 1) / 2, width + 1)
  {
    if numIns >= 2 {
      assert Cells(numIns, width) == width + (width + Cells(numIns - 2, width));
      PairSumsLength(width, numIns - 2, packed[2 * width..]);
    } else if numIns == 1 {
      assert Cells(1, width) == width + Cells(0, width);
      assert Cells(1, width + 1) == width + 1 + Cells(0, width + 1);
    }
  }

  lemma TakeOne(num: int, width: int)
    ensures (num - 1) * width == num * width - width
  {}

  /** Where a layer stands: `todo` numbers are left at the end of the input. */
  ghost predicate LayerAt(layer: seq<Term>, width: nat, packed: seq<Term>, todo: nat, inPos: nat, outPos: nat)
    requires width > 0
  {
    && inPos + Cells(todo, width) == |packed|
    && outPos <= |layer|
    && layer[outPos..] == PairSums(width, packed[inPos..])
  }

  lemma TwoMoreCells(todo: nat, width: nat)
    requires todo >= 2
    ensures Cells(todo, width) == width + width + Cells(todo - 2, width)
  {
    assert Cells(todo, width) == width + (width + Cells(todo - 2, width));
  }

  /** The first sum of a layer, and the rest of the layer. */
  lemma PairSumsFirst(width: nat, rest: seq<Term>)
    requires width > 0 && |rest| >= width + width
    ensures
      var s, l := Sum(rest[..width], rest[width..width + width], False), PairSums(width, rest);
      |l| >= width + 1 && l[..width + 1] == s && l[width + 1..] == PairSums(width, rest[width + width..])
  {
    var s := Sum(rest[..width], rest[width..2 * width], False);
    assert 2 * width == width + width;
    assert PairSums(width, rest) == s + PairSums(width, rest[2 * width..]);
  }

  lemma SliceOfRest<T>(s: seq<T>, from: nat, i: nat, j: nat)
    requires from + j <= |s| && i <= j
    ensures s[from..][i..j] == s[from + i..from + j] && s[from..][j..] == s[from + j..]
  {}

  /** With two numbers or more to go, a layer continues with the sum of the next two. */
  lemma LayerStep(layer: seq<Term>, width: nat, packed: seq<Term>, todo: nat, inPos: nat, outPos: nat)
    requires width > 0 && todo >= 2 && LayerAt(layer, width, packed, todo, inPos, outPos)
    ensures inPos + width + width <= |packed| && outPos + (width + 1) <= |layer|
    ensures LayerAt(layer, width, packed, todo - 2, inPos + width + width, outPos + (width + 1))
    ensures layer[outPos..outPos + (width + 1)]
         == Sum(packed[inPos..inPos + width], packed[inPos + width..inPos + width + width], False)
  {
    TwoMoreCells(todo, width);
    PairSumsFirst(width, packed[inPos..]);
    SliceOfRest(packed, inPos, 0, width);
    SliceOfRest(packed, inPos, width, width + width);
    SliceOfRest(layer, outPos, 0, width + 1);
  }

  lemma LayerTail(layer: seq<Term>, width: nat, packed: seq<Term>, todo: nat, inPos: nat, outPos: nat)
    requires width > 0 && todo < 2 && LayerAt(layer, width, packed, todo, inPos, outPos)
    ensures todo == 0 ==> outPos == |layer|
    ensures todo == 1 ==> inPos + width == |packed| && outPos + width + 1 == |layer|
    ensures todo == 1 ==> layer[outPos..] == packed[inPos..] + [False]
  {
    var rest := packed[inPos..];
    if todo == 1 {
      assert Cells(1, width) == width + Cells(0, width);
      assert |rest| == width && rest[..width] == rest;
    } else {
      assert rest == [];
    }
  }

  /** The odd number at the end of a layer: copied, with a zero bit appended. */
  method CopyWithZero(numBits: nat, input: array<Term>, ghost packed: seq<Term>, inPos: nat,
                      out: array<Term>, outPos: nat, ghost layer: seq<Term>)
    requires input != out && packed <= input[..] && inPos + numBits == |packed|
    requires outPos + numBits + 1 == |layer| <= out.Length
    requires layer[outPos..] == packed[inPos..] + [False]
    requires forall j | 0 <= j < outPos :: out[j] == layer[j]
    modifies out
    ensures forall j | 0 <= j < |layer| :: out[j] == layer[j]
  {
    assert forall j | outPos <= j < |layer| :: layer[j] == layer[outPos..][j - outPos];
    var i := 0;
    while i < numBits
      invariant 0 <= i <= numBits
      invariant forall j | 0 <= j < outPos + i :: out[j] == layer[j]
    {
      assert input[inPos + i] == packed[inPos..][i];
      out[outPos + i] := input[inPos + i];
      i := i + 1;
    }
    out[outPos + numBits] := False;
  }

  /** One adder of a layer: what it writes continues the layer. */
  method MkAdderInLayer(numBits: nat, input: array<Term>, ghost packed: seq<Term>, inPos: nat,
                        out: array<Term>, outPos: nat, ghost layer: seq<Term>)
    requires numBits > 0 && input != out
    requires packed <= input[..] && inPos + numBits + numBits <= |packed|
    requires outPos + (numBits + 1) <= |layer| <= out.Length
    requires layer[outPos..outPos + (numBits + 1)]
          == Sum(packed[inPos..inPos + numBits], packed[inPos + numBits..inPos + numBits + numBits], False)
    requires forall j | 0 <= j < outPos :: out[j] == layer[j]
    modifies out
    ensures forall j | 0 <= j < outPos + (numBits + 1) :: out[j] == layer[j]
  {
    ghost var xs, ys := packed[inPos..inPos + numBits], packed[inPos + numBits..inPos + numBits + numBits];
    ghost var s := layer[outPos..outPos + (numBits + 1)];
    MkAdder(numBits, input, inPos, inPos + numBits, out, outPos, xs, ys);
    assert forall j | outPos <= j < outPos + (numBits + 1) :: layer[j] == s[j - outPos];
  }

  /** The adders of a layer, up to an odd last number. */
  method AddNeighbours(numBits: nat, numIns: nat, input: array<Term>, ghost packed: seq<Term>,
                       out: array<Term>, ghost layer: seq<Term>)
    returns (inPos: nat, outPos: nat)
    requires numBits > 0 && input != out && packed <= input[..] && |layer| <= out.Length
    requires LayerAt(layer, numBits, packed, numIns, 0, 0)
    modifies out
    ensures LayerAt(layer, numBits, packed, numIns % 2, inPos, outPos)
    ensures forall j | 0 <= j < outPos :: out[j] == layer[j]
  {
    inPos, outPos := 0, 0;
    ghost var todo := numIns;
    var i := 0;
    while i < numIns / 2
      invariant 0 <= i <= numIns / 2 && todo == numIns - 2 * i
      invariant LayerAt(layer, numBits, packed, todo, inPos, outPos)
      invariant forall j | 0 <= j < outPos :: out[j] == layer[j]
    {
      LayerStep(layer, numBits, packed, todo, inPos, outPos);
      MkAdderInLayer(numBits, input, packed, inPos, out, outPos, layer);
      inPos := inPos + numBits;
      inPos := inPos + numBits;
      outPos := outPos + (numBits + 1);
      i, todo := i + 1, todo - 2;
    }
  }

  method MkAdderPairs(numBits: nat, numIns: nat, input: array<Term>, out: array<Term>)
    returns (outNumIns: nat)
    requires numBits > 0 && input != out
    requires Cells(numIns, numBits) <= input.Length
    requires Cells((numIns + 1) / 2, numBits + 1) <= out.Length
    modifies out
    ensures outNumIns == (numIns + 1) / 2
    ensures out[..Cells(outNumIns, numBits + 1)] == PairSums(numBits, input[..Cells(numIns, numBits)])
  {
    outNumIns := if numIns % 2 == 0 then numIns / 2 else numIns / 2 + 1;
    ghost var packed := input[..Cells(numIns, numBits)];
    ghost var layer := PairSums(numBits, packed);
    PairSumsLength(numBits, numIns, packed);
    assert layer[0..] == layer && packed[0..] == packed;
    var inPos, outPos := AddNeighbours(numBits, numIns, input, packed, out, layer);
    LayerTail(layer, numBits, packed, numIns % 2, inPos, outPos);
    if numIns % 2 != 0 {
      CopyWithZero(numBits, input, packed, inPos, out, outPos, layer);
    }
    assert out[..|layer|] == layer;
  }

  // ----- Counter -----

  /** The layers of the adder tree, from `numIns` numbers of `width` bits down to one number. */
  function CounterBits(width: nat, numIns: nat, packed: seq<Term>): (bits: seq<Term>)
    requires 0 < width <= |packed|
    ensures bits != []
    decreases numIns
  {
    if numIns <= 1 then packed
    else CounterBits(width + 1, (numIns + 1) / 2, PairSums(width, packed))
  }

  /** Number of bits the counter ends with: one more than the number of layers. */
  function CounterWidth(n: nat): (w: nat)
    ensures w >= 1
  {
    if n <= 1 then 1 else 1 + CounterWidth((n + 1) / 2)
  }

  /** The counter's width is 1 + ceil(log2 n). */
  lemma {:induction false} CounterWidthIsLog(n: nat)
    requires n >= 1
    ensures n <= Pow2(CounterWidth(n) - 1)
    ensures n >= 2 ==> CounterWidth(n) >= 2 && Pow2(CounterWidth(n) - 2) < n
  {
    if n >= 2 {
      var h := (n + 1) / 2;
      CounterWidthIsLog(h);
      assert Pow2(CounterWidth(n) - 1) == 2 * Pow2(CounterWidth(h) - 1);
      if h >= 2 {
        assert Pow2(CounterWidth(n) - 2) == 2 * Pow2(CounterWidth(h) - 2);
      }
    }
  }

  lemma {:induction false} CounterConserves(width: nat, numIns: nat, packed: seq<Term>, m: Model)
    requires width > 0 && numIns > 0 && |packed| == Cells(numIns, width) >= width
    ensures Value(CounterBits(width, numIns, packed), m) == PackedSum(width, packed, m)
    ensures |CounterBits(width, numIns, packed)| == width + CounterWidth(numIns) - 1
    decreases numIns
  {
    if numIns <= 1 {
      assert Cells(1, width) == width + Cells(0, width);
      assert packed[..width] == packed && |packed[width..]| < width;
    } else {
      PairSumsConserve(width, packed, m);
      PairSumsLength(width, numIns, packed);
      CounterConserves(width + 1, (numIns + 1) / 2, PairSums(width, packed), m);
    }
  }

  lemma {:induction false} OneBitNumbers(lits: seq<Term>, m: Model)
    ensures PackedSum(1, lits, m) == CountTrue(lits, m)
  {
    if lits != [] {
      OneBitNumbers(lits[1..], m);
      ValueSnoc([], lits[0], m);
      assert lits[..1] == [] + [lits[0]];
    }
  }

  /** The counter denotes the number of true literals under every model, in 1 + ceil(log2 n) bits. */
  lemma CounterCounts(lits: seq<Term>, m: Model)
    requires |lits| > 0
    ensures Value(CounterBits(1, |lits|, lits), m) == CountTrue(lits, m)
    ensures |CounterBits(1, |lits|, lits)| == CounterWidth(|lits|)
  {
    CellsIsProduct(|lits|, 1);
    CounterConserves(1, |lits|, lits, m);
    OneBitNumbers(lits, m);
  }

  /** An odd layer of wider numbers: half of numIns + 1 numbers of one more bit take no more room. */
  lemma OddLayerFits(half: nat, width: nat)
    requires half >= 2 && width >= 2
    ensures half * (width + 1) <= (half + (half - 1)) * width
  {
    Distribute(half, half - 1, width);
    Distribute(width, 1, half);
    TakeOne(half, width);
    AtLeast(half, 2, width, 2);
  }

  lemma EvenLayerFits(half: nat, width: nat)
    requires half >= 1 && width >= 1
    ensures half * (width + 1) <= (half + half) * width
  {
    Distribute(half, half, width);
    Distribute(width, 1, half);
    AtLeast(half, 1, width, 1);
  }

  lemma NextLayerBound(n: nat, numIns: nat, half: nat, width: nat)
    requires numIns >= 2 && half == (numIns + 1) / 2 && width >= 1 && numIns * width <= n + 1
    requires width == 1 ==> numIns == n
    ensures half * (width + 1) <= n + 1
  {
    if numIns % 2 == 0 {
      assert numIns == half + half;
      EvenLayerFits(half, width);
    } else if width == 1 {
      assert half * (width + 1) == half * 2 == n + 1;
    } else {
      assert numIns == half + (half - 1);
      OddLayerFits(half, width);
    }
  }

  /** Two buffers of n + 1 cells hold every layer, although the numbers grow by a bit each time. */
  lemma NextLayerFits(n: nat, numIns: nat, width: nat)
    requires numIns >= 2 && width >= 1 && Cells(numIns, width) <= n + 1
    requires width == 1 ==> numIns == n
    ensures width + 1 <= Cells((numIns + 1) / 2, width + 1) <= n + 1
  {
    var half := (numIns + 1) / 2;
    CellsIsProduct(numIns, width);
    NextLayerBound(n, numIns, half, width);
    CellsIsProduct(half, width + 1);
    assert Cells(half, width + 1) == width + 1 + Cells(half - 1, width + 1);
  }

  lemma Distribute(a: int, b: int, c: int)
    ensures (a + b) * c == a * c + b * c
  {}

  /** (a - a0) * (b - b0) is not negative, multiplied out. */
  lemma AtLeast(a: int, a0: int, b: int, b0: int)
    requires a0 <= a && b0 <= b
    ensures a * b >= a * b0 + a0 * b - a0 * b0
  {
    assert (a - a0) * (b - b0) >= 0;
    Distribute(a, -a0, b - b0);
    Distribute(b, -b0, a);
    Distribute(b, -b0, -a0);
  }

  method CopyToBuffer(n: nat, lits: array<Term>) returns (buffer: array<Term>)
    requires n <= lits.Length
    ensures fresh(buffer) && buffer.Length == n + 1 && buffer[..n] == lits[..n]
  {
    buffer := new Term[n + 1](_ => False);
    for i := 0 to n
      invariant forall j | 0 <= j < i :: buffer[j] == lits[j]
    {
      buffer[i] := lits[i];
    }
  }

  /** Between passes: `numIns` numbers of `numBits` bits fit the buffers and lead to the counter. */
  ghost predicate Passing(lits: seq<Term>, numIns: nat, numBits: nat, packed: seq<Term>) {
    && 1 <= numIns && 1 <= numBits <= |packed| <= |lits| + 1 && |packed| == Cells(numIns, numBits)
    && (numBits == 1 ==> numIns == |lits|)
    && numBits + CounterWidth(numIns) - 1 == CounterWidth(|lits|)
    && CounterBits(numBits, numIns, packed) == CounterBits(1, |lits|, lits)
  }

  lemma PassStart(lits: seq<Term>)
    requires lits != []
    ensures Passing(lits, |lits|, 1, lits)
  {
    CellsIsProduct(|lits|, 1);
  }

  lemma PassStep(lits: seq<Term>, numIns: nat, numBits: nat, packed: seq<Term>)
    requires Passing(lits, numIns, numBits, packed) && numIns > 1
    ensures Passing(lits, (numIns + 1) / 2, numBits + 1, PairSums(numBits, packed))
    ensures Cells((numIns + 1) / 2, numBits + 1) <= |lits| + 1
  {
    NextLayerFits(|lits|, numIns, numBits);
    PairSumsLength(numBits, numIns, packed);
  }

  lemma PassEnd(lits: seq<Term>, numBits: nat, packed: seq<Term>)
    requires Passing(lits, 1, numBits, packed)
    ensures numBits == |packed| == CounterWidth(|lits|) && packed == CounterBits(1, |lits|, lits)
  {
    CellsIsProduct(1, numBits);
  }

  method MkCounterCircuit(n: nat, lits: array<Term>) returns (bits: array?<Term>, outSz: nat)
    requires n <= lits.Length
    ensures n == 0 <==> bits == null
    ensures bits != null ==>
      && fresh(bits) && outSz == CounterWidth(n) <= bits.Length == n + 1
      && bits[..outSz] == CounterBits(1, n, lits[..n])
  {
    var numIns, numBits := n, 1;
    if n == 0 {
      return null, 0;
    }
    var aux1 := CopyToBuffer(n, lits);
    var aux2 := new Term[n + 1](_ => False);
    ghost var packed := lits[..n];
    PassStart(lits[..n]);
    while numIns > 1
      invariant fresh(aux1) && fresh(aux2) && aux1 != aux2 && aux1.Length == aux2.Length == n + 1
      invariant Passing(lits[..n], numIns, numBits, packed) && packed == aux1[..|packed|]
    {
      PassStep(lits[..n], numIns, numBits, packed);
      packed := PairSums(numBits, packed);
      numIns := MkAdderPairs(numBits, numIns, aux1, aux2);
      numBits := numBits + 1;
      var tmp := aux1;
      aux1 := aux2;
      aux2 := tmp;
    }
    PassEnd(lits[..n], numBits, packed);
    return aux1, numBits;
  }

  // ----- Comparator -----

  /** Bit `idx & 31` of a C `unsigned`. */
  predicate GetBit(val: nat, idx: nat) {
    (val / Pow2(idx % 32)) % 2 == 1
  }

  /** The comparator's formula, most significant bit last. */
  function LeFormula(val: seq<Term>, k: nat): Term
    requires |val| > 0
  {
    var idx := |val| - 1;
    var notVal := Not(val[idx]);
    if idx == 0 then (if GetBit(k, 0) then True else notVal)
    else
      var out := LeFormula(val[..idx], k);
      if GetBit(k, idx) then Or3(notVal, out, And(notVal, out))
      else Or3(False, False, And(notVal, out))
  }

  /** The number whose first n bits the comparator reads off `k` (bits repeat from 32 on). */
  function BitsRead(k: nat, n: nat): (v: nat)
    ensures v < Pow2(n)
  {
    if n == 0 then 0 else BitsRead(k, n - 1) + (if GetBit(k, n - 1) then Pow2(n - 1) else 0)
  }

  /** The formula says exactly "value <= the bits read off k". */
  lemma {:induction false} LeFormulaMeaning(val: seq<Term>, k: nat, m: Model)
    requires |val| > 0
    ensures Eval(LeFormula(val, k), m) <==> Value(val, m) <= BitsRead(k, |val|)
  {
    var idx := |val| - 1;
    var low, top := val[..idx], val[idx];
    assert val == low + [top];
    ValueSnoc(low, top, m);
    ValueBound(low, m);
    assert Eval(Not(top), m) == !Eval(top, m);
    if idx == 0 {
      assert low == [];
      assert BitsRead(k, 0) == 0;
    } else {
      LeFormulaMeaning(low, k, m);
      var out := LeFormula(low, k);
      assert Eval(And(Not(top), out), m) == (!Eval(top, m) && Eval(out, m));
    }
  }

  lemma QuotientUnique(d: int, q: int, r: int, q': int, r': int)
    requires q * d + r == q' * d + r' && 0 <= r < d && 0 <= r' < d
    ensures q == q'
  {
    Distribute(q, -q', d);
    if q > q' {
      AtLeast(q - q', 1, d, 0);
    } else if q < q' {
      Distribute(q', -q, d);
      AtLeast(q' - q, 1, d, 0);
    }
  }

  lemma DivModUnique(a: nat, d: nat, q: nat, r: nat)
    requires d > 0 && a == q * d + r && r < d
    ensures a % d == r
  {
    var q' := a / d;
    var r' := a % d;
    assert a == d * q' + r';
    assert d * q' == q' * d;
    QuotientUnique(d, q, r, q', r');
  }

  /** Splitting off the lowest bit of the quotient doubles the modulus. */
  lemma SplitQuotient(k: nat, p: nat)
    requires p > 0
    ensures k % (2 * p) == (if (k / p) % 2 == 1 then p else 0) + k % p
  {
    var q, r := k / p, k % p;
    assert k == p * q + r;
    var h, b := q / 2, q % 2;
    assert q == (h + h) + b;
    Distribute(h + h, b, p);
    Distribute(h, h, p);
    Distribute(p, p, h);
    if b == 0 { assert b * p == 0; } else { assert b * p == p; }
    DivModUnique(k, 2 * p, h, b * p + r);
  }

  lemma LowBit(k: nat, idx: nat)
    requires idx < 32
    ensures GetBit(k, idx) == ((k / Pow2(idx)) % 2 == 1)
  {
    assert idx % 32 == idx;
  }

  /** Up to 32 bits the comparator reads `k` modulo the width. */
  lemma {:induction false} BitsReadIsModulo(k: nat, n: nat)
    requires n <= 32
    ensures BitsRead(k, n) == k % Pow2(n)
  {
    if n > 0 {
      BitsReadIsModulo(k, n - 1);
      SplitQuotient(k, Pow2(n - 1));
      LowBit(k, n - 1);
    }
  }

  // ----- At most k -----

  /** What `assert_at_most_k` adds to the solver. */
  function AtMostAssertions(lits: seq<Term>, k: nat): seq<Term> {
    if k >= |lits| || |lits| <= 1 then []
    else [LeFormula(CounterBits(1, |lits|, lits), k)]
  }

  const MAX_COUNTED := 0x8000_0000

  /** When the asserted formula means "at most k": a literal count the code can compare. */
  predicate Countable(n: nat, k: nat) {
    k >= n || (n >= 2 && (n <= MAX_COUNTED || k % 2 == 0))
  }

  /** The counter of up to 2^31 literals fits the comparator's 32 bits; a longer one takes 33. */
  lemma CounterWidthBound(n: nat)
    requires n >= 2
    ensures n <= MAX_COUNTED ==> CounterWidth(n) <= 32
    ensures MAX_COUNTED < n <= 2 * MAX_COUNTED ==> CounterWidth(n) == 33
  {
    var w := CounterWidth(n);
    CounterWidthIsLog(n);
    PowersOfTwo();
    Pow2Monotone(31, w - 2);
    Pow2Monotone(w - 1, 31);
    Pow2Monotone(32, w - 2);
  }

  /** `BitsRead` of the counter's width, for a count that does not reach the literals. */
  lemma BitsReadOfCounter(n: nat, k: nat)
    requires n >= 2 && k < n
    ensures n <= MAX_COUNTED ==> BitsRead(k, CounterWidth(n)) == k
    ensures MAX_COUNTED < n <= 2 * MAX_COUNTED ==>
      BitsRead(k, CounterWidth(n)) == k + (if k % 2 == 1 then 2 * MAX_COUNTED else 0)
  {
    var w := CounterWidth(n);
    CounterWidthBound(n);
    if n <= MAX_COUNTED {
      CounterWidthIsLog(n);
      BitsReadIsModulo(k, w);
      ModuloSmall(k, Pow2(w));
    } else if n <= 2 * MAX_COUNTED {
      PowersOfTwo();
      BitsReadIsModulo(k, 32);
      ModuloSmall(k, Pow2(32));
      LastBitRead(k);
    }
  }

  lemma LastBitRead(k: nat)
    ensures GetBit(k, 32) == (k % 2 == 1)
    ensures BitsRead(k, 33) == BitsRead(k, 32) + (if k % 2 == 1 then Pow2(32) else 0)
  {
    LowBit(k, 0);
  }

  lemma ModuloSmall(k: nat, p: nat)
    requires k < p
    ensures k % p == k
  {}

  lemma {:induction false} Pow2Monotone(a: nat, b: nat)
    ensures a <= b ==> Pow2(a) <= Pow2(b)
  {
    if a < b { Pow2Monotone(a, b - 1); }
  }

  lemma PowersOfTwo()
    ensures Pow2(31) == MAX_COUNTED && Pow2(32) == 2 * MAX_COUNTED
  {
    assert Pow2(8) == 256;
    assert Pow2(16) == 0x1_0000;
    assert Pow2(24) == 0x100_0000;
  }

  /** The asserted formula is true exactly when at most k of the literals are. */
  lemma AtMostMeaning(lits: seq<Term>, k: nat, m: Model)
    requires |lits| < 2 * MAX_COUNTED - 1 && Countable(|lits|, k)
    ensures Holds(AtMostAssertions(lits, k), m) <==> CountTrue(lits, m) <= k
  {
    CountsAddUp(lits, m);
    if k < |lits| {
      var bits := CounterBits(1, |lits|, lits);
      CounterCounts(lits, m);
      LeFormulaMeaning(bits, k, m);
      BitsReadOfCounter(|lits|, k);
    }
  }

  /** `Countable` is exact for every count whose buffers C can size: outside it the constraint fails
      to bound some list of literals.  At 2^32 - 1 literals `n + 1` wraps to 0. */
  lemma AtMostExactCondition(n: nat, k: nat)
    requires n < 2 * MAX_COUNTED - 1
    ensures Countable(n, k) <==>
      forall lits: seq<Term>, m: Model | |lits| == n ::
        Holds(AtMostAssertions(lits, k), m) <==> CountTrue(lits, m) <= k
  {
    if Countable(n, k) {
      forall lits: seq<Term>, m: Model | |lits| == n
        ensures Holds(AtMostAssertions(lits, k), m) <==> CountTrue(lits, m) <= k
      {
        AtMostMeaning(lits, k, m);
      }
    } else {
      var lits, m: Model := seq(n, _ => True), iset{};
      AllTrue(lits, m);
      if n >= 2 {
        var bits := CounterBits(1, n, lits);
        CounterCounts(lits, m);
        LeFormulaMeaning(bits, k, m);
        BitsReadOfCounter(n, k);
      }
      assert Holds(AtMostAssertions(lits, k), m) && CountTrue(lits, m) > k;
    }
  }

  lemma {:induction false} AllTrue(ts: seq<Term>, m: Model)
    requires forall i | 0 <= i < |ts| :: ts[i] == True
    ensures CountTrue(ts, m) == |ts|
  {
    if ts != [] { AllTrue(ts[1..], m); }
  }

  method AssertLeK(s: Solver, n: nat, val: array<Term>, k: nat)
    requires 0 < n <= val.Length
    modifies s`asserted
    ensures s.asserted == old(s.asserted) + [LeFormula(val[..n], k)]
  {
    var notVal := Not(val[0]);
    var out := if GetBit(k, 0) then True else notVal;
    var idx := 1;
    while idx < n
      invariant 1 <= idx <= n
      invariant out == LeFormula(val[..idx], k)
    {
      notVal := Not(val[idx]);
      var i1, i2;
      if GetBit(k, idx) {
        i1 := notVal;
        i2 := out;
      } else {
        i1 := False;
        i2 := False;
      }
      assert val[..idx + 1][..idx] == val[..idx];
      out := Or3(i1, i2, And(notVal, out));
      idx := idx + 1;
    }
    s.Assert(out);
  }

  method AssertAtMostK(s: Solver, n: nat, lits: array<Term>, k: nat)
    requires n <= lits.Length
    modifies s`asserted
    ensures s.asserted == old(s.asserted) + AtMostAssertions(lits[..n], k)
  {
    if k >= n || n <= 1 {
      return;
    }
    var counterBits, counterBitsSz := MkCounterCircuit(n, lits);
    AssertLeK(s, counterBitsSz, counterBits, k);
  }
}
