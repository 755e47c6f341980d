/** The hitting-set solver's MaxRes step on its mutable state. */
module HsMaxSat {
  import opened Terms
  import opened MaxRes

  // ----- Choosing small disjoint sets -----

  ghost predicate PairwiseDisjoint(sets: seq<set<Term>>) {
    forall i, j | 0 <= i < j < |sets| :: sets[i] !! sets[j]
  }

  ghost function UnionOf(sets: seq<set<Term>>): set<Term> {
    if sets == [] then {} else UnionOf(sets[..|sets| - 1]) + sets[|sets| - 1]
  }

  lemma {:induction false} InUnion(sets: seq<set<Term>>, x: Term)
    ensures x in UnionOf(sets) <==> exists i :: 0 <= i < |sets| && x in sets[i]
  {
    if sets != [] { InUnion(sets[..|sets| - 1], x); }
  }

  lemma AppendDisjoint(sets: seq<set<Term>>, s: set<Term>)
    requires PairwiseDisjoint(sets) && s !! UnionOf(sets)
    ensures PairwiseDisjoint(sets + [s]) && UnionOf(sets + [s]) == UnionOf(sets) + s
  {
    assert (sets + [s])[..|sets|] == sets;
    forall i | 0 <= i < |sets| ensures sets[i] !! s {
      forall x | x in sets[i] ensures x !in s { InUnion(sets, x); }
    }
  }

  /** Length of a shortest set; Python's `min` over the lengths. */
  function MinSize(sets: seq<set<Term>>): (n: nat)
    requires sets != []
    ensures forall s | s in sets :: n <= |s|
    ensures exists s :: s in sets && n == |s|
  {
    if |sets| == 1 then
      assert sets[0] in sets;
      |sets[0]|
    else
      var rest := MinSize(sets[1..]);
      assert sets == [sets[0]] + sets[1..];
      if |sets[0]| <= rest then |sets[0]| else rest
  }

  /** `s` was chosen, or shares an element with a chosen set. */
  ghost predicate Covered(s: set<Term>, chosen: seq<set<Term>>) {
    s in chosen || !(s !! UnionOf(chosen))
  }

  ghost predicate Among(chosen: seq<set<Term>>, sets: seq<set<Term>>, lo: nat, hi: nat) {
    forall s | s in chosen :: s in sets && lo <= |s| < hi
  }

  ghost predicate Covers(chosen: seq<set<Term>>, sets: seq<set<Term>>, lo: nat, hi: nat) {
    forall s | s in sets && lo <= |s| < hi :: Covered(s, chosen)
  }

  /** A greedy choice among sets of the given sizes. */
  ghost predicate Greedy(chosen: seq<set<Term>>, sets: seq<set<Term>>, lo: nat, hi: nat) {
    PairwiseDisjoint(chosen) && Among(chosen, sets, lo, hi) && Covers(chosen, sets, lo, hi)
  }

  /** The choice while sets of size `bound` are being added: the first `i` sets have been seen. */
  ghost predicate Inserting(chosen: seq<set<Term>>, sets: seq<set<Term>>, lo: nat, bound: nat, i: nat)
    requires i <= |sets|
  {
    && PairwiseDisjoint(chosen) && Among(chosen, sets, lo, bound + 1)
    && Covers(chosen, sets, lo, bound) && Covers(chosen, sets[..i], bound, bound + 1)
  }

  lemma CoveredMore(chosen: seq<set<Term>>, c: set<Term>)
    ensures Covered(c, chosen + [c])
    ensures forall s | Covered(s, chosen) :: Covered(s, chosen + [c])
  {
    assert (chosen + [c])[..|chosen|] == chosen;
    assert (chosen + [c])[|chosen|] == c;
  }

  lemma CoversMore(chosen: seq<set<Term>>, c: set<Term>, sets: seq<set<Term>>, lo: nat, hi: nat)
    requires Covers(chosen, sets, lo, hi)
    ensures Covers(chosen + [c], sets, lo, hi)
  {
    CoveredMore(chosen, c);
  }

  lemma AmongMore(chosen: seq<set<Term>>, c: set<Term>, sets: seq<set<Term>>, lo: nat, hi: nat)
    requires Among(chosen, sets, lo, hi) && c in sets && lo <= |c| < hi
    ensures Among(chosen + [c], sets, lo, hi)
  {
    forall s | s in chosen + [c] ensures s in sets && lo <= |s| < hi { assert s in chosen || s == c; }
  }

  /** One more set is seen. */
  lemma CoversNext(chosen: seq<set<Term>>, sets: seq<set<Term>>, lo: nat, hi: nat, i: nat)
    requires i < |sets| && Covers(chosen, sets[..i], lo, hi)
    requires lo <= |sets[i]| < hi ==> Covered(sets[i], chosen)
    ensures Covers(chosen, sets[..i + 1], lo, hi)
  {
    assert sets[..i + 1] == sets[..i] + [sets[i]];
  }

  lemma InsertStep(chosen: seq<set<Term>>, sets: seq<set<Term>>, lo: nat, bound: nat, i: nat)
    requires lo <= bound && i < |sets| && Inserting(chosen, sets, lo, bound, i)
    requires |sets[i]| == bound && sets[i] !! UnionOf(chosen)
    ensures Inserting(chosen + [sets[i]], sets, lo, bound, i + 1)
  {
    var s := sets[i];
    AppendDisjoint(chosen, s);
    AmongMore(chosen, s, sets, lo, bound + 1);
    CoversMore(chosen, s, sets, lo, bound);
    CoversMore(chosen, s, sets[..i], bound, bound + 1);
    CoveredMore(chosen, s);
    CoversNext(chosen + [s], sets, bound, bound + 1, i);
  }

  lemma InsertSkip(chosen: seq<set<Term>>, sets: seq<set<Term>>, lo: nat, bound: nat, i: nat)
    requires i < |sets| && Inserting(chosen, sets, lo, bound, i)
    requires |sets[i]| == bound ==> !(sets[i] !! UnionOf(chosen))
    ensures Inserting(chosen, sets, lo, bound, i + 1)
  {
    CoversNext(chosen, sets, bound, bound + 1, i);
  }

  method Insert(bound: nat, sets: seq<set<Term>>, hs: set<Term>, result: seq<set<Term>>, ghost lo: nat)
    returns (hs': set<Term>, result': seq<set<Term>>)
    requires lo <= bound && Greedy(result, sets, lo, bound) && hs == UnionOf(result)
    ensures Greedy(result', sets, lo, bound + 1) && hs' == UnionOf(result')
  {
    hs', result' := hs, result;
    for i := 0 to |sets|
      invariant hs' == UnionOf(result') && Inserting(result', sets, lo, bound, i)
    {
      var s := sets[i];
      if |s| == bound && s !! hs' {
        AppendDisjoint(result', s);
        InsertStep(result', sets, lo, bound, i);
        result' := result' + [s];
        hs' := hs' + s;
      } else {
        InsertSkip(result', sets, lo, bound, i);
      }
    }
    assert sets[..|sets|] == sets;
  }

  /** Pairwise disjoint sets within three sizes of the least, and as many as can be added. */
  ghost predicate SmallDisjoint(chosen: seq<set<Term>>, sets: seq<set<Term>>) {
    sets != [] && Greedy(chosen, sets, MinSize(sets), MinSize(sets) + 3)
  }

  method GetSmallDisjointSets(sets: seq<set<Term>>) returns (result: seq<set<Term>>)
    requires sets != []
    ensures SmallDisjoint(result, sets)
  {
    var hs: set<Term> := {};
    result := [];
    var minSize := MinSize(sets);
    for sz := minSize to minSize + 3
      invariant Greedy(result, sets, minSize, sz) && hs == UnionOf(result)
    {
      hs, result := Insert(sz, sets, hs, result, minSize);
    }
  }

  /** Some order of the elements of a set, as `list` gives. */
  method ListOf(s: set<Term>) returns (ts: seq<Term>)
    ensures Distinct(ts) && Members(ts) == s
  {
    ts := [];
    var todo := s;
    while todo != {}
      invariant todo <= s && Distinct(ts) && Members(ts) == s - todo
    {
      var t :| t in todo;
      assert t !in Members(ts);
      assert Members(ts + [t]) == Members(ts) + {t};
      ts := ts + [t];
      todo := todo - {t};
    }
  }

  // ----- The solver object -----

  /** What a step changes of the solver object. */
  datatype Search = Search(theory: Theory, offset: int, lo: int, Ks: seq<set<Term>>, Cs: seq<set<Term>>,
                           smallSetSize: int, failures: int, corrSetEnabled: bool)

  class HsMaxSat {
    var asserted: seq<Term>
    var counter: nat
    var formulas: set<Term>
    var offset: int
    var lo: int
    var Ks: seq<set<Term>>
    var Cs: seq<set<Term>>
    var smallSetSize: int
    const smallSetThreshold: int := 1
    var numMaxResFailures: int
    var corrSetEnabled: bool

    constructor (soft: set<Term>, asserted: seq<Term>, counter: nat)
      ensures CurrentTheory() == Theory(asserted, soft, counter) && offset == 0 && lo == 0
      ensures Ks == [] && Cs == [] && smallSetSize == 6 && numMaxResFailures == 0 && corrSetEnabled
    {
      this.asserted, this.counter, formulas := asserted, counter, soft;
      offset, lo, Ks, Cs := 0, 0, [], [];
      smallSetSize, numMaxResFailures, corrSetEnabled := 6, 0, true;
    }

    ghost function CurrentTheory(): Theory
      reads this`asserted, this`formulas, this`counter
    {
      Theory(asserted, formulas, counter)
    }

    ghost function View(): Search
      reads this
    {
      Search(CurrentTheory(), offset, lo, Ks, Cs, smallSetSize, numMaxResFailures, corrSetEnabled)
    }

    /** Cores and correction sets consist of current soft formulas. */
    ghost predicate Valid()
      reads this
    {
      && Scoped(CurrentTheory())
      && (forall k | k in Ks :: k <= formulas)
      && (forall c | c in Cs :: c <= formulas)
    }

    method AddDef(fml: Term) returns (name: Term)
      modifies this`asserted, this`counter
      ensures name == Var(old(counter)) && counter == old(counter) + 1
      ensures asserted == old(asserted) + [Iff(name, fml)]
    {
      name := Var(counter);
      counter := counter + 1;
      asserted := asserted + [Iff(name, fml)];
    }

    method RelaxCoreInPlace(core: set<Term>) returns (ghost list: seq<Term>)
      modifies this`asserted, this`counter, this`formulas
      ensures Distinct(list) && Members(list) == core
      ensures CurrentTheory() == RelaxCore(old(CurrentTheory()), list)
    {
      var members := ListOf(core);
      list := members;
      if |members| == 0 {
        return;
      }
      var prefix := True;
      ghost var target := RelaxCore(CurrentTheory(), members);
      formulas := formulas - core;
      var i := 0;
      while i < |members| - 1
        invariant 0 <= i <= |members| - 1
        invariant Pending(target, CurrentTheory(), RelaxDefs(members[i..], prefix, counter))
      {
        assert members[i..][1..] == members[i + 1..];
        ghost var before, rest := CurrentTheory(), RelaxDefs(members[i..], prefix, counter);
        ghost var conjunction := And(members[i], prefix);
        prefix := AddDef(And(members[i], prefix));
        var name := AddDef(Or(prefix, members[i + 1]));
        formulas := formulas + {name};
        PendingStep(target, before, CurrentTheory(), rest, RelaxDefs(members[i + 1..], prefix, counter),
                    [Iff(prefix, conjunction), Iff(name, Or(prefix, members[i + 1]))], name);
        i := i + 1;
      }
    }

    method RestrictCsInPlace(cs: set<Term>) returns (ghost list: seq<Term>)
      modifies this`asserted, this`counter, this`formulas
      ensures Distinct(list) && Members(list) == cs
      ensures CurrentTheory() == RestrictOne(old(CurrentTheory()), list)
    {
      var members := ListOf(cs);
      list := members;
      if |members| != 0 {
        var prefix := False;
        ghost var target := RestrictCs(CurrentTheory(), members);
        formulas := formulas - cs;
        var i := 0;
        while i < |members| - 1
          invariant 0 <= i <= |members| - 1
          invariant Pending(target, CurrentTheory(), RestrictDefs(members[i..], prefix, counter))
        {
          assert members[i..][1..] == members[i + 1..];
          ghost var before, rest := CurrentTheory(), RestrictDefs(members[i..], prefix, counter);
          ghost var disjunction := Or(members[i], prefix);
          prefix := AddDef(Or(members[i], prefix));
          var name := AddDef(And(prefix, members[i + 1]));
          formulas := formulas + {name};
          PendingStep(target, before, CurrentTheory(), rest, RestrictDefs(members[i + 1..], prefix, counter),
                      [Iff(prefix, disjunction), Iff(name, And(prefix, members[i + 1]))], name);
          i := i + 1;
        }
      }
      asserted := asserted + [AnyOf(members)];
    }

    method ReinitSoft(numCoresRelaxed: nat)
      modifies this
      ensures View() == old(View()).(offset := old(offset) + numCoresRelaxed, lo := old(lo) - numCoresRelaxed,
                                     Ks := [], Cs := [])
    {
      offset := offset + numCoresRelaxed;
      Ks := [];
      Cs := [];
      lo := lo - numCoresRelaxed;
    }

    predicate HasManySmallSets(sets: seq<set<Term>>): (r: bool)
      reads this`smallSetSize
      ensures r <==> HasSmall(sets, smallSetSize)
    {
      CountSmallPositive(sets, smallSetSize);
      smallSetThreshold <= CountSmall(sets, smallSetSize)
    }

    /** The branch that relaxes cores. */
    predicate RelaxGuard()
      reads this
    {
      HasManySmallSets(Ks) || (!corrSetEnabled && !HasManySmallSets(Cs) && numMaxResFailures > 0)
    }

    /** One core, and what its size says about small sets. */
    method RelaxNext(core: set<Term>) returns (ghost list: seq<Term>)
      modifies this
      ensures Distinct(list) && Members(list) == core
      ensures View() == old(View()).(theory := RelaxCore(old(CurrentTheory()), list),
                                     smallSetSize := Max(4, Min(old(smallSetSize), |core| - 2)))
    {
      smallSetSize := Max(4, Min(smallSetSize, |core| - 2));
      list := RelaxCoreInPlace(core);
    }

    method RelaxCores(cores: seq<set<Term>>) returns (ghost lists: seq<seq<Term>>)
      requires PairwiseDisjoint(cores) && forall c | c in cores :: c <= formulas
      modifies this
      ensures Listing(old(CurrentTheory()), lists, cores, cores)
      ensures View() == RelaxedSoFar(old(View()), lists, cores)
    {
      lists := [];
      ghost var before := View();
      for i := 0 to |cores|
        invariant Enumerate(lists, cores[..i])
        invariant View() == RelaxedSoFar(before, lists, cores[..i])
      {
        ghost var list := RelaxNext(cores[i]);
        RelaxedNext(before, lists, cores, i, list);
        EnumerateNext(lists, cores, i, list);
        lists := lists + [list];
      }
      assert cores[..|cores|] == cores;
      ListingOf(before.theory, lists, cores);
    }

    method RestrictSets(cs: seq<set<Term>>) returns (ghost lists: seq<seq<Term>>)
      requires PairwiseDisjoint(cs) && forall c | c in cs :: c <= formulas
      modifies this
      ensures Listing(old(CurrentTheory()), lists, cs, cs)
      ensures View() == old(View()).(theory := RestrictAll(old(CurrentTheory()), lists))
    {
      lists := [];
      for i := 0 to |cs|
        invariant Enumerate(lists, cs[..i])
        invariant View() == old(View()).(theory := RestrictAll(old(CurrentTheory()), lists))
      {
        var list := RestrictCsInPlace(cs[i]);
        RestrictAllSnoc(old(CurrentTheory()), lists, list);
        EnumerateNext(lists, cs, i, list);
        lists := lists + [list];
      }
      assert cs[..|cs|] == cs;
      ListingOf(old(CurrentTheory()), lists, cs);
    }

    /** Relaxes the cores and starts over with what is left. */
    method RelaxAndReset(cores: seq<set<Term>>) returns (ghost lists: seq<seq<Term>>)
      requires PairwiseDisjoint(cores) && forall c | c in cores :: c <= formulas
      modifies this
      ensures Listing(old(CurrentTheory()), lists, cores, cores)
      ensures View() == AfterRelaxing(old(View()), cores, lists)
    {
      numMaxResFailures := 0;
      lists := RelaxCores(cores);
      ReinitSoft(|cores|);
      corrSetEnabled := true;
    }

    method RelaxBranch() returns (ghost cores: seq<set<Term>>, ghost lists: seq<seq<Term>>)
      requires Valid() && Ks != []
      modifies this
      ensures Listing(old(CurrentTheory()), lists, cores, old(Ks)) && SmallDisjoint(cores, old(Ks))
      ensures View() == AfterRelaxing(old(View()), cores, lists)
    {
      var chosen := GetSmallDisjointSets(Ks);
      cores := chosen;
      lists := RelaxAndReset(chosen);
    }

    method RestrictBranch() returns (ghost cs: seq<set<Term>>, ghost lists: seq<seq<Term>>)
      requires Valid() && Cs != []
      modifies this
      ensures Listing(old(CurrentTheory()), lists, cs, old(Cs)) && SmallDisjoint(cs, old(Cs))
      ensures View() == AfterRestricting(old(View()), lists)
    {
      numMaxResFailures := 0;
      var chosen := GetSmallDisjointSets(Cs);
      cs := chosen;
      lists := RestrictSets(chosen);
      ReinitSoft(0);
      corrSetEnabled := false;
    }

    /** The third branch: more failures make larger sets count as small. */
    method CountFailure()
      modifies this
      ensures View() == AfterFailure(old(View()))
    {
      numMaxResFailures := numMaxResFailures + 1;
      if numMaxResFailures > 3 {
        numMaxResFailures := 0;
        smallSetSize := smallSetSize + 100;
      }
    }

    /** One MaxRes step.  `raised`: Python's `min` of an empty list of cores.  Cores are relaxed if one
        is small, or after failures without small correction sets while those are not allowed;
        otherwise correction sets are restricted if they are allowed and one is small; otherwise the
        failure is counted.  Whatever the branch, `lo + offset` stays, and so does offset + cost for
        every model that falsifies each core. */
    method MaxResStep() returns (raised: bool, ghost chosen: seq<set<Term>>, ghost lists: seq<seq<Term>>)
      requires Valid()
      modifies this
      ensures Valid() && lo + offset == old(lo + offset)
      ensures CostKept(old(CurrentTheory()), old(offset), CurrentTheory(), offset, old(Ks))
      ensures Relaxes(old(View())) && old(Ks) != [] ==>
        && Listing(old(CurrentTheory()), lists, chosen, old(Ks)) && SmallDisjoint(chosen, old(Ks))
        && Relaxed(old(View()), View(), chosen, lists)
        && (RealCoreSets(old(CurrentTheory()), old(Ks)) ==>
              LeastCostMoves(old(CurrentTheory()), CurrentTheory(), |chosen|))
      ensures Restricts(old(View())) ==>
        && Listing(old(CurrentTheory()), lists, chosen, old(Cs)) && SmallDisjoint(chosen, old(Cs))
        && Restricted(old(View()), View(), lists)
        && SmallLeastCostStays(old(CurrentTheory()), CurrentTheory(), chosen)
      ensures raised <==> Relaxes(old(View())) && old(Ks) == []
      ensures raised ==> View() == old(View()).(failures := 0)
      ensures !Relaxes(old(View())) && !Restricts(old(View())) ==> Skipped(old(View()), View())
    {
      raised, chosen, lists := false, [], [];
      ghost var before := View();
      if RelaxGuard() {
        if Ks == [] {
          numMaxResFailures := 0;
          raised := true;
        } else {
          chosen, lists := RelaxBranch();
          SmallSetSizeAfterIs(before.smallSetSize, chosen);
          RelaxStepCost(before.theory, before.offset, lists, chosen, before.Ks);
        }
      } else if corrSetEnabled && HasManySmallSets(Cs) {
        chosen, lists := RestrictBranch();
        RestrictStepCost(before.theory, before.offset, lists, chosen, before.Cs, before.Ks);
      } else {
        CountFailure();
      }
    }
  }

  // ----- What each branch is for, and what it leaves -----

  /** Some set has at most `size` members. */
  ghost predicate HasSmall(sets: seq<set<Term>>, size: int) {
    exists s :: s in sets && |s| <= size
  }

  ghost predicate Relaxes(v: Search) {
    || HasSmall(v.Ks, v.smallSetSize)
    || (!v.corrSetEnabled && !HasSmall(v.Cs, v.smallSetSize) && v.failures > 0)
  }

  ghost predicate Restricts(v: Search) {
    !Relaxes(v) && v.corrSetEnabled && HasSmall(v.Cs, v.smallSetSize)
  }

  /** What counts as small shrinks to the smallest relaxed core less two, but not below 4. */
  ghost predicate SmallSetSizeIs(size: int, size': int, cores: seq<set<Term>>) {
    if cores == [] then size' == size
    else
      && size' >= 4
      && (size' > 4 ==> size' <= size && forall c | c in cores :: size' <= |c| - 2)
      && (size' == 4 || size' == size || exists c :: c in cores && size' == |c| - 2)
  }

  ghost predicate Relaxed(v: Search, v': Search, cores: seq<set<Term>>, lists: seq<seq<Term>>) {
    && v'.theory == RelaxAll(v.theory, lists) && v'.Ks == [] && v'.Cs == []
    && v'.offset == v.offset + |cores| && v'.lo == v.lo - |cores|
    && SmallSetSizeIs(v.smallSetSize, v'.smallSetSize, cores) && v'.failures == 0 && v'.corrSetEnabled
  }

  ghost predicate Restricted(v: Search, v': Search, lists: seq<seq<Term>>) {
    && v'.theory == RestrictAll(v.theory, lists) && v'.Ks == [] && v'.Cs == []
    && v'.offset == v.offset && v'.lo == v.lo
    && v'.smallSetSize == v.smallSetSize && v'.failures == 0 && !v'.corrSetEnabled
  }

  /** Nothing but the count of failures changes, and after three of them what counts as small. */
  ghost predicate Skipped(v: Search, v': Search) {
    && v'.theory == v.theory && v'.Ks == v.Ks && v'.Cs == v.Cs
    && v'.offset == v.offset && v'.lo == v.lo && v'.corrSetEnabled == v.corrSetEnabled
    && (if v.failures < 3 then v'.failures == v.failures + 1 && v'.smallSetSize == v.smallSetSize
        else v'.failures == 0 && v'.smallSetSize == v.smallSetSize + 100)
  }

  lemma {:induction false} CountSmallPositive(sets: seq<set<Term>>, size: int)
    ensures CountSmall(sets, size) >= 1 <==> HasSmall(sets, size)
  {
    if sets != [] {
      CountSmallPositive(sets[1..], size);
      assert sets == [sets[0]] + sets[1..];
    }
  }

  lemma {:induction false} SmallSetSizeAfterIs(size: int, cores: seq<set<Term>>)
    ensures SmallSetSizeIs(size, SmallSetSizeAfter(size, cores), cores)
  {
    if cores != [] {
      var n := |cores| - 1;
      SmallSetSizeAfterIs(size, cores[..n]);
      assert cores == cores[..n] + [cores[n]];
    }
  }

  // ----- The three branches as functions -----

  function RelaxedSoFar(v: Search, lists: seq<seq<Term>>, cores: seq<set<Term>>): Search {
    v.(theory := RelaxAll(v.theory, lists), smallSetSize := SmallSetSizeAfter(v.smallSetSize, cores))
  }

  lemma RelaxedNext(v: Search, lists: seq<seq<Term>>, cores: seq<set<Term>>, i: nat, list: seq<Term>)
    requires i < |cores|
    ensures
      var w := RelaxedSoFar(v, lists, cores[..i]);
      RelaxedSoFar(v, lists + [list], cores[..i + 1])
        == w.(theory := RelaxCore(w.theory, list), smallSetSize := Max(4, Min(w.smallSetSize, |cores[i]| - 2)))
  {
    SmallSetSizeNext(v.smallSetSize, cores, i);
    RelaxAllSnoc(v.theory, lists, list);
  }

  /** Cores relaxed: their number moves from lo to the offset; cores and sets are forgotten, and
      correction sets are allowed again. */
  function AfterRelaxing(v: Search, cores: seq<set<Term>>, lists: seq<seq<Term>>): Search {
    Search(RelaxAll(v.theory, lists), v.offset + |cores|, v.lo - |cores|, [], [],
           SmallSetSizeAfter(v.smallSetSize, cores), 0, true)
  }

  /** Correction sets restricted: bounds stay, and they are not allowed next time. */
  function AfterRestricting(v: Search, lists: seq<seq<Term>>): Search {
    v.(theory := RestrictAll(v.theory, lists), Ks := [], Cs := [], failures := 0, corrSetEnabled := false)
  }

  /** Nothing done: the fourth failure in a row raises the size that counts as small. */
  function AfterFailure(v: Search): Search {
    if v.failures >= 3 then v.(failures := 0, smallSetSize := v.smallSetSize + 100)
    else v.(failures := v.failures + 1)
  }

  function Max(a: int, b: int): int { if a >= b then a else b }

  function Min(a: int, b: int): int { if a <= b then a else b }

  function CountSmall(sets: seq<set<Term>>, size: int): nat {
    if sets == [] then 0 else (if |sets[0]| <= size then 1 else 0) + CountSmall(sets[1..], size)
  }

  /** Each relaxed core in turn shrinks what counts as small, but not below 4. */
  function SmallSetSizeAfter(size: int, cores: seq<set<Term>>): (r: int)
    ensures cores != [] ==> r >= 4
    ensures forall i | 0 <= i < |cores| :: r <= Max(4, |cores[i]| - 2)
    ensures r <= Max(4, size)
  {
    if cores == [] then size
    else
      var n := |cores| - 1;
      Max(4, Min(SmallSetSizeAfter(size, cores[..n]), |cores[n]| - 2))
  }

  /** `lists` enumerate `chosen`, which are pairwise disjoint sets of `from` and of soft formulas. */
  ghost predicate Listing(t: Theory, lists: seq<seq<Term>>, chosen: seq<set<Term>>, from: seq<set<Term>>) {
    && DisjointLists(t, lists) && |lists| == |chosen|
    && (forall j | 0 <= j < |lists| :: Members(lists[j]) == chosen[j])
    && (forall c | c in chosen :: c in from)
  }

  lemma SmallSetSizeNext(size: int, cores: seq<set<Term>>, i: nat)
    requires i < |cores|
    ensures SmallSetSizeAfter(size, cores[..i + 1])
         == Max(4, Min(SmallSetSizeAfter(size, cores[..i]), |cores[i]| - 2))
  {
    assert cores[..i + 1][..i] == cores[..i];
  }

  ghost predicate Enumerate(lists: seq<seq<Term>>, sets: seq<set<Term>>) {
    |lists| == |sets| && forall j | 0 <= j < |lists| :: Distinct(lists[j]) && Members(lists[j]) == sets[j]
  }

  lemma EnumerateNext(lists: seq<seq<Term>>, sets: seq<set<Term>>, i: nat, list: seq<Term>)
    requires i < |sets| && Enumerate(lists, sets[..i]) && Distinct(list) && Members(list) == sets[i]
    ensures Enumerate(lists + [list], sets[..i + 1])
  {}

  lemma ListingOf(t: Theory, lists: seq<seq<Term>>, chosen: seq<set<Term>>)
    requires PairwiseDisjoint(chosen) && (forall c | c in chosen :: c <= t.formulas) && Enumerate(lists, chosen)
    ensures Listing(t, lists, chosen, chosen)
  {
    forall i | 0 <= i < |lists| ensures Lists(t, lists[i]) { assert chosen[i] in chosen; }
  }

  /** Adding the remaining definitions reaches the target. */
  ghost predicate Pending(target: Theory, t: Theory, rest: Rewriting) {
    && target.asserted == t.asserted + rest.defs
    && target.formulas == t.formulas + Members(rest.names)
    && target.next == rest.next
  }

  lemma PendingStep(target: Theory, t: Theory, t': Theory, rest: Rewriting, rest': Rewriting,
                    added: seq<Term>, name: Term)
    requires Pending(target, t, rest) && rest.next == rest'.next
    requires t'.asserted == t.asserted + added && rest.defs == added + rest'.defs
    requires rest.names == [name] + rest'.names && t'.formulas == t.formulas + {name}
    ensures Pending(target, t', rest')
  {
    assert Members(rest.names) == {name} + Members(rest'.names);
  }

  lemma {:induction false} RelaxAllSnoc(t: Theory, lists: seq<seq<Term>>, list: seq<Term>)
    ensures RelaxAll(t, lists + [list]) == RelaxCore(RelaxAll(t, lists), list)
    decreases |lists|
  {
    if lists != [] {
      assert (lists + [list])[1..] == lists[1..] + [list];
      RelaxAllSnoc(RelaxCore(t, lists[0]), lists[1..], list);
    } else {
      assert [list][1..] == [];
    }
  }

  lemma {:induction false} RestrictAllSnoc(t: Theory, lists: seq<seq<Term>>, list: seq<Term>)
    ensures RestrictAll(t, lists + [list]) == RestrictOne(RestrictAll(t, lists), list)
    decreases |lists|
  {
    if lists != [] {
      assert (lists + [list])[1..] == lists[1..] + [list];
      RestrictAllSnoc(RestrictOne(t, lists[0]), lists[1..], list);
    } else {
      assert [list][1..] == [];
    }
  }

  ghost predicate FalsifiesAll(ks: seq<set<Term>>, m: Model) {
    forall k | k in ks :: FalseOnes(k, m) != {}
  }

  /** What a step owes to every model that falsifies each known core: offset + cost stays. */
  ghost predicate CostKept(t: Theory, offset: int, t': Theory, offset': int, ks: seq<set<Term>>) {
    forall m | Holds(t'.asserted, m) && FalsifiesAll(ks, m) ::
      && Holds(t.asserted, m)
      && offset' + Falsified(t'.formulas, m) == offset + Falsified(t.formulas, m)
  }

  /** The known cores are cores: every model of the assertions falsifies a member of each. */
  ghost predicate RealCoreSets(t: Theory, ks: seq<set<Term>>) {
    forall m | Holds(t.asserted, m) :: FalsifiesAll(ks, m)
  }

  /** The least cost falls by `n`, neither more nor less. */
  ghost predicate LeastCostMoves(t: Theory, t': Theory, n: nat) {
    forall c {:trigger LeastCost(t, c)} :: LeastCost(t, c) <==> LeastCost(t', c - n)
  }

  /** A least cost below the size of every chosen set stays. */
  ghost predicate SmallLeastCostStays(t: Theory, t': Theory, chosen: seq<set<Term>>) {
    forall c | (forall s | s in chosen :: c < |s|) :: LeastCost(t, c) <==> LeastCost(t', c)
  }

  lemma RelaxStepOptimum(t: Theory, lists: seq<seq<Term>>, cores: seq<set<Term>>, ks: seq<set<Term>>)
    requires Scoped(t) && Listing(t, lists, cores, ks) && RealCoreSets(t, ks)
    ensures LeastCostMoves(t, RelaxAll(t, lists), |cores|)
  {
    forall m, i | 0 <= i < |lists| && Holds(t.asserted, m) ensures CountFalse(lists[i], m) > 0 {
      assert Lists(t, lists[i]) && cores[i] in ks && FalseOnes(cores[i], m) != {};
      FalsifiedListing(lists[i], m);
    }
    forall c ensures LeastCost(t, c) <==> LeastCost(RelaxAll(t, lists), c - |cores|) {
      RelaxAllOptimum(t, lists, c);
    }
  }

  lemma {:induction false} ListedSize(ts: seq<Term>)
    requires Distinct(ts)
    ensures |Members(ts)| == |ts|
  {
    if ts != [] {
      ListedSize(ts[1..]);
      assert ts == [ts[0]] + ts[1..];
      assert Members(ts) == {ts[0]} + Members(ts[1..]) && ts[0] !in ts[1..];
    }
  }

  lemma RestrictStepOptimum(t: Theory, lists: seq<seq<Term>>, chosen: seq<set<Term>>, cs: seq<set<Term>>)
    requires Scoped(t) && Listing(t, lists, chosen, cs)
    ensures SmallLeastCostStays(t, RestrictAll(t, lists), chosen)
  {
    forall c | forall s | s in chosen :: c < |s|
      ensures LeastCost(t, c) <==> LeastCost(RestrictAll(t, lists), c)
    {
      forall i | 0 <= i < |lists| ensures c < |lists[i]| {
        assert Lists(t, lists[i]) && chosen[i] in chosen;
        ListedSize(lists[i]);
      }
      RestrictAllOptimum(t, lists, c);
    }
  }

  lemma RelaxStepCost(t: Theory, offset: int, lists: seq<seq<Term>>, cores: seq<set<Term>>, ks: seq<set<Term>>)
    requires Scoped(t) && Listing(t, lists, cores, ks)
    ensures Scoped(RelaxAll(t, lists))
    ensures CostKept(t, offset, RelaxAll(t, lists), offset + |lists|, ks)
    ensures RealCoreSets(t, ks) ==> LeastCostMoves(t, RelaxAll(t, lists), |cores|)
  {
    if RealCoreSets(t, ks) { RelaxStepOptimum(t, lists, cores, ks); }
    RelaxAllScoped(t, lists);
    forall m | Holds(RelaxAll(t, lists).asserted, m) && FalsifiesAll(ks, m)
      ensures Holds(t.asserted, m)
      ensures |lists| + Falsified(RelaxAll(t, lists).formulas, m) == Falsified(t.formulas, m)
    {
      forall i | 0 <= i < |lists| ensures CountFalse(lists[i], m) > 0 {
        assert Lists(t, lists[i]) && cores[i] in ks && FalseOnes(cores[i], m) != {};
        FalsifiedListing(lists[i], m);
      }
      RelaxAllCost(t, lists, m);
    }
  }

  lemma RestrictStepCost(t: Theory, offset: int, lists: seq<seq<Term>>, chosen: seq<set<Term>>,
                         cs: seq<set<Term>>, ks: seq<set<Term>>)
    requires Scoped(t) && Listing(t, lists, chosen, cs)
    ensures Scoped(RestrictAll(t, lists))
    ensures CostKept(t, offset, RestrictAll(t, lists), offset, ks)
    ensures SmallLeastCostStays(t, RestrictAll(t, lists), chosen)
  {
    RestrictStepOptimum(t, lists, chosen, cs);
    RestrictAllScoped(t, lists);
    forall m | Holds(RestrictAll(t, lists).asserted, m)
      ensures Holds(t.asserted, m) && Falsified(RestrictAll(t, lists).formulas, m) == Falsified(t.formulas, m)
    {
      RestrictAllCost(t, lists, m);
    }
  }
}
