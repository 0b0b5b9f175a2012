/** Day 11, part 2: the same monkeys without the division by 3, for 10000
    rounds. To keep the worry levels small, each level passed on is reduced
    modulo the product of all test divisors; the test itself looks at the
    unreduced level. The reduction changes no test, so the inspection
    counts are those of the simulation on unbounded integers. */
module Day11Part2 {
  import opened Common
  import opened Day11Part1

  function Divisors(rules: seq<Rule>): (ds: seq<int>)
    ensures |ds| == |rules| && forall k | 0 <= k < |rules| :: ds[k] == rules[k].divisor
  {
    seq(|rules|, k requires 0 <= k < |rules| => rules[k].divisor)
  }

  /** `common_multiplicator`: the product of the test divisors. */
  function CommonMultiple(rules: seq<Rule>): int
  {
    Product(Divisors(rules))
  }

  /** No factor is 0, so neither is the product. */
  lemma {:induction false} ProductNonZero(s: seq<int>)
    requires forall k | 0 <= k < |s| :: s[k] != 0
    ensures Product(s) != 0
  {
    if s != [] {
      ProductNonZero(s[1..]);
    }
  }

  /** Every factor divides the product. */
  lemma {:induction false} FactorDividesProduct(s: seq<int>, i: nat)
    requires i < |s| && s[i] != 0
    ensures Product(s) % s[i] == 0
  {
    if i == 0 {
      RemainderUnique(Product(s), s[0], Product(s[1..]), 0);
    } else {
      FactorDividesProduct(s[1..], i - 1);
      var q := Product(s[1..]) / s[i];
      assert Product(s[1..]) == s[i] * q;
      assert Product(s) == s[i] * (s[0] * q);
      RemainderUnique(Product(s), s[i], s[0] * q, 0);
    }
  }

  /** The common multiple is not 0 and every divisor divides it. */
  lemma CommonMultipleDivisible(rules: seq<Rule>, ms: seq<Monkey>)
    requires Valid(rules, ms)
    ensures CommonMultiple(rules) != 0
    ensures forall i | 0 <= i < |rules| :: CommonMultiple(rules) % rules[i].divisor == 0
  {
    ProductNonZero(Divisors(rules));
    forall i | 0 <= i < |rules|
      ensures CommonMultiple(rules) % rules[i].divisor == 0
    {
      FactorDividesProduct(Divisors(rules), i);
    }
  }

  // ---------------------------------------------------------------------------
  // Congruence modulo the common multiple.

  predicate Congruent(a: int, b: int, m: int)
    requires m != 0
  {
    (a - b) % m == 0
  }

  /** Congruent values differ by a multiple of the modulus. */
  lemma CongruentMultiple(a: int, b: int, m: int)
    requires m != 0
    ensures Congruent(a, b, m) <==> a - b == m * ((a - b) / m)
  {
  }

  lemma MultipleCongruent(a: int, b: int, m: int, t: int)
    requires m != 0 && a - b == m * t
    ensures Congruent(a, b, m)
  {
    RemainderUnique(a - b, m, t, 0);
  }

  lemma CongruentTransitive(a: int, b: int, c: int, m: int)
    requires m != 0 && Congruent(a, b, m) && Congruent(b, c, m)
    ensures Congruent(a, c, m)
  {
    CongruentMultiple(a, b, m);
    CongruentMultiple(b, c, m);
    MultipleCongruent(a, c, m, (a - b) / m + (b - c) / m);
  }

  /** The reduced level is congruent to the level. */
  lemma ReducedCongruent(w: int, m: int)
    requires m != 0
    ensures Congruent(RustRem(w, m), w, m)
  {
    var q := w / m;
    assert w == m * q + w % m;
    if RustRem(w, m) == w % m {
      MultipleCongruent(RustRem(w, m), w, m, -q);
    } else {
      assert RustRem(w, m) == w % m - Abs(m);
      var s := if m > 0 then -1 else 1;
      assert Abs(m) == -s * m;
      MultipleCongruent(RustRem(w, m), w, m, -q + s);
    }
  }

  /** Products of values that differ by multiples of `m` differ by a
      multiple of `m`. */
  lemma ProductDifference(la: int, ra: int, lb: int, rb: int, m: int, tl: int, tr: int)
    requires la - lb == m * tl && ra - rb == m * tr
    ensures la * ra - lb * rb == m * (la * tr + tl * rb)
  {
    calc {
      la * ra - lb * rb;
      la * (ra - rb) + (la - lb) * rb;
      la * (m * tr) + (m * tl) * rb;
      m * (la * tr + tl * rb);
    }
  }

  /** An operand resolves to values that differ by `t` multiples of `m`
      when it is the item, and are equal otherwise. */
  lemma ResolveDifference(operand: Operand, a: int, b: int, m: int, t: int)
    requires a - b == m * t
    ensures Resolve(operand, a) - Resolve(operand, b) == m * (if operand.Old? then t else 0)
  {
  }

  /** The monkeys' operations respect congruence: congruent items give
      congruent worry levels. */
  lemma WorryCongruent(a: int, b: int, rule: Rule, m: int)
    requires m != 0 && Congruent(a, b, m)
    ensures Congruent(Worry(a, rule), Worry(b, rule), m)
  {
    var t := (a - b) / m;
    CongruentMultiple(a, b, m);
    var la, ra := Resolve(rule.left, a), Resolve(rule.right, a);
    var lb, rb := Resolve(rule.left, b), Resolve(rule.right, b);
    var tl := if rule.left.Old? then t else 0;
    var tr := if rule.right.Old? then t else 0;
    ResolveDifference(rule.left, a, b, m, t);
    ResolveDifference(rule.right, a, b, m, t);
    if rule.operator == Add {
      assert (la + ra) - (lb + rb) == m * (tl + tr);
      MultipleCongruent(la + ra, lb + rb, m, tl + tr);
    } else {
      ProductDifference(la, ra, lb, rb, m, tl, tr);
      MultipleCongruent(la * ra, lb * rb, m, la * tr + tl * rb);
    }
  }

  /** A divisor of the modulus gives the same test on congruent levels. */
  lemma CongruentDivisibility(a: int, b: int, m: int, d: int)
    requires m != 0 && d != 0 && m % d == 0 && Congruent(a, b, m)
    ensures a % d == 0 <==> b % d == 0
  {
    CongruentMultiple(a, b, m);
    var t := (a - b) / m;
    var c := m / d;
    assert m == d * c;
    assert a == b + d * (c * t);
    assert b == d * (b / d) + b % d;
    assert a == d * (b / d + c * t) + b % d;
    RemainderUnique(a, d, b / d + c * t, b % d);
  }

  // ---------------------------------------------------------------------------
  // The reduced simulation follows the unbounded one.

  predicate ItemsCongruent(xs: seq<int>, ys: seq<int>, m: int)
    requires m != 0
  {
    |xs| == |ys| && forall j | 0 <= j < |xs| :: Congruent(xs[j], ys[j], m)
  }

  /** Same counts, and items congruent position by position. */
  predicate Related(ms: seq<Monkey>, ns: seq<Monkey>, m: int)
    requires m != 0
  {
    && |ms| == |ns|
    && forall i | 0 <= i < |ms| ::
         ms[i].inspections == ns[i].inspections && ItemsCongruent(ms[i].items, ns[i].items, m)
  }

  predicate DividesAll(rules: seq<Rule>, m: int)
  {
    forall i | 0 <= i < |rules| :: rules[i].divisor != 0 && m % rules[i].divisor == 0
  }

  lemma RelatedReflexive(ms: seq<Monkey>, m: int)
    requires m != 0
    ensures Related(ms, ms, m)
  {
    forall i, j | 0 <= i < |ms| && 0 <= j < |ms[i].items|
      ensures Congruent(ms[i].items[j], ms[i].items[j], m)
    {
      MultipleCongruent(ms[i].items[j], ms[i].items[j], m, 0);
    }
  }

  /** A reduced throw and an unbounded throw from related states go to the
      same monkey with congruent levels. */
  lemma ThrowRelated(rules: seq<Rule>, ms: seq<Monkey>, ns: seq<Monkey>, i: nat, m: int)
    requires m != 0 && Valid(rules, ms) && Valid(rules, ns) && DividesAll(rules, m)
    requires Related(ms, ns, m) && i < |ms| && ms[i].items != []
    ensures Related(Throw(rules, ms, i, Reduce(m)), Throw(rules, ns, i, Unbounded), m)
  {
    var rule := rules[i];
    var wa, wb := Worry(ms[i].items[0], rule), Worry(ns[i].items[0], rule);
    WorryCongruent(ms[i].items[0], ns[i].items[0], rule, m);
    CongruentDivisibility(wa, wb, m, rule.divisor);
    var to := Target(rule, wa);
    assert Target(rule, wb) == to;
    ReducedCongruent(wa, m);
    CongruentTransitive(RustRem(wa, m), wa, wb, m);
    ThrowMoves(rules, ms, i, Reduce(m));
    ThrowMoves(rules, ns, i, Unbounded);
    var r, s := Throw(rules, ms, i, Reduce(m)), Throw(rules, ns, i, Unbounded);
    forall k | 0 <= k < |r|
      ensures r[k].inspections == s[k].inspections && ItemsCongruent(r[k].items, s[k].items, m)
    {
      if k == i {
        assert ItemsCongruent(ms[i].items, ns[i].items, m);
        forall j | 0 <= j < |r[k].items|
          ensures Congruent(r[k].items[j], s[k].items[j], m)
        {
          assert r[k].items[j] == ms[i].items[j + 1];
        }
      } else if k == to {
        assert ItemsCongruent(ms[k].items, ns[k].items, m);
      }
    }
  }

  /** A reduced turn follows the unbounded turn. */
  lemma {:induction false} TurnRelated(rules: seq<Rule>, ms: seq<Monkey>, ns: seq<Monkey>, i: nat, m: int)
    requires m != 0 && Valid(rules, ms) && Valid(rules, ns) && DividesAll(rules, m)
    requires Related(ms, ns, m) && i < |ms|
    ensures Related(Turn(rules, ms, i, Reduce(m)), Turn(rules, ns, i, Unbounded), m)
    decreases |ms[i].items|
  {
    if ms[i].items != [] {
      assert ns[i].items != [] by {
        assert ItemsCongruent(ms[i].items, ns[i].items, m);
      }
      ThrowRelated(rules, ms, ns, i, m);
      TurnRelated(rules, Throw(rules, ms, i, Reduce(m)), Throw(rules, ns, i, Unbounded), i, m);
    } else {
      assert ns[i].items == [] by {
        assert ItemsCongruent(ms[i].items, ns[i].items, m);
      }
    }
  }

  lemma {:induction false} RoundPrefixRelated(rules: seq<Rule>, ms: seq<Monkey>, ns: seq<Monkey>, k: nat, m: int)
    requires m != 0 && Valid(rules, ms) && Valid(rules, ns) && DividesAll(rules, m)
    requires Related(ms, ns, m) && k <= |ms|
    ensures Related(RoundPrefix(rules, ms, k, Reduce(m)), RoundPrefix(rules, ns, k, Unbounded), m)
  {
    if k > 0 {
      RoundPrefixRelated(rules, ms, ns, k - 1, m);
      TurnRelated(rules, RoundPrefix(rules, ms, k - 1, Reduce(m)), RoundPrefix(rules, ns, k - 1, Unbounded), k - 1, m);
    }
  }

  lemma {:induction false} RoundsRelated(rules: seq<Rule>, ms: seq<Monkey>, ns: seq<Monkey>, n: nat, m: int)
    requires m != 0 && Valid(rules, ms) && Valid(rules, ns) && DividesAll(rules, m)
    requires Related(ms, ns, m)
    ensures Related(Rounds(rules, ms, n, Reduce(m)), Rounds(rules, ns, n, Unbounded), m)
  {
    if n > 0 {
      var a, b := Rounds(rules, ms, n - 1, Reduce(m)), Rounds(rules, ns, n - 1, Unbounded);
      RoundsRelated(rules, ms, ns, n - 1, m);
      RoundPrefixRelated(rules, a, b, |a|, m);
    }
  }

  /** Reducing modulo the common multiple changes no inspection count:
      after any number of rounds the counts, and so the answer, are those
      of the simulation on unbounded integers. */
  lemma ReductionKeepsCounts(rules: seq<Rule>, ms: seq<Monkey>, n: nat)
    requires Valid(rules, ms)
    ensures CommonMultiple(rules) != 0
    ensures Counts(Rounds(rules, ms, n, Reduce(CommonMultiple(rules)))) == Counts(Rounds(rules, ms, n, Unbounded))
  {
    var m := CommonMultiple(rules);
    CommonMultipleDivisible(rules, ms);
    RelatedReflexive(ms, m);
    RoundsRelated(rules, ms, ms, n, m);
  }

  /** Every level a reduced throw passes on lies strictly between `-m` and
      `m`. */
  lemma ThrowPassesReduced(rules: seq<Rule>, ms: seq<Monkey>, i: nat, m: int)
    requires m != 0 && Valid(rules, ms) && i < |ms| && ms[i].items != []
    ensures var w := Worry(ms[i].items[0], rules[i]);
            var to := Target(rules[i], w);
            var r := Throw(rules, ms, i, Reduce(m));
            && r[to].items == ms[to].items + [Passed(Reduce(m), w)]
            && Abs(Passed(Reduce(m), w)) < Abs(m)
  {
    ThrowMoves(rules, ms, i, Reduce(m));
  }

  // ---------------------------------------------------------------------------
  // The program.

  /** `main` on the parsed monkeys: 10000 rounds with the levels reduced
      modulo the product of the divisors, then the product of the two
      largest counts. */
  method Solve(rules: seq<Rule>, parsed: seq<Monkey>) returns (business: int)
    requires Valid(rules, parsed)
    ensures CommonMultiple(rules) != 0
    ensures business == MonkeyBusiness(Rounds(rules, parsed, 10000, Reduce(CommonMultiple(rules))))
    ensures business == MonkeyBusiness(Rounds(rules, parsed, 10000, Unbounded))
  {
    var commonMultiple := CommonMultiple(rules);
    CommonMultipleDivisible(rules, parsed);
    var monkeys := new Monkey[|parsed|](k requires 0 <= k < |parsed| => parsed[k]);
    assert monkeys[..] == parsed;
    PlayRounds(rules, monkeys, 10000, Reduce(commonMultiple));
    business := MonkeyBusiness(monkeys[..]);
    ReductionKeepsCounts(rules, parsed, 10000);
  }
}
