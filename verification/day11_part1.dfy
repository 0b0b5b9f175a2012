/** Day 11, part 1: monkeys passing items. In each round every monkey, in
    order, inspects its items front to back: it applies its operation to
    the worry level, lowers the result by the relief rule, and throws the
    item to one of two monkeys according to a divisibility test. The answer
    is the product of the two largest inspection counts.

    The relief rule is a parameter, so that part 2 shares the rounds:
    part 1 divides by 3 and tests the lowered level, part 2 tests the
    operation's result and passes on its remainder modulo a common
    multiple of the divisors. */
module Day11Part1 {
  import opened Common

  datatype Operator = Add | Multiply

  datatype Operand = Old | Value(v: int)

  /** The fields of a monkey that never change: its operation, its test
      divisor and the monkeys it throws to. */
  datatype Rule = Rule(
    operator: Operator,
    left: Operand,
    right: Operand,
    divisor: int,
    ifTrue: int,
    ifFalse: int)

  /** The fields of a monkey that the rounds update: the items it holds,
      front first, and the number of items it has inspected. */
  datatype Monkey = Monkey(items: seq<int>, inspections: nat)

  /** What becomes of the operation's result `w`: `DivideByThree` tests and
      passes `w / 3`; `Reduce(modulus)` tests `w` and passes `w % modulus`;
      `Unbounded` tests and passes `w` itself. */
  datatype Relief = DivideByThree | Reduce(modulus: int) | Unbounded

  predicate ValidRelief(relief: Relief)
  {
    relief.Reduce? ==> relief.modulus != 0
  }

  // ---------------------------------------------------------------------------
  // One inspection.

  function Resolve(operand: Operand, item: int): int
  {
    match operand
    case Old => item
    case Value(v) => v
  }

  /** `compute_worry_level`. */
  function Worry(item: int, rule: Rule): int
  {
    var l, r := Resolve(rule.left, item), Resolve(rule.right, item);
    match rule.operator
    case Add => l + r
    case Multiply => l * r
  }

  /** With non-negative constants, the operation never makes a
      non-negative worry level negative. */
  lemma WorryNonNegative(item: int, rule: Rule)
    requires item >= 0 && (rule.left.Value? ==> rule.left.v >= 0) && (rule.right.Value? ==> rule.right.v >= 0)
    ensures Worry(item, rule) >= 0
  {
    var l, r := Resolve(rule.left, item), Resolve(rule.right, item);
    assert l >= 0 && r >= 0;
    if rule.operator == Multiply {
      assert l * r >= 0;
    }
  }

  /** The level the divisibility test looks at. */
  function Tested(relief: Relief, w: int): int
  {
    if relief == DivideByThree then RustDiv(w, 3) else w
  }

  /** The level the receiving monkey gets. */
  function Passed(relief: Relief, w: int): int
    requires ValidRelief(relief)
  {
    match relief
    case DivideByThree => RustDiv(w, 3)
    case Reduce(modulus) => RustRem(w, modulus)
    case Unbounded => w
  }

  /** A throw goes to `ifTrue` exactly when the divisor divides the tested
      level. */
  function Target(rule: Rule, level: int): (to: int)
    requires rule.divisor != 0
    ensures level % rule.divisor == 0 ==> to == rule.ifTrue
    ensures level % rule.divisor != 0 ==> to == rule.ifFalse
  {
    if RustRem(level, rule.divisor) == 0 then rule.ifTrue else rule.ifFalse
  }

  // ---------------------------------------------------------------------------
  // The monkeys.

  /** One rule per monkey; the indices the program uses are in range, no
      monkey throws to itself (its turn would never end) and no divisor is
      0 (`%` would panic). */
  predicate Valid(rules: seq<Rule>, ms: seq<Monkey>)
  {
    && |rules| == |ms|
    && forall i | 0 <= i < |rules| ::
         && 0 <= rules[i].ifTrue < |rules| && rules[i].ifTrue != i
         && 0 <= rules[i].ifFalse < |rules| && rules[i].ifFalse != i
         && rules[i].divisor != 0
  }

  function Lengths(ms: seq<Monkey>): seq<int>
  {
    seq(|ms|, k requires 0 <= k < |ms| => |ms[k].items|)
  }

  /** The number of items held by all monkeys. */
  function TotalItems(ms: seq<Monkey>): int
  {
    Sum(Lengths(ms))
  }

  lemma {:induction false} SumUpdate(s: seq<int>, i: nat, v: int)
    requires i < |s|
    ensures Sum(s[i := v]) == Sum(s) - s[i] + v
  {
    if i > 0 {
      assert s[i := v][1..] == s[1..][i - 1 := v];
      SumUpdate(s[1..], i - 1, v);
    }
  }

  /** Replacing one monkey changes the total by the change in its items. */
  lemma TotalItemsUpdate(ms: seq<Monkey>, i: nat, m: Monkey)
    requires i < |ms|
    ensures TotalItems(ms[i := m]) == TotalItems(ms) - |ms[i].items| + |m.items|
  {
    assert Lengths(ms[i := m]) == Lengths(ms)[i := |m.items|];
    SumUpdate(Lengths(ms), i, |m.items|);
  }

  /** Monkey `i` takes its first item, inspects it and throws it. */
  function Throw(rules: seq<Rule>, ms: seq<Monkey>, i: nat, relief: Relief): (r: seq<Monkey>)
    requires Valid(rules, ms) && ValidRelief(relief) && i < |ms| && ms[i].items != []
    ensures |r| == |ms| && |r[i].items| == |ms[i].items| - 1
  {
    var m := ms[i];
    var w := Worry(m.items[0], rules[i]);
    var to := Target(rules[i], Tested(relief, w));
    var after := ms[i := Monkey(m.items[1..], m.inspections + 1)];
    after[to := Monkey(after[to].items + [Passed(relief, w)], after[to].inspections)]
  }

  /** A throw moves one item from monkey `i` to the end of the target's
      list, counts one inspection for `i` and leaves every other monkey as
      it was. */
  lemma ThrowMoves(rules: seq<Rule>, ms: seq<Monkey>, i: nat, relief: Relief)
    requires Valid(rules, ms) && ValidRelief(relief) && i < |ms| && ms[i].items != []
    ensures var w := Worry(ms[i].items[0], rules[i]);
            var to := Target(rules[i], Tested(relief, w));
            var r := Throw(rules, ms, i, relief);
            && r[i] == Monkey(ms[i].items[1..], ms[i].inspections + 1)
            && r[to] == Monkey(ms[to].items + [Passed(relief, w)], ms[to].inspections)
            && forall k | 0 <= k < |ms| && k != i && k != to :: r[k] == ms[k]
  {
  }

  /** A throw neither creates nor loses an item. */
  lemma ThrowConserves(rules: seq<Rule>, ms: seq<Monkey>, i: nat, relief: Relief)
    requires Valid(rules, ms) && ValidRelief(relief) && i < |ms| && ms[i].items != []
    ensures TotalItems(Throw(rules, ms, i, relief)) == TotalItems(ms)
  {
    var m := ms[i];
    var w := Worry(m.items[0], rules[i]);
    var to := Target(rules[i], Tested(relief, w));
    var taken := Monkey(m.items[1..], m.inspections + 1);
    var after := ms[i := taken];
    var received := Monkey(ms[to].items + [Passed(relief, w)], ms[to].inspections);
    assert after[to] == ms[to];
    assert Throw(rules, ms, i, relief) == after[to := received];
    TotalItemsUpdate(after, to, received);
    TotalItemsUpdate(ms, i, taken);
  }

  /** Monkey `i`'s turn: it throws until its list is empty. */
  function Turn(rules: seq<Rule>, ms: seq<Monkey>, i: nat, relief: Relief): (r: seq<Monkey>)
    requires Valid(rules, ms) && ValidRelief(relief) && i < |ms|
    ensures |r| == |ms| && r[i].items == []
    decreases |ms[i].items|
  {
    if ms[i].items == [] then ms
    else Turn(rules, Throw(rules, ms, i, relief), i, relief)
  }

  /** A turn neither creates nor loses an item. */
  lemma {:induction false} TurnConserves(rules: seq<Rule>, ms: seq<Monkey>, i: nat, relief: Relief)
    requires Valid(rules, ms) && ValidRelief(relief) && i < |ms|
    ensures TotalItems(Turn(rules, ms, i, relief)) == TotalItems(ms)
    decreases |ms[i].items|
  {
    if ms[i].items != [] {
      var t := Throw(rules, ms, i, relief);
      ThrowConserves(rules, ms, i, relief);
      TurnConserves(rules, t, i, relief);
    }
  }

  /** A turn counts one inspection per item the monkey held and leaves the
      other counts alone. */
  lemma {:induction false} TurnCounts(rules: seq<Rule>, ms: seq<Monkey>, i: nat, relief: Relief)
    requires Valid(rules, ms) && ValidRelief(relief) && i < |ms|
    ensures var r := Turn(rules, ms, i, relief);
            && r[i].inspections == ms[i].inspections + |ms[i].items|
            && forall k | 0 <= k < |ms| && k != i :: r[k].inspections == ms[k].inspections
    decreases |ms[i].items|
  {
    if ms[i].items != [] {
      var t := Throw(rules, ms, i, relief);
      ThrowMoves(rules, ms, i, relief);
      TurnCounts(rules, t, i, relief);
    }
  }

  /** The round after the turns of monkeys `0 .. k - 1`. */
  function RoundPrefix(rules: seq<Rule>, ms: seq<Monkey>, k: nat, relief: Relief): (r: seq<Monkey>)
    requires Valid(rules, ms) && ValidRelief(relief) && k <= |ms|
    ensures |r| == |ms|
  {
    if k == 0 then ms
    else Turn(rules, RoundPrefix(rules, ms, k - 1, relief), k - 1, relief)
  }

  /** The state after `n` rounds. */
  function Rounds(rules: seq<Rule>, ms: seq<Monkey>, n: nat, relief: Relief): (r: seq<Monkey>)
    requires Valid(rules, ms) && ValidRelief(relief)
    ensures |r| == |ms|
  {
    if n == 0 then ms
    else
      var t := Rounds(rules, ms, n - 1, relief);
      RoundPrefix(rules, t, |t|, relief)
  }

  /** Rounds neither create nor lose items. */
  lemma {:induction false} RoundPrefixConserves(rules: seq<Rule>, ms: seq<Monkey>, k: nat, relief: Relief)
    requires Valid(rules, ms) && ValidRelief(relief) && k <= |ms|
    ensures TotalItems(RoundPrefix(rules, ms, k, relief)) == TotalItems(ms)
  {
    if k > 0 {
      RoundPrefixConserves(rules, ms, k - 1, relief);
      TurnConserves(rules, RoundPrefix(rules, ms, k - 1, relief), k - 1, relief);
    }
  }

  lemma {:induction false} RoundsConserve(rules: seq<Rule>, ms: seq<Monkey>, n: nat, relief: Relief)
    requires Valid(rules, ms) && ValidRelief(relief)
    ensures TotalItems(Rounds(rules, ms, n, relief)) == TotalItems(ms)
  {
    if n > 0 {
      var t := Rounds(rules, ms, n - 1, relief);
      RoundsConserve(rules, ms, n - 1, relief);
      RoundPrefixConserves(rules, t, |t|, relief);
    }
  }

  // ---------------------------------------------------------------------------
  // Monkey business.

  function Counts(ms: seq<Monkey>): (cs: seq<int>)
    ensures |cs| == |ms| && forall k | 0 <= k < |ms| :: cs[k] == ms[k].inspections
  {
    seq(|ms|, k requires 0 <= k < |ms| => ms[k].inspections)
  }

  /** The product of the two largest counts, or of all of them when there
      are fewer than two. */
  function TopTwoProduct(counts: seq<int>): int
  {
    var sorted := Sort(counts, IntGe);
    Product(sorted[..Min(2, |sorted|)])
  }

  function MonkeyBusiness(ms: seq<Monkey>): int
  {
    TopTwoProduct(Counts(ms))
  }

  /** The two counts multiplied are at least every count left out. */
  lemma TopTwoAreLargest(counts: seq<int>, i: nat, j: nat)
    requires i < Min(2, |counts|) <= j < |counts|
    ensures Sort(counts, IntGe)[i] >= Sort(counts, IntGe)[j]
  {
    IntOrders();
    SortSorted(counts, IntGe);
  }

  /** The answer does not depend on the order of the monkeys. */
  lemma TopTwoOrderIndependent(a: seq<int>, b: seq<int>)
    requires multiset(a) == multiset(b)
    ensures TopTwoProduct(a) == TopTwoProduct(b)
  {
    IntOrders();
    SortPermutationInvariant(a, b, IntGe);
  }

  /** A value left after taking out the element at `a` stands at another
      index. */
  lemma OtherIndex(s: seq<int>, a: nat, x: int)
    requires a < |s| && x in multiset(s) - multiset{s[a]}
    ensures exists b | 0 <= b < |s| && b != a :: s[b] == x
  {
    assert s == s[..a] + [s[a]] + s[a + 1..];
    assert x in multiset(s[..a]) + multiset(s[a + 1..]);
    if x in s[..a] {
      var b :| 0 <= b < a && s[..a][b] == x;
    } else {
      var c :| 0 <= c < |s| - a - 1 && s[a + 1..][c] == x;
      assert s[a + 1 + c] == x;
    }
  }

  /** With two or more monkeys the answer is the product of the counts of
      two distinct monkeys. */
  lemma TopTwoOfDistinct(counts: seq<int>)
    requires |counts| >= 2
    ensures exists a, b | 0 <= a < |counts| && 0 <= b < |counts| && a != b ::
              TopTwoProduct(counts) == counts[a] * counts[b]
  {
    var sorted := Sort(counts, IntGe);
    SortPermutes(counts, IntGe);
    var top := sorted[..2];
    assert top == [sorted[0], sorted[1]];
    assert top[1..] == [sorted[1]] && top[1..][1..] == [];
    assert Product(top[1..]) == sorted[1] * 1;
    assert TopTwoProduct(counts) == sorted[0] * sorted[1];
    assert sorted[0] in multiset(counts);
    var a :| 0 <= a < |counts| && counts[a] == sorted[0];
    assert sorted == [sorted[0]] + sorted[1..];
    assert sorted[1] in multiset(sorted) - multiset{sorted[0]};
    OtherIndex(counts, a, sorted[1]);
  }

  // ---------------------------------------------------------------------------
  // The program, on an array of monkeys.

  /** The body of the `loop`: monkey `i` takes, inspects and throws its
      first item. */
  method ThrowItem(rules: seq<Rule>, monkeys: array<Monkey>, i: nat, relief: Relief)
    modifies monkeys
    requires Valid(rules, monkeys[..]) && ValidRelief(relief) && i < monkeys.Length && monkeys[i].items != []
    ensures monkeys[..] == Throw(rules, old(monkeys[..]), i, relief)
  {
    var monkey := monkeys[i];
    var item := monkey.items[0];
    monkeys[i] := Monkey(monkey.items[1..], monkey.inspections + 1);
    var newWorry := Worry(item, rules[i]);
    var tested, passed;
    match relief {
      case DivideByThree =>
        tested := RustDiv(newWorry, 3);
        passed := tested;
      case Reduce(modulus) =>
        tested := newWorry;
        passed := RustRem(newWorry, modulus);
      case Unbounded =>
        tested := newWorry;
        passed := newWorry;
    }
    var to := if RustRem(tested, rules[i].divisor) == 0 then rules[i].ifTrue else rules[i].ifFalse;
    monkeys[to] := Monkey(monkeys[to].items + [passed], monkeys[to].inspections);
  }

  /** Monkey `i` throws until its list is empty. */
  method TakeTurn(rules: seq<Rule>, monkeys: array<Monkey>, i: nat, relief: Relief)
    modifies monkeys
    requires Valid(rules, monkeys[..]) && ValidRelief(relief) && i < monkeys.Length
    ensures monkeys[..] == Turn(rules, old(monkeys[..]), i, relief)
  {
    while monkeys[i].items != []
      invariant Valid(rules, monkeys[..])
      invariant Turn(rules, monkeys[..], i, relief) == Turn(rules, old(monkeys[..]), i, relief)
      decreases |monkeys[i].items|
    {
      ThrowItem(rules, monkeys, i, relief);
    }
  }

  /** Every monkey, in order, takes its turn. */
  method PlayRound(rules: seq<Rule>, monkeys: array<Monkey>, relief: Relief)
    modifies monkeys
    requires Valid(rules, monkeys[..]) && ValidRelief(relief)
    ensures monkeys[..] == RoundPrefix(rules, old(monkeys[..]), monkeys.Length, relief)
  {
    ghost var start := monkeys[..];
    for k := 0 to monkeys.Length
      invariant monkeys[..] == RoundPrefix(rules, start, k, relief)
    {
      TakeTurn(rules, monkeys, k, relief);
    }
  }

  /** `n` rounds on the array. */
  method PlayRounds(rules: seq<Rule>, monkeys: array<Monkey>, n: nat, relief: Relief)
    modifies monkeys
    requires Valid(rules, monkeys[..]) && ValidRelief(relief)
    ensures monkeys[..] == Rounds(rules, old(monkeys[..]), n, relief)
  {
    ghost var start := monkeys[..];
    for round := 0 to n
      invariant monkeys[..] == Rounds(rules, start, round, relief)
    {
      PlayRound(rules, monkeys, relief);
    }
  }

  /** `main` on the parsed monkeys: twenty rounds with the worry level
      divided by 3, then the product of the two largest counts. */
  method Solve(rules: seq<Rule>, parsed: seq<Monkey>) returns (business: int)
    requires Valid(rules, parsed)
    ensures business == MonkeyBusiness(Rounds(rules, parsed, 20, DivideByThree))
  {
    var monkeys := new Monkey[|parsed|](k requires 0 <= k < |parsed| => parsed[k]);
    assert monkeys[..] == parsed;
    PlayRounds(rules, monkeys, 20, DivideByThree);
    business := MonkeyBusiness(monkeys[..]);
  }
}
