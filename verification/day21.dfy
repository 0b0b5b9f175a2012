/** Day 21: monkeys yell numbers. Each monkey either yells a number or
    combines the numbers of two other monkeys with `+`, `-`, `*` or `/`.
    Part 1 evaluates `root`; part 2 searches for the number `humn` must
    yell so that the two operands of `root` are equal. */
module Day21 {
  import opened Common

  /** What a monkey yells. */
  datatype Statement = Operation(key1: string, key2: string, operand: char) | Value(value: int)

  type Items = map<string, Statement>

  /** A ranking of the monkeys under which every operation refers to
      monkeys of lower rank: the definitions have no cycle. */
  predicate Ranked(items: Items, rank: string -> nat)
  {
    forall k | k in items && items[k].Operation? :: rank(items[k].key1) < rank(k) && rank(items[k].key2) < rank(k)
  }

  /** One operation on two numbers; `None` for an unknown operator and for
      a division by zero, where the program panics. Division truncates
      toward zero. */
  function Apply(operand: char, a: int, b: int): (r: Option<int>)
    ensures r.None? <==> operand !in "+-*/" || (operand == '/' && b == 0)
  {
    match operand
    case '+' => Some(a + b)
    case '-' => Some(a - b)
    case '*' => Some(a * b)
    case '/' => if b == 0 then None else Some(RustDiv(a, b))
    case _ => None
  }

  /** `get_value`: the number monkey `key` yells; `None` where the program
      reaches `unreachable!` or divides by zero. */
  function GetValue(items: Items, rank: string -> nat, key: string): (r: Option<int>)
    requires Ranked(items, rank)
    ensures key !in items ==> r.None?
    ensures key in items && items[key].Value? ==> r == Some(items[key].value)
    decreases rank(key)
  {
    if key !in items then None
    else
      match items[key]
      case Value(v) => Some(v)
      case Operation(key1, key2, operand) =>
        match (GetValue(items, rank, key1), GetValue(items, rank, key2))
        case (Some(a), Some(b)) => Apply(operand, a, b)
        case _ => None
  }

  /** The value does not depend on which ranking shows the definitions
      acyclic: it is a property of the definitions alone. */
  lemma {:induction false} RankIrrelevant(items: Items, rank: string -> nat, rank': string -> nat, key: string)
    requires Ranked(items, rank) && Ranked(items, rank')
    ensures GetValue(items, rank, key) == GetValue(items, rank', key)
    decreases rank(key)
  {
    if key in items && items[key].Operation? {
      RankIrrelevant(items, rank, rank', items[key].key1);
      RankIrrelevant(items, rank, rank', items[key].key2);
    }
  }

  /** An operation yells its operator applied to its operands' numbers. */
  lemma OperationValue(items: Items, rank: string -> nat, key: string, a: int, b: int)
    requires Ranked(items, rank) && key in items && items[key].Operation?
    requires GetValue(items, rank, items[key].key1) == Some(a) && GetValue(items, rank, items[key].key2) == Some(b)
    ensures GetValue(items, rank, key) == Apply(items[key].operand, a, b)
  {
  }

  /** Part 1: the number `root` yells. */
  function Part1(items: Items, rank: string -> nat): Option<int>
    requires Ranked(items, rank)
  {
    GetValue(items, rank, "root")
  }

  // ---------------------------------------------------------------------------
  // The `humn` search.

  /** The search variables: `humn_value`, `increment`, `is_incrementing`. */
  datatype SearchState = SearchState(humn: int, increment: int, incrementing: bool)

  const Start := SearchState(0, 1_000_000_000, true)

  /** One step of the dichotomic search after the operands differ by
      `sub`. */
  function Step(s: SearchState, sub: int): (r: SearchState)
    requires s.increment >= 0
    ensures r.incrementing <==> sub > 0 || (sub == 0 && !s.incrementing)
    ensures r.increment == if r.incrementing == s.incrementing then s.increment else s.increment / 2
    ensures r.humn == s.humn + (if r.incrementing then r.increment else -r.increment) - 1
    ensures 0 <= r.increment <= s.increment
  {
    var t :=
      if s.incrementing then
        if sub > 0 then s.(humn := s.humn + s.increment)
        else
          var half := s.increment / 2;
          SearchState(s.humn - half, half, false)
      else
        if sub < 0 then s.(humn := s.humn - s.increment)
        else
          var half := s.increment / 2;
          SearchState(s.humn + half, half, true);
    t.(humn := t.humn - 1)
  }

  /** How a search ends: with the number found, with a panic, or still
      running when the fuel runs out. */
  datatype Outcome = Found(humn: int) | Panic | Unfinished

  /** Gives `humn` the number `h` and compares the two operands: the
      difference of their numbers, or `None` where either panics. */
  function Probe(items: Items, rank: string -> nat, key1: string, key2: string, h: int): (r: Option<int>)
    requires Ranked(items, rank)
    ensures Ranked(items["humn" := Value(h)], rank)
    ensures var trial := items["humn" := Value(h)];
            (r.Some? <==> GetValue(trial, rank, key1).Some? && GetValue(trial, rank, key2).Some?) &&
            (r.Some? ==> r.value == GetValue(trial, rank, key1).value - GetValue(trial, rank, key2).value)
  {
    assert Ranked(items["humn" := Value(h)], rank);
    var trial := items["humn" := Value(h)];
    var v1, v2 := GetValue(trial, rank, key1), GetValue(trial, rank, key2);
    if v1.Some? && v2.Some? then Some(v1.value - v2.value) else None
  }

  /** The search loop for at most `fuel` iterations, from state `s`. */
  function Search(items: Items, rank: string -> nat, key1: string, key2: string, s: SearchState, fuel: nat): Outcome
    requires Ranked(items, rank) && s.increment >= 0
    decreases fuel
  {
    if fuel == 0 then Unfinished
    else
      match Probe(items, rank, key1, key2, s.humn)
      case None => Panic
      case Some(sub) =>
        if sub == 0 then Found(s.humn)
        else Search(items, rank, key1, key2, Step(s, sub), fuel - 1)
  }

  /** One iteration of the search: what one probe decides. */
  lemma SearchOnce(items: Items, rank: string -> nat, key1: string, key2: string, s: SearchState, fuel: nat)
    requires Ranked(items, rank) && s.increment >= 0 && fuel > 0
    ensures Probe(items, rank, key1, key2, s.humn).None? ==> Search(items, rank, key1, key2, s, fuel) == Panic
    ensures Probe(items, rank, key1, key2, s.humn) == Some(0) ==> Search(items, rank, key1, key2, s, fuel) == Found(s.humn)
    ensures var d := Probe(items, rank, key1, key2, s.humn);
            d.Some? && d.value != 0 ==> Search(items, rank, key1, key2, s, fuel) == Search(items, rank, key1, key2, Step(s, d.value), fuel - 1)
  {
  }

  /** A found number makes both operands yell the same number. */
  lemma {:induction false} FoundBalances(items: Items, rank: string -> nat, key1: string, key2: string, s: SearchState, fuel: nat)
    requires Ranked(items, rank) && s.increment >= 0
    requires Search(items, rank, key1, key2, s, fuel).Found?
    ensures var h := Search(items, rank, key1, key2, s, fuel).humn;
            Ranked(items["humn" := Value(h)], rank) &&
            GetValue(items["humn" := Value(h)], rank, key1).Some? &&
            GetValue(items["humn" := Value(h)], rank, key1) == GetValue(items["humn" := Value(h)], rank, key2)
    decreases fuel
  {
    var d := Probe(items, rank, key1, key2, s.humn);
    if d.Some? && d.value != 0 {
      FoundBalances(items, rank, key1, key2, Step(s, d.value), fuel - 1);
    }
  }

  /** More fuel changes nothing once the search has stopped. */
  lemma {:induction false} SearchSettled(items: Items, rank: string -> nat, key1: string, key2: string, s: SearchState, fuel: nat, more: nat)
    requires Ranked(items, rank) && s.increment >= 0
    requires !Search(items, rank, key1, key2, s, fuel).Unfinished? && fuel <= more
    ensures Search(items, rank, key1, key2, s, more) == Search(items, rank, key1, key2, s, fuel)
    decreases fuel
  {
    var d := Probe(items, rank, key1, key2, s.humn);
    if d.Some? && d.value != 0 {
      SearchSettled(items, rank, key1, key2, Step(s, d.value), fuel - 1, more - 1);
    }
  }

  /** Part 2: `root` must be an operation; its operands are compared while
      `humn` is searched for. */
  function Part2(items: Items, rank: string -> nat, fuel: nat): Outcome
    requires Ranked(items, rank)
  {
    if "root" !in items || items["root"].Value? then Panic
    else Search(items, rank, items["root"].key1, items["root"].key2, Start, fuel)
  }

  /** The search loop, updating `items`, `humn_value`, `increment` and
      `is_incrementing` in place. */
  method SearchLoop(items0: Items, rank: string -> nat, key1: string, key2: string, fuel: nat) returns (outcome: Outcome)
    requires Ranked(items0, rank)
    ensures outcome == Search(items0, rank, key1, key2, Start, fuel)
  {
    var items := items0;
    var humnValue, increment, isIncrementing := 0, 1_000_000_000, true;
    var steps := 0;
    ghost var last := 0;
    while steps < fuel
      invariant 0 <= steps <= fuel && increment >= 0
      invariant items == items0 || items == items0["humn" := Value(last)]
      invariant Search(items0, rank, key1, key2, Start, fuel) ==
                Search(items0, rank, key1, key2, SearchState(humnValue, increment, isIncrementing), fuel - steps)
      decreases fuel - steps
    {
      SearchOnce(items0, rank, key1, key2, SearchState(humnValue, increment, isIncrementing), fuel - steps);
      var sub;
      items, sub := Compare(items0, rank, key1, key2, items, last, humnValue);
      last := humnValue;
      if sub.None? {
        return Panic;
      }
      if sub.value == 0 {
        return Found(humnValue);
      }
      humnValue, increment, isIncrementing := Advance(humnValue, increment, isIncrementing, sub.value);
      steps := steps + 1;
    }
    return Unfinished;
  }

  /** Sets `humn` to `humnValue` in `items` and evaluates both operands:
      their difference, or `None` where either evaluation panics. */
  method Compare(items0: Items, rank: string -> nat, key1: string, key2: string, items: Items, ghost last: int, humnValue: int)
    returns (items': Items, sub: Option<int>)
    requires Ranked(items0, rank)
    requires items == items0 || items == items0["humn" := Value(last)]
    ensures items' == items0["humn" := Value(humnValue)]
    ensures sub == Probe(items0, rank, key1, key2, humnValue)
  {
    items' := items["humn" := Value(humnValue)];
    assert items' == items0["humn" := Value(humnValue)];
    assert Ranked(items', rank);
    var value1 := GetValue(items', rank, key1);
    var value2 := GetValue(items', rank, key2);
    if value1.None? || value2.None? {
      return items', None;
    }
    sub := Some(value1.value - value2.value);
  }

  /** The update of `humn_value`, `increment` and `is_incrementing` after
      one comparison of the operands. */
  method Advance(humnValue: int, increment: int, isIncrementing: bool, sub: int)
    returns (humnValue': int, increment': int, isIncrementing': bool)
    requires increment >= 0
    ensures SearchState(humnValue', increment', isIncrementing') == Step(SearchState(humnValue, increment, isIncrementing), sub)
  {
    humnValue', increment', isIncrementing' := humnValue, increment, isIncrementing;
    if isIncrementing {
      if sub > 0 {
        humnValue' := humnValue' + increment';
      } else {
        isIncrementing' := false;
        increment' := increment' / 2;
        humnValue' := humnValue' - increment';
      }
    } else {
      if sub < 0 {
        humnValue' := humnValue' - increment';
      } else {
        isIncrementing' := true;
        increment' := increment' / 2;
        humnValue' := humnValue' + increment';
      }
    }
    humnValue' := humnValue' - 1;
  }

  /** `main`: part 1, then the search on `root`'s operands; a panic in
      part 1 ends the program before part 2. */
  method Solve(items: Items, rank: string -> nat, fuel: nat) returns (part1: Option<int>, part2: Outcome)
    requires Ranked(items, rank)
    ensures part1 == Part1(items, rank)
    ensures part2 == if part1.None? then Panic else Part2(items, rank, fuel)
  {
    part1 := GetValue(items, rank, "root");
    if part1.None? {
      return part1, Panic;
    }
    if "root" !in items || items["root"].Value? {
      return part1, Panic;
    }
    var op := items["root"];
    part2 := SearchLoop(items, rank, op.key1, op.key2, fuel);
  }
}
