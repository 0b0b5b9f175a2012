/** Day 20, part 2: the numbers are first multiplied by the decryption key,
    then the whole list is mixed ten times. Each move is shortened to its
    remainder modulo one less than the length, keeping the direction of the
    unreduced value. */
module Day20Part2 {
  import opened Common
  import opened Day20Part1

  const DecryptionKey: int := 811589153

  /** The numbers, multiplied by the key, tagged with their positions. */
  function Keyed(numbers: seq<int>): (items: seq<Item>)
    ensures |items| == |numbers|
    ensures forall k | 0 <= k < |numbers| :: items[k] == Item(k, numbers[k] * DecryptionKey)
  {
    Items(seq(|numbers|, k requires 0 <= k < |numbers| => numbers[k] * DecryptionKey))
  }

  /** The key keeps zero and only zero. */
  lemma KeyedZero(numbers: seq<int>, k: nat)
    requires k < |numbers|
    ensures Keyed(numbers)[k].value == 0 <==> numbers[k] == 0
  {
    assert Keyed(numbers)[k].value == numbers[k] * DecryptionKey;
  }

  /** The number of swaps for a value in a list of `len` items:
      `abs(value % (len - 1))`. */
  function Shift(value: int, len: nat): (r: nat)
    requires len > 1
    ensures r < len - 1
  {
    Abs(RustRem(value, len - 1))
  }

  /** The shift is the distance `|value|` reduced modulo `len - 1`, whatever
      the sign of the value. */
  lemma ShiftIsReducedDistance(value: int, len: nat)
    requires len > 1
    ensures Shift(value, len) == Abs(value) % (len - 1)
  {
    var m := len - 1;
    var q, r := value / m, value % m;
    assert value == m * q + r;
    if value >= 0 {
    } else if r == 0 {
      RemainderUnique(-value, m, -q, 0);
    } else {
      assert -value == m * (-q - 1) + (m - r);
      RemainderUnique(-value, m, -q - 1, m - r);
    }
  }

  /** Moving one item, reduced: find it by its id, then swap it
      `Shift(value)` times in the direction of the unreduced value. */
  function MoveReduced(s: seq<Item>, item: Item): (r: seq<Item>)
    requires item in s && |s| > 1
    ensures multiset(r) == multiset(s)
  {
    ItemIsFound(s, item);
    var index := FindFirst(s, HasId(item.id));
    MoveSteps(s, index.value, Sign(item.value), Shift(item.value, |s|))
  }

  /** A value shorter than `len - 1` moves exactly as in part 1. */
  lemma SmallMoveAsPartOne(s: seq<Item>, item: Item)
    requires item in s && |s| > 1 && Abs(item.value) < |s| - 1
    ensures MoveReduced(s, item) == MoveOne(s, item)
  {
    ShiftIsReducedDistance(item.value, |s|);
    RemainderUnique(Abs(item.value), |s| - 1, 0, Abs(item.value));
    assert Shift(item.value, |s|) == Abs(item.value);
  }

  /** The list after the first `k` items of one pass have been moved. */
  function MixedReduced(items: seq<Item>, s: seq<Item>, k: nat): (r: seq<Item>)
    requires k <= |items| && multiset(s) == multiset(items) && |s| > 1
    ensures multiset(r) == multiset(items)
  {
    if k == 0 then s
    else
      var t := MixedReduced(items, s, k - 1);
      assert items[k - 1] in multiset(t);
      assert |t| == |s| by {
        assert |multiset(t)| == |multiset(s)|;
      }
      MoveReduced(t, items[k - 1])
  }

  /** The list after `rounds` full passes over the items in their original
      order. */
  function Rounds(items: seq<Item>, rounds: nat): (r: seq<Item>)
    requires |items| > 1
    ensures multiset(r) == multiset(items) && |r| == |items|
  {
    if rounds == 0 then items
    else
      var t := Rounds(items, rounds - 1);
      var u := MixedReduced(items, t, |items|);
      assert |u| == |items| by {
        assert |multiset(u)| == |multiset(items)|;
      }
      u
  }

  /** One pass over `list1`, on the working array. */
  method MixPass(list1: seq<Item>, list2: array<Item>)
    modifies list2
    requires multiset(list2[..]) == multiset(list1) && list2.Length > 1
    ensures list2[..] == MixedReduced(list1, old(list2[..]), |list1|)
  {
    ghost var start := list2[..];
    for k := 0 to |list1|
      invariant list2[..] == MixedReduced(list1, start, k)
    {
      var item := list1[k];
      ghost var before := list2[..];
      assert item in multiset(before);
      var found := Position(list2, HasId(item.id));
      ItemIsFound(before, item);
      var index := found.value;
      var value := RustRem(item.value, list2.Length - 1);
      var absValue := Abs(value);
      var sign := if item.value < 0 then -1 else 1;
      MoveItem(list2, index, sign, absValue);
      assert list2[..] == MoveReduced(before, item);
    }
  }

  /** `main` on the parsed numbers: key them, mix ten times and add the
      grove coordinates. A list of at most one number makes the program
      panic, on `% 0` or on the missing 0. */
  method Solve(numbers: seq<int>) returns (result: Option<int>)
    ensures |numbers| <= 1 ==> result.None?
    ensures |numbers| > 1 ==> result == GroveSum(Rounds(Keyed(numbers), 10))
  {
    var list1 := Keyed(numbers);
    if |list1| <= 1 {
      return None;
    }
    var list2 := new Item[|list1|](k requires 0 <= k < |list1| => list1[k]);
    assert list2[..] == list1;
    for round := 0 to 10
      invariant list2[..] == Rounds(list1, round)
    {
      MixPass(list1, list2);
    }
    result := GroveCoordinates(list2);
  }

  /** The program has an answer exactly when there are at least two numbers
      and one of them is 0. */
  lemma SolveDefined(numbers: seq<int>)
    requires |numbers| > 1
    ensures GroveSum(Rounds(Keyed(numbers), 10)).Some? <==> exists k | 0 <= k < |numbers| :: numbers[k] == 0
  {
    var items := Keyed(numbers);
    var mixed := Rounds(items, 10);
    if k :| 0 <= k < |numbers| && numbers[k] == 0 {
      KeyedZero(numbers, k);
      assert items[k] in multiset(mixed);
      var l :| 0 <= l < |mixed| && mixed[l] == items[k];
    } else {
      forall l | 0 <= l < |mixed|
        ensures mixed[l].value != 0
      {
        assert mixed[l] in multiset(items);
        var k :| 0 <= k < |items| && items[k] == mixed[l];
        KeyedZero(numbers, k);
      }
    }
  }
}
