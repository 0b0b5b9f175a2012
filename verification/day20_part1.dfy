/** Day 20, part 1: mixing a circular list of numbers. Every number, in its
    original order, is moved as many places as its value, forwards or
    backwards, by swapping it with its neighbour that many times with the
    indices taken modulo the length. */
module Day20Part1 {
  import opened Common

  /** A number together with its original position, which tells equal
      values apart. */
  datatype Item = Item(id: int, value: int)

  /** `mod_floor`: Rust's truncating `%`, shifted into `[0, base)`. */
  function ModFloor(a: int, base: int): (r: int)
    requires base > 0
    ensures 0 <= r < base
  {
    RustRem(RustRem(a, base) + base, base)
  }

  /** `mod_floor` is the floored remainder: Dafny's `%`, which for a
      positive base differs from `a` by a multiple of the base. */
  lemma ModFloorIsRemainder(a: int, base: int)
    requires base > 0
    ensures ModFloor(a, base) == a % base
  {
    var m := RustRem(a, base);
    assert m == a % base || m == a % base - base;
    RemOfSmall(m + base, base);
  }

  /** Below twice the modulus, the remainder is at most one subtraction
      away. */
  lemma RemOfSmall(y: int, base: int)
    requires base > 0 && 0 <= y < 2 * base
    ensures y % base == (if y < base then y else y - base)
  {
    if y >= base {
      assert y == base * 1 + (y - base);
    }
  }

  /** The values fixed by `test_mod_floor`. */
  lemma ModFloorTests()
    ensures ModFloor(0, 3) == 0 && ModFloor(1, 3) == 1 && ModFloor(2, 3) == 2
    ensures ModFloor(3, 3) == 0 && ModFloor(4, 3) == 1 && ModFloor(5, 3) == 2
    ensures ModFloor(-1, 3) == 2 && ModFloor(-2, 3) == 1 && ModFloor(-3, 3) == 0
    ensures ModFloor(-4, 3) == 2 && ModFloor(-5, 3) == 1
  {
    ModFloorIsRemainder(0, 3); ModFloorIsRemainder(1, 3); ModFloorIsRemainder(2, 3);
    ModFloorIsRemainder(3, 3); ModFloorIsRemainder(4, 3); ModFloorIsRemainder(5, 3);
    ModFloorIsRemainder(-1, 3); ModFloorIsRemainder(-2, 3); ModFloorIsRemainder(-3, 3);
    ModFloorIsRemainder(-4, 3); ModFloorIsRemainder(-5, 3);
  }

  /** On `[0, base)` `mod_floor` is the identity. */
  lemma ModFloorSmall(a: int, base: int)
    requires 0 <= a < base
    ensures ModFloor(a, base) == a
  {
    ModFloorIsRemainder(a, base);
  }

  /** The numbers tagged with their positions. */
  function Items(numbers: seq<int>): (items: seq<Item>)
    ensures |items| == |numbers|
    ensures forall k | 0 <= k < |numbers| :: items[k] == Item(k, numbers[k])
  {
    seq(|numbers|, k requires 0 <= k < |numbers| => Item(k, numbers[k]))
  }

  /** The ids of the tagged numbers tell them apart. */
  lemma ItemsDistinct(numbers: seq<int>, k: nat, l: nat)
    requires k < |numbers| && l < |numbers| && Items(numbers)[k].id == Items(numbers)[l].id
    ensures k == l
  {
  }

  // ---------------------------------------------------------------------------
  // `Iterator::position`.

  /** The first position holding an item that satisfies `p`. */
  function FindFirst(s: seq<Item>, p: Item -> bool): (r: Option<nat>)
    ensures r.Some? ==> r.value < |s| && p(s[r.value]) && forall k | 0 <= k < r.value :: !p(s[k])
    ensures r.None? ==> forall k | 0 <= k < |s| :: !p(s[k])
  {
    if s == [] then None
    else if p(s[0]) then Some(0)
    else
      var r := FindFirst(s[1..], p);
      if r.Some? then Some(r.value + 1) else None
  }

  /** The closures handed to `position`. */
  function HasId(id: int): Item -> bool
  {
    (x: Item) => x.id == id
  }

  const IsZero: Item -> bool := (x: Item) => x.value == 0

  /** `iter().position(p)` as a scan of the array. */
  method Position(a: array<Item>, p: Item -> bool) returns (r: Option<nat>)
    ensures r == FindFirst(a[..], p)
  {
    var k := 0;
    while k < a.Length
      invariant 0 <= k <= a.Length
      invariant forall l | 0 <= l < k :: !p(a[l])
    {
      if p(a[k]) {
        FirstIsFound(a[..], p, k);
        return Some(k);
      }
      k := k + 1;
    }
    NoneFound(a[..], p);
    r := None;
  }

  lemma FirstIsFound(s: seq<Item>, p: Item -> bool, k: nat)
    requires k < |s| && p(s[k]) && forall l | 0 <= l < k :: !p(s[l])
    ensures FindFirst(s, p) == Some(k)
  {
  }

  lemma NoneFound(s: seq<Item>, p: Item -> bool)
    requires forall l | 0 <= l < |s| :: !p(s[l])
    ensures FindFirst(s, p) == None
  {
  }

  // ---------------------------------------------------------------------------
  // Moving one item by swaps.

  /** The three-statement swap through `tmp`; it keeps the items. */
  function Swap(s: seq<Item>, i: nat, j: nat): (r: seq<Item>)
    requires i < |s| && j < |s|
    ensures |r| == |s| && multiset(r) == multiset(s)
    ensures r[j] == s[i]
  {
    var t := s[i := s[j]];
    assert multiset(t) == multiset(s) - multiset{s[i]} + multiset{s[j]};
    assert i != j ==> t[j] == s[j];
    t[j := s[i]]
  }

  /** The list after the first `n` swaps of the item at `index` in
      direction `sign`: swap `n` exchanges the positions `index + sign * n`
      and `index + sign * (n + 1)`, modulo the length. Swapping keeps the
      items. */
  function MoveSteps(s: seq<Item>, index: int, sign: int, n: nat): (r: seq<Item>)
    requires |s| > 0
    ensures |r| == |s| && multiset(r) == multiset(s)
  {
    if n == 0 then s
    else
      var t := MoveSteps(s, index, sign, n - 1);
      Swap(t, ModFloor(index + sign * (n - 1), |s|), ModFloor(index + sign * n, |s|))
  }

  /** After `n` swaps the moved item stands at `index + sign * n`, modulo
      the length. */
  lemma {:induction false} MoveStepsTracks(s: seq<Item>, index: nat, sign: int, n: nat)
    requires index < |s|
    ensures MoveSteps(s, index, sign, n)[ModFloor(index + sign * n, |s|)] == s[index]
  {
    if n == 0 {
      ModFloorSmall(index, |s|);
    } else {
      var t := MoveSteps(s, index, sign, n - 1);
      var i, j := ModFloor(index + sign * (n - 1), |s|), ModFloor(index + sign * n, |s|);
      MoveStepsTracks(s, index, sign, n - 1);
      assert t[i] == s[index];
      assert MoveSteps(s, index, sign, n) == Swap(t, i, j);
    }
  }

  /** The inner loop: `count` swaps of the item at `index` in direction
      `sign`, in place. */
  method MoveItem(a: array<Item>, index: nat, sign: int, count: nat)
    modifies a
    requires index < a.Length
    ensures a[..] == MoveSteps(old(a[..]), index, sign, count)
  {
    ghost var start := a[..];
    for n := 0 to count
      invariant a[..] == MoveSteps(start, index, sign, n)
    {
      var i := ModFloor(index + sign * n, a.Length);
      var j := ModFloor(index + sign * (n + 1), a.Length);
      var tmp := a[i];
      a[i] := a[j];
      a[j] := tmp;
    }
  }

  // ---------------------------------------------------------------------------
  // Mixing.

  function Sign(value: int): int
  {
    if value < 0 then -1 else 1
  }

  /** Moving one item: find it by its id, then swap it `|value|` times in
      the direction of its sign. */
  function MoveOne(s: seq<Item>, item: Item): (r: seq<Item>)
    requires item in s
    ensures multiset(r) == multiset(s)
  {
    var index := FindFirst(s, HasId(item.id));
    assert index.Some? by {
      var k :| 0 <= k < |s| && s[k] == item;
    }
    MoveSteps(s, index.value, Sign(item.value), Abs(item.value))
  }

  /** An item of the list is found by its id. */
  lemma ItemIsFound(s: seq<Item>, item: Item)
    requires item in s
    ensures FindFirst(s, HasId(item.id)).Some?
  {
    var k :| 0 <= k < |s| && s[k] == item;
    assert HasId(item.id)(s[k]);
  }

  /** The list after the first `k` items have been moved, in their original
      order. */
  function Mixed(items: seq<Item>, s: seq<Item>, k: nat): (r: seq<Item>)
    requires k <= |items| && multiset(s) == multiset(items)
    ensures multiset(r) == multiset(items)
  {
    if k == 0 then s
    else
      var t := Mixed(items, s, k - 1);
      assert items[k - 1] in multiset(t);
      MoveOne(t, items[k - 1])
  }

  /** The sum of the values 1000, 2000 and 3000 places after the first 0,
      going round the list; `None` when there is no 0 (the `unwrap`
      panics). */
  /** The three values 1000, 2000 and 3000 places after `index`, cyclically. */
  function Grove(s: seq<Item>, index: nat): int
    requires index < |s|
  {
    s[(index + 1000) % |s|].value + s[(index + 2000) % |s|].value + s[(index + 3000) % |s|].value
  }

  function GroveSum(s: seq<Item>): (r: Option<int>)
    ensures r.None? <==> forall k | 0 <= k < |s| :: s[k].value != 0
  {
    match FindFirst(s, IsZero)
    case None => None
    case Some(index) => Some(Grove(s, index))
  }

  /** The grove sum reads its three values at the stated distances from a
      value 0 that no earlier value equals. */
  lemma GroveSumMeaning(s: seq<Item>, index: nat)
    requires index < |s| && s[index].value == 0 && forall k | 0 <= k < index :: s[k].value != 0
    ensures GroveSum(s) == Some(s[(index + 1000) % |s|].value + s[(index + 2000) % |s|].value + s[(index + 3000) % |s|].value)
  {
    var r := FindFirst(s, IsZero);
    assert r.Some? by {
      assert IsZero(s[index]);
    }
    assert IsZero(s[r.value]);
    assert s[r.value].value == 0;
  }

  /** One pass: every item of the original list, in order, is found by its
      id in the working array and moved there. */
  method MixPass(list1: seq<Item>, list2: array<Item>)
    modifies list2
    requires multiset(list2[..]) == multiset(list1)
    ensures list2[..] == Mixed(list1, old(list2[..]), |list1|)
  {
    ghost var start := list2[..];
    for k := 0 to |list1|
      invariant list2[..] == Mixed(list1, start, k)
    {
      var item := list1[k];
      ghost var before := list2[..];
      assert item in multiset(before);
      var found := Position(list2, HasId(item.id));
      ItemIsFound(before, item);
      var index := found.value;
      var absValue := Abs(item.value);
      var sign := if item.value < 0 then -1 else 1;
      MoveItem(list2, index, sign, absValue);
      assert list2[..] == MoveOne(before, item);
    }
  }

  /** The grove coordinates read from the mixed array. */
  method GroveCoordinates(list2: array<Item>) returns (result: Option<int>)
    ensures result == GroveSum(list2[..])
  {
    var zero := Position(list2, IsZero);
    if zero.None? {
      return None;
    }
    var index := zero.value;
    var n := list2.Length;
    var num1 := list2[(index + 1000) % n].value;
    var num2 := list2[(index + 2000) % n].value;
    var num3 := list2[(index + 3000) % n].value;
    assert num1 + num2 + num3 == Grove(list2[..], index);
    result := Some(num1 + num2 + num3);
  }

  /** `main` on the parsed numbers: mix once and add the grove
      coordinates. */
  method Solve(numbers: seq<int>) returns (result: Option<int>)
    ensures var items := Items(numbers);
            result == GroveSum(Mixed(items, items, |items|))
  {
    var list1 := Items(numbers);
    var list2 := new Item[|list1|](k requires 0 <= k < |list1| => list1[k]);
    assert list2[..] == list1;
    MixPass(list1, list2);
    result := GroveCoordinates(list2);
  }
}
