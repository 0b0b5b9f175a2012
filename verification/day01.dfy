/** Day 1: the calories carried by the elves. The input is a list of lines,
    each a number or blank; blank lines separate the elves. The answer is the
    sum of the three largest totals. */
module Day01 {
  import opened Common

  datatype Line = Blank | Calories(amount: int)

  /** `split("\n\n")`: the groups of numbers between blank lines. */
  function Groups(lines: seq<Line>): (gs: seq<seq<int>>)
    ensures |gs| >= 1
  {
    if lines == [] then [[]]
    else
      var rest := Groups(lines[1..]);
      match lines[0]
      case Blank => [[]] + rest
      case Calories(n) => [[n] + rest[0]] + rest[1..]
  }

  function CountBlanks(lines: seq<Line>): nat
  {
    if lines == [] then 0 else (if lines[0].Blank? then 1 else 0) + CountBlanks(lines[1..])
  }

  /** The numbers of the input, in order, without the blank lines. */
  function Numbers(lines: seq<Line>): seq<int>
  {
    if lines == [] then []
    else if lines[0].Blank? then Numbers(lines[1..])
    else [lines[0].amount] + Numbers(lines[1..])
  }

  function Flatten(gs: seq<seq<int>>): seq<int>
  {
    if gs == [] then [] else gs[0] + Flatten(gs[1..])
  }

  /** There is one group more than there are blank lines, and the groups
      hold every number of the input, in order. */
  lemma {:induction false} GroupsPartition(lines: seq<Line>)
    ensures |Groups(lines)| == CountBlanks(lines) + 1
    ensures Flatten(Groups(lines)) == Numbers(lines)
  {
    if lines != [] {
      var rest := Groups(lines[1..]);
      GroupsPartition(lines[1..]);
      assert rest == [rest[0]] + rest[1..];
      if lines[0].Calories? {
        assert Flatten(Groups(lines)) == ([lines[0].amount] + rest[0]) + Flatten(rest[1..]);
      } else {
        assert Flatten(Groups(lines)) == [] + Flatten(rest);
      }
    }
  }

  /** `fold` over a group: its total. */
  function GroupTotals(gs: seq<seq<int>>): (ts: seq<int>)
    ensures |ts| == |gs|
  {
    if gs == [] then [] else [Sum(gs[0])] + GroupTotals(gs[1..])
  }

  lemma {:induction false} GroupTotalsAt(gs: seq<seq<int>>, i: nat)
    requires i < |gs|
    ensures GroupTotals(gs)[i] == Sum(gs[i])
  {
    if i > 0 {
      GroupTotalsAt(gs[1..], i - 1);
    }
  }

  /** The group totals add up to the sum of the whole input. */
  lemma {:induction false} GroupTotalsSum(gs: seq<seq<int>>)
    ensures Sum(GroupTotals(gs)) == Sum(Flatten(gs))
  {
    if gs != [] {
      GroupTotalsSum(gs[1..]);
      SumAppend(gs[0], Flatten(gs[1..]));
    }
  }

  /** `BinaryHeap::into_iter_sorted().take(3).sum()`: the sum of the first
      three totals in descending order, or of all of them when there are
      fewer. */
  function TopThree(totals: seq<int>): int
  {
    var sorted := Sort(totals, IntGe);
    Sum(sorted[..Min(3, |sorted|)])
  }

  function Answer(lines: seq<Line>): int
  {
    TopThree(GroupTotals(Groups(lines)))
  }

  /** Taking the `i`-th element out of a sum. */
  lemma SumRemove(s: seq<int>, i: nat)
    requires i < |s|
    ensures Sum(s) == s[i] + Sum(s[..i] + s[i + 1..])
  {
    var before, after := s[..i], s[i + 1..];
    assert s == before + ([s[i]] + after);
    SumAppend(before, [s[i]] + after);
    SumAppend([s[i]], after);
    assert Sum([s[i]]) == s[i] + Sum([]);
    SumAppend(before, after);
  }

  /** Reordering does not change a sum. */
  lemma {:induction false} SumPermutation(a: seq<int>, b: seq<int>)
    requires multiset(a) == multiset(b)
    ensures Sum(a) == Sum(b)
    decreases |a|
  {
    if a != [] {
      assert a[0] in multiset(b);
      var i :| 0 <= i < |b| && b[i] == a[0];
      var b' := b[..i] + b[i + 1..];
      assert b == b[..i] + [b[i]] + b[i + 1..];
      assert multiset(b') == multiset(b) - multiset{b[i]};
      TailMultiset(a);
      SumPermutation(a[1..], b');
      SumRemove(b, i);
    }
  }

  /** With fewer than four elves, the answer is the sum of all totals. */
  lemma TopThreeOfFew(totals: seq<int>)
    requires |totals| <= 3
    ensures TopThree(totals) == Sum(totals)
  {
    var sorted := Sort(totals, IntGe);
    assert sorted[..|sorted|] == sorted;
    SortPermutes(totals, IntGe);
    SumPermutation(sorted, totals);
  }

  /** The answer does not depend on the order of the elves. */
  lemma TopThreeOrderIndependent(a: seq<int>, b: seq<int>)
    requires multiset(a) == multiset(b)
    ensures TopThree(a) == TopThree(b)
  {
    IntOrders();
    SortPermutationInvariant(a, b, IntGe);
  }

  /** With non-negative totals the answer is at least each elf's total. */
  lemma TopThreeAtLeastEach(totals: seq<int>, i: nat)
    requires i < |totals|
    requires forall j | 0 <= j < |totals| :: totals[j] >= 0
    ensures TopThree(totals) >= totals[i]
  {
    var sorted := Sort(totals, IntGe);
    IntOrders();
    SortSorted(totals, IntGe);
    SortPermutes(totals, IntGe);
    assert totals[i] in multiset(sorted);
    HeadIsLeast(sorted, totals[i], IntGe);
    var top := sorted[..Min(3, |sorted|)];
    forall j | 0 <= j < |top| ensures top[j] >= 0 {
      assert top[j] in multiset(totals);
    }
    assert top == [top[0]] + top[1..];
    SumNonNegative(top[1..]);
  }

  /** Each of the three elves counted carries at least as much as every
      elf left out. */
  lemma TopThreeAreLargest(totals: seq<int>, i: nat, j: nat)
    requires i < Min(3, |totals|) <= j < |totals|
    ensures Sort(totals, IntGe)[i] >= Sort(totals, IntGe)[j]
  {
    IntOrders();
    SortSorted(totals, IntGe);
  }
}
