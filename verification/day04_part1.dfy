/** Day 4, part 1: count the pairs of section ranges in which one range
    fully contains the other. */
module Day04Part1 {

  /** The two ranges `xMin-xMax` and `yMin-yMax` of one line. */
  datatype Pair = Pair(xMin: int, xMax: int, yMin: int, yMax: int)

  /** The test of the fold: the second range lies inside the first, or the
      first inside the second. */
  predicate FullyContains(p: Pair)
  {
    (p.yMin >= p.xMin && p.yMax <= p.xMax) || (p.xMin >= p.yMin && p.xMax <= p.yMax)
  }

  function Swap(p: Pair): Pair
  {
    Pair(p.yMin, p.yMax, p.xMin, p.xMax)
  }

  /** The test does not depend on which range comes first. */
  lemma FullyContainsSymmetric(p: Pair)
    ensures FullyContains(Swap(p)) <==> FullyContains(p)
  {
  }

  /** A range always contains itself. */
  lemma IdenticalRangesCount(lo: int, hi: int)
    ensures FullyContains(Pair(lo, hi, lo, hi))
  {
  }

  ghost predicate Within(lo: int, hi: int, z: int)
  {
    lo <= z <= hi
  }

  /** For non-empty ranges, the test holds exactly when every section of one
      range is a section of the other. */
  lemma FullyContainsMeansSubset(p: Pair)
    requires p.xMin <= p.xMax && p.yMin <= p.yMax
    ensures FullyContains(p) <==>
              (forall z :: Within(p.yMin, p.yMax, z) ==> Within(p.xMin, p.xMax, z))
              || (forall z :: Within(p.xMin, p.xMax, z) ==> Within(p.yMin, p.yMax, z))
  {
    if !FullyContains(p) {
      var y1 := if p.yMin < p.xMin then p.yMin else p.yMax;
      assert Within(p.yMin, p.yMax, y1) && !Within(p.xMin, p.xMax, y1);
      var x1 := if p.xMin < p.yMin then p.xMin else p.xMax;
      assert Within(p.xMin, p.xMax, x1) && !Within(p.yMin, p.yMax, x1);
    }
  }

  /** The fold over the lines: one more for each line that passes the test. */
  function Count(pairs: seq<Pair>): (n: nat)
    ensures n <= |pairs|
  {
    if pairs == [] then 0 else (if FullyContains(pairs[0]) then 1 else 0) + Count(pairs[1..])
  }

  lemma {:induction false} CountAppend(a: seq<Pair>, b: seq<Pair>)
    ensures Count(a + b) == Count(a) + Count(b)
  {
    if a == [] {
      assert a + b == b;
    } else {
      assert (a + b)[1..] == a[1..] + b;
      CountAppend(a[1..], b);
    }
  }

  ghost function Passing(pairs: seq<Pair>, k: nat): set<nat>
  {
    set i: nat | i < k && i < |pairs| && FullyContains(pairs[i])
  }

  /** The count over the first `k` lines is the number of those lines that
      pass the test. */
  lemma {:induction false} CountPrefix(pairs: seq<Pair>, k: nat)
    requires k <= |pairs|
    ensures Count(pairs[..k]) == |Passing(pairs, k)|
  {
    if k > 0 {
      CountPrefix(pairs, k - 1);
      assert pairs[..k] == pairs[..k - 1] + [pairs[k - 1]];
      CountAppend(pairs[..k - 1], [pairs[k - 1]]);
      if FullyContains(pairs[k - 1]) {
        assert Passing(pairs, k) == Passing(pairs, k - 1) + {k - 1};
      } else {
        assert Passing(pairs, k) == Passing(pairs, k - 1);
      }
    } else {
      assert Passing(pairs, 0) == {};
    }
  }

  /** The count is the number of lines that pass the test. */
  lemma CountIsSize(pairs: seq<Pair>)
    ensures Count(pairs) == |Passing(pairs, |pairs|)|
  {
    CountPrefix(pairs, |pairs|);
    assert pairs[..|pairs|] == pairs;
  }
}
