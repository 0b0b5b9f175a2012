/** Day 3, part 1: the priority of the item found in both compartments of
    each rucksack, summed. */
module Day03Part1 {
  import opened Common

  predicate IsItem(c: char)
  {
    'a' <= c <= 'z' || 'A' <= c <= 'Z'
  }

  /** `map_char_to_value`: `a`..`z` are 1..26 and `A`..`Z` are 27..52; any
      other character is unreachable. */
  function Priority(c: char): (p: int)
    requires IsItem(c)
    ensures 1 <= p <= 52
    ensures 'a' <= c <= 'z' <==> p <= 26
  {
    if 'a' <= c <= 'z' then c as int - 'a' as int + 1 else c as int - 'A' as int + 1 + 26
  }

  /** The item with priority `p`. */
  function ItemOf(p: int): (c: char)
    requires 1 <= p <= 52
    ensures IsItem(c)
  {
    if p <= 26 then ('a' as int + p - 1) as char else ('A' as int + p - 27) as char
  }

  /** A priority names exactly one item. */
  lemma PriorityRoundTrip(c: char, p: int)
    requires IsItem(c) && 1 <= p <= 52
    ensures ItemOf(Priority(c)) == c
    ensures Priority(ItemOf(p)) == p
  {
  }

  /** Different items have different priorities. */
  lemma PriorityInjective(c: char, d: char)
    requires IsItem(c) && IsItem(d) && Priority(c) == Priority(d)
    ensures c == d
  {
    PriorityRoundTrip(c, 1);
    PriorityRoundTrip(d, 1);
  }

  /** `intersect` keeps the elements of its receiver, in order, that occur
      in its argument; the programs read the first of them: the first item
      of `a` that occurs in `b`. */
  function FirstCommon(a: seq<char>, b: seq<char>): (r: Option<char>)
    ensures r.Some? ==> r.value in a && r.value in b
    ensures r.Some? ==> exists i | 0 <= i < |a| :: a[i] == r.value && forall j | 0 <= j < i :: a[j] !in b
    ensures r.None? <==> forall i | 0 <= i < |a| :: a[i] !in b
  {
    if a == [] then None
    else if a[0] in b then Some(a[0])
    else
      var r := FirstCommon(a[1..], b);
      assert r.Some? ==> exists i | 1 <= i < |a| :: a[i] == r.value && forall j | 0 <= j < i :: a[j] !in b by {
        if r.Some? {
          var k :| 0 <= k < |a[1..]| && a[1..][k] == r.value && forall j | 0 <= j < k :: a[1..][j] !in b;
          assert a[k + 1] == r.value;
          forall j | 0 <= j < k + 1 ensures a[j] !in b {
            if j > 0 { assert a[j] == a[1..][j - 1]; }
          }
        }
      }
      r
  }

  /** `split_at(len / 2)`: the first compartment gets the shorter half of an
      odd-length line. */
  function Halves(line: string): (h: (string, string))
    ensures h.0 + h.1 == line && |h.0| == |line| / 2
  {
    (line[..|line| / 2], line[|line| / 2..])
  }

  /** A rucksack the program can score: the two compartments share an
      item (otherwise `intersection[0]` panics) and the first one shared is
      a letter (otherwise `map_char_to_value` panics). */
  predicate Scorable(line: string)
  {
    var common := FirstCommon(Halves(line).0, Halves(line).1);
    common.Some? && IsItem(common.value)
  }

  /** The value of a rucksack: the priority of an item found in both
      compartments. */
  function RucksackValue(line: string): (v: int)
    requires Scorable(line)
    ensures exists c | c in Halves(line).0 && c in Halves(line).1 :: IsItem(c) && v == Priority(c)
    ensures v == Priority(FirstCommon(Halves(line).0, Halves(line).1).value)
  {
    var h := Halves(line);
    var c := FirstCommon(h.0, h.1).value;
    assert c in line by { assert line == h.0 + h.1; }
    Priority(c)
  }

  /** When the two compartments share exactly one item, as the puzzle
      promises, the value is that item's priority. */
  lemma RucksackValueOfSharedItem(line: string, c: char)
    requires Scorable(line)
    requires c in Halves(line).0 && c in Halves(line).1
    requires forall d | d in Halves(line).0 && d in Halves(line).1 :: d == c
    ensures RucksackValue(line) == Priority(c)
  {
  }

  function Total(lines: seq<string>): int
    requires forall i | 0 <= i < |lines| :: Scorable(lines[i])
  {
    if lines == [] then 0 else RucksackValue(lines[0]) + Total(lines[1..])
  }

  /** Every rucksack adds between 1 and 52 to the total. */
  lemma {:induction false} TotalBounds(lines: seq<string>)
    requires forall i | 0 <= i < |lines| :: Scorable(lines[i])
    ensures |lines| <= Total(lines) <= 52 * |lines|
  {
    if lines != [] {
      TotalBounds(lines[1..]);
    }
  }
}
