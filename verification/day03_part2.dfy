/** Day 3, part 2: the badge of each group of three elves is the item all
    three rucksacks share; the priorities of the badges are summed. The
    priority mapping is part 1's. */
module Day03Part2 {
  import opened Common
  import opened Day03Part1

  /** `intersect` twice: the first item of the first rucksack that occurs
      in the other two. */
  function Badge(a: string, b: string, c: string): (r: Option<char>)
    ensures r.Some? ==> r.value in a && r.value in b && r.value in c
    ensures r.Some? ==> exists i | 0 <= i < |a| :: a[i] == r.value && forall j | 0 <= j < i :: a[j] !in b || a[j] !in c
    ensures r.None? <==> forall i | 0 <= i < |a| :: a[i] !in b || a[i] !in c
  {
    if a == [] then None
    else if a[0] in b && a[0] in c then Some(a[0])
    else
      var r := Badge(a[1..], b, c);
      assert r.Some? ==> exists i | 1 <= i < |a| :: a[i] == r.value && forall j | 0 <= j < i :: a[j] !in b || a[j] !in c by {
        if r.Some? {
          var k :| 0 <= k < |a[1..]| && a[1..][k] == r.value && forall j | 0 <= j < k :: a[1..][j] !in b || a[1..][j] !in c;
          assert a[k + 1] == r.value;
          forall j | 0 <= j < k + 1 ensures a[j] !in b || a[j] !in c {
            if j > 0 { assert a[j] == a[1..][j - 1]; }
          }
        }
      }
      r
  }

  /** A group the program can score: the three rucksacks share an item
      (otherwise `intersection[0]` panics) and the badge is a letter
      (otherwise `map_char_to_value` panics). */
  predicate ScorableGroup(a: string, b: string, c: string)
  {
    var badge := Badge(a, b, c);
    badge.Some? && IsItem(badge.value)
  }

  /** `array_chunks`: the lines in groups of three; a last group of fewer
      than three lines is dropped. */
  function Groups(lines: seq<string>): (gs: seq<(string, string, string)>)
    ensures |gs| == |lines| / 3
    ensures forall g | 0 <= g < |gs| :: gs[g] == (lines[3 * g], lines[3 * g + 1], lines[3 * g + 2])
  {
    if |lines| < 3 then [] else [(lines[0], lines[1], lines[2])] + Groups(lines[3..])
  }

  function Total(groups: seq<(string, string, string)>): int
    requires forall g | 0 <= g < |groups| :: ScorableGroup(groups[g].0, groups[g].1, groups[g].2)
  {
    if groups == [] then 0
    else
      assert ScorableGroup(groups[0].0, groups[0].1, groups[0].2);
      var badge := Badge(groups[0].0, groups[0].1, groups[0].2).value;
      Priority(badge) + Total(groups[1..])
  }

  /** The answer for a list of rucksacks. */
  function Answer(lines: seq<string>): int
    requires forall g | 0 <= g < |lines| / 3 :: ScorableGroup(lines[3 * g], lines[3 * g + 1], lines[3 * g + 2])
  {
    Total(Groups(lines))
  }

  /** When the three rucksacks share exactly one item, as the puzzle
      promises, the group adds that item's priority. */
  lemma BadgeIsSharedItem(a: string, b: string, c: string, x: char)
    requires x in a && x in b && x in c
    requires forall y | y in a && y in b && y in c :: y == x
    ensures Badge(a, b, c) == Some(x)
  {
  }

  /** Each group adds between 1 and 52, so the answer lies between the
      number of complete groups and 52 times it. */
  lemma {:induction false} TotalBounds(groups: seq<(string, string, string)>)
    requires forall g | 0 <= g < |groups| :: ScorableGroup(groups[g].0, groups[g].1, groups[g].2)
    ensures |groups| <= Total(groups) <= 52 * |groups|
  {
    if groups != [] {
      TotalBounds(groups[1..]);
    }
  }

  /** Lines after the last complete group do not change the answer. */
  lemma AnswerIgnoresIncompleteGroup(lines: seq<string>, extra: seq<string>)
    requires |lines| % 3 == 0 && |extra| < 3
    ensures Groups(lines + extra) == Groups(lines)
  {
    var all := lines + extra;
    assert |all| / 3 == |lines| / 3;
    var gs, hs := Groups(all), Groups(lines);
    forall g | 0 <= g < |gs| ensures gs[g] == hs[g] {
      assert all[3 * g] == lines[3 * g];
      assert all[3 * g + 1] == lines[3 * g + 1];
      assert all[3 * g + 2] == lines[3 * g + 2];
    }
  }
}
