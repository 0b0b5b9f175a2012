/** Day 6: the start-of-packet marker (the first four distinct characters)
    and the start-of-message marker (the first fourteen). */
module Day06 {
  import opened Common

  /** The set of characters of a window: `unique()` keeps one of each. */
  function Chars(w: seq<char>): set<char>
  {
    set i | 0 <= i < |w| :: w[i]
  }

  predicate AllDistinct(w: seq<char>)
  {
    forall i, j | 0 <= i < j < |w| :: w[i] != w[j]
  }

  /** `unique().count() == n` on a window of `n` characters holds exactly
      when its characters are pairwise distinct. */
  lemma {:induction false} UniqueCountMeansDistinct(w: seq<char>)
    ensures |Chars(w)| == |w| <==> AllDistinct(w)
    ensures |Chars(w)| <= |w|
  {
    if w != [] {
      UniqueCountMeansDistinct(w[1..]);
      assert Chars(w) == {w[0]} + Chars(w[1..]) by {
        forall c | c in Chars(w) ensures c in {w[0]} + Chars(w[1..]) {
          var i :| 0 <= i < |w| && w[i] == c;
          if i > 0 { assert w[1..][i - 1] == c; }
        }
      }
      if w[0] in Chars(w[1..]) {
        var k :| 0 <= k < |w[1..]| && w[1..][k] == w[0];
        assert w[0] == w[k + 1];
      } else {
        assert AllDistinct(w) <==> AllDistinct(w[1..]) by {
          if AllDistinct(w[1..]) {
            forall i, j | 0 <= i < j < |w| ensures w[i] != w[j] {
              if i == 0 {
                assert w[j] == w[1..][j - 1];
              } else {
                assert w[i] == w[1..][i - 1] && w[j] == w[1..][j - 1];
              }
            }
          }
          if AllDistinct(w) {
            forall i, j | 0 <= i < j < |w[1..]| ensures w[1..][i] != w[1..][j] {
              assert w[1..][i] == w[i + 1] && w[1..][j] == w[j + 1];
            }
          }
        }
      }
    } else {
      assert Chars(w) == {};
    }
  }

  /** The test the loop applies to the window starting at `i`. */
  predicate IsMarker(s: seq<char>, n: nat, i: nat)
    requires i + n <= |s|
  {
    |Chars(s[i..i + n])| == n
  }

  /** The loop over `windows(n)` from window `i` on: the end of the first
      window that passes, or nothing when none does. */
  function FirstMarkerFrom(s: seq<char>, n: nat, i: nat): (r: Option<nat>)
    requires n >= 1
    ensures r.Some? ==> i + n <= r.value <= |s| && IsMarker(s, n, r.value - n)
    ensures r.Some? ==> forall k | i <= k < r.value - n :: !IsMarker(s, n, k)
    ensures r.None? ==> forall k | i <= k && k + n <= |s| :: !IsMarker(s, n, k)
    decreases |s| - i
  {
    if i + n > |s| then None
    else if IsMarker(s, n, i) then Some(i + n)
    else FirstMarkerFrom(s, n, i + 1)
  }

  /** The position just after the first marker of length `n`, if any. */
  function FirstMarker(s: seq<char>, n: nat): Option<nat>
    requires n >= 1
  {
    FirstMarkerFrom(s, n, 0)
  }

  /** The `n` characters starting at `k` are pairwise distinct. */
  predicate DistinctWindow(s: seq<char>, n: nat, k: nat)
    requires k + n <= |s|
  {
    AllDistinct(s[k..k + n])
  }

  lemma MarkerMeansDistinct(s: seq<char>, n: nat)
    ensures forall k: nat | k + n <= |s| :: IsMarker(s, n, k) <==> DistinctWindow(s, n, k)
  {
    forall k: nat | k + n <= |s| ensures IsMarker(s, n, k) <==> DistinctWindow(s, n, k) {
      UniqueCountMeansDistinct(s[k..k + n]);
    }
  }

  /** The marker found is the first window of `n` pairwise distinct
      characters, and none is found only when no window qualifies. */
  lemma FirstMarkerIsFirstDistinctWindow(s: seq<char>, n: nat)
    requires n >= 1
    ensures var r := FirstMarker(s, n);
            && (r.Some? ==> (n <= r.value <= |s| && DistinctWindow(s, n, r.value - n)
                             && forall k | 0 <= k < r.value - n :: !DistinctWindow(s, n, k)))
            && (r.None? ==> forall k | 0 <= k && k + n <= |s| :: !DistinctWindow(s, n, k))
  {
    MarkerMeansDistinct(s, n);
  }

  /** Part 1 and part 2: the markers of length 4 and 14. */
  function Answers(s: seq<char>): (Option<nat>, Option<nat>)
  {
    (FirstMarker(s, 4), FirstMarker(s, 14))
  }

  /** A window of fourteen distinct characters ends with four, so the
      message marker is never found before the packet marker. */
  lemma PacketBeforeMessage(s: seq<char>)
    requires FirstMarker(s, 14).Some?
    ensures FirstMarker(s, 4).Some? && FirstMarker(s, 4).value <= FirstMarker(s, 14).value
  {
    var m := FirstMarker(s, 14).value;
    FirstMarkerIsFirstDistinctWindow(s, 14);
    FirstMarkerIsFirstDistinctWindow(s, 4);
    var big := s[m - 14..m];
    var w := s[m - 4..m];
    assert DistinctWindow(s, 4, m - 4) by {
      forall i, j | 0 <= i < j < 4 ensures w[i] != w[j] {
        assert w[i] == big[10 + i] && w[j] == big[10 + j];
      }
    }
  }
}
