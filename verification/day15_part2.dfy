/** Day 15, part 2: the distress beacon lies in the square
    `[0, 4000000]²`, out of every sensor's range and on no known beacon.
    The program walks the ring just outside each sensor's range and keeps
    the first position of the ring that nothing covers. */
module Day15Part2 {
  import opened Common
  import P1 = Day15Part1

  type Pos = P1.Pos

  /** The side of the search square. */
  const Limit := 4000000

  predicate InSquare(p: Pos)
  {
    0 <= p.0 <= Limit && 0 <= p.1 <= Limit
  }

  /** The closure `is_pos_in_sensor_range_or_is_beacon`: a position off
      the square counts as covered. */
  predicate Covered(sensors: map<Pos, nat>, beacons: set<Pos>, p: Pos)
  {
    !InSquare(p) || P1.InRange(sensors, p) || p in beacons
  }

  // ---------------------------------------------------------------------------
  // The ring around one sensor.

  /** The four positions the scan of sensor `s` tries at step `x1`, in the
      order it tries them. */
  function Candidates(s: Pos, dist: int, x1: int): seq<Pos>
  {
    var y1 := dist - x1;
    [(s.0 + x1, s.1 + y1), (s.0 - x1, s.1 - y1), (s.0 + x1, s.1 - y1), (s.0 - x1, s.1 + y1)]
  }

  /** Every candidate of a step in `0..=dist` lies exactly `dist` away
      from the sensor. */
  lemma CandidatesOnRing(s: Pos, dist: nat, x1: int)
    requires 0 <= x1 <= dist
    ensures forall i | 0 <= i < 4 :: P1.Manhattan(Candidates(s, dist, x1)[i], s) == dist
  {
  }

  /** Every position `dist` away from the sensor is a candidate of step
      `|x - s.x|`. */
  lemma RingIsCandidates(s: Pos, dist: nat, p: Pos)
    requires P1.Manhattan(p, s) == dist
    ensures 0 <= Abs(p.0 - s.0) <= dist
    ensures p in Candidates(s, dist, Abs(p.0 - s.0))
  {
    var c := Candidates(s, dist, Abs(p.0 - s.0));
    if p.0 >= s.0 && p.1 >= s.1 {
      assert p == c[0];
    } else if p.0 < s.0 && p.1 < s.1 {
      assert p == c[1];
    } else if p.0 >= s.0 {
      assert p == c[2];
    } else {
      assert p == c[3];
    }
  }

  /** The first uncovered position of `ps`. */
  function FirstUncovered(sensors: map<Pos, nat>, beacons: set<Pos>, ps: seq<Pos>): (r: Option<Pos>)
    ensures r.None? <==> forall i | 0 <= i < |ps| :: Covered(sensors, beacons, ps[i])
    ensures r.Some? ==> r.value in ps && !Covered(sensors, beacons, r.value)
  {
    if |ps| == 0 then None
    else if !Covered(sensors, beacons, ps[0]) then Some(ps[0])
    else
      var r := FirstUncovered(sensors, beacons, ps[1..]);
      assert forall i | 1 <= i < |ps| :: ps[i] == ps[1..][i - 1];
      r
  }

  /** The scan of one sensor's ring from step `x1` on: the first uncovered
      candidate, or `None` when every candidate of steps `x1..=dist` is
      covered. */
  function ScanFrom(sensors: map<Pos, nat>, beacons: set<Pos>, s: Pos, dist: nat, x1: nat): (r: Option<Pos>)
    ensures r.Some? ==> !Covered(sensors, beacons, r.value) && P1.Manhattan(r.value, s) == dist
    ensures r.None? ==> forall x | x1 <= x <= dist :: forall i | 0 <= i < 4 :: Covered(sensors, beacons, Candidates(s, dist, x)[i])
    decreases dist + 1 - x1
  {
    if x1 > dist then None
    else
      match FirstUncovered(sensors, beacons, Candidates(s, dist, x1))
      case Some(p) =>
        CandidatesOnRing(s, dist, x1);
        Some(p)
      case None => ScanFrom(sensors, beacons, s, dist, x1 + 1)
  }

  /** The scan of sensor `s`, whose ring lies one past its radius. */
  function ScanOf(sensors: map<Pos, nat>, beacons: set<Pos>, s: Pos): Option<Pos>
    requires s in sensors
  {
    ScanFrom(sensors, beacons, s, sensors[s] + 1, 0)
  }

  /** A scan that finds nothing leaves no uncovered position on the ring. */
  lemma ScanNoneCoversRing(sensors: map<Pos, nat>, beacons: set<Pos>, s: Pos)
    requires s in sensors && ScanOf(sensors, beacons, s).None?
    ensures forall p | P1.Manhattan(p, s) == sensors[s] + 1 :: Covered(sensors, beacons, p)
  {
    forall p | P1.Manhattan(p, s) == sensors[s] + 1
      ensures Covered(sensors, beacons, p)
    {
      RingIsCandidates(s, sensors[s] + 1, p);
    }
  }

  /** An uncovered position next to a position in range of sensor `s` lies
      on the ring of `s`: this is why walking the rings is enough. */
  lemma UncoveredNeighbourOnRing(sensors: map<Pos, nat>, beacons: set<Pos>, s: Pos, p: Pos, q: Pos)
    requires s in sensors && P1.Manhattan(q, s) <= sensors[s] && P1.Manhattan(p, q) == 1
    requires !Covered(sensors, beacons, p)
    ensures P1.Manhattan(p, s) == sensors[s] + 1
  {
    assert P1.Manhattan(p, s) > sensors[s];
  }

  /** The method form of the scan of one sensor (the `for x1 in 0..=dist`
      loop and its `break`). */
  method ScanSensor(sensors: map<Pos, nat>, beacons: set<Pos>, s: Pos, dist: nat) returns (found: Option<Pos>)
    ensures found == ScanFrom(sensors, beacons, s, dist, 0)
  {
    var x1: nat := 0;
    while x1 <= dist
      invariant x1 <= dist + 1
      invariant ScanFrom(sensors, beacons, s, dist, 0) == ScanFrom(sensors, beacons, s, dist, x1)
      decreases dist + 1 - x1
    {
      var y1: int := dist - x1;
      var y2: int := -y1;
      var x2: int := -(x1 as int);
      var pos1, pos2, pos3, pos4 := (s.0 + x1, s.1 + y1), (s.0 + x2, s.1 + y2), (s.0 + x1, s.1 + y2), (s.0 + x2, s.1 + y1);
      var c := Candidates(s, dist, x1);
      assert c == [pos1, pos2, pos3, pos4];
      if !Covered(sensors, beacons, pos1) {
        return Some(pos1);
      }
      assert c[1..] == [pos2, pos3, pos4];
      assert FirstUncovered(sensors, beacons, c) == FirstUncovered(sensors, beacons, c[1..]);
      if !Covered(sensors, beacons, pos2) {
        assert FirstUncovered(sensors, beacons, c[1..]) == Some(pos2);
        return Some(pos2);
      }
      assert c[1..][1..] == [pos3, pos4];
      assert FirstUncovered(sensors, beacons, c[1..]) == FirstUncovered(sensors, beacons, c[1..][1..]);
      if !Covered(sensors, beacons, pos3) {
        assert FirstUncovered(sensors, beacons, c[1..][1..]) == Some(pos3);
        return Some(pos3);
      }
      assert c[1..][1..][1..] == [pos4];
      assert FirstUncovered(sensors, beacons, c[1..][1..]) == FirstUncovered(sensors, beacons, c[1..][1..][1..]);
      if !Covered(sensors, beacons, pos4) {
        assert FirstUncovered(sensors, beacons, c[1..][1..][1..]) == Some(pos4);
        return Some(pos4);
      }
      x1 := x1 + 1;
    }
    return None;
  }

  // ---------------------------------------------------------------------------
  // The walk over every sensor.

  /** `order` lists every sensor once: the order in which the hash map
      hands out its entries. */
  predicate Enumerates(order: seq<Pos>, sensors: map<Pos, nat>)
  {
    (forall i | 0 <= i < |order| :: order[i] in sensors) &&
    (forall s | s in sensors :: s in order) &&
    (forall i, j | 0 <= i < j < |order| :: order[i] != order[j])
  }

  /** The last find of a run of scans: a later find replaces an earlier
      one. */
  function LastFind(finds: seq<Option<Pos>>): (r: Option<Pos>)
    ensures r.Some? ==> r in finds
  {
    if |finds| == 0 then None
    else if finds[|finds| - 1].Some? then finds[|finds| - 1]
    else LastFind(finds[..|finds| - 1])
  }

  /** Nothing is found exactly when no scan finds anything. */
  lemma {:induction false} LastFindNone(finds: seq<Option<Pos>>)
    ensures LastFind(finds).None? <==> forall i | 0 <= i < |finds| :: finds[i].None?
  {
    if |finds| > 0 {
      var front := finds[..|finds| - 1];
      LastFindNone(front);
      assert forall i | 0 <= i < |front| :: front[i] == finds[i];
    }
  }

  /** The result is the find of the last scan that finds something. */
  lemma {:induction false} LastFindIsLast(finds: seq<Option<Pos>>, i: nat)
    requires i < |finds| && finds[i].Some?
    requires forall j | i < j < |finds| :: finds[j].None?
    ensures LastFind(finds) == finds[i]
  {
    var n := |finds|;
    if i < n - 1 {
      var front := finds[..n - 1];
      assert forall k | 0 <= k < |front| :: front[k] == finds[k];
      LastFindIsLast(front, i);
    }
  }

  /** The scans of the sensors of `order`, in that order. */
  function Scans(sensors: map<Pos, nat>, beacons: set<Pos>, order: seq<Pos>): (r: seq<Option<Pos>>)
    requires forall i | 0 <= i < |order| :: order[i] in sensors
    ensures |r| == |order| && forall i | 0 <= i < |order| :: r[i] == ScanOf(sensors, beacons, order[i])
  {
    seq(|order|, i requires 0 <= i < |order| => ScanOf(sensors, beacons, order[i]))
  }

  /** The outer loop: every sensor's scan runs, and a later find replaces
      an earlier one. */
  function Search(sensors: map<Pos, nat>, beacons: set<Pos>, order: seq<Pos>): Option<Pos>
    requires forall i | 0 <= i < |order| :: order[i] in sensors
  {
    LastFind(Scans(sensors, beacons, order))
  }

  /** A find is an uncovered position of the square on some sensor's
      ring. */
  lemma SearchFindIsUncovered(sensors: map<Pos, nat>, beacons: set<Pos>, order: seq<Pos>)
    requires forall i | 0 <= i < |order| :: order[i] in sensors
    requires Search(sensors, beacons, order).Some?
    ensures var p := Search(sensors, beacons, order).value;
            InSquare(p) && !P1.InRange(sensors, p) && p !in beacons &&
            exists s | s in sensors :: P1.Manhattan(p, s) == sensors[s] + 1
  {
    var finds := Scans(sensors, beacons, order);
    var i :| 0 <= i < |finds| && finds[i] == LastFind(finds);
    assert finds[i] == ScanOf(sensors, beacons, order[i]);
  }

  /** When the search finds nothing, no uncovered position of the square
      touches a position in any sensor's range: the beacon, if there is
      one, is not walled in by the sensors' areas. */
  lemma SearchNoneMeansNoBorderGap(sensors: map<Pos, nat>, beacons: set<Pos>, order: seq<Pos>, p: Pos, q: Pos)
    requires Enumerates(order, sensors)
    requires Search(sensors, beacons, order).None?
    requires !Covered(sensors, beacons, p) && P1.Manhattan(p, q) == 1
    ensures !P1.InRange(sensors, q)
  {
    if P1.InRange(sensors, q) {
      var s :| s in sensors && P1.Manhattan(q, s) <= sensors[s];
      UncoveredNeighbourOnRing(sensors, beacons, s, p, q);
      var finds := Scans(sensors, beacons, order);
      LastFindNone(finds);
      var i :| 0 <= i < |order| && order[i] == s;
      assert finds[i] == ScanOf(sensors, beacons, s);
      ScanNoneCoversRing(sensors, beacons, s);
      assert false;
    }
  }

  /** The method form of the outer loop. */
  method FindBeacon(sensors: map<Pos, nat>, beacons: set<Pos>, order: seq<Pos>) returns (found: Option<Pos>)
    requires forall i | 0 <= i < |order| :: order[i] in sensors
    ensures found == Search(sensors, beacons, order)
  {
    ghost var finds := Scans(sensors, beacons, order);
    found := None;
    for i := 0 to |order|
      invariant found == LastFind(finds[..i])
    {
      var s := order[i];
      var here := ScanSensor(sensors, beacons, s, sensors[s] + 1);
      assert here == finds[i];
      ghost var prefix := finds[..i + 1];
      assert prefix[..i] == finds[..i] && prefix[i] == here;
      if here.Some? {
        found := here;
      }
      assert found == LastFind(prefix);
    }
    assert finds[..|order|] == finds;
  }

  // ---------------------------------------------------------------------------
  // The answer.

  /** The tuning frequency of a position. */
  function Frequency(p: Pos): int
  {
    p.0 * 4000000 + p.1
  }

  /** The frequency gives the position back, for a row below the square's
      last one. */
  lemma FrequencyDecodes(p: Pos)
    requires InSquare(p) && p.1 < Limit
    ensures Frequency(p) >= 0
    ensures Frequency(p) / 4000000 == p.0 && Frequency(p) % 4000000 == p.1
  {
  }

  /** The program's answer: the frequency of the find, `None` where
      `unwrap` panics because nothing was found. */
  function Part2(reports: seq<P1.Report>, order: seq<Pos>): Option<int>
    requires Enumerates(order, P1.SensorMap(reports))
  {
    match Search(P1.SensorMap(reports), P1.BeaconSet(reports), order)
    case Some(p) => Some(Frequency(p))
    case None => None
  }

  /** `main`: read the reports, walk the rings, print the frequency. */
  method Solve(reports: seq<P1.Report>, order: seq<Pos>) returns (result: Option<int>)
    requires Enumerates(order, P1.SensorMap(reports))
    ensures result == Part2(reports, order)
  {
    var sensors, beacons := P1.Collect(reports);
    var found := FindBeacon(sensors, beacons, order);
    match found
    case None =>
      return None;
    case Some(p) =>
      var frequency := p.0 * 4000000 + p.1;
      assert frequency == Frequency(p);
      return Some(frequency);
  }
}
