/** Day 15, part 1: each sensor reports its closest beacon, so no other
    beacon lies within that Manhattan distance of the sensor. The answer
    counts the positions of row 2000000 that some sensor covers and that
    hold no known beacon. */
module Day15Part1 {
  import opened Common

  /** A position `(x, y)`. */
  type Pos = (int, int)

  /** One input line: a sensor and its closest beacon. */
  datatype Report = Report(sensor: Pos, beacon: Pos)

  function Manhattan(a: Pos, b: Pos): nat
  {
    Abs(a.0 - b.0) + Abs(a.1 - b.1)
  }

  /** The distance from the sensor to its beacon. */
  function Radius(r: Report): nat
  {
    Manhattan(r.sensor, r.beacon)
  }

  const Row := 2000000

  // ---------------------------------------------------------------------------
  // The input loop.

  /** The radius of every sensor, a later report of the same sensor
      replacing an earlier one. */
  function SensorMap(reports: seq<Report>): (m: map<Pos, nat>)
    ensures m.Keys == set k | 0 <= k < |reports| :: reports[k].sensor
  {
    if |reports| == 0 then map[]
    else
      var last := reports[|reports| - 1];
      var m := SensorMap(reports[..|reports| - 1]);
      assert forall k | 0 <= k < |reports| - 1 :: reports[..|reports| - 1][k] == reports[k];
      m[last.sensor := Radius(last)]
  }

  /** Every beacon position. */
  function BeaconSet(reports: seq<Report>): set<Pos>
  {
    set k | 0 <= k < |reports| :: reports[k].beacon
  }

  /** The index of the last report of sensor `s`, or -1 when there is
      none. */
  function LastOf(reports: seq<Report>, s: Pos): (k: int)
    ensures -1 <= k < |reports|
    ensures k >= 0 ==> reports[k].sensor == s
    ensures forall j | k < j < |reports| :: reports[j].sensor != s
  {
    if |reports| == 0 then -1
    else if reports[|reports| - 1].sensor == s then |reports| - 1
    else LastOf(reports[..|reports| - 1], s)
  }

  /** A sensor's radius is that of its last report, and a position is a
      sensor exactly when some report names it. */
  lemma {:induction false} LastReportWins(reports: seq<Report>, s: Pos)
    ensures s in SensorMap(reports) <==> LastOf(reports, s) >= 0
    ensures s in SensorMap(reports) ==> SensorMap(reports)[s] == Radius(reports[LastOf(reports, s)])
  {
    var n := |reports|;
    if n > 0 && reports[n - 1].sensor != s {
      var front := reports[..n - 1];
      LastReportWins(front, s);
      if LastOf(front, s) >= 0 {
        assert reports[LastOf(front, s)] == front[LastOf(front, s)];
      }
    }
  }

  /** The input loop: insert every sensor with its radius, and every
      beacon. */
  method Collect(reports: seq<Report>) returns (sensors: map<Pos, nat>, beacons: set<Pos>)
    ensures sensors == SensorMap(reports) && beacons == BeaconSet(reports)
  {
    sensors, beacons := map[], {};
    for i := 0 to |reports|
      invariant sensors == SensorMap(reports[..i])
      invariant beacons == BeaconSet(reports[..i])
    {
      var r := reports[i];
      assert reports[..i + 1][..i] == reports[..i];
      sensors := sensors[r.sensor := Manhattan(r.sensor, r.beacon)];
      beacons := beacons + {r.beacon};
      assert BeaconSet(reports[..i + 1]) == BeaconSet(reports[..i]) + {r.beacon} by {
        forall k | 0 <= k < i ensures reports[..i + 1][k] == reports[..i][k] {}
      }
    }
    assert reports[..|reports|] == reports;
  }

  // ---------------------------------------------------------------------------
  // Coverage.

  /** Some sensor is at most its radius away from `p`. */
  predicate InRange(sensors: map<Pos, nat>, p: Pos)
  {
    exists s | s in sensors :: Manhattan(p, s) <= sensors[s]
  }

  /** `p` is counted: in range of a sensor and not a known beacon. */
  predicate Counted(sensors: map<Pos, nat>, beacons: set<Pos>, p: Pos)
  {
    InRange(sensors, p) && p !in beacons
  }

  /** The `fold` over `x` from `x` to `hi` on row `y`, adding one for each
      counted position to `acc`. */
  function FoldRow(sensors: map<Pos, nat>, beacons: set<Pos>, y: int, x: int, hi: int, acc: nat): nat
    decreases hi - x + 1
  {
    if x > hi then acc
    else FoldRow(sensors, beacons, y, x + 1, hi, if Counted(sensors, beacons, (x, y)) then acc + 1 else acc)
  }

  /** The counted positions of row `y` with `x` from `lo` to `hi`. */
  function RowCounted(sensors: map<Pos, nat>, beacons: set<Pos>, y: int, lo: int, hi: int): set<int>
  {
    set x | lo <= x <= hi && Counted(sensors, beacons, (x, y))
  }

  /** The fold adds the number of counted positions of its range. */
  lemma {:induction false} FoldRowCounts(sensors: map<Pos, nat>, beacons: set<Pos>, y: int, x: int, hi: int, acc: nat)
    ensures FoldRow(sensors, beacons, y, x, hi, acc) == acc + |RowCounted(sensors, beacons, y, x, hi)|
    decreases hi - x + 1
  {
    if x <= hi {
      var c := Counted(sensors, beacons, (x, y));
      FoldRowCounts(sensors, beacons, y, x + 1, hi, if c then acc + 1 else acc);
      var rest := RowCounted(sensors, beacons, y, x + 1, hi);
      if c {
        assert RowCounted(sensors, beacons, y, x, hi) == {x} + rest;
      } else {
        assert RowCounted(sensors, beacons, y, x, hi) == rest;
      }
    } else {
      assert RowCounted(sensors, beacons, y, x, hi) == {};
    }
  }

  // ---------------------------------------------------------------------------
  // The answer.

  /** The least x of every sensor and beacon. */
  function MinX(reports: seq<Report>): (r: int)
    requires |reports| > 0
    ensures forall k | 0 <= k < |reports| :: r <= reports[k].sensor.0 && r <= reports[k].beacon.0
    ensures exists k | 0 <= k < |reports| :: r == reports[k].sensor.0 || r == reports[k].beacon.0
  {
    var here := Min(reports[0].sensor.0, reports[0].beacon.0);
    if |reports| == 1 then here
    else
      var rest := MinX(reports[1..]);
      assert forall k | 1 <= k < |reports| :: reports[k] == reports[1..][k - 1];
      Min(here, rest)
  }

  /** The greatest x of every sensor and beacon. */
  function MaxX(reports: seq<Report>): (r: int)
    requires |reports| > 0
    ensures forall k | 0 <= k < |reports| :: reports[k].sensor.0 <= r && reports[k].beacon.0 <= r
    ensures exists k | 0 <= k < |reports| :: r == reports[k].sensor.0 || r == reports[k].beacon.0
  {
    var here := Max(reports[0].sensor.0, reports[0].beacon.0);
    if |reports| == 1 then here
    else
      var rest := MaxX(reports[1..]);
      assert forall k | 1 <= k < |reports| :: reports[k] == reports[1..][k - 1];
      Max(here, rest)
  }

  /** The program's answer: the counted positions of row 2000000 with `x`
      from `min_x - 10000000` to `max_x + 1000000`; `None` when there is no
      report (`minmax` finds nothing to unwrap). */
  function Part1(reports: seq<Report>): Option<nat>
  {
    if |reports| == 0 then None
    else
      Some(FoldRow(SensorMap(reports), BeaconSet(reports), Row, MinX(reports) - 10000000, MaxX(reports) + 1000000, 0))
  }

  /** The answer is the number of counted positions in the scanned stretch
      of the row. */
  lemma Part1Counts(reports: seq<Report>)
    requires |reports| > 0
    ensures Part1(reports) == Some(|RowCounted(SensorMap(reports), BeaconSet(reports), Row, MinX(reports) - 10000000, MaxX(reports) + 1000000)|)
  {
    var sensors, beacons := SensorMap(reports), BeaconSet(reports);
    var lo, hi := MinX(reports) - 10000000, MaxX(reports) + 1000000;
    FoldRowCounts(sensors, beacons, Row, lo, hi, 0);
  }

  /** `main`: read the reports, find the bounds, fold over the row. */
  method Solve(reports: seq<Report>) returns (result: Option<nat>)
    ensures result == Part1(reports)
  {
    var sensors, beacons := Collect(reports);
    if |reports| == 0 {
      return None;
    }
    var minX, maxX := MinX(reports), MaxX(reports);
    result := Some(FoldRow(sensors, beacons, Row, minX - 10000000, maxX + 1000000, 0));
  }

  // ---------------------------------------------------------------------------
  // The scanned stretch of the row.

  /** The leftmost x any report's sensor reaches. */
  function ReachLo(reports: seq<Report>): (r: int)
    requires |reports| > 0
    ensures forall k | 0 <= k < |reports| :: r <= reports[k].sensor.0 - Radius(reports[k])
  {
    var here := reports[0].sensor.0 - Radius(reports[0]);
    if |reports| == 1 then here
    else
      var rest := ReachLo(reports[1..]);
      assert forall k | 1 <= k < |reports| :: reports[k] == reports[1..][k - 1];
      Min(here, rest)
  }

  /** The rightmost x any report's sensor reaches. */
  function ReachHi(reports: seq<Report>): (r: int)
    requires |reports| > 0
    ensures forall k | 0 <= k < |reports| :: reports[k].sensor.0 + Radius(reports[k]) <= r
  {
    var here := reports[0].sensor.0 + Radius(reports[0]);
    if |reports| == 1 then here
    else
      var rest := ReachHi(reports[1..]);
      assert forall k | 1 <= k < |reports| :: reports[k] == reports[1..][k - 1];
      Max(here, rest)
  }

  /** The count over the stretch every sensor can reach. */
  function Part1Corrected(reports: seq<Report>): Option<nat>
  {
    if |reports| == 0 then None
    else Some(FoldRow(SensorMap(reports), BeaconSet(reports), Row, ReachLo(reports), ReachHi(reports), 0))
  }

  /** Every counted position of the row lies in the reach of the sensors,
      so the corrected count is the number of all counted positions of the
      row. */
  lemma CorrectedCountsWholeRow(reports: seq<Report>)
    requires |reports| > 0
    ensures forall x | Counted(SensorMap(reports), BeaconSet(reports), (x, Row)) :: ReachLo(reports) <= x <= ReachHi(reports)
    ensures Part1Corrected(reports) == Some(|RowCounted(SensorMap(reports), BeaconSet(reports), Row, ReachLo(reports), ReachHi(reports))|)
  {
    var sensors := SensorMap(reports);
    forall x | Counted(sensors, BeaconSet(reports), (x, Row))
      ensures ReachLo(reports) <= x <= ReachHi(reports)
    {
      var s :| s in sensors && Manhattan((x, Row), s) <= sensors[s];
      LastReportWins(reports, s);
      var k := LastOf(reports, s);
      assert sensors[s] == Radius(reports[k]);
    }
    FoldRowCounts(sensors, BeaconSet(reports), Row, ReachLo(reports), ReachHi(reports), 0);
  }

  /** One sensor at (0, 2000000) whose beacon is at (-1500000, 2000000). */
  const FarReports: seq<Report> := [Report((0, 2000000), (-1500000, 2000000))]

  /** The sensor covers (1000001, 2000000), which holds no beacon, yet the
      fold stops at `max_x + 1000000`, which is 1000000: the position is
      left out of the answer. */
  lemma ScanMissesCoveredPosition()
    ensures Counted(SensorMap(FarReports), BeaconSet(FarReports), (1000001, Row))
    ensures MaxX(FarReports) + 1000000 < 1000001
    ensures 1000001 !in RowCounted(SensorMap(FarReports), BeaconSet(FarReports), Row, MinX(FarReports) - 10000000, MaxX(FarReports) + 1000000)
  {
    var sensors := SensorMap(FarReports);
    assert sensors == map[(0, 2000000) := 1500000];
    assert BeaconSet(FarReports) == {(-1500000, 2000000)};
    assert Manhattan((1000001, Row), (0, 2000000)) <= sensors[(0, 2000000)];
    assert MaxX(FarReports) == 0;
  }
}
