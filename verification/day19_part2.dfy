/** Day 19, part 2: the same robots over 32 minutes, with a search that
    prunes harder: it stops building a robot kind once there are as many
    as any robot can spend in a minute, and after waiting it does not build
    a robot it could already have built. The answer multiplies the geodes
    of the first three blueprints. */
module Day19Part2 {
  import opened Common
  import P1 = Day19Part1

  /** The counts of part 1 and the three flags that forbid building a kind
      of robot in the coming minute. */
  datatype Stat = Stat(counts: P1.Stat, noOreRobot: bool, noClayRobot: bool, noObsidianRobot: bool)

  const InitTime := 32

  /** One ore robot, nothing else, no flag set. */
  function Start(): Stat
  {
    Stat(P1.Start(), false, false, false)
  }

  /** The state after building a robot other than a geode robot: every flag
      is cleared. */
  function Fresh(counts: P1.Stat): Stat
  {
    Stat(counts, false, false, false)
  }

  /** The search tries an obsidian robot: not forbidden, affordable, obsidian
      short of what the remaining minutes could spend, and fewer obsidian
      robots than a geode robot costs obsidian. */
  predicate MakeObsidian(ctx: P1.Context, b: P1.Blueprint, s: Stat, minutes: nat)
  {
    var p := s.counts;
    !s.noObsidianRobot && P1.CanBuild(b, p, P1.BuildObsidian) &&
    !(p.obsidian >= ctx.maxObsidianCost * minutes) && !(p.obsidianRobot >= ctx.maxObsidianCost)
  }

  /** The search tries a clay robot: not forbidden, affordable, clay short,
      fewer clay robots than an obsidian robot costs clay, fewer obsidian
      robots than a geode robot costs obsidian, and more than two minutes
      left. */
  predicate MakeClay(ctx: P1.Context, b: P1.Blueprint, s: Stat, minutes: nat)
  {
    var p := s.counts;
    !s.noClayRobot && P1.CanBuild(b, p, P1.BuildClay) &&
    !(p.clay >= ctx.maxClayCost * minutes) && !(p.clayRobot >= ctx.maxClayCost) &&
    !(p.obsidianRobot >= ctx.maxObsidianCost) && minutes > 2
  }

  /** The search tries an ore robot: not forbidden, affordable, ore short,
      and fewer ore robots than the largest ore cost. */
  predicate MakeOre(ctx: P1.Context, b: P1.Blueprint, s: Stat, minutes: nat)
  {
    var p := s.counts;
    !s.noOreRobot && P1.CanBuild(b, p, P1.BuildOre) &&
    !(p.ore >= ctx.maxOreCost * minutes) && !(p.oreRobot >= ctx.maxOreCost)
  }

  /** The state the search passes down after action `a`: a geode robot keeps
      the flags, another robot clears them, and waiting forbids exactly the
      robots the search has just tried. */
  function Child(ctx: P1.Context, b: P1.Blueprint, s: Stat, a: P1.Action, minutes: nat): (c: Stat)
    ensures c.counts == P1.Next(b, s.counts, a)
  {
    var stat := P1.Collect(s.counts);
    match a
    case BuildGeode => s.(counts := P1.Build(b, stat, a))
    case Wait => Stat(stat, MakeOre(ctx, b, s, minutes), MakeClay(ctx, b, s, minutes), MakeObsidian(ctx, b, s, minutes))
    case _ => Fresh(P1.Build(b, stat, a))
  }

  // `b` ends the `decreases` clauses of the searches for the reason given
  // in `Day19Part1`: the minutes are the literal 32 at the top.

  /** `go` of part 2. With one minute left it only mines. An affordable geode
      robot is built and nothing else is tried; otherwise an obsidian, a
      clay and an ore robot when the search tries them, and waiting. The best
      starts at 0. */
  function Go(ctx: P1.Context, b: P1.Blueprint, previous: Stat, minutes: nat): (r: int)
    ensures previous.counts.geode >= 0 && previous.counts.geodeRobot >= 0 ==> r >= previous.counts.geode
    decreases minutes, b
  {
    if minutes == 0 then previous.counts.geode
    else
      var stat := P1.Collect(previous.counts);
      if minutes == 1 then stat.geode
      else if P1.CanBuild(b, previous.counts, P1.BuildGeode) then
        Max(0, Go(ctx, b, Child(ctx, b, previous, P1.BuildGeode, minutes), minutes - 1))
      else
        var afterObsidian :=
          if MakeObsidian(ctx, b, previous, minutes) then
            Max(0, Go(ctx, b, Child(ctx, b, previous, P1.BuildObsidian, minutes), minutes - 1))
          else 0;
        var afterClay :=
          if MakeClay(ctx, b, previous, minutes) then
            Max(afterObsidian, Go(ctx, b, Child(ctx, b, previous, P1.BuildClay, minutes), minutes - 1))
          else afterObsidian;
        var afterOre :=
          if MakeOre(ctx, b, previous, minutes) then
            Max(afterClay, Go(ctx, b, Child(ctx, b, previous, P1.BuildOre, minutes), minutes - 1))
          else afterClay;
        Max(afterOre, Go(ctx, b, Child(ctx, b, previous, P1.Wait, minutes), minutes - 1))
  }

  /** What the search allows in a state with `minutes` left: an affordable
      geode robot excludes everything else while more than one minute is
      left, and the other robots obey the flags and the caps of
      `MakeObsidian`, `MakeClay` and `MakeOre`. */
  predicate Allowed(ctx: P1.Context, b: P1.Blueprint, s: Stat, a: P1.Action, minutes: nat)
  {
    (minutes > 1 && P1.CanBuild(b, s.counts, P1.BuildGeode) ==> a == P1.BuildGeode) &&
    (a == P1.BuildObsidian ==> minutes > 1 && MakeObsidian(ctx, b, s, minutes)) &&
    (a == P1.BuildClay ==> minutes > 1 && MakeClay(ctx, b, s, minutes)) &&
    (a == P1.BuildOre ==> minutes > 1 && MakeOre(ctx, b, s, minutes))
  }

  /** Every action of the schedule is allowed in the state it starts from. */
  ghost predicate Pruned(ctx: P1.Context, b: P1.Blueprint, s: Stat, plan: seq<P1.Action>)
    decreases |plan|
  {
    plan == [] ||
    (Allowed(ctx, b, s, plan[0], |plan|) &&
     Pruned(ctx, b, Child(ctx, b, s, plan[0], |plan|), plan[1..]))
  }

  lemma PrunedCons(ctx: P1.Context, b: P1.Blueprint, s: Stat, a: P1.Action, plan: seq<P1.Action>)
    requires Allowed(ctx, b, s, a, |plan| + 1) && Pruned(ctx, b, Child(ctx, b, s, a, |plan| + 1), plan)
    ensures Pruned(ctx, b, s, [a] + plan)
  {
    assert ([a] + plan)[1..] == plan;
  }

  /** A schedule for the branch `Go` keeps: `p` unless `a` is tried and does
      strictly better than `v`. */
  function Keep(ctx: P1.Context, b: P1.Blueprint, s: Stat, minutes: nat, tried: bool, a: P1.Action,
                v: int, p: seq<P1.Action>): (q: seq<P1.Action>)
    requires minutes > 1 && s.counts.geode >= 0 && s.counts.geodeRobot >= 0
    requires |p| == minutes && P1.Run(b, s.counts, p).Some? && P1.Run(b, s.counts, p).value.geode == v
    requires Pruned(ctx, b, s, p)
    requires tried ==> P1.CanBuild(b, s.counts, a) && Allowed(ctx, b, s, a, minutes)
    ensures |q| == minutes && P1.Run(b, s.counts, q).Some? && Pruned(ctx, b, s, q)
    ensures P1.Run(b, s.counts, q).value.geode == P1.Try(tried, v, Go(ctx, b, Child(ctx, b, s, a, minutes), minutes - 1))
    decreases minutes, 0, b
  {
    if tried && Go(ctx, b, Child(ctx, b, s, a, minutes), minutes - 1) > v then
      var q := [a] + GoPlan(ctx, b, Child(ctx, b, s, a, minutes), minutes - 1);
      P1.RunCons(b, s.counts, a, q[1..]);
      PrunedCons(ctx, b, s, a, q[1..]);
      assert [a] + q[1..] == q;
      q
    else p
  }

  /** The schedule whose geodes `Go` returns, one the search allows at
      every step. */
  function GoPlan(ctx: P1.Context, b: P1.Blueprint, previous: Stat, minutes: nat): (p: seq<P1.Action>)
    requires previous.counts.geode >= 0 && previous.counts.geodeRobot >= 0
    ensures |p| == minutes && P1.Run(b, previous.counts, p).Some?
    ensures P1.Run(b, previous.counts, p).value.geode == Go(ctx, b, previous, minutes)
    ensures Pruned(ctx, b, previous, p)
    decreases minutes, 2, b
  {
    var s := previous;
    if minutes == 0 then []
    else if minutes == 1 then
      P1.RunCons(b, s.counts, P1.Wait, []);
      PrunedCons(ctx, b, s, P1.Wait, []);
      assert [P1.Wait] + [] == [P1.Wait];
      [P1.Wait]
    else if P1.CanBuild(b, s.counts, P1.BuildGeode) then
      var q := [P1.BuildGeode] + GoPlan(ctx, b, Child(ctx, b, s, P1.BuildGeode, minutes), minutes - 1);
      P1.RunCons(b, s.counts, P1.BuildGeode, q[1..]);
      PrunedCons(ctx, b, s, P1.BuildGeode, q[1..]);
      assert [P1.BuildGeode] + q[1..] == q;
      q
    else Branches(ctx, b, s, minutes)
  }

  /** With no geode robot affordable, `Go` is the best of waiting and of
      the robots the search tries, in whatever order they are weighed. */
  lemma GoBranches(ctx: P1.Context, b: P1.Blueprint, s: Stat, minutes: nat)
    requires minutes > 1 && !P1.CanBuild(b, s.counts, P1.BuildGeode)
    requires s.counts.geode >= 0 && s.counts.geodeRobot >= 0
    ensures Go(ctx, b, s, minutes) ==
      P1.Try(MakeObsidian(ctx, b, s, minutes),
          P1.Try(MakeClay(ctx, b, s, minutes),
              P1.Try(MakeOre(ctx, b, s, minutes),
                  Go(ctx, b, Child(ctx, b, s, P1.Wait, minutes), minutes - 1),
                  Go(ctx, b, Child(ctx, b, s, P1.BuildOre, minutes), minutes - 1)),
              Go(ctx, b, Child(ctx, b, s, P1.BuildClay, minutes), minutes - 1)),
          Go(ctx, b, Child(ctx, b, s, P1.BuildObsidian, minutes), minutes - 1))
  {
  }

  /** `GoPlan` when no geode robot is affordable: waiting, then each robot
      the search tries, keeping the best. */
  function Branches(ctx: P1.Context, b: P1.Blueprint, s: Stat, minutes: nat): (p: seq<P1.Action>)
    requires minutes > 1 && !P1.CanBuild(b, s.counts, P1.BuildGeode)
    requires s.counts.geode >= 0 && s.counts.geodeRobot >= 0
    ensures |p| == minutes && P1.Run(b, s.counts, p).Some?
    ensures P1.Run(b, s.counts, p).value.geode == Go(ctx, b, s, minutes)
    ensures Pruned(ctx, b, s, p)
    decreases minutes, 1, b
  {
    var wait := [P1.Wait] + GoPlan(ctx, b, Child(ctx, b, s, P1.Wait, minutes), minutes - 1);
    P1.RunCons(b, s.counts, P1.Wait, wait[1..]);
    PrunedCons(ctx, b, s, P1.Wait, wait[1..]);
    assert [P1.Wait] + wait[1..] == wait;
    var vw := Go(ctx, b, Child(ctx, b, s, P1.Wait, minutes), minutes - 1);
    var ore := MakeOre(ctx, b, s, minutes);
    var clay := MakeClay(ctx, b, s, minutes);
    var obsidian := MakeObsidian(ctx, b, s, minutes);
    GoBranches(ctx, b, s, minutes);
    var pr := Keep(ctx, b, s, minutes, ore, P1.BuildOre, vw, wait);
    var vr := P1.Try(ore, vw, Go(ctx, b, Child(ctx, b, s, P1.BuildOre, minutes), minutes - 1));
    var pc := Keep(ctx, b, s, minutes, clay, P1.BuildClay, vr, pr);
    var vc := P1.Try(clay, vr, Go(ctx, b, Child(ctx, b, s, P1.BuildClay, minutes), minutes - 1));
    Keep(ctx, b, s, minutes, obsidian, P1.BuildObsidian, vc, pc)
  }

  /** The pruned search never claims more than the unpruned reference of
      part 1. */
  lemma GoWithinBest(ctx: P1.Context, b: P1.Blueprint, previous: Stat, minutes: nat)
    requires previous.counts.geode >= 0 && previous.counts.geodeRobot >= 0
    ensures Go(ctx, b, previous, minutes) <= P1.Best(b, previous.counts, minutes)
  {
    P1.BestIsMax(b, previous.counts, GoPlan(ctx, b, previous, minutes));
  }

  /** After a wait, a robot the search tried in the minute before is not
      built in the next one. */
  lemma WaitForbidsTried(ctx: P1.Context, b: P1.Blueprint, s: Stat, plan: seq<P1.Action>)
    requires Pruned(ctx, b, s, plan) && |plan| >= 2 && plan[0] == P1.Wait
    ensures MakeOre(ctx, b, s, |plan|) ==> plan[1] != P1.BuildOre
    ensures MakeClay(ctx, b, s, |plan|) ==> plan[1] != P1.BuildClay
    ensures MakeObsidian(ctx, b, s, |plan|) ==> plan[1] != P1.BuildObsidian
  {
    assert Pruned(ctx, b, Child(ctx, b, s, P1.Wait, |plan|), plan[1..]);
  }

  /** A schedule the search allows never builds an obsidian robot once
      there are as many as a geode robot costs obsidian, and likewise for
      clay and ore robots; so from a start below those caps the counts stay
      at or below them. */
  lemma {:induction false} PrunedCaps(ctx: P1.Context, b: P1.Blueprint, s: Stat, plan: seq<P1.Action>)
    requires Pruned(ctx, b, s, plan) && P1.Run(b, s.counts, plan).Some?
    requires s.counts.oreRobot <= ctx.maxOreCost && s.counts.clayRobot <= ctx.maxClayCost
    requires s.counts.obsidianRobot <= ctx.maxObsidianCost
    ensures var e := P1.Run(b, s.counts, plan).value;
            e.oreRobot <= ctx.maxOreCost && e.clayRobot <= ctx.maxClayCost && e.obsidianRobot <= ctx.maxObsidianCost
    decreases |plan|
  {
    if plan != [] {
      PrunedCaps(ctx, b, Child(ctx, b, s, plan[0], |plan|), plan[1..]);
    }
  }

  /** The geodes `main` finds for one blueprint in 32 minutes; never
      negative. */
  function Quality(b: P1.Blueprint): (r: int)
    ensures r >= 0
  {
    Go(P1.MakeContext(b), b, Start(), InitTime)
  }

  /** A blueprint's geodes are at most the most any schedule of 32 minutes
      opens (and `GoPlan` gives a schedule that opens them). */
  lemma QualityWithinBest(b: P1.Blueprint, minutes: nat)
    requires minutes == InitTime
    ensures Quality(b) <= P1.Best(b, P1.Start(), minutes)
  {
    GoWithinBest(P1.MakeContext(b), b, Start(), minutes);
  }

  /** The `for` loop of `main` from blueprint `i` on, given what `go` returns
      for each blueprint: multiplies the results into `total`, and stops
      after the third blueprint (`n` counts the blueprints done). */
  function Multiply(bs: seq<P1.Blueprint>, result: P1.Blueprint -> int, i: nat, total: int, n: nat): int
    requires i <= |bs|
    decreases |bs| - i
  {
    if i == |bs| then total
    else
      var t := total * result(bs[i]);
      if n + 1 == 3 then t else Multiply(bs, result, i + 1, t, n + 1)
  }

  /** The results of the blueprints, in order. */
  function Results(bs: seq<P1.Blueprint>, result: P1.Blueprint -> int): (r: seq<int>)
    ensures |r| == |bs| && forall i | 0 <= i < |bs| :: r[i] == result(bs[i])
  {
    if bs == [] then [] else [result(bs[0])] + Results(bs[1..], result)
  }

  /** From blueprint `i < 3` on, the loop multiplies `total` by the results
      of the blueprints up to the third. */
  lemma {:induction false} MultiplyFrom(bs: seq<P1.Blueprint>, result: P1.Blueprint -> int, i: nat, total: int)
    requires i <= |bs| && i < 3
    ensures Multiply(bs, result, i, total, i) == total * Product(Results(bs[i..Min(3, |bs|)], result))
    decreases |bs| - i
  {
    var rest := Results(bs[i..Min(3, |bs|)], result);
    if i < |bs| {
      var t := total * result(bs[i]);
      var tail := Results(bs[i + 1..Min(3, |bs|)], result);
      assert bs[i..Min(3, |bs|)][1..] == bs[i + 1..Min(3, |bs|)];
      assert rest == [result(bs[i])] + tail;
      assert Product(rest) == result(bs[i]) * Product(tail);
      if i + 1 == 3 {
        assert tail == [];
      } else {
        MultiplyFrom(bs, result, i + 1, t);
      }
      assert t * Product(tail) == total * (result(bs[i]) * Product(tail));
    } else {
      assert rest == [];
    }
  }

  /** The answer is the product of the results of the first three
      blueprints, or of all of them when there are fewer. */
  lemma FirstThreeProduct(bs: seq<P1.Blueprint>, result: P1.Blueprint -> int)
    ensures Multiply(bs, result, 0, 1, 0) == Product(Results(bs[..Min(3, |bs|)], result))
  {
    MultiplyFrom(bs, result, 0, 1);
    assert bs[0..Min(3, |bs|)] == bs[..Min(3, |bs|)];
  }

  /** The answer `main` prints. */
  function Solve(bs: seq<P1.Blueprint>): int
  {
    Multiply(bs, Quality, 0, 1, 0)
  }
}
