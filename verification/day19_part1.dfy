/** Day 19, part 1: robots that mine ore, clay, obsidian and geodes. Each
    blueprint prices the four kinds of robot; a depth-first search over the
    24 minutes finds how many geodes a blueprint can open, and the answer
    sums each blueprint's id times that number. */
module Day19Part1 {
  import opened Common

  /** The costs of one blueprint, as its line gives them. */
  datatype Blueprint = Blueprint(id: int, oreRobotOre: int, clayRobotOre: int, obsidianRobotOre: int,
                                 obsidianRobotClay: int, geodeRobotOre: int, geodeRobotObsidian: int)

  /** The resources and the robots at the start of a minute. */
  datatype Stat = Stat(ore: int, clay: int, obsidian: int, geode: int,
                       oreRobot: int, clayRobot: int, obsidianRobot: int, geodeRobot: int)

  /** The most of each resource that one robot can cost. */
  datatype Context = Context(maxOreCost: int, maxClayCost: int, maxObsidianCost: int)

  const InitTime := 24

  /** One ore robot and nothing else. */
  function Start(): Stat
  {
    Stat(0, 0, 0, 0, 1, 0, 0, 0)
  }

  /** The context `main` builds for a blueprint: the largest ore cost of the
      four robots, and the only clay and obsidian costs. */
  function MakeContext(b: Blueprint): (ctx: Context)
    ensures ctx.maxOreCost >= b.oreRobotOre && ctx.maxOreCost >= b.clayRobotOre
    ensures ctx.maxOreCost >= b.obsidianRobotOre && ctx.maxOreCost >= b.geodeRobotOre
    ensures ctx.maxOreCost in {b.oreRobotOre, b.clayRobotOre, b.obsidianRobotOre, b.geodeRobotOre}
    ensures ctx.maxClayCost == b.obsidianRobotClay && ctx.maxObsidianCost == b.geodeRobotObsidian
  {
    Context(Max(b.oreRobotOre, Max(b.clayRobotOre, Max(b.obsidianRobotOre, b.geodeRobotOre))),
            b.obsidianRobotClay, b.geodeRobotObsidian)
  }

  /** A minute of mining: every robot brings one of its resource. */
  function Collect(s: Stat): Stat
  {
    s.(ore := s.ore + s.oreRobot, clay := s.clay + s.clayRobot,
       obsidian := s.obsidian + s.obsidianRobot, geode := s.geode + s.geodeRobot)
  }

  /** What can happen in a minute. */
  datatype Action = Wait | BuildOre | BuildClay | BuildObsidian | BuildGeode

  /** The robot is affordable with the resources held at the start of the
      minute. */
  predicate CanBuild(b: Blueprint, s: Stat, a: Action)
  {
    match a
    case Wait => true
    case BuildOre => s.ore >= b.oreRobotOre
    case BuildClay => s.ore >= b.clayRobotOre
    case BuildObsidian => s.ore >= b.obsidianRobotOre && s.clay >= b.obsidianRobotClay
    case BuildGeode => s.ore >= b.geodeRobotOre && s.obsidian >= b.geodeRobotObsidian
  }

  /** Paying for the robot out of `s` and adding it. */
  function Build(b: Blueprint, s: Stat, a: Action): (r: Stat)
    ensures r.geode == s.geode && r.geodeRobot >= s.geodeRobot
  {
    match a
    case Wait => s
    case BuildOre => s.(ore := s.ore - b.oreRobotOre, oreRobot := s.oreRobot + 1)
    case BuildClay => s.(ore := s.ore - b.clayRobotOre, clayRobot := s.clayRobot + 1)
    case BuildObsidian =>
      s.(ore := s.ore - b.obsidianRobotOre, clay := s.clay - b.obsidianRobotClay, obsidianRobot := s.obsidianRobot + 1)
    case BuildGeode =>
      s.(ore := s.ore - b.geodeRobotOre, obsidian := s.obsidian - b.geodeRobotObsidian, geodeRobot := s.geodeRobot + 1)
  }

  /** The minute that starts in `s` and does `a`: the robots mine, then
      the new robot is paid for and ready the next minute. */
  function Next(b: Blueprint, s: Stat, a: Action): Stat
  {
    Build(b, Collect(s), a)
  }

  /** Follows a schedule, one action a minute; `None` as soon as an action
      is not affordable. */
  function Run(b: Blueprint, s: Stat, plan: seq<Action>): Option<Stat>
    decreases |plan|
  {
    if plan == [] then Some(s)
    else if !CanBuild(b, s, plan[0]) then None
    else Run(b, Next(b, s, plan[0]), plan[1..])
  }

  lemma RunCons(b: Blueprint, s: Stat, a: Action, plan: seq<Action>)
    requires CanBuild(b, s, a)
    ensures Run(b, s, [a] + plan) == Run(b, Next(b, s, a), plan)
  {
    assert ([a] + plan)[1..] == plan;
  }

  // The recursive searches below list the blueprint `b` last in their
  // `decreases` clauses. It never changes in a recursive call, so it adds
  // nothing to termination; it keeps the verifier from unfolding a search
  // all the way down when the number of minutes is a literal such as 24.

  /** Keeps `v` when `a` is not allowed, else the larger of `v` and the
      best of the rest after `a`. */
  function Consider(b: Blueprint, s: Stat, minutes: nat, a: Action, v: int): int
    requires minutes > 0
    decreases minutes, 0, b
  {
    if CanBuild(b, s, a) then Max(v, Best(b, Next(b, s, a), minutes - 1)) else v
  }

  /** The reference search, without any pruning: the most geodes open after
      `minutes` over every schedule of affordable actions. */
  function Best(b: Blueprint, s: Stat, minutes: nat): int
    decreases minutes, 1, b
  {
    if minutes == 0 then s.geode
    else
      var w := Best(b, Next(b, s, Wait), minutes - 1);
      Consider(b, s, minutes, BuildGeode,
        Consider(b, s, minutes, BuildObsidian,
          Consider(b, s, minutes, BuildClay,
            Consider(b, s, minutes, BuildOre, w))))
  }

  /** No schedule of `minutes` actions opens more geodes than `Best`. */
  lemma {:induction false} BestIsMax(b: Blueprint, s: Stat, plan: seq<Action>)
    requires Run(b, s, plan).Some?
    ensures Run(b, s, plan).value.geode <= Best(b, s, |plan|)
    decreases |plan|
  {
    if plan != [] {
      var a := plan[0];
      RunCons(b, s, a, plan[1..]);
      assert [a] + plan[1..] == plan;
      BestIsMax(b, Next(b, s, a), plan[1..]);
    }
  }

  /** The schedule `Consider` keeps: `p` when `a` does not improve on
      `v`. */
  function ConsiderPlan(b: Blueprint, s: Stat, minutes: nat, a: Action, v: int, p: seq<Action>): (q: seq<Action>)
    requires minutes > 0 && |p| == minutes && Run(b, s, p).Some? && Run(b, s, p).value.geode == v
    ensures |q| == minutes && Run(b, s, q).Some? && Run(b, s, q).value.geode == Consider(b, s, minutes, a, v)
    decreases minutes, 0, b
  {
    if CanBuild(b, s, a) && Best(b, Next(b, s, a), minutes - 1) > v then
      var q := [a] + BestPlan(b, Next(b, s, a), minutes - 1);
      RunCons(b, s, a, q[1..]);
      assert [a] + q[1..] == q;
      q
    else p
  }

  /** A schedule that opens `Best` geodes: `Best` is attained. */
  function BestPlan(b: Blueprint, s: Stat, minutes: nat): (p: seq<Action>)
    ensures |p| == minutes && Run(b, s, p).Some? && Run(b, s, p).value.geode == Best(b, s, minutes)
    decreases minutes, 1, b
  {
    if minutes == 0 then []
    else
      var w := Best(b, Next(b, s, Wait), minutes - 1);
      var pw := [Wait] + BestPlan(b, Next(b, s, Wait), minutes - 1);
      RunCons(b, s, Wait, pw[1..]);
      assert [Wait] + pw[1..] == pw;
      var vo := Consider(b, s, minutes, BuildOre, w);
      var po := ConsiderPlan(b, s, minutes, BuildOre, w, pw);
      var vc := Consider(b, s, minutes, BuildClay, vo);
      var pc := ConsiderPlan(b, s, minutes, BuildClay, vo, po);
      var vb := Consider(b, s, minutes, BuildObsidian, vc);
      var pb := ConsiderPlan(b, s, minutes, BuildObsidian, vc, pc);
      ConsiderPlan(b, s, minutes, BuildGeode, vb, pb)
  }

  /** `go`: the pruned depth-first search. Affordability is judged on the
      resources before this minute's mining. An affordable geode robot is
      tried first; an affordable obsidian robot, while obsidian is short of
      what the remaining minutes could spend, is tried next and ends the
      search of this minute; otherwise a clay robot while clay is short, an
      ore robot, and waiting. The best starts at 0. */
  function Go(ctx: Context, b: Blueprint, previous: Stat, minutes: nat): (r: int)
    ensures previous.geode >= 0 && previous.geodeRobot >= 0 ==> r >= previous.geode
    decreases minutes, b
  {
    if minutes == 0 then previous.geode
    else
      var stat := Collect(previous);
      var afterGeode :=
        if CanBuild(b, previous, BuildGeode) then Max(0, Go(ctx, b, Build(b, stat, BuildGeode), minutes - 1)) else 0;
      var tooMuchObsidian := previous.obsidian >= ctx.maxObsidianCost * minutes;
      if CanBuild(b, previous, BuildObsidian) && !tooMuchObsidian then
        Max(afterGeode, Go(ctx, b, Build(b, stat, BuildObsidian), minutes - 1))
      else
        var tooMuchClay := previous.clay >= ctx.maxClayCost * minutes;
        var afterClay :=
          if CanBuild(b, previous, BuildClay) && !tooMuchClay then
            Max(afterGeode, Go(ctx, b, Build(b, stat, BuildClay), minutes - 1))
          else afterGeode;
        var afterOre :=
          if CanBuild(b, previous, BuildOre) then Max(afterClay, Go(ctx, b, Build(b, stat, BuildOre), minutes - 1))
          else afterClay;
        Max(afterOre, Go(ctx, b, stat, minutes - 1))
  }

  /** `best` raised to `v` when the branch was tried. */
  function Try(tried: bool, best: int, v: int): int
  {
    if tried then Max(best, v) else best
  }

  /** When an obsidian robot is tried, `Go` is the better of it and of an
      affordable geode robot. */
  lemma GoObsidian(ctx: Context, b: Blueprint, s: Stat, minutes: nat)
    requires minutes > 0 && s.geode >= 0 && s.geodeRobot >= 0
    requires CanBuild(b, s, BuildObsidian) && !(s.obsidian >= ctx.maxObsidianCost * minutes)
    ensures Go(ctx, b, s, minutes) ==
      Try(CanBuild(b, s, BuildGeode), Go(ctx, b, Next(b, s, BuildObsidian), minutes - 1),
          Go(ctx, b, Next(b, s, BuildGeode), minutes - 1))
  {
  }

  /** Otherwise `Go` is the best of waiting and of the robots tried, in
      whatever order they are weighed. */
  lemma GoOthers(ctx: Context, b: Blueprint, s: Stat, minutes: nat)
    requires minutes > 0 && s.geode >= 0 && s.geodeRobot >= 0
    requires !(CanBuild(b, s, BuildObsidian) && !(s.obsidian >= ctx.maxObsidianCost * minutes))
    ensures Go(ctx, b, s, minutes) ==
      Try(CanBuild(b, s, BuildGeode),
          Try(CanBuild(b, s, BuildClay) && !(s.clay >= ctx.maxClayCost * minutes),
              Try(CanBuild(b, s, BuildOre), Go(ctx, b, Next(b, s, Wait), minutes - 1),
                  Go(ctx, b, Next(b, s, BuildOre), minutes - 1)),
              Go(ctx, b, Next(b, s, BuildClay), minutes - 1)),
          Go(ctx, b, Next(b, s, BuildGeode), minutes - 1))
  {
  }

  /** A schedule for the branch `Go` keeps: `p` unless `a` is allowed and
      does strictly better than `v`. */
  function Keep(ctx: Context, b: Blueprint, s: Stat, minutes: nat, allowed: bool, a: Action,
                v: int, p: seq<Action>): (q: seq<Action>)
    requires minutes > 0 && s.geode >= 0 && s.geodeRobot >= 0
    requires |p| == minutes && Run(b, s, p).Some? && Run(b, s, p).value.geode == v
    requires allowed ==> CanBuild(b, s, a)
    ensures |q| == minutes && Run(b, s, q).Some?
    ensures Run(b, s, q).value.geode == Try(allowed, v, Go(ctx, b, Next(b, s, a), minutes - 1))
    decreases minutes, 0, b
  {
    if allowed && Go(ctx, b, Next(b, s, a), minutes - 1) > v then
      var q := [a] + GoPlan(ctx, b, Next(b, s, a), minutes - 1);
      RunCons(b, s, a, q[1..]);
      assert [a] + q[1..] == q;
      q
    else p
  }

  /** The schedule whose geodes `Go` returns: the search's answer is
      attained by a real schedule, from any start with no debt of geodes. */
  function GoPlan(ctx: Context, b: Blueprint, previous: Stat, minutes: nat): (p: seq<Action>)
    requires previous.geode >= 0 && previous.geodeRobot >= 0
    ensures |p| == minutes && Run(b, previous, p).Some?
    ensures Run(b, previous, p).value.geode == Go(ctx, b, previous, minutes)
    decreases minutes, 1, b
  {
    if minutes == 0 then []
    else
      var s := previous;
      var obsidian := CanBuild(b, s, BuildObsidian) && !(s.obsidian >= ctx.maxObsidianCost * minutes);
      var clay := CanBuild(b, s, BuildClay) && !(s.clay >= ctx.maxClayCost * minutes);
      var ore := CanBuild(b, s, BuildOre);
      var geode := CanBuild(b, s, BuildGeode);
      if obsidian then
        var po := [BuildObsidian] + GoPlan(ctx, b, Next(b, s, BuildObsidian), minutes - 1);
        RunCons(b, s, BuildObsidian, po[1..]);
        assert [BuildObsidian] + po[1..] == po;
        GoObsidian(ctx, b, s, minutes);
        Keep(ctx, b, s, minutes, geode, BuildGeode, Go(ctx, b, Next(b, s, BuildObsidian), minutes - 1), po)
      else
        var wait := [Wait] + GoPlan(ctx, b, Next(b, s, Wait), minutes - 1);
        RunCons(b, s, Wait, wait[1..]);
        assert [Wait] + wait[1..] == wait;
        var vw := Go(ctx, b, Next(b, s, Wait), minutes - 1);
        GoOthers(ctx, b, s, minutes);
        var pr := Keep(ctx, b, s, minutes, ore, BuildOre, vw, wait);
        var vr := Try(ore, vw, Go(ctx, b, Next(b, s, BuildOre), minutes - 1));
        var pc := Keep(ctx, b, s, minutes, clay, BuildClay, vr, pr);
        var vc := Try(clay, vr, Go(ctx, b, Next(b, s, BuildClay), minutes - 1));
        Keep(ctx, b, s, minutes, geode, BuildGeode, vc, pc)
  }

  /** The pruned search never claims more than the reference: what `Go`
      returns is at most `Best`. */
  lemma GoWithinBest(ctx: Context, b: Blueprint, previous: Stat, minutes: nat)
    requires previous.geode >= 0 && previous.geodeRobot >= 0
    ensures Go(ctx, b, previous, minutes) <= Best(b, previous, minutes)
  {
    BestIsMax(b, previous, GoPlan(ctx, b, previous, minutes));
  }

  /** The geodes `main` finds for one blueprint in 24 minutes; never
      negative. */
  function Quality(b: Blueprint): (r: int)
    ensures r >= 0
  {
    Go(MakeContext(b), b, Start(), InitTime)
  }

  /** A blueprint's geodes are at most the most any schedule of `minutes`,
      24, opens (and `GoPlan` gives a schedule that opens them). */
  lemma QualityWithinBest(b: Blueprint, minutes: nat)
    requires minutes == InitTime
    ensures Quality(b) <= Best(b, Start(), minutes)
  {
    GoWithinBest(MakeContext(b), b, Start(), minutes);
  }

  /** The `for` loop of `main`, given what `go` returns for each blueprint:
      adds each blueprint's id times its result, in order. */
  function Total(bs: seq<Blueprint>, result: Blueprint -> int): int
  {
    if bs == [] then 0
    else
      var b := bs[|bs| - 1];
      Total(bs[..|bs| - 1], result) + b.id * result(b)
  }

  /** What each blueprint adds to the total. */
  function Contributions(bs: seq<Blueprint>, result: Blueprint -> int): (c: seq<int>)
    ensures |c| == |bs| && forall i | 0 <= i < |bs| :: c[i] == bs[i].id * result(bs[i])
  {
    if bs == [] then [] else [bs[0].id * result(bs[0])] + Contributions(bs[1..], result)
  }

  /** The total is the sum of the blueprints' quality levels. */
  lemma {:induction false} TotalIsSum(bs: seq<Blueprint>, result: Blueprint -> int)
    ensures Total(bs, result) == Sum(Contributions(bs, result))
  {
    if bs != [] {
      var k := |bs| - 1;
      TotalIsSum(bs[..k], result);
      assert Contributions(bs, result) == Contributions(bs[..k], result) + [bs[k].id * result(bs[k])];
      SumAppend(Contributions(bs[..k], result), [bs[k].id * result(bs[k])]);
    }
  }

  /** The answer `main` prints: the sum of the quality levels, where a
      blueprint's level is its id times the geodes `go` finds in 24
      minutes. */
  function Solve(bs: seq<Blueprint>): int
  {
    Total(bs, Quality)
  }
}
