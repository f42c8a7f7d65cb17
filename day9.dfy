/** Day 9: a rope of knots on an integer plane. The head moves one cell at a time; every
    other knot that is no longer touching its predecessor takes one step towards it. The
    answer is the number of distinct cells the last knot has occupied. */
module Day9 {
  import opened Wrappers
  import opened Text

  datatype Vec2D = Vec2D(x: int, y: int)
  {
    function Add(o: Vec2D): Vec2D
    {
      Vec2D(x + o.x, y + o.y)
    }

    function Sub(o: Vec2D): Vec2D
    {
      Vec2D(x - o.x, y - o.y)
    }
  }

  const Origin := Vec2D(0, 0)

  function Abs(v: int): nat
  {
    if v < 0 then -v else v
  }

  function Max(a: int, b: int): int
  {
    if a < b then b else a
  }

  function Sign(v: int): int
  {
    if v > 0 then 1 else if v < 0 then -1 else 0
  }

  /** `v / max(1, |v|)`. The division is exact, so Rust's truncating `/` and Dafny's
      Euclidean `/` agree here. */
  function UnitPart(v: int): (r: int)
    ensures r == Sign(v)
  {
    var d := Max(1, Abs(v));
    assert v == Sign(v) * d;
    v / d
  }

  /** `make_one`: each component replaced by its sign. */
  function MakeOne(v: Vec2D): (r: Vec2D)
    ensures r == Vec2D(Sign(v.x), Sign(v.y))
    ensures -1 <= r.x <= 1 && -1 <= r.y <= 1
  {
    Vec2D(UnitPart(v.x), UnitPart(v.y))
  }

  /** The Chebyshev length of a vector. */
  function Cheb(v: Vec2D): nat
  {
    Max(Abs(v.x), Abs(v.y))
  }

  /** `is_one_away`. */
  predicate IsOneAway(a: Vec2D, b: Vec2D)
  {
    Cheb(a.Sub(b)) <= 1
  }

  /** Two knots are one away exactly when they touch: same cell, side by side or
      diagonal, in either order. */
  lemma IsOneAwayMeans(a: Vec2D, b: Vec2D)
    ensures IsOneAway(a, b) <==> -1 <= a.x - b.x <= 1 && -1 <= a.y - b.y <= 1
    ensures IsOneAway(a, b) <==> IsOneAway(b, a)
  {
  }

  /** The direction letters of the input. */
  function ParseDirection(s: string): (r: Result<Vec2D>)
    ensures r.Ok? ==> Cheb(r.value) == 1 && (r.value.x == 0 || r.value.y == 0)
  {
    if s == "U" then Ok(Vec2D(0, 1))
    else if s == "D" then Ok(Vec2D(0, -1))
    else if s == "L" then Ok(Vec2D(-1, 0))
    else if s == "R" then Ok(Vec2D(1, 0))
    else Err("Invalid Direction")
  }

  function DirectionName(d: Vec2D): string
  {
    if d == Vec2D(0, 1) then "U"
    else if d == Vec2D(0, -1) then "D"
    else if d == Vec2D(-1, 0) then "L"
    else "R"
  }

  predicate IsDirection(d: Vec2D)
  {
    d == Vec2D(0, 1) || d == Vec2D(0, -1) || d == Vec2D(-1, 0) || d == Vec2D(1, 0)
  }

  /** The four directions are exactly the parsed letters, and nothing else parses. */
  lemma ParseDirectionName(d: Vec2D)
    requires IsDirection(d)
    ensures ParseDirection(DirectionName(d)) == Ok(d)
  {
  }

  datatype Motion = Motion(dir: Vec2D, count: int)

  /** One input line: "<dir> <count>" split at the first space, the count an `isize`. */
  function ParseLine(line: string): (r: Result<Motion>)
    ensures r.Ok? ==> IsDirection(r.value.dir) && I64_MIN <= r.value.count <= I64_MAX
  {
    match SplitOnce(line, " ")
    case None => Err("Invalid Line")
    case Some((dir, count)) =>
      match ParseDirection(dir)
      case Err(e) => Err(e)
      case Ok(d) =>
        match ParseInt(count, I64_MIN, I64_MAX)
        case None => Err("invalid isize")
        case Some(n) => Ok(Motion(d, n))
  }

  function FormatLine(m: Motion): string
  {
    DirectionName(m.dir) + " " + IntToString(m.count)
  }

  /** Writing a motion as a line and parsing it back gives the motion. */
  lemma ParseFormatLine(m: Motion)
    requires IsDirection(m.dir) && I64_MIN <= m.count <= I64_MAX
    ensures ParseLine(FormatLine(m)) == Ok(m)
  {
    var name := DirectionName(m.dir);
    assert name == "U" || name == "D" || name == "L" || name == "R";
    assert ' ' !in name;
    SplitOnceChar(name, ' ', IntToString(m.count));
    assert FormatLine(m) == name + [' '] + IntToString(m.count);
    ParseIntToString(m.count, I64_MIN, I64_MAX);
  }

  /** All motions, or the error of the first line that fails. */
  function ParseMotions(lines: seq<string>): (r: Result<seq<Motion>>)
    ensures r.Ok? ==> |r.value| == |lines|
  {
    if lines == [] then Ok([])
    else
      match ParseMotions(lines[..|lines| - 1])
      case Err(e) => Err(e)
      case Ok(ms) =>
        match ParseLine(lines[|lines| - 1])
        case Err(e) => Err(e)
        case Ok(m) => Ok(ms + [m])
  }

  /** Once a prefix of the lines fails, the whole input fails with the same error. */
  lemma {:induction false} ParseMotionsPrefixErr(lines: seq<string>, k: nat)
    requires k <= |lines| && ParseMotions(lines[..k]).Err?
    ensures ParseMotions(lines) == ParseMotions(lines[..k])
    decreases |lines| - k
  {
    if k < |lines| {
      assert lines[..k + 1][..k] == lines[..k];
      ParseMotionsPrefixErr(lines, k + 1);
    } else {
      assert lines[..k] == lines;
    }
  }

  /** A motion as single steps: `count` copies of its direction, none for count ≤ 0. */
  function Repeat(d: Vec2D, count: int): (r: seq<Vec2D>)
    ensures |r| == if count <= 0 then 0 else count
    decreases count
  {
    if count <= 0 then [] else Repeat(d, count - 1) + [d]
  }

  lemma {:induction false} RepeatAll(d: Vec2D, count: int)
    ensures forall k :: 0 <= k < |Repeat(d, count)| ==> Repeat(d, count)[k] == d
    decreases count
  {
    if count > 0 {
      RepeatAll(d, count - 1);
    }
  }

  function Steps(ms: seq<Motion>): (r: seq<Vec2D>)
  {
    if ms == [] then []
    else
      var m := ms[|ms| - 1];
      Steps(ms[..|ms| - 1]) + Repeat(m.dir, m.count)
  }

  /** Every single step is one of the motions' directions. */
  lemma {:induction false} StepsDirections(ms: seq<Motion>)
    requires forall k :: 0 <= k < |ms| ==> IsDirection(ms[k].dir)
    ensures forall k :: 0 <= k < |Steps(ms)| ==> IsDirection(Steps(ms)[k])
  {
    if ms != [] {
      var m := ms[|ms| - 1];
      StepsDirections(ms[..|ms| - 1]);
      RepeatAll(m.dir, m.count);
    }
  }

  /** Knot i catches up with knot i − 1 when they no longer touch. */
  function Follow(ks: seq<Vec2D>, i: nat): (r: seq<Vec2D>)
    requires 1 <= i < |ks|
    ensures |r| == |ks|
  {
    if IsOneAway(ks[i - 1], ks[i]) then ks
    else ks[i := ks[i].Add(MakeOne(ks[i - 1].Sub(ks[i])))]
  }

  /** Knots i, i+1, ... catch up in turn, each with its already moved predecessor. */
  function Pull(ks: seq<Vec2D>, i: nat): (r: seq<Vec2D>)
    requires 1 <= i <= |ks|
    ensures |r| == |ks|
    decreases |ks| - i
  {
    if i == |ks| then ks else Pull(Follow(ks, i), i + 1)
  }

  /** One head step: the head moves, the rest follow. */
  function Step(ks: seq<Vec2D>, d: Vec2D): (r: seq<Vec2D>)
    requires |ks| >= 1
    ensures |r| == |ks|
  {
    Pull(ks[0 := ks[0].Add(d)], 1)
  }

  function Last(ks: seq<Vec2D>): Vec2D
    requires |ks| >= 1
  {
    ks[|ks| - 1]
  }

  /** The knots after the given head steps. */
  function Run(ks: seq<Vec2D>, steps: seq<Vec2D>): (r: seq<Vec2D>)
    requires |ks| >= 1
    ensures |r| == |ks|
  {
    if steps == [] then ks else Step(Run(ks, steps[..|steps| - 1]), steps[|steps| - 1])
  }

  /** The cells the last knot has occupied: where it starts and where each step leaves
      it. */
  function Visited(ks: seq<Vec2D>, steps: seq<Vec2D>): (r: set<Vec2D>)
    requires |ks| >= 1
    ensures Last(ks) in r
  {
    if steps == [] then {Last(ks)}
    else Visited(ks, steps[..|steps| - 1]) + {Last(Run(ks, steps))}
  }

  function Start(n: nat): (r: seq<Vec2D>)
    ensures |r| == n
  {
    seq(n, _ => Origin)
  }

  /** What `follow_knots::<n>` returns: the first bad line's error, or how many cells
      the last knot occupied. */
  function VisitedCount(input: string, n: nat): (r: Result<nat>)
    requires n >= 1
    ensures r.Ok? ==> r.value >= 1
  {
    VisitedOf(Lines(input), n)
  }

  function VisitedOf(lines: seq<string>, n: nat): (r: Result<nat>)
    requires n >= 1
    ensures r.Ok? ==> r.value >= 1
  {
    match ParseMotions(lines)
    case Err(e) => Err(e)
    case Ok(ms) => Ok(|Visited(Start(n), Steps(ms))|)
  }

  /** Every knot touches the one before it. */
  predicate Taut(ks: seq<Vec2D>)
  {
    forall i :: 1 <= i < |ks| ==> Touches(ks, i)
  }

  predicate Touches(ks: seq<Vec2D>, i: nat)
    requires 1 <= i < |ks|
  {
    IsOneAway(ks[i - 1], ks[i])
  }

  /** The catch-up rule: a knot at most two cells away (per axis) from a predecessor it
      does not touch ends up touching it, after a move of one cell per axis at most. */
  lemma CatchUp(a: Vec2D, b: Vec2D)
    requires -2 <= a.x - b.x <= 2 && -2 <= a.y - b.y <= 2
    ensures IsOneAway(a, b.Add(MakeOne(a.Sub(b))))
  {
  }

  /** Pulling knots i.. from a position where the knots before i are taut, the knots
      from i on are where they were in a taut rope, and knot i − 1 moved at most one cell
      per axis, gives a taut rope in which no knot moved more than one cell per axis. */
  lemma PullTaut(ks: seq<Vec2D>, i: nat, orig: seq<Vec2D>)
    requires 1 <= i <= |ks| == |orig| && Taut(orig)
    requires forall j :: 1 <= j < i ==> Touches(ks, j)
    requires forall j :: i <= j < |ks| ==> ks[j] == orig[j]
    requires IsOneAway(ks[i - 1], orig[i - 1])
    ensures Taut(Pull(ks, i))
  {
    var cur, k := ks, i;
    while k < |ks|
      invariant i <= k <= |ks| == |cur|
      invariant Pull(ks, i) == Pull(cur, k)
      invariant forall j :: 1 <= j < k ==> Touches(cur, j)
      invariant forall j :: k <= j < |ks| ==> cur[j] == orig[j]
      invariant IsOneAway(cur[k - 1], orig[k - 1])
    {
      FollowKeeps(cur, k, orig);
      PullUnfold(cur, k);
      cur, k := Follow(cur, k), k + 1;
    }
    assert Pull(cur, k) == cur;
  }

  lemma PullUnfold(ks: seq<Vec2D>, i: nat)
    requires 1 <= i < |ks|
    ensures Pull(ks, i) == Pull(Follow(ks, i), i + 1)
  {
  }

  /** One catch-up move keeps the conditions of PullTaut, one knot further on. */
  lemma FollowKeeps(ks: seq<Vec2D>, i: nat, orig: seq<Vec2D>)
    requires 1 <= i < |ks| == |orig| && Taut(orig)
    requires forall j :: 1 <= j < i ==> Touches(ks, j)
    requires forall j :: i <= j < |ks| ==> ks[j] == orig[j]
    requires IsOneAway(ks[i - 1], orig[i - 1])
    ensures forall j :: 1 <= j < i + 1 ==> Touches(Follow(ks, i), j)
    ensures forall j :: i + 1 <= j < |ks| ==> Follow(ks, i)[j] == orig[j]
    ensures IsOneAway(Follow(ks, i)[i], orig[i])
  {
    var ks' := Follow(ks, i);
    assert Touches(orig, i);
    FollowOne(ks[i - 1], ks[i], orig[i - 1]);
    assert ks'[i] == (if IsOneAway(ks[i - 1], ks[i]) then ks[i] else ks[i].Add(MakeOne(ks[i - 1].Sub(ks[i]))));
    forall j | 1 <= j < i + 1
      ensures Touches(ks', j)
    {
      assert ks'[j - 1] == ks[j - 1];
      if j < i {
        assert ks'[j] == ks[j];
        assert Touches(ks, j);
      }
    }
    forall j | i + 1 <= j < |ks|
      ensures ks'[j] == orig[j]
    {
      assert ks'[j] == ks[j];
    }
  }

  /** A knot `q` touching the old place `was` of its predecessor, which has moved to
      `p` at most one cell per axis away, ends up touching `p` after one catch-up
      move, and that move is at most one cell per axis. */
  lemma FollowOne(p: Vec2D, q: Vec2D, was: Vec2D)
    requires IsOneAway(p, was) && IsOneAway(was, q)
    ensures var q' := if IsOneAway(p, q) then q else q.Add(MakeOne(p.Sub(q)));
      IsOneAway(p, q') && IsOneAway(q', q)
  {
    IsOneAwayMeans(p, was);
    IsOneAwayMeans(was, q);
    if !IsOneAway(p, q) {
      CatchUp(p, q);
    }
  }

  /** A head step of at most one cell per axis keeps the rope taut. */
  lemma StepTaut(ks: seq<Vec2D>, d: Vec2D)
    requires |ks| >= 1 && Taut(ks) && Cheb(d) <= 1
    ensures Taut(Step(ks, d))
  {
    PullTaut(ks[0 := ks[0].Add(d)], 1, ks);
  }

  /** After every head step of the input, each knot touches its predecessor. */
  lemma {:induction false} RunTaut(ks: seq<Vec2D>, steps: seq<Vec2D>)
    requires |ks| >= 1 && Taut(ks)
    requires forall k :: 0 <= k < |steps| ==> IsDirection(steps[k])
    ensures Taut(Run(ks, steps))
  {
    if steps != [] {
      RunTaut(ks, steps[..|steps| - 1]);
      StepTaut(Run(ks, steps[..|steps| - 1]), steps[|steps| - 1]);
    }
  }

  /** The rope of `follow_knots` stays taut whatever the parsed motions. */
  lemma FollowKnotsTaut(ms: seq<Motion>, n: nat)
    requires n >= 1 && forall k :: 0 <= k < |ms| ==> IsDirection(ms[k].dir)
    ensures Taut(Run(Start(n), Steps(ms)))
  {
    StepsDirections(ms);
    RunTaut(Start(n), Steps(ms));
  }

  /** The inner loop of `follow_knots`: the head moves, then each knot in turn. */
  method StepKnots(knots: array<Vec2D>, dir: Vec2D)
    requires knots.Length >= 1
    modifies knots
    ensures knots[..] == Step(old(knots[..]), dir)
  {
    ghost var start := old(knots[..])[0 := knots[0].Add(dir)];
    knots[0] := knots[0].Add(dir);
    for i := 1 to knots.Length
      invariant knots.Length == |start|
      invariant Pull(knots[..], i) == Pull(start, 1)
    {
      ghost var before := knots[..];
      if !IsOneAway(knots[i - 1], knots[i]) {
        knots[i] := knots[i].Add(MakeOne(knots[i - 1].Sub(knots[i])));
      }
      assert knots[..] == Follow(before, i);
    }
  }

  /** One more head step: the knots take it, and the last knot's new cell joins the
      visited ones. */
  lemma RunSnoc(ks: seq<Vec2D>, t: seq<Vec2D>, d: Vec2D)
    requires |ks| >= 1
    ensures Run(ks, t + [d]) == Step(Run(ks, t), d)
    ensures Visited(ks, t + [d]) == Visited(ks, t) + {Last(Step(Run(ks, t), d))}
  {
    assert (t + [d])[..|t|] == t;
  }

  /** The body of that loop: a head step, then the last knot's cell is recorded. */
  method StepAndRecord(knots: array<Vec2D>, visited: set<Vec2D>, ghost start: seq<Vec2D>, ghost done: seq<Vec2D>, d: Vec2D)
    returns (visited': set<Vec2D>)
    requires |start| >= 1
    requires knots[..] == Run(start, done) && visited == Visited(start, done)
    modifies knots
    ensures knots[..] == Run(start, done + [d]) && visited' == Visited(start, done + [d])
  {
    RunSnoc(start, done, d);
    StepKnots(knots, d);
    visited' := visited + {knots[knots.Length - 1]};
  }

  /** The `for _ in 0..count` loop of one motion: a head step, then the last knot's
      cell is recorded. */
  method ApplyMotion(knots: array<Vec2D>, visited: set<Vec2D>, ghost start: seq<Vec2D>, ghost steps: seq<Vec2D>, m: Motion)
    returns (visited': set<Vec2D>)
    requires |start| >= 1
    requires knots[..] == Run(start, steps) && visited == Visited(start, steps)
    modifies knots
    ensures knots[..] == Run(start, steps + Repeat(m.dir, m.count))
    ensures visited' == Visited(start, steps + Repeat(m.dir, m.count))
  {
    visited' := visited;
    ghost var done := steps;
    var c := 0;
    assert steps + Repeat(m.dir, 0) == steps;
    while c < m.count
      invariant 0 <= c && (c <= m.count || c == 0)
      invariant done == steps + Repeat(m.dir, c)
      invariant knots[..] == Run(start, done) && visited' == Visited(start, done)
    {
      visited' := StepAndRecord(knots, visited', start, done, m.dir);
      RepeatMore(steps, m.dir, c);
      done := done + [m.dir];
      c := c + 1;
    }
  }

  lemma RepeatMore(steps: seq<Vec2D>, d: Vec2D, c: nat)
    ensures steps + Repeat(d, c) + [d] == steps + Repeat(d, c + 1)
  {
    assert Repeat(d, c + 1) == Repeat(d, c) + [d];
  }

  /** One more line parsed adds its motion, and that motion's steps. */
  lemma ParseMotionsStep(lines: seq<string>, li: nat, m: Motion)
    requires li < |lines| && ParseMotions(lines[..li]).Ok? && ParseLine(lines[li]) == Ok(m)
    ensures ParseMotions(lines[..li + 1]).Ok?
    ensures Steps(ParseMotions(lines[..li + 1]).value) == Steps(ParseMotions(lines[..li]).value) + Repeat(m.dir, m.count)
  {
    assert lines[..li + 1][..li] == lines[..li];
    var ms := ParseMotions(lines[..li]).value;
    assert ParseMotions(lines[..li + 1]) == Ok(ms + [m]);
    assert (ms + [m])[..|ms|] == ms;
  }

  /** `follow_knots::<n>`: the knots live in a fixed-size array and the visited cells in
      a set; lines are parsed as they are reached and the first bad one aborts. */
  method FollowKnots(input: string, n: nat) returns (r: Result<nat>)
    requires n >= 1
    ensures r == VisitedCount(input, n)
  {
    var knots := new Vec2D[n](_ => Origin);
    assert knots[..] == Start(n);
    r := Track(knots, Lines(input));
  }

  /** The loop of `follow_knots` over the lines, from a rope at the origin. */
  method Track(knots: array<Vec2D>, lines: seq<string>) returns (r: Result<nat>)
    requires knots.Length >= 1 && knots[..] == Start(knots.Length)
    modifies knots
    ensures r == VisitedOf(lines, knots.Length)
  {
    ghost var start := Start(knots.Length);
    var visited := {knots[0]};
    ghost var steps: seq<Vec2D> := [];
    for li := 0 to |lines|
      invariant ParseMotions(lines[..li]).Ok?
      invariant steps == Steps(ParseMotions(lines[..li]).value)
      invariant knots[..] == Run(start, steps)
      invariant visited == Visited(start, steps)
    {
      var parsed := ParseLine(lines[li]);
      if parsed.Err? {
        assert lines[..li + 1][..li] == lines[..li];
        ParseMotionsPrefixErr(lines, li + 1);
        return Err(parsed.msg);
      }
      var m := parsed.value;
      ParseMotionsStep(lines, li, m);
      visited := ApplyMotion(knots, visited, start, steps, m);
      steps := steps + Repeat(m.dir, m.count);
    }
    assert lines[..|lines|] == lines;
    return Ok(|visited|);
  }

  /** `part_1`: a rope of two knots; a bad line makes the `unwrap` panic. */
  method Part1(input: string) returns (r: nat)
    requires VisitedCount(input, 2).Ok?
    ensures r == VisitedCount(input, 2).value && r >= 1
  {
    var res := FollowKnots(input, 2);
    r := res.value;
  }

  /** `part_2`: a rope of ten knots. */
  method Part2(input: string) returns (r: nat)
    requires VisitedCount(input, 10).Ok?
    ensures r == VisitedCount(input, 10).value && r >= 1
  {
    var res := FollowKnots(input, 10);
    r := res.value;
  }
}
