/** Day 8: the tree-height grid. A tree is visible when every tree between it and an edge,
    in one of the four directions, is shorter; its scenic score multiplies, over the four
    directions, how many trees it sees before the view is blocked. */
module Day8 {
  import opened Wrappers
  import opened Text

  /** A (row, column) pair or a step between cells. */
  datatype Vec2D = Vec2D(row: int, col: int)
  {
    function Add(d: Vec2D): Vec2D
    {
      Vec2D(row + d.row, col + d.col)
    }
  }

  type Grid = seq<seq<nat>>

  /** `grid.get(row as usize).map(|r| r.get(col as usize))` finds a value; a negative
      coordinate turns into a huge `usize` and finds nothing. */
  predicate InBounds(g: Grid, c: Vec2D)
  {
    0 <= c.row < |g| && 0 <= c.col < |g[c.row]|
  }

  function At(g: Grid, c: Vec2D): nat
    requires InBounds(g, c)
  {
    g[c.row][c.col]
  }

  /** The four directions the parts look in. */
  predicate Unit(d: Vec2D)
  {
    d == Vec2D(0, 1) || d == Vec2D(1, 0) || d == Vec2D(0, -1) || d == Vec2D(-1, 0)
  }

  /** How many more in-bounds steps a walk can take at most, for termination. */
  function Reach(g: Grid, c: Vec2D, d: Vec2D): nat
    requires Unit(d)
  {
    if !InBounds(g, c) then 0
    else if d.row == 1 then |g| - c.row
    else if d.row == -1 then c.row + 1
    else if d.col == 1 then |g[c.row]| - c.col
    else c.col + 1
  }

  /** The heights a walk from `c` in direction `d` passes, up to the first cell outside
      the grid. */
  function Ray(g: Grid, c: Vec2D, d: Vec2D): seq<nat>
    requires Unit(d)
    decreases Reach(g, c, d)
  {
    if InBounds(g, c) then [At(g, c)] + Ray(g, c.Add(d), d) else []
  }

  /** The cell k steps from `c`. */
  function Offset(c: Vec2D, d: Vec2D, k: nat): Vec2D
  {
    Vec2D(c.row + k * d.row, c.col + k * d.col)
  }

  /** The walk visits c, c+d, c+2d, ... while they are in the grid and ends at the first
      cell that is not. */
  lemma {:induction false} RayMeans(g: Grid, c: Vec2D, d: Vec2D)
    requires Unit(d)
    ensures forall k :: 0 <= k < |Ray(g, c, d)| ==>
      InBounds(g, Offset(c, d, k)) && Ray(g, c, d)[k] == At(g, Offset(c, d, k))
    ensures !InBounds(g, Offset(c, d, |Ray(g, c, d)|))
    decreases Reach(g, c, d)
  {
    var r := Ray(g, c, d);
    assert Offset(c, d, 0) == c;
    if InBounds(g, c) {
      var rest := Ray(g, c.Add(d), d);
      RayMeans(g, c.Add(d), d);
      assert r == [At(g, c)] + rest;
      forall k | 0 <= k < |r| ensures InBounds(g, Offset(c, d, k)) && r[k] == At(g, Offset(c, d, k)) {
        if k > 0 {
          assert r[k] == rest[k - 1];
          OffsetStep(c, d, k - 1);
        }
      }
      OffsetStep(c, d, |rest|);
    }
  }

  lemma OffsetStep(c: Vec2D, d: Vec2D, k: nat)
    ensures Offset(c.Add(d), d, k) == Offset(c, d, k + 1)
  {
    assert (k + 1) * d.row == k * d.row + d.row;
    assert (k + 1) * d.col == k * d.col + d.col;
  }

  /** `GridIterator`: a borrowed grid, the next cell to look at, and the step. */
  class GridIterator {
    const grid: Grid
    var cords: Vec2D
    const direction: Vec2D

    /** `make_directional_grid_iter`. */
    constructor(grid: Grid, cords: Vec2D, direction: Vec2D)
      ensures this.grid == grid && this.cords == cords && this.direction == direction
    {
      this.grid := grid;
      this.cords := cords;
      this.direction := direction;
    }

    /** The heights still to come. */
    ghost function Remaining(): seq<nat>
      reads this
      requires Unit(direction)
    {
      Ray(grid, cords, direction)
    }

    /** `next`: the value under the cursor and the cursor, then one step on; nothing once
        the cursor has left the grid. */
    method Next() returns (r: Option<(nat, Vec2D)>)
      modifies this
      ensures InBounds(grid, old(cords)) ==>
        r == Some((At(grid, old(cords)), old(cords))) && cords == old(cords).Add(direction)
      ensures !InBounds(grid, old(cords)) ==> r.None? && cords == old(cords)
      ensures Unit(direction) && r.Some? ==> old(Remaining()) == [r.value.0] + Remaining()
      ensures Unit(direction) && r.None? ==> old(Remaining()) == []
    {
      if 0 <= cords.row < |grid| && 0 <= cords.col < |grid[cords.row]| {
        r := Some((grid[cords.row][cords.col], cords));
        cords := cords.Add(direction);
      } else {
        r := None;
      }
    }
  }

  /** The trees a tree at `start` looks over in direction `d`. */
  function View(g: Grid, d: Vec2D, start: Vec2D): seq<nat>
    requires Unit(d)
  {
    Ray(g, start.Add(d), d)
  }

  predicate AllShorter(s: seq<nat>, h: nat)
  {
    forall k :: 0 <= k < |s| ==> s[k] < h
  }

  /** Visible from one side: every tree beyond it in that direction is shorter. */
  predicate VisibleFrom(g: Grid, d: Vec2D, start: Vec2D)
    requires Unit(d) && InBounds(g, start)
  {
    AllShorter(View(g, d, start), At(g, start))
  }

  /** `check_direction`: walks away from `start` and fails at the first tree at least as
      tall. */
  method CheckDirection(g: Grid, d: Vec2D, start: Vec2D) returns (r: bool)
    requires Unit(d) && InBounds(g, start)
    ensures r <==> forall k :: 0 <= k < |View(g, d, start)| ==> View(g, d, start)[k] < At(g, start)
  {
    var h := g[start.row][start.col];
    var it := new GridIterator(g, start.Add(d), d);
    ghost var ray := View(g, d, start);
    ghost var n := 0;
    while true
      invariant 0 <= n <= |ray| && it.Remaining() == ray[n..]
      invariant forall k :: 0 <= k < n ==> ray[k] < h
      decreases |it.Remaining()|
    {
      var next := it.Next();
      match next {
        case None =>
          return true;
        case Some((v, _)) =>
          assert ray[n] == v;
          if v >= h {
            return false;
          }
          n := n + 1;
      }
    }
  }

  /** How many trees a viewer of height h sees along s: up to and including the first
      one at least as tall, or all of them. */
  function ViewingDistance(s: seq<nat>, h: nat): (r: nat)
    ensures r <= |s|
  {
    if s == [] then 0
    else if s[0] >= h then 1
    else 1 + ViewingDistance(s[1..], h)
  }

  /** The count is determined by the view: nothing seen from nowhere, every tree before
      the last one counted is shorter, and a count short of the whole view ends on a tree
      at least as tall. */
  lemma {:induction false} ViewingDistanceMeans(s: seq<nat>, h: nat)
    ensures ViewingDistance(s, h) == 0 <==> s == []
    ensures forall k :: 0 <= k < ViewingDistance(s, h) - 1 ==> s[k] < h
    ensures ViewingDistance(s, h) < |s| ==> s[ViewingDistance(s, h) - 1] >= h
  {
    if s != [] && s[0] < h {
      ViewingDistanceMeans(s[1..], h);
    }
  }

  /** The count stops at the first blocking tree: any longer view has it inside. */
  lemma ViewingDistanceBlocked(s: seq<nat>, h: nat, k: nat)
    requires k < |s| && s[k] >= h
    ensures ViewingDistance(s, h) <= k + 1
  {
    ViewingDistanceMeans(s, h);
  }

  /** `check_score`. */
  method CheckScore(g: Grid, d: Vec2D, start: Vec2D) returns (r: nat)
    requires Unit(d) && InBounds(g, start)
    ensures r == ViewingDistance(View(g, d, start), At(g, start))
  {
    var h := g[start.row][start.col];
    var it := new GridIterator(g, start.Add(d), d);
    ghost var ray := View(g, d, start);
    var count := 0;
    while true
      invariant 0 <= count <= |ray| && it.Remaining() == ray[count..]
      invariant ViewingDistance(ray, h) == count + ViewingDistance(ray[count..], h)
      decreases |it.Remaining()|
    {
      var next := it.Next();
      match next {
        case None =>
          return count;
        case Some((v, _)) =>
          if v >= h {
            return count + 1;
          }
          assert ray[count..][1..] == ray[count + 1..];
          count := count + 1;
      }
    }
  }

  /** The four directions in the order the parts try them. */
  const Right := Vec2D(0, 1)
  const Down := Vec2D(1, 0)
  const Left := Vec2D(0, -1)
  const Up := Vec2D(-1, 0)

  predicate Visible(g: Grid, i: nat, j: nat)
    requires InBounds(g, Vec2D(i, j))
  {
    var c := Vec2D(i, j);
    VisibleFrom(g, Right, c) || VisibleFrom(g, Down, c) || VisibleFrom(g, Left, c) || VisibleFrom(g, Up, c)
  }

  /** Which trees are visible, row by row. */
  function Visibility(g: Grid): (v: seq<seq<bool>>)
    ensures |v| == |g| && forall i :: 0 <= i < |g| ==> |v[i]| == |g[i]|
  {
    VisibleRows(g, |g|)
  }

  /** The visibility of the first n rows. */
  function VisibleRows(g: Grid, n: nat): (v: seq<seq<bool>>)
    requires n <= |g|
    ensures |v| == n && forall i :: 0 <= i < n ==> |v[i]| == |g[i]|
  {
    if n == 0 then [] else VisibleRows(g, n - 1) + [VisibleCells(g, n - 1, |g[n - 1]|)]
  }

  /** The visibility of the first n trees of row i. */
  function VisibleCells(g: Grid, i: nat, n: nat): (r: seq<bool>)
    requires i < |g| && n <= |g[i]|
    ensures |r| == n
  {
    if n == 0 then [] else VisibleCells(g, i, n - 1) + [Visible(g, i, n - 1)]
  }

  lemma {:induction false} VisibleCellsAt(g: Grid, i: nat, n: nat, j: nat)
    requires i < |g| && j < n <= |g[i]|
    ensures VisibleCells(g, i, n)[j] == Visible(g, i, j)
  {
    var prev := VisibleCells(g, i, n - 1);
    if j < n - 1 {
      VisibleCellsAt(g, i, n - 1, j);
      AppendBefore(VisibleCells(g, i, n), prev, Visible(g, i, n - 1), j);
    } else {
      AppendLast(VisibleCells(g, i, n), prev, Visible(g, i, n - 1));
    }
  }

  lemma AppendLast<T>(s: seq<T>, prev: seq<T>, x: T)
    requires s == prev + [x]
    ensures s[|prev|] == x
  {
  }

  lemma {:induction false} VisibleRowsAt(g: Grid, n: nat, i: nat)
    requires i < n <= |g|
    ensures VisibleRows(g, n)[i] == VisibleCells(g, i, |g[i]|)
  {
    var prev := VisibleRows(g, n - 1);
    if i < n - 1 {
      VisibleRowsAt(g, n - 1, i);
      AppendBefore(VisibleRows(g, n), prev, VisibleCells(g, n - 1, |g[n - 1]|), i);
    }
  }

  lemma AppendBefore<T>(s: seq<T>, prev: seq<T>, x: T, i: nat)
    requires s == prev + [x] && i < |prev|
    ensures s[i] == prev[i]
  {
  }

  lemma VisibilityAt(g: Grid, i: nat, j: nat)
    requires InBounds(g, Vec2D(i, j))
    ensures Visibility(g)[i][j] == Visible(g, i, j)
  {
    VisibleRowsAt(g, |g|, i);
    VisibleCellsAt(g, i, |g[i]|, j);
  }

  /** Visible trees of row i among columns [lo, hi). */
  function CountInRow(v: seq<seq<bool>>, i: nat, lo: nat, hi: nat): (r: nat)
    requires i < |v| && hi <= |v[i]|
    ensures r <= if lo <= hi then hi - lo else 0
    decreases hi
  {
    if hi <= lo then 0
    else CountInRow(v, i, lo, hi - 1) + (if v[i][hi - 1] then 1 else 0)
  }

  /** The interior columns 1 .. len-1 of a row; a row needs a tree for its bound. */
  function InteriorOfRow(v: seq<seq<bool>>, i: nat): nat
    requires i < |v| && |v[i]| >= 1
  {
    CountInRow(v, i, 1, |v[i]| - 1)
  }

  predicate InteriorRowsOk<T>(rows: seq<seq<T>>)
  {
    forall i :: 1 <= i < |rows| - 1 ==> |rows[i]| >= 1
  }

  /** Visible trees of the interior rows [1, hi). */
  function InteriorVisible(v: seq<seq<bool>>, hi: nat): nat
    requires InteriorRowsOk(v) && hi <= |v| - 1
  {
    if hi <= 1 then 0 else InteriorVisible(v, hi - 1) + InteriorOfRow(v, hi - 1)
  }

  /** Every visible tree of the grid. */
  function AllVisible(v: seq<seq<bool>>, hi: nat): nat
    requires hi <= |v|
  {
    if hi == 0 then 0 else AllVisible(v, hi - 1) + CountInRow(v, hi - 1, 0, |v[hi - 1]|)
  }

  /** `line.chars().filter_map(|c| c.to_digit(10))`. */
  function Digits(line: string): (r: seq<nat>)
    ensures |r| <= |line|
    ensures forall k :: 0 <= k < |r| ==> r[k] <= 9
  {
    if line == [] then []
    else (if IsDigit(line[0]) then [(line[0] as int - '0' as int) as nat] else []) + Digits(line[1..])
  }

  function ParseGrid(input: string): (g: Grid)
    ensures |g| == |Lines(input)|
  {
    seq(|Lines(input)|, i requires 0 <= i < |Lines(input)| => Digits(Lines(input)[i]))
  }

  /** The condition of `part_1`'s loop body; `||` stops at the first direction that
      succeeds, which does not change the answer. */
  method VisibleAt(g: Grid, i: nat, j: nat) returns (r: bool)
    requires InBounds(g, Vec2D(i, j))
    ensures r == Visible(g, i, j)
  {
    var c := Vec2D(i, j);
    r := CheckDirection(g, Right, c);
    if !r {
      r := CheckDirection(g, Down, c);
    }
    if !r {
      r := CheckDirection(g, Left, c);
    }
    if !r {
      r := CheckDirection(g, Up, c);
    }
  }

  /** The nested loops of `part_1` over the interior, as a method on the parsed grid. */
  method CountInterior(g: Grid) returns (counter: nat)
    requires |g| >= 1 && InteriorRowsOk(g)
    ensures counter == InteriorVisible(Visibility(g), |g| - 1)
  {
    counter := 0;
    var i := 1;
    while i < |g| - 1
      invariant 1 <= i && (i <= |g| - 1 || i == 1)
      invariant counter == InteriorVisible(Visibility(g), if i <= |g| - 1 then i else 0)
    {
      var inRow := CountRow(g, i);
      counter := counter + inRow;
      i := i + 1;
    }
  }

  /** The inner loop of `part_1`: the visible trees of row i's interior. */
  method CountRow(g: Grid, i: nat) returns (inRow: nat)
    requires i < |g| && |g[i]| >= 1
    ensures inRow == InteriorOfRow(Visibility(g), i)
  {
    var j := 1;
    inRow := 0;
    while j < |g[i]| - 1
      invariant 1 <= j && (j <= |g[i]| - 1 || j == 1)
      invariant inRow == CountInRow(Visibility(g), i, 1, if j <= |g[i]| - 1 then j else 0)
    {
      var visible := VisibleAt(g, i, j);
      VisibilityAt(g, i, j);
      if visible {
        inRow := inRow + 1;
      }
      j := j + 1;
    }
  }

  /** `part_1`: the interior count plus 4·len − 4 for the edge. An empty grid, or an
      interior row without trees, makes a `usize` subtraction underflow. */
  method Part1(input: string) returns (r: nat)
    requires |ParseGrid(input)| >= 1 && InteriorRowsOk(ParseGrid(input))
    ensures r == InteriorVisible(Visibility(ParseGrid(input)), |ParseGrid(input)| - 1) + 4 * |ParseGrid(input)| - 4
  {
    var g := ParseGrid(input);
    var counter := CountInterior(g);
    r := counter + |g| * 4 - 4;
  }

  function Mul(a: nat, b: nat): nat
  {
    a * b
  }

  /** The scenic score: the product of the four viewing distances. */
  function Score(g: Grid, i: nat, j: nat): nat
    requires InBounds(g, Vec2D(i, j))
  {
    var c := Vec2D(i, j);
    var h := At(g, c);
    Mul(Mul(Mul(ViewingDistance(View(g, Right, c), h), ViewingDistance(View(g, Down, c), h)),
      ViewingDistance(View(g, Left, c), h)), ViewingDistance(View(g, Up, c), h))
  }

  /** One iteration of `part_2`'s loop: the four scores multiplied. */
  method ScoreAt(g: Grid, i: nat, j: nat) returns (score: nat)
    requires InBounds(g, Vec2D(i, j))
    ensures score == Score(g, i, j)
  {
    var c := Vec2D(i, j);
    var a := CheckScore(g, Right, c);
    var b := CheckScore(g, Down, c);
    var e := CheckScore(g, Left, c);
    var f := CheckScore(g, Up, c);
    score := Mul(Mul(Mul(a, b), e), f);
  }

  /** The value is 0 or the score of some tree. */
  ghost predicate Attained(g: Grid, best: nat)
  {
    best == 0 || exists i: nat, j: nat :: InBounds(g, Vec2D(i, j)) && Score(g, i, j) == best
  }

  /** Every tree of rows before i, and of row i before column j, scores at most best. */
  ghost predicate Bounded(g: Grid, i: nat, j: nat, best: nat)
  {
    forall i': nat, j': nat :: (i' < i || (i' == i && j' < j)) && InBounds(g, Vec2D(i', j')) ==> Score(g, i', j') <= best
  }

  lemma BoundedStep(g: Grid, i: nat, j: nat, best: nat, best': nat)
    requires InBounds(g, Vec2D(i, j)) && Bounded(g, i, j, best)
    requires best <= best' && Score(g, i, j) <= best'
    ensures Bounded(g, i, j + 1, best')
  {
  }

  lemma BoundedRow(g: Grid, i: nat, best: nat)
    requires i < |g| && Bounded(g, i, |g[i]|, best)
    ensures Bounded(g, i + 1, 0, best)
  {
  }

  /** The loops of `part_2` on the parsed grid. */
  method BestScore(g: Grid) returns (best: nat)
    ensures forall i: nat, j: nat :: InBounds(g, Vec2D(i, j)) ==> Score(g, i, j) <= best
    ensures Attained(g, best)
  {
    best := 0;
    for i := 0 to |g|
      invariant Bounded(g, i, 0, best)
      invariant Attained(g, best)
    {
      best := BestInRow(g, i, best);
      BoundedRow(g, i, best);
    }
  }

  /** The inner loop of `part_2`: row i raises the best score so far. */
  method BestInRow(g: Grid, i: nat, best0: nat) returns (best: nat)
    requires i < |g| && Bounded(g, i, 0, best0) && Attained(g, best0)
    ensures Bounded(g, i, |g[i]|, best) && Attained(g, best)
  {
    best := best0;
    for j := 0 to |g[i]|
      invariant Bounded(g, i, j, best)
      invariant Attained(g, best)
    {
      var score := ScoreAt(g, i, j);
      if score > best {
        AttainedAt(g, i, j, score);
        BoundedStep(g, i, j, best, score);
        best := score;
      } else {
        BoundedStep(g, i, j, best, best);
      }
    }
  }

  lemma AttainedAt(g: Grid, i: nat, j: nat, score: nat)
    requires InBounds(g, Vec2D(i, j)) && score == Score(g, i, j)
    ensures Attained(g, score)
  {
  }

  /** `part_2`: the best scenic score of any tree, or 0 for a grid without trees. */
  method Part2(input: string) returns (best: nat)
    ensures forall i: nat, j: nat :: InBounds(ParseGrid(input), Vec2D(i, j)) ==> Score(ParseGrid(input), i, j) <= best
    ensures Attained(ParseGrid(input), best)
  {
    best := BestScore(ParseGrid(input));
  }

  /** A tree on the edge sees nothing in the outward direction, so it scores 0. */
  lemma EdgeScoresZero(g: Grid, i: nat, j: nat)
    requires InBounds(g, Vec2D(i, j))
    requires i == 0 || j == 0 || i == |g| - 1 || j == |g[i]| - 1
    ensures Score(g, i, j) == 0
  {
    var c := Vec2D(i, j);
    var h := At(g, c);
    var a, b, e, f := ViewingDistance(View(g, Right, c), h), ViewingDistance(View(g, Down, c), h),
      ViewingDistance(View(g, Left, c), h), ViewingDistance(View(g, Up, c), h);
    assert Score(g, i, j) == Mul(Mul(Mul(a, b), e), f);
    if i == 0 {
      NothingToSee(g, Up, c, h);
    } else if j == 0 {
      NothingToSee(g, Left, c, h);
    } else if i == |g| - 1 {
      NothingToSee(g, Down, c, h);
    } else {
      NothingToSee(g, Right, c, h);
    }
    ProductWithZero(a, b, e, f);
  }

  /** Looking straight out of the grid, a tree sees no tree. */
  lemma NothingToSee(g: Grid, d: Vec2D, c: Vec2D, h: nat)
    requires Unit(d) && !InBounds(g, c.Add(d))
    ensures ViewingDistance(View(g, d, c), h) == 0
  {
    assert View(g, d, c) == [];
  }

  lemma ProductWithZero(a: nat, b: nat, e: nat, f: nat)
    requires a == 0 || b == 0 || e == 0 || f == 0
    ensures Mul(Mul(Mul(a, b), e), f) == 0
  {
  }

  /** A tree on the edge is visible: nothing stands between it and the outside. */
  lemma EdgeVisible(g: Grid, i: nat, j: nat)
    requires InBounds(g, Vec2D(i, j))
    requires i == 0 || j == 0 || i == |g| - 1 || j == |g[i]| - 1
    ensures Visible(g, i, j)
  {
    var c := Vec2D(i, j);
    if i == 0 {
      assert View(g, Up, c) == [];
    } else if j == 0 {
      assert View(g, Left, c) == [];
    } else if i == |g| - 1 {
      assert View(g, Down, c) == [];
    } else {
      assert View(g, Right, c) == [];
    }
  }

  /** Every tree on the edge of the grid is visible. */
  lemma EdgesVisible(g: Grid)
    ensures EdgesSet(Visibility(g))
  {
    forall i, j | 0 <= i < |g| && 0 <= j < |g[i]| && (i == 0 || j == 0 || i == |g| - 1 || j == |g[i]| - 1)
      ensures Visibility(g)[i][j]
    {
      EdgeVisible(g, i, j);
      VisibilityAt(g, i, j);
    }
  }

  /** Every cell on the edge of `v` is set. */
  predicate EdgesSet(v: seq<seq<bool>>)
  {
    forall i, j :: 0 <= i < |v| && 0 <= j < |v[i]| && (i == 0 || j == 0 || i == |v| - 1 || j == |v[i]| - 1) ==> v[i][j]
  }

  /** Counting a row from the front instead of the back. */
  lemma {:induction false} CountInRowFront(v: seq<seq<bool>>, i: nat, lo: nat, hi: nat)
    requires i < |v| && lo < hi <= |v[i]|
    ensures CountInRow(v, i, lo, hi) == (if v[i][lo] then 1 else 0) + CountInRow(v, i, lo + 1, hi)
    decreases hi
  {
    if hi > lo + 1 {
      CountInRowFront(v, i, lo, hi - 1);
    }
  }

  /** A stretch of visible trees counts its full length. */
  lemma {:induction false} CountInRowAll(v: seq<seq<bool>>, i: nat, lo: nat, hi: nat)
    requires i < |v| && lo <= hi <= |v[i]|
    requires forall j :: lo <= j < hi ==> v[i][j]
    ensures CountInRow(v, i, lo, hi) == hi - lo
    decreases hi
  {
    if hi > lo {
      CountInRowAll(v, i, lo, hi - 1);
    }
  }

  /** A row of at least two trees whose edge trees are visible counts them plus its
      interior. */
  lemma RowWithEdges(v: seq<seq<bool>>, i: nat)
    requires i < |v| && |v[i]| >= 2 && v[i][0] && v[i][|v[i]| - 1]
    ensures CountInRow(v, i, 0, |v[i]|) == InteriorOfRow(v, i) + 2
  {
    CountInRowFront(v, i, 0, |v[i]|);
  }

  /** Rows [1, hi) of the whole count: each interior row adds its two edge trees. */
  lemma {:induction false} MiddleRows(v: seq<seq<bool>>, hi: nat)
    requires EdgesSet(v) && 1 <= hi <= |v| - 1
    requires forall i :: 0 <= i < |v| ==> |v[i]| >= 2
    ensures AllVisible(v, hi) == AllVisible(v, 1) + InteriorVisible(v, hi) + 2 * (hi - 1)
    decreases hi
  {
    if hi > 1 {
      MiddleRows(v, hi - 1);
      RowWithEdges(v, hi - 1);
    }
  }

  /** On a square grid of side n ≥ 2 the edge holds exactly 4n − 4 trees, all visible
      (EdgesVisible), so `part_1`'s formula counts every visible tree. */
  lemma SquareCount(v: seq<seq<bool>>)
    requires |v| >= 2 && EdgesSet(v) && forall i :: 0 <= i < |v| ==> |v[i]| == |v|
    ensures InteriorVisible(v, |v| - 1) + 4 * |v| - 4 == AllVisible(v, |v|)
  {
    var n := |v|;
    CountInRowAll(v, 0, 0, n);
    CountInRowAll(v, n - 1, 0, n);
    assert AllVisible(v, 1) == n;
    MiddleRows(v, n - 1);
  }

  /** On a grid of two rows of three trees all six trees are on the edge and visible
      (EdgesVisible), but `part_1`'s formula gives 4·2 − 4 = 4. */
  lemma TwoByThreeCount(v: seq<seq<bool>>)
    requires |v| == 2 && |v[0]| == 3 && |v[1]| == 3 && EdgesSet(v)
    ensures InteriorVisible(v, |v| - 1) + 4 * |v| - 4 == 4
    ensures AllVisible(v, |v|) == 6
  {
    CountInRowAll(v, 0, 0, 3);
    CountInRowAll(v, 1, 0, 3);
    assert AllVisible(v, 1) == 3;
  }

  /** The sample's tree of height 5 in row 3, column 2 sees 2 trees up, 2 left, 1 down
      and 2 right, a scenic score of 8. */
  lemma SampleScore(g: Grid)
    requires g == [[3, 0, 3, 7, 3], [2, 5, 5, 1, 2], [6, 5, 3, 3, 2], [3, 3, 5, 4, 9], [3, 5, 3, 9, 0]]
    ensures Score(g, 3, 2) == 8
  {
    SampleUp(g);
    SampleLeft(g);
    SampleDown(g);
    SampleRight(g);
    assert ViewingDistance([3, 5, 3], 5) == 2;
    assert ViewingDistance([3, 3], 5) == 2;
    assert ViewingDistance([3], 5) == 1;
    assert ViewingDistance([4, 9], 5) == 2;
    assert Score(g, 3, 2) == Mul(Mul(Mul(2, 1), 2), 2);
  }

  /** One step of a walk: the cell's height, then the rest of the walk. */
  lemma RayStep(g: Grid, c: Vec2D, d: Vec2D, rest: seq<nat>)
    requires Unit(d) && InBounds(g, c) && Ray(g, c.Add(d), d) == rest
    ensures Ray(g, c, d) == [At(g, c)] + rest
  {
  }

  lemma RayOut(g: Grid, c: Vec2D, d: Vec2D)
    requires Unit(d) && !InBounds(g, c)
    ensures Ray(g, c, d) == []
  {
  }

  /** The column above the sample's tree: 3 in row 2, 5 in row 1 and 3 in row 0. */
  lemma SampleUp(g: Grid)
    requires |g| == 5 && forall i :: 0 <= i < 5 ==> |g[i]| == 5
    requires g[2][2] == 3 && g[1][2] == 5 && g[0][2] == 3
    ensures View(g, Up, Vec2D(3, 2)) == [3, 5, 3]
  {
    assert Ray(g, Vec2D(0, 2), Up) == [3] by {
      RayOut(g, Vec2D(-1, 2), Up);
      RayStep(g, Vec2D(0, 2), Up, []);
      assert [3] + [] == [3];
    }
    assert Ray(g, Vec2D(1, 2), Up) == [5, 3] by {
      RayStep(g, Vec2D(1, 2), Up, [3]);
      assert [5] + [3] == [5, 3];
    }
    assert Ray(g, Vec2D(2, 2), Up) == [3, 5, 3] by {
      RayStep(g, Vec2D(2, 2), Up, [5, 3]);
      assert [3] + [5, 3] == [3, 5, 3];
    }
  }

  lemma SampleLeft(g: Grid)
    requires |g| == 5 && forall i :: 0 <= i < 5 ==> |g[i]| == 5
    requires g[3][1] == 3 && g[3][0] == 3
    ensures View(g, Left, Vec2D(3, 2)) == [3, 3]
  {
    RayOut(g, Vec2D(3, -1), Left);
    RayStep(g, Vec2D(3, 0), Left, []);
    assert [3] + [] == [3];
    RayStep(g, Vec2D(3, 1), Left, [3]);
    assert [3] + [3] == [3, 3];
  }

  lemma SampleDown(g: Grid)
    requires |g| == 5 && forall i :: 0 <= i < 5 ==> |g[i]| == 5
    requires g[4][2] == 3
    ensures View(g, Down, Vec2D(3, 2)) == [3]
  {
    RayOut(g, Vec2D(5, 2), Down);
    RayStep(g, Vec2D(4, 2), Down, []);
    assert [3] + [] == [3];
  }

  lemma SampleRight(g: Grid)
    requires |g| == 5 && forall i :: 0 <= i < 5 ==> |g[i]| == 5
    requires g[3][3] == 4 && g[3][4] == 9
    ensures View(g, Right, Vec2D(3, 2)) == [4, 9]
  {
    RayOut(g, Vec2D(3, 5), Right);
    RayStep(g, Vec2D(3, 4), Right, []);
    assert [9] + [] == [9];
    RayStep(g, Vec2D(3, 3), Right, [9]);
    assert [4] + [9] == [4, 9];
  }
}
