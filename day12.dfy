/** Day 12: hill climbing. The input is a grid of elevations `a`..`z` with a start `S`
    and an end `E`; a step may go to an orthogonal neighbour at most one level higher.
    The search keeps a priority queue of nodes, records a parent for every node it
    pushes and finally walks the parents back from the end. */
module Day12 {
  import opened Wrappers
  import opened Text

  /** (row, column). */
  type Cords = (nat, nat)

  const U32_MAX: nat := 0xFFFF_FFFF

  /** A grid square: its elevation and the square the search reached it from. */
  datatype Cell = Cell(elev: nat, parent: Option<Cords>)

  /** A queued square with its score `f`. */
  datatype Node = Node(loc: Cords, f: nat)

  /** `Node::new_root`: a node with the largest score. */
  function Root(loc: Cords): Node
  {
    Node(loc, U32_MAX)
  }

  // ---------------------------------------------------------------- parsing

  /** A byte the parser accepts: `S`, `E`, or one from `a` upwards (anything below `a`
      underflows the `u8` subtraction). Bytes are ASCII characters here. */
  predicate HeightChar(c: char)
  {
    (c == 'S' || c == 'E' || 'a' <= c) && c as int < 128
  }

  /** The elevation of one byte: `S` is 0, `E` is 25 (`z`), any other byte `b - 'a'`. */
  function ElevOf(c: char): (e: nat)
    requires HeightChar(c)
    ensures e <= 30
    ensures c == 'S' ==> e == 0
    ensures c == 'E' ==> e == 25
    ensures c != 'S' && c != 'E' ==> e == c as int - 'a' as int
  {
    if c == 'S' then 0
    else if c == 'E' then 'z' as int - 'a' as int
    else c as int - 'a' as int
  }

  /** The rows of the map: the lines of the trimmed text, each trimmed. */
  function RowsOf(s: string): seq<string>
  {
    var ls := Lines(Trim(s));
    seq(|ls|, y requires 0 <= y < |ls| => Trim(ls[y]))
  }

  predicate RowsOk(rows: seq<string>)
  {
    forall y, x :: 0 <= y < |rows| && 0 <= x < |rows[y]| ==> HeightChar(rows[y][x])
  }

  /** Every row's cells, each without a parent. */
  function MapOf(rows: seq<string>): (m: seq<seq<Cell>>)
    requires RowsOk(rows)
    ensures |m| == |rows| && forall y :: 0 <= y < |rows| ==> |m[y]| == |rows[y]|
    ensures forall y, x :: 0 <= y < |rows| && 0 <= x < |rows[y]|
                           ==> m[y][x] == Cell(ElevOf(rows[y][x]), None)
  {
    seq(|rows|, y requires 0 <= y < |rows| =>
      seq(|rows[y]|, x requires 0 <= x < |rows[y]| => Cell(ElevOf(rows[y][x]), None)))
  }

  /** The last column of `row` holding `c`. */
  function LastIn(row: string, c: char): (r: Option<nat>)
    ensures r.Some? ==> r.value < |row| && row[r.value] == c
                        && forall x :: r.value < x < |row| ==> row[x] != c
    ensures r.None? ==> forall x :: 0 <= x < |row| ==> row[x] != c
    decreases |row|
  {
    if row == [] then None
    else if row[|row| - 1] == c then Some(|row| - 1)
    else LastIn(row[..|row| - 1], c)
  }

  /** (row, column) strictly after (y, x) in reading order. */
  predicate After(a: Cords, y: nat, x: nat)
  {
    a.0 > y || (a.0 == y && a.1 > x)
  }

  /** The last square holding `c` in reading order: the parser overwrites `start` and
      `end` at every `S` and `E`, so the last one wins. */
  function LastOf(rows: seq<string>, c: char): (r: Option<Cords>)
    ensures r.Some? ==> (r.value.0 < |rows| && r.value.1 < |rows[r.value.0]|
                         && rows[r.value.0][r.value.1] == c
                         && forall y, x :: (0 <= y < |rows| && 0 <= x < |rows[y]|
                                            && After((y, x), r.value.0, r.value.1)) ==> rows[y][x] != c)
    ensures r.None? ==> forall y, x :: 0 <= y < |rows| && 0 <= x < |rows[y]| ==> rows[y][x] != c
    decreases |rows|
  {
    if rows == [] then None
    else
      var y := |rows| - 1;
      match LastIn(rows[y], c)
      case Some(x) => Some((y, x))
      case None =>
        var r := LastOf(rows[..y], c);
        assert forall k :: 0 <= k < y ==> rows[..y][k] == rows[k];
        r
  }

  /** The parsed board: every square's elevation, no parents, and where `S` and `E` are. */
  datatype Grid = Grid(cells: seq<seq<Cell>>, start: Cords, end: Cords)

  /** `Board::from_str`. A parsed board holds each byte's elevation and no parents, with
      the last `S` as the start (elevation 0) and the last `E` as the end (elevation 25). */
  function ParseBoard(s: string): (r: Result<Grid>)
    requires RowsOk(RowsOf(s))
    ensures r.Ok? ==> NoParents(r.value.cells) && Bytes(r.value.cells)
    ensures r.Ok? ==> InMap(r.value.cells, r.value.start) && Elev(r.value.cells, r.value.start) == 0
    ensures r.Ok? ==> InMap(r.value.cells, r.value.end) && Elev(r.value.cells, r.value.end) == 25
    ensures r.Ok? ==> LastOf(RowsOf(s), 'S') == Some(r.value.start) && LastOf(RowsOf(s), 'E') == Some(r.value.end)
  {
    var rows := RowsOf(s);
    var m := MapOf(rows);
    match LastOf(rows, 'S')
    case None => Err("couldn't find start")
    case Some(st) =>
      match LastOf(rows, 'E')
      case None => Err("couldn't find end")
      case Some(en) =>
        MapCells(rows, st);
        MapCells(rows, en);
        Ok(Grid(m, st, en))
  }

  // ---------------------------------------------------------------- the map

  predicate InMap(m: seq<seq<Cell>>, loc: Cords)
  {
    loc.0 < |m| && loc.1 < |m[loc.0]|
  }

  function Elev(m: seq<seq<Cell>>, loc: Cords): nat
    requires InMap(m, loc)
  {
    m[loc.0][loc.1].elev
  }

  /** Elevations fit a `u8`. */
  predicate Bytes(m: seq<seq<Cell>>)
  {
    forall y, x :: 0 <= y < |m| && 0 <= x < |m[y]| ==> m[y][x].elev < 256
  }

  /** No square has a parent yet. */
  predicate NoParents(m: seq<seq<Cell>>)
  {
    forall y, x :: 0 <= y < |m| && 0 <= x < |m[y]| ==> m[y][x].parent.None?
  }

  /** Parsing succeeds exactly when both `S` and `E` occur; the start is looked for
      first. */
  lemma ParseBoardErrors(s: string)
    requires RowsOk(RowsOf(s))
    ensures var rows := RowsOf(s);
      && (ParseBoard(s).Ok? <==> LastOf(rows, 'S').Some? && LastOf(rows, 'E').Some?)
      && (LastOf(rows, 'S').None? ==> ParseBoard(s) == Err("couldn't find start"))
      && (LastOf(rows, 'S').Some? && LastOf(rows, 'E').None? ==> ParseBoard(s) == Err("couldn't find end"))
  {
  }

  /** The map of the rows, seen from one square. */
  lemma MapCells(rows: seq<string>, p: Cords)
    requires RowsOk(rows) && p.0 < |rows| && p.1 < |rows[p.0]|
    ensures NoParents(MapOf(rows)) && Bytes(MapOf(rows))
    ensures InMap(MapOf(rows), p) && Elev(MapOf(rows), p) == ElevOf(rows[p.0][p.1])
  {
  }

  /** `Board::get` on a map value: None outside the (possibly ragged) map. */
  function GetIn(m: seq<seq<Cell>>, loc: Cords): (r: Option<nat>)
    ensures r.Some? <==> InMap(m, loc)
    ensures r.Some? ==> r.value == Elev(m, loc)
  {
    if loc.0 < |m| && loc.1 < |m[loc.0]| then Some(m[loc.0][loc.1].elev) else None
  }

  /** Two maps with the same shape and elevations (parents may differ). */
  predicate SameHeights(m1: seq<seq<Cell>>, m2: seq<seq<Cell>>)
  {
    && |m1| == |m2|
    && (forall y :: 0 <= y < |m1| ==> |m1[y]| == |m2[y]|)
    && (forall y, x :: 0 <= y < |m1| && 0 <= x < |m1[y]| ==> m1[y][x].elev == m2[y][x].elev)
  }

  /** The map after `set_parent(loc, parent)`. */
  function WithParent(m: seq<seq<Cell>>, loc: Cords, parent: Cords): (r: seq<seq<Cell>>)
    requires InMap(m, loc)
    ensures SameHeights(m, r)
  {
    m[loc.0 := m[loc.0][loc.1 := Cell(m[loc.0][loc.1].elev, Some(parent))]]
  }

  // ---------------------------------------------------------------- moves

  /** Orthogonal neighbours. */
  predicate Adjacent(a: Cords, b: Cords)
  {
    (a.0 == b.0 && (a.1 == b.1 + 1 || b.1 == a.1 + 1))
    || (a.1 == b.1 && (a.0 == b.0 + 1 || b.0 == a.0 + 1))
  }

  /** A legal step: both squares on the map, orthogonal, climbing at most one level. */
  predicate Step(m: seq<seq<Cell>>, from: Cords, to: Cords)
  {
    InMap(m, from) && InMap(m, to) && Adjacent(from, to) && Elev(m, to) <= Elev(m, from) + 1
  }

  /** Steps depend only on the shape and the elevations. */
  lemma StepKept(m1: seq<seq<Cell>>, m2: seq<seq<Cell>>, a: Cords, b: Cords)
    requires SameHeights(m1, m2)
    ensures Step(m1, a, b) <==> Step(m2, a, b)
  {
  }

  /** The square the closure `check` looks at: `q + d` when adding, `q - d` when
      subtracting, refused when the subtraction would go below 0. */
  function Target(q: Cords, d: Cords, add: bool): Option<Cords>
  {
    if add then Some((q.0 + d.0, q.1 + d.1))
    else if q.0 < d.0 || q.1 < d.1 then None
    else Some((q.0 - d.0, q.1 - d.1))
  }

  function Abs(v: int): nat
  {
    if v < 0 then -v else v
  }

  /** What `check` pushes for the target square, if anything: a square on the map at most
      one level above `q`, scored by row, column and elevation differences. */
  function Candidate(m: seq<seq<Cell>>, q: Cords, t: Option<Cords>): Option<Node>
    requires InMap(m, q)
  {
    match t
    case None => None
    case Some(v) =>
      match GetIn(m, v)
      case None => None
      case Some(e) =>
        if e <= Elev(m, q) + 1 then
          Some(Node(v, Abs(q.0 - v.0) + Abs(q.1 - v.1) + Abs(Elev(m, q) - e)))
        else None
  }

  function OptSeq(n: Option<Node>): seq<Node>
  {
    if n.Some? then [n.value] else []
  }

  /** `get_succesors`: the four `check` calls in order: down, up, right, left. */
  function SuccessorsOf(m: seq<seq<Cell>>, q: Cords): seq<Node>
    requires InMap(m, q)
  {
    OptSeq(Candidate(m, q, Target(q, (1, 0), true)))
    + OptSeq(Candidate(m, q, Target(q, (1, 0), false)))
    + OptSeq(Candidate(m, q, Target(q, (0, 1), true)))
    + OptSeq(Candidate(m, q, Target(q, (0, 1), false)))
  }

  /** The four targets are the orthogonal neighbours (those not below row or column 0). */
  lemma TargetsAdjacent(q: Cords, t: Cords)
    ensures Adjacent(q, t) <==> Target(q, (1, 0), true) == Some(t) || Target(q, (1, 0), false) == Some(t)
                                || Target(q, (0, 1), true) == Some(t) || Target(q, (0, 1), false) == Some(t)
  {
  }

  /** A candidate for a neighbour is pushed exactly when the step is legal, and its score
      is one plus the elevation difference. */
  lemma CandidateMeans(m: seq<seq<Cell>>, q: Cords, t: Option<Cords>, n: Node)
    requires InMap(m, q)
    requires t.Some? ==> Adjacent(q, t.value)
    ensures Candidate(m, q, t) == Some(n)
            <==> t == Some(n.loc) && Step(m, q, n.loc) && n.f == 1 + Abs(Elev(m, q) - Elev(m, n.loc))
  {
  }

  lemma InOptSeqs(a: Option<Node>, b: Option<Node>, c: Option<Node>, d: Option<Node>, n: Node)
    ensures n in OptSeq(a) + OptSeq(b) + OptSeq(c) + OptSeq(d)
            <==> a == Some(n) || b == Some(n) || c == Some(n) || d == Some(n)
  {
  }

  /** A node is a successor exactly when it is a legal step from `q`, scored one plus the
      elevation difference. */
  lemma SuccessorsMeans(m: seq<seq<Cell>>, q: Cords, n: Node)
    requires InMap(m, q)
    ensures n in SuccessorsOf(m, q)
            <==> Step(m, q, n.loc) && n.f == 1 + Abs(Elev(m, q) - Elev(m, n.loc))
  {
    var down, up := Target(q, (1, 0), true), Target(q, (1, 0), false);
    var right, left := Target(q, (0, 1), true), Target(q, (0, 1), false);
    TargetsAdjacent(q, n.loc);
    if down.Some? { TargetsAdjacent(q, down.value); }
    if up.Some? { TargetsAdjacent(q, up.value); }
    if right.Some? { TargetsAdjacent(q, right.value); }
    if left.Some? { TargetsAdjacent(q, left.value); }
    CandidateMeans(m, q, down, n);
    CandidateMeans(m, q, up, n);
    CandidateMeans(m, q, right, n);
    CandidateMeans(m, q, left, n);
    InOptSeqs(Candidate(m, q, down), Candidate(m, q, up), Candidate(m, q, right), Candidate(m, q, left), n);
  }

  /** Every successor's score lies between 1 and 256. */
  lemma SuccessorScores(m: seq<seq<Cell>>, q: Cords)
    requires InMap(m, q) && Bytes(m)
    ensures forall n :: n in SuccessorsOf(m, q) ==> 1 <= n.f <= 256 && n.loc != q
  {
    forall n | n in SuccessorsOf(m, q) ensures 1 <= n.f <= 256 && n.loc != q {
      SuccessorsMeans(m, q, n);
    }
  }

  // ---------------------------------------------------------------- node order

  datatype Ordering = Less | Equal | Greater

  function CmpNat(a: nat, b: nat): Ordering
  {
    if a < b then Less else if a == b then Equal else Greater
  }

  /** `Ordering::then_with`. */
  function Then(first: Ordering, second: Ordering): Ordering
  {
    if first == Equal then second else first
  }

  /** Tuples compare by row, then column. */
  function CmpLoc(a: Cords, b: Cords): Ordering
  {
    Then(CmpNat(a.0, b.0), CmpNat(a.1, b.1))
  }

  /** `Ord for Node`: the score compared the other way round, then the location. */
  function Cmp(a: Node, b: Node): Ordering
  {
    Then(CmpNat(b.f, a.f), CmpLoc(a.loc, b.loc))
  }

  /** A smaller score makes the greater node, so the max-heap pops it first; equal scores
      fall back to the location. */
  lemma CmpScore(a: Node, b: Node)
    ensures a.f < b.f ==> Cmp(a, b) == Greater
    ensures a.f == b.f ==> Cmp(a, b) == CmpLoc(a.loc, b.loc)
  {
  }

  /** The order is total: equal only on equal nodes, and swapping the sides flips it. */
  lemma CmpTotal(a: Node, b: Node)
    ensures Cmp(a, b) == Equal <==> a == b
    ensures Cmp(a, b) == Greater <==> Cmp(b, a) == Less
  {
  }

  lemma CmpTransitive(a: Node, b: Node, c: Node)
    requires Cmp(a, b) == Greater && Cmp(b, c) == Greater
    ensures Cmp(a, c) == Greater
  {
  }

  /** The position of a greatest node: what `BinaryHeap::pop` removes. */
  method MaxIndex(open: seq<Node>) returns (i: nat)
    requires |open| > 0
    ensures i < |open| && forall k :: 0 <= k < |open| ==> Cmp(open[k], open[i]) != Greater
  {
    i := 0;
    for k := 1 to |open|
      invariant i < k && forall j :: 0 <= j < k ==> Cmp(open[j], open[i]) != Greater
    {
      if Cmp(open[k], open[i]) == Greater {
        forall j | 0 <= j < k ensures Cmp(open[j], open[k]) != Greater {
          if Cmp(open[j], open[k]) == Greater {
            CmpTransitive(open[j], open[k], open[i]);
          }
        }
        i := k;
      }
    }
  }

  /** The greatest node is unique, so the popped node does not depend on how the heap
      stores its elements. */
  lemma GreatestUnique(open: seq<Node>, i: nat, j: nat)
    requires i < |open| && j < |open|
    requires forall k :: 0 <= k < |open| ==> Cmp(open[k], open[i]) != Greater
    requires forall k :: 0 <= k < |open| ==> Cmp(open[k], open[j]) != Greater
    ensures open[i] == open[j]
  {
    CmpTotal(open[i], open[j]);
  }

  // ---------------------------------------------------------------- the board

  /** Every recorded parent is a legal step to its square. */
  predicate ParentsValid(m: seq<seq<Cell>>)
  {
    forall y, x :: 0 <= y < |m| && 0 <= x < |m[y]| && m[y][x].parent.Some?
                   ==> Step(m, m[y][x].parent.value, (y, x))
  }

  /** Recording a legal step keeps every parent legal. */
  lemma WithParentValid(m: seq<seq<Cell>>, loc: Cords, parent: Cords)
    requires ParentsValid(m) && InMap(m, loc) && Step(m, parent, loc)
    ensures ParentsValid(WithParent(m, loc, parent))
  {
    var r: seq<seq<Cell>> := WithParent(m, loc, parent);
    forall y: nat, x: nat | y < |r| && x < |r[y]| && r[y][x].parent.Some?
      ensures Step(r, r[y][x].parent.value, (y, x))
    {
      StepKept(m, r, r[y][x].parent.value, (y, x));
    }
  }

  class Board {
    var cells: seq<seq<Cell>>
    const start: Cords
    const end: Cords

    constructor (g: Grid)
      ensures cells == g.cells && start == g.start && end == g.end
    {
      cells := g.cells;
      start := g.start;
      end := g.end;
    }

    /** `set_parent`: only that square's parent changes. */
    method SetParent(loc: Cords, parent: Cords)
      requires InMap(cells, loc)
      modifies this
      ensures cells == WithParent(old(cells), loc, parent)
    {
      cells := cells[loc.0 := cells[loc.0][loc.1 := Cell(cells[loc.0][loc.1].elev, Some(parent))]];
    }

    /** `get_parent`. */
    function GetParent(loc: Cords): Option<Cords>
      reads this
      requires InMap(cells, loc)
    {
      cells[loc.0][loc.1].parent
    }

    /** One call of the closure `check`: push the candidate for `q ± d`, if any. */
    method Check(q: Node, d: Cords, add: bool, succ0: seq<Node>) returns (succ: seq<Node>)
      requires InMap(cells, q.loc)
      ensures succ == succ0 + OptSeq(Candidate(cells, q.loc, Target(q.loc, d, add)))
    {
      succ := succ0;
      var cv := cells[q.loc.0][q.loc.1].elev;
      var vNode: Option<Cords>;
      if add {
        vNode := Some((q.loc.0 + d.0, q.loc.1 + d.1));
      } else if q.loc.0 < d.0 || q.loc.1 < d.1 {
        vNode := None;
      } else {
        vNode := Some((q.loc.0 - d.0, q.loc.1 - d.1));
      }
      if vNode.Some? {
        var v := GetIn(cells, vNode.value);
        if v.Some? && v.value <= cv + 1 {
          var newLoc := vNode.value;
          var f := Abs(q.loc.0 - newLoc.0) + Abs(q.loc.1 - newLoc.1) + Abs(cv as int - v.value as int);
          succ := succ + [Node(newLoc, f)];
        }
      }
    }

    /** `get_succesors`. */
    method GetSuccessors(q: Node) returns (succ: seq<Node>)
      requires InMap(cells, q.loc)
      ensures succ == SuccessorsOf(cells, q.loc)
    {
      ghost var m := cells;
      succ := Check(q, (1, 0), true, []);
      assert succ == OptSeq(Candidate(m, q.loc, Target(q.loc, (1, 0), true)));
      succ := Check(q, (1, 0), false, succ);
      succ := Check(q, (0, 1), true, succ);
      succ := Check(q, (0, 1), false, succ);
    }
  }

  // ---------------------------------------------------------------- part 1

  /** Some node of `list` at `suc`'s square with a score no larger: the two `find`
      calls that make the search skip `suc`. */
  predicate Dominated(list: seq<Node>, suc: Node)
  {
    exists k :: 0 <= k < |list| && list[k].loc == suc.loc && list[k].f <= suc.f
  }

  /** The nodes queued or closed so far. */
  ghost function Seen(open: seq<Node>, closed: seq<Node>): set<Node>
  {
    (set n | n in open) + (set n | n in closed)
  }

  /** Every node the search can hold: a square of the map with a `u32` score. */
  ghost function Universe(m: seq<seq<Cell>>): set<Node>
  {
    set r: nat, c: nat, f: nat | r < |m| && c < |m[r]| && f <= U32_MAX :: Node((r, c), f)
  }

  lemma InUniverse(m: seq<seq<Cell>>, n: Node)
    requires InMap(m, n.loc) && n.f <= U32_MAX
    ensures n in Universe(m)
  {
    assert n == Node((n.loc.0, n.loc.1), n.f);
  }

  /** Seeing one more node of the universe leaves fewer unseen. */
  lemma UnseenShrinks(u: set<Node>, seen: set<Node>, x: Node)
    requires x in u && x !in seen
    ensures |u - (seen + {x})| < |u - seen|
  {
    assert u - seen == (u - (seen + {x})) + {x};
  }

  /** A push during the scan of the successors: the seen set grows past where it was
      when the node was popped. */
  /** Since `before`, the seen nodes only grew: by at least one node of `u`, unless
      `same` holds. */
  ghost predicate Progress(u: set<Node>, before: set<Node>, now: set<Node>, same: bool)
  {
    before <= now && (same || |u - now| < |u - before|)
  }

  lemma GrowNoMore(u: set<Node>, before: set<Node>, now: set<Node>)
    requires before <= now
    ensures |u - now| <= |u - before|
  {
    var gone := (u - before) - (u - now);
    assert u - before == (u - now) + gone;
    assert (u - now) * gone == {};
  }

  lemma PushProgress(u: set<Node>, before: set<Node>, now: set<Node>, same: bool, x: Node, same': bool)
    requires x in u && x !in now && Progress(u, before, now, same)
    ensures Progress(u, before, now + {x}, same')
  {
    UnseenShrinks(u, now, x);
    GrowNoMore(u, before, now);
  }

  lemma SeenPush(open: seq<Node>, closed: seq<Node>, x: Node)
    ensures Seen(open + [x], closed) == Seen(open, closed) + {x}
    ensures Seen(open, closed + [x]) == Seen(open, closed) + {x}
  {
    assert (set n | n in open + [x]) == (set n | n in open) + {x};
    assert (set n | n in closed + [x]) == (set n | n in closed) + {x};
  }

  lemma SeenPop(open: seq<Node>, closed: seq<Node>, i: nat)
    requires i < |open|
    ensures Seen(open, closed) == Seen(open[..i] + open[i + 1..], closed) + {open[i]}
  {
    var rest := open[..i] + open[i + 1..];
    assert open == open[..i] + [open[i]] + open[i + 1..];
    assert (set n | n in open) == (set n | n in rest) + {open[i]};
  }

  /** Every successor is a legal step on any map with the same elevations, scored at
      most 256. */
  lemma SuccessorsLegal(m0: seq<seq<Cell>>, m: seq<seq<Cell>>, q: Cords)
    requires SameHeights(m0, m) && InMap(m, q) && Bytes(m)
    ensures forall n :: n in SuccessorsOf(m, q) ==> Step(m0, q, n.loc) && n.f <= 256 && n.loc != q
  {
    forall n | n in SuccessorsOf(m, q) ensures Step(m0, q, n.loc) && n.f <= 256 && n.loc != q {
      SuccessorsMeans(m, q, n);
      StepKept(m0, m, q, n.loc);
    }
  }

  /** The successors of `q`, each a legal step on the original map, scored within `u32`. */
  method LegalMoves(b: Board, ghost m0: seq<seq<Cell>>, q: Node) returns (succ: seq<Node>)
    requires SameHeights(m0, b.cells) && InMap(m0, q.loc) && Bytes(m0)
    ensures forall k :: 0 <= k < |succ| ==> Step(m0, q.loc, succ[k].loc) && succ[k].f <= 256 && succ[k].loc != q.loc
  {
    succ := b.GetSuccessors(q);
    SuccessorsLegal(m0, b.cells, q.loc);
  }

  /** The body of the `for suc in successors` loop: at the end, record the parent and
      report it; when not dominated, record the parent and queue the node. */
  method Visit(b: Board, ghost m0: seq<seq<Cell>>, q: Node, suc: Node, open0: seq<Node>, closed: seq<Node>)
      returns (open: seq<Node>, found: bool, pushed: bool)
    requires SameHeights(m0, b.cells) && ParentsValid(b.cells) && Step(m0, q.loc, suc.loc)
    requires forall n :: n in open0 ==> InMap(m0, n.loc)
    modifies b
    ensures SameHeights(m0, b.cells) && ParentsValid(b.cells)
    ensures forall n :: n in open ==> InMap(m0, n.loc)
    ensures found ==> suc.loc == b.end
    ensures !pushed ==> open == open0
    ensures pushed ==> open == open0 + [suc] && !Dominated(open0, suc) && !Dominated(closed, suc)
  {
    open := open0;
    pushed := false;
    StepKept(m0, b.cells, q.loc, suc.loc);
    if suc.loc == b.end {
      WithParentValid(b.cells, suc.loc, q.loc);
      b.SetParent(suc.loc, q.loc);
      return open, true, false;
    }
    if Dominated(open, suc) || Dominated(closed, suc) {
      return open, false, false;
    }
    WithParentValid(b.cells, suc.loc, q.loc);
    b.SetParent(suc.loc, q.loc);
    open := open + [suc];
    found := false;
    pushed := true;
  }

  /** A node that no queued or closed node dominates is new. */
  lemma UndominatedNew(open: seq<Node>, closed: seq<Node>, suc: Node)
    requires !Dominated(open, suc) && !Dominated(closed, suc)
    ensures suc !in Seen(open, closed)
  {
    assert forall k :: 0 <= k < |open| ==> open[k] != suc;
    assert forall k :: 0 <= k < |closed| ==> closed[k] != suc;
  }

  /** `Visit` together with the bookkeeping of the nodes seen. */
  method Advance(b: Board, ghost m0: seq<seq<Cell>>, ghost u: set<Node>, q: Node, suc: Node,
                 open0: seq<Node>, closed: seq<Node>, ghost before: set<Node>, ghost now0: set<Node>, ghost len: nat)
      returns (open: seq<Node>, found: bool, ghost now: set<Node>)
    requires SameHeights(m0, b.cells) && ParentsValid(b.cells) && u == Universe(m0)
    requires Step(m0, q.loc, suc.loc) && suc.f <= 256 && suc.loc != q.loc
    requires forall n :: n in open0 ==> InMap(m0, n.loc)
    requires now0 == Seen(open0, closed) + {q} && Progress(u, before, now0, |open0| == len)
    modifies b
    ensures SameHeights(m0, b.cells) && ParentsValid(b.cells)
    ensures forall n :: n in open ==> InMap(m0, n.loc)
    ensures now == Seen(open, closed) + {q} && Progress(u, before, now, |open| == len)
  {
    var pushed;
    open, found, pushed := Visit(b, m0, q, suc, open0, closed);
    now := now0;
    if pushed {
      PushSeen(m0, u, q, suc, open0, closed, before, now0, len);
      now := now0 + {suc};
    }
  }

  /** Queueing a node no queued or closed node dominates adds it to the nodes seen. */
  lemma PushSeen(m0: seq<seq<Cell>>, u: set<Node>, q: Node, suc: Node,
                 open0: seq<Node>, closed: seq<Node>, before: set<Node>, now0: set<Node>, len: nat)
    requires u == Universe(m0) && InMap(m0, suc.loc) && suc.f <= 256 && suc.loc != q.loc
    requires !Dominated(open0, suc) && !Dominated(closed, suc)
    requires now0 == Seen(open0, closed) + {q} && Progress(u, before, now0, |open0| == len)
    ensures now0 + {suc} == Seen(open0 + [suc], closed) + {q}
    ensures Progress(u, before, now0 + {suc}, |open0| + 1 == len)
  {
    UndominatedNew(open0, closed, suc);
    InUniverse(m0, suc);
    SeenPush(open0, closed, suc);
    PushProgress(u, before, now0, |open0| == len, suc, |open0| + 1 == len);
  }

  /** One expansion of `part_1`'s search: the successors of the popped node `q` are
      visited in order; `found` when one of them is the end. Every node queued is new,
      so the seen nodes grow or the queue keeps its length. */
  method Expand(b: Board, ghost m0: seq<seq<Cell>>, ghost u: set<Node>, q: Node, open0: seq<Node>, closed: seq<Node>)
      returns (open: seq<Node>, found: bool)
    requires SameHeights(m0, b.cells) && ParentsValid(b.cells) && Bytes(m0) && InMap(m0, q.loc)
    requires u == Universe(m0) && forall n :: n in open0 ==> InMap(m0, n.loc)
    modifies b
    ensures SameHeights(m0, b.cells) && ParentsValid(b.cells)
    ensures forall n :: n in open ==> InMap(m0, n.loc)
    ensures Progress(u, Seen(open0, closed) + {q}, Seen(open, closed) + {q}, |open| == |open0|)
  {
    ghost var before := Seen(open0, closed) + {q};
    ghost var now := before;
    open := open0;
    found := false;
    var successors := LegalMoves(b, m0, q);
    var k := 0;
    while k < |successors| && !found
      invariant k <= |successors|
      invariant SameHeights(m0, b.cells) && ParentsValid(b.cells)
      invariant forall n :: n in open ==> InMap(m0, n.loc)
      invariant now == Seen(open, closed) + {q}
      invariant Progress(u, before, now, |open| == |open0|)
    {
      open, found, now := Advance(b, m0, u, q, successors[k], open, closed, before, now, |open0|);
      k := k + 1;
    }
  }

  /** The search of `part_1`: pop the greatest node, push every successor not dominated
      by a queued or closed node and record its parent, stop when a successor is the end.
      Every recorded parent is a legal step, and the elevations never change. */
  method Search(b: Board)
    requires ParentsValid(b.cells) && Bytes(b.cells) && InMap(b.cells, b.start)
    modifies b
    ensures ParentsValid(b.cells) && SameHeights(old(b.cells), b.cells)
  {
    ghost var m0 := b.cells;
    ghost var u := Universe(m0);
    var open := [Root(b.start)];
    var closed: seq<Node> := [];
    while |open| > 0
      invariant SameHeights(m0, b.cells) && ParentsValid(b.cells) && Bytes(m0)
      invariant forall n :: n in open ==> InMap(m0, n.loc)
      decreases |u - Seen(open, closed)|, |open|
    {
      var i := MaxIndex(open);
      var q := open[i];
      SeenPop(open, closed, i);
      var open0 := open[..i] + open[i + 1..];
      var found;
      open, found := Expand(b, m0, u, q, open0, closed);
      if found {
        return;
      }
      SeenPush(open, closed, q);
      GrowNoMore(u, Seen(open0, closed) + {q}, Seen(open, closed) + {q});
      closed := closed + [q];
    }
  }

  // ---------------------------------------------------------------- the answer

  /** Each square of `path` was reached by a legal step from the next one: a route read
      backwards, from where it ends to where it starts. */
  predicate Retraces(m: seq<seq<Cell>>, path: seq<Cords>)
  {
    forall i :: 0 <= i < |path| - 1 ==> Step(m, path[i + 1], path[i])
  }

  /** `path` leads back from the end of `g` to its start. */
  predicate Route(g: Grid, path: seq<Cords>)
  {
    |path| >= 1 && path[0] == g.end && path[|path| - 1] == g.start && Retraces(g.cells, path)
  }

  /** The walk over the parents at the end of `part_1`, from `node` after `count` steps:
      the number of steps when it meets the start, 0 when it runs out of parents or
      passes 50 steps. */
  function Walk(m: seq<seq<Cell>>, start: Cords, node: Option<Cords>, count: nat): (r: nat)
    requires ParentsValid(m) && count <= 50 && (node.Some? ==> InMap(m, node.value))
    ensures r <= 51 && (r == 0 || r > count)
    decreases 50 - count
  {
    match node
    case None => 0
    case Some(p) =>
      if p == start then count + 1
      else if count >= 50 then 0
      else
        ParentStep(m, p);
        Walk(m, start, m[p.0][p.1].parent, count + 1)
  }

  /** A recorded parent is a legal step on the map. */
  lemma ParentStep(m: seq<seq<Cell>>, p: Cords)
    requires ParentsValid(m) && InMap(m, p)
    ensures m[p.0][p.1].parent.Some? ==> Step(m, m[p.0][p.1].parent.value, p)
  {
  }

  /** A walk that meets the start has followed legal steps all the way: extending the
      `trail` walked so far, there is a path of one square more than the steps counted. */
  lemma {:induction false} WalkRetraces(m: seq<seq<Cell>>, start: Cords, node: Option<Cords>, count: nat, trail: seq<Cords>)
    requires ParentsValid(m) && count <= 50 && (node.Some? ==> InMap(m, node.value))
    requires |trail| == count + 1 && Retraces(m, trail)
    requires node.Some? ==> Step(m, node.value, trail[count])
    ensures Walk(m, start, node, count) > 0 ==>
      exists path :: |path| == Walk(m, start, node, count) + 1 && path[..|trail|] == trail
                     && path[|path| - 1] == start && Retraces(m, path)
    decreases 50 - count
  {
    if node.Some? {
      var p := node.value;
      var next := trail + [p];
      assert Retraces(m, next) by {
        forall i | 0 <= i < |next| - 1 ensures Step(m, next[i + 1], next[i]) {
          if i < count {
            assert next[i + 1] == trail[i + 1] && next[i] == trail[i];
          }
        }
      }
      if p == start {
        assert next[..|trail|] == trail;
      } else if count < 50 {
        ParentStep(m, p);
        WalkRetraces(m, start, m[p.0][p.1].parent, count + 1, next);
        if Walk(m, start, node, count) > 0 {
          var path :| |path| == Walk(m, start, node, count) + 1 && path[..|next|] == next
                      && path[|path| - 1] == start && Retraces(m, path);
          assert path[..|trail|] == next[..|trail|] == trail;
        }
      }
    }
  }

  /** Steps depend only on the elevations, so a route survives recording parents. */
  lemma RetracesKept(m1: seq<seq<Cell>>, m2: seq<seq<Cell>>, path: seq<Cords>)
    requires SameHeights(m1, m2) && Retraces(m1, path)
    ensures Retraces(m2, path)
  {
    forall i | 0 <= i < |path| - 1 ensures Step(m2, path[i + 1], path[i]) {
      StepKept(m1, m2, path[i + 1], path[i]);
    }
  }

  /** The `while let Some(p) = node` loop of `part_1`. */
  method Trace(b: Board) returns (r: nat)
    requires ParentsValid(b.cells) && InMap(b.cells, b.end)
    ensures r == Walk(b.cells, b.start, b.GetParent(b.end), 0)
  {
    ParentStep(b.cells, b.end);
    var node := b.GetParent(b.end);
    var count := 0;
    while node.Some?
      invariant count <= 50 && (node.Some? ==> InMap(b.cells, node.value))
      invariant Walk(b.cells, b.start, node, count) == Walk(b.cells, b.start, b.GetParent(b.end), 0)
      decreases 50 - count
    {
      var p := node.value;
      if p == b.start {
        return count + 1;
      }
      if count >= 50 {
        return 0;
      }
      ParentStep(b.cells, p);
      count := count + 1;
      node := b.GetParent(p);
    }
    return 0;
  }

  /** `part_1`: parse (a board without `S` or `E` makes the `unwrap` panic), search, and
      count the steps back from the end. A positive answer is the length of a route of
      legal steps from the start to the end, and it is never above 51. */
  method Part1(input: string) returns (r: nat)
    requires RowsOk(RowsOf(input)) && ParseBoard(input).Ok?
    ensures r <= 51
    ensures r > 0 ==> exists path :: |path| == r + 1 && Route(ParseBoard(input).value, path)
  {
    var g := ParseBoard(input).value;
    var b := new Board(g);
    Search(b);
    r := Trace(b);
    ParentStep(b.cells, b.end);
    WalkRetraces(b.cells, b.start, b.GetParent(b.end), 0, [b.end]);
    if r > 0 {
      var path :| |path| == r + 1 && path[..1] == [b.end] && path[|path| - 1] == b.start
                  && Retraces(b.cells, path);
      RetracesKept(b.cells, g.cells, path);
      assert path[0] == path[..1][0];
      assert Route(g, path);
    }
  }
}
