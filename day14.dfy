/** Day 14: regolith reservoir. The input lists rock paths; each column of the cave keeps
    the depths it has occupied, sorted, ending with the floor two below the deepest rock.
    Sand falls from (500, 0): straight down to the first occupied depth, then diagonally
    left, then right, and rests when both diagonals are blocked. */
module Day14 {
  import opened Wrappers
  import opened Text
  import opened Sorting

  /** (x, y): the column and the depth. */
  type Point = (nat, nat)

  /** Where the sand comes from. */
  const SOURCE: Point := (500, 0)

  /** The number of columns the parser starts with. */
  const START_COLUMNS: nat := 1000

  function Min(a: nat, b: nat): nat { if a < b then a else b }

  function Max(a: nat, b: nat): nat { if a < b then b else a }

  // ---------------------------------------------------------------- parsing

  /** One `x,y` point of a path. */
  function ParsePoint(p: string): (r: Result<Point>)
    ensures r.Ok? <==> (SplitOnce(p, ",").Some?
      && ParseNat(SplitOnce(p, ",").value.0, USIZE_MAX).Some? && ParseNat(SplitOnce(p, ",").value.1, USIZE_MAX).Some?)
    ensures r.Ok? ==> (p == SplitOnce(p, ",").value.0 + "," + SplitOnce(p, ",").value.1
      && ParseNat(SplitOnce(p, ",").value.0, USIZE_MAX) == Some(r.value.0)
      && ParseNat(SplitOnce(p, ",").value.1, USIZE_MAX) == Some(r.value.1))
  {
    match SplitOnce(p, ",")
    case None => Err("Invalid Point")
    case Some((xs, ys)) =>
      match ParseNat(xs, USIZE_MAX)
      case None => Err("invalid digit found in string")
      case Some(x) =>
        match ParseNat(ys, USIZE_MAX)
        case None => Err("invalid digit found in string")
        case Some(y) => Ok((x, y))
  }

  function FormatPoint(p: Point): string
  {
    NatToString(p.0) + "," + NatToString(p.1)
  }

  /** Points within `usize` read back from their text. */
  lemma ParseFormatPoint(p: Point)
    requires p.0 <= USIZE_MAX && p.1 <= USIZE_MAX
    ensures ParsePoint(FormatPoint(p)) == Ok(p)
  {
    NatToStringNoChar(p.0, ',');
    SplitOnceChar(NatToString(p.0), ',', NatToString(p.1));
    assert FormatPoint(p) == NatToString(p.0) + [','] + NatToString(p.1);
    ParseNatToString(p.0, USIZE_MAX);
    ParseNatToString(p.1, USIZE_MAX);
  }

  function ParsedPoints(pieces: seq<string>): (rs: seq<Result<Point>>)
    ensures |rs| == |pieces| && forall k :: 0 <= k < |pieces| ==> rs[k] == ParsePoint(pieces[k])
  {
    seq(|pieces|, k requires 0 <= k < |pieces| => ParsePoint(pieces[k]))
  }

  /** One line: its points, split at " -> ". */
  function ParsePath(line: string): (r: Result<seq<Point>>)
    ensures r.Ok? <==> forall k :: 0 <= k < |SplitOn(line, " -> ")| ==> ParsePoint(SplitOn(line, " -> ")[k]).Ok?
    ensures r.Ok? ==> (|r.value| == |SplitOn(line, " -> ")| >= 1
      && forall k :: 0 <= k < |r.value| ==> ParsePoint(SplitOn(line, " -> ")[k]) == Ok(r.value[k]))
  {
    var pieces := SplitOn(line, " -> ");
    var rs := ParsedPoints(pieces);
    assert forall k :: 0 <= k < |rs| ==> rs[k] == ParsePoint(pieces[k]);
    var r := Collect(rs);
    assert r.Ok? ==> |r.value| == |pieces| >= 1;
    r
  }

  function ParsedPaths(lines: seq<string>): (rs: seq<Result<seq<Point>>>)
    ensures |rs| == |lines| && forall k :: 0 <= k < |lines| ==> rs[k] == ParsePath(lines[k])
  {
    seq(|lines|, k requires 0 <= k < |lines| => ParsePath(lines[k]))
  }

  /** Every line's path; the first bad point fails the whole input. The input parses
      exactly when every line does, and then gives one path per line, in order. */
  function ParsePaths(s: string): (r: Result<seq<seq<Point>>>)
    ensures r.Ok? <==> forall k :: 0 <= k < |Lines(s)| ==> ParsePath(Lines(s)[k]).Ok?
    ensures r.Ok? ==> |r.value| == |Lines(s)| && forall k :: 0 <= k < |Lines(s)| ==> ParsePath(Lines(s)[k]) == Ok(r.value[k])
    ensures r.Err? ==> exists k :: 0 <= k < |Lines(s)| && ParsePath(Lines(s)[k]) == Err(r.msg)
  {
    var rs := ParsedPaths(Lines(s));
    assert forall k :: 0 <= k < |rs| ==> rs[k] == ParsePath(Lines(s)[k]);
    Collect(rs)
  }

  // ---------------------------------------------------------------- rock

  /** The pushes of one window of a path, in the parser's order: a vertical segment
      pushes its depths from the deeper end up into its column; any other segment pushes
      the first end's depth into every column from its left end to its right end. */
  function Segment(a: Point, b: Point): (r: seq<Point>)
  {
    if a.0 == b.0 then
      var s, e := Min(a.1, b.1), Max(a.1, b.1);
      seq(e - s + 1, k requires 0 <= k < e - s + 1 => (a.0, e - k))
    else
      var s, e := Min(a.0, b.0), Max(a.0, b.0);
      seq(e - s + 1, k requires 0 <= k < e - s + 1 => (s + k, a.1))
  }

  /** A vertical window covers its column between its two depths; any other window
      covers the first end's depth between its two columns. */
  lemma SegmentCells(a: Point, b: Point, p: Point)
    ensures p in Segment(a, b) <==>
      if a.0 == b.0 then p.0 == a.0 && Min(a.1, b.1) <= p.1 <= Max(a.1, b.1)
      else p.1 == a.1 && Min(a.0, b.0) <= p.0 <= Max(a.0, b.0)
  {
    var seg := Segment(a, b);
    if a.0 == b.0 {
      if Min(a.1, b.1) <= p.1 <= Max(a.1, b.1) && p.0 == a.0 {
        assert seg[Max(a.1, b.1) - p.1] == p;
      }
    } else {
      if Min(a.0, b.0) <= p.0 <= Max(a.0, b.0) && p.1 == a.1 {
        assert seg[p.0 - Min(a.0, b.0)] == p;
      }
    }
  }

  /** The pushes of a whole path: its windows in order. */
  function PathPushes(path: seq<Point>): seq<Point>
  {
    if |path| < 2 then [] else PathPushes(path[..|path| - 1]) + Segment(path[|path| - 2], path[|path| - 1])
  }

  /** The pushes of all paths, line by line. */
  function AllPushes(paths: seq<seq<Point>>): seq<Point>
  {
    if paths == [] then [] else AllPushes(paths[..|paths| - 1]) + PathPushes(paths[|paths| - 1])
  }

  /** The depths pushed into column `x`, in order. */
  function ColumnOf(ps: seq<Point>, x: nat): seq<int>
  {
    if ps == [] then []
    else ColumnOf(ps[..|ps| - 1], x) + (if ps[|ps| - 1].0 == x then [ps[|ps| - 1].1 as int] else [])
  }

  /** The deepest depth pushed (`largest` before the floor is added). */
  function Deepest(ps: seq<Point>): nat
  {
    if ps == [] then 0 else Max(Deepest(ps[..|ps| - 1]), ps[|ps| - 1].1)
  }

  /** The number of columns: 1000, or more when a push goes further right. */
  function Width(ps: seq<Point>): nat
  {
    if ps == [] then START_COLUMNS else Max(Width(ps[..|ps| - 1]), ps[|ps| - 1].0 + 1)
  }

  /** The columns the parser builds: each column's pushes sorted, then the floor. */
  function Columns(ps: seq<Point>): seq<seq<int>>
  {
    seq(Width(ps), x requires 0 <= x < Width(ps) => SortAsc(ColumnOf(ps, x)) + [Deepest(ps) + 2])
  }

  lemma {:induction false} ColumnOfMeans(ps: seq<Point>, x: nat, e: int)
    ensures e in ColumnOf(ps, x) <==> e >= 0 && (x, e as nat) in ps
  {
    if ps != [] {
      ColumnOfMeans(ps[..|ps| - 1], x, e);
      assert ps == ps[..|ps| - 1] + [ps[|ps| - 1]];
    }
  }

  lemma {:induction false} DeepestMeans(ps: seq<Point>)
    ensures forall p :: p in ps ==> p.1 <= Deepest(ps)
    ensures forall p :: p in ps ==> p.0 < Width(ps)
    ensures Width(ps) >= START_COLUMNS
  {
    if ps != [] {
      DeepestMeans(ps[..|ps| - 1]);
      assert ps == ps[..|ps| - 1] + [ps[|ps| - 1]];
    }
  }

  /** Column `x` after parsing: ascending, ending with the floor two below the deepest
      rock, and above the floor exactly the depths pushed into it, each as often as
      pushed. */
  lemma ColumnsMeans(ps: seq<Point>, x: nat)
    requires x < Width(ps)
    ensures |Columns(ps)| == Width(ps) >= START_COLUMNS
    ensures var col := Columns(ps)[x];
      && NonDecreasing(col) && |col| >= 1 && col[|col| - 1] == Deepest(ps) + 2
      && multiset(col[..|col| - 1]) == multiset(ColumnOf(ps, x))
      && (forall k :: 0 <= k < |col| ==> 0 <= col[k] <= Deepest(ps) + 2)
  {
    DeepestMeans(ps);
    var c := ColumnOf(ps, x);
    var sorted := SortAsc(c);
    var col := Columns(ps)[x];
    assert col == sorted + [Deepest(ps) + 2];
    SortAscSorted(c);
    SortAscPerm(c);
    forall k | 0 <= k < |sorted| ensures 0 <= sorted[k] <= Deepest(ps) {
      assert sorted[k] in multiset(sorted);
      assert sorted[k] in c;
      ColumnOfMeans(ps, x, sorted[k]);
    }
    CapSorted(sorted, Deepest(ps) + 2, col);
  }

  /** Appending a cap no smaller than every element keeps a sequence ascending and
      bounded by the cap. */
  lemma CapSorted(s: seq<int>, cap: int, t: seq<int>)
    requires t == s + [cap] && NonDecreasing(s) && 0 <= cap
    requires forall k :: 0 <= k < |s| ==> 0 <= s[k] < cap
    ensures NonDecreasing(t) && t[..|t| - 1] == s && (forall k :: 0 <= k < |t| ==> 0 <= t[k] <= cap)
  {
    assert t[..|t| - 1] == s;
    forall i, j | 0 <= i < j < |t| ensures t[i] <= t[j] {
      if j < |s| {
        assert t[i] == s[i] && t[j] == s[j];
      } else {
        assert t[i] == s[i] && t[j] == cap;
      }
    }
    forall k | 0 <= k < |t| ensures 0 <= t[k] <= cap {
      if k < |s| {
        assert t[k] == s[k];
      }
    }
  }

  /** The heaps built so far hold, column by column, the depths of the pushes `done`. */
  ghost predicate Heaps(heaps: seq<seq<int>>, done: seq<Point>)
  {
    |heaps| == Width(done) && forall x :: 0 <= x < |heaps| ==> heaps[x] == ColumnOf(done, x)
  }

  /** One `x_vec[x].push(y)`, after growing `x_vec` to reach column `x` when it is too
      short, together with `largest = max(y, largest)`. */
  method Push(heaps0: seq<seq<int>>, largest0: nat, ghost done: seq<Point>, p: Point)
      returns (heaps: seq<seq<int>>, largest: nat)
    requires Heaps(heaps0, done) && largest0 == Deepest(done)
    ensures Heaps(heaps, done + [p]) && largest == Deepest(done + [p])
  {
    heaps := heaps0;
    if |heaps| <= p.0 {
      heaps := heaps + seq(p.0 + 1 - |heaps|, _ => []);
    }
    heaps := heaps[p.0 := heaps[p.0] + [p.1]];
    largest := Max(p.1, largest0);
    ghost var next := done + [p];
    assert next[..|next| - 1] == done;
    forall x | 0 <= x < |heaps| ensures heaps[x] == ColumnOf(next, x) {
      if x >= |heaps0| {
        assert Width(done) <= x;
        DeepestMeans(done);
        ColumnOfNone(done, x);
      }
    }
  }

  /** A column no push reaches has nothing pushed into it. */
  lemma {:induction false} ColumnOfNone(ps: seq<Point>, x: nat)
    requires Width(ps) <= x
    ensures ColumnOf(ps, x) == []
  {
    if ps != [] {
      ColumnOfNone(ps[..|ps| - 1], x);
    }
  }

  /** One window of a path: the vertical or the horizontal branch of the parser. */
  method PushSegment(heaps0: seq<seq<int>>, largest0: nat, ghost done: seq<Point>, a: Point, b: Point)
      returns (heaps: seq<seq<int>>, largest: nat)
    requires Heaps(heaps0, done) && largest0 == Deepest(done)
    ensures Heaps(heaps, done + Segment(a, b)) && largest == Deepest(done + Segment(a, b))
  {
    if a.0 == b.0 {
      heaps, largest := PushVertical(heaps0, largest0, done, a, b);
    } else {
      heaps, largest := PushHorizontal(heaps0, largest0, done, a, b);
    }
  }

  /** `for v in (s..=e).rev()`: the depths of a vertical window, deepest first. */
  method PushVertical(heaps0: seq<seq<int>>, largest0: nat, ghost done: seq<Point>, a: Point, b: Point)
      returns (heaps: seq<seq<int>>, largest: nat)
    requires Heaps(heaps0, done) && largest0 == Deepest(done) && a.0 == b.0
    ensures Heaps(heaps, done + Segment(a, b)) && largest == Deepest(done + Segment(a, b))
  {
    heaps, largest := heaps0, largest0;
    ghost var seg := Segment(a, b);
    ghost var cur := done;
    assert done + seg[..0] == done;
    var s, e := Min(a.1, b.1), Max(a.1, b.1);
    for k := 0 to e - s + 1
      invariant cur == done + seg[..k]
      invariant Heaps(heaps, cur) && largest == Deepest(cur)
    {
      var p: Point := (a.0, e - k);
      SnocPrefix(done, seg, k);
      heaps, largest := Push(heaps, largest, cur, p);
      cur := cur + [p];
    }
    assert seg[..|seg|] == seg;
  }

  /** `for v in s..=e`: the columns of a horizontal window, left to right. */
  method PushHorizontal(heaps0: seq<seq<int>>, largest0: nat, ghost done: seq<Point>, a: Point, b: Point)
      returns (heaps: seq<seq<int>>, largest: nat)
    requires Heaps(heaps0, done) && largest0 == Deepest(done) && a.0 != b.0
    ensures Heaps(heaps, done + Segment(a, b)) && largest == Deepest(done + Segment(a, b))
  {
    heaps, largest := heaps0, largest0;
    ghost var seg := Segment(a, b);
    ghost var cur := done;
    assert done + seg[..0] == done;
    var s, e := Min(a.0, b.0), Max(a.0, b.0);
    for k := 0 to e - s + 1
      invariant cur == done + seg[..k]
      invariant Heaps(heaps, cur) && largest == Deepest(cur)
    {
      var p: Point := (s + k, a.1);
      SnocPrefix(done, seg, k);
      heaps, largest := Push(heaps, largest, cur, p);
      cur := cur + [p];
    }
    assert seg[..|seg|] == seg;
  }

  lemma SnocPrefix<T>(done: seq<T>, seg: seq<T>, k: nat)
    requires k < |seg|
    ensures done + seg[..k + 1] == (done + seg[..k]) + [seg[k]]
  {
    assert seg[..k + 1] == seg[..k] + [seg[k]];
  }

  /** The windows of one path, in order. */
  method PushPath(heaps0: seq<seq<int>>, largest0: nat, ghost done: seq<Point>, path: seq<Point>)
      returns (heaps: seq<seq<int>>, largest: nat)
    requires Heaps(heaps0, done) && largest0 == Deepest(done)
    ensures Heaps(heaps, done + PathPushes(path)) && largest == Deepest(done + PathPushes(path))
  {
    heaps, largest := heaps0, largest0;
    if |path| < 2 {
      assert done + PathPushes(path) == done;
      return;
    }
    ghost var cur := done;
    assert PathPushes(path[..1]) == [];
    assert done + [] == done;
    for j := 1 to |path|
      invariant cur == done + PathPushes(path[..j])
      invariant Heaps(heaps, cur) && largest == Deepest(cur)
    {
      heaps, largest := PushSegment(heaps, largest, cur, path[j - 1], path[j]);
      PathStep(done, path, j);
      cur := cur + Segment(path[j - 1], path[j]);
    }
    assert path[..|path|] == path;
  }

  lemma PathStep(done: seq<Point>, path: seq<Point>, j: nat)
    requires 1 <= j < |path|
    ensures done + PathPushes(path[..j + 1]) == done + PathPushes(path[..j]) + Segment(path[j - 1], path[j])
  {
    PathSnoc(path[..j + 1], path[..j], path[j - 1], path[j]);
  }

  lemma PathSnoc(p: seq<Point>, q: seq<Point>, a: Point, b: Point)
    requires |p| >= 2 && p[..|p| - 1] == q && p[|p| - 2] == a && p[|p| - 1] == b
    ensures PathPushes(p) == PathPushes(q) + Segment(a, b)
  {
  }

  /** The body of `Cave::from_str` after parsing: push every path into 1000 empty heaps,
      sort each heap, add 2 to `largest` and put that floor at the bottom of every column. */
  method BuildColumns(paths: seq<seq<Point>>) returns (cols: seq<seq<int>>, largest: nat)
    ensures cols == Columns(AllPushes(paths)) && largest == Deepest(AllPushes(paths)) + 2
  {
    var heaps: seq<seq<int>> := seq(START_COLUMNS, _ => []);
    largest := 0;
    assert Heaps(heaps, AllPushes(paths[..0]));
    for i := 0 to |paths|
      invariant Heaps(heaps, AllPushes(paths[..i])) && largest == Deepest(AllPushes(paths[..i]))
    {
      heaps, largest := PushPath(heaps, largest, AllPushes(paths[..i]), paths[i]);
      assert paths[..i + 1][..i] == paths[..i];
    }
    assert paths[..|paths|] == paths;
    ghost var ps := AllPushes(paths);
    largest := largest + 2;
    cols := seq(|heaps|, x requires 0 <= x < |heaps| => SortAsc(heaps[x]));
    for x := 0 to |cols|
      invariant |cols| == |heaps|
      invariant forall z :: 0 <= z < x ==> cols[z] == SortAsc(heaps[z]) + [largest]
      invariant forall z :: x <= z < |cols| ==> cols[z] == SortAsc(heaps[z])
    {
      cols := cols[x := cols[x] + [largest]];
    }
  }

  // ---------------------------------------------------------------- falling

  /** `iter().find(|pot| pot > y)`: the first entry of a column deeper than `y`. */
  function FirstBelow(col: seq<int>, y: int): (r: Option<int>)
    ensures r.Some? ==> r.value in col && r.value > y
    ensures r.None? <==> forall k :: 0 <= k < |col| ==> col[k] <= y
  {
    if col == [] then None
    else if col[0] > y then Some(col[0])
    else
      var r := FirstBelow(col[1..], y);
      assert forall k :: 1 <= k < |col| ==> col[k] == col[1..][k - 1];
      r
  }

  /** In an ascending column the first entry deeper than `y` is the shallowest one. */
  lemma {:induction false} FirstBelowLeast(col: seq<int>, y: int, e: int)
    requires NonDecreasing(col) && FirstBelow(col, y).Some? && e in col && e > y
    ensures FirstBelow(col, y).value <= e
  {
    if col[0] <= y {
      TailNonDecreasing(col);
      assert e in col[1..];
      FirstBelowLeast(col[1..], y, e);
    } else {
      var k :| 0 <= k < |col| && col[k] == e;
      assert col[0] <= col[k] by {
        if k > 0 { assert col[0] <= col[k]; }
      }
    }
  }

  /** `for y in list.iter() { if *y == pnt { ...; break; } }`. */
  method Contains(list: seq<int>, v: int) returns (found: bool)
    ensures found <==> v in list
  {
    found := false;
    for k := 0 to |list|
      invariant v !in list[..k]
    {
      if list[k] == v {
        return true;
      }
      assert list[..k + 1] == list[..k] + [list[k]];
    }
    assert list[..|list|] == list;
  }

  /** Every depth in every column is between 0 and the floor. */
  predicate Bounded(rocks: seq<seq<int>>, largest: nat)
  {
    forall x, k :: 0 <= x < |rocks| && 0 <= k < |rocks[x]| ==> 0 <= rocks[x][k] <= largest
  }

  lemma BoundedIn(rocks: seq<seq<int>>, largest: nat, x: nat, e: int)
    requires Bounded(rocks, largest) && x < |rocks| && e in rocks[x]
    ensures 0 <= e <= largest
  {
    var k :| 0 <= k < |rocks[x]| && rocks[x][k] == e;
  }

  /** The cave after one `drop`, and where the grain rests (None: nowhere). */
  datatype Fall = Fall(rocks: seq<seq<int>>, rest: Option<Point>)

  /** Where `drop` can start without `from.0 - 1` going below 0: a grain in column 0
      would have to be at the floor's depth or below it, where nothing is deeper. */
  predicate CanDrop(rocks: seq<seq<int>>, largest: nat, from: Point)
  {
    Bounded(rocks, largest) && from.0 < |rocks| && from.0 + from.1 >= largest
  }

  /** One step of `Cave::drop`: either the grain's fate is decided, or it moves one
      column aside, to the depth `pnt`, on a cave that may have grown by one column. */
  datatype Move = Done(fall: Fall) | Next(rocks: seq<seq<int>>, from: Point)

  /** The body of `Cave::drop` up to its recursive calls: find the first occupied depth
      `pnt` below `from`; without a floor, the floor itself means the grain falls out. If
      the column to the left does not hold `pnt`, continue from there; then the same to
      the right, where with a floor a column past the last is created holding only the
      floor, and without one the grain falls out. Otherwise the grain rests just above
      `pnt`. (The left neighbour always exists, so the source's creation of a missing
      left column never happens.) */
  function DropStep(rocks: seq<seq<int>>, largest: nat, from: Point, floor: bool): (m: Move)
    requires CanDrop(rocks, largest, from)
    ensures m.Next? ==> CanDrop(m.rocks, largest, m.from) && from.1 < m.from.1 <= largest
  {
    match FirstBelow(rocks[from.0], from.1)
    case None => Done(Fall(rocks, None))
    case Some(pnt) =>
      BoundedIn(rocks, largest, from.0, pnt);
      if pnt == largest && !floor then Done(Fall(rocks, None))
      else if pnt !in rocks[from.0 - 1] then Next(rocks, (from.0 - 1, pnt))
      else if from.0 + 1 == |rocks| && !floor then Done(Fall(rocks, None))
      else
        var rocks1 := if from.0 + 1 == |rocks| then rocks + [[largest]] else rocks;
        if pnt !in rocks1[from.0 + 1] then Next(rocks1, (from.0 + 1, pnt))
        else Done(Fall(rocks1, Some((from.0, pnt - 1))))
  }

  /** `Cave::drop`, its recursion included. */
  function DropSpec(rocks: seq<seq<int>>, largest: nat, from: Point, floor: bool): (r: Fall)
    requires CanDrop(rocks, largest, from)
    decreases largest - from.1
  {
    match DropStep(rocks, largest, from, floor)
    case Done(f) => f
    case Next(rocks1, next) => DropSpec(rocks1, largest, next, floor)
  }

  /** A cave ready for the simulations: the floor is shallower than 500, so every grain
      from the source stays at least one column away from column 0 and left of the
      1000th column; each column is ascending, bounded by the floor and holds it. */
  predicate Valid(rocks: seq<seq<int>>, largest: nat)
  {
    && 2 <= largest < 500 && START_COLUMNS <= |rocks| && Bounded(rocks, largest)
    && (forall x :: 0 <= x < |rocks| ==> NonDecreasing(rocks[x]) && largest in rocks[x])
  }

  /** `b` is `a` with perhaps some floor-only columns added past its end, which only
      happens with a floor. */
  predicate Extends(a: seq<seq<int>>, b: seq<seq<int>>, largest: nat, floor: bool)
  {
    && |b| >= |a| && b[..|a|] == a && Bounded(b, largest)
    && (forall i :: |a| <= i < |b| ==> b[i] == [largest])
    && (!floor ==> b == a)
  }

  lemma ExtendsTrans(a: seq<seq<int>>, b: seq<seq<int>>, c: seq<seq<int>>, largest: nat, floor: bool)
    requires Extends(a, b, largest, floor) && Extends(b, c, largest, floor)
    ensures Extends(a, c, largest, floor)
  {
    assert c[..|a|] == c[..|b|][..|a|];
    forall i | |a| <= i < |c| ensures c[i] == [largest] {
      if i < |b| {
        assert c[i] == c[..|b|][i];
      }
    }
  }

  /** Square `l` lies inside the cave above the floor, and the square below it and both
      diagonals below it are occupied: a grain there cannot move. */
  predicate Supported(rocks: seq<seq<int>>, largest: nat, l: Point)
  {
    && 1 <= l.0 && l.0 + 1 < |rocks| && l.1 < largest
    && (l.1 + 1) in rocks[l.0] && (l.1 + 1) in rocks[l.0 - 1] && (l.1 + 1) in rocks[l.0 + 1]
  }

  /** A move of `drop` goes one column aside to a deeper square that is free, on a cave
      that only grew by a floor-only column past the last one. */
  lemma StepNext(rocks: seq<seq<int>>, largest: nat, from: Point, floor: bool)
    requires CanDrop(rocks, largest, from)
    ensures var m := DropStep(rocks, largest, from, floor);
      m.Next? ==>
        && Extends(rocks, m.rocks, largest, floor)
        && (m.from.0 + 1 == from.0 || m.from.0 == from.0 + 1)
        && m.from.1 !in m.rocks[m.from.0] && (!floor ==> m.from.1 < largest)
        && (m.rocks == rocks || from.0 + 1 == |rocks|)
  {
    assert rocks[..|rocks|] == rocks;
    match FirstBelow(rocks[from.0], from.1)
    case None =>
    case Some(pnt) =>
      BoundedIn(rocks, largest, from.0, pnt);
      if pnt == largest && !floor {
      } else if pnt !in rocks[from.0 - 1] {
      } else if from.0 + 1 == |rocks| && !floor {
      } else if from.0 + 1 == |rocks| {
        var rocks1 := rocks + [[largest]];
        assert rocks1[..|rocks|] == rocks;
      }
  }

  /** When `drop` decides, the cave has only grown by floor-only columns. */
  lemma StepDone(rocks: seq<seq<int>>, largest: nat, from: Point, floor: bool)
    requires CanDrop(rocks, largest, from)
    ensures var m := DropStep(rocks, largest, from, floor);
      m.Done? ==>
        Extends(rocks, m.fall.rocks, largest, floor) && (m.fall.rocks == rocks || from.0 + 1 == |rocks|)
  {
    assert rocks[..|rocks|] == rocks;
    match FirstBelow(rocks[from.0], from.1)
    case None =>
    case Some(pnt) =>
      BoundedIn(rocks, largest, from.0, pnt);
      if pnt == largest && !floor {
      } else if pnt !in rocks[from.0 - 1] {
      } else if from.0 + 1 == |rocks| && !floor {
      } else if from.0 + 1 == |rocks| {
        var rocks1 := rocks + [[largest]];
        assert rocks1[..|rocks|] == rocks;
      }
  }

  /** A grain rests in the column it fell in, just above an occupied square whose two
      diagonal neighbours are occupied, inside the cave and above the floor. */
  lemma StepRest(rocks: seq<seq<int>>, largest: nat, from: Point, floor: bool)
    requires CanDrop(rocks, largest, from)
    ensures var m := DropStep(rocks, largest, from, floor);
      m.Done? && m.fall.rest.Some? ==>
        m.fall.rest.value.0 == from.0 && Supported(m.fall.rocks, largest, m.fall.rest.value)
  {
    match FirstBelow(rocks[from.0], from.1)
    case None =>
    case Some(pnt) =>
      BoundedIn(rocks, largest, from.0, pnt);
      if pnt == largest && !floor {
      } else if pnt !in rocks[from.0 - 1] {
      } else if from.0 + 1 == |rocks| && !floor {
      } else {
        var rocks1 := if from.0 + 1 == |rocks| then rocks + [[largest]] else rocks;
        assert rocks1[from.0] == rocks[from.0] && rocks1[from.0 - 1] == rocks[from.0 - 1];
      }
  }

  /** In sorted columns the square a grain rests on, just above the first occupied one,
      is free unless it is the starting square. */
  lemma StepRestFree(rocks: seq<seq<int>>, largest: nat, from: Point, floor: bool)
    requires CanDrop(rocks, largest, from) && Sorted(rocks)
    ensures var m := DropStep(rocks, largest, from, floor);
      m.Done? && m.fall.rest.Some? ==>
        var l := m.fall.rest.value;
        l == from || (l.0 < |m.fall.rocks| && l.1 !in m.fall.rocks[l.0])
  {
    match FirstBelow(rocks[from.0], from.1)
    case None =>
    case Some(pnt) =>
      if pnt - 1 != from.1 && pnt - 1 in rocks[from.0] {
        FirstBelowLeast(rocks[from.0], from.1, pnt - 1);
      }
      if from.0 + 1 == |rocks| {
        assert (rocks + [[largest]])[from.0] == rocks[from.0];
      }
  }

  /** `drop` only ever adds floor-only columns past the last one, and only with a
      floor. */
  lemma {:induction false} DropShape(rocks: seq<seq<int>>, largest: nat, from: Point, floor: bool)
    requires CanDrop(rocks, largest, from)
    ensures Extends(rocks, DropSpec(rocks, largest, from, floor).rocks, largest, floor)
    decreases largest - from.1
  {
    StepNext(rocks, largest, from, floor);
    StepDone(rocks, largest, from, floor);
    var m := DropStep(rocks, largest, from, floor);
    if m.Next? {
      DropShape(m.rocks, largest, m.from, floor);
      ExtendsTrans(rocks, m.rocks, DropSpec(m.rocks, largest, m.from, floor).rocks, largest, floor);
    }
  }

  /** A grain rests only where the square below it and both diagonals below it are
      occupied, inside the cave and above the floor. */
  lemma {:induction false} DropRests(rocks: seq<seq<int>>, largest: nat, from: Point, floor: bool)
    requires CanDrop(rocks, largest, from)
    ensures var r := DropSpec(rocks, largest, from, floor);
      r.rest.Some? ==> Supported(r.rocks, largest, r.rest.value)
    decreases largest - from.1
  {
    StepRest(rocks, largest, from, floor);
    var m := DropStep(rocks, largest, from, floor);
    if m.Next? {
      DropRests(m.rocks, largest, m.from, floor);
    }
  }

  /** Every column ascending. */
  predicate Sorted(rocks: seq<seq<int>>)
  {
    forall x :: 0 <= x < |rocks| ==> NonDecreasing(rocks[x])
  }

  lemma ExtendsSorted(a: seq<seq<int>>, b: seq<seq<int>>, largest: nat, floor: bool)
    requires Extends(a, b, largest, floor) && Sorted(a)
    ensures Sorted(b)
  {
    forall x | 0 <= x < |b| ensures NonDecreasing(b[x]) {
      if x < |a| {
        assert b[x] == b[..|a|][x];
      }
    }
  }

  /** A grain rests on a free square, unless it rests where it started. */
  lemma {:induction false} DropFree(rocks: seq<seq<int>>, largest: nat, from: Point, floor: bool)
    requires CanDrop(rocks, largest, from) && Sorted(rocks)
    ensures var r := DropSpec(rocks, largest, from, floor);
      r.rest.Some? ==>
        r.rest.value == from || (r.rest.value.0 < |r.rocks| && r.rest.value.1 !in r.rocks[r.rest.value.0])
    decreases largest - from.1
  {
    StepNext(rocks, largest, from, floor);
    StepRestFree(rocks, largest, from, floor);
    var m := DropStep(rocks, largest, from, floor);
    if m.Next? {
      ExtendsSorted(rocks, m.rocks, largest, floor);
      DropFree(m.rocks, largest, m.from, floor);
      DropShape(m.rocks, largest, m.from, floor);
      var r := DropSpec(m.rocks, largest, m.from, floor);
      assert r.rocks[m.from.0] == r.rocks[..|m.rocks|][m.from.0];
    }
  }

  /** With a floor under every column, a grain above the floor always comes to rest
      (the `unreachable!` of `simulate_part_2`). */
  lemma {:induction false} DropFloorRests(rocks: seq<seq<int>>, largest: nat, from: Point)
    requires CanDrop(rocks, largest, from) && from.1 < largest
    requires forall x :: 0 <= x < |rocks| ==> largest in rocks[x]
    ensures DropSpec(rocks, largest, from, true).rest.Some?
    decreases largest - from.1
  {
    StepNext(rocks, largest, from, true);
    StepRest(rocks, largest, from, true);
    var m := DropStep(rocks, largest, from, true);
    if m.Done? {
      assert largest in rocks[from.0];
      assert FirstBelow(rocks[from.0], from.1).Some?;
    } else {
      forall x | 0 <= x < |m.rocks| ensures largest in m.rocks[x] {
        if x < |rocks| {
          assert m.rocks[x] == m.rocks[..|rocks|][x];
        } else {
          assert m.rocks[x] == [largest];
        }
      }
      DropFloorRests(m.rocks, largest, m.from);
    }
  }

  /** A grain that starts within the cone below the source never reaches the last
      column when the floor is shallow enough, so `drop` adds no column. */
  lemma {:induction false} DropKeepsColumns(rocks: seq<seq<int>>, largest: nat, from: Point, floor: bool)
    requires CanDrop(rocks, largest, from) && largest + 500 < |rocks|
    requires from.0 + from.1 >= 500 && from.0 <= from.1 + 500
    ensures DropSpec(rocks, largest, from, floor).rocks == rocks
    decreases largest - from.1
  {
    StepNext(rocks, largest, from, floor);
    StepDone(rocks, largest, from, floor);
    var m := DropStep(rocks, largest, from, floor);
    if m.Next? {
      DropKeepsColumns(m.rocks, largest, m.from, floor);
    }
  }

  // ---------------------------------------------------------------- pouring

  /** `rocks[l.0].push(l.1); rocks[l.0].sort()`: a grain comes to rest at `l`. */
  function Place(rocks: seq<seq<int>>, l: Point): seq<seq<int>>
    requires l.0 < |rocks|
  {
    rocks[l.0 := SortAsc(rocks[l.0] + [l.1])]
  }

  /** After a grain rests at `l`, column `l.0` holds what it held and `l.1`; the other
      columns are unchanged. */
  lemma PlaceIn(rocks: seq<seq<int>>, l: Point, v: int)
    requires l.0 < |rocks|
    ensures |Place(rocks, l)| == |rocks|
    ensures v in Place(rocks, l)[l.0] <==> v in rocks[l.0] || v == l.1
    ensures NonDecreasing(Place(rocks, l)[l.0])
  {
    var c := rocks[l.0] + [l.1];
    SortAscPerm(c);
    SortAscSorted(c);
    assert v in SortAsc(c) <==> v in multiset(SortAsc(c));
    assert v in c <==> v in multiset(c);
  }

  /** Placing a grain above the floor keeps the cave ready for the simulations. */
  lemma PlaceValid(rocks: seq<seq<int>>, largest: nat, l: Point)
    requires Valid(rocks, largest) && l.0 < |rocks| && l.1 < largest
    ensures Valid(Place(rocks, l), largest) && |Place(rocks, l)| == |rocks|
  {
    var p := Place(rocks, l);
    PlaceIn(rocks, l, largest);
    forall x, k | 0 <= x < |p| && 0 <= k < |p[x]| ensures 0 <= p[x][k] <= largest {
      if x == l.0 {
        PlaceIn(rocks, l, p[x][k]);
        if p[x][k] != l.1 {
          BoundedIn(rocks, largest, x, p[x][k]);
        }
      } else {
        assert p[x][k] in rocks[x];
        BoundedIn(rocks, largest, x, p[x][k]);
      }
    }
  }

  /** The free squares of the cave above the floor. */
  function Free(rocks: seq<seq<int>>, largest: nat): set<Point>
  {
    set x: nat, y: nat | x < |rocks| && y < largest && y !in rocks[x] :: (x, y)
  }

  lemma FreeIn(rocks: seq<seq<int>>, largest: nat, p: Point)
    ensures p in Free(rocks, largest) <==> p.0 < |rocks| && p.1 < largest && p.1 !in rocks[p.0]
  {
    if p.0 < |rocks| && p.1 < largest && p.1 !in rocks[p.0] {
      assert p == (p.0, p.1);
    }
  }

  /** A grain placed at `l` takes exactly square `l` out of the free ones. */
  lemma PlaceFree(rocks: seq<seq<int>>, largest: nat, l: Point)
    requires l.0 < |rocks| && l.1 < largest
    ensures Free(Place(rocks, l), largest) == Free(rocks, largest) - {l}
  {
    var p := Place(rocks, l);
    forall q: Point ensures q in Free(p, largest) <==> q in Free(rocks, largest) - {l} {
      FreeIn(p, largest, q);
      FreeIn(rocks, largest, q);
      PlaceIn(rocks, l, q.1);
    }
  }

  /** How one round of `simulate_part_1` ends: the grain falls out, rests on an occupied
      square (so every later round repeats it), or is placed. */
  datatype Round = FellOut | Stuck | Placed

  /** What `simulate_part_1` returns (None: it never returns), and the cave it leaves. */
  datatype Poured = Poured(grains: Option<nat>, rocks: seq<seq<int>>)

  /** `simulate_part_1`: drop grains from the source without a floor, placing each where
      it rests, until one falls out, and count the placed ones. A grain can only rest on
      an occupied square when it rests at the source with the source already filled;
      then every later grain does the same (see `StuckForever`) and the source never
      returns. */
  function Pour1(rocks: seq<seq<int>>, largest: nat): (r: Poured)
    requires Valid(rocks, largest)
    ensures Valid(r.rocks, largest) && |r.rocks| == |rocks|
    ensures r.grains.Some? ==>
      && r.grains.value == |Free(rocks, largest)| - |Free(r.rocks, largest)|
      && DropSpec(r.rocks, largest, SOURCE, false).rest.None?
    ensures r.grains.None? ==>
      var l := DropSpec(r.rocks, largest, SOURCE, false).rest;
      l.Some? && l.value.0 < |r.rocks| && l.value.1 in r.rocks[l.value.0]
    decreases |Free(rocks, largest)|
  {
    DropShape(rocks, largest, SOURCE, false);
    DropRests(rocks, largest, SOURCE, false);
    match DropSpec(rocks, largest, SOURCE, false).rest
    case None => Poured(Some(0), rocks)
    case Some(l) =>
      if l.1 in rocks[l.0] then Poured(None, rocks)
      else
        PlaceValid(rocks, largest, l);
        PlaceFree(rocks, largest, l);
        FreeIn(rocks, largest, l);
        var p := Pour1(Place(rocks, l), largest);
        Poured(if p.grains.Some? then Some(p.grains.value + 1) else None, p.rocks)
  }

  /** What `simulate_part_2` returns, and the cave it leaves. */
  datatype Piled = Piled(grains: nat, rocks: seq<seq<int>>)

  /** `simulate_part_2`: drop grains from the source onto the floor, placing each where it
      rests, until one rests at the source itself, and count them all. The pile ends up
      covering the source, and every grain but the one at the source took a free square
      (so does that one when the source started free). */
  function Pour2(rocks: seq<seq<int>>, largest: nat): (r: Piled)
    requires Valid(rocks, largest)
    ensures Valid(r.rocks, largest) && |r.rocks| == |rocks| && 0 in r.rocks[SOURCE.0]
    ensures r.grains >= 1
    ensures r.grains == |Free(rocks, largest)| - |Free(r.rocks, largest)| + (if 0 in rocks[SOURCE.0] then 1 else 0)
    decreases |Free(rocks, largest)|
  {
    DropKeepsColumns(rocks, largest, SOURCE, true);
    DropFloorRests(rocks, largest, SOURCE);
    DropRests(rocks, largest, SOURCE, true);
    DropFree(rocks, largest, SOURCE, true);
    var l := DropSpec(rocks, largest, SOURCE, true).rest.value;
    PlaceValid(rocks, largest, l);
    PlaceFree(rocks, largest, l);
    PlaceIn(rocks, l, 0);
    FreeIn(rocks, largest, l);
    if l == SOURCE then Piled(1, Place(rocks, l))
    else
      var p := Pour2(Place(rocks, l), largest);
      Piled(p.grains + 1, p.rocks)
  }

  // ---------------------------------------------------------------- a stuck source

  /** The depths a column holds, forgetting order and repetition. */
  function Members(col: seq<int>): set<int>
  {
    set v | v in col
  }

  /** Two caves with the same columns, up to order and repetition. */
  predicate SameSets(a: seq<seq<int>>, b: seq<seq<int>>)
  {
    |a| == |b| && forall x :: 0 <= x < |a| ==> Members(a[x]) == Members(b[x])
  }

  /** In ascending columns, the first entry deeper than `y` depends only on the set of
      depths. */
  lemma FirstBelowSame(a: seq<int>, b: seq<int>, y: int)
    requires NonDecreasing(a) && NonDecreasing(b) && Members(a) == Members(b)
    ensures FirstBelow(a, y) == FirstBelow(b, y)
  {
    var fa, fb := FirstBelow(a, y), FirstBelow(b, y);
    if fa.Some? {
      assert fa.value in Members(b);
      FirstBelowLeast(b, y, fa.value);
    }
    if fb.Some? {
      assert fb.value in Members(a);
      FirstBelowLeast(a, y, fb.value);
    }
  }

  lemma SameSetsIn(a: seq<seq<int>>, b: seq<seq<int>>, x: nat, v: int)
    requires SameSets(a, b) && x < |a|
    ensures v in a[x] <==> v in b[x]
  {
    assert v in a[x] <==> v in Members(a[x]);
  }

  lemma SameSetsWiden(a: seq<seq<int>>, b: seq<seq<int>>, largest: nat)
    requires SameSets(a, b)
    ensures SameSets(a + [[largest]], b + [[largest]])
  {
    var a1, b1 := a + [[largest]], b + [[largest]];
    forall x | 0 <= x < |a1| ensures Members(a1[x]) == Members(b1[x]) {
      if x < |a| {
        assert a1[x] == a[x] && b1[x] == b[x];
      }
    }
  }

  /** One step of `drop` does the same on two caves whose columns hold the same sets. */
  lemma StepSame(a: seq<seq<int>>, b: seq<seq<int>>, largest: nat, from: Point, floor: bool)
    requires CanDrop(a, largest, from) && CanDrop(b, largest, from)
    requires Sorted(a) && Sorted(b) && SameSets(a, b)
    ensures var ma, mb := DropStep(a, largest, from, floor), DropStep(b, largest, from, floor);
      && ma.Done? == mb.Done?
      && (ma.Done? ==> ma.fall.rest == mb.fall.rest && SameSets(ma.fall.rocks, mb.fall.rocks))
      && (ma.Next? ==> ma.from == mb.from && SameSets(ma.rocks, mb.rocks))
  {
    var ma, mb := DropStep(a, largest, from, floor), DropStep(b, largest, from, floor);
    FirstBelowSame(a[from.0], b[from.0], from.1);
    var below := FirstBelow(a[from.0], from.1);
    if below.None? {
      assert ma == Done(Fall(a, None)) && mb == Done(Fall(b, None));
    } else {
      var pnt := below.value;
      BoundedIn(a, largest, from.0, pnt);
      if pnt == largest && !floor {
        assert ma == Done(Fall(a, None)) && mb == Done(Fall(b, None));
      } else {
        SameSetsIn(a, b, from.0 - 1, pnt);
        if pnt !in a[from.0 - 1] {
          assert ma == Next(a, (from.0 - 1, pnt)) && mb == Next(b, (from.0 - 1, pnt));
        } else if from.0 + 1 == |a| && !floor {
          assert ma == Done(Fall(a, None)) && mb == Done(Fall(b, None));
        } else {
          var a1 := if from.0 + 1 == |a| then a + [[largest]] else a;
          var b1 := if from.0 + 1 == |b| then b + [[largest]] else b;
          if from.0 + 1 == |a| {
            SameSetsWiden(a, b, largest);
          }
          SameSetsIn(a1, b1, from.0 + 1, pnt);
          if pnt !in a1[from.0 + 1] {
            assert ma == Next(a1, (from.0 + 1, pnt)) && mb == Next(b1, (from.0 + 1, pnt));
          } else {
            assert ma == Done(Fall(a1, Some((from.0, pnt - 1))));
            assert mb == Done(Fall(b1, Some((from.0, pnt - 1))));
          }
        }
      }
    }
  }

  /** `drop` does the same on two caves whose columns hold the same sets. */
  lemma {:induction false} DropSame(a: seq<seq<int>>, b: seq<seq<int>>, largest: nat, from: Point, floor: bool)
    requires CanDrop(a, largest, from) && CanDrop(b, largest, from)
    requires Sorted(a) && Sorted(b) && SameSets(a, b)
    ensures DropSpec(a, largest, from, floor).rest == DropSpec(b, largest, from, floor).rest
    ensures SameSets(DropSpec(a, largest, from, floor).rocks, DropSpec(b, largest, from, floor).rocks)
    decreases largest - from.1
  {
    StepSame(a, b, largest, from, floor);
    var ma, mb := DropStep(a, largest, from, floor), DropStep(b, largest, from, floor);
    if ma.Next? {
      StepNext(a, largest, from, floor);
      StepNext(b, largest, from, floor);
      ExtendsSorted(a, ma.rocks, largest, floor);
      ExtendsSorted(b, mb.rocks, largest, floor);
      DropSame(ma.rocks, mb.rocks, largest, ma.from, floor);
    }
  }

  /** The endless loop of `simulate_part_1`: once a grain rests on an occupied square,
      placing it changes no column's set, so the next grain rests on the same square,
      still occupied, and so on forever. */
  lemma StuckForever(rocks: seq<seq<int>>, largest: nat)
    requires Valid(rocks, largest)
    requires var l := DropSpec(rocks, largest, SOURCE, false).rest;
      l.Some? && l.value.0 < |rocks| && l.value.1 in rocks[l.value.0]
    ensures var l := DropSpec(rocks, largest, SOURCE, false).rest.value;
      var next := Place(rocks, l);
      && Valid(next, largest) && SameSets(next, rocks)
      && DropSpec(next, largest, SOURCE, false).rest == Some(l) && l.1 in next[l.0]
  {
    var l := DropSpec(rocks, largest, SOURCE, false).rest.value;
    DropRests(rocks, largest, SOURCE, false);
    DropShape(rocks, largest, SOURCE, false);
    var next := Place(rocks, l);
    PlaceValid(rocks, largest, l);
    forall x | 0 <= x < |next| ensures Members(next[x]) == Members(rocks[x]) {
      if x == l.0 {
        forall v ensures v in Members(next[x]) <==> v in Members(rocks[x]) {
          PlaceIn(rocks, l, v);
        }
      }
    }
    PlaceIn(rocks, l, l.1);
    DropSame(next, rocks, largest, SOURCE, false);
  }

  // ---------------------------------------------------------------- the cave

  /** A count of grains placed before the rest of a part-1 run. */
  function Shifted(p: Poured, n: nat): Poured
  {
    Poured(if p.grains.Some? then Some(p.grains.value + n) else None, p.rocks)
  }

  /** One parsed column: ascending, holding the floor, bounded by it. */
  predicate ColumnOk(col: seq<int>, largest: nat)
  {
    NonDecreasing(col) && largest in col && forall k :: 0 <= k < |col| ==> 0 <= col[k] <= largest
  }

  lemma ValidOfColumns(rocks: seq<seq<int>>, largest: nat)
    requires 2 <= largest < 500 && START_COLUMNS <= |rocks|
    requires forall x :: 0 <= x < |rocks| ==> ColumnOk(rocks[x], largest)
    ensures Valid(rocks, largest)
  {
    forall x, k | 0 <= x < |rocks| && 0 <= k < |rocks[x]| ensures 0 <= rocks[x][k] <= largest {
      assert ColumnOk(rocks[x], largest);
    }
  }

  lemma ShiftedFinal(p: Poured, n: nat, rocks: seq<seq<int>>)
    requires p == Poured(Some(0), rocks)
    ensures Shifted(p, n) == Poured(Some(n), rocks)
  {
  }

  lemma ShiftedTwice(p: Poured, n: nat)
    ensures Shifted(Shifted(p, 1), n) == Shifted(p, n + 1)
  {
  }

  /** The parsed columns are ready for the simulations when the deepest rock is above
      depth 498. */
  lemma ColumnsValid(ps: seq<Point>)
    requires Deepest(ps) < 498
    ensures Valid(Columns(ps), Deepest(ps) + 2)
  {
    var rocks, largest := Columns(ps), Deepest(ps) + 2;
    ColumnsMeans(ps, 0);
    forall x | 0 <= x < |rocks| ensures ColumnOk(rocks[x], largest) {
      ColumnsMeans(ps, x);
      assert rocks[x][|rocks[x]| - 1] == largest;
    }
    ValidOfColumns(rocks, largest);
  }

  /** Without a floor, `drop` from the source leaves the cave as it is and a grain rests
      only where it cannot move. */
  lemma Pour1Drop(rocks: seq<seq<int>>, largest: nat)
    requires Valid(rocks, largest)
    ensures var f := DropSpec(rocks, largest, SOURCE, false);
      f.rocks == rocks && (f.rest.Some? ==> Supported(rocks, largest, f.rest.value))
  {
    DropShape(rocks, largest, SOURCE, false);
    DropRests(rocks, largest, SOURCE, false);
  }

  /** A round of `simulate_part_1` whose grain falls out ends the loop. */
  lemma Pour1Out(rocks: seq<seq<int>>, largest: nat)
    requires Valid(rocks, largest) && DropSpec(rocks, largest, SOURCE, false).rest.None?
    ensures Pour1(rocks, largest) == Poured(Some(0), rocks)
  {
  }

  /** A round of `simulate_part_1` whose grain rests on an occupied square is repeated
      forever. */
  lemma Pour1Stuck(rocks: seq<seq<int>>, largest: nat, l: Point)
    requires Valid(rocks, largest) && DropSpec(rocks, largest, SOURCE, false).rest == Some(l)
    requires l.0 < |rocks| && l.1 in rocks[l.0]
    ensures Pour1(rocks, largest) == Poured(None, rocks)
  {
  }

  /** A round of `simulate_part_1` that places a grain on a free square leaves a valid
      cave with fewer free squares. */
  lemma Pour1Next(rocks: seq<seq<int>>, largest: nat, l: Point)
    requires Valid(rocks, largest) && DropSpec(rocks, largest, SOURCE, false).rest == Some(l)
    requires l.0 < |rocks| && l.1 !in rocks[l.0]
    ensures Valid(Place(rocks, l), largest)
    ensures |Free(Place(rocks, l), largest)| < |Free(rocks, largest)|
  {
    Pour1Drop(rocks, largest);
    PlaceValid(rocks, largest, l);
    PlaceFree(rocks, largest, l);
    FreeIn(rocks, largest, l);
  }

  /** ... and counts one grain more than the rounds after it. */
  lemma Pour1Shift(rocks: seq<seq<int>>, largest: nat, l: Point)
    requires Valid(rocks, largest) && DropSpec(rocks, largest, SOURCE, false).rest == Some(l)
    requires l.0 < |rocks| && l.1 !in rocks[l.0] && Valid(Place(rocks, l), largest)
    ensures Pour1(rocks, largest) == Shifted(Pour1(Place(rocks, l), largest), 1)
  {
  }

  /** One round of `simulate_part_2`, unfolded. */
  lemma Pour2Step(rocks: seq<seq<int>>, largest: nat)
    requires Valid(rocks, largest)
    ensures var f := DropSpec(rocks, largest, SOURCE, true);
      && f.rocks == rocks && f.rest.Some? && f.rest.value.0 < |rocks|
      && Valid(Place(rocks, f.rest.value), largest)
      && (f.rest.value == SOURCE ==> Pour2(rocks, largest) == Piled(1, Place(rocks, SOURCE)))
      && (f.rest.value != SOURCE ==>
            && |Free(Place(rocks, f.rest.value), largest)| < |Free(rocks, largest)|
            && Pour2(rocks, largest).grains == Pour2(Place(rocks, f.rest.value), largest).grains + 1
            && Pour2(rocks, largest).rocks == Pour2(Place(rocks, f.rest.value), largest).rocks)
  {
    DropKeepsColumns(rocks, largest, SOURCE, true);
    DropFloorRests(rocks, largest, SOURCE);
    DropRests(rocks, largest, SOURCE, true);
    DropFree(rocks, largest, SOURCE, true);
    var l := DropSpec(rocks, largest, SOURCE, true).rest.value;
    PlaceValid(rocks, largest, l);
    PlaceFree(rocks, largest, l);
    FreeIn(rocks, largest, l);
  }

  /** `Cave`: the columns (rock and resting sand depths per x), the source and the
      floor's depth. */
  class Cave {
    var rocks: seq<seq<int>>
    const source: Point
    const largest: nat

    constructor (rocks: seq<seq<int>>, largest: nat)
      ensures this.rocks == rocks && this.largest == largest && source == SOURCE
    {
      this.rocks := rocks;
      this.largest := largest;
      source := SOURCE;
    }

    /** `drop`: where a grain starting at `from` comes to rest, creating a floor-only
        column on the right when it slides past the last one with a floor. */
    method Drop(from: Point, floor: bool) returns (r: Option<Point>)
      requires CanDrop(rocks, largest, from)
      modifies this
      ensures rocks == DropSpec(old(rocks), largest, from, floor).rocks
      ensures r == DropSpec(old(rocks), largest, from, floor).rest
      decreases largest - from.1
    {
      var first := FirstBelow(rocks[from.0], from.1);
      if first.None? {
        return None;
      }
      var pnt := first.value;
      BoundedIn(rocks, largest, from.0, pnt);
      if pnt == largest && !floor {
        return None;
      }
      var noLeft := Contains(rocks[from.0 - 1], pnt);
      if !noLeft {
        r := Drop((from.0 - 1, pnt), floor);
        return;
      }
      if from.0 + 1 == |rocks| {
        if !floor {
          return None;
        }
        rocks := rocks + [[largest]];
      }
      var noRight := Contains(rocks[from.0 + 1], pnt);
      if !noRight {
        r := Drop((from.0 + 1, pnt), floor);
        return;
      }
      return Some((from.0, pnt - 1));
    }

    /** One round of `simulate_part_1`'s loop: drop a grain from the source and, when it
        rests on a free square, place it there. */
    method Round1() returns (o: Round)
      requires Valid(rocks, largest) && source == SOURCE
      modifies this
      ensures o != Placed ==> rocks == old(rocks)
      ensures o == FellOut ==> Pour1(rocks, largest) == Poured(Some(0), rocks)
      ensures o == Stuck ==> Pour1(rocks, largest) == Poured(None, rocks)
      ensures o == Placed ==> Valid(rocks, largest) && |Free(rocks, largest)| < |Free(old(rocks), largest)|
      ensures o == Placed ==> Pour1(old(rocks), largest) == Shifted(Pour1(rocks, largest), 1)
    {
      ghost var prev := rocks;
      Pour1Drop(prev, largest);
      var l := Drop(source, false);
      if l.None? {
        Pour1Out(prev, largest);
        return FellOut;
      }
      var stuck := Contains(rocks[l.value.0], l.value.1);
      if stuck {
        Pour1Stuck(prev, largest, l.value);
        return Stuck;
      }
      Pour1Next(prev, largest, l.value);
      Pour1Shift(prev, largest, l.value);
      rocks := Place(rocks, l.value);
      return Placed;
    }

    /** `simulate_part_1`; None where the source loops forever (a grain resting on the
        filled source). */
    method SimulatePart1() returns (r: Option<nat>)
      requires Valid(rocks, largest) && source == SOURCE
      modifies this
      ensures r == Pour1(old(rocks), largest).grains && rocks == Pour1(old(rocks), largest).rocks
    {
      var counter: nat := 0;
      ghost var total := Pour1(old(rocks), largest);
      while true
        invariant Valid(rocks, largest)
        invariant total == Shifted(Pour1(rocks, largest), counter)
        decreases |Free(rocks, largest)|
      {
        var o := Round1();
        if o == FellOut {
          ShiftedFinal(Pour1(rocks, largest), counter, rocks);
          return Some(counter);
        } else if o == Stuck {
          assert total == Poured(None, rocks);
          return None;
        }
        ShiftedTwice(Pour1(rocks, largest), counter);
        counter := counter + 1;
      }
    }

    /** `simulate_part_2`: every drop onto the floor comes to rest, so its
        `unreachable!` is never reached. */
    method SimulatePart2() returns (r: nat)
      requires Valid(rocks, largest) && source == SOURCE
      modifies this
      ensures r == Pour2(old(rocks), largest).grains && rocks == Pour2(old(rocks), largest).rocks
    {
      var counter: nat := 0;
      while true
        invariant Valid(rocks, largest)
        invariant Pour2(old(rocks), largest).grains == Pour2(rocks, largest).grains + counter
        invariant Pour2(old(rocks), largest).rocks == Pour2(rocks, largest).rocks
        decreases |Free(rocks, largest)|
      {
        Pour2Step(rocks, largest);
        var l := Drop(source, true);
        if l.None? {
          assert false;
        }
        rocks := Place(rocks, l.value);
        counter := counter + 1;
        if l.value == source {
          return counter;
        }
      }
    }
  }

  /** `Cave::from_str`: parse the paths and build the columns, or fail with the parse
      error. */
  method FromStr(s: string) returns (r: Result<Cave>)
    ensures ParsePaths(s).Err? ==> r == Err(ParsePaths(s).msg)
    ensures ParsePaths(s).Ok? ==>
      var ps := AllPushes(ParsePaths(s).value);
      && r.Ok? && fresh(r.value) && r.value.source == SOURCE
      && r.value.rocks == Columns(ps) && r.value.largest == Deepest(ps) + 2
  {
    var paths := ParsePaths(s);
    if paths.Err? {
      return Err(paths.msg);
    }
    var cols, largest := BuildColumns(paths.value);
    var cave := new Cave(cols, largest);
    return Ok(cave);
  }

  /** The answer of part 1 for the rock points `ps`. */
  function Answer1(ps: seq<Point>): Option<nat>
    requires Deepest(ps) < 498
  {
    ColumnsValid(ps);
    Pour1(Columns(ps), Deepest(ps) + 2).grains
  }

  /** The answer of part 2 for the rock points `ps`. */
  function Answer2(ps: seq<Point>): nat
    requires Deepest(ps) < 498
  {
    ColumnsValid(ps);
    Pour2(Columns(ps), Deepest(ps) + 2).grains
  }

  /** The answers of a cave built from the rock points `ps`. */
  lemma AnswersOf(ps: seq<Point>, rocks: seq<seq<int>>, largest: int)
    requires Deepest(ps) < 498 && rocks == Columns(ps) && largest == Deepest(ps) + 2
    ensures Valid(rocks, largest)
    ensures Answer1(ps) == Pour1(rocks, largest).grains && Answer2(ps) == Pour2(rocks, largest).grains
  {
    ColumnsValid(ps);
  }

  /** `part_1`: the sand that comes to rest before it starts flowing into the abyss
      (None where the source never returns). */
  method Part1(input: string) returns (r: Option<nat>)
    requires ParsePaths(input).Ok? && Deepest(AllPushes(ParsePaths(input).value)) < 498
    ensures r == Answer1(AllPushes(ParsePaths(input).value))
  {
    var cave := FromStr(input);
    ghost var ps := AllPushes(ParsePaths(input).value);
    AnswersOf(ps, cave.value.rocks, cave.value.largest);
    r := cave.value.SimulatePart1();
  }

  /** `part_2`: the sand that comes to rest on the floor until the source is blocked. */
  method Part2(input: string) returns (r: nat)
    requires ParsePaths(input).Ok? && Deepest(AllPushes(ParsePaths(input).value)) < 498
    ensures r == Answer2(AllPushes(ParsePaths(input).value))
  {
    var cave := FromStr(input);
    ghost var ps := AllPushes(ParsePaths(input).value);
    AnswersOf(ps, cave.value.rocks, cave.value.largest);
    r := cave.value.SimulatePart2();
  }
}
