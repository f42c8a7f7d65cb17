/** Day 15: beacon exclusion zone. Each sensor covers the points no farther (in Manhattan
    distance) than its closest beacon; part 1 measures the covered span of one row and
    part 2 merges each row's covered intervals in search of a row with a hole. */
module Day15 {
  import opened Wrappers
  import opened Text

  type Point = (int, int)

  /** A sensor and the beacon closest to it. */
  datatype Sensor = Sensor(pos: Point, beacon: Point)

  function Abs(v: int): nat
  {
    if v < 0 then -v else v
  }

  function Min(a: int, b: int): int
  {
    if a <= b then a else b
  }

  function Max(a: int, b: int): int
  {
    if a >= b then a else b
  }

  /** Manhattan distance between two points. */
  function Manhattan(a: Point, b: Point): nat
  {
    Abs(a.0 - b.0) + Abs(a.1 - b.1)
  }

  /** `Sensor::distance`: how far the sensor reaches. */
  function Distance(s: Sensor): (d: nat)
    ensures d == 0 <==> s.pos == s.beacon
  {
    Manhattan(s.pos, s.beacon)
  }

  /** Manhattan distance is symmetric and obeys the triangle inequality. */
  lemma ManhattanMetric(a: Point, b: Point, c: Point)
    ensures Manhattan(a, b) == Manhattan(b, a)
    ensures Manhattan(a, c) <= Manhattan(a, b) + Manhattan(b, c)
  {
  }

  /** A `usize` from an `isize` with `as`: the value modulo 2^64. */
  function AsUsize(v: int): nat
  {
    v % 0x1_0000_0000_0000_0000
  }

  // ---------------------------------------------------------------- parsing

  /** One `:`-separated half: the number after `x=` and the one after `y=`. */
  function ParseCoord(p: string): (r: Result<Point>)
    ensures r.Ok? ==> I64_MIN <= r.value.0 <= I64_MAX && I64_MIN <= r.value.1 <= I64_MAX
  {
    match SplitOnce(p, ",")
    case None => Err("Invalid Str")
    case Some((x, y)) =>
      match SplitOnce(x, "x=")
      case None => Err("Can't find x")
      case Some((_, xs)) =>
        match SplitOnce(y, "y=")
        case None => Err("Can't find x")
        case Some((_, ys)) =>
          match ParseInt(xs, I64_MIN, I64_MAX)
          case None => Err("invalid digit found in string")
          case Some(xv) =>
            match ParseInt(ys, I64_MIN, I64_MAX)
            case None => Err("invalid digit found in string")
            case Some(yv) => Ok((xv, yv))
  }

  /** The coordinates of every `:`-separated half of a line. */
  function Coords(s: string): (r: Result<seq<Point>>)
    ensures r.Ok? ==> |r.value| == |SplitOn(s, ":")|
  {
    Collect(ParsedCoords(SplitOn(s, ":")))
  }

  /** The parse of every half. */
  function ParsedCoords(ps: seq<string>): (r: seq<Result<Point>>)
    ensures |r| == |ps| && forall k :: 0 <= k < |ps| ==> r[k] == ParseCoord(ps[k])
  {
    seq(|ps|, k requires 0 <= k < |ps| => ParseCoord(ps[k]))
  }

  /** A line whose halves all parse has at least two of them; otherwise `v[1]` panics. */
  predicate SensorParsable(s: string)
  {
    Coords(s).Ok? ==> |Coords(s).value| >= 2
  }

  /** `Sensor::from_str`: the first half gives the position, the second the beacon. */
  function ParseSensor(s: string): (r: Result<Sensor>)
    requires SensorParsable(s)
    ensures r.Ok? <==> Coords(s).Ok?
    ensures r.Ok? ==> r.value == Sensor(Coords(s).value[0], Coords(s).value[1])
  {
    var cs := Coords(s);
    if cs.Err? then Err(cs.msg) else Ok(Sensor(cs.value[0], cs.value[1]))
  }

  /** One half of a sensor line: `<prefix>x=<x>, y=<y>`. */
  function FormatCoord(prefix: string, c: Point): string
  {
    prefix + "x=" + IntToString(c.0) + ", y=" + IntToString(c.1)
  }

  /** A sensor line as the puzzle writes it. */
  function FormatSensor(s: Sensor): string
  {
    FormatCoord("Sensor at ", s.pos) + ":" + FormatCoord(" closest beacon is at ", s.beacon)
  }

  /** Printed numbers hold only a sign and digits. */
  lemma IntTextChars(v: int, c: char)
    requires c != '-' && !IsDigit(c)
    ensures c !in IntToString(v)
  {
    NatToStringNoChar(if v < 0 then -v else v, c);
  }

  /** A printed half parses back to its point. */
  lemma ParseFormatCoord(prefix: string, c: Point)
    requires ',' !in prefix && 'x' !in prefix && ':' !in prefix
    requires I64_MIN <= c.0 <= I64_MAX && I64_MIN <= c.1 <= I64_MAX
    ensures ParseCoord(FormatCoord(prefix, c)) == Ok(c)
  {
    var xt, yt := IntToString(c.0), IntToString(c.1);
    IntTextChars(c.0, ',');
    var head := prefix + "x=" + xt;
    var tail := " y=" + yt;
    assert FormatCoord(prefix, c) == head + [','] + tail;
    assert ',' !in head;
    SplitOnceChar(head, ',', tail);
    HeadSplit(prefix, xt);
    TailSplit(yt);
    ParseIntToString(c.0, I64_MIN, I64_MAX);
    ParseIntToString(c.1, I64_MIN, I64_MAX);
    ParseCoordOf(head + [','] + tail, head, tail, xt, yt, c);
  }

  /** `split_once("x=")` stops at the `x=` after a prefix without `x`. */
  lemma HeadSplit(prefix: string, xt: string)
    requires 'x' !in prefix
    ensures SplitOnce(prefix + "x=" + xt, "x=") == Some((prefix, xt))
  {
    forall i | 0 <= i < |prefix| ensures !OccursAt(prefix + "x=", "x=", i) {
      if i + 2 <= |prefix + "x="| {
        assert (prefix + "x=")[i..i + 2][0] == prefix[i];
      }
    }
    SplitOnceAfter(prefix, "x=", xt);
  }

  /** `split_once("y=")` on the second half stops after the blank. */
  lemma TailSplit(yt: string)
    ensures SplitOnce(" y=" + yt, "y=") == Some((" ", yt))
  {
    assert " y=" + yt == " " + "y=" + yt;
    assert !OccursAt(" " + "y=", "y=", 0) by {
      assert (" " + "y=")[0..2][0] == ' ';
    }
    SplitOnceAfter(" ", "y=", yt);
  }

  /** `parse_coord` on a text whose splits and numbers are known. */
  lemma ParseCoordOf(p: string, head: string, tail: string, xt: string, yt: string, c: Point)
    requires SplitOnce(p, ",") == Some((head, tail))
    requires SplitOnce(head, "x=").Some? && SplitOnce(head, "x=").value.1 == xt
    requires SplitOnce(tail, "y=").Some? && SplitOnce(tail, "y=").value.1 == yt
    requires ParseInt(xt, I64_MIN, I64_MAX) == Some(c.0) && ParseInt(yt, I64_MIN, I64_MAX) == Some(c.1)
    ensures ParseCoord(p) == Ok(c)
  {
  }

  /** A line made of two halves that each parse gives the two points. */
  lemma CoordsHalves(a: string, b: string, pa: Point, pb: Point)
    requires ':' !in a && ':' !in b
    requires ParseCoord(a) == Ok(pa) && ParseCoord(b) == Ok(pb)
    ensures Coords(a + ":" + b) == Ok([pa, pb])
  {
    SplitHalves(a, b);
    ParsedPair(a, b);
    CollectPair(pa, pb);
  }

  lemma SplitHalves(a: string, b: string)
    requires ':' !in a && ':' !in b
    ensures SplitOn(a + ":" + b, ":") == [a, b]
  {
    SplitOnCons(a, ':', b);
    SplitOnAbsent(b, ':');
  }

  lemma ParsedPair(a: string, b: string)
    ensures ParsedCoords([a, b]) == [ParseCoord(a), ParseCoord(b)]
  {
    var rs := ParsedCoords([a, b]);
    assert rs[0] == ParseCoord(a) && rs[1] == ParseCoord(b);
  }

  lemma CollectPair<T>(x: T, y: T)
    ensures Collect([Ok(x), Ok(y)]) == Ok([x, y])
  {
    var rs := [Ok(x), Ok(y)];
    assert rs[0].Ok? && rs[1].Ok?;
    var cs := Collect(rs);
    assert |cs.value| == 2 && cs.value[0] == x && cs.value[1] == y;
    assert cs.value == [x, y];
  }

  /** ... and so the sensor at the first point with its beacon at the second. */
  lemma ParseHalves(a: string, b: string, pa: Point, pb: Point)
    requires ':' !in a && ':' !in b
    requires ParseCoord(a) == Ok(pa) && ParseCoord(b) == Ok(pb)
    ensures SensorParsable(a + ":" + b) && ParseSensor(a + ":" + b) == Ok(Sensor(pa, pb))
  {
    CoordsHalves(a, b, pa, pb);
  }

  /** The two prefixes of a sensor line hold none of the separators. */
  lemma SensorPrefixPlain()
    ensures ',' !in "Sensor at " && 'x' !in "Sensor at " && ':' !in "Sensor at "
  {
  }

  lemma BeaconPrefixPlain()
    ensures ',' !in " closest beacon is at " && 'x' !in " closest beacon is at "
    ensures ':' !in " closest beacon is at "
  {
  }

  /** Printing a sensor and parsing the line back gives the sensor. */
  lemma ParseFormatSensor(s: Sensor)
    requires I64_MIN <= s.pos.0 <= I64_MAX && I64_MIN <= s.pos.1 <= I64_MAX
    requires I64_MIN <= s.beacon.0 <= I64_MAX && I64_MIN <= s.beacon.1 <= I64_MAX
    ensures SensorParsable(FormatSensor(s)) && ParseSensor(FormatSensor(s)) == Ok(s)
  {
    SensorPrefixPlain();
    BeaconPrefixPlain();
    CoordNoColon("Sensor at ", s.pos);
    CoordNoColon(" closest beacon is at ", s.beacon);
    ParseFormatCoord("Sensor at ", s.pos);
    ParseFormatCoord(" closest beacon is at ", s.beacon);
    ParseHalves(FormatCoord("Sensor at ", s.pos), FormatCoord(" closest beacon is at ", s.beacon),
                s.pos, s.beacon);
  }

  lemma CoordNoColon(prefix: string, c: Point)
    requires ':' !in prefix
    ensures ':' !in FormatCoord(prefix, c)
  {
    IntTextChars(c.0, ':');
    IntTextChars(c.1, ':');
  }

  /** Every line is a sensor line whose halves are not fewer than two. */
  predicate LinesParsable(ls: seq<string>)
  {
    forall k :: 0 <= k < |ls| ==> SensorParsable(ls[k])
  }

  /** The parse of every line. */
  function ParsedLines(ls: seq<string>): (r: seq<Result<Sensor>>)
    requires LinesParsable(ls)
    ensures |r| == |ls| && forall k :: 0 <= k < |ls| ==> r[k] == ParseSensor(ls[k])
  {
    seq(|ls|, k requires 0 <= k < |ls| => ParseSensor(ls[k]))
  }

  /** Every line parses; otherwise the `unwrap` panics. */
  predicate InputParsable(input: string)
  {
    LinesParsable(Lines(input)) && Collect(ParsedLines(Lines(input))).Ok?
  }

  /** The sensors, one per line. */
  function Sensors(input: string): seq<Sensor>
    requires InputParsable(input)
  {
    Collect(ParsedLines(Lines(input))).value
  }

  // ---------------------------------------------------------------- part 1

  /** How far the sensor reaches left and right of its column on row `y`; negative when
      the row is out of its reach. */
  function HalfWidth(s: Sensor, y: int): int
  {
    Distance(s) - Abs(s.pos.1 - y)
  }

  function LeftEnd(s: Sensor, y: int): int
  {
    s.pos.0 - HalfWidth(s, y)
  }

  function RightEnd(s: Sensor, y: int): int
  {
    s.pos.0 + HalfWidth(s, y)
  }

  /** A point of row `y` is within the sensor's reach exactly when it lies between the
      sensor's two ends on that row. */
  lemma ReachOnRow(s: Sensor, y: int, x: int)
    ensures Manhattan(s.pos, (x, y)) <= Distance(s) <==> LeftEnd(s, y) <= x <= RightEnd(s, y)
  {
  }

  /** `left_bound` after the given sensors: the least left end, starting from `isize::MAX`. */
  function LeftBound(ss: seq<Sensor>, y: int): int
  {
    if ss == [] then I64_MAX else Min(LeftEnd(ss[|ss| - 1], y), LeftBound(ss[..|ss| - 1], y))
  }

  /** `right_bound` after the given sensors: the greatest right end, starting from
      `isize::MIN`. */
  function RightBound(ss: seq<Sensor>, y: int): int
  {
    if ss == [] then I64_MIN else Max(RightEnd(ss[|ss| - 1], y), RightBound(ss[..|ss| - 1], y))
  }

  /** The bounds enclose every sensor's ends, and each is one of those ends (or the
      starting value). */
  lemma {:induction false} BoundsMeans(ss: seq<Sensor>, y: int)
    ensures forall k :: 0 <= k < |ss| ==> LeftBound(ss, y) <= LeftEnd(ss[k], y)
    ensures forall k :: 0 <= k < |ss| ==> RightEnd(ss[k], y) <= RightBound(ss, y)
    ensures LeftBound(ss, y) == I64_MAX || exists k :: 0 <= k < |ss| && LeftBound(ss, y) == LeftEnd(ss[k], y)
    ensures RightBound(ss, y) == I64_MIN || exists k :: 0 <= k < |ss| && RightBound(ss, y) == RightEnd(ss[k], y)
  {
    if ss != [] {
      var init := ss[..|ss| - 1];
      BoundsMeans(init, y);
      assert forall k :: 0 <= k < |init| ==> init[k] == ss[k];
    }
  }

  /** The distance between the leftmost and rightmost covered columns of row `y`, cast
      to `usize`. */
  function Width(ss: seq<Sensor>, y: int): nat
  {
    AsUsize(RightBound(ss, y) - LeftBound(ss, y))
  }

  /** `find_slice`: one pass over the sensors keeping the least left end and the greatest
      right end. */
  method FindSlice(sensors: seq<Sensor>, y: int) returns (r: nat)
    ensures r == Width(sensors, y)
  {
    var left, right := I64_MAX, I64_MIN;
    for k := 0 to |sensors|
      invariant left == LeftBound(sensors[..k], y) && right == RightBound(sensors[..k], y)
    {
      assert sensors[..k + 1][..k] == sensors[..k];
      var s := sensors[k];
      var centerDist := Distance(s) - Abs(s.pos.1 - y);
      var curLeft := s.pos.0 - centerDist;
      var curRight := s.pos.0 + centerDist;
      left := Min(curLeft, left);
      right := Max(curRight, right);
    }
    assert sensors[..|sensors|] == sensors;
    r := AsUsize(right - left);
  }

  /** The width is fixed by the least left end and the greatest right end. */
  lemma WidthFromExtremes(ss: seq<Sensor>, y: int, kl: nat, kr: nat)
    requires kl < |ss| && kr < |ss|
    requires forall k :: 0 <= k < |ss| ==> LeftEnd(ss[kl], y) <= LeftEnd(ss[k], y)
    requires forall k :: 0 <= k < |ss| ==> RightEnd(ss[k], y) <= RightEnd(ss[kr], y)
    requires LeftEnd(ss[kl], y) <= I64_MAX && I64_MIN <= RightEnd(ss[kr], y)
    ensures Width(ss, y) == AsUsize(RightEnd(ss[kr], y) - LeftEnd(ss[kl], y))
  {
    BoundsMeans(ss, y);
  }

  /** The sensors of the puzzle's example. */
  function SampleSensors(): seq<Sensor>
  {
    [Sensor((2, 18), (-2, 15)), Sensor((9, 16), (10, 16)), Sensor((13, 2), (15, 3)),
     Sensor((12, 14), (10, 16)), Sensor((10, 20), (10, 16)), Sensor((14, 17), (10, 16)),
     Sensor((8, 7), (2, 10)), Sensor((2, 0), (2, 10)), Sensor((0, 11), (2, 10)),
     Sensor((20, 14), (25, 17)), Sensor((17, 20), (21, 22)), Sensor((16, 7), (15, 3)),
     Sensor((14, 3), (15, 3)), Sensor((20, 1), (15, 3))]
  }

  /** Row 10 of the example spans 26 columns: from -2 (sensor at 0,11) to 24 (sensor at
      20,14). */
  lemma SampleWidth()
    ensures Width(SampleSensors(), 10) == 26
  {
    SampleLeftEnds();
    SampleRightEnds();
    WidthFromExtremes(SampleSensors(), 10, 8, 9);
  }

  lemma SampleLeftEnds()
    ensures LeftEnd(SampleSensors()[8], 10) == -2
    ensures forall k :: 0 <= k < |SampleSensors()| ==> -2 <= LeftEnd(SampleSensors()[k], 10)
  {
  }

  lemma SampleRightEnds()
    ensures RightEnd(SampleSensors()[9], 10) == 24
    ensures forall k :: 0 <= k < |SampleSensors()| ==> RightEnd(SampleSensors()[k], 10) <= 24
  {
  }

  /** `part_1`: `find_slice` on row 2000000. */
  method Part1(input: string) returns (r: nat)
    requires InputParsable(input)
    ensures r == Width(Sensors(input), 2000000)
  {
    r := FindSlice(Sensors(input), 2000000);
  }

  // ---------------------------------------------------------------- part 2

  /** A closed interval of columns. */
  type Interval = (int, int)

  predicate In(x: int, iv: Interval)
  {
    iv.0 <= x <= iv.1
  }

  /** Some interval of the row holds column `x`. */
  predicate Covers(row: seq<Interval>, x: int)
  {
    exists k :: 0 <= k < |row| && In(x, row[k])
  }

  /** The interval sensor `s` covers on row `y`, when the row is within its reach. */
  function Reach(s: Sensor, y: int): (r: Option<Interval>)
    ensures r.Some? ==> r.value.0 <= r.value.1
  {
    if Abs(s.pos.1 - y) > Distance(s) then None
    else
      var w := Abs(Distance(s) - Abs(s.pos.1 - y));
      Some((s.pos.0 - w, s.pos.0 + w))
  }

  /** The interval holds exactly the points of the row within the sensor's reach. */
  lemma ReachMeans(s: Sensor, y: int, x: int)
    ensures (Reach(s, y).Some? && In(x, Reach(s, y).value)) <==> Manhattan(s.pos, (x, y)) <= Distance(s)
  {
  }

  /** The four merge rules, tried in this order on a pair (`bounds[i]`, `bounds[j]`). */
  datatype Kind =
    | DropFirst    // the first lies inside the second
    | DropSecond   // the second lies inside the first
    | ExtendLeft   // the first overlaps the second's left end
    | ExtendRight  // the first overlaps the second's right end

  /** A merge to perform: its rule and the positions of the pair. */
  datatype Step = Step(kind: Kind, i: nat, j: nat)

  /** The rule that applies to the pair, if any. `slack` is how far apart two intervals
      may be and still be joined: the source uses 0 (they must share a column); 1 also
      joins intervals that touch, such as `[a, b]` and `[b + 1, c]`. */
  function Check(a: Interval, b: Interval, slack: nat): Option<Kind>
  {
    if a.0 >= b.0 && a.1 <= b.1 then Some(DropFirst)
    else if b.0 >= a.0 && b.1 <= a.1 then Some(DropSecond)
    else if a.0 <= b.0 && a.1 + slack >= b.0 then Some(ExtendLeft)
    else if a.1 >= b.1 && a.0 - slack <= b.1 then Some(ExtendRight)
    else None
  }

  /** The interval that replaces the pair. */
  function Combined(a: Interval, b: Interval, k: Kind): Interval
  {
    match k
    case DropFirst => b
    case DropSecond => a
    case ExtendLeft => (a.0, b.1)
    case ExtendRight => (b.0, a.1)
  }

  /** Each rule's replacement covers exactly the columns of the pair. */
  lemma CombinedCovers(a: Interval, b: Interval, x: int, slack: nat)
    requires slack <= 1
    requires Check(a, b, slack).Some?
    ensures In(x, Combined(a, b, Check(a, b, slack).value)) <==> In(x, a) || In(x, b)
  {
  }

  /** The first pair, in the order of the two nested `for` loops from (i, j), to which a
      rule applies. */
  function FindFrom(row: seq<Interval>, i: nat, j: nat, slack: nat): (r: Option<Step>)
    ensures r.Some? ==> (r.value.i < |row| && r.value.j < |row| && r.value.i != r.value.j
                         && Check(row[r.value.i], row[r.value.j], slack) == Some(r.value.kind))
    decreases |row| - i, |row| - j
  {
    if i >= |row| then None
    else if j >= |row| then FindFrom(row, i + 1, 0, slack)
    else if i == j then FindFrom(row, i, j + 1, slack)
    else match Check(row[i], row[j], slack)
      case Some(k) => Some(Step(k, i, j))
      case None => FindFrom(row, i, j + 1, slack)
  }

  /** No rule applies to any pair at or after (i, j) in loop order. */
  predicate NoRuleFrom(row: seq<Interval>, i: nat, j: nat, slack: nat)
  {
    forall a, b :: 0 <= a < |row| && 0 <= b < |row| && a != b && (a > i || (a == i && b >= j))
      ==> Check(row[a], row[b], slack).None?
  }

  lemma {:induction false} FindFromNone(row: seq<Interval>, i: nat, j: nat, slack: nat)
    requires FindFrom(row, i, j, slack).None?
    ensures NoRuleFrom(row, i, j, slack)
    decreases |row| - i, |row| - j
  {
    if i < |row| {
      if j >= |row| {
        FindFromNone(row, i + 1, 0, slack);
      } else {
        FindFromNone(row, i, j + 1, slack);
      }
    }
  }

  /** No rule applies to any pair of the row. */
  predicate Stable(row: seq<Interval>, slack: nat)
  {
    forall a, b :: 0 <= a < |row| && 0 <= b < |row| && a != b ==> Check(row[a], row[b], slack).None?
  }

  /** In a stable row any two intervals are disjoint, each ending before the other starts. */
  lemma StableDisjoint(row: seq<Interval>, a: nat, b: nat, slack: nat)
    requires Stable(row, slack) && a < |row| && b < |row| && a != b
    ensures row[a].1 + slack < row[b].0 || row[b].1 + slack < row[a].0
  {
    assert Check(row[a], row[b], slack).None? && Check(row[b], row[a], slack).None?;
  }

  /** Touching intervals `[lo, mid]` and `[mid + 1, hi]` are not merged by any rule of the
      source, and are joined when the slack is 1. */
  lemma TouchingStaySeparate(lo: int, mid: int, hi: int)
    requires lo <= mid < hi
    ensures Check((lo, mid), (mid + 1, hi), 0).None? && Check((mid + 1, hi), (lo, mid), 0).None?
    ensures Stable([(lo, mid), (mid + 1, hi)], 0)
    ensures Check((lo, mid), (mid + 1, hi), 1) == Some(ExtendLeft)
  {
  }

  function RemoveAt(row: seq<Interval>, k: nat): (r: seq<Interval>)
    requires k < |row|
    ensures |r| == |row| - 1
  {
    row[..k] + row[k + 1..]
  }

  /** The row after one merge step. */
  function Apply(row: seq<Interval>, st: Step): (r: seq<Interval>)
    requires st.i < |row| && st.j < |row| && st.i != st.j
    ensures |r| == |row| - 1
  {
    match st.kind
    case DropFirst => RemoveAt(row, st.i)
    case DropSecond => RemoveAt(row, st.j)
    case ExtendLeft => RemoveAt(row[st.j := (row[st.i].0, row[st.j].1)], st.i)
    case ExtendRight => RemoveAt(row[st.j := (row[st.j].0, row[st.i].1)], st.i)
  }

  /** Removing `i` after putting `c` at `j` keeps the covered columns when `c` covers
      exactly those of the pair. */
  lemma ReplacePair(row: seq<Interval>, i: nat, j: nat, c: Interval, x: int)
    requires i < |row| && j < |row| && i != j
    requires In(x, c) <==> In(x, row[i]) || In(x, row[j])
    ensures Covers(RemoveAt(row[j := c], i), x) <==> Covers(row, x)
  {
    var r := RemoveAt(row[j := c], i);
    assert forall m :: 0 <= m < i ==> r[m] == row[j := c][m];
    assert forall m :: i <= m < |r| ==> r[m] == row[j := c][m + 1];
    if Covers(row, x) {
      var k :| 0 <= k < |row| && In(x, row[k]);
      if k == i || k == j {
        if j < i { assert r[j] == c; } else { assert r[j - 1] == c; }
      } else if k < i {
        assert r[k] == row[k];
      } else {
        assert r[k - 1] == row[k];
      }
    }
    if Covers(r, x) {
      var m :| 0 <= m < |r| && In(x, r[m]);
      var src := if m < i then m else m + 1;
      assert r[m] == row[j := c][src];
      if src != j {
        assert In(x, row[src]);
      }
    }
  }

  /** A merge step keeps the set of covered columns. */
  lemma ApplyCovers(row: seq<Interval>, st: Step, x: int, slack: nat)
    requires slack <= 1
    requires st.i < |row| && st.j < |row| && st.i != st.j
    requires Check(row[st.i], row[st.j], slack) == Some(st.kind)
    ensures Covers(Apply(row, st), x) <==> Covers(row, x)
  {
    var a, b := row[st.i], row[st.j];
    CombinedCovers(a, b, x, slack);
    match st.kind
    case DropFirst =>
      assert row[st.j := b] == row;
      ReplacePair(row, st.i, st.j, b, x);
    case DropSecond =>
      assert row[st.i := a] == row;
      ReplacePair(row, st.j, st.i, a, x);
    case ExtendLeft =>
      ReplacePair(row, st.i, st.j, (a.0, b.1), x);
    case ExtendRight =>
      ReplacePair(row, st.i, st.j, (b.0, a.1), x);
  }

  /** The `'w_loop`: merge steps until at most one interval is left or no rule applies. */
  function Merged(row: seq<Interval>, slack: nat): seq<Interval>
    decreases |row|
  {
    if |row| <= 1 then row
    else match FindFrom(row, 0, 0, slack)
      case None => row
      case Some(st) => Merged(Apply(row, st), slack)
  }

  /** Merging keeps the covered columns, leaves a stable row and never adds intervals. */
  lemma {:induction false} MergedMeans(row: seq<Interval>, slack: nat)
    requires slack <= 1
    ensures forall x :: Covers(Merged(row, slack), x) <==> Covers(row, x)
    ensures Stable(Merged(row, slack), slack)
    ensures |Merged(row, slack)| <= |row|
    decreases |row|
  {
    if |row| > 1 {
      match FindFrom(row, 0, 0, slack)
      case None =>
        FindFromNone(row, 0, 0, slack);
      case Some(st) =>
        MergedMeans(Apply(row, st), slack);
        forall x ensures Covers(Apply(row, st), x) <==> Covers(row, x) {
          ApplyCovers(row, st, x, slack);
        }
    }
  }

  /** The two nested `for` loops: the first pair a rule applies to. */
  method FindMerge(row: seq<Interval>, slack: nat) returns (st: Option<Step>)
    ensures st == FindFrom(row, 0, 0, slack)
  {
    for i := 0 to |row|
      invariant FindFrom(row, i, 0, slack) == FindFrom(row, 0, 0, slack)
    {
      for j := 0 to |row|
        invariant FindFrom(row, i, j, slack) == FindFrom(row, 0, 0, slack)
      {
        if i != j {
          var k := Check(row[i], row[j], slack);
          if k.Some? {
            return Some(Step(k.value, i, j));
          }
        }
      }
    }
    return None;
  }

  /** The `'w_loop` on one row, editing it in place. */
  method MergeRow(row0: seq<Interval>, slack: nat) returns (row: seq<Interval>)
    ensures row == Merged(row0, slack)
  {
    row := row0;
    while |row| > 1
      invariant Merged(row, slack) == Merged(row0, slack)
      decreases |row|
    {
      var st := FindMerge(row, slack);
      if st.None? {
        break;
      }
      row := ApplyInPlace(row, st.value);
    }
  }

  /** One merge step as the loop body writes it: an index-based removal, preceded by
      widening the kept interval when one end is extended. */
  method ApplyInPlace(row0: seq<Interval>, st: Step) returns (row: seq<Interval>)
    requires st.i < |row0| && st.j < |row0| && st.i != st.j
    ensures row == Apply(row0, st)
  {
    var i, j := st.i, st.j;
    row := row0;
    match st.kind {
      case DropFirst =>
        row := row[..i] + row[i + 1..];
      case DropSecond =>
        row := row[..j] + row[j + 1..];
      case ExtendLeft =>
        row := row[j := (row[i].0, row[j].1)];
        row := row[..i] + row[i + 1..];
      case ExtendRight =>
        row := row[j := (row[j].0, row[i].1)];
        row := row[..i] + row[i + 1..];
    }
  }

  /** `bounds[y]` after the given sensors: each reaching sensor adds its interval and the
      row is merged again. */
  function RowOf(ss: seq<Sensor>, y: int, slack: nat): seq<Interval>
  {
    if ss == [] then []
    else
      var prev := RowOf(ss[..|ss| - 1], y, slack);
      match Reach(ss[|ss| - 1], y)
      case None => prev
      case Some(iv) => Merged(prev + [iv], slack)
  }

  /** Some sensor of `ss` reaches `(x, y)`. */
  predicate Reached(ss: seq<Sensor>, x: int, y: int)
  {
    exists k :: 0 <= k < |ss| && Manhattan(ss[k].pos, (x, y)) <= Distance(ss[k])
  }

  lemma ReachedSnoc(ss: seq<Sensor>, x: int, y: int)
    requires ss != []
    ensures var s := ss[|ss| - 1];
      Reached(ss, x, y) <==> Reached(ss[..|ss| - 1], x, y) || Manhattan(s.pos, (x, y)) <= Distance(s)
  {
    var init := ss[..|ss| - 1];
    if Reached(ss, x, y) {
      var k :| 0 <= k < |ss| && Manhattan(ss[k].pos, (x, y)) <= Distance(ss[k]);
      if k < |init| {
        assert init[k] == ss[k];
      }
    }
    if Reached(init, x, y) {
      var k :| 0 <= k < |init| && Manhattan(init[k].pos, (x, y)) <= Distance(init[k]);
      assert ss[k] == init[k];
    }
  }

  /** The row's intervals cover exactly the columns some sensor reaches, and no two of
      them overlap. */
  lemma {:induction false} RowOfMeans(ss: seq<Sensor>, y: int, slack: nat)
    requires slack <= 1
    ensures forall x :: Covers(RowOf(ss, y, slack), x) <==> Reached(ss, x, y)
    ensures Stable(RowOf(ss, y, slack), slack)
  {
    if ss != [] {
      var init := ss[..|ss| - 1];
      var s := ss[|ss| - 1];
      var prev := RowOf(init, y, slack);
      RowOfMeans(init, y, slack);
      forall x ensures Covers(RowOf(ss, y, slack), x) <==> Reached(ss, x, y) {
        ReachMeans(s, y, x);
        RowStep(ss, y, x, slack);
        ReachedSnoc(ss, x, y);
      }
      match Reach(s, y)
      case None =>
      case Some(iv) => MergedMeans(prev + [iv], slack);
    }
  }

  /** One sensor more: the row covers what it covered plus the new sensor's interval. */
  lemma RowStep(ss: seq<Sensor>, y: int, x: int, slack: nat)
    requires slack <= 1
    requires ss != []
    ensures var s := ss[|ss| - 1];
      Covers(RowOf(ss, y, slack), x)
      <==> Covers(RowOf(ss[..|ss| - 1], y, slack), x) || (Reach(s, y).Some? && In(x, Reach(s, y).value))
  {
    var prev := RowOf(ss[..|ss| - 1], y, slack);
    match Reach(ss[|ss| - 1], y)
    case None =>
    case Some(iv) =>
      MergedMeans(prev + [iv], slack);
      if Covers(prev, x) {
        var k :| 0 <= k < |prev| && In(x, prev[k]);
        assert (prev + [iv])[k] == prev[k];
      }
      if Covers(prev + [iv], x) {
        var k :| 0 <= k < |prev| + 1 && In(x, (prev + [iv])[k]);
        if k < |prev| {
          assert (prev + [iv])[k] == prev[k];
        }
      }
      assert (prev + [iv])[|prev|] == iv;
  }

  /** The answer `find_free` gives for row `y` left with the intervals `row`: the column
      after the first interval's right end (the smaller of the first two), encoded as
      `x * 4000000 + y`. */
  function Report(y: int, row: seq<Interval>): nat
    requires |row| > 1
  {
    AsUsize(y + (Min(row[0].1, row[1].1) + 1) * 4000000)
  }

  /** What `find_free` reports for the first row of `y .. maxC` left with more than one
      interval; 0 when there is none. */
  function FreeFrom(ss: seq<Sensor>, y: int, maxC: int, slack: nat): nat
    decreases maxC - y
  {
    if y >= maxC then 0
    else if |RowOf(ss, y, slack)| > 1 then Report(y, RowOf(ss, y, slack))
    else FreeFrom(ss, y + 1, maxC, slack)
  }

  /** A row with at most one interval passes the search on to the next row. */
  lemma FreeFromSkip(ss: seq<Sensor>, y: int, maxC: int, slack: nat)
    requires y < maxC && |RowOf(ss, y, slack)| <= 1
    ensures FreeFrom(ss, y, maxC, slack) == FreeFrom(ss, y + 1, maxC, slack)
  {
  }

  /** The answer comes from the first row with two or more intervals. */
  lemma FreeFromFirst(ss: seq<Sensor>, y: int, maxC: int, row: int, slack: nat)
    requires y <= row < maxC && |RowOf(ss, row, slack)| > 1
    requires forall r :: y <= r < row ==> |RowOf(ss, r, slack)| <= 1
    ensures FreeFrom(ss, y, maxC, slack) == Report(row, RowOf(ss, row, slack))
  {
    var z := row;
    while z > y
      invariant y <= z <= row
      invariant FreeFrom(ss, z, maxC, slack) == Report(row, RowOf(ss, row, slack))
    {
      FreeFromSkip(ss, z - 1, maxC, slack);
      z := z - 1;
    }
  }

  /** With at most one interval on every row, the answer is 0. */
  lemma {:induction false} FreeFromNone(ss: seq<Sensor>, y: int, maxC: int, slack: nat)
    requires forall r :: y <= r < maxC ==> |RowOf(ss, r, slack)| <= 1
    ensures FreeFrom(ss, y, maxC, slack) == 0
    decreases maxC - y
  {
    if y < maxC {
      FreeFromSkip(ss, y, maxC, slack);
      FreeFromNone(ss, y + 1, maxC, slack);
    }
  }

  /** `find_free`: rows `0 .. maxC`, each built sensor by sensor with a merge after every
      added interval. */
  method FindFree(sensors: seq<Sensor>, maxC: int, slack: nat) returns (r: nat)
    requires maxC >= 0
    ensures r == FreeFrom(sensors, 0, maxC, slack)
  {
    var y := 0;
    while y < maxC
      invariant 0 <= y <= maxC
      invariant FreeFrom(sensors, y, maxC, slack) == FreeFrom(sensors, 0, maxC, slack)
      decreases maxC - y
    {
      var row := BuildRow(sensors, y, slack);
      if |row| > 1 {
        return Report(y, row);
      }
      y := y + 1;
    }
    return 0;
  }

  /** One sensor more on row `y`. */
  lemma RowOfStep(ss: seq<Sensor>, k: nat, y: int, slack: nat)
    requires k < |ss|
    ensures RowOf(ss[..k + 1], y, slack) == match Reach(ss[k], y)
      case None => RowOf(ss[..k], y, slack)
      case Some(iv) => Merged(RowOf(ss[..k], y, slack) + [iv], slack)
  {
    assert ss[..k + 1][..k] == ss[..k];
  }

  /** The inner `for` loop over the sensors for row `y`. */
  method BuildRow(sensors: seq<Sensor>, y: int, slack: nat) returns (row: seq<Interval>)
    ensures row == RowOf(sensors, y, slack)
  {
    row := [];
    for k := 0 to |sensors|
      invariant row == RowOf(sensors[..k], y, slack)
    {
      RowOfStep(sensors, k, y, slack);
      var s := sensors[k];
      var trueDist := Distance(s);
      if Abs(s.pos.1 - y) > trueDist {
        assert Reach(s, y).None?;
        continue;
      }
      var centerDist := Abs(trueDist - Abs(s.pos.1 - y));
      var iv := (s.pos.0 - centerDist, s.pos.0 + centerDist);
      assert Reach(s, y) == Some(iv);
      row := MergeRow(row + [iv], slack);
    }
    assert sensors[..|sensors|] == sensors;
  }

  /** `part_2`: `find_free` over rows 0 to 3999999. */
  method Part2(input: string) returns (r: nat)
    requires InputParsable(input)
    ensures r == FreeFrom(Sensors(input), 0, 4000000, 1)
  {
    r := FindFree(Sensors(input), 4000000, 1);
  }

  /** Every interval runs left to right. */
  predicate Ordered(row: seq<Interval>)
  {
    forall k :: 0 <= k < |row| ==> row[k].0 <= row[k].1
  }

  lemma ApplyOrdered(row: seq<Interval>, st: Step, slack: nat)
    requires st.i < |row| && st.j < |row| && st.i != st.j
    requires Check(row[st.i], row[st.j], slack) == Some(st.kind)
    requires Ordered(row)
    ensures Ordered(Apply(row, st))
  {
    var a, b := row[st.i], row[st.j];
    var c := Combined(a, b, st.kind);
    assert c.0 <= c.1;
    var r := Apply(row, st);
    var w := if st.kind == DropSecond then row else row[st.j := c];
    var gone := if st.kind == DropSecond then st.j else st.i;
    assert r == RemoveAt(w, gone);
    assert Ordered(w);
    forall m | 0 <= m < |r| ensures r[m].0 <= r[m].1 {
      if m < gone { assert r[m] == w[m]; } else { assert r[m] == w[m + 1]; }
    }
  }

  lemma {:induction false} MergedOrdered(row: seq<Interval>, slack: nat)
    requires Ordered(row)
    ensures Ordered(Merged(row, slack))
    decreases |row|
  {
    if |row| > 1 {
      match FindFrom(row, 0, 0, slack)
      case None =>
      case Some(st) =>
        ApplyOrdered(row, st, slack);
        MergedOrdered(Apply(row, st), slack);
    }
  }

  lemma {:induction false} RowOfOrdered(ss: seq<Sensor>, y: int, slack: nat)
    ensures Ordered(RowOf(ss, y, slack))
  {
    if ss != [] {
      var prev := RowOf(ss[..|ss| - 1], y, slack);
      RowOfOrdered(ss[..|ss| - 1], y, slack);
      match Reach(ss[|ss| - 1], y)
      case None =>
      case Some(iv) =>
        assert Ordered(prev + [iv]) by {
          forall m | 0 <= m < |prev| + 1 ensures (prev + [iv])[m].0 <= (prev + [iv])[m].1 {
            if m < |prev| { assert (prev + [iv])[m] == prev[m]; }
          }
        }
        MergedOrdered(prev + [iv], slack);
    }
  }

  /** The column the answer encodes: one right of the smaller of the first two right
      ends. */
  function ReportedColumn(row: seq<Interval>): int
    requires |row| > 1
  {
    Min(row[0].1, row[1].1) + 1
  }

  /** With touching intervals joined, the column `find_free` reports on a row left with
      two or more intervals is out of every sensor's reach. */
  lemma ReportedColumnFree(ss: seq<Sensor>, y: int)
    requires |RowOf(ss, y, 1)| > 1
    ensures forall k :: 0 <= k < |ss| ==> Distance(ss[k]) < Manhattan(ss[k].pos, (ReportedColumn(RowOf(ss, y, 1)), y))
  {
    var row := RowOf(ss, y, 1);
    var e := ReportedColumn(row);
    RowOfMeans(ss, y, 1);
    RowOfOrdered(ss, y, 1);
    var a := if row[0].1 <= row[1].1 then 0 else 1;
    assert e == row[a].1 + 1;
    if Covers(row, e) {
      var m :| 0 <= m < |row| && In(e, row[m]);
      StableDisjoint(row, a, m, 1);
      assert false;
    }
  }

  /** As written (slack 0): two sensors whose row-0 intervals `[-1, 1]` and `[2, 4]` touch
      make `find_free` report column 2 of row 0, which the second sensor reaches. */
  lemma TouchingReportsCovered()
    ensures var ss := [Sensor((0, 0), (1, 0)), Sensor((3, 0), (4, 0))];
      && FreeFrom(ss, 0, 1, 0) == 2 * 4000000
      && |RowOf(ss, 0, 0)| > 1 && ReportedColumn(RowOf(ss, 0, 0)) == 2
      && Manhattan(ss[1].pos, (2, 0)) <= Distance(ss[1])
  {
    var ss := [Sensor((0, 0), (1, 0)), Sensor((3, 0), (4, 0))];
    assert Reach(ss[0], 0) == Some((-1, 1)) && Reach(ss[1], 0) == Some((2, 4));
    assert ss[..1][..0] == [] && ss[..1][0] == ss[0];
    assert RowOf(ss[..1], 0, 0) == [(-1, 1)];
    assert ss[..|ss| - 1] == ss[..1];
    var row := [(-1, 1), (2, 4)];
    assert [(-1, 1)] + [(2, 4)] == row;
    TouchingStaySeparate(-1, 1, 4);
    assert FindFrom(row, 0, 0, 0).None? by {
      assert FindFrom(row, 1, 1, 0) == FindFrom(row, 1, 2, 0) == FindFrom(row, 2, 0, 0);
    }
    assert RowOf(ss, 0, 0) == row;
  }
}
