/** Day 4: camp cleanup. Each line holds two section ranges "a-b,c-d"; part 1 counts
    the pairs where one range contains the other, part 2 the pairs that overlap. */
module Day4 {
  import opened Wrappers
  import opened Text

  /** The numbers of one elf's "a-b": the pieces of `split("-")` that parse as `u32`. */
  function ElfNumbers(s: string): (r: seq<int>)
    ensures forall k :: 0 <= k < |r| ==> r[k] >= 0
  {
    ParsedNats(SplitOn(s, "-"), U32_MAX)
  }

  /** A line the parts accept: a ',' (`split_once(",").unwrap()`), and at least two
      numbers on each side (`elf[0]`, `elf[1]`). */
  predicate LineOk(line: string)
  {
    SplitOnce(line, ",").Some?
    && |ElfNumbers(SplitOnce(line, ",").value.0)| >= 2
    && |ElfNumbers(SplitOnce(line, ",").value.1)| >= 2
  }

  /** A pair of ranges, each as its first two numbers: start and end. */
  datatype Pair = Pair(elf1: seq<int>, elf2: seq<int>)

  predicate PairOk(p: Pair)
  {
    |p.elf1| >= 2 && |p.elf2| >= 2
  }

  function LinePair(line: string): (p: Pair)
    requires LineOk(line)
    ensures PairOk(p)
  {
    var (a, b) := SplitOnce(line, ",").value;
    Pair(ElfNumbers(a), ElfNumbers(b))
  }

  function Pairs(lines: seq<string>): (ps: seq<Pair>)
    requires forall k :: 0 <= k < |lines| ==> LineOk(lines[k])
    ensures |ps| == |lines|
    ensures forall k :: 0 <= k < |ps| ==> PairOk(ps[k]) && ps[k] == LinePair(lines[k])
  {
    seq(|lines|, k requires 0 <= k < |lines| => LinePair(lines[k]))
  }

  /** The filter of part 1. */
  predicate Contains(p: Pair)
    requires PairOk(p)
  {
    var (e1, e2) := (p.elf1, p.elf2);
    (e1[0] <= e2[0] && e1[1] >= e2[1]) || (e2[0] <= e1[0] && e2[1] >= e1[1])
  }

  /** The filter of part 2: order the two ranges by start, then the later one must start
      no later than the earlier one ends. */
  predicate Overlaps(p: Pair)
    requires PairOk(p)
  {
    var (e1, e2) := if p.elf2[0] < p.elf1[0] then (p.elf2, p.elf1) else (p.elf1, p.elf2);
    e2[0] <= e1[1]
  }

  function Swap(p: Pair): Pair
  {
    Pair(p.elf2, p.elf1)
  }

  /** A range with its start no greater than its end. */
  predicate WellFormed(p: Pair)
  {
    PairOk(p) && p.elf1[0] <= p.elf1[1] && p.elf2[0] <= p.elf2[1]
  }

  predicate InRange(e: seq<int>, x: int)
    requires |e| >= 2
  {
    e[0] <= x <= e[1]
  }

  /** Containment does not depend on which elf is named first. */
  lemma ContainsSymmetric(p: Pair)
    requires PairOk(p)
    ensures Contains(p) == Contains(Swap(p))
  {
  }

  /** For well-formed ranges, part 1's test holds exactly when every section of one range
      is a section of the other. */
  lemma ContainsMeans(p: Pair)
    requires WellFormed(p)
    ensures Contains(p) <==>
      (forall x :: InRange(p.elf2, x) ==> InRange(p.elf1, x)) || (forall x :: InRange(p.elf1, x) ==> InRange(p.elf2, x))
  {
    if (forall x :: InRange(p.elf2, x) ==> InRange(p.elf1, x)) {
      assert InRange(p.elf2, p.elf2[0]) && InRange(p.elf2, p.elf2[1]);
    }
    if (forall x :: InRange(p.elf1, x) ==> InRange(p.elf2, x)) {
      assert InRange(p.elf1, p.elf1[0]) && InRange(p.elf1, p.elf1[1]);
    }
  }

  /** For well-formed ranges, part 2's test holds exactly when the ranges share a
      section. */
  lemma OverlapsMeans(p: Pair)
    requires WellFormed(p)
    ensures Overlaps(p) <==> exists x :: InRange(p.elf1, x) && InRange(p.elf2, x)
  {
    if Overlaps(p) {
      var x := if p.elf1[0] < p.elf2[0] then p.elf2[0] else p.elf1[0];
      assert InRange(p.elf1, x) && InRange(p.elf2, x);
    }
  }

  /** For well-formed ranges, the overlap test does not depend on the order of the
      elves. */
  lemma OverlapsSymmetric(p: Pair)
    requires WellFormed(p)
    ensures Overlaps(p) == Overlaps(Swap(p))
  {
    OverlapsMeans(p);
    OverlapsMeans(Swap(p));
  }

  /** For well-formed ranges, every pair that part 1 counts is counted by part 2. */
  lemma ContainsImpliesOverlaps(p: Pair)
    requires WellFormed(p)
    requires Contains(p)
    ensures Overlaps(p)
  {
    ContainsMeans(p);
    OverlapsMeans(p);
    if forall x :: InRange(p.elf2, x) ==> InRange(p.elf1, x) {
      assert InRange(p.elf2, p.elf2[0]);
    } else {
      assert InRange(p.elf1, p.elf1[0]);
    }
  }

  function CountContained(ps: seq<Pair>): (r: nat)
    requires forall k :: 0 <= k < |ps| ==> PairOk(ps[k])
    ensures r <= |ps|
  {
    if ps == [] then 0
    else CountContained(ps[..|ps| - 1]) + (if Contains(ps[|ps| - 1]) then 1 else 0)
  }

  function CountOverlapping(ps: seq<Pair>): (r: nat)
    requires forall k :: 0 <= k < |ps| ==> PairOk(ps[k])
    ensures r <= |ps|
  {
    if ps == [] then 0
    else CountOverlapping(ps[..|ps| - 1]) + (if Overlaps(ps[|ps| - 1]) then 1 else 0)
  }

  /** With well-formed ranges, part 2's count is at least part 1's. */
  lemma {:induction false} ContainedAtMostOverlapping(ps: seq<Pair>)
    requires forall k :: 0 <= k < |ps| ==> PairOk(ps[k]) && WellFormed(ps[k])
    ensures CountContained(ps) <= CountOverlapping(ps)
    decreases |ps|
  {
    if ps != [] {
      var n := |ps| - 1;
      ContainedAtMostOverlapping(ps[..n]);
      if Contains(ps[n]) {
        ContainsImpliesOverlaps(ps[n]);
      }
    }
  }

  /** Part 1 never counts more than part 2 when every range is well formed. */
  lemma ContainedMostOverlappingIf(ps: seq<Pair>)
    requires forall k :: 0 <= k < |ps| ==> PairOk(ps[k])
    ensures (forall k :: 0 <= k < |ps| ==> WellFormed(ps[k])) ==> CountContained(ps) <= CountOverlapping(ps)
  {
    if forall k :: 0 <= k < |ps| ==> WellFormed(ps[k]) {
      ContainedAtMostOverlapping(ps);
    }
  }

  /** `part_1`. A line without ',' or with fewer than two numbers on a side panics. */
  function Part1(input: string): (r: nat)
    requires forall k :: 0 <= k < |Lines(input)| ==> LineOk(Lines(input)[k])
    ensures r <= |Lines(input)|
    ensures (forall k :: 0 <= k < |Lines(input)| ==> WellFormed(LinePair(Lines(input)[k]))) ==> r <= Part2(input)
  {
    ContainedMostOverlappingIf(Pairs(Lines(input)));
    CountContained(Pairs(Lines(input)))
  }

  /** `part_2`. */
  function Part2(input: string): (r: nat)
    requires forall k :: 0 <= k < |Lines(input)| ==> LineOk(Lines(input)[k])
    ensures r <= |Lines(input)|
  {
    CountOverlapping(Pairs(Lines(input)))
  }

  /** The sample's six pairs: two are contained, four overlap. */
  lemma SampleCounts(ps: seq<Pair>)
    requires ps == [Pair([2, 4], [6, 8]), Pair([2, 3], [4, 5]), Pair([5, 7], [7, 9]),
                    Pair([2, 8], [3, 7]), Pair([6, 6], [4, 6]), Pair([2, 6], [4, 8])]
    ensures CountContained(ps) == 2
    ensures CountOverlapping(ps) == 4
  {
    assert ps[..1][..0] == [];
    assert CountContained(ps[..1]) == 0 && CountOverlapping(ps[..1]) == 0;
    assert ps[..2][..1] == ps[..1];
    assert CountContained(ps[..2]) == 0 && CountOverlapping(ps[..2]) == 0;
    assert ps[..3][..2] == ps[..2];
    assert CountContained(ps[..3]) == 0 && CountOverlapping(ps[..3]) == 1;
    assert ps[..4][..3] == ps[..3];
    assert CountContained(ps[..4]) == 1 && CountOverlapping(ps[..4]) == 2;
    assert ps[..5][..4] == ps[..4];
    assert CountContained(ps[..5]) == 2 && CountOverlapping(ps[..5]) == 3;
    assert ps[..6][..5] == ps[..5];
    assert ps[..6] == ps;
  }

  // ---------------------------------------------------------------- assignment lists

  /** One elf's sections, from `lo` to `hi`. */
  datatype Sections = Sections(lo: nat, hi: nat)

  /** The text "lo-hi" of an elf's sections. */
  function FormatSections(e: Sections): (t: string)
    ensures ',' !in t && '\n' !in t && |t| > 0 && t[|t| - 1] != '\r'
  {
    NatToStringNoChar(e.lo, ',');
    NatToStringNoChar(e.hi, ',');
    NatToStringNoChar(e.lo, '\n');
    NatToStringNoChar(e.hi, '\n');
    var d := NatToString(e.hi);
    assert IsDigit(d[|d| - 1]);
    NatToString(e.lo) + "-" + d
  }

  /** The line "a-b,c-d" of a pair of elves. */
  function FormatLine(e1: Sections, e2: Sections): (line: string)
    ensures '\n' !in line && StripCR(line) == line && line != ""
  {
    FormatSections(e1) + "," + FormatSections(e2)
  }

  function AsRange(e: Sections): seq<int>
  {
    [e.lo, e.hi]
  }

  predicate Fits(e: Sections)
  {
    e.lo <= U32_MAX && e.hi <= U32_MAX
  }

  /** The numbers of "lo-hi" are `lo` and `hi` when both fit in a `u32`. */
  lemma SectionsParse(e: Sections)
    requires Fits(e)
    ensures ElfNumbers(FormatSections(e)) == AsRange(e)
  {
    var a, b := NatToString(e.lo), NatToString(e.hi);
    NatToStringNoChar(e.lo, '-');
    NatToStringNoChar(e.hi, '-');
    SplitOnCons(a, '-', b);
    SplitOnAbsent(b, '-');
    var pieces := [a, b];
    assert SplitOn(FormatSections(e), "-") == pieces;
    ParseNatToString(e.lo, U32_MAX);
    ParseNatToString(e.hi, U32_MAX);
    assert pieces[..0] == [];
    ParsedNatsTake(pieces, 0, U32_MAX, [], e.lo);
    ParsedNatsTake(pieces, 1, U32_MAX, [e.lo], e.hi);
    assert pieces[..2] == pieces;
  }

  /** The formatted line of two elves is accepted and reads back as their ranges. */
  lemma LineParses(e1: Sections, e2: Sections)
    requires Fits(e1) && Fits(e2)
    ensures LineOk(FormatLine(e1, e2))
    ensures LinePair(FormatLine(e1, e2)) == Pair(AsRange(e1), AsRange(e2))
  {
    SplitOnceChar(FormatSections(e1), ',', FormatSections(e2));
    SectionsParse(e1);
    SectionsParse(e2);
  }

  function FormatLines(es: seq<(Sections, Sections)>): (ls: seq<string>)
    ensures |ls| == |es|
    ensures forall k :: 0 <= k < |ls| ==> ls[k] == FormatLine(es[k].0, es[k].1)
  {
    seq(|es|, k requires 0 <= k < |es| => FormatLine(es[k].0, es[k].1))
  }

  function PairsOf(es: seq<(Sections, Sections)>): (ps: seq<Pair>)
    ensures |ps| == |es|
    ensures forall k :: 0 <= k < |ps| ==> ps[k] == Pair(AsRange(es[k].0), AsRange(es[k].1))
  {
    seq(|es|, k requires 0 <= k < |es| => Pair(AsRange(es[k].0), AsRange(es[k].1)))
  }

  /** A list of assignments written one pair per line is counted by both parts exactly
      as its pairs are. */
  lemma PartsOfList(es: seq<(Sections, Sections)>)
    requires |es| >= 1
    requires forall k :: 0 <= k < |es| ==> Fits(es[k].0) && Fits(es[k].1)
    ensures var input := Join(FormatLines(es), "\n");
      (forall k :: 0 <= k < |Lines(input)| ==> LineOk(Lines(input)[k]))
      && Part1(input) == CountContained(PairsOf(es))
      && Part2(input) == CountOverlapping(PairsOf(es))
  {
    var ls, ps := FormatLines(es), PairsOf(es);
    forall k | 0 <= k < |ls| ensures LineOk(ls[k]) && LinePair(ls[k]) == ps[k] {
      LineParses(es[k].0, es[k].1);
    }
    PairsOfLines(ls, ps);
    LinesJoin(ls);
  }

  function DigitValue(c: char): int
  {
    c as int - '0' as int
  }

  lemma ParseDigit(c: char)
    requires IsDigit(c)
    ensures ParseNat([c], U32_MAX) == Some(DigitValue(c))
  {
    assert AllDigits([c]) && [c][..0] == [];
    assert DigitsValue([c]) == DigitsValue([]) * 10 + (c - '0') as nat;
  }

  /** A range "a-b" of two single digits reads as those digits. */
  lemma DigitRange(t: string)
    requires |t| == 3 && IsDigit(t[0]) && t[1] == '-' && IsDigit(t[2])
    ensures ElfNumbers(t) == [DigitValue(t[0]), DigitValue(t[2])]
  {
    assert t == [t[0]] + ['-'] + [t[2]];
    SplitOnCons([t[0]], '-', [t[2]]);
    SplitOnAbsent([t[2]], '-');
    var pieces := [[t[0]], [t[2]]];
    assert SplitOn(t, "-") == pieces;
    assert pieces[..0] == [] && pieces[..2] == pieces;
    ParseDigit(t[0]);
    ParseDigit(t[2]);
    ParsedNatsTake(pieces, 0, U32_MAX, [], DigitValue(t[0]));
    ParsedNatsTake(pieces, 1, U32_MAX, [DigitValue(t[0])], DigitValue(t[2]));
  }

  /** A line "a-b,c-d" of single digits is accepted and reads as those ranges. */
  lemma DigitLine(line: string)
    requires |line| == 7 && line[3] == ','
    requires IsDigit(line[0]) && line[1] == '-' && IsDigit(line[2])
    requires IsDigit(line[4]) && line[5] == '-' && IsDigit(line[6])
    ensures LineOk(line) && Plain(line)
    ensures LinePair(line) == Pair([DigitValue(line[0]), DigitValue(line[2])], [DigitValue(line[4]), DigitValue(line[6])])
  {
    assert line == line[..3] + [','] + line[4..];
    forall i | 0 <= i < |line| ensures line[i] != '\n' {
      assert i in {0, 2, 4, 6} || i in {1, 5} || i == 3;
    }
    assert StripCR(line) == line by { assert IsDigit(line[|line| - 1]); }
    SplitOnceChar(line[..3], ',', line[4..]);
    DigitRange(line[..3]);
    DigitRange(line[4..]);
  }

  /** A line with no newline in it and no carriage return at its end. */
  predicate Plain(line: string)
  {
    '\n' !in line && StripCR(line) == line
  }

  /** Six lines with the facts below, one line at a time, have them all. */
  lemma SixLines(ls: seq<string>, ps: seq<Pair>)
    requires |ls| == 6 && |ps| == 6
    requires LineOk(ls[0]) && LineOk(ls[1]) && LineOk(ls[2]) && LineOk(ls[3]) && LineOk(ls[4]) && LineOk(ls[5])
    requires LinePair(ls[0]) == ps[0] && LinePair(ls[1]) == ps[1] && LinePair(ls[2]) == ps[2]
    requires LinePair(ls[3]) == ps[3] && LinePair(ls[4]) == ps[4] && LinePair(ls[5]) == ps[5]
    requires Plain(ls[0]) && Plain(ls[1]) && Plain(ls[2]) && Plain(ls[3]) && Plain(ls[4]) && Plain(ls[5])
    ensures forall k :: 0 <= k < |ls| ==> LineOk(ls[k]) && LinePair(ls[k]) == ps[k] && Plain(ls[k])
  {
    forall k | 0 <= k < |ls| ensures LineOk(ls[k]) && LinePair(ls[k]) == ps[k] && Plain(ls[k]) {
      if k < 3 {
        assert k == 0 || k == 1 || k == 2;
      } else {
        assert k == 3 || k == 4 || k == 5;
      }
    }
  }

  /** Lines that each read as the pair at the same place read as those pairs. */
  lemma PairsOfLines(ls: seq<string>, ps: seq<Pair>)
    requires |ls| == |ps|
    requires forall k :: 0 <= k < |ls| ==> LineOk(ls[k]) && LinePair(ls[k]) == ps[k]
    ensures Pairs(ls) == ps
  {
    var qs := Pairs(ls);
    assert forall k :: 0 <= k < |qs| ==> qs[k] == ps[k];
  }

  /** The sample's lines read as its six pairs. */
  lemma SampleParsed(ls: seq<string>, ps: seq<Pair>)
    requires ls == ["2-4,6-8", "2-3,4-5", "5-7,7-9", "2-8,3-7", "6-6,4-6", "2-6,4-8"]
    requires ps == [Pair([2, 4], [6, 8]), Pair([2, 3], [4, 5]), Pair([5, 7], [7, 9]),
                    Pair([2, 8], [3, 7]), Pair([6, 6], [4, 6]), Pair([2, 6], [4, 8])]
    ensures forall k :: 0 <= k < |ls| ==> LineOk(ls[k]) && '\n' !in ls[k] && StripCR(ls[k]) == ls[k]
    ensures Pairs(ls) == ps
  {
    DigitLine(ls[0]); DigitLine(ls[1]); DigitLine(ls[2]);
    DigitLine(ls[3]); DigitLine(ls[4]); DigitLine(ls[5]);
    SixLines(ls, ps);
    PairsOfLines(ls, ps);
  }

  /** The sample text is its six lines joined by newlines. */
  lemma SampleJoin(input: string)
    requires input == "2-4,6-8" + "\n" + "2-3,4-5" + "\n" + "5-7,7-9" + "\n" + "2-8,3-7" + "\n" + "6-6,4-6" + "\n" + "2-6,4-8"
    ensures Join(["2-4,6-8", "2-3,4-5", "5-7,7-9", "2-8,3-7", "6-6,4-6", "2-6,4-8"], "\n") == input
  {
    var ls := ["2-4,6-8", "2-3,4-5", "5-7,7-9", "2-8,3-7", "6-6,4-6", "2-6,4-8"];
    JoinSnoc(ls[..1], ls[1], "\n");
    JoinSnoc(ls[..2], ls[2], "\n");
    JoinSnoc(ls[..3], ls[3], "\n");
    JoinSnoc(ls[..4], ls[4], "\n");
    JoinSnoc(ls[..5], ls[5], "\n");
    assert ls[..1] + [ls[1]] == ls[..2] && ls[..2] + [ls[2]] == ls[..3] && ls[..3] + [ls[3]] == ls[..4];
    assert ls[..4] + [ls[4]] == ls[..5] && ls[..5] + [ls[5]] == ls;
  }

  /** The sample text, one pair per line: two pairs are contained, four overlap. */
  lemma Sample(input: string)
    requires input == "2-4,6-8" + "\n" + "2-3,4-5" + "\n" + "5-7,7-9" + "\n" + "2-8,3-7" + "\n" + "6-6,4-6" + "\n" + "2-6,4-8"
    ensures forall k :: 0 <= k < |Lines(input)| ==> LineOk(Lines(input)[k])
    ensures Part1(input) == 2 && Part2(input) == 4
  {
    var ls := ["2-4,6-8", "2-3,4-5", "5-7,7-9", "2-8,3-7", "6-6,4-6", "2-6,4-8"];
    SampleJoin(input);
    var ps := [Pair([2, 4], [6, 8]), Pair([2, 3], [4, 5]), Pair([5, 7], [7, 9]),
               Pair([2, 8], [3, 7]), Pair([6, 6], [4, 6]), Pair([2, 6], [4, 8])];
    SampleParsed(ls, ps);
    LinesJoin(ls);
    SampleCounts(ps);
  }
}
