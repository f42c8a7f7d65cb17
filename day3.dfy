/** Day 3: rucksack priorities. Items are ASCII letters; an item's priority is 1..26 for
    'a'..'z' and 27..52 for 'A'..'Z'. The text is handled byte by byte in the source,
    so the model takes ASCII text, where bytes and chars coincide. */
module Day3 {
  import opened Text
  import opened Chunk

  /** The bytes `calculate` accepts without a `u8` underflow: above 'Z' it subtracts 'a',
      otherwise 'A'. */
  predicate ValidItem(c: char)
  {
    c as int < 128 && (if c > 'Z' then c >= 'a' else c >= 'A')
  }

  predicate IsLower(c: char) { 'a' <= c <= 'z' }
  predicate IsUpper(c: char) { 'A' <= c <= 'Z' }

  /** `calculate`: the priority of an item. */
  function Priority(item: char): (r: int)
    requires ValidItem(item)
    ensures r >= 1
    ensures IsLower(item) ==> r <= 26
    ensures IsUpper(item) ==> 27 <= r <= 52
  {
    if item > 'Z' then item as int - 'a' as int + 1 else item as int - 'A' as int + 27
  }

  /** The letter with a given priority. */
  function LetterOf(p: int): (c: char)
    requires 1 <= p <= 52
    ensures IsLower(c) || IsUpper(c)
  {
    if p <= 26 then ('a' as int + p - 1) as char else ('A' as int + p - 27) as char
  }

  /** Priorities and letters are inverse: `calculate` is a bijection from the 52 letters
      onto 1..52. */
  lemma PriorityLetterOf(c: char, p: int)
    requires IsLower(c) || IsUpper(c)
    requires 1 <= p <= 52
    ensures ValidItem(c) && LetterOf(Priority(c)) == c
    ensures ValidItem(LetterOf(p)) && Priority(LetterOf(p)) == p
  {
  }

  /** Two letters with the same priority are the same letter. */
  lemma PriorityInjective(a: char, b: char)
    requires IsLower(a) || IsUpper(a)
    requires IsLower(b) || IsUpper(b)
    requires Priority(a) == Priority(b)
    ensures a == b
  {
    PriorityLetterOf(a, 1);
    PriorityLetterOf(b, 1);
  }

  /** The distinct items of a text (`collect::<HashSet<u8>>()`). */
  function Items(s: string): set<char>
  {
    set c | c in s
  }

  predicate AllValid(s: set<char>)
  {
    forall c :: c in s ==> ValidItem(c)
  }

  /** The sum of the priorities of the items of `s` among the first `n` byte values. A
      set's sum does not depend on the order its items are visited in, so visiting byte
      values in increasing order gives what the hash set's order gives. */
  function PrioritySumBelow(s: set<char>, n: nat): (r: int)
    requires n <= 128 && AllValid(s)
    ensures r >= 0
    ensures r == 0 <==> forall c :: c in s ==> n <= c as int
  {
    if n == 0 then 0
    else
      var r0 := PrioritySumBelow(s, n - 1);
      if (n - 1) as char in s then r0 + Priority((n - 1) as char)
      else
        assert forall c :: c in s && c as int == n - 1 ==> c == (n - 1) as char;
        r0
  }

  /** The sum of the priorities of a set of ASCII items: nothing exactly when the set is
      empty. */
  function PrioritySum(s: set<char>): (r: int)
    requires AllValid(s)
    ensures r >= 0
    ensures r == 0 <==> s == {}
  {
    PrioritySumBelow(s, 128)
  }

  lemma {:induction false} PrioritySumBelowEmpty(n: nat)
    requires n <= 128
    ensures PrioritySumBelow({}, n) == 0
  {
    if n > 0 { PrioritySumBelowEmpty(n - 1); }
  }

  lemma {:induction false} PrioritySumBelowSingleton(c: char, n: nat)
    requires n <= 128 && ValidItem(c)
    ensures PrioritySumBelow({c}, n) == if c as int < n then Priority(c) else 0
  {
    if n > 0 { PrioritySumBelowSingleton(c, n - 1); }
  }

  /** No common item contributes nothing, and a single common item contributes its own
      priority. */
  lemma PrioritySumOfFew(c: char)
    requires ValidItem(c)
    ensures PrioritySum({}) == 0
    ensures PrioritySum({c}) == Priority(c)
  {
    PrioritySumBelowEmpty(128);
    PrioritySumBelowSingleton(c, 128);
  }

  // ---------------------------------------------------------------- part 1

  /** The items found in both halves of a rucksack; `split_at(len / 2)`. */
  function Common(bag: string): (r: set<char>)
    ensures r <= Items(bag)
    ensures |bag| < 2 ==> r == {}
  {
    Items(bag[..|bag| / 2]) * Items(bag[|bag| / 2..])
  }

  /** A rucksack's items are in both compartments exactly when they occur before and
      after the midpoint. */
  lemma CommonMeans(bag: string, c: char)
    ensures c in Common(bag) <==>
      (exists i :: 0 <= i < |bag| / 2 && bag[i] == c) && (exists j :: |bag| / 2 <= j < |bag| && bag[j] == c)
  {
    var h := |bag| / 2;
    if c in Common(bag) {
      var i :| 0 <= i < h && bag[..h][i] == c;
      var j :| 0 <= j < |bag| - h && bag[h..][j] == c;
      assert bag[h + j] == c;
    }
    if (exists i :: 0 <= i < h && bag[i] == c) && (exists j :: h <= j < |bag| && bag[j] == c) {
      var i :| 0 <= i < h && bag[i] == c;
      var j :| h <= j < |bag| && bag[j] == c;
      assert bag[..h][i] == c;
      assert bag[h..][j - h] == c;
    }
  }

  /** Every line is ASCII (the source splits each line at its middle byte) and every item
      shared by a line's halves is one `calculate` accepts. */
  predicate Part1Ok(lines: seq<string>)
  {
    forall k :: 0 <= k < |lines| ==> Ascii(lines[k]) && AllValid(Common(lines[k]))
  }

  function Part1Lines(lines: seq<string>): (r: int)
    requires Part1Ok(lines)
    ensures r >= 0
    ensures r == 0 <==> forall k :: 0 <= k < |lines| ==> Common(lines[k]) == {}
  {
    if lines == [] then 0
    else Part1Lines(lines[..|lines| - 1]) + PrioritySum(Common(lines[|lines| - 1]))
  }

  /** `part_1`: for every line, the priorities of the distinct items in both halves. An
      item shared by the halves that is not a valid item makes `calculate` underflow. */
  function Part1(input: string): (r: int)
    requires Part1Ok(Lines(input))
    ensures r >= 0
    ensures r == 0 <==> forall k :: 0 <= k < |Lines(input)| ==> Common(Lines(input)[k]) == {}
  {
    Part1Lines(Lines(input))
  }

  /** When every line shares exactly one item between its halves, part 1 is the sum of
      those items' priorities. */
  lemma {:induction false} Part1OneShared(lines: seq<string>, shared: seq<char>)
    requires |shared| == |lines|
    requires forall k :: 0 <= k < |lines| ==>
      Ascii(lines[k]) && ValidItem(shared[k]) && Common(lines[k]) == {shared[k]}
    ensures Part1Ok(lines)
    ensures Part1Lines(lines) == SumPriorities(shared)
    decreases |lines|
  {
    if lines != [] {
      var n := |lines| - 1;
      Part1OneShared(lines[..n], shared[..n]);
      PrioritySumOfFew(shared[n]);
    }
  }

  function SumPriorities(cs: seq<char>): int
    requires forall k :: 0 <= k < |cs| ==> ValidItem(cs[k])
  {
    if cs == [] then 0 else SumPriorities(cs[..|cs| - 1]) + Priority(cs[|cs| - 1])
  }

  // ---------------------------------------------------------------- part 2

  /** The items of the first elf of a group that the other two also carry. */
  function Badge(g: seq<string>): set<char>
    requires |g| == 3
  {
    set c | c in Items(g[0]) && c in Items(g[1]) && c in Items(g[2])
  }

  lemma BadgeMeans(g: seq<string>, c: char)
    requires |g| == 3
    ensures c in Badge(g) <==> c in g[0] && c in g[1] && c in g[2]
  {
  }

  predicate GroupAscii(g: seq<string>)
  {
    forall k :: 0 <= k < |g| ==> Ascii(g[k])
  }

  /** Every group has three ASCII lines and every item common to them is one `calculate`
      accepts. */
  predicate Part2Ok(groups: seq<seq<string>>)
  {
    forall k :: 0 <= k < |groups| ==> |groups[k]| == 3 && GroupAscii(groups[k]) && AllValid(Badge(groups[k]))
  }

  function Part2Groups(groups: seq<seq<string>>): (r: int)
    requires Part2Ok(groups)
    ensures r >= 0
    ensures r == 0 <==> forall k :: 0 <= k < |groups| ==> Badge(groups[k]) == {}
  {
    if groups == [] then 0
    else Part2Groups(groups[..|groups| - 1]) + PrioritySum(Badge(groups[|groups| - 1]))
  }

  /** `part_2`: the lines in consecutive threes (a trailing group of one or two lines is
      dropped by the chunk iterator), and for each group the priorities of the items common
      to all three. */
  function Part2(input: string): (r: int)
    requires Part2Ok(Chunks(Lines(input), 3))
    ensures r >= 0
    ensures r == 0 <==> forall k :: 0 <= k < |Lines(input)| / 3 ==> Badge(Lines(input)[3 * k..3 * k + 3]) == {}
  {
    ChunksAt(Lines(input), 3);
    Part2Groups(Chunks(Lines(input), 3))
  }

  /** Part 2 looks at exactly the first 3 * floor(n / 3) lines. */
  lemma Part2Groups3(input: string)
    ensures |Chunks(Lines(input), 3)| == |Lines(input)| / 3
    ensures Concat(Chunks(Lines(input), 3)) == Lines(input)[..3 * (|Lines(input)| / 3)]
  {
    ChunksCover(Lines(input), 3);
  }

  /** When every group has exactly one badge, part 2 is the sum of those badges'
      priorities. */
  lemma {:induction false} Part2OneBadge(groups: seq<seq<string>>, badges: seq<char>)
    requires |badges| == |groups|
    requires forall k :: 0 <= k < |groups| ==>
      |groups[k]| == 3 && GroupAscii(groups[k]) && ValidItem(badges[k]) && Badge(groups[k]) == {badges[k]}
    ensures Part2Ok(groups)
    ensures Part2Groups(groups) == SumPriorities(badges)
    decreases |groups|
  {
    if groups != [] {
      var n := |groups| - 1;
      Part2OneBadge(groups[..n], badges[..n]);
      PrioritySumOfFew(badges[n]);
    }
  }

  /** The sample's shared items are p, L, P, v, t, s and its badges are r and Z. */
  lemma SamplePriorities()
    ensures SumPriorities(['p', 'L', 'P', 'v', 't', 's']) == 157
    ensures SumPriorities(['r', 'Z']) == 70
  {
    var s := ['p', 'L', 'P', 'v', 't', 's'];
    assert SumPriorities(s[..1]) == 16 by { assert s[..1][..0] == []; }
    assert SumPriorities(s[..2]) == 54 by { assert s[..2][..1] == s[..1]; }
    assert SumPriorities(s[..3]) == 96 by { assert s[..3][..2] == s[..2]; }
    assert SumPriorities(s[..4]) == 118 by { assert s[..4][..3] == s[..3]; }
    assert SumPriorities(s[..5]) == 138 by { assert s[..5][..4] == s[..4]; }
    assert s[..6] == s;
    assert s[..5] == s[..|s| - 1];
    assert ['r', 'Z'][..1][..0] == [];
  }

  // ---------------------------------------------------------------- the sample text

  /** Text made of letters only. */
  predicate Letters(s: string)
  {
    forall c :: c in s ==> IsLower(c) || IsUpper(c)
  }

  /** A line the text can hold as it is: no '\n', no final '\r', not empty. */
  predicate Plain(line: string)
  {
    |line| > 0 && '\n' !in line && StripCR(line) == line
  }

  /** An ASCII line whose halves share exactly the item `c`. */
  predicate SharesOne(line: string, c: char)
  {
    Ascii(line) && ValidItem(c) && Common(line) == {c}
  }

  /** A line written as its two halves, sharing the one item `c`. */
  lemma HalvesLine(a: string, b: string, c: char)
    requires |a| == |b| > 0 && Letters(a) && Letters(b)
    requires Items(a) * Items(b) == {c}
    ensures Plain(a + b) && SharesOne(a + b, c)
  {
    var s := a + b;
    assert s[|s| - 1] in b;
    forall i | 0 <= i < |s| ensures s[i] as int < 128 {
      assert s[i] in a || s[i] in b;
    }
    assert c in Items(a);
    assert s[..|a|] == a && s[|a|..] == b;
  }

  /** The items of two texts written one after the other. */
  lemma ItemsConcat(a: string, b: string)
    ensures Items(a + b) == Items(a) + Items(b)
  {
  }

  lemma SampleLetters1()
    ensures Letters("vJrwpWtwJgWr") && Letters("hcsFMMfFFhFp")
  {
  }

  lemma SampleShared1()
    ensures Items("vJrwpWtwJgWr") * Items("hcsFMMfFFhFp") == {'p'}
  {
  }

  lemma SampleLetters2()
    ensures Letters("jqHRNqRjqzjGDLGL") && Letters("rsFMfFZSrLrFZsSL")
  {
  }

  lemma SampleShared2()
    ensures Items("jqHRNqRjqzjGDLGL") * Items("rsFMfFZSrLrFZsSL") == {'L'}
  {
  }

  lemma SampleLetters3()
    ensures Letters("PmmdzqPrV") && Letters("vPwwTWBwg")
  {
  }

  lemma SampleShared3()
    ensures Items("PmmdzqPrV") * Items("vPwwTWBwg") == {'P'}
  {
  }

  lemma SampleLetters4()
    ensures Letters("wMqvLMZHhHMvwLH") && Letters("jbvcjnnSBnvTQFn")
  {
  }

  lemma SampleShared4()
    ensures Items("wMqvLMZHhHMvwLH") * Items("jbvcjnnSBnvTQFn") == {'v'}
  {
  }

  lemma SampleLetters5()
    ensures Letters("ttgJtRGJ") && Letters("QctTZtZT")
  {
  }

  lemma SampleShared5()
    ensures Items("ttgJtRGJ") * Items("QctTZtZT") == {'t'}
  {
  }

  lemma SampleLetters6()
    ensures Letters("CrZsJsPPZsGz") && Letters("wwsLwLmpwMDw")
  {
  }

  lemma SampleShared6()
    ensures Items("CrZsJsPPZsGz") * Items("wwsLwLmpwMDw") == {'s'}
  {
  }

  lemma SampleGroup1Part1()
    ensures Items("vJrwpWtwJgWr") * Items("jqHRNqRjqzjGDLGL") == {}
  {
  }

  lemma SampleGroup1Part2()
    ensures Items("vJrwpWtwJgWr") * Items("rsFMfFZSrLrFZsSL") == {'r'}
  {
  }

  lemma SampleGroup1Part3()
    ensures Items("hcsFMMfFFhFp") * Items("jqHRNqRjqzjGDLGL") == {}
  {
  }

  lemma SampleGroup1Part4()
    ensures Items("hcsFMMfFFhFp") * Items("rsFMfFZSrLrFZsSL") == {'F', 'M', 'f', 's'}
  {
  }

  /** A group's badge from the items its first two elves share. */
  lemma BadgeOf3(a: string, b: string, c: string, both: set<char>, x: char)
    requires Items(a) * Items(b) == both && both * Items(c) == {x}
    ensures IsLower(x) || IsUpper(x) ==> ValidItem(x)
    ensures Badge([a, b, c]) == {x}
  {
    assert x in both;
  }

  /** Two texts written as halves share what their halves share. */
  lemma SharedOfHalves(a0: string, b0: string, a1: string, b1: string, s: set<char>)
    requires s == Items(a0) * Items(a1) + Items(a0) * Items(b1) + Items(b0) * Items(a1) + Items(b0) * Items(b1)
    ensures Items(a0 + b0) * Items(a1 + b1) == s
  {
    ItemsConcat(a0, b0);
    ItemsConcat(a1, b1);
  }

  lemma SampleThird1()
    ensures {'F', 'M', 'f', 'r', 's'} * Items("PmmdzqPrV" + "vPwwTWBwg") == {'r'}
  {
  }

  /** The items the first two elves of group 1 share, and the one of those the third
      also carries. */
  lemma SampleGroup1()
    ensures Items("vJrwpWtwJgWr" + "hcsFMMfFFhFp") * Items("jqHRNqRjqzjGDLGL" + "rsFMfFZSrLrFZsSL") == {'F', 'M', 'f', 'r', 's'}
    ensures {'F', 'M', 'f', 'r', 's'} * Items("PmmdzqPrV" + "vPwwTWBwg") == {'r'}
  {
    SampleGroup1Part1();
    SampleGroup1Part2();
    SampleGroup1Part3();
    SampleGroup1Part4();
    SharedOfHalves("vJrwpWtwJgWr", "hcsFMMfFFhFp", "jqHRNqRjqzjGDLGL", "rsFMfFZSrLrFZsSL", {'F', 'M', 'f', 'r', 's'});
    SampleThird1();
  }

  lemma SampleThird2()
    ensures {'Q', 'T', 'Z', 'c'} * Items("CrZsJsPPZsGz" + "wwsLwLmpwMDw") == {'Z'}
  {
  }

  /** The items the first two elves of group 2 share, and the one of those the third
      also carries. */
  lemma SampleGroup2()
    ensures Items("wMqvLMZHhHMvwLH" + "jbvcjnnSBnvTQFn") * Items("ttgJtRGJ" + "QctTZtZT") == {'Q', 'T', 'Z', 'c'}
    ensures {'Q', 'T', 'Z', 'c'} * Items("CrZsJsPPZsGz" + "wwsLwLmpwMDw") == {'Z'}
  {
    SampleGroup2Part1();
    SampleGroup2Part2();
    SampleGroup2Part3();
    SampleGroup2Part4();
    SharedOfHalves("wMqvLMZHhHMvwLH", "jbvcjnnSBnvTQFn", "ttgJtRGJ", "QctTZtZT", {'Q', 'T', 'Z', 'c'});
    SampleThird2();
  }

  lemma SampleGroup2Part1()
    ensures Items("wMqvLMZHhHMvwLH") * Items("ttgJtRGJ") == {}
  {
  }

  lemma SampleGroup2Part2()
    ensures Items("wMqvLMZHhHMvwLH") * Items("QctTZtZT") == {'Z'}
  {
  }

  lemma SampleGroup2Part3()
    ensures Items("jbvcjnnSBnvTQFn") * Items("ttgJtRGJ") == {}
  {
  }

  lemma SampleGroup2Part4()
    ensures Items("jbvcjnnSBnvTQFn") * Items("QctTZtZT") == {'Q', 'T', 'c'}
  {
  }


  /** Six plain lines written one after the other are read back as those lines. */
  lemma SixLines(input: string, l0: string, l1: string, l2: string, l3: string, l4: string, l5: string)
    requires Plain(l0) && Plain(l1) && Plain(l2) && Plain(l3) && Plain(l4) && Plain(l5)
    requires input == l0 + "\n" + l1 + "\n" + l2 + "\n" + l3 + "\n" + l4 + "\n" + l5
    ensures Lines(input) == [l0, l1, l2, l3, l4, l5]
  {
    var ls := [l0, l1, l2, l3, l4, l5];
    JoinSnoc(ls[..1], l1, "\n");
    JoinSnoc(ls[..2], l2, "\n");
    JoinSnoc(ls[..3], l3, "\n");
    JoinSnoc(ls[..4], l4, "\n");
    JoinSnoc(ls[..5], l5, "\n");
    assert ls[..1] + [l1] == ls[..2] && ls[..2] + [l2] == ls[..3] && ls[..3] + [l3] == ls[..4];
    assert ls[..4] + [l4] == ls[..5] && ls[..5] + [l5] == ls;
    forall k | 0 <= k < 6 ensures '\n' !in ls[k] && StripCR(ls[k]) == ls[k] {
      assert Plain(ls[k]) by {
        if k == 0 {} else if k == 1 {} else if k == 2 {} else if k == 3 {} else if k == 4 {} else {}
      }
    }
    LinesJoin(ls);
  }

  /** Six lines, each sharing one item between its halves: part 1 is the sum of those
      items' priorities. */
  lemma SixLinesPart1(l0: string, l1: string, l2: string, l3: string, l4: string, l5: string,
                      c0: char, c1: char, c2: char, c3: char, c4: char, c5: char)
    requires SharesOne(l0, c0) && SharesOne(l1, c1) && SharesOne(l2, c2)
    requires SharesOne(l3, c3) && SharesOne(l4, c4) && SharesOne(l5, c5)
    ensures Part1Ok([l0, l1, l2, l3, l4, l5])
    ensures ValidItem(c0) && ValidItem(c1) && ValidItem(c2) && ValidItem(c3) && ValidItem(c4) && ValidItem(c5)
    ensures Part1Lines([l0, l1, l2, l3, l4, l5]) == SumPriorities([c0, c1, c2, c3, c4, c5])
  {
    var ls, shared := [l0, l1, l2, l3, l4, l5], [c0, c1, c2, c3, c4, c5];
    forall k | 0 <= k < 6 ensures Ascii(ls[k]) && ValidItem(shared[k]) && Common(ls[k]) == {shared[k]} {
      assert SharesOne(ls[k], shared[k]) by {
        if k == 0 {} else if k == 1 {} else if k == 2 {} else if k == 3 {} else if k == 4 {} else {}
      }
    }
    Part1OneShared(ls, shared);
  }

  /** Three ASCII lines with one badge. */
  lemma OneBadgeGroup(a: string, b: string, c: string, x: char)
    requires Ascii(a) && Ascii(b) && Ascii(c) && ValidItem(x) && Badge([a, b, c]) == {x}
    ensures GroupAscii([a, b, c])
  {
    var g := [a, b, c];
    forall k | 0 <= k < 3 ensures Ascii(g[k]) {
      if k == 0 {} else if k == 1 {} else {}
    }
  }

  /** Six lines in two groups, each with one badge: part 2 is the sum of the badges'
      priorities. */
  lemma SixLinesPart2(l0: string, l1: string, l2: string, l3: string, l4: string, l5: string, b0: char, b1: char)
    requires Ascii(l0) && Ascii(l1) && Ascii(l2) && Ascii(l3) && Ascii(l4) && Ascii(l5)
    requires ValidItem(b0) && Badge([l0, l1, l2]) == {b0}
    requires ValidItem(b1) && Badge([l3, l4, l5]) == {b1}
    ensures Part2Ok(Chunks([l0, l1, l2, l3, l4, l5], 3))
    ensures Part2Groups(Chunks([l0, l1, l2, l3, l4, l5], 3)) == SumPriorities([b0, b1])
  {
    var gs := [[l0, l1, l2], [l3, l4, l5]];
    var bs := [b0, b1];
    SixInThrees([l0, l1, l2, l3, l4, l5]);
    OneBadgeGroup(l0, l1, l2, b0);
    OneBadgeGroup(l3, l4, l5, b1);
    forall k | 0 <= k < 2
      ensures |gs[k]| == 3 && GroupAscii(gs[k]) && ValidItem(bs[k]) && Badge(gs[k]) == {bs[k]}
    {
      if k == 0 {} else {}
    }
    Part2OneBadge(gs, bs);
  }

  /** The sample text: the items shared by the halves are p, L, P, v, t, s (part 1 is
      157) and the badges are r and Z (part 2 is 70). */
  lemma Sample(input: string)
    requires input == ("vJrwpWtwJgWr" + "hcsFMMfFFhFp") + "\n" + ("jqHRNqRjqzjGDLGL" + "rsFMfFZSrLrFZsSL") + "\n"
      + ("PmmdzqPrV" + "vPwwTWBwg") + "\n" + ("wMqvLMZHhHMvwLH" + "jbvcjnnSBnvTQFn") + "\n"
      + ("ttgJtRGJ" + "QctTZtZT") + "\n" + ("CrZsJsPPZsGz" + "wwsLwLmpwMDw")
    ensures Part1Ok(Lines(input)) && Part2Ok(Chunks(Lines(input), 3))
    ensures Part1(input) == 157 && Part2(input) == 70
  {
    SampleHalves();
    SampleBadges();
    SixLines(input, "vJrwpWtwJgWr" + "hcsFMMfFFhFp", "jqHRNqRjqzjGDLGL" + "rsFMfFZSrLrFZsSL", "PmmdzqPrV" + "vPwwTWBwg", "wMqvLMZHhHMvwLH" + "jbvcjnnSBnvTQFn", "ttgJtRGJ" + "QctTZtZT", "CrZsJsPPZsGz" + "wwsLwLmpwMDw");
    SixLinesPart1("vJrwpWtwJgWr" + "hcsFMMfFFhFp", "jqHRNqRjqzjGDLGL" + "rsFMfFZSrLrFZsSL", "PmmdzqPrV" + "vPwwTWBwg", "wMqvLMZHhHMvwLH" + "jbvcjnnSBnvTQFn", "ttgJtRGJ" + "QctTZtZT", "CrZsJsPPZsGz" + "wwsLwLmpwMDw", 'p', 'L', 'P', 'v', 't', 's');
    SixLinesPart2("vJrwpWtwJgWr" + "hcsFMMfFFhFp", "jqHRNqRjqzjGDLGL" + "rsFMfFZSrLrFZsSL", "PmmdzqPrV" + "vPwwTWBwg", "wMqvLMZHhHMvwLH" + "jbvcjnnSBnvTQFn", "ttgJtRGJ" + "QctTZtZT", "CrZsJsPPZsGz" + "wwsLwLmpwMDw", 'r', 'Z');
    SamplePriorities();
  }

  /** Each sample line is plain text whose halves share one item. */
  lemma SampleHalves()
    ensures Plain("vJrwpWtwJgWr" + "hcsFMMfFFhFp") && SharesOne("vJrwpWtwJgWr" + "hcsFMMfFFhFp", 'p')
    ensures Plain("jqHRNqRjqzjGDLGL" + "rsFMfFZSrLrFZsSL") && SharesOne("jqHRNqRjqzjGDLGL" + "rsFMfFZSrLrFZsSL", 'L')
    ensures Plain("PmmdzqPrV" + "vPwwTWBwg") && SharesOne("PmmdzqPrV" + "vPwwTWBwg", 'P')
    ensures Plain("wMqvLMZHhHMvwLH" + "jbvcjnnSBnvTQFn") && SharesOne("wMqvLMZHhHMvwLH" + "jbvcjnnSBnvTQFn", 'v')
    ensures Plain("ttgJtRGJ" + "QctTZtZT") && SharesOne("ttgJtRGJ" + "QctTZtZT", 't')
    ensures Plain("CrZsJsPPZsGz" + "wwsLwLmpwMDw") && SharesOne("CrZsJsPPZsGz" + "wwsLwLmpwMDw", 's')
  {
    SampleLetters1(); SampleShared1(); HalvesLine("vJrwpWtwJgWr", "hcsFMMfFFhFp", 'p');
    SampleLetters2(); SampleShared2(); HalvesLine("jqHRNqRjqzjGDLGL", "rsFMfFZSrLrFZsSL", 'L');
    SampleLetters3(); SampleShared3(); HalvesLine("PmmdzqPrV", "vPwwTWBwg", 'P');
    SampleLetters4(); SampleShared4(); HalvesLine("wMqvLMZHhHMvwLH", "jbvcjnnSBnvTQFn", 'v');
    SampleLetters5(); SampleShared5(); HalvesLine("ttgJtRGJ", "QctTZtZT", 't');
    SampleLetters6(); SampleShared6(); HalvesLine("CrZsJsPPZsGz", "wwsLwLmpwMDw", 's');
  }

  /** The sample's two groups have the badges r and Z. */
  lemma SampleBadges()
    ensures ValidItem('r') && Badge(["vJrwpWtwJgWr" + "hcsFMMfFFhFp", "jqHRNqRjqzjGDLGL" + "rsFMfFZSrLrFZsSL", "PmmdzqPrV" + "vPwwTWBwg"]) == {'r'}
    ensures ValidItem('Z') && Badge(["wMqvLMZHhHMvwLH" + "jbvcjnnSBnvTQFn", "ttgJtRGJ" + "QctTZtZT", "CrZsJsPPZsGz" + "wwsLwLmpwMDw"]) == {'Z'}
  {
    SampleGroup1();
    BadgeOf3("vJrwpWtwJgWr" + "hcsFMMfFFhFp", "jqHRNqRjqzjGDLGL" + "rsFMfFZSrLrFZsSL", "PmmdzqPrV" + "vPwwTWBwg", {'F', 'M', 'f', 'r', 's'}, 'r');
    SampleGroup2();
    BadgeOf3("wMqvLMZHhHMvwLH" + "jbvcjnnSBnvTQFn", "ttgJtRGJ" + "QctTZtZT", "CrZsJsPPZsGz" + "wwsLwLmpwMDw", {'Q', 'T', 'Z', 'c'}, 'Z');
  }
}
