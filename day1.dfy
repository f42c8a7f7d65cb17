/** Day 1: the calories carried by each elf, and the sum of the N largest totals.
    Elves are separated by a blank line; each line of an elf's group is a number. */
module Day1 {
  import opened Wrappers
  import opened Text
  import opened Sorting

  /** The calories of one elf: the sum of the lines of its group that parse. */
  function GroupValue(chunk: string): int
  {
    Sum(ParsedNats(Lines(chunk), U32_MAX))
  }

  /** The calories of every elf, in input order. */
  function GroupValues(input: string): (r: seq<int>)
    ensures |r| == |SplitOn(input, "\n\n")|
    ensures forall k :: 0 <= k < |r| ==> r[k] == GroupValue(SplitOn(input, "\n\n")[k])
  {
    var chunks := SplitOn(input, "\n\n");
    seq(|chunks|, k requires 0 <= k < |chunks| => GroupValue(chunks[k]))
  }

  /** A sum of parsed `u32` values is never negative. */
  lemma {:induction false} SumNonNegative(s: seq<int>)
    requires forall k :: 0 <= k < |s| ==> s[k] >= 0
    ensures Sum(s) >= 0
    decreases |s|
  {
    if s != [] {
      SumNonNegative(s[..|s| - 1]);
    }
  }

  lemma GroupValuesNonNegative(input: string)
    ensures forall k :: 0 <= k < |GroupValues(input)| ==> GroupValues(input)[k] >= 0
  {
    var chunks := SplitOn(input, "\n\n");
    forall k | 0 <= k < |chunks| ensures GroupValue(chunks[k]) >= 0 {
      SumNonNegative(ParsedNats(Lines(chunks[k]), U32_MAX));
    }
  }

  // ---------------------------------------------------------------- top N in place

  /** The effect on `maxes` of meeting the value `v`: `v` goes in front of the first
      entry it exceeds, the later entries move one place down and the last one drops
      out; when `v` exceeds no entry nothing changes. */
  function TopInsert(v: int, m: seq<int>): (r: seq<int>)
    ensures |r| == |m|
  {
    if m == [] then []
    else if v > m[0] then [v] + m[..|m| - 1]
    else [m[0]] + TopInsert(v, m[1..])
  }

  /** TopInsert at the first entry that `v` exceeds. */
  lemma {:induction false} TopInsertAt(v: int, m: seq<int>, i: nat)
    requires i < |m| && v > m[i]
    requires forall j :: 0 <= j < i ==> v <= m[j]
    ensures TopInsert(v, m) == m[..i] + [v] + m[i..|m| - 1]
  {
    if i > 0 {
      var t := m[1..];
      TopInsertAt(v, t, i - 1);
      assert TopInsert(v, m) == [m[0]] + (t[..i - 1] + [v] + t[i - 1..|t| - 1]);
      assert [m[0]] + t[..i - 1] == m[..i];
      var a, b := t[i - 1..|t| - 1], m[i..|m| - 1];
      forall j | 0 <= j < |a| ensures a[j] == b[j] {
        assert a[j] == t[i - 1 + j] == m[i + j];
      }
      assert a == b;
    } else {
      assert m[..0] + [v] + m[0..|m| - 1] == [v] + m[..|m| - 1];
    }
  }

  /** TopInsert of a value that exceeds no entry. */
  lemma {:induction false} TopInsertNone(v: int, m: seq<int>)
    requires forall j :: 0 <= j < |m| ==> v <= m[j]
    ensures TopInsert(v, m) == m
  {
    if m != [] {
      TopInsertNone(v, m[1..]);
      assert m == [m[0]] + m[1..];
    }
  }

  /** Meeting `v` with the first `n` entries of a descending list gives the first `n`
      entries of the list with `v` inserted in order. */
  lemma {:induction false} TopInsertPrefix(v: int, l: seq<int>, n: nat)
    requires n <= |l|
    ensures TopInsert(v, l[..n]) == InsertDesc(v, l)[..n]
    decreases n
  {
    if n > 0 {
      var m := l[..n];
      if v > l[0] {
        assert InsertDesc(v, l) == [v] + l;
        assert m[..|m| - 1] == l[..n - 1];
      } else {
        assert m[1..] == l[1..][..n - 1];
        TopInsertPrefix(v, l[1..], n - 1);
        assert l == [l[0]] + l[1..];
      }
    }
  }

  /** Sorting `vals` together with `n` zeros, when no value is negative, places the
      zeros after the values. */
  lemma PaddedSort(vals: seq<int>, n: nat)
    requires forall k :: 0 <= k < |vals| ==> vals[k] >= 0
    ensures SortDesc(Zeros(n) + vals) == SortDesc(vals) + Zeros(n)
  {
    var l := SortDesc(vals);
    var p := l + Zeros(n);
    SortDescSorted(vals);
    SortDescPerm(vals);
    assert multiset(p) == multiset(Zeros(n) + vals);
    assert NonIncreasing(p) by {
      assert forall k :: 0 <= k < |l| ==> l[k] >= 0 by {
        forall k | 0 <= k < |l| ensures l[k] >= 0 {
          assert l[k] in multiset(vals);
        }
      }
      forall i, j | 0 <= i < j < |p| ensures p[i] >= p[j] {
        if j < |l| {
          assert p[i] == l[i] && p[j] == l[j];
        } else if i < |l| {
          assert p[i] == l[i];
        }
      }
    }
    SortDescIs(Zeros(n) + vals, p);
  }

  /** `maxes[i..].rotate_right(1)`: the last entry of the tail moves to position `i`. */
  method RotateRight(a: array<int>, i: nat)
    requires i < a.Length
    modifies a
    ensures a[..] == old(a[..i]) + [old(a[a.Length - 1])] + old(a[i..a.Length - 1])
  {
    var last := a[a.Length - 1];
    var j := a.Length - 1;
    while j > i
      invariant i <= j <= a.Length - 1
      invariant a[..j + 1] == old(a[..j + 1])
      invariant a[j + 1..] == old(a[j..a.Length - 1])
    {
      a[j] := a[j - 1];
      j := j - 1;
    }
    a[i] := last;
  }

  /** `maxes[i..].rotate_right(1); maxes[i] = v;`: `v` enters at position `i` and the
      entries from `i` on move one place down, the last one dropping out. */
  method PlaceAt(a: array<int>, i: nat, v: int)
    requires i < a.Length
    modifies a
    ensures a[..] == old(a[..i]) + [v] + old(a[i..a.Length - 1])
  {
    ghost var before := a[..];
    RotateRight(a, i);
    ghost var rotated := a[..];
    a[i] := v;
    forall k | 0 <= k < a.Length
      ensures a[k] == (before[..i] + [v] + before[i..a.Length - 1])[k]
    {
      assert k != i ==> a[k] == rotated[k];
    }
  }

  /** The inner loop of `get_n_maxes` for one elf's total `current`. */
  method InsertTop(maxes: array<int>, current: int)
    modifies maxes
    ensures maxes[..] == TopInsert(current, old(maxes[..]))
  {
    var i := 0;
    while i < maxes.Length
      invariant 0 <= i <= maxes.Length
      invariant maxes[..] == old(maxes[..])
      invariant forall j :: 0 <= j < i ==> current <= maxes[j]
    {
      if current > maxes[i] {
        TopInsertAt(current, maxes[..], i);
        PlaceAt(maxes, i, current);
        return;
      }
      i := i + 1;
    }
    TopInsertNone(current, maxes[..]);
  }

  lemma SnocSlice(pad: seq<int>, vals: seq<int>, k: nat)
    requires k < |vals|
    ensures pad + vals[..k + 1] == (pad + vals[..k]) + [vals[k]]
  {
    assert vals[..k + 1] == vals[..k] + [vals[k]];
  }

  /** One elf of the outer loop of `get_n_maxes::<N>`. */
  lemma TopNStep(pad: seq<int>, vals: seq<int>, k: nat, n: nat)
    requires k < |vals| && n <= |pad|
    ensures TopInsert(vals[k], SortDesc(pad + vals[..k])[..n]) == SortDesc(pad + vals[..k + 1])[..n]
  {
    var before := pad + vals[..k];
    SnocSlice(pad, vals, k);
    TopInsertPrefix(vals[k], SortDesc(before), n);
    SortDescSnoc(before, vals[k]);
  }

  /** The loop of `get_n_maxes::<N>` over the elf totals `vals`: the `n` largest in
      descending order, zeros standing in for missing elves. */
  method TopN(vals: seq<int>, n: nat) returns (maxes: array<int>)
    ensures fresh(maxes)
    ensures maxes[..] == SortDesc(Zeros(n) + vals)[..n]
  {
    maxes := new int[n](_ => 0);
    assert maxes[..] == SortDesc(Zeros(n) + vals[..0])[..n] by {
      assert Zeros(n) + vals[..0] == Zeros(n);
      SortDescIs(Zeros(n), Zeros(n));
    }
    for k := 0 to |vals|
      invariant maxes[..] == SortDesc(Zeros(n) + vals[..k])[..n]
    {
      InsertTop(maxes, vals[k]);
      TopNStep(Zeros(n), vals, k, n);
    }
    assert vals[..|vals|] == vals;
  }

  /** Adding up an array front to back. */
  method SumArray(a: array<int>) returns (total: int)
    ensures total == Sum(a[..])
  {
    total := 0;
    for i := 0 to a.Length
      invariant total == Sum(a[..i])
    {
      assert a[..i + 1][..i] == a[..i];
      total := total + a[i];
    }
    assert a[..a.Length] == a[..];
  }

  /** `get_n_maxes::<N>`: the sum of the `n` largest elf totals, with zeros standing in
      for missing elves when there are fewer than `n`. */
  method GetNMaxes(input: string, n: nat) returns (total: int)
    ensures total == Sum((SortDesc(GroupValues(input)) + Zeros(n))[..n])
  {
    var vals := GroupValues(input);
    var maxes := TopN(vals, n);
    GroupValuesNonNegative(input);
    PaddedSort(vals, n);
    total := SumArray(maxes);
  }

  /** `get_slow_n_maxes`: sort the totals in descending order and add the first `n`;
      indexing `v[0..n]` panics when there are fewer than `n` elves. */
  function GetSlowNMaxes(input: string, n: nat): int
    requires n <= |GroupValues(input)|
  {
    Sum(SortDesc(GroupValues(input))[..n])
  }

  /** With at least `n` elves, the in-place top-N and the sort-based version agree. */
  lemma FastMatchesSlow(input: string, n: nat)
    requires n <= |GroupValues(input)|
    ensures (SortDesc(GroupValues(input)) + Zeros(n))[..n] == SortDesc(GroupValues(input))[..n]
    ensures Sum((SortDesc(GroupValues(input)) + Zeros(n))[..n]) == GetSlowNMaxes(input, n)
  {
  }

  // ---------------------------------------------------------------- inventories as text

  /** The lines of one elf's group: its numbers in decimal. */
  function NumberLines(ns: seq<nat>): (ls: seq<string>)
    ensures |ls| == |ns|
    ensures forall k :: 0 <= k < |ls| ==> ls[k] == NatToString(ns[k])
  {
    seq(|ns|, k requires 0 <= k < |ns| => NatToString(ns[k]))
  }

  /** The text of one elf's group: its numbers, one per line. */
  function GroupText(ns: seq<nat>): string
  {
    Join(NumberLines(ns), "\n")
  }

  /** Every number of every group fits in a `u32`. */
  predicate Fits(groups: seq<seq<nat>>)
  {
    forall k, j :: 0 <= k < |groups| && 0 <= j < |groups[k]| ==> groups[k][j] <= U32_MAX
  }

  lemma TakeOneMore(s: seq<int>, k: nat)
    requires k < |s|
    ensures s[..k + 1] == s[..k] + [s[k]]
  {
  }

  /** The lines of a group parse back to its numbers. */
  lemma ParsedNumberLines(ns: seq<nat>)
    requires forall j :: 0 <= j < |ns| ==> ns[j] <= U32_MAX
    ensures ParsedNats(NumberLines(ns), U32_MAX) == ns
  {
    var ls := NumberLines(ns);
    var k := 0;
    assert ls[..0] == [];
    while k < |ns|
      invariant k <= |ns|
      invariant ParsedNats(ls[..k], U32_MAX) == ns[..k]
    {
      ParseNatToString(ns[k], U32_MAX);
      ParsedNatsTake(ls, k, U32_MAX, ns[..k], ns[k]);
      TakeOneMore(ns, k);
      k := k + 1;
    }
    assert ls[..k] == ls && ns[..k] == ns;
  }

  /** A group written one number per line is worth the sum of its numbers. */
  lemma GroupTextValue(ns: seq<nat>)
    requires |ns| >= 1 && forall j :: 0 <= j < |ns| ==> ns[j] <= U32_MAX
    ensures GroupValue(GroupText(ns)) == Sum(ns)
  {
    var ls := NumberLines(ns);
    forall k | 0 <= k < |ls| ensures '\n' !in ls[k] && StripCR(ls[k]) == ls[k] {
      NatToStringNoChar(ns[k], '\n');
      assert IsDigit(ls[k][|ls[k]| - 1]);
    }
    LinesJoin(ls);
    ParsedNumberLines(ns);
  }

  /** Every newline of `p` is followed by something other than a newline. */
  predicate NoBlank(p: string)
  {
    forall i :: 0 <= i < |p| && p[i] == '\n' ==> i + 1 < |p| && p[i + 1] != '\n'
  }

  lemma NoBlankSepFree(p: string)
    requires NoBlank(p)
    ensures SepFree(p, "\n\n")
  {
    var sep := "\n\n";
    forall i | 0 <= i < |p| ensures !OccursAt(p + sep, sep, i) {
      var w := (p + sep)[i..i + 2];
      assert w[0] == p[i];
      if p[i] == '\n' {
        assert w[1] == p[i + 1];
      }
    }
  }

  /** A group's text starts with a digit and has no blank line inside it. */
  lemma {:induction false} GroupTextNoBlank(ns: seq<nat>)
    requires |ns| >= 1
    ensures |GroupText(ns)| > 0 && IsDigit(GroupText(ns)[0]) && NoBlank(GroupText(ns))
    decreases |ns|
  {
    var ls := NumberLines(ns);
    if |ns| > 1 {
      GroupTextNoBlank(ns[1..]);
      assert ls[1..] == NumberLines(ns[1..]);
      var d, q := ls[0], GroupText(ns[1..]);
      var t := GroupText(ns);
      assert t == d + "\n" + q;
      forall i | 0 <= i < |t| && t[i] == '\n' ensures i + 1 < |t| && t[i + 1] != '\n' {
        if i < |d| {
          assert false;
        } else if i == |d| {
          assert t[i + 1] == q[0];
        } else {
          assert t[i] == q[i - |d| - 1];
          assert i - |d| < |q| && t[i + 1] == q[i - |d|];
        }
      }
    }
  }

  function GroupTexts(groups: seq<seq<nat>>): (ts: seq<string>)
    ensures |ts| == |groups|
    ensures forall k :: 0 <= k < |ts| ==> ts[k] == GroupText(groups[k])
  {
    seq(|groups|, k requires 0 <= k < |groups| => GroupText(groups[k]))
  }

  /** The inventory of several elves: their groups separated by blank lines. */
  function InventoryText(groups: seq<seq<nat>>): string
  {
    Join(GroupTexts(groups), "\n\n")
  }

  function Totals(groups: seq<seq<nat>>): (r: seq<int>)
    ensures |r| == |groups|
    ensures forall k :: 0 <= k < |r| ==> r[k] == Sum(groups[k])
  {
    seq(|groups|, k requires 0 <= k < |groups| => Sum(groups[k]))
  }

  /** An inventory written as text reads back as the totals of its groups. */
  lemma InventoryValues(groups: seq<seq<nat>>)
    requires |groups| >= 1 && Fits(groups)
    requires forall k :: 0 <= k < |groups| ==> |groups[k]| >= 1
    ensures GroupValues(InventoryText(groups)) == Totals(groups)
  {
    var ts := GroupTexts(groups);
    forall k | 0 <= k < |ts| ensures SepFree(ts[k], "\n\n") {
      GroupTextNoBlank(groups[k]);
      NoBlankSepFree(ts[k]);
    }
    SplitOnJoinSep(ts, "\n\n");
    forall k | 0 <= k < |groups| ensures GroupValue(ts[k]) == Sum(groups[k]) {
      GroupTextValue(groups[k]);
    }
  }

  /** The texts of groups of one, two and three numbers. */
  lemma SmallGroupTexts(a: nat, b: nat, c: nat)
    ensures GroupText([a]) == NatToString(a)
    ensures GroupText([a, b]) == NatToString(a) + "\n" + NatToString(b)
    ensures GroupText([a, b, c]) == NatToString(a) + "\n" + NatToString(b) + "\n" + NatToString(c)
  {
    var ls := NumberLines([a, b, c]);
    assert NumberLines([a, b]) == [NatToString(a), NatToString(b)];
    assert ls == [NatToString(a), NatToString(b), NatToString(c)];
    JoinSnoc([NatToString(a), NatToString(b)], NatToString(c), "\n");
    assert [NatToString(a), NatToString(b)] + [NatToString(c)] == ls;
    JoinSnoc([NatToString(a)], NatToString(b), "\n");
    assert [NatToString(a)] + [NatToString(b)] == [NatToString(a), NatToString(b)];
  }

  /** The decimal texts of the sample's numbers. */
  lemma FirstNumbersText()
    ensures NatToString(1000) == "1000" && NatToString(2000) == "2000" && NatToString(3000) == "3000"
  {
  }

  lemma MiddleNumbersText()
    ensures NatToString(4000) == "4000" && NatToString(5000) == "5000" && NatToString(6000) == "6000"
  {
  }

  lemma LastNumbersText()
    ensures NatToString(7000) == "7000" && NatToString(8000) == "8000" && NatToString(9000) == "9000"
  {
  }

  lemma TenThousandText()
    ensures NatToString(10000) == "10000"
  {
  }

  /** The groups of the sample inventory. */
  function SampleGroups(): seq<seq<nat>>
  {
    [[1000, 2000, 3000], [4000], [5000, 6000], [7000, 8000, 9000], [10000]]
  }

  /** Five groups whose texts are `ts` have the inventory text `ts` joined by blank
      lines, which reads back as the groups' totals. */
  lemma InventoryOfFive(input: string, groups: seq<seq<nat>>, ts: seq<string>)
    requires |groups| == 5 && |ts| == 5 && Fits(groups)
    requires forall k :: 0 <= k < 5 ==> |groups[k]| >= 1
    requires GroupText(groups[0]) == ts[0] && GroupText(groups[1]) == ts[1] && GroupText(groups[2]) == ts[2]
    requires GroupText(groups[3]) == ts[3] && GroupText(groups[4]) == ts[4]
    requires input == ts[0] + "\n\n" + ts[1] + "\n\n" + ts[2] + "\n\n" + ts[3] + "\n\n" + ts[4]
    ensures GroupValues(input) == Totals(groups)
  {
    var gs := GroupTexts(groups);
    assert gs == ts by {
      forall k | 0 <= k < 5 ensures gs[k] == ts[k] {
        if k < 3 {
          assert k == 0 || k == 1 || k == 2;
        } else {
          assert k == 3 || k == 4;
        }
      }
    }
    JoinFive(ts, "\n\n");
    InventoryValues(groups);
  }

  lemma SampleFits()
    ensures |SampleGroups()| == 5 && Fits(SampleGroups())
    ensures forall k :: 0 <= k < 5 ==> |SampleGroups()[k]| >= 1
  {
  }

  lemma FirstGroupText()
    ensures GroupText([1000, 2000, 3000]) == "1000" + "\n" + "2000" + "\n" + "3000"
  {
    FirstNumbersText();
    SmallGroupTexts(1000, 2000, 3000);
  }

  lemma ThirdGroupText()
    ensures GroupText([5000, 6000]) == "5000" + "\n" + "6000"
  {
    MiddleNumbersText();
    SmallGroupTexts(5000, 6000, 0);
  }

  lemma FourthGroupText()
    ensures GroupText([7000, 8000, 9000]) == "7000" + "\n" + "8000" + "\n" + "9000"
  {
    LastNumbersText();
    SmallGroupTexts(7000, 8000, 9000);
  }

  lemma SingleGroupTexts()
    ensures GroupText([4000]) == "4000" && GroupText([10000]) == "10000"
  {
    MiddleNumbersText();
    TenThousandText();
    SmallGroupTexts(4000, 0, 0);
    SmallGroupTexts(10000, 0, 0);
  }

  /** The groups of the sample print as their lines. */
  lemma SampleGroupTexts(gs: seq<seq<nat>>)
    requires gs == SampleGroups()
    ensures GroupText(gs[0]) == "1000" + "\n" + "2000" + "\n" + "3000"
    ensures GroupText(gs[1]) == "4000" && GroupText(gs[4]) == "10000"
  {
    FirstGroupText();
    SingleGroupTexts();
  }

  lemma SampleGroupTextsRest(gs: seq<seq<nat>>)
    requires gs == SampleGroups()
    ensures GroupText(gs[2]) == "5000" + "\n" + "6000"
    ensures GroupText(gs[3]) == "7000" + "\n" + "8000" + "\n" + "9000"
  {
    ThirdGroupText();
    FourthGroupText();
  }

  /** The totals of the sample's groups. */
  lemma SampleSums()
    ensures Totals(SampleGroups()) == [6000, 4000, 11000, 24000, 10000]
  {
    SumThree(1000, 2000, 3000);
    SumThree(4000, 0, 0);
    SumThree(7000, 8000, 9000);
    SumThree(10000, 0, 0);
    assert Sum([5000, 6000]) == Sum([5000]) + 6000;
    SumThree(5000, 0, 0);
  }

  /** Five pieces joined by `sep`. */
  lemma JoinFive(ps: seq<string>, sep: string)
    requires |ps| == 5
    ensures Join(ps, sep) == ps[0] + sep + ps[1] + sep + ps[2] + sep + ps[3] + sep + ps[4]
  {
    JoinSnoc(ps[..1], ps[1], sep);
    JoinSnoc(ps[..2], ps[2], sep);
    JoinSnoc(ps[..3], ps[3], sep);
    JoinSnoc(ps[..4], ps[4], sep);
    assert ps[..1] + [ps[1]] == ps[..2] && ps[..2] + [ps[2]] == ps[..3];
    assert ps[..3] + [ps[3]] == ps[..4] && ps[..4] + [ps[4]] == ps;
  }

  /** The sample inventory: its elves carry 6000, 4000, 11000, 24000 and 10000
      calories. */
  lemma SampleValues(input: string)
    requires input == ("1000" + "\n" + "2000" + "\n" + "3000") + "\n\n" + "4000" + "\n\n"
      + ("5000" + "\n" + "6000") + "\n\n" + ("7000" + "\n" + "8000" + "\n" + "9000") + "\n\n" + "10000"
    ensures GroupValues(input) == [6000, 4000, 11000, 24000, 10000]
  {
    var ts := ["1000" + "\n" + "2000" + "\n" + "3000", "4000", "5000" + "\n" + "6000",
               "7000" + "\n" + "8000" + "\n" + "9000", "10000"];
    SampleFits();
    SampleGroupTexts(SampleGroups());
    SampleGroupTextsRest(SampleGroups());
    InventoryOfFive(input, SampleGroups(), ts);
    SampleSums();
  }

  /** The elf totals of the sample in descending order. */
  lemma SampleSorted(v: seq<int>)
    requires v == [6000, 4000, 11000, 24000, 10000]
    ensures SortDesc(v) == [24000, 11000, 10000, 6000, 4000]
  {
    assert v[..0] == [];
    SortPrefix(v, 0, [], [6000]);
    SortPrefix(v, 1, [6000], [6000, 4000]);
    SortPrefix(v, 2, [6000, 4000], [11000, 6000, 4000]);
    SortPrefix(v, 3, [11000, 6000, 4000], [24000, 11000, 6000, 4000]);
    InsertTenThousand();
    SortPrefix(v, 4, [24000, 11000, 6000, 4000], [24000, 11000, 10000, 6000, 4000]);
    assert v[..5] == v;
  }

  lemma InsertTenThousand()
    ensures InsertDesc(10000, [24000, 11000, 6000, 4000]) == [24000, 11000, 10000, 6000, 4000]
  {
    assert [24000, 11000, 6000, 4000][1..] == [11000, 6000, 4000];
    assert [11000, 6000, 4000][1..] == [6000, 4000];
  }

  /** One step of SortDesc on a prefix of `v`. */
  lemma SortPrefix(v: seq<int>, k: nat, sorted: seq<int>, next: seq<int>)
    requires k < |v| && SortDesc(v[..k]) == sorted && InsertDesc(v[k], sorted) == next
    ensures SortDesc(v[..k + 1]) == next
  {
    assert v[..k + 1][..k] == v[..k];
  }

  lemma SumThree(a: int, b: int, c: int)
    ensures Sum([a]) == a && Sum([a, b, c]) == a + b + c
  {
    assert [a, b, c][..2] == [a, b] && [a, b][..1] == [a] && [a][..0] == [];
  }

  /** On the sample text, the largest total is 24000 and the three largest add to
      45000, by the in-place top-N (what `GetNMaxes` returns) and by sorting alike. */
  lemma SampleTotals(input: string)
    requires input == ("1000" + "\n" + "2000" + "\n" + "3000") + "\n\n" + "4000" + "\n\n"
      + ("5000" + "\n" + "6000") + "\n\n" + ("7000" + "\n" + "8000" + "\n" + "9000") + "\n\n" + "10000"
    ensures GroupValues(input) == [6000, 4000, 11000, 24000, 10000]
    ensures Sum((SortDesc(GroupValues(input)) + Zeros(1))[..1]) == 24000
    ensures Sum((SortDesc(GroupValues(input)) + Zeros(3))[..3]) == 45000
    ensures GetSlowNMaxes(input, 1) == 24000 && GetSlowNMaxes(input, 3) == 45000
  {
    SampleValues(input);
    var v := GroupValues(input);
    SampleSorted(v);
    var s := SortDesc(v);
    assert (s + Zeros(1))[..1] == s[..1] == [24000];
    assert (s + Zeros(3))[..3] == s[..3] == [24000, 11000, 10000];
    SumThree(24000, 11000, 10000);
  }
}
