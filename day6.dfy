/** Day 6: the start-of-packet marker. The answer is the position just past the first
    window of `amount` characters that are all different. The source has two searches:
    a sliding-window one and a hand-written loop. The text is taken to be ASCII, where
    bytes and chars coincide. */
module Day6 {
  import opened Wrappers
  import opened Text

  /** The distinct characters of a window (`collect::<HashSet<_>>()`). */
  function Items(w: string): set<char>
  {
    set c | c in w
  }

  /** The window test: the set of its characters is as large as the window. */
  predicate Distinct(w: string)
  {
    |Items(w)| == |w|
  }

  predicate Pairwise(w: string)
  {
    forall i, j :: 0 <= i < j < |w| ==> w[i] != w[j]
  }

  lemma ItemsCons(w: string)
    requires |w| >= 1
    ensures Items(w) == {w[0]} + Items(w[1..])
  {
    forall c | c in Items(w) ensures c in {w[0]} + Items(w[1..]) {
      var i :| 0 <= i < |w| && w[i] == c;
      if i > 0 {
        assert w[1..][i - 1] == c;
      }
    }
  }

  /** A window never has more distinct characters than characters. */
  lemma {:induction false} ItemsAtMost(w: string)
    ensures |Items(w)| <= |w|
    decreases |w|
  {
    if |w| > 0 {
      ItemsCons(w);
      ItemsAtMost(w[1..]);
    }
  }

  /** The set test accepts a window exactly when no character occurs in it twice. */
  lemma {:induction false} DistinctMeans(w: string)
    ensures Distinct(w) <==> Pairwise(w)
    decreases |w|
  {
    if |w| > 0 {
      var t := w[1..];
      ItemsCons(w);
      ItemsAtMost(t);
      DistinctMeans(t);
      if w[0] in t {
        assert Items(w) == Items(t);
        var j :| 0 <= j < |t| && t[j] == w[0];
        assert w[0] == w[j + 1];
      } else {
        assert |Items(w)| == |Items(t)| + 1;
        if Pairwise(t) {
          forall i, j | 0 <= i < j < |w| ensures w[i] != w[j] {
            if i > 0 {
              assert t[i - 1] != t[j - 1];
            } else {
              assert w[j] == t[j - 1];
            }
          }
        }
        if Pairwise(w) {
          assert forall i, j :: 0 <= i < j < |t| ==> t[i] == w[i + 1] && t[j] == w[j + 1];
        }
      }
    }
  }

  function Window(s: string, p: nat, amount: nat): string
    requires p + amount <= |s|
  {
    s[p..p + amount]
  }

  /** The first start p in [from, stop) whose window is distinct, as the position just
      past that window. */
  function Scan(s: string, amount: nat, from: nat, stop: nat): Option<nat>
    requires stop == 0 || stop - 1 + amount <= |s|
    decreases stop - from
  {
    if from >= stop then None
    else if Distinct(Window(s, from, amount)) then Some(from + amount)
    else Scan(s, amount, from + 1, stop)
  }

  /** The search finds the first distinct window among the starts [from, stop), and
      reports none only when there is none. */
  lemma {:induction false} ScanMeans(s: string, amount: nat, from: nat, stop: nat)
    requires stop == 0 || stop - 1 + amount <= |s|
    ensures Scan(s, amount, from, stop).Some? ==>
      var end := Scan(s, amount, from, stop).value;
      from + amount <= end < stop + amount && Distinct(Window(s, end - amount, amount))
      && forall p :: from <= p < end - amount ==> !Distinct(Window(s, p, amount))
    ensures Scan(s, amount, from, stop).None? ==> forall p :: from <= p < stop ==> !Distinct(Window(s, p, amount))
    decreases stop - from
  {
    if from < stop && !Distinct(Window(s, from, amount)) {
      ScanMeans(s, amount, from + 1, stop);
    }
  }

  /** `find_unique_b3nny_style`: the first of the `windows(amount)` that is distinct,
      plus `amount`. `windows(0)` panics. */
  function FindUniqueB3nny(s: string, amount: nat): (r: Option<nat>)
    requires amount >= 1
    ensures r.Some? ==> amount <= r.value <= |s| && Distinct(s[r.value - amount..r.value])
    ensures r.Some? ==> forall p :: 0 <= p < r.value - amount ==> !Distinct(Window(s, p, amount))
    ensures r.None? <==> forall p :: 0 <= p && p + amount <= |s| ==> !Distinct(Window(s, p, amount))
  {
    if |s| < amount then None
    else
      ScanMeans(s, amount, 0, |s| - amount + 1);
      Scan(s, amount, 0, |s| - amount + 1)
  }

  /** The result does not depend on where the search starts counting: searching from a
      start whose earlier windows are all rejected gives the search from 0. */
  lemma {:induction false} ScanSkip(s: string, amount: nat, from: nat, stop: nat)
    requires stop == 0 || stop - 1 + amount <= |s|
    requires from <= stop
    requires forall p :: 0 <= p < from ==> !Distinct(Window(s, p, amount))
    ensures Scan(s, amount, from, stop) == Scan(s, amount, 0, stop)
    decreases from
  {
    if from > 0 {
      ScanSkip(s, amount, from - 1, stop);
    }
  }

  lemma ScanHit(s: string, amount: nat, i: nat, stop: nat)
    requires stop == 0 || stop - 1 + amount <= |s|
    requires i < stop && Distinct(Window(s, i, amount))
    requires forall p :: 0 <= p < i ==> !Distinct(Window(s, p, amount))
    ensures Scan(s, amount, 0, stop) == Some(i + amount)
  {
    ScanSkip(s, amount, i, stop);
  }

  lemma ScanMiss(s: string, amount: nat, stop: nat)
    requires stop == 0 || stop - 1 + amount <= |s|
    requires forall p :: 0 <= p < stop ==> !Distinct(Window(s, p, amount))
    ensures Scan(s, amount, 0, stop) == None
  {
    ScanSkip(s, amount, stop, stop);
  }

  /** The test both loops make: the characters of `s[i..i + amount]` collected into a
      set, compared in size with `amount`. */
  method IsDistinct(s: string, i: nat, amount: nat) returns (b: bool)
    requires i + amount <= |s|
    ensures b <==> Distinct(Window(s, i, amount))
  {
    var end := i + amount;
    b := |Items(s[i..end])| == amount;
  }

  /** `find_unique_mine`: starts 0 up to but not including len - amount. The
      subtraction underflows when the text is shorter than the window. */
  method FindUniqueMine(s: string, amount: nat) returns (r: Option<nat>)
    requires amount <= |s|
    ensures r == Scan(s, amount, 0, |s| - amount)
  {
    var stop := |s| - amount;
    var i := 0;
    while i < stop
      invariant i <= stop
      invariant forall p :: 0 <= p < i ==> !Distinct(Window(s, p, amount))
    {
      var distinct := IsDistinct(s, i, amount);
      if distinct {
        ScanHit(s, amount, i, stop);
        return Some(i + amount);
      }
      i := i + 1;
    }
    ScanMiss(s, amount, stop);
    return None;
  }

  /** The loop as written gives the sliding-window answer except when the first distinct
      window is the last one, which it never looks at. */
  lemma MineAgreesExceptLast(s: string, amount: nat)
    requires 1 <= amount <= |s|
    ensures Scan(s, amount, 0, |s| - amount) == FindUniqueB3nny(s, amount) || FindUniqueB3nny(s, amount) == Some(|s|)
    ensures FindUniqueB3nny(s, amount) == Some(|s|) ==> Scan(s, amount, 0, |s| - amount) == None
  {
    var last := |s| - amount;
    var mine := Scan(s, amount, 0, last);
    var full := Scan(s, amount, 0, last + 1);
    assert FindUniqueB3nny(s, amount) == full;
    ScanMeans(s, amount, 0, last);
    if mine.Some? {
      ScanHit(s, amount, mine.value - amount, last + 1);
    } else {
      ScanMeans(s, amount, 0, last + 1);
      assert full.Some? ==> full.value == |s|;
    }
  }

  /** "abcd" with windows of 4: the only window is distinct, so the sliding search gives
      4 while the loop as written gives None. */
  lemma MineMissesLastWindow()
    ensures FindUniqueB3nny("abcd", 4) == Some(4)
    ensures Scan("abcd", 4, 0, |"abcd"| - 4) == None
  {
    assert Window("abcd", 0, 4) == "abcd";
    DistinctMeans("abcd");
  }

  /** The loop with its bound corrected to take every start p with p + amount <= len,
      which agrees with the sliding-window search on every text. */
  method FindUniqueFixed(s: string, amount: nat) returns (r: Option<nat>)
    requires amount >= 1
    ensures r == FindUniqueB3nny(s, amount)
  {
    var i := 0;
    while i + amount <= |s|
      invariant i <= |s| - amount + 1 || (|s| < amount && i == 0)
      invariant forall p :: 0 <= p < i ==> !Distinct(Window(s, p, amount))
    {
      var distinct := IsDistinct(s, i, amount);
      if distinct {
        B3nnyHit(s, amount, i);
        return Some(i + amount);
      }
      i := i + 1;
    }
    B3nnyMiss(s, amount);
    return None;
  }

  lemma B3nnyHit(s: string, amount: nat, i: nat)
    requires amount >= 1 && i + amount <= |s| && Distinct(Window(s, i, amount))
    requires forall p :: 0 <= p < i ==> !Distinct(Window(s, p, amount))
    ensures FindUniqueB3nny(s, amount) == Some(i + amount)
  {
    ScanHit(s, amount, i, |s| - amount + 1);
  }

  lemma B3nnyMiss(s: string, amount: nat)
    requires amount >= 1
    requires forall p :: 0 <= p && p + amount <= |s| ==> !Distinct(Window(s, p, amount))
    ensures FindUniqueB3nny(s, amount) == None
  {
    if |s| >= amount {
      ScanMiss(s, amount, |s| - amount + 1);
    }
  }

  /** `part_1`: the sliding search with windows of 4 over the text's bytes; no distinct
      window panics. */
  function Part1(s: string): (r: nat)
    requires Ascii(s)
    requires FindUniqueB3nny(s, 4).Some?
    ensures 4 <= r <= |s| && Distinct(s[r - 4..r])
    ensures forall p :: 0 <= p < r - 4 ==> !Distinct(Window(s, p, 4))
  {
    FindUniqueB3nny(s, 4).value
  }

  /** `part_2`: windows of 14, with the loop as written. A text shorter than 14 makes its
      bound underflow and a text whose loop finds nothing panics on the unwrap; otherwise
      the answer is the sliding search's, and the marker ends before the last character. */
  method Part2(s: string) returns (r: nat)
    requires Ascii(s)
    requires 14 <= |s| && Scan(s, 14, 0, |s| - 14).Some?
    ensures FindUniqueB3nny(s, 14) == Some(r)
    ensures 14 <= r < |s| && Distinct(s[r - 14..r])
    ensures forall p :: 0 <= p < r - 14 ==> !Distinct(Window(s, p, 14))
  {
    var found := FindUniqueMine(s, 14);
    r := found.value;
    ScanMeans(s, 14, 0, |s| - 14);
    MineAgreesExceptLast(s, 14);
  }

  /** The first part-1 sample: "bvwb" repeats 'b', "vwbj" is distinct, so the marker ends
      at 5. */
  lemma Sample1(s: string)
    requires s == "bvwbjplbgvbhsrlpgdmjqwftvncz"
    ensures FindUniqueB3nny(s, 4) == Some(5)
  {
    assert |s| == 28;
    assert s[0] == 'b';
    assert s[1] == 'v';
    assert s[2] == 'w';
    assert s[3] == 'b';
    assert s[4] == 'j';
    var w := s[1..5];
    assert w == "vwbj";
    MarkerAt5(s);
  }

  /** A repeat at positions 0 and 3 rules out the window at 0; a distinct window at 1
      then ends the marker at 5. */
  lemma MarkerAt5(s: string)
    requires |s| >= 5 && s[0] == s[3] && Pairwise(s[1..5])
    ensures FindUniqueB3nny(s, 4) == Some(5)
  {
    var w0, w1 := Window(s, 0, 4), Window(s, 1, 4);
    assert w0[0] == w0[3];
    DistinctMeans(w0);
    DistinctMeans(w1);
    assert forall p :: 0 <= p < 1 ==> !Distinct(Window(s, p, 4));
    ScanHit(s, 4, 1, |s| - 3);
  }

  /** The second part-1 sample: windows at 0 and 1 repeat 'p', the one at 2 ("pdvj") is
      distinct, so the marker ends at 6. */
  lemma Sample2(s: string)
    requires s == "nppdvjthqldpwncqszvftbrmjlhg"
    ensures FindUniqueB3nny(s, 4) == Some(6)
  {
    assert |s| == 28;
    assert s[1] == 'p';
    assert s[2] == 'p';
    assert s[3] == 'd';
    assert s[4] == 'v';
    assert s[5] == 'j';
    var w := s[2..6];
    assert w == "pdvj";
    MarkerAt6(s);
  }

  /** A repeat at positions 1 and 2 rules out the windows at 0 and 1; a distinct window
      at 2 then ends the marker at 6. */
  lemma MarkerAt6(s: string)
    requires |s| >= 6 && s[1] == s[2] && Pairwise(s[2..6])
    ensures FindUniqueB3nny(s, 4) == Some(6)
  {
    var w0, w1, w2 := Window(s, 0, 4), Window(s, 1, 4), Window(s, 2, 4);
    assert w0[1] == w0[2];
    DistinctMeans(w0);
    assert w1[0] == w1[1];
    DistinctMeans(w1);
    DistinctMeans(w2);
    assert forall p :: 0 <= p < 2 ==> !Distinct(Window(s, p, 4));
    ScanHit(s, 4, 2, |s| - 3);
  }
}
