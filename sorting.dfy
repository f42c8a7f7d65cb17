/** Sorting of integer sequences, standing in for Rust's `sort`, `sort_by(|a, b| b.cmp(a))`
    and `BinaryHeap::into_sorted_vec` on integers. Sorting integers has a single correct
    answer (SortedDescUnique, SortedAscUnique), so an insertion sort gives exactly what
    the library gives. */
module Sorting {

  predicate NonIncreasing(s: seq<int>)
  {
    forall i, j :: 0 <= i < j < |s| ==> s[i] >= s[j]
  }

  predicate NonDecreasing(s: seq<int>)
  {
    forall i, j :: 0 <= i < j < |s| ==> s[i] <= s[j]
  }

  /** `x` placed before the first element strictly smaller than it. */
  function InsertDesc(x: int, s: seq<int>): (r: seq<int>)
    ensures |r| == |s| + 1
  {
    if s == [] then [x]
    else if x > s[0] then [x] + s
    else
      assert s == [s[0]] + s[1..];
      [s[0]] + InsertDesc(x, s[1..])
  }

  lemma {:induction false} InsertDescSorted(x: int, s: seq<int>)
    requires NonIncreasing(s)
    ensures NonIncreasing(InsertDesc(x, s))
  {
    if s != [] && x <= s[0] {
      var t := InsertDesc(x, s[1..]);
      InsertDescSorted(x, s[1..]);
      var r := InsertDesc(x, s);
      assert r == [s[0]] + t;
      assert s[0] >= t[0] by {
        if |s| > 1 { assert s[0] >= s[1]; }
      }
      forall i, j | 0 <= i < j < |r| ensures r[i] >= r[j] {
        assert r[j] == t[j - 1];
        if i == 0 {
          assert t[0] >= t[j - 1];
        } else {
          assert r[i] == t[i - 1];
        }
      }
    }
  }

  /** The elements of `s` from largest to smallest. */
  function SortDesc(s: seq<int>): (r: seq<int>)
    ensures |r| == |s|
  {
    if s == [] then []
    else
      assert s == s[..|s| - 1] + [s[|s| - 1]];
      InsertDesc(s[|s| - 1], SortDesc(s[..|s| - 1]))
  }

  lemma {:induction false} SortDescSorted(s: seq<int>)
    ensures NonIncreasing(SortDesc(s))
    decreases |s|
  {
    if s != [] {
      SortDescSorted(s[..|s| - 1]);
      InsertDescSorted(s[|s| - 1], SortDesc(s[..|s| - 1]));
    }
  }

  /** Insertion adds exactly the inserted element. */
  lemma {:induction false} InsertDescPerm(x: int, s: seq<int>)
    ensures multiset(InsertDesc(x, s)) == multiset(s) + multiset{x}
  {
    if s != [] && x <= s[0] {
      InsertDescPerm(x, s[1..]);
      assert s == [s[0]] + s[1..];
    }
  }

  /** SortDesc rearranges the elements of `s` and neither adds nor drops any. */
  lemma {:induction false} SortDescPerm(s: seq<int>)
    ensures multiset(SortDesc(s)) == multiset(s)
    decreases |s|
  {
    if s != [] {
      SortDescPerm(s[..|s| - 1]);
      InsertDescPerm(s[|s| - 1], SortDesc(s[..|s| - 1]));
      assert s == s[..|s| - 1] + [s[|s| - 1]];
    }
  }

  /** Sorting a sequence with one more element at the end inserts that element into the
      sorted rest. */
  lemma SortDescSnoc(s: seq<int>, x: int)
    ensures SortDesc(s + [x]) == InsertDesc(x, SortDesc(s))
  {
    assert (s + [x])[..|s|] == s;
  }

  /** `x` placed after every element not larger than it. */
  function InsertAsc(x: int, s: seq<int>): (r: seq<int>)
    ensures |r| == |s| + 1
  {
    if s == [] then [x]
    else if x < s[0] then [x] + s
    else
      assert s == [s[0]] + s[1..];
      [s[0]] + InsertAsc(x, s[1..])
  }

  lemma {:induction false} InsertAscSorted(x: int, s: seq<int>)
    requires NonDecreasing(s)
    ensures NonDecreasing(InsertAsc(x, s))
  {
    if s != [] && x >= s[0] {
      var t := InsertAsc(x, s[1..]);
      InsertAscSorted(x, s[1..]);
      var r := InsertAsc(x, s);
      assert r == [s[0]] + t;
      assert s[0] <= t[0] by {
        if |s| > 1 { assert s[0] <= s[1]; }
      }
      forall i, j | 0 <= i < j < |r| ensures r[i] <= r[j] {
        assert r[j] == t[j - 1];
        if i == 0 {
          assert t[0] <= t[j - 1];
        } else {
          assert r[i] == t[i - 1];
        }
      }
    }
  }

  /** The elements of `s` from smallest to largest. */
  function SortAsc(s: seq<int>): (r: seq<int>)
    ensures |r| == |s|
  {
    if s == [] then []
    else
      assert s == s[..|s| - 1] + [s[|s| - 1]];
      InsertAsc(s[|s| - 1], SortAsc(s[..|s| - 1]))
  }

  lemma {:induction false} SortAscSorted(s: seq<int>)
    ensures NonDecreasing(SortAsc(s))
    decreases |s|
  {
    if s != [] {
      SortAscSorted(s[..|s| - 1]);
      InsertAscSorted(s[|s| - 1], SortAsc(s[..|s| - 1]));
    }
  }

  /** Insertion adds exactly the inserted element. */
  lemma {:induction false} InsertAscPerm(x: int, s: seq<int>)
    ensures multiset(InsertAsc(x, s)) == multiset(s) + multiset{x}
  {
    if s != [] && x >= s[0] {
      InsertAscPerm(x, s[1..]);
      assert s == [s[0]] + s[1..];
    }
  }

  /** SortAsc rearranges the elements of `s` and neither adds nor drops any. */
  lemma {:induction false} SortAscPerm(s: seq<int>)
    ensures multiset(SortAsc(s)) == multiset(s)
    decreases |s|
  {
    if s != [] {
      SortAscPerm(s[..|s| - 1]);
      InsertAscPerm(s[|s| - 1], SortAsc(s[..|s| - 1]));
      assert s == s[..|s| - 1] + [s[|s| - 1]];
    }
  }

  lemma SortAscSnoc(s: seq<int>, x: int)
    ensures SortAsc(s + [x]) == InsertAsc(x, SortAsc(s))
  {
    assert (s + [x])[..|s|] == s;
  }

  lemma MultisetTail(a: seq<int>)
    requires |a| > 0
    ensures multiset(a[1..]) == multiset(a) - multiset{a[0]}
  {
    assert a == [a[0]] + a[1..];
  }

  lemma TailNonIncreasing(a: seq<int>)
    requires |a| > 0 && NonIncreasing(a)
    ensures NonIncreasing(a[1..])
  {
    var t := a[1..];
    forall i, j | 0 <= i < j < |t| ensures t[i] >= t[j] {
      assert t[i] == a[i + 1] && t[j] == a[j + 1];
    }
  }

  lemma TailNonDecreasing(a: seq<int>)
    requires |a| > 0 && NonDecreasing(a)
    ensures NonDecreasing(a[1..])
  {
    var t := a[1..];
    forall i, j | 0 <= i < j < |t| ensures t[i] <= t[j] {
      assert t[i] == a[i + 1] && t[j] == a[j + 1];
    }
  }

  /** The first element of a non-empty non-increasing sequence is its largest. */
  lemma HeadIsMax(a: seq<int>, v: int)
    requires NonIncreasing(a) && v in multiset(a)
    ensures |a| > 0 && a[0] >= v
  {
    var j :| 0 <= j < |a| && a[j] == v;
  }

  /** The first element of a non-empty non-decreasing sequence is its smallest. */
  lemma HeadIsMin(a: seq<int>, v: int)
    requires NonDecreasing(a) && v in multiset(a)
    ensures |a| > 0 && a[0] <= v
  {
    var j :| 0 <= j < |a| && a[j] == v;
  }

  /** Non-increasing sequences with the same elements start with the same element. */
  lemma HeadsDesc(a: seq<int>, b: seq<int>)
    requires |a| > 0 && NonIncreasing(a) && NonIncreasing(b)
    requires multiset(a) == multiset(b)
    ensures |b| > 0 && a[0] == b[0]
  {
    assert a[0] in multiset(a);
    HeadIsMax(b, a[0]);
    assert b[0] in multiset(b);
    HeadIsMax(a, b[0]);
  }

  /** Non-decreasing sequences with the same elements start with the same element. */
  lemma HeadsAsc(a: seq<int>, b: seq<int>)
    requires |a| > 0 && NonDecreasing(a) && NonDecreasing(b)
    requires multiset(a) == multiset(b)
    ensures |b| > 0 && a[0] == b[0]
  {
    assert a[0] in multiset(a);
    HeadIsMin(b, a[0]);
    assert b[0] in multiset(b);
    HeadIsMin(a, b[0]);
  }

  /** Removing equal heads from sequences with the same elements leaves tails with the
      same elements. */
  lemma SameTails(a: seq<int>, b: seq<int>)
    requires |a| > 0 && |b| > 0 && a[0] == b[0]
    requires multiset(a) == multiset(b)
    ensures multiset(a[1..]) == multiset(b[1..])
  {
    MultisetTail(a);
    MultisetTail(b);
  }

  lemma ConsEqual(a: seq<int>, b: seq<int>)
    requires |a| > 0 && |b| > 0 && a[0] == b[0] && a[1..] == b[1..]
    ensures a == b
  {
    assert a == [a[0]] + a[1..];
    assert b == [b[0]] + b[1..];
  }

  /** Two non-increasing sequences holding the same elements are the same sequence, so
      SortDesc is what every correct descending sort returns. */
  lemma {:induction false} SortedDescUnique(a: seq<int>, b: seq<int>)
    requires NonIncreasing(a) && NonIncreasing(b)
    requires multiset(a) == multiset(b)
    ensures a == b
    decreases |a|
  {
    if a != [] {
      HeadsDesc(a, b);
      SameTails(a, b);
      TailNonIncreasing(a);
      TailNonIncreasing(b);
      SortedDescUnique(a[1..], b[1..]);
      ConsEqual(a, b);
    } else {
      assert |multiset(b)| == 0;
    }
  }

  /** The ascending counterpart of SortedDescUnique. */
  lemma {:induction false} SortedAscUnique(a: seq<int>, b: seq<int>)
    requires NonDecreasing(a) && NonDecreasing(b)
    requires multiset(a) == multiset(b)
    ensures a == b
    decreases |a|
  {
    if a != [] {
      HeadsAsc(a, b);
      SameTails(a, b);
      TailNonDecreasing(a);
      TailNonDecreasing(b);
      SortedAscUnique(a[1..], b[1..]);
      ConsEqual(a, b);
    } else {
      assert |multiset(b)| == 0;
    }
  }

  /** SortDesc returns the one non-increasing arrangement of the elements of `s`. */
  lemma SortDescIs(s: seq<int>, t: seq<int>)
    requires NonIncreasing(t) && multiset(t) == multiset(s)
    ensures SortDesc(s) == t
  {
    SortDescSorted(s);
    SortDescPerm(s);
    SortedDescUnique(SortDesc(s), t);
  }

  /** SortAsc returns the one non-decreasing arrangement of the elements of `s`. */
  lemma SortAscIs(s: seq<int>, t: seq<int>)
    requires NonDecreasing(t) && multiset(t) == multiset(s)
    ensures SortAsc(s) == t
  {
    SortAscSorted(s);
    SortAscPerm(s);
    SortedAscUnique(SortAsc(s), t);
  }

  /** The sum of the elements, added from the front as an iterator's `sum` does. */
  function Sum(s: seq<int>): int
  {
    if s == [] then 0 else Sum(s[..|s| - 1]) + s[|s| - 1]
  }

  /** `n` zeros. */
  function Zeros(n: nat): (r: seq<int>)
    ensures |r| == n && forall k :: 0 <= k < n ==> r[k] == 0
  {
    seq(n, _ => 0)
  }
}
