/** The fixed-size chunking iterator: `chunk::<A>()` wraps an iterator and yields its items
    in arrays of exactly A, dropping an incomplete final group. The inner iterator is
    modelled by the sequence of items it has left to give. */
module Chunk {
  import opened Wrappers
  import opened Text

  /** The arrays the iterator yields before its first None, for `size` >= 1. */
  function Chunks<T>(xs: seq<T>, size: nat): (r: seq<seq<T>>)
    requires size >= 1
    ensures forall k :: 0 <= k < |r| ==> |r[k]| == size
    decreases |xs|
  {
    if |xs| < size then [] else [xs[..size]] + Chunks(xs[size..], size)
  }

  function Concat<T>(ss: seq<seq<T>>): seq<T>
  {
    if ss == [] then [] else ss[0] + Concat(ss[1..])
  }

  /** The arrays together are the first size * (number of arrays) items, in order, and
      fewer than `size` items are left over. */
  lemma {:induction false} ChunksConcat<T>(xs: seq<T>, size: nat)
    requires size >= 1
    ensures size * |Chunks(xs, size)| <= |xs| < size * |Chunks(xs, size)| + size
    ensures Concat(Chunks(xs, size)) == xs[..size * |Chunks(xs, size)|]
    decreases |xs|
  {
    if |xs| >= size {
      var rest := xs[size..];
      var cs := Chunks(rest, size);
      var n := |cs|;
      ChunksConcat(rest, size);
      assert Chunks(xs, size) == [xs[..size]] + cs;
      ConcatCons(xs[..size], cs);
      assert size * (n + 1) == size * n + size;
      TakeAfterTake(xs, size, size * n);
    }
  }

  lemma ConcatCons<T>(a: seq<T>, cs: seq<seq<T>>)
    ensures Concat([a] + cs) == a + Concat(cs)
  {
    assert ([a] + cs)[1..] == cs;
  }

  lemma TakeAfterTake<T>(xs: seq<T>, a: nat, b: nat)
    requires a + b <= |xs|
    ensures xs[..a] + xs[a..][..b] == xs[..a + b]
  {
  }

  /** For A >= 1 and n items there are exactly floor(n / A) arrays, and together they are
      the first A * floor(n / A) items, in order. */
  lemma ChunksCover<T>(xs: seq<T>, size: nat)
    requires size >= 1
    ensures |Chunks(xs, size)| == |xs| / size
    ensures Concat(Chunks(xs, size)) == xs[..size * (|xs| / size)]
  {
    ChunksConcat(xs, size);
    var n := |Chunks(xs, size)|;
    DivUnique(|xs|, size, n, |xs| - size * n);
  }

  /** The k-th array holds the items from size * k up to size * (k + 1). */
  lemma {:induction false} ChunkAt<T>(xs: seq<T>, size: nat, k: nat)
    requires size >= 1 && k < |Chunks(xs, size)|
    ensures size * k + size <= |xs|
    ensures Chunks(xs, size)[k] == xs[size * k..size * k + size]
    decreases |xs|
  {
    var rest := xs[size..];
    assert Chunks(xs, size) == [xs[..size]] + Chunks(rest, size);
    if k > 0 {
      ChunkAt(rest, size, k - 1);
      var m := size * (k - 1);
      assert size * k == m + size;
      var p, q := rest[m..m + size], xs[size + m..size + m + size];
      forall j | 0 <= j < size ensures p[j] == q[j] {
        assert p[j] == rest[m + j] == xs[size + m + j];
      }
      assert p == q;
    }
  }

  /** Every array, by position: there are floor(n / size) of them and the k-th is the
      k-th run of `size` items. */
  lemma ChunksAt<T>(xs: seq<T>, size: nat)
    requires size >= 1
    ensures |Chunks(xs, size)| == |xs| / size
    ensures forall k :: 0 <= k < |xs| / size ==>
      size * k + size <= |xs| && Chunks(xs, size)[k] == xs[size * k..size * k + size]
  {
    ChunksCover(xs, size);
    forall k | 0 <= k < |xs| / size
      ensures size * k + size <= |xs| && Chunks(xs, size)[k] == xs[size * k..size * k + size]
    {
      ChunkAt(xs, size, k);
    }
  }

  /** Six items make two arrays of three. */
  lemma SixInThrees<T>(xs: seq<T>)
    requires |xs| == 6
    ensures Chunks(xs, 3) == [xs[..3], xs[3..]]
  {
    var rest := xs[3..];
    assert rest[..3] == rest && rest[3..] == [];
    assert Chunks(rest[3..], 3) == [];
    assert Chunks(rest, 3) == [rest];
  }

  lemma MulMono(b: int, x: int, y: int)
    requires b >= 0 && x <= y
    ensures b * x <= b * y
  {
    var d := y - x;
    assert b * y == b * x + b * d;
  }

  /** The quotient of Euclidean division is the only q with a == b * q + r, 0 <= r < b. */
  lemma DivUnique(a: int, b: int, q: int, r: int)
    requires b >= 1 && 0 <= r < b && a == b * q + r
    ensures a / b == q
  {
    var q0 := a / b;
    var r0 := a % b;
    assert a == b * q0 + r0;
    assert b * (q + 1) == b * q + b;
    assert b * (q0 + 1) == b * q0 + b;
    if q0 > q {
      MulMono(b, q + 1, q0);
      assert false;
    } else if q0 < q {
      MulMono(b, q0 + 1, q);
      assert false;
    }
  }

  /** `Chunk<I, A>`: the wrapped iterator and the array size. */
  class Chunk<T(0)> {
    /** The items the inner iterator has not yet given. */
    var rest: seq<T>
    const size: nat

    /** `ChunkIterator::chunk`: wrap an iterator. */
    constructor (items: seq<T>, size: nat)
      ensures rest == items && this.size == size
    {
      rest := items;
      this.size := size;
    }

    /** `next`: fill a fresh array slot by slot from the inner iterator. When the inner
        iterator runs dry part-way, the items taken so far are lost and the result is
        None. */
    method Next() returns (r: Option<seq<T>>)
      modifies this
      ensures |old(rest)| >= size ==> r == Some(old(rest)[..size]) && rest == old(rest)[size..]
      ensures |old(rest)| < size ==> r == None && rest == []
    {
      var arr := new T[size];
      var i := 0;
      while i < size
        invariant 0 <= i <= size
        invariant |old(rest)| >= i && rest == old(rest)[i..]
        invariant arr[..i] == old(rest)[..i]
      {
        if rest == [] {
          return None;
        }
        arr[i] := rest[0];
        rest := rest[1..];
        i := i + 1;
      }
      assert arr[..] == arr[..size];
      return Some(arr[..]);
    }

    /** Drive the iterator to its first None, collecting what it yields. For size 0 the
        iterator never ends, so that case is excluded. */
    method CollectAll() returns (out: seq<seq<T>>)
      requires size >= 1
      modifies this
      ensures out == Chunks(old(rest), size) && rest == []
    {
      out := [];
      ghost var start := rest;
      while true
        invariant |start| >= |rest| && rest == start[|start| - |rest|..]
        invariant out + Chunks(rest, size) == Chunks(start, size)
        decreases |rest|
      {
        ghost var before := rest;
        var r := Next();
        if r.None? {
          return;
        }
        out := out + [r.value];
        assert Chunks(before, size) == [r.value] + Chunks(rest, size);
      }
    }
  }

  /** The example: "1 2 3 4 5 6 7 8 9" split at ' ' and chunked by 3, each chunk joined
      with ',' and the chunks joined with '|'. */
  lemma ExampleChunks(input: string)
    requires input == "1 2 3 4 5 6 7 8 9"
    ensures SplitOn(input, " ") == ["1", "2", "3", "4", "5", "6", "7", "8", "9"]
    ensures Chunks(SplitOn(input, " "), 3) == [["1", "2", "3"], ["4", "5", "6"], ["7", "8", "9"]]
    ensures var cs := Chunks(SplitOn(input, " "), 3);
      Join([Join(cs[0], ","), Join(cs[1], ","), Join(cs[2], ",")], "|") == "1,2,3|4,5,6|7,8,9"
  {
    ExampleSplit(input);
    ExampleGroups(SplitOn(input, " "));
    ExampleAnswer(Chunks(SplitOn(input, " "), 3));
  }

  /** Splitting a string whose even positions hold non-space characters and whose odd
      positions hold single spaces gives one one-character piece per even position. */
  lemma {:induction false} SplitOnSingles(s: string)
    requires |s| % 2 == 1
    requires forall i :: 0 <= i < |s| ==> (s[i] == ' ' <==> i % 2 == 1)
    ensures var r := SplitOn(s, " ");
      |r| == |s| / 2 + 1 && forall k :: 0 <= k < |r| ==> r[k] == [s[2 * k]]
    decreases |s|
  {
    if |s| == 1 {
      assert s == [s[0]];
      SplitOnAbsent(s, ' ');
    } else {
      var b := s[2..];
      assert forall i :: 0 <= i < |b| ==> b[i] == s[i + 2];
      SplitOnSingles(b);
      assert s == [s[0]] + [' '] + b;
      SplitOnCons([s[0]], ' ', b);
      var r := SplitOn(s, " ");
      assert r == [[s[0]]] + SplitOn(b, " ");
      forall k | 1 <= k < |r| ensures r[k] == [s[2 * k]] {
        assert r[k] == SplitOn(b, " ")[k - 1] == [b[2 * (k - 1)]];
      }
    }
  }

  /** The example's text alternates digits and single spaces. */
  lemma ExampleText(input: string)
    requires input == "1 2 3 4 5 6 7 8 9"
    ensures |input| == 17
    ensures forall i :: 0 <= i < |input| ==> (input[i] == ' ' <==> i % 2 == 1)
    ensures input[0] == '1' && input[2] == '2' && input[4] == '3' && input[6] == '4' && input[8] == '5'
    ensures input[10] == '6' && input[12] == '7' && input[14] == '8' && input[16] == '9'
  {
  }

  /** The example's text splits at ' ' into its nine digits. */
  lemma ExampleSplit(input: string)
    requires input == "1 2 3 4 5 6 7 8 9"
    ensures SplitOn(input, " ") == ["1", "2", "3", "4", "5", "6", "7", "8", "9"]
  {
    ExampleText(input);
    SplitOnSingles(input);
    var r := SplitOn(input, " ");
    assert r[0] == [input[0]] && r[1] == [input[2]] && r[2] == [input[4]];
    assert r[3] == [input[6]] && r[4] == [input[8]] && r[5] == [input[10]];
    assert r[6] == [input[12]] && r[7] == [input[14]] && r[8] == [input[16]];
  }

  /** The nine digits fall into three chunks of three. */
  lemma ExampleGroups(items: seq<string>)
    requires items == ["1", "2", "3", "4", "5", "6", "7", "8", "9"]
    ensures Chunks(items, 3) == [["1", "2", "3"], ["4", "5", "6"], ["7", "8", "9"]]
  {
    var a := items[3..];
    var b := a[3..];
    assert items[..3] == ["1", "2", "3"];
    assert a[..3] == ["4", "5", "6"];
    assert b[..3] == ["7", "8", "9"];
    assert b[3..] == [];
    assert Chunks(b, 3) == [["7", "8", "9"]];
    assert Chunks(a, 3) == [["4", "5", "6"], ["7", "8", "9"]];
  }

  /** Three pieces joined with `sep`. */
  lemma JoinThree(c: seq<string>, sep: string)
    requires |c| == 3
    ensures Join(c, sep) == c[0] + sep + c[1] + sep + c[2]
  {
    assert c[1..][1..] == [c[2]];
    assert Join(c[1..], sep) == c[1] + sep + c[2];
    assert c[0] + sep + (c[1] + sep + c[2]) == c[0] + sep + c[1] + sep + c[2];
  }

  /** The example's chunks, each joined with ',' and then joined with '|'. */
  lemma ExampleAnswer(cs: seq<seq<string>>)
    requires cs == [["1", "2", "3"], ["4", "5", "6"], ["7", "8", "9"]]
    ensures Join([Join(cs[0], ","), Join(cs[1], ","), Join(cs[2], ",")], "|") == "1,2,3|4,5,6|7,8,9"
  {
    JoinThree(cs[0], ",");
    JoinThree(cs[1], ",");
    JoinThree(cs[2], ",");
    var a, b, c := Join(cs[0], ","), Join(cs[1], ","), Join(cs[2], ",");
    assert a == "1,2,3" && b == "4,5,6" && c == "7,8,9";
    JoinThree([a, b, c], "|");
  }

}
