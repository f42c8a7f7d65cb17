/** Day 10: the CPU with one register X. Each "addx v" line takes two cycles and adds v
    to X at the end of the second; every other line takes one cycle. Part 1 sums the
    signal strengths X·cycle on cycles 20, 60, 100, ...; part 2 draws a 40-column screen
    where a pixel is lit when the three-wide sprite centred on X covers it. */
module Day10 {
  import opened Text

  predicate IsAddx(line: string)
  {
    StartsWith(line, "addx")
  }

  /** The instruction stream: an "addx" line becomes "noop" followed by itself. */
  function Expand(lines: seq<string>): (r: seq<string>)
  {
    if lines == [] then []
    else
      var last := lines[|lines| - 1];
      Expand(lines[..|lines| - 1]) + (if IsAddx(last) then ["noop", last] else [last])
  }

  function CountAddx(lines: seq<string>): nat
  {
    if lines == [] then 0
    else CountAddx(lines[..|lines| - 1]) + (if IsAddx(lines[|lines| - 1]) then 1 else 0)
  }

  /** One cycle per line plus one more per addx. */
  lemma {:induction false} ExpandLength(lines: seq<string>)
    ensures |Expand(lines)| == |lines| + CountAddx(lines)
  {
    if lines != [] {
      ExpandLength(lines[..|lines| - 1]);
    }
  }

  predicate IsNoop(instr: string)
  {
    StartsWith(instr, "noop")
  }

  /** Any instruction not starting with "noop" is split at its first space and the rest
      parsed as an `isize`; both `unwrap`s panic otherwise. */
  predicate OperandOk(instr: string)
  {
    IsNoop(instr) || (SplitOnce(instr, " ").Some? && ParseInt(SplitOnce(instr, " ").value.1, I64_MIN, I64_MAX).Some?)
  }

  /** What an instruction adds to X at the end of its cycle. */
  function Delta(instr: string): int
    requires OperandOk(instr)
  {
    if IsNoop(instr) then 0 else ParseInt(SplitOnce(instr, " ").value.1, I64_MIN, I64_MAX).value
  }

  predicate StreamOk(s: seq<string>)
  {
    forall k :: 0 <= k < |s| ==> OperandOk(s[k])
  }

  /** X during cycle i (counting from 0): 1 plus every change of the cycles before. */
  function XDuring(s: seq<string>, i: nat): int
    requires i <= |s| && StreamOk(s)
  {
    if i == 0 then 1 else XDuring(s, i - 1) + Delta(s[i - 1])
  }

  /** The guard of `part_1`, written to avoid a `usize` underflow; it picks cycles
      20, 60, 100, ... (i = 19, 59, 99, ... counting from 0). */
  predicate Sampled(i: nat)
  {
    i % 40 >= 19 && i % 40 - 19 == 0
  }

  lemma SampledMeans(i: nat)
    ensures Sampled(i) <==> i % 40 == 19
  {
  }

  /** The signal strengths of cycles [0, n). */
  function SignalSum(s: seq<string>, n: nat): int
    requires n <= |s| && StreamOk(s)
  {
    if n == 0 then 0
    else SignalSum(s, n - 1) + (if Sampled(n - 1) then XDuring(s, n - 1) * n else 0)
  }

  predicate ProgramOk(input: string)
  {
    StreamOk(Expand(Lines(input)))
  }

  /** The end of one cycle: an instruction other than "noop" adds its operand to X. */
  method Execute(s: seq<string>, i: nat, x: int) returns (x': int)
    requires i < |s| && StreamOk(s) && x == XDuring(s, i)
    ensures x' == XDuring(s, i + 1)
  {
    x' := x;
    if !StartsWith(s[i], "noop") {
      var (_, val) := SplitOnce(s[i], " ").value;
      var v := ParseInt(val, I64_MIN, I64_MAX).value;
      x' := x + v;
    }
  }

  /** `part_1`: one pass over the stream with X and the sum in variables. */
  method Part1(input: string) returns (sum: int)
    requires ProgramOk(input)
    ensures sum == SignalSum(Expand(Lines(input)), |Expand(Lines(input))|)
  {
    sum := SumSignals(Expand(Lines(input)));
  }

  /** The loop of `part_1` over the instruction stream `s`. */
  method SumSignals(s: seq<string>) returns (sum: int)
    requires StreamOk(s)
    ensures sum == SignalSum(s, |s|)
  {
    var x := 1;
    sum := 0;
    for i := 0 to |s|
      invariant x == XDuring(s, i)
      invariant sum == SignalSum(s, i)
    {
      SignalStep(s, i, sum, x);
      if i % 40 >= 19 && i % 40 - 19 == 0 {
        sum := sum + x * (i + 1);
      }
      x := Execute(s, i, x);
    }
  }

  lemma SignalStep(s: seq<string>, i: nat, sum: int, x: int)
    requires i < |s| && StreamOk(s) && sum == SignalSum(s, i) && x == XDuring(s, i)
    ensures SignalSum(s, i + 1) == sum + (if Sampled(i) then x * (i + 1) else 0)
  {
  }

  /** X during each cycle of the stream. */
  function Trace(s: seq<string>): (xs: seq<int>)
    requires StreamOk(s)
    ensures |xs| == |s| && forall i :: 0 <= i < |s| ==> xs[i] == XDuring(s, i)
  {
    seq(|s|, i requires 0 <= i < |s| => XDuring(s, i))
  }

  /** Lit when the sprite (X−1 .. X+1) covers column i mod 40. */
  function PixelChar(x: int, i: nat): char
  {
    var dif := x - i % 40;
    if -1 <= dif <= 1 then '#' else '.'
  }

  /** What `part_2` prints for cycles [0, n), given X of each cycle: a line break before
      every 40th cycle's pixel, then the pixel. */
  function Screen(xs: seq<int>, n: nat): (r: string)
    requires n <= |xs|
  {
    if n == 0 then ""
    else Screen(xs, n - 1) + (if (n - 1) % 40 == 0 then "\n" else "") + [PixelChar(xs[n - 1], n - 1)]
  }

  lemma LayoutBound(i: nat, m: nat)
    requires i < m
    ensures i + i / 40 + 1 < m + (m + 39) / 40
  {
    assert i / 40 <= (m - 1) / 40;
  }

  lemma LayoutStep(m: nat)
    ensures (m + 40) / 40 == (m + 39) / 40 + (if m % 40 == 0 then 1 else 0)
    ensures m % 40 == 0 ==> m + m / 40 == m + (m + 39) / 40
    ensures m % 40 != 0 ==> m + m / 40 + 1 == m + (m + 39) / 40
  {
  }

  lemma {:induction false} ScreenLength(xs: seq<int>, n: nat)
    requires n <= |xs|
    ensures |Screen(xs, n)| == n + (n + 39) / 40
  {
    if n > 0 {
      ScreenLength(xs, n - 1);
      LayoutStep(n - 1);
    }
  }

  /** Cycle i's pixel sits at i + i/40 + 1 of the text. */
  lemma {:induction false} ScreenPixel(xs: seq<int>, n: nat, i: nat)
    requires n <= |xs| && i < n
    ensures i + i / 40 + 1 < |Screen(xs, n)|
    ensures Screen(xs, n)[i + i / 40 + 1] == PixelChar(xs[i], i)
    ensures i % 40 == 0 ==> Screen(xs, n)[i + i / 40] == '\n'
  {
    var m := n - 1;
    ScreenLength(xs, m);
    ScreenLength(xs, n);
    LayoutStep(m);
    if i < m {
      ScreenPixel(xs, m, i);
    }
  }

  /** The printed text: every 40-pixel row starts on a new line; cycle i's pixel sits at
      i + i/40 + 1, right after the line break at i + i/40 for a row start. */
  lemma ScreenLayout(xs: seq<int>, n: nat)
    requires n <= |xs|
    ensures |Screen(xs, n)| == n + (n + 39) / 40
    ensures forall i :: 0 <= i < n ==> Screen(xs, n)[i + i / 40 + 1] == PixelChar(xs[i], i)
    ensures forall i :: 0 <= i < n && i % 40 == 0 ==> Screen(xs, n)[i + i / 40] == '\n'
  {
    ScreenLength(xs, n);
    forall i | 0 <= i < n
      ensures Screen(xs, n)[i + i / 40 + 1] == PixelChar(xs[i], i)
      ensures i % 40 == 0 ==> Screen(xs, n)[i + i / 40] == '\n'
    {
      ScreenPixel(xs, n, i);
    }
  }

  /** One cycle of `part_2`'s loop: the line break before a row's first pixel, then the
      pixel for the sprite at X. */
  method DrawCycle(ghost xs: seq<int>, i: nat, x: int, screen: string) returns (screen': string)
    requires i < |xs| && x == xs[i]
    ensures screen' == screen + (if i % 40 == 0 then "\n" else "") + [PixelChar(xs[i], i)]
  {
    var brk := if i % 40 == 0 then "\n" else "";
    var dif := x - i % 40;
    var pixel := if -1 <= dif <= 1 then '#' else '.';
    screen' := screen + brk + [pixel];
  }

  /** `part_2`: the text it prints, built up in a loop; a final line break ends it. */
  method Part2(input: string) returns (screen: string)
    requires ProgramOk(input)
    ensures screen == Screen(Trace(Expand(Lines(input))), |Expand(Lines(input))|) + "\n"
  {
    var s := Expand(Lines(input));
    ghost var xs := Trace(s);
    var x := 1;
    screen := "";
    for i := 0 to |s|
      invariant x == XDuring(s, i)
      invariant screen == Screen(xs, i)
    {
      screen := DrawCycle(xs, i, x, screen);
      x := Execute(s, i, x);
    }
    screen := screen + "\n";
  }

  /** X during a cycle depends only on the cycles before it. */
  lemma {:induction false} XDuringPrefix(s: seq<string>, t: seq<string>, i: nat)
    requires StreamOk(s + t) && StreamOk(s) && i <= |s|
    ensures XDuring(s + t, i) == XDuring(s, i)
  {
    if i > 0 {
      XDuringPrefix(s, t, i - 1);
      XDuringSameStep(s + t, s, i);
    }
  }

  /** Streams that agree on X before cycle i - 1 and on instruction i - 1 agree on X
      during cycle i. */
  lemma XDuringSameStep(u: seq<string>, s: seq<string>, i: nat)
    requires StreamOk(u) && StreamOk(s) && 0 < i <= |s| && i <= |u|
    requires u[i - 1] == s[i - 1] && XDuring(u, i - 1) == XDuring(s, i - 1)
    ensures XDuring(u, i) == XDuring(s, i)
  {
  }

  predicate LinesOk(lines: seq<string>)
  {
    forall k :: 0 <= k < |lines| ==> OperandOk(lines[k])
  }

  function LinesSum(lines: seq<string>): int
    requires LinesOk(lines)
  {
    if lines == [] then 0 else LinesSum(lines[..|lines| - 1]) + Delta(lines[|lines| - 1])
  }

  /** The stream's instructions are the lines' instructions plus "noop"s. */
  lemma {:induction false} ExpandOk(lines: seq<string>)
    requires LinesOk(lines)
    ensures StreamOk(Expand(lines))
  {
    if lines != [] {
      ExpandOk(lines[..|lines| - 1]);
      assert IsNoop("noop");
    }
  }

  function Chunk(line: string): seq<string>
  {
    if IsAddx(line) then ["noop", line] else [line]
  }

  lemma ExpandSnoc(lines: seq<string>, k: nat)
    requires k < |lines|
    ensures Expand(lines[..k + 1]) == Expand(lines[..k]) + Chunk(lines[k])
  {
    assert lines[..k + 1][..k] == lines[..k];
  }

  /** Running one line's cycles after a stream adds that line's operand to X. */
  lemma XChunk(e: seq<string>, t: seq<string>, last: string)
    requires StreamOk(e) && StreamOk(e + t) && OperandOk(last) && t == Chunk(last)
    ensures XDuring(e + t, |e + t|) == XDuring(e, |e|) + Delta(last)
  {
    XDuringPrefix(e, t, |e|);
    var et := e + t;
    assert et[|e|] == t[0];
    if IsAddx(last) {
      assert IsNoop("noop");
      assert et[|e| + 1] == last;
      assert XDuring(et, |e| + 1) == XDuring(et, |e|);
    } else {
      assert t[0] == last;
    }
  }

  /** At the first cycle of line k, X is 1 plus the operands of the lines before it. */
  lemma {:induction false} XAtLine(lines: seq<string>, k: nat)
    requires LinesOk(lines) && k <= |lines|
    ensures StreamOk(Expand(lines[..k]))
    ensures XDuring(Expand(lines[..k]), |Expand(lines[..k])|) == 1 + LinesSum(lines[..k])
  {
    var pre := lines[..k];
    ExpandOk(pre);
    if k > 0 {
      XAtLine(lines, k - 1);
      var p := lines[..k - 1];
      var last := lines[k - 1];
      assert pre[..k - 1] == p && pre[k - 1] == last;
      assert LinesSum(pre) == LinesSum(p) + Delta(last);
      ExpandSnoc(lines, k - 1);
      XChunk(Expand(p), Chunk(last), last);
    }
  }

  /** An addx line keeps X unchanged through its second cycle: the change only shows
      after both. */
  lemma AddxHolds(lines: seq<string>, k: nat)
    requires LinesOk(lines) && k < |lines| && IsAddx(lines[k])
    ensures Expand(lines[..k + 1]) == Expand(lines[..k]) + ["noop", lines[k]]
    ensures StreamOk(Expand(lines[..k + 1]))
    ensures XDuring(Expand(lines[..k + 1]), |Expand(lines[..k])| + 1) == 1 + LinesSum(lines[..k])
  {
    ExpandSnoc(lines, k);
    ExpandOk(lines[..k + 1]);
    XAtLine(lines, k);
    var e := Expand(lines[..k]);
    XDuringPrefix(e, ["noop", lines[k]], |e|);
    assert IsNoop("noop");
  }

  lemma SmallExpand(lines: seq<string>)
    requires lines == ["noop", "addx 3", "addx -5"]
    ensures Expand(lines) == ["noop", "noop", "addx 3", "noop", "addx -5"]
  {
    var a, b, c := "noop", "addx 3", "addx -5";
    assert !IsAddx(a) by { assert a[..4] == "noop"; }
    assert IsAddx(b) by { assert b[..4] == "addx"; }
    assert IsAddx(c) by { assert c[..4] == "addx"; }
    assert lines[..1] == [a] && lines[..2] == [a, b] && lines[..2][..1] == [a];
    assert [a][..0] == [];
    assert Expand([a]) == [a];
    assert Expand([a, b]) == [a, "noop", b];
  }

  lemma AddxOperand(line: string, v: int)
    requires (line == "addx 3" && v == 3) || (line == "addx -5" && v == -5)
    ensures OperandOk(line) && !IsNoop(line) && Delta(line) == v
  {
    var digits := if v == 3 then "3" else "-5";
    assert line[..4] == "addx";
    assert line == "addx" + [' '] + digits;
    SplitOnceChar("addx", ' ', digits);
    assert IntToString(v) == digits;
    ParseIntToString(v, I64_MIN, I64_MAX);
  }

  lemma SmallStream(s: seq<string>)
    requires s == ["noop", "noop", "addx 3", "noop", "addx -5"]
    ensures StreamOk(s)
    ensures Delta(s[0]) == 0 && Delta(s[1]) == 0 && Delta(s[2]) == 3 && Delta(s[3]) == 0 && Delta(s[4]) == -5
  {
    assert OperandOk(s[0]) && Delta(s[0]) == 0 by {
      assert IsNoop(s[0]) by { assert s[0][..4] == "noop"; }
    }
    assert OperandOk(s[2]) && Delta(s[2]) == 3 by {
      AddxOperand("addx 3", 3);
    }
    assert OperandOk(s[4]) && Delta(s[4]) == -5 by {
      AddxOperand("addx -5", -5);
    }
    assert s[1] == s[0] && s[3] == s[0];
    forall k | 0 <= k < |s| ensures OperandOk(s[k]) {
      assert k == 0 || k == 1 || k == 2 || k == 3 || k == 4;
    }
  }

  /** The small program of the puzzle text, "noop", "addx 3", "addx -5": X is 1 during
      cycles 1 to 3, 4 during cycles 4 and 5, and −1 afterwards. */
  lemma SmallProgram(s: seq<string>)
    requires s == Expand(["noop", "addx 3", "addx -5"])
    ensures s == ["noop", "noop", "addx 3", "noop", "addx -5"]
    ensures StreamOk(s)
    ensures XDuring(s, 0) == 1 && XDuring(s, 1) == 1 && XDuring(s, 2) == 1
    ensures XDuring(s, 3) == 4 && XDuring(s, 4) == 4 && XDuring(s, 5) == -1
  {
    SmallExpand(["noop", "addx 3", "addx -5"]);
    SmallStream(s);
    SmallTrace(s);
  }

  /** X along a five-cycle stream whose changes are 0, 0, 3, 0, −5. */
  lemma SmallTrace(s: seq<string>)
    requires |s| == 5 && StreamOk(s)
    requires Delta(s[0]) == 0 && Delta(s[1]) == 0 && Delta(s[2]) == 3 && Delta(s[3]) == 0 && Delta(s[4]) == -5
    ensures XDuring(s, 0) == 1 && XDuring(s, 1) == 1 && XDuring(s, 2) == 1
    ensures XDuring(s, 3) == 4 && XDuring(s, 4) == 4 && XDuring(s, 5) == -1
  {
    assert XDuring(s, 1) == 1;
    assert XDuring(s, 2) == 1;
    assert XDuring(s, 3) == 4;
    assert XDuring(s, 4) == 4;
  }
}
