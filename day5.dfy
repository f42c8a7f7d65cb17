/** Day 5: supply stacks. The drawing above the blank line gives the stacks of crates,
    the lines below it the crane moves. A stack is a double-ended queue whose front is
    the top crate; the drawing is read top-down and each crate is pushed to the back. */
module Day5 {
  import opened Wrappers
  import opened Text

  /** The stacks, each listed from top to bottom. */
  type Stacks = seq<seq<char>>

  function TotalCrates(v: Stacks): nat
  {
    if v == [] then 0 else TotalCrates(v[..|v| - 1]) + |v[|v| - 1]|
  }

  lemma {:induction false} TotalCratesUpdate(v: Stacks, i: nat, s: seq<char>)
    requires i < |v|
    ensures TotalCrates(v[i := s]) == TotalCrates(v) - |v[i]| + |s|
    decreases |v|
  {
    var n := |v| - 1;
    if i < n {
      TotalCratesUpdate(v[..n], i, s);
      assert v[i := s][..n] == v[..n][i := s];
    } else {
      assert v[i := s][..n] == v[..n];
    }
  }

  // ---------------------------------------------------------------- instructions

  /** A move: how many crates, from which stack, to which stack (0-based). */
  datatype Move = Move(count: nat, from: nat, to: nat)

  /** The numbers of an instruction line: the words that parse as `usize`. */
  function InstructionNumbers(line: string): seq<int>
  {
    ParsedNats(SplitOn(line, " "), USIZE_MAX)
  }

  /** An instruction `parse_instruction` and the parts accept: at least three numbers
      (they index `[0]`, `[1]`, `[2]`), none of them 0 (`i - 1` would underflow). */
  predicate InstructionOk(line: string)
  {
    var ns := InstructionNumbers(line);
    |ns| >= 3 && forall k :: 0 <= k < |ns| ==> ns[k] >= 1
  }

  /** `parse_instruction`: every number minus one, the words dropped. */
  function ParseInstruction(line: string): (r: seq<int>)
    requires InstructionOk(line)
    ensures |r| == |InstructionNumbers(line)| >= 3
    ensures forall k :: 0 <= k < |r| ==> r[k] >= 0 && r[k] + 1 == InstructionNumbers(line)[k]
  {
    var ns := InstructionNumbers(line);
    seq(|ns|, k requires 0 <= k < |ns| => ns[k] - 1)
  }

  /** "move n from a to b" as a move of n crates from stack a - 1 to stack b - 1; the loop
      `0..=instruction[0]` runs n times. */
  function ParseMove(line: string): (m: Move)
    requires InstructionOk(line)
    ensures m.count == InstructionNumbers(line)[0]
    ensures m.from + 1 == InstructionNumbers(line)[1] && m.to + 1 == InstructionNumbers(line)[2]
  {
    var ins := ParseInstruction(line);
    Move(ins[0] + 1, ins[1], ins[2])
  }

  /** The instruction line that describes a move: "move n from a to b", the words
      separated by single spaces. */
  function FormatMove(m: Move): string
    requires m.count >= 1
  {
    Join(["move", NatToString(m.count), "from", NatToString(m.from + 1), "to", NatToString(m.to + 1)], " ")
  }

  lemma MoveWords(m: Move, words: seq<string>)
    requires m.count >= 1
    requires words == ["move", NatToString(m.count), "from", NatToString(m.from + 1), "to", NatToString(m.to + 1)]
    ensures Words(FormatMove(m)) == words
  {
    NatToStringNoChar(m.count, ' ');
    NatToStringNoChar(m.from + 1, ' ');
    NatToStringNoChar(m.to + 1, ' ');
    assert forall k :: 0 <= k < |words| ==> ' ' !in words[k];
    SplitOnJoin(words, ' ');
  }

  /** Six words, every other one a number, give the three numbers. */
  lemma ParsedThree(words: seq<string>, x: nat, y: nat, z: nat)
    requires |words| == 6
    requires ParseNat(words[0], USIZE_MAX).None? && ParseNat(words[2], USIZE_MAX).None? && ParseNat(words[4], USIZE_MAX).None?
    requires ParseNat(words[1], USIZE_MAX) == Some(x) && ParseNat(words[3], USIZE_MAX) == Some(y)
    requires ParseNat(words[5], USIZE_MAX) == Some(z)
    ensures ParsedNats(words, USIZE_MAX) == [x, y, z]
  {
    assert words[..0] == [];
    ParsedNatsSkip(words, 0, USIZE_MAX, []);
    ParsedNatsTake(words, 1, USIZE_MAX, [], x);
    ParsedNatsSkip(words, 2, USIZE_MAX, [x]);
    ParsedNatsTake(words, 3, USIZE_MAX, [x], y);
    ParsedNatsSkip(words, 4, USIZE_MAX, [x, y]);
    ParsedNatsTake(words, 5, USIZE_MAX, [x, y], z);
    assert words[..6] == words;
  }

  lemma WordsNumbers(words: seq<string>, x: nat, y: nat, z: nat)
    requires x <= USIZE_MAX && y <= USIZE_MAX && z <= USIZE_MAX
    requires words == ["move", NatToString(x), "from", NatToString(y), "to", NatToString(z)]
    ensures ParsedNats(words, USIZE_MAX) == [x, y, z]
  {
    ParseNatToString(x, USIZE_MAX);
    ParseNatToString(y, USIZE_MAX);
    ParseNatToString(z, USIZE_MAX);
    assert words[0] == "move" && words[2] == "from" && words[4] == "to";
    NotNumber(words[0], USIZE_MAX);
    NotNumber(words[2], USIZE_MAX);
    NotNumber(words[4], USIZE_MAX);
    ParsedThree(words, x, y, z);
  }

  /** Reading back the line of a move gives the move: the words are dropped and each
      number is taken down by one. */
  lemma ParseFormatMove(m: Move)
    requires m.count >= 1 && m.count <= USIZE_MAX && m.from < USIZE_MAX && m.to < USIZE_MAX
    ensures InstructionOk(FormatMove(m)) && ParseMove(FormatMove(m)) == m
  {
    var words := ["move", NatToString(m.count), "from", NatToString(m.from + 1), "to", NatToString(m.to + 1)];
    MoveWords(m, words);
    WordsNumbers(words, m.count, m.from + 1, m.to + 1);
  }

  // ---------------------------------------------------------------- the crane, one crate at a time

  /** `pop_front` from one stack and `push_front` onto another. */
  function MoveCrate(v: Stacks, from: nat, to: nat): (w: Stacks)
    requires from < |v| && to < |v| && |v[from]| >= 1
    ensures |w| == |v|
  {
    var c := v[from][0];
    var u := v[from := v[from][1..]];
    u[to := [c] + u[to]]
  }

  /** The crates a single-crate move needs on its source stack: all n when the stacks
      differ, one when a crate is put back where it came from. */
  function Needed9000(m: Move): nat
  {
    if m.count == 0 then 0 else if m.from == m.to then 1 else m.count
  }

  predicate Fits(v: Stacks, m: Move)
  {
    m.from < |v| && m.to < |v|
  }

  /** n single-crate moves. */
  function Crane9000(v: Stacks, from: nat, to: nat, n: nat): (w: Stacks)
    requires from < |v| && to < |v| && |v[from]| >= Needed9000(Move(n, from, to))
    ensures |w| == |v|
    decreases n
  {
    if n == 0 then v
    else
      var u := MoveCrate(v, from, to);
      assert |u[from]| >= Needed9000(Move(n - 1, from, to));
      Crane9000(u, from, to, n - 1)
  }

  function Reverse<T>(s: seq<T>): (r: seq<T>)
    ensures |r| == |s|
    ensures forall k :: 0 <= k < |s| ==> r[k] == s[|s| - 1 - k]
  {
    if s == [] then [] else Reverse(s[1..]) + [s[0]]
  }

  /** Moving n crates one at a time between different stacks puts the top n crates onto
      the destination in reversed order, and changes no other stack. */
  lemma {:induction false} Crane9000Effect(v: Stacks, from: nat, to: nat, n: nat)
    requires from < |v| && to < |v| && from != to && |v[from]| >= n
    ensures Crane9000(v, from, to, n)[from] == v[from][n..]
    ensures Crane9000(v, from, to, n)[to] == Reverse(v[from][..n]) + v[to]
    ensures forall i :: 0 <= i < |v| && i != from && i != to ==> Crane9000(v, from, to, n)[i] == v[i]
    decreases n
  {
    if n > 0 {
      var u := MoveCrate(v, from, to);
      Crane9000Effect(u, from, to, n - 1);
      assert u[from] == v[from][1..];
      assert u[from][n - 1..] == v[from][n..];
      assert u[from][..n - 1] == v[from][1..n];
      assert Reverse(v[from][..n]) == Reverse(v[from][1..n]) + [v[from][0]] by {
        assert v[from][..n][1..] == v[from][1..n];
      }
    }
  }

  /** A crate taken from a stack and put back on it leaves every stack as it was. */
  lemma {:induction false} Crane9000Same(v: Stacks, from: nat, n: nat)
    requires from < |v| && |v[from]| >= Needed9000(Move(n, from, from))
    ensures Crane9000(v, from, from, n) == v
    decreases n
  {
    if n > 0 {
      var u := MoveCrate(v, from, from);
      assert u[from] == [v[from][0]] + v[from][1..] == v[from];
      assert u == v;
      Crane9000Same(u, from, n - 1);
    }
  }

  /** Single-crate moves neither create nor destroy crates. */
  lemma {:induction false} Crane9000Conserves(v: Stacks, from: nat, to: nat, n: nat)
    requires from < |v| && to < |v| && |v[from]| >= Needed9000(Move(n, from, to))
    ensures TotalCrates(Crane9000(v, from, to, n)) == TotalCrates(v)
    decreases n
  {
    if n > 0 {
      var c := v[from][0];
      var u1 := v[from := v[from][1..]];
      TotalCratesUpdate(v, from, v[from][1..]);
      TotalCratesUpdate(u1, to, [c] + u1[to]);
      var u := MoveCrate(v, from, to);
      assert |u[from]| >= Needed9000(Move(n - 1, from, to));
      Crane9000Conserves(u, from, to, n - 1);
    }
  }

  // ---------------------------------------------------------------- the crane, a block at a time

  function Min(a: int, b: int): int { if a <= b then a else b }

  /** What a block move indexes: the source stack always, the destination only when a
      crate was taken, since the pushes run over the crates popped. */
  predicate CraneOk9001(v: Stacks, from: nat, to: nat, n: nat)
  {
    from < |v| && (to < |v| || Min(n, |v[from]|) == 0)
  }

  /** The second crane: the top min(n, size) crates of the source, kept in their order,
      go on top of the destination (`flat_map` over `pop_front` stops taking when the
      source runs dry). When nothing is taken nothing changes, whatever the destination. */
  function Crane9001(v: Stacks, from: nat, to: nat, n: nat): (w: Stacks)
    requires CraneOk9001(v, from, to, n)
    ensures |w| == |v|
    ensures Min(n, |v[from]|) == 0 ==> w == v
    ensures from != to ==> w[from] == v[from][Min(n, |v[from]|)..]
    ensures from != to && to < |v| ==> w[to] == v[from][..Min(n, |v[from]|)] + v[to]
    ensures forall i :: 0 <= i < |v| && i != from && i != to ==> w[i] == v[i]
    ensures from == to ==> w == v
  {
    var k := Min(n, |v[from]|);
    if k == 0 then
      assert v[from][k..] == v[from];
      v
    else
      var block := v[from][..k];
      var u := v[from := v[from][k..]];
      assert from == to ==> block + u[to] == v[from];
      u[to := block + u[to]]
  }

  lemma Crane9001Conserves(v: Stacks, from: nat, to: nat, n: nat)
    requires CraneOk9001(v, from, to, n)
    ensures TotalCrates(Crane9001(v, from, to, n)) == TotalCrates(v)
  {
    var k := Min(n, |v[from]|);
    if k > 0 {
      var u := v[from := v[from][k..]];
      TotalCratesUpdate(v, from, v[from][k..]);
      TotalCratesUpdate(u, to, v[from][..k] + u[to]);
    }
  }

  // ---------------------------------------------------------------- running a program

  /** Every move of the first crane finds its stacks and enough crates. */
  predicate CanRun9000(v: Stacks, ms: seq<Move>)
    decreases |ms|
  {
    ms == [] ||
    (Fits(v, ms[0]) && |v[ms[0].from]| >= Needed9000(ms[0])
     && CanRun9000(Crane9000(v, ms[0].from, ms[0].to, ms[0].count), ms[1..]))
  }

  function Run9000(v: Stacks, ms: seq<Move>): (w: Stacks)
    requires CanRun9000(v, ms)
    ensures |w| == |v|
    decreases |ms|
  {
    if ms == [] then v else Run9000(Crane9000(v, ms[0].from, ms[0].to, ms[0].count), ms[1..])
  }

  /** Every move of the second crane names an existing source stack, and an existing
      destination whenever it takes a crate. */
  predicate CanRun9001(v: Stacks, ms: seq<Move>)
    decreases |ms|
  {
    ms == [] ||
    (CraneOk9001(v, ms[0].from, ms[0].to, ms[0].count)
     && CanRun9001(Crane9001(v, ms[0].from, ms[0].to, ms[0].count), ms[1..]))
  }

  function Run9001(v: Stacks, ms: seq<Move>): (w: Stacks)
    requires CanRun9001(v, ms)
    ensures |w| == |v|
    decreases |ms|
  {
    if ms == [] then v else Run9001(Crane9001(v, ms[0].from, ms[0].to, ms[0].count), ms[1..])
  }

  /** Both cranes keep the number of crates. */
  lemma {:induction false} RunsConserve(v: Stacks, ms: seq<Move>)
    ensures CanRun9000(v, ms) ==> TotalCrates(Run9000(v, ms)) == TotalCrates(v)
    ensures CanRun9001(v, ms) ==> TotalCrates(Run9001(v, ms)) == TotalCrates(v)
    decreases |ms|
  {
    if ms != [] {
      var m := ms[0];
      if CanRun9000(v, ms) {
        Crane9000Conserves(v, m.from, m.to, m.count);
        RunsConserve(Crane9000(v, m.from, m.to, m.count), ms[1..]);
      }
      if CanRun9001(v, ms) {
        Crane9001Conserves(v, m.from, m.to, m.count);
        RunsConserve(Crane9001(v, m.from, m.to, m.count), ms[1..]);
      }
    }
  }

  /** The top crate of every stack, in stack order; every stack must hold one. */
  function Tops(v: Stacks): (r: string)
    requires forall i :: 0 <= i < |v| ==> |v[i]| >= 1
    ensures |r| == |v| && forall i :: 0 <= i < |v| ==> r[i] == v[i][0]
  {
    seq(|v|, i requires 0 <= i < |v| => v[i][0])
  }

  // ---------------------------------------------------------------- the drawing

  /** The number of stacks: the last character of the label line, a decimal digit. */
  predicate LabelOk(lines: seq<string>)
  {
    |lines| >= 1 && |TrimEnd(lines[|lines| - 1])| >= 1
    && IsDigit(TrimEnd(lines[|lines| - 1])[|TrimEnd(lines[|lines| - 1])| - 1])
  }

  function StackCount(lines: seq<string>): (n: nat)
    requires LabelOk(lines)
    ensures n <= 9
  {
    var t := TrimEnd(lines[|lines| - 1]);
    (t[|t| - 1] - '0') as nat
  }

  /** A three-character word of the drawing is a crate "[X]". */
  predicate IsCrate(tok: string) { |tok| == 3 }

  /** The state of the scan of one line: the stacks and the column counter. */
  datatype Scan = Scan(v: Stacks, counter: nat)

  /** One word of a drawing line. Words that are not crates advance the column on every
      fourth word; a crate goes to the back of stack `counter % len`. */
  function ScanWord(s: Scan, i: nat, tok: string, len: nat): (r: Scan)
    requires |s.v| == len && (IsCrate(tok) ==> len >= 1)
    ensures |r.v| == len
  {
    if !IsCrate(tok) then (if i % 4 == 0 then Scan(s.v, s.counter + 1) else s)
    else
      var k := s.counter % len;
      Scan(s.v[k := s.v[k] + [tok[1]]], s.counter + 1)
  }

  predicate NoCrates(toks: seq<string>)
  {
    forall i :: 0 <= i < |toks| ==> !IsCrate(toks[i])
  }

  /** The words `toks[i..]` of a line, scanned from `s`. */
  function ScanWords(s: Scan, toks: seq<string>, i: nat, len: nat): (r: Stacks)
    requires i <= |toks| && |s.v| == len && (len == 0 ==> NoCrates(toks))
    ensures |r| == len
    decreases |toks| - i
  {
    if i == |toks| then s.v else ScanWords(ScanWord(s, i, toks[i], len), toks, i + 1, len)
  }

  function Words(line: string): seq<string>
  {
    SplitOn(line, " ")
  }

  /** What `build_original` asks of the drawing: a label line ending in a digit, no crate
      when that digit is 0 (the index would be taken modulo 0), and ASCII lines, where a
      word's byte length and its second byte are its char length and second char. */
  predicate DrawingOk(lines: seq<string>)
  {
    LabelOk(lines) && (StackCount(lines) == 0 ==> forall j :: 0 <= j < |lines| ==> NoCrates(Words(lines[j])))
    && forall j :: 0 <= j < |lines| ==> Ascii(lines[j])
  }

  /** The drawing lines `lines[j..]` scanned into `v`, each line with a fresh counter. */
  function ScanLines(v: Stacks, lines: seq<string>, j: nat, len: nat): (r: Stacks)
    requires j <= |lines| && |v| == len
    requires len == 0 ==> forall j :: 0 <= j < |lines| ==> NoCrates(Words(lines[j]))
    ensures |r| == len
    decreases |lines| - j
  {
    if j == |lines| then v else ScanLines(ScanWords(Scan(v, 0), Words(lines[j]), 0, len), lines, j + 1, len)
  }

  function EmptyStacks(n: nat): (v: Stacks)
    ensures |v| == n && forall i :: 0 <= i < n ==> v[i] == []
  {
    seq(n, _ => [])
  }

  /** `build_original`, as a function of the drawing. */
  function Drawing(original: string): Stacks
    requires DrawingOk(Lines(original))
  {
    var lines := Lines(original);
    ScanLines(EmptyStacks(StackCount(lines)), lines, 0, StackCount(lines))
  }

  /** The number of crate words among `toks[i..]`. */
  function CrateWords(toks: seq<string>, i: nat): nat
    requires i <= |toks|
    decreases |toks| - i
  {
    if i == |toks| then 0 else (if IsCrate(toks[i]) then 1 else 0) + CrateWords(toks, i + 1)
  }

  /** Every crate word of the drawing adds exactly one crate to some stack. */
  lemma {:induction false} ScanWordsCount(s: Scan, toks: seq<string>, i: nat, len: nat)
    requires i <= |toks| && |s.v| == len && (len == 0 ==> NoCrates(toks))
    ensures TotalCrates(ScanWords(s, toks, i, len)) == TotalCrates(s.v) + CrateWords(toks, i)
    decreases |toks| - i
  {
    if i < |toks| {
      var s2 := ScanWord(s, i, toks[i], len);
      if IsCrate(toks[i]) {
        var k := s.counter % len;
        TotalCratesUpdate(s.v, k, s.v[k] + [toks[i][1]]);
      }
      ScanWordsCount(s2, toks, i + 1, len);
    }
  }

  /** The stacks only ever grow at the back while the drawing is scanned, so what is in a
      stack before a line is scanned stays at its top. */
  lemma {:induction false} ScanWordsAppends(s: Scan, toks: seq<string>, i: nat, len: nat, k: nat)
    requires i <= |toks| && |s.v| == len && (len == 0 ==> NoCrates(toks)) && k < len
    ensures |ScanWords(s, toks, i, len)[k]| >= |s.v[k]|
    ensures ScanWords(s, toks, i, len)[k][..|s.v[k]|] == s.v[k]
    decreases |toks| - i
  {
    if i < |toks| {
      var s2 := ScanWord(s, i, toks[i], len);
      ScanWordsAppends(s2, toks, i + 1, len, k);
      assert s2.v[k][..|s.v[k]|] == s.v[k];
    }
  }

  // ---------------------------------------------------------------- the imperative parts

  /** `build_original`: a vector of `len` empty stacks, then every line of the drawing
      word by word. */
  method BuildOriginal(original: string) returns (v: Stacks)
    requires DrawingOk(Lines(original))
    ensures v == Drawing(original)
  {
    var lines := Lines(original);
    v := ScanDrawing(lines, StackCount(lines));
  }

  /** The outer loop of `build_original`: every line of the drawing scanned into `len`
      empty stacks. */
  method ScanDrawing(lines: seq<string>, len: nat) returns (v: Stacks)
    requires len == 0 ==> forall j :: 0 <= j < |lines| ==> NoCrates(Words(lines[j]))
    ensures v == ScanLines(EmptyStacks(len), lines, 0, len)
  {
    v := EmptyStacks(len);
    for j := 0 to |lines|
      invariant |v| == len
      invariant ScanLines(v, lines, j, len) == ScanLines(EmptyStacks(len), lines, 0, len)
    {
      v := ScanLine(v, Words(lines[j]), len);
    }
  }

  /** The inner loop of `build_original`: one line of the drawing, word by word, with the
      column counter starting at 0. */
  method ScanLine(v0: Stacks, toks: seq<string>, len: nat) returns (v: Stacks)
    requires |v0| == len && (len == 0 ==> NoCrates(toks))
    ensures v == ScanWords(Scan(v0, 0), toks, 0, len)
  {
    v := v0;
    var counter: nat := 0;
    for i := 0 to |toks|
      invariant |v| == len
      invariant ScanWords(Scan(v, counter), toks, i, len) == ScanWords(Scan(v0, 0), toks, 0, len)
    {
      var cr := toks[i];
      if |cr| != 3 {
        if i % 4 == 0 {
          counter := counter + 1;
        }
        continue;
      }
      var k := counter % len;
      v := v[k := v[k] + [cr[1]]];
      counter := counter + 1;
    }
  }

  /** The moves of the instruction lines. */
  function Moves(lines: seq<string>): (ms: seq<Move>)
    requires forall k :: 0 <= k < |lines| ==> InstructionOk(lines[k])
    ensures |ms| == |lines| && forall k :: 0 <= k < |lines| ==> ms[k] == ParseMove(lines[k])
  {
    seq(|lines|, k requires 0 <= k < |lines| => ParseMove(lines[k]))
  }

  /** What both parts ask of the input: a blank line, a drawing, well-formed
      instructions. */
  predicate InputOk(input: string)
  {
    SplitOnce(input, "\n\n").Some?
    && DrawingOk(Lines(SplitOnce(input, "\n\n").value.0))
    && forall k :: 0 <= k < |Lines(SplitOnce(input, "\n\n").value.1)| ==> InstructionOk(Lines(SplitOnce(input, "\n\n").value.1)[k])
  }

  function InitialStacks(input: string): Stacks
    requires InputOk(input)
  {
    Drawing(SplitOnce(input, "\n\n").value.0)
  }

  function Program(input: string): seq<Move>
    requires InputOk(input)
  {
    Moves(Lines(SplitOnce(input, "\n\n").value.1))
  }

  /** `pop_front().unwrap()` then `push_front` on the destination. */
  method PopPush(v: Stacks, from: nat, to: nat) returns (w: Stacks)
    requires from < |v| && to < |v| && |v[from]| >= 1
    ensures w == MoveCrate(v, from, to)
  {
    var val := v[from][0];
    w := v[from := v[from][1..]];
    w := w[to := [val] + w[to]];
  }

  /** The inner loop of `part_1`: n single-crate moves. */
  method MoveOneByOne(v: Stacks, from: nat, to: nat, n: nat) returns (w: Stacks)
    requires from < |v| && to < |v| && |v[from]| >= Needed9000(Move(n, from, to))
    ensures w == Crane9000(v, from, to, n)
  {
    w := v;
    for c := 0 to n
      invariant |w| == |v|
      invariant |w[from]| >= Needed9000(Move(n - c, from, to))
      invariant Crane9000(w, from, to, n - c) == Crane9000(v, from, to, n)
    {
      w := PopPush(w, from, to);
    }
  }

  /** The answer: `pop_front().unwrap()` of every stack, collected into a string. */
  method TopCrates(v: Stacks) returns (answer: string)
    requires forall i :: 0 <= i < |v| ==> |v[i]| >= 1
    ensures answer == Tops(v)
  {
    answer := "";
    for i := 0 to |v|
      invariant answer == Tops(v)[..i]
    {
      answer := answer + [v[i][0]];
    }
  }

  /** `part_1`: the first crane, then the top crate of every stack. Running out of crates
      on a source stack, or ending with an empty stack, panics in the source. */
  method Part1(input: string) returns (answer: string)
    requires InputOk(input)
    requires CanRun9000(InitialStacks(input), Program(input))
    requires forall i :: 0 <= i < |Run9000(InitialStacks(input), Program(input))| ==> |Run9000(InitialStacks(input), Program(input))[i]| >= 1
    ensures answer == Tops(Run9000(InitialStacks(input), Program(input)))
  {
    var (original, rest) := SplitOnce(input, "\n\n").value;
    var v := BuildOriginal(original);
    v := Apply9000(v, Lines(rest));
    answer := TopCrates(v);
  }

  /** The loop of `part_1` over the instruction lines. */
  method Apply9000(v0: Stacks, lines: seq<string>) returns (v: Stacks)
    requires forall k :: 0 <= k < |lines| ==> InstructionOk(lines[k])
    requires CanRun9000(v0, Moves(lines))
    ensures v == Run9000(v0, Moves(lines))
  {
    v := v0;
    ghost var ms := Moves(lines);
    for j := 0 to |lines|
      invariant CanRun9000(v, ms[j..])
      invariant Run9000(v, ms[j..]) == Run9000(v0, ms)
    {
      Run9000Step(v, ms, j);
      var instruction := ParseInstruction(lines[j]);
      assert ms[j] == Move(instruction[0] + 1, instruction[1], instruction[2]);
      v := MoveOneByOne(v, instruction[1], instruction[2], instruction[0] + 1);
    }
  }

  /** The first of the remaining moves can run, and the rest run from where it leaves the
      stacks. */
  lemma Run9000Step(v: Stacks, ms: seq<Move>, j: nat)
    requires j < |ms| && CanRun9000(v, ms[j..])
    ensures Fits(v, ms[j]) && |v[ms[j].from]| >= Needed9000(ms[j])
    ensures var w := Crane9000(v, ms[j].from, ms[j].to, ms[j].count);
      CanRun9000(w, ms[j + 1..]) && Run9000(v, ms[j..]) == Run9000(w, ms[j + 1..])
  {
    assert ms[j..][0] == ms[j];
    assert ms[j..][1..] == ms[j + 1..];
  }

  /** The loop of `part_2` over the instruction lines. */
  method Apply9001(v0: Stacks, lines: seq<string>) returns (v: Stacks)
    requires forall k :: 0 <= k < |lines| ==> InstructionOk(lines[k])
    requires CanRun9001(v0, Moves(lines))
    ensures v == Run9001(v0, Moves(lines))
  {
    v := v0;
    ghost var ms := Moves(lines);
    for j := 0 to |lines|
      invariant CanRun9001(v, ms[j..])
      invariant Run9001(v, ms[j..]) == Run9001(v0, ms)
    {
      Run9001Step(v, ms, j);
      var instruction := ParseInstruction(lines[j]);
      assert ms[j] == Move(instruction[0] + 1, instruction[1], instruction[2]);
      v := BlockMove(v, instruction[1], instruction[2], instruction[0] + 1);
    }
  }

  /** The first of the remaining block moves can run, and the rest run from where it
      leaves the stacks. */
  lemma Run9001Step(v: Stacks, ms: seq<Move>, j: nat)
    requires j < |ms| && CanRun9001(v, ms[j..])
    ensures CraneOk9001(v, ms[j].from, ms[j].to, ms[j].count)
    ensures var w := Crane9001(v, ms[j].from, ms[j].to, ms[j].count);
      CanRun9001(w, ms[j + 1..]) && Run9001(v, ms[j..]) == Run9001(w, ms[j + 1..])
  {
    assert ms[j..][0] == ms[j];
    assert ms[j..][1..] == ms[j + 1..];
  }

  /** The block move of the second crane as the source writes it: pop up to n crates into
      a vector, then push them back onto the destination from the last to the first. */
  method BlockMove(v: Stacks, from: nat, to: nat, n: nat) returns (w: Stacks)
    requires CraneOk9001(v, from, to, n)
    ensures w == Crane9001(v, from, to, n)
  {
    w := v;
    var taken: seq<char> := [];
    for c := 0 to n
      invariant |w| == |v|
      invariant |taken| == Min(c, |v[from]|)
      invariant taken == v[from][..|taken|]
      invariant w == v[from := v[from][|taken|..]]
    {
      if |w[from]| > 0 {
        taken := taken + [w[from][0]];
        w := w[from := w[from][1..]];
      }
    }
    if |taken| == 0 {
      assert v[from][0..] == v[from];
      return;
    }
    var i := |taken|;
    ghost var mid := w;
    assert taken[i..] == [] && [] + mid[to] == mid[to];
    assert w == mid[to := taken[i..] + mid[to]];
    while i > 0
      invariant 0 <= i <= |taken|
      invariant |w| == |v|
      invariant w == mid[to := taken[i..] + mid[to]]
    {
      i := i - 1;
      assert [taken[i]] + (taken[i + 1..] + mid[to]) == taken[i..] + mid[to];
      w := w[to := [taken[i]] + w[to]];
    }
  }

  /** `part_2`: the second crane, then the top crate of every stack. */
  method Part2(input: string) returns (answer: string)
    requires InputOk(input)
    requires CanRun9001(InitialStacks(input), Program(input))
    requires forall i :: 0 <= i < |Run9001(InitialStacks(input), Program(input))| ==> |Run9001(InitialStacks(input), Program(input))[i]| >= 1
    ensures answer == Tops(Run9001(InitialStacks(input), Program(input)))
  {
    var (original, rest) := SplitOnce(input, "\n\n").value;
    var v := BuildOriginal(original);
    v := Apply9001(v, Lines(rest));
    answer := TopCrates(v);
  }

  /** Two stacks lists of three stacks are equal when their stacks are. */
  lemma Equal3(a: Stacks, b: Stacks)
    requires |a| == 3 && |b| == 3 && a[0] == b[0] && a[1] == b[1] && a[2] == b[2]
    ensures a == b
  {
  }

  /** The sample: stacks "NZ", "DCM", "P" and four moves. The first crane leaves "C",
      "M", "ZNDP", whose tops spell "CMZ". */
  /** One move of the first crane on three stacks, by `Crane9000Effect`. */
  lemma Step9000(a: Stacks, from: nat, to: nat, n: nat, b: Stacks)
    requires |a| == 3 && |b| == 3 && from < 3 && to < 3 && from != to && |a[from]| >= n
    requires b[from] == a[from][n..] && b[to] == Reverse(a[from][..n]) + a[to]
    requires forall i :: 0 <= i < 3 && i != from && i != to ==> b[i] == a[i]
    ensures Crane9000(a, from, to, n) == b
  {
    Crane9000Effect(a, from, to, n);
    Equal3(Crane9000(a, from, to, n), b);
  }

  lemma Sample9000Moves(v: Stacks, v1: Stacks, v2: Stacks, v3: Stacks, v4: Stacks)
    requires v == ["NZ", "DCM", "P"] && v1 == ["DNZ", "CM", "P"] && v2 == ["", "CM", "ZNDP"]
    requires v3 == ["MC", "", "ZNDP"] && v4 == ["C", "M", "ZNDP"]
    ensures Crane9000(v, 1, 0, 1) == v1 && Crane9000(v1, 0, 2, 3) == v2
    ensures Crane9000(v2, 1, 0, 2) == v3 && Crane9000(v3, 0, 1, 1) == v4
  {
    assert Reverse("D") == "D" && Reverse("M") == "M";
    assert Reverse("DNZ") == "ZND" by {
      assert "DNZ"[1..] == "NZ" && "NZ"[1..] == "Z";
    }
    assert Reverse("CM") == "MC" by {
      assert "CM"[1..] == "M";
    }
    assert v[1][..1] == "D" && v[1][1..] == "CM";
    Step9000(v, 1, 0, 1, v1);
    assert v1[0][..3] == "DNZ" && v1[0][3..] == "";
    Step9000(v1, 0, 2, 3, v2);
    assert v2[1][..2] == "CM" && v2[1][2..] == "";
    Step9000(v2, 1, 0, 2, v3);
    assert v3[0][..1] == "M" && v3[0][1..] == "C";
    Step9000(v3, 0, 1, 1, v4);
  }

  lemma Sample9000(v: Stacks, ms: seq<Move>)
    requires v == ["NZ", "DCM", "P"]
    requires ms == [Move(1, 1, 0), Move(3, 0, 2), Move(2, 1, 0), Move(1, 0, 1)]
    ensures CanRun9000(v, ms) && Run9000(v, ms) == ["C", "M", "ZNDP"]
    ensures Tops(Run9000(v, ms)) == "CMZ"
  {
    var v1, v2, v3, v4 := ["DNZ", "CM", "P"], ["", "CM", "ZNDP"], ["MC", "", "ZNDP"], ["C", "M", "ZNDP"];
    Sample9000Moves(v, v1, v2, v3, v4);
    assert CanRun9000(v4, ms[4..]);
    assert CanRun9000(v3, ms[3..]) && Run9000(v3, ms[3..]) == v4;
    assert CanRun9000(v2, ms[2..]) && Run9000(v2, ms[2..]) == v4;
    assert CanRun9000(v1, ms[1..]) && Run9000(v1, ms[1..]) == v4;
  }

  /** One move of the second crane on three stacks. */
  lemma Step9001(a: Stacks, from: nat, to: nat, n: nat, b: Stacks)
    requires |a| == 3 && |b| == 3 && from < 3 && to < 3 && from != to && n <= |a[from]|
    requires b[from] == a[from][n..] && b[to] == a[from][..n] + a[to]
    requires forall i :: 0 <= i < 3 && i != from && i != to ==> b[i] == a[i]
    ensures Crane9001(a, from, to, n) == b
  {
    Equal3(Crane9001(a, from, to, n), b);
  }

  lemma Sample9001Moves(v: Stacks, v1: Stacks, v2: Stacks, v3: Stacks, v4: Stacks)
    requires v == ["NZ", "DCM", "P"] && v1 == ["DNZ", "CM", "P"] && v2 == ["", "CM", "DNZP"]
    requires v3 == ["CM", "", "DNZP"] && v4 == ["M", "C", "DNZP"]
    ensures Crane9001(v, 1, 0, 1) == v1 && Crane9001(v1, 0, 2, 3) == v2
    ensures Crane9001(v2, 1, 0, 2) == v3 && Crane9001(v3, 0, 1, 1) == v4
  {
    assert v[1][..1] == "D" && v[1][1..] == "CM";
    Step9001(v, 1, 0, 1, v1);
    assert v1[0][..3] == "DNZ" && v1[0][3..] == "";
    Step9001(v1, 0, 2, 3, v2);
    assert v2[1][..2] == "CM" && v2[1][2..] == "";
    Step9001(v2, 1, 0, 2, v3);
    assert v3[0][..1] == "C" && v3[0][1..] == "M";
    Step9001(v3, 0, 1, 1, v4);
  }

  /** The second crane on the sample leaves "M", "C", "DNZP", whose tops spell "MCD". */
  lemma Sample9001(v: Stacks, ms: seq<Move>)
    requires v == ["NZ", "DCM", "P"]
    requires ms == [Move(1, 1, 0), Move(3, 0, 2), Move(2, 1, 0), Move(1, 0, 1)]
    ensures CanRun9001(v, ms) && Run9001(v, ms) == ["M", "C", "DNZP"]
    ensures Tops(Run9001(v, ms)) == "MCD"
  {
    var v1, v2, v3, v4 := ["DNZ", "CM", "P"], ["", "CM", "DNZP"], ["CM", "", "DNZP"], ["M", "C", "DNZP"];
    Sample9001Moves(v, v1, v2, v3, v4);
    assert CanRun9001(v4, ms[4..]);
    assert CanRun9001(v3, ms[3..]) && Run9001(v3, ms[3..]) == v4;
    assert CanRun9001(v2, ms[2..]) && Run9001(v2, ms[2..]) == v4;
    assert CanRun9001(v1, ms[1..]) && Run9001(v1, ms[1..]) == v4;
  }
}
