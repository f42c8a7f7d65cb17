/** Day 2: rock-paper-scissors scoring. Each line is the opponent's letter (A/B/C), a
    space, and a second letter (X/Y/Z) read as my shape in part 1 and as the required
    outcome in part 2. */
module Day2 {
  import opened Wrappers
  import opened Text

  datatype Rps = Rock | Paper | Scissors

  /** The shape's discriminant, which is also its score. */
  function ShapeValue(s: Rps): nat
  {
    match s
    case Rock => 1
    case Paper => 2
    case Scissors => 3
  }

  /** The letters `RPS::from` accepts; any other text is `unreachable!()`. */
  predicate IsShapeLetter(t: string)
  {
    t == "A" || t == "B" || t == "C" || t == "X" || t == "Y" || t == "Z"
  }

  function ParseShape(t: string): (r: Rps)
    requires IsShapeLetter(t)
    ensures r == Rock <==> t == "A" || t == "X"
    ensures r == Paper <==> t == "B" || t == "Y"
    ensures r == Scissors <==> t == "C" || t == "Z"
  {
    if t == "A" then Rock
    else if t == "B" then Paper
    else if t == "C" then Scissors
    else if t == "X" then Rock
    else if t == "Y" then Paper
    else Scissors
  }

  /** The rules of the game: rock beats scissors, paper beats rock, scissors beat paper. */
  predicate Beats(a: Rps, b: Rps)
  {
    (a == Rock && b == Scissors) || (a == Paper && b == Rock) || (a == Scissors && b == Paper)
  }

  /** `RPS::game`: my score for playing `me` against `op`, read off a table of the nine
      pairs: the shape's value plus 6 for a win, 3 for a draw and 0 for a loss. */
  function Game(me: Rps, op: Rps): (r: nat)
    ensures r == ShapeValue(me) + (if Beats(me, op) then 6 else if me == op then 3 else 0)
    ensures 1 <= r <= 9
  {
    match (me, op)
    case (Rock, Rock) => ShapeValue(me) + 3
    case (Rock, Paper) => ShapeValue(me)
    case (Rock, Scissors) => ShapeValue(me) + 6
    case (Paper, Rock) => ShapeValue(me) + 6
    case (Paper, Paper) => ShapeValue(me) + 3
    case (Paper, Scissors) => ShapeValue(me)
    case (Scissors, Rock) => ShapeValue(me)
    case (Scissors, Paper) => ShapeValue(me) + 6
    case (Scissors, Scissors) => ShapeValue(me) + 3
  }

  /** Every pair of shapes is exactly one of: a win, a draw, a loss. */
  lemma Trichotomy(a: Rps, b: Rps)
    ensures Beats(a, b) || a == b || Beats(b, a)
    ensures !(Beats(a, b) && Beats(b, a))
    ensures a == b ==> !Beats(a, b)
  {
  }

  /** A game is a draw exactly when both players pick the same shape. */
  lemma DrawIffSame(me: Rps, op: Rps)
    ensures Game(me, op) == ShapeValue(me) + 3 <==> me == op
  {
  }

  /** The two players' outcome points always add to 6. */
  lemma OutcomesAddUp(a: Rps, b: Rps)
    ensures Game(a, b) + Game(b, a) == ShapeValue(a) + ShapeValue(b) + 6
  {
  }

  datatype Outcome = Win | Lose | Draw

  /** The outcome's discriminant, which is also its score. */
  function OutcomeValue(o: Outcome): nat
  {
    match o
    case Win => 6
    case Lose => 0
    case Draw => 3
  }

  predicate IsOutcomeLetter(t: string)
  {
    t == "X" || t == "Y" || t == "Z"
  }

  function ParseOutcome(t: string): (r: Outcome)
    requires IsOutcomeLetter(t)
    ensures r == Lose <==> t == "X"
    ensures r == Draw <==> t == "Y"
    ensures r == Win <==> t == "Z"
  {
    if t == "X" then Lose else if t == "Y" then Draw else Win
  }

  /** `Outcome::into_score`: the chosen shape's value plus the outcome's value. */
  function IntoScore(o: Outcome, v: Rps): nat
  {
    ShapeValue(v) + OutcomeValue(o)
  }

  /** `Outcome::game`: the score of answering `op` so as to reach `o`, read off a table of
      the nine pairs. The shape it picks really yields `o` when played against `op`. */
  function OutcomeGame(o: Outcome, op: Rps): (r: nat)
    ensures exists s :: r == Game(s, op) && r == IntoScore(o, s)
  {
    match (o, op)
    case (Win, Rock) => assert Game(Paper, op) == IntoScore(o, Paper); IntoScore(o, Paper)
    case (Win, Paper) => assert Game(Scissors, op) == IntoScore(o, Scissors); IntoScore(o, Scissors)
    case (Win, Scissors) => assert Game(Rock, op) == IntoScore(o, Rock); IntoScore(o, Rock)
    case (Lose, Rock) => assert Game(Scissors, op) == IntoScore(o, Scissors); IntoScore(o, Scissors)
    case (Lose, Paper) => assert Game(Rock, op) == IntoScore(o, Rock); IntoScore(o, Rock)
    case (Lose, Scissors) => assert Game(Paper, op) == IntoScore(o, Paper); IntoScore(o, Paper)
    case (Draw, Rock) => assert Game(Rock, op) == IntoScore(o, Rock); IntoScore(o, Rock)
    case (Draw, Paper) => assert Game(Paper, op) == IntoScore(o, Paper); IntoScore(o, Paper)
    case (Draw, Scissors) => assert Game(Scissors, op) == IntoScore(o, Scissors); IntoScore(o, Scissors)
  }

  /** The shape that reaches an outcome is unique, so the table has no other choice. */
  lemma ResponseUnique(o: Outcome, op: Rps, s: Rps, t: Rps)
    requires Game(s, op) == IntoScore(o, s) && Game(t, op) == IntoScore(o, t)
    ensures s == t
  {
  }

  // ---------------------------------------------------------------- the two parts

  /** A line that the parts accept: empty (filtered out) or two letters around a space. */
  predicate WellFormed(line: string, second: string -> bool)
  {
    line == "" || (SplitOnce(line, " ").Some? && IsShapeLetter(SplitOnce(line, " ").value.0)
                   && second(SplitOnce(line, " ").value.1))
  }

  function RoundScore1(line: string): (r: nat)
    requires line != "" && WellFormed(line, IsShapeLetter)
    ensures 1 <= r <= 9
  {
    var (op, me) := SplitOnce(line, " ").value;
    Game(ParseShape(me), ParseShape(op))
  }

  /** The total of part 1 over the pieces of `input.split('\n')`. */
  function Score1(lines: seq<string>): (r: nat)
    requires forall k :: 0 <= k < |lines| ==> WellFormed(lines[k], IsShapeLetter)
    ensures r <= 9 * |lines|
  {
    if lines == [] then 0
    else
      var last := lines[|lines| - 1];
      Score1(lines[..|lines| - 1]) + (if last == "" then 0 else RoundScore1(last))
  }

  /** `part_1`: split at '\n', skip empty lines, score my shape against the opponent's.
      A line without a space or with another letter panics in the source. */
  function Part1(input: string): (r: nat)
    requires forall k :: 0 <= k < |SplitOn(input, "\n")| ==> WellFormed(SplitOn(input, "\n")[k], IsShapeLetter)
    ensures r <= 9 * |SplitOn(input, "\n")|
  {
    Score1(SplitOn(input, "\n"))
  }

  /** A part-2 line scores the game of the one response that reaches the requested
      outcome against the opponent's shape. */
  function RoundScore2(line: string): (r: nat)
    requires line != "" && WellFormed(line, IsOutcomeLetter)
    ensures var (op, outcome) := SplitOnce(line, " ").value;
      exists s :: r == Game(s, ParseShape(op)) && r == IntoScore(ParseOutcome(outcome), s)
    ensures 1 <= r <= 9
  {
    var (op, outcome) := SplitOnce(line, " ").value;
    OutcomeGame(ParseOutcome(outcome), ParseShape(op))
  }

  /** The total of part 2 over the pieces of `input.split('\n')`. */
  function Score2(lines: seq<string>): (r: nat)
    requires forall k :: 0 <= k < |lines| ==> WellFormed(lines[k], IsOutcomeLetter)
    ensures r <= 9 * |lines|
  {
    if lines == [] then 0
    else
      var last := lines[|lines| - 1];
      Score2(lines[..|lines| - 1]) + (if last == "" then 0 else RoundScore2(last))
  }

  /** `part_2`: as part 1, but the second letter names the outcome to reach. */
  function Part2(input: string): (r: nat)
    requires forall k :: 0 <= k < |SplitOn(input, "\n")| ==> WellFormed(SplitOn(input, "\n")[k], IsOutcomeLetter)
    ensures r <= 9 * |SplitOn(input, "\n")|
  {
    Score2(SplitOn(input, "\n"))
  }

  // ---------------------------------------------------------------- strategy guides

  /** A round of a guide: the opponent's shape and my shape. */
  datatype Round = Round(op: Rps, me: Rps)

  function OpLetter(s: Rps): string
  {
    match s
    case Rock => "A"
    case Paper => "B"
    case Scissors => "C"
  }

  function MeLetter(s: Rps): string
  {
    match s
    case Rock => "X"
    case Paper => "Y"
    case Scissors => "Z"
  }

  /** The line of a guide that describes a round. */
  function FormatRound(r: Round): (line: string)
    ensures '\n' !in line
  {
    OpLetter(r.op) + " " + MeLetter(r.me)
  }

  function FormatLines(rs: seq<Round>): (ls: seq<string>)
    ensures |ls| == |rs|
    ensures forall k :: 0 <= k < |ls| ==> ls[k] == FormatRound(rs[k])
  {
    seq(|rs|, k requires 0 <= k < |rs| => FormatRound(rs[k]))
  }

  /** The total score of playing the rounds. */
  function TotalScore(rs: seq<Round>): nat
  {
    if rs == [] then 0 else TotalScore(rs[..|rs| - 1]) + Game(rs[|rs| - 1].me, rs[|rs| - 1].op)
  }

  lemma FormatRoundParses(r: Round)
    ensures WellFormed(FormatRound(r), IsShapeLetter)
    ensures FormatRound(r) != "" && RoundScore1(FormatRound(r)) == Game(r.me, r.op)
  {
    SplitOnceChar(OpLetter(r.op), ' ', MeLetter(r.me));
  }

  lemma {:induction false} Score1Lines(rs: seq<Round>)
    ensures forall k :: 0 <= k < |rs| ==> WellFormed(FormatLines(rs)[k], IsShapeLetter)
    ensures Score1(FormatLines(rs)) == TotalScore(rs)
    decreases |rs|
  {
    forall k | 0 <= k < |rs| ensures WellFormed(FormatLines(rs)[k], IsShapeLetter) {
      FormatRoundParses(rs[k]);
    }
    if rs != [] {
      var front := rs[..|rs| - 1];
      Score1Lines(front);
      assert FormatLines(rs)[..|rs| - 1] == FormatLines(front);
      FormatRoundParses(rs[|rs| - 1]);
    }
  }

  /** Part 1 of a guide written one round per line scores exactly the rounds it
      describes. */
  lemma Part1OfGuide(rs: seq<Round>)
    requires |rs| >= 1
    ensures var input := Join(FormatLines(rs), "\n");
      (forall k :: 0 <= k < |SplitOn(input, "\n")| ==> WellFormed(SplitOn(input, "\n")[k], IsShapeLetter))
      && Part1(input) == TotalScore(rs)
  {
    SplitOnJoin(FormatLines(rs), '\n');
    Score1Lines(rs);
  }

  function OutcomeLetter(o: Outcome): string
  {
    match o
    case Lose => "X"
    case Draw => "Y"
    case Win => "Z"
  }

  /** A round of a part-2 guide: the opponent's shape and the outcome to reach. */
  datatype Plan = Plan(op: Rps, outcome: Outcome)

  /** The line of a part-2 guide that describes a plan. */
  function FormatPlan(p: Plan): (line: string)
    ensures '\n' !in line
  {
    OpLetter(p.op) + " " + OutcomeLetter(p.outcome)
  }

  function FormatPlans(ps: seq<Plan>): (ls: seq<string>)
    ensures |ls| == |ps|
    ensures forall k :: 0 <= k < |ls| ==> ls[k] == FormatPlan(ps[k])
  {
    seq(|ps|, k requires 0 <= k < |ps| => FormatPlan(ps[k]))
  }

  /** The total score of following the plans, each with the response that reaches its
      outcome. */
  function PlanScore(ps: seq<Plan>): nat
  {
    if ps == [] then 0
    else PlanScore(ps[..|ps| - 1]) + OutcomeGame(ps[|ps| - 1].outcome, ps[|ps| - 1].op)
  }

  lemma FormatPlanParses(p: Plan)
    ensures WellFormed(FormatPlan(p), IsOutcomeLetter)
    ensures FormatPlan(p) != "" && RoundScore2(FormatPlan(p)) == OutcomeGame(p.outcome, p.op)
  {
    SplitOnceChar(OpLetter(p.op), ' ', OutcomeLetter(p.outcome));
  }

  lemma {:induction false} Score2Lines(ps: seq<Plan>)
    ensures forall k :: 0 <= k < |ps| ==> WellFormed(FormatPlans(ps)[k], IsOutcomeLetter)
    ensures Score2(FormatPlans(ps)) == PlanScore(ps)
    decreases |ps|
  {
    forall k | 0 <= k < |ps| ensures WellFormed(FormatPlans(ps)[k], IsOutcomeLetter) {
      FormatPlanParses(ps[k]);
    }
    if ps != [] {
      var front := ps[..|ps| - 1];
      Score2Lines(front);
      assert FormatPlans(ps)[..|ps| - 1] == FormatPlans(front);
      FormatPlanParses(ps[|ps| - 1]);
    }
  }

  /** Part 2 of a guide written one plan per line scores exactly the plans it
      describes. */
  lemma Part2OfPlan(ps: seq<Plan>)
    requires |ps| >= 1
    ensures var input := Join(FormatPlans(ps), "\n");
      (forall k :: 0 <= k < |SplitOn(input, "\n")| ==> WellFormed(SplitOn(input, "\n")[k], IsOutcomeLetter))
      && Part2(input) == PlanScore(ps)
  {
    SplitOnJoin(FormatPlans(ps), '\n');
    Score2Lines(ps);
  }

  /** The sample's rounds, as part 1 reads it. */
  function SampleRounds(): seq<Round>
  {
    [Round(Rock, Paper), Round(Paper, Rock), Round(Scissors, Scissors)]
  }

  /** The sample's plans, as part 2 reads it. */
  function SamplePlans(): seq<Plan>
  {
    [Plan(Rock, Draw), Plan(Paper, Lose), Plan(Scissors, Win)]
  }

  /** Both readings of the sample are written as the lines "A Y", "B X", "C Z". */
  lemma SampleFormats()
    ensures Join(FormatLines(SampleRounds()), "\n") == "A Y\nB X\nC Z"
    ensures Join(FormatPlans(SamplePlans()), "\n") == "A Y\nB X\nC Z"
  {
    var rs, ps := SampleRounds(), SamplePlans();
    var ls := ["A Y", "B X", "C Z"];
    assert FormatRound(rs[0]) == "A" + " " + "Y" == ls[0];
    assert FormatRound(rs[1]) == "B" + " " + "X" == ls[1];
    assert FormatRound(rs[2]) == "C" + " " + "Z" == ls[2];
    assert FormatPlan(ps[0]) == "A" + " " + "Y" == ls[0];
    assert FormatPlan(ps[1]) == "B" + " " + "X" == ls[1];
    assert FormatPlan(ps[2]) == "C" + " " + "Z" == ls[2];
    assert FormatLines(rs) == ls && FormatPlans(ps) == ls;
    assert Join(ls[2..], "\n") == "C Z";
    assert Join(ls[1..], "\n") == "B X\nC Z";
  }

  /** The sample's rounds score 8 + 1 + 6 and its plans 4 + 1 + 7. */
  lemma SampleScores()
    ensures TotalScore(SampleRounds()) == 15 && PlanScore(SamplePlans()) == 12
  {
    var rs, ps := SampleRounds(), SamplePlans();
    assert rs[..2][..1] == [rs[0]] && rs[..2] == [rs[0], rs[1]] && [rs[0]][..0] == [];
    assert TotalScore([rs[0]]) == 8;
    assert TotalScore(rs[..2]) == 9;
    assert ps[..2][..1] == [ps[0]] && ps[..2] == [ps[0], ps[1]] && [ps[0]][..0] == [];
    assert PlanScore([ps[0]]) == 4;
    assert PlanScore(ps[..2]) == 5;
  }

  /** The sample guide "A Y", "B X", "C Z": part 1 scores 8 + 1 + 6 = 15 and part 2
      scores 4 + 1 + 7 = 12. */
  lemma Sample(input: string)
    requires input == "A Y\nB X\nC Z"
    ensures forall k :: 0 <= k < |SplitOn(input, "\n")| ==> WellFormed(SplitOn(input, "\n")[k], IsShapeLetter)
    ensures forall k :: 0 <= k < |SplitOn(input, "\n")| ==> WellFormed(SplitOn(input, "\n")[k], IsOutcomeLetter)
    ensures Part1(input) == 15 && Part2(input) == 12
  {
    SampleFormats();
    Part1OfGuide(SampleRounds());
    Part2OfPlan(SamplePlans());
    SampleScores();
  }
}
