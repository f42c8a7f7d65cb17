/** Day 11, part 2: monkeys pass items around, each inspection changing the item's worry
    level by the monkey's operation and throwing it on by a divisibility test. The worry
    levels grow without bound, so the program keeps, for every item and every monkey, the
    worry level modulo that monkey's divisor (the residue matrix) and decides every throw
    from it. The model states the simulation twice: over the true worry levels (Troop,
    Inspect, Turn, Round, Rounds) and as the program runs it over residues (TakeTurn,
    PlayRound, Play), and proves the two give the same monkeys after every round. */
module Day11 {
  import opened Wrappers
  import opened Text
  import Sorting

  /** What an inspection does to a worry level. */
  datatype Chain = Add(n: nat) | Mul(n: nat) | MulSelf

  /** A monkey: the items it holds (as worry levels when parsed, as item numbers once the
      simulation is set up), its operation, its divisor, its two targets and how many
      items it has inspected. */
  datatype Monkey = Monkey(itemWorryIndex: seq<nat>, operation: Chain, test: nat, tr: nat,
                           fl: nat, inspectionCount: nat)

  // ---------------------------------------------------------------- parsing

  /** `s.lines().skip(1)`: the header line "Monkey N:" is ignored. */
  function Body(s: string): seq<string>
  {
    var ls := Lines(s);
    if |ls| == 0 then [] else ls[1..]
  }

  /** The text after `sep` on line `i`; `missing` when there is no such line, `unsplit`
      when the line has no `sep`. */
  function Field(ls: seq<string>, i: nat, sep: string, missing: string, unsplit: string)
    : (r: Result<string>)
    requires |sep| > 0
    ensures r.Ok? <==> i < |ls| && SplitOnce(ls[i], sep).Some?
    ensures r.Err? ==> r.msg == (if i < |ls| then unsplit else missing)
  {
    if i >= |ls| then Err(missing)
    else match SplitOnce(ls[i], sep)
      case None => Err(unsplit)
      case Some(p) => Ok(p.1)
  }

  /** `t.trim().parse::<usize>()`. */
  function ParseUsize(t: string): (r: Result<nat>)
    ensures r.Ok? <==> ParseNat(Trim(t), USIZE_MAX).Some?
    ensures r.Ok? ==> r.value == ParseNat(Trim(t), USIZE_MAX).value
  {
    match ParseNat(Trim(t), USIZE_MAX)
    case None => Err("invalid usize")
    case Some(v) => Ok(v)
  }

  /** The worry levels after "Starting items:", split at ',' and trimmed; the first piece
      that is not a number is reported with its untrimmed text. */
  function ParseItems(pieces: seq<string>): (r: Result<seq<nat>>)
    ensures r.Ok? <==> forall k :: 0 <= k < |pieces| ==> ParseNat(Trim(pieces[k]), USIZE_MAX).Some?
    ensures r.Ok? ==> (|r.value| == |pieces|
      && forall k :: 0 <= k < |pieces| ==> ParseNat(Trim(pieces[k]), USIZE_MAX) == Some(r.value[k]))
    ensures r.Err? ==> exists k :: (0 <= k < |pieces| && r.msg == "Can't parse number *" + pieces[k] + "*"
      && forall j :: 0 <= j < k ==> ParseNat(Trim(pieces[j]), USIZE_MAX).Some?)
  {
    Collect(ParsedNumbers(pieces))
  }

  /** Every piece of the item list parsed on its own. */
  function ParsedNumbers(pieces: seq<string>): (rs: seq<Result<nat>>)
    ensures |rs| == |pieces| && forall k :: 0 <= k < |pieces| ==> rs[k] == ParseNumber(pieces[k])
  {
    seq(|pieces|, k requires 0 <= k < |pieces| => ParseNumber(pieces[k]))
  }

  /** One piece of the item list. */
  function ParseNumber(piece: string): (r: Result<nat>)
    ensures r.Ok? <==> ParseNat(Trim(piece), USIZE_MAX).Some?
    ensures r.Ok? ==> ParseNat(Trim(piece), USIZE_MAX) == Some(r.value)
    ensures r.Err? ==> r.msg == "Can't parse number *" + piece + "*"
  {
    match ParseNat(Trim(piece), USIZE_MAX)
    case None => Err("Can't parse number *" + piece + "*")
    case Some(v) => Ok(v)
  }

  function ItemsField(ls: seq<string>): Result<seq<nat>>
  {
    var t :- Field(ls, 0, ":", "can't find items", "can't split items");
    ParseItems(SplitOn(t, ","))
  }

  function OpField(ls: seq<string>): Result<string>
  {
    Field(ls, 1, "new = old ", "can't parse op", "can't split op")
  }

  /** The program slices the operation text at byte 1 once the items and the operation
      line have been read; with nothing but white space after "new = old " that slice
      panics. */
  predicate FieldsSliceable(ls: seq<string>)
  {
    ItemsField(ls).Ok? && OpField(ls).Ok? ==> |Trim(OpField(ls).value)| > 0
  }

  /** The operation from the text after "new = old ": a number after the operator gives
      Add or Mul by it, anything else multiplies the old value by itself. */
  function ParseOperation(op: string): (r: Result<Chain>)
    requires |Trim(op)| > 0
    ensures r.Ok? ==> (r.value.MulSelf? <==> ParseNat(Trim(Trim(op)[1..]), USIZE_MAX).None?)
    ensures r.Ok? && !r.value.MulSelf? ==> (ParseNat(Trim(Trim(op)[1..]), USIZE_MAX) == Some(r.value.n)
      && (r.value.Add? <==> Trim(op)[0] == '+') && (r.value.Mul? <==> Trim(op)[0] == '*'))
    ensures r.Err? <==> ParseNat(Trim(Trim(op)[1..]), USIZE_MAX).Some? && Trim(op)[0] != '+' && Trim(op)[0] != '*'
  {
    var t := Trim(op);
    match ParseNat(Trim(t[1..]), USIZE_MAX)
    case None => Ok(MulSelf)
    case Some(n) =>
      if t[0] == '+' then Ok(Add(n))
      else if t[0] == '*' then Ok(Mul(n))
      else Err("Invalid op")
  }

  /** `Monkey::from_str` on the lines after the header. */
  function ParseFields(ls: seq<string>): (r: Result<Monkey>)
    requires FieldsSliceable(ls)
    ensures r.Ok? ==> |ls| >= 5 && r.value.inspectionCount == 0
  {
    var items :- ItemsField(ls);
    var op :- OpField(ls);
    var testText :- Field(ls, 2, "by ", "can't parse test", "can't split test");
    var test :- ParseUsize(testText);
    var trText :- Field(ls, 3, "monkey ", "can't parse true", "can't split true");
    var tr :- ParseUsize(trText);
    var flText :- Field(ls, 4, "monkey ", "can't parse false", "can't split false");
    var fl :- ParseUsize(flText);
    var operation :- ParseOperation(op);
    Ok(Monkey(items, operation, test, tr, fl, 0))
  }

  predicate Sliceable(s: string)
  {
    FieldsSliceable(Body(s))
  }

  function ParseMonkey(s: string): (r: Result<Monkey>)
    requires Sliceable(s)
    ensures r.Ok? ==> |Body(s)| >= 5 && r.value.inspectionCount == 0
  {
    ParseFields(Body(s))
  }

  /** The chunks of the input, one per monkey. */
  function Chunks(input: string): seq<string>
  {
    SplitOn(input, "\n\n")
  }

  /** No chunk up to the first one that fails to parse makes the parser panic (collecting
      into a `Result` stops at the first error). */
  predicate ParsesWithoutPanic(chunks: seq<string>)
  {
    chunks == [] ||
    (Sliceable(chunks[0]) && (ParseMonkey(chunks[0]).Ok? ==> ParsesWithoutPanic(chunks[1..])))
  }

  /** Every chunk parsed, or the first error. */
  function ParseAll(chunks: seq<string>): (r: Result<seq<Monkey>>)
    requires ParsesWithoutPanic(chunks)
    ensures r.Ok? ==> |r.value| == |chunks|
  {
    if chunks == [] then Ok([])
    else
      var m :- ParseMonkey(chunks[0]);
      var rest :- ParseAll(chunks[1..]);
      Ok([m] + rest)
  }

  /** No monkey has inspected anything yet. */
  predicate NoneInspected(ms: seq<Monkey>)
  {
    forall i :: 0 <= i < |ms| ==> ms[i].inspectionCount == 0
  }

  /** The parsed monkeys have not inspected anything yet. */
  lemma {:induction false} ParseAllFresh(chunks: seq<string>)
    requires ParsesWithoutPanic(chunks) && ParseAll(chunks).Ok?
    ensures NoneInspected(ParseAll(chunks).value)
  {
    if chunks != [] {
      ParseAllFresh(chunks[1..]);
      ParseAllCons(chunks);
      NoneInspectedCons(ParseMonkey(chunks[0]).value, ParseAll(chunks[1..]).value);
    }
  }

  lemma ParseAllCons(chunks: seq<string>)
    requires chunks != [] && ParsesWithoutPanic(chunks) && ParseAll(chunks).Ok?
    ensures ParseMonkey(chunks[0]).Ok? && ParseAll(chunks[1..]).Ok?
    ensures ParseAll(chunks).value == [ParseMonkey(chunks[0]).value] + ParseAll(chunks[1..]).value
  {
  }

  lemma NoneInspectedCons(m: Monkey, rest: seq<Monkey>)
    requires m.inspectionCount == 0 && NoneInspected(rest)
    ensures NoneInspected([m] + rest)
  {
    var ms := [m] + rest;
    forall i | 0 <= i < |ms| ensures ms[i].inspectionCount == 0 {
      if i > 0 {
        assert ms[i] == rest[i - 1];
      }
    }
  }

  // ---------------------------------------------------------------- printing

  function ItemText(n: nat): string
  {
    " " + NatToString(n)
  }

  function ItemsLine(items: seq<nat>): string
  {
    "  Starting items:" + Join(ItemTexts(items), ",")
  }

  function ItemTexts(items: seq<nat>): (ps: seq<string>)
    ensures |ps| == |items| && forall k :: 0 <= k < |items| ==> ps[k] == ItemText(items[k])
  {
    seq(|items|, k requires 0 <= k < |items| => ItemText(items[k]))
  }

  function OperationText(c: Chain): string
  {
    match c
    case Add(n) => "+ " + NatToString(n)
    case Mul(n) => "* " + NatToString(n)
    case MulSelf => "* old"
  }

  const OP_PREFIX := "  Operation: "
  const TEST_PREFIX := "  Test: divisible "
  const TRUE_PREFIX := "    If true: throw to "
  const FALSE_PREFIX := "    If false: throw to "

  /** The five lines that follow a monkey's header in the puzzle input. */
  function FormatFields(m: Monkey): seq<string>
  {
    [ItemsLine(m.itemWorryIndex),
     OP_PREFIX + "new = old " + OperationText(m.operation),
     TEST_PREFIX + "by " + NatToString(m.test),
     TRUE_PREFIX + "monkey " + NatToString(m.tr),
     FALSE_PREFIX + "monkey " + NatToString(m.fl)]
  }

  predicate Printable(m: Monkey)
  {
    && |m.itemWorryIndex| > 0
    && (forall k :: 0 <= k < |m.itemWorryIndex| ==> m.itemWorryIndex[k] <= USIZE_MAX)
    && (m.operation.Add? || m.operation.Mul? ==> m.operation.n <= USIZE_MAX)
    && m.test <= USIZE_MAX && m.tr <= USIZE_MAX && m.fl <= USIZE_MAX
    && m.inspectionCount == 0
  }

  lemma TrimDigits(n: nat)
    ensures Trim(NatToString(n)) == NatToString(n)
    ensures Trim(" " + NatToString(n)) == NatToString(n)
  {
    var d := NatToString(n);
    TrimNoop(d);
    assert (" " + d)[1..] == d;
    assert TrimStart(" " + d) == TrimStart(d);
  }

  lemma ParseItemsPrinted(items: seq<nat>)
    requires forall k :: 0 <= k < |items| ==> items[k] <= USIZE_MAX
    ensures ParseItems(ItemTexts(items)) == Ok(items)
  {
    var ps := ItemTexts(items);
    var rs := ParsedNumbers(ps);
    forall k | 0 <= k < |items|
      ensures rs[k] == Ok(items[k])
    {
      TrimDigits(items[k]);
      ParseNatToString(items[k], USIZE_MAX);
    }
    var r := Collect(rs);
    assert r.Ok?;
    assert r.value == items;
  }

  lemma ParseItemsLine(items: seq<nat>)
    requires |items| > 0
    requires forall k :: 0 <= k < |items| ==> items[k] <= USIZE_MAX
    ensures ItemsField([ItemsLine(items)]) == Ok(items)
  {
    var ps := ItemTexts(items);
    var rest := Join(ps, ",");
    SplitOnceChar("  Starting items", ':', rest);
    assert ItemsLine(items) == "  Starting items" + ":" + rest;
    forall k | 0 <= k < |ps| ensures ',' !in ps[k] {
      NatToStringNoChar(items[k], ',');
    }
    SplitOnJoin(ps, ',');
    ParseItemsPrinted(items);
  }

  /** Printing an operation and parsing it back gives the operation. */
  lemma ParseOperationText(c: Chain)
    requires c.Add? || c.Mul? ==> c.n <= USIZE_MAX
    ensures |Trim(OperationText(c))| > 0 && ParseOperation(OperationText(c)) == Ok(c)
  {
    match c
    case Add(n) =>
      assert OperationText(c) == ['+'] + " " + NatToString(n);
      OperatorWithNumber('+', n);
    case Mul(n) =>
      assert OperationText(c) == ['*'] + " " + NatToString(n);
      OperatorWithNumber('*', n);
    case MulSelf =>
      assert OperationText(c) == ['*'] + " old";
      OperatorWithOld('*');
  }

  /** With a number after it, '+' gives Add, '*' gives Mul and any other operator is an
      error. */
  lemma OperatorWithNumber(o: char, n: nat)
    requires !IsWhitespace(o) && n <= USIZE_MAX
    ensures |Trim([o] + " " + NatToString(n))| > 0
    ensures ParseOperation([o] + " " + NatToString(n))
      == if o == '+' then Ok(Add(n)) else if o == '*' then Ok(Mul(n)) else Err("Invalid op")
  {
    var d := NatToString(n);
    var op := [o] + " " + d;
    TrimNoop(op);
    assert op[1..] == " " + d;
    TrimDigits(n);
    ParseNatToString(n, USIZE_MAX);
  }

  /** An operand that is not a number makes the operation square the old value, whatever
      the operator. */
  lemma OperatorWithOld(o: char)
    requires !IsWhitespace(o)
    ensures |Trim([o] + " old")| > 0 && ParseOperation([o] + " old") == Ok(MulSelf)
  {
    var op := [o] + " old";
    assert op[1..] == " old";
    TrimNoop(op);
    OldIsNoNumber(op);
  }

  /** "old" after the operator is not a number. */
  lemma OldIsNoNumber(op: string)
    requires |op| > 0 && op[1..] == " old"
    ensures ParseNat(Trim(op[1..]), USIZE_MAX).None?
  {
    TrimOld();
    var w := "old";
    assert w[0] == 'o' && !IsDigit(w[0]);
    assert !AllDigits(w);
  }

  lemma TrimOld()
    ensures Trim(" old") == "old"
  {
    TrimStartOld();
    TrimEndOld();
  }

  lemma TrimStartOld()
    ensures TrimStart(" old") == "old"
  {
    var w := "old";
    assert w[0] == 'o';
    TrimStartNoop(w);
    TrimStartSpace(' ', w);
    assert [' '] + w == " old";
  }

  lemma TrimEndOld()
    ensures TrimEnd("old") == "old"
  {
    var w := "old";
    assert w[|w| - 1] == 'd';
  }

  lemma ParseNumberLine(prefix: string, sep: string, n: nat)
    requires |sep| > 0 && n <= USIZE_MAX
    requires forall i :: 0 <= i < |prefix| ==> !OccursAt(prefix + sep, sep, i)
    ensures SplitOnce(prefix + sep + NatToString(n), sep) == Some((prefix, NatToString(n)))
    ensures ParseUsize(NatToString(n)) == Ok(n)
  {
    SplitOnceAfter(prefix, sep, NatToString(n));
    TrimDigits(n);
    ParseNatToString(n, USIZE_MAX);
  }

  lemma NoEarlyBy()
    ensures forall i :: 0 <= i < |TEST_PREFIX| ==> !OccursAt(TEST_PREFIX + "by ", "by ", i)
  {
    var s := TEST_PREFIX + "by ";
    forall i | 0 <= i < |TEST_PREFIX| ensures !OccursAt(s, "by ", i) {
      assert s[i..i + 3][0] == s[i];
      if i == 14 {
        assert s[i..i + 3][1] == s[15] == 'l';
      } else {
        assert s[i] != 'b';
      }
    }
  }

  lemma NoEarlyMonkey(prefix: string)
    requires 'm' !in prefix
    ensures forall i :: 0 <= i < |prefix| ==> !OccursAt(prefix + "monkey ", "monkey ", i)
  {
    var s := prefix + "monkey ";
    forall i | 0 <= i < |prefix| ensures !OccursAt(s, "monkey ", i) {
      assert s[i..i + 7][0] == s[i] == prefix[i];
    }
  }

  lemma NoEarlyNew()
    ensures forall i :: 0 <= i < |OP_PREFIX| ==> !OccursAt(OP_PREFIX + "new = old ", "new = old ", i)
  {
    var s := OP_PREFIX + "new = old ";
    forall i | 0 <= i < |OP_PREFIX| ensures !OccursAt(s, "new = old ", i) {
      assert s[i..i + 10][0] == s[i];
      if i == 10 {
        assert s[i..i + 10][1] == s[11] == ':';
      } else {
        assert s[i] != 'n';
      }
    }
  }

  /** A line made of a prefix, a separator that does not start inside the prefix, and a
      number: the field after the separator is the number's text, which parses back. */
  lemma TextField(ls: seq<string>, i: nat, prefix: string, sep: string, rest: string, missing: string, unsplit: string)
    requires |sep| > 0 && i < |ls| && ls[i] == prefix + sep + rest
    requires forall j :: 0 <= j < |prefix| ==> !OccursAt(prefix + sep, sep, j)
    ensures Field(ls, i, sep, missing, unsplit) == Ok(rest)
  {
    SplitOnceAfter(prefix, sep, rest);
  }

  lemma NumberField(ls: seq<string>, i: nat, prefix: string, sep: string, n: nat, missing: string, unsplit: string)
    requires |sep| > 0 && n <= USIZE_MAX && i < |ls| && ls[i] == prefix + sep + NatToString(n)
    requires forall j :: 0 <= j < |prefix| ==> !OccursAt(prefix + sep, sep, j)
    ensures Field(ls, i, sep, missing, unsplit) == Ok(NatToString(n))
    ensures ParseUsize(NatToString(n)) == Ok(n)
  {
    ParseNumberLine(prefix, sep, n);
  }

  lemma TargetPrefixes()
    ensures forall i :: 0 <= i < |TRUE_PREFIX| ==> !OccursAt(TRUE_PREFIX + "monkey ", "monkey ", i)
    ensures forall i :: 0 <= i < |FALSE_PREFIX| ==> !OccursAt(FALSE_PREFIX + "monkey ", "monkey ", i)
  {
    NoEarlyMonkey(TRUE_PREFIX);
    NoEarlyMonkey(FALSE_PREFIX);
  }

  /** Five fields that each read correctly make a monkey with nothing inspected. */
  lemma ParseFieldsOk(ls: seq<string>, items: seq<nat>, op: string, c: Chain, nums: seq<string>, m: Monkey)
    requires |nums| == 3
    requires ItemsField(ls) == Ok(items) && OpField(ls) == Ok(op)
    requires Field(ls, 2, "by ", "can't parse test", "can't split test") == Ok(nums[0])
    requires Field(ls, 3, "monkey ", "can't parse true", "can't split true") == Ok(nums[1])
    requires Field(ls, 4, "monkey ", "can't parse false", "can't split false") == Ok(nums[2])
    requires ParseUsize(nums[0]) == Ok(m.test) && ParseUsize(nums[1]) == Ok(m.tr) && ParseUsize(nums[2]) == Ok(m.fl)
    requires |Trim(op)| > 0 && ParseOperation(op) == Ok(c)
    requires m == Monkey(items, c, m.test, m.tr, m.fl, 0)
    ensures FieldsSliceable(ls) && ParseFields(ls) == Ok(m)
  {
  }

  lemma ItemsFieldPrinted(m: Monkey)
    requires Printable(m)
    ensures ItemsField(FormatFields(m)) == Ok(m.itemWorryIndex)
  {
    ParseItemsLine(m.itemWorryIndex);
    assert FormatFields(m)[0] == ItemsLine(m.itemWorryIndex);
  }

  lemma OpFieldPrinted(m: Monkey)
    ensures OpField(FormatFields(m)) == Ok(OperationText(m.operation))
  {
    NoEarlyNew();
    TextField(FormatFields(m), 1, OP_PREFIX, "new = old ", OperationText(m.operation), "can't parse op", "can't split op");
  }

  lemma TestFieldPrinted(m: Monkey)
    requires m.test <= USIZE_MAX
    ensures Field(FormatFields(m), 2, "by ", "can't parse test", "can't split test") == Ok(NatToString(m.test))
    ensures ParseUsize(NatToString(m.test)) == Ok(m.test)
  {
    NoEarlyBy();
    NumberField(FormatFields(m), 2, TEST_PREFIX, "by ", m.test, "can't parse test", "can't split test");
  }

  lemma TargetFieldsPrinted(m: Monkey)
    requires m.tr <= USIZE_MAX && m.fl <= USIZE_MAX
    ensures Field(FormatFields(m), 3, "monkey ", "can't parse true", "can't split true") == Ok(NatToString(m.tr))
    ensures Field(FormatFields(m), 4, "monkey ", "can't parse false", "can't split false") == Ok(NatToString(m.fl))
    ensures ParseUsize(NatToString(m.tr)) == Ok(m.tr) && ParseUsize(NatToString(m.fl)) == Ok(m.fl)
  {
    TargetPrefixes();
    NumberField(FormatFields(m), 3, TRUE_PREFIX, "monkey ", m.tr, "can't parse true", "can't split true");
    NumberField(FormatFields(m), 4, FALSE_PREFIX, "monkey ", m.fl, "can't parse false", "can't split false");
  }

  /** Printing a freshly parsed monkey and parsing it back gives the monkey. */
  lemma ParseFormatFields(m: Monkey)
    requires Printable(m)
    ensures FieldsSliceable(FormatFields(m)) && ParseFields(FormatFields(m)) == Ok(m)
  {
    ItemsFieldPrinted(m);
    OpFieldPrinted(m);
    ParseOperationText(m.operation);
    TestFieldPrinted(m);
    TargetFieldsPrinted(m);
    var nums := [NatToString(m.test), NatToString(m.tr), NatToString(m.fl)];
    ParseFieldsOk(FormatFields(m), m.itemWorryIndex, OperationText(m.operation), m.operation, nums, m);
  }

  // ---------------------------------------------------------------- true worry levels

  function Apply(op: Chain, w: nat): nat
  {
    match op
    case Add(v) => w + v
    case Mul(v) => w * v
    case MulSelf => w * w
  }

  /** What a monkey does with an item; it never changes during the simulation. */
  datatype Rule = Rule(operation: Chain, test: nat, tr: nat, fl: nat)

  function RuleOf(m: Monkey): Rule
  {
    Rule(m.operation, m.test, m.tr, m.fl)
  }

  function Rules(ms: seq<Monkey>): (r: seq<Rule>)
    ensures |r| == |ms| && forall i :: 0 <= i < |ms| ==> r[i] == RuleOf(ms[i])
  {
    seq(|ms|, i requires 0 <= i < |ms| => RuleOf(ms[i]))
  }

  /** Every divisor is positive (the program takes remainders by it) and every target
      names a monkey (the program indexes the monkeys by the target of each throw; this
      asks it of every target, used or not). */
  predicate RulesOk(rules: seq<Rule>)
  {
    forall i :: 0 <= i < |rules| ==> rules[i].test > 0 && rules[i].tr < |rules| && rules[i].fl < |rules|
  }

  /** The simulation over true worry levels: the item numbers every monkey holds, in
      order, how many items every monkey has inspected, and every item's worry level. */
  datatype Troop = Troop(items: seq<seq<nat>>, counts: seq<nat>, worry: seq<nat>)

  predicate Fits(rules: seq<Rule>, t: Troop)
  {
    |t.items| == |rules| && |t.counts| == |rules|
  }

  /** Every item number held names an item. */
  predicate InRange(t: Troop)
  {
    forall i, j :: 0 <= i < |t.items| && 0 <= j < |t.items[i]| ==> t.items[i][j] < |t.worry|
  }

  /** Item `k`'s worry level (items are numbered densely, see InRange; an unknown
      number reads as 0). */
  function WorryOf(t: Troop, k: nat): nat
  {
    if k < |t.worry| then t.worry[k] else 0
  }

  function SetWorry(worry: seq<nat>, k: nat, w: nat): (r: seq<nat>)
    ensures |r| == |worry|
  {
    if k < |worry| then worry[k := w] else worry
  }

  /** Where a monkey throws an item whose new worry level is `w`. */
  function Target(r: Rule, w: nat): nat
    requires r.test > 0
  {
    if w % r.test == 0 then r.tr else r.fl
  }

  /** Monkey `m` inspects item `k`: the worry level changes by the operation, the count
      goes up by one, and the item is appended to the target's items. */
  function Inspect(rules: seq<Rule>, t: Troop, m: nat, k: nat): (r: Troop)
    requires RulesOk(rules) && Fits(rules, t) && m < |rules|
    ensures Fits(rules, r) && |r.worry| == |t.worry|
    ensures r.counts == t.counts[m := t.counts[m] + 1]
  {
    var w := Apply(rules[m].operation, WorryOf(t, k));
    var target := Target(rules[m], w);
    Troop(t.items[target := t.items[target] + [k]], t.counts[m := t.counts[m] + 1], SetWorry(t.worry, k, w))
  }

  /** Monkey `m` has inspected the first `j` items it held when its turn began; items
      are only ever appended, so those `j` are still at the front of its list. */
  function ThrowsUpTo(rules: seq<Rule>, t: Troop, m: nat, j: nat): (r: Troop)
    requires RulesOk(rules) && Fits(rules, t) && m < |rules| && j <= |t.items[m]|
    ensures Fits(rules, r) && |r.worry| == |t.worry|
    ensures |r.items[m]| >= |t.items[m]| && r.items[m][..|t.items[m]|] == t.items[m]
    ensures r.counts == t.counts[m := t.counts[m] + j]
  {
    if j == 0 then t
    else
      var s := ThrowsUpTo(rules, t, m, j - 1);
      var r := Inspect(rules, s, m, s.items[m][j - 1]);
      assert r.items[m][..|s.items[m]|] == s.items[m];
      assert s.items[m][..|t.items[m]|] == t.items[m];
      r
  }

  /** Monkey `m`'s turn: it inspects every item it held when the turn began, in order,
      and then no longer holds them; items it threw to itself stay for its next turn. */
  function Turn(rules: seq<Rule>, t: Troop, m: nat): (r: Troop)
    requires RulesOk(rules) && Fits(rules, t) && m < |rules|
    ensures Fits(rules, r) && |r.worry| == |t.worry|
    ensures r.counts == t.counts[m := t.counts[m] + |t.items[m]|]
  {
    var n := |t.items[m]|;
    var s := ThrowsUpTo(rules, t, m, n);
    Troop(s.items[m := s.items[m][n..]], s.counts, s.worry)
  }

  /** Monkeys 0 .. m-1 have had their turn. */
  function RoundUpTo(rules: seq<Rule>, t: Troop, m: nat): (r: Troop)
    requires RulesOk(rules) && Fits(rules, t) && m <= |rules|
    ensures Fits(rules, r) && |r.worry| == |t.worry|
  {
    if m == 0 then t else Turn(rules, RoundUpTo(rules, t, m - 1), m - 1)
  }

  function Round(rules: seq<Rule>, t: Troop): (r: Troop)
    requires RulesOk(rules) && Fits(rules, t)
    ensures Fits(rules, r) && |r.worry| == |t.worry|
  {
    RoundUpTo(rules, t, |rules|)
  }

  function Rounds(rules: seq<Rule>, t: Troop, n: nat): (r: Troop)
    requires RulesOk(rules) && Fits(rules, t)
    ensures Fits(rules, r) && |r.worry| == |t.worry|
  {
    if n == 0 then t else Round(rules, Rounds(rules, t, n - 1))
  }

  // ---------------------------------------------------------------- items are conserved

  /** How many times `k` occurs in `s`. */
  function Count(s: seq<nat>, k: nat): nat
  {
    if s == [] then 0 else Count(s[..|s| - 1], k) + (if s[|s| - 1] == k then 1 else 0)
  }

  lemma {:induction false} CountAppend(a: seq<nat>, b: seq<nat>, k: nat)
    ensures Count(a + b, k) == Count(a, k) + Count(b, k)
    decreases |b|
  {
    if b != [] {
      var c := b[..|b| - 1];
      CountAppend(a, c, k);
      assert (a + b)[..|a + b| - 1] == a + c;
    } else {
      assert a + b == a;
    }
  }

  /** How many times item `k` is held, counting every monkey. */
  function Held(items: seq<seq<nat>>, k: nat): nat
  {
    if items == [] then 0 else Held(items[..|items| - 1], k) + Count(items[|items| - 1], k)
  }

  lemma HeldSnoc(items: seq<seq<nat>>, p: nat, k: nat)
    requires p < |items|
    ensures Held(items[..p + 1], k) == Held(items[..p], k) + Count(items[p], k)
  {
    assert items[..p + 1][..p] == items[..p];
  }

  /** Replacing monkey `i`'s items by `x` trades the old items for `x`. */
  lemma {:induction false} HeldUpdate(items: seq<seq<nat>>, i: nat, x: seq<nat>, k: nat)
    requires i < |items|
    ensures Held(items[i := x], k) + Count(items[i], k) == Held(items, k) + Count(x, k)
    decreases |items|
  {
    var n := |items| - 1;
    var ns := items[i := x];
    if i == n {
      assert ns[..n] == items[..n];
    } else {
      assert ns[..n] == items[..n][i := x];
      HeldUpdate(items[..n], i, x, k);
    }
  }

  lemma InspectConserves(rules: seq<Rule>, t: Troop, m: nat, k: nat, item: nat)
    requires RulesOk(rules) && Fits(rules, t) && m < |rules|
    ensures Held(Inspect(rules, t, m, k).items, item) == Held(t.items, item) + (if item == k then 1 else 0)
  {
    var target := Target(rules[m], Apply(rules[m].operation, WorryOf(t, k)));
    var x := t.items[target] + [k];
    assert Count(x, item) == Count(t.items[target], item) + (if item == k then 1 else 0) by {
      CountAppend(t.items[target], [k], item);
      assert [k][..0] == [];
    }
    HeldUpdate(t.items, target, x, item);
  }

  lemma ThrowStep(rules: seq<Rule>, t: Troop, m: nat, p: nat, item: nat)
    requires RulesOk(rules) && Fits(rules, t) && m < |rules| && p < |t.items[m]|
    ensures Held(ThrowsUpTo(rules, t, m, p + 1).items, item) == Held(ThrowsUpTo(rules, t, m, p).items, item)
      + (if item == t.items[m][p] then 1 else 0)
    ensures Count(t.items[m][..p + 1], item) == Count(t.items[m][..p], item)
      + (if item == t.items[m][p] then 1 else 0)
  {
    var s := ThrowsUpTo(rules, t, m, p);
    assert s.items[m][p] == s.items[m][..|t.items[m]|][p] == t.items[m][p];
    InspectConserves(rules, s, m, t.items[m][p], item);
    assert t.items[m][..p + 1][..p] == t.items[m][..p];
  }

  lemma ThrowsConserve(rules: seq<Rule>, t: Troop, m: nat, j: nat, item: nat)
    requires RulesOk(rules) && Fits(rules, t) && m < |rules| && j <= |t.items[m]|
    ensures Held(ThrowsUpTo(rules, t, m, j).items, item) == Held(t.items, item) + Count(t.items[m][..j], item)
  {
    var p := 0;
    while p < j
      invariant p <= j
      invariant Held(ThrowsUpTo(rules, t, m, p).items, item) == Held(t.items, item) + Count(t.items[m][..p], item)
    {
      ThrowStep(rules, t, m, p, item);
      p := p + 1;
    }
  }

  /** A turn loses no item and duplicates none: every item is held as many times after
      it as before. */
  lemma TurnConserves(rules: seq<Rule>, t: Troop, m: nat, item: nat)
    requires RulesOk(rules) && Fits(rules, t) && m < |rules|
    ensures Held(Turn(rules, t, m).items, item) == Held(t.items, item)
  {
    var mine := t.items[m];
    var n := |mine|;
    var s := ThrowsUpTo(rules, t, m, n);
    var rest := s.items[m][n..];
    assert Held(s.items, item) == Held(t.items, item) + Count(mine, item) by {
      ThrowsConserve(rules, t, m, n, item);
      assert mine[..n] == mine;
    }
    assert Count(s.items[m], item) == Count(mine, item) + Count(rest, item) by {
      assert s.items[m] == mine + rest;
      CountAppend(mine, rest, item);
    }
    HeldUpdate(s.items, m, rest, item);
  }

  lemma TurnsStep(rules: seq<Rule>, t: Troop, q: nat, item: nat)
    requires RulesOk(rules) && Fits(rules, t) && 0 < q <= |rules|
    ensures Held(RoundUpTo(rules, t, q).items, item) == Held(RoundUpTo(rules, t, q - 1).items, item)
  {
    RoundUpToStep(rules, t, q);
    TurnConserves(rules, RoundUpTo(rules, t, q - 1), q - 1, item);
  }

  lemma RoundUpToStep(rules: seq<Rule>, t: Troop, q: nat)
    requires RulesOk(rules) && Fits(rules, t) && 0 < q <= |rules|
    ensures RoundUpTo(rules, t, q) == Turn(rules, RoundUpTo(rules, t, q - 1), q - 1)
  {
  }

  lemma RoundConserves(rules: seq<Rule>, t: Troop, item: nat)
    requires RulesOk(rules) && Fits(rules, t)
    ensures Held(Round(rules, t).items, item) == Held(t.items, item)
  {
    TurnsConserve(rules, t, |rules|, item);
    RoundIsAllTurns(rules, t);
  }

  lemma {:induction false} TurnsConserve(rules: seq<Rule>, t: Troop, p: nat, item: nat)
    requires RulesOk(rules) && Fits(rules, t) && p <= |rules|
    ensures Held(RoundUpTo(rules, t, p).items, item) == Held(t.items, item)
  {
    if p > 0 {
      TurnsConserve(rules, t, p - 1, item);
      TurnsStep(rules, t, p, item);
    }
  }

  /** However many rounds are played, every item is held as many times as at the
      start: no item number is lost or duplicated. */
  lemma RoundsConserve(rules: seq<Rule>, t: Troop, n: nat, item: nat)
    requires RulesOk(rules) && Fits(rules, t)
    ensures Held(Rounds(rules, t, n).items, item) == Held(t.items, item)
  {
    var r := 0;
    while r < n
      invariant r <= n
      invariant Held(Rounds(rules, t, r).items, item) == Held(t.items, item)
    {
      RoundConserves(rules, Rounds(rules, t, r), item);
      r := r + 1;
    }
  }

  // ---------------------------------------------------------------- residues

  /** The program's update of one residue: `(a + v % t) % t`, `(a * v) % t` or
      `(a * a) % t`. */
  function NextResidue(op: Chain, a: nat, t: nat): nat
    requires t > 0
  {
    match op
    case Add(v) => (a + v % t) % t
    case Mul(v) => (a * v) % t
    case MulSelf => (a * a) % t
  }

  /** Division with remainder has one answer. */
  lemma ModUnique(x: nat, q: int, r: int, t: nat)
    requires t > 0 && 0 <= r < t && x == q * t + r
    ensures x % t == r
  {
    var q0, r0 := x / t, x % t;
    assert x == q0 * t + r0;
    var d := q - q0;
    assert d * t == q * t - q0 * t;
    assert d * t == r0 - r;
  }

  lemma ModAdd(w: nat, v: nat, t: nat)
    requires t > 0
    ensures (w % t + v % t) % t == (w + v) % t
  {
    var a, r := w / t, w % t;
    var b, s := v / t, v % t;
    var c, e := (r + s) / t, (r + s) % t;
    assert w + v == (a + b + c) * t + e;
    ModUnique(w + v, a + b + c, e, t);
  }

  lemma ModMul(w: nat, v: nat, t: nat)
    requires t > 0
    ensures ((w % t) * v) % t == (w * v) % t
  {
    var a, r := w / t, w % t;
    var c, e := (r * v) / t, (r * v) % t;
    assert w * v == (a * t + r) * v == (a * v) * t + r * v;
    assert w * v == (a * v + c) * t + e;
    ModUnique(w * v, a * v + c, e, t);
  }

  /** The program's residue update agrees with the true worry level: if `a` is `w`
      modulo `t`, the update gives the new worry level modulo `t`. */
  lemma ResidueStep(op: Chain, w: nat, t: nat)
    requires t > 0
    ensures NextResidue(op, w % t, t) == Apply(op, w) % t
  {
    match op
    case Add(v) =>
      ModAdd(w, v, t);
    case Mul(v) =>
      ModMul(w, v, t);
    case MulSelf =>
      ModMul(w, w % t, t);
      assert w * (w % t) == (w % t) * w;
      ModMul(w, w, t);
  }

  /** Row `row` holds every worry level modulo `test`. */
  predicate ResidueRow(row: seq<nat>, test: nat, worry: seq<nat>)
  {
    test > 0 && |row| == |worry| && forall k :: 0 <= k < |worry| ==> row[k] == worry[k] % test
  }

  /** The residue matrix: row `i` holds every item's worry level modulo monkey `i`'s
      divisor. */
  predicate Residues(matrix: seq<seq<nat>>, rules: seq<Rule>, worry: seq<nat>)
  {
    |matrix| == |rules| && forall i :: 0 <= i < |rules| ==> ResidueRow(matrix[i], rules[i].test, worry)
  }

  lemma ResidueRowUpdate(row: seq<nat>, test: nat, worry: seq<nat>, k: nat, op: Chain)
    requires ResidueRow(row, test, worry) && k < |worry|
    ensures ResidueRow(row[k := NextResidue(op, row[k], test)], test, worry[k := Apply(op, worry[k])])
  {
    ResidueStep(op, worry[k], test);
  }

  // ---------------------------------------------------------------- the program

  function MonkeyOf(r: Rule, items: seq<nat>, count: nat): Monkey
  {
    Monkey(items, r.operation, r.test, r.tr, r.fl, count)
  }

  /** The monkeys the program keeps for a state of the simulation. */
  function Assemble(rules: seq<Rule>, t: Troop): (ms: seq<Monkey>)
    requires Fits(rules, t)
    ensures |ms| == |rules|
    ensures forall i :: 0 <= i < |rules| ==> ms[i] == MonkeyOf(rules[i], t.items[i], t.counts[i])
  {
    seq(|rules|, i requires 0 <= i < |rules| => MonkeyOf(rules[i], t.items[i], t.counts[i]))
  }

  lemma AssembleRules(rules: seq<Rule>, t: Troop)
    requires Fits(rules, t)
    ensures Rules(Assemble(rules, t)) == rules
  {
    var ms := Assemble(rules, t);
    assert forall i :: 0 <= i < |rules| ==> RuleOf(ms[i]) == rules[i];
  }

  /** Changing monkey `i` alone changes only the `i`-th assembled monkey. */
  lemma AssembleUpdate(rules: seq<Rule>, t: Troop, u: Troop, i: nat)
    requires Fits(rules, t) && Fits(rules, u) && i < |rules|
    requires forall l :: 0 <= l < |rules| && l != i ==> u.items[l] == t.items[l] && u.counts[l] == t.counts[l]
    ensures Assemble(rules, u) == Assemble(rules, t)[i := MonkeyOf(rules[i], u.items[i], u.counts[i])]
  {
  }

  lemma InspectInRange(rules: seq<Rule>, t: Troop, m: nat, k: nat)
    requires RulesOk(rules) && Fits(rules, t) && m < |rules| && InRange(t) && k < |t.worry|
    ensures InRange(Inspect(rules, t, m, k))
  {
    var r := Inspect(rules, t, m, k);
    forall i, j | 0 <= i < |r.items| && 0 <= j < |r.items[i]| ensures r.items[i][j] < |r.worry| {
      if j < |t.items[i]| {
        assert r.items[i][j] == t.items[i][j];
      }
    }
  }

  /** The residue update of one inspection: every monkey's row changes at item `k`. */
  method UpdateResidues(matrix: seq<seq<nat>>, ms: seq<Monkey>, op: Chain, k: nat, ghost worry: seq<nat>)
    returns (next: seq<seq<nat>>)
    requires RulesOk(Rules(ms)) && Residues(matrix, Rules(ms), worry) && k < |worry|
    ensures Residues(next, Rules(ms), worry[k := Apply(op, worry[k])])
  {
    ghost var rules := Rules(ms);
    ghost var w := worry[k := Apply(op, worry[k])];
    next := matrix;
    var mi := 0;
    while mi < |next|
      invariant mi <= |next| == |matrix|
      invariant forall i :: 0 <= i < mi ==> ResidueRow(next[i], rules[i].test, w)
      invariant forall i :: mi <= i < |next| ==> next[i] == matrix[i]
    {
      var row := next[mi];
      var test := ms[mi].test;
      ResidueRowUpdate(row, test, worry, k, op);
      var updated: seq<nat> := row[k := NextResidue(op, row[k], test)];
      next := next[mi := updated];
      mi := mi + 1;
    }
  }

  /** Monkey `m` inspects item `k` and throws it. */
  method InspectItem(ms: seq<Monkey>, matrix: seq<seq<nat>>, m: nat, k: nat, ghost rules: seq<Rule>, ghost t: Troop)
    returns (ms': seq<Monkey>, matrix': seq<seq<nat>>)
    requires RulesOk(rules) && Fits(rules, t) && InRange(t) && m < |rules| && k < |t.worry|
    requires ms == Assemble(rules, t) && Residues(matrix, rules, t.worry)
    ensures ms' == Assemble(rules, Inspect(rules, t, m, k))
    ensures Residues(matrix', rules, Inspect(rules, t, m, k).worry)
    ensures InRange(Inspect(rules, t, m, k))
  {
    AssembleRules(rules, t);
    matrix' := UpdateResidues(matrix, ms, ms[m].operation, k, t.worry);
    ghost var w := Apply(rules[m].operation, t.worry[k]);
    ghost var target := Target(rules[m], w);
    assert matrix'[m][k] == w % rules[m].test;
    ms' := ms[m := ms[m].(inspectionCount := ms[m].inspectionCount + 1)];
    ghost var t1 := Troop(t.items, t.counts[m := t.counts[m] + 1], t.worry);
    AssembleUpdate(rules, t, t1, m);
    var newPos := if matrix'[m][k] == 0 then ms'[m].tr else ms'[m].fl;
    assert newPos == target;
    ms' := ms'[newPos := ms'[newPos].(itemWorryIndex := ms'[newPos].itemWorryIndex + [k])];
    AssembleUpdate(rules, t1, Inspect(rules, t, m, k), newPos);
    InspectInRange(rules, t, m, k);
  }

  /** The program's state `ms`, `matrix` stands for the simulation state `t`: the same
      monkeys, item numbers and counts, and the residues of `t`'s worry levels. */
  predicate Simulates(ms: seq<Monkey>, matrix: seq<seq<nat>>, rules: seq<Rule>, t: Troop)
  {
    RulesOk(rules) && Fits(rules, t) && InRange(t) && ms == Assemble(rules, t) && Residues(matrix, rules, t.worry)
  }

  /** The first loop of a turn: every item monkey `m` held when the turn began is
      inspected and thrown, and its position is recorded. */
  method ThrowItems(ms: seq<Monkey>, matrix: seq<seq<nat>>, m: nat, ghost rules: seq<Rule>, ghost t: Troop)
    returns (ms': seq<Monkey>, matrix': seq<seq<nat>>, toRemove: seq<nat>)
    requires Simulates(ms, matrix, rules, t) && m < |rules|
    ensures Simulates(ms', matrix', rules, ThrowsUpTo(rules, t, m, |t.items[m]|))
    ensures |toRemove| == |t.items[m]| && forall i :: 0 <= i < |toRemove| ==> toRemove[i] == i
  {
    ms', matrix' := ms, matrix;
    toRemove := [];
    var n := |ms[m].itemWorryIndex|;
    var j: nat := 0;
    while j < n
      invariant j <= n == |t.items[m]|
      invariant Simulates(ms', matrix', rules, ThrowsUpTo(rules, t, m, j))
      invariant |toRemove| == j && forall i :: 0 <= i < j ==> toRemove[i] == i
    {
      toRemove := toRemove + [j];
      ms', matrix' := ThrowNext(ms', matrix', m, j, rules, t);
      j := j + 1;
    }
  }

  /** One pass of the first loop: the `j`-th item monkey `m` held is inspected and
      thrown. */
  method ThrowNext(ms: seq<Monkey>, matrix: seq<seq<nat>>, m: nat, j: nat, ghost rules: seq<Rule>, ghost t: Troop)
    returns (ms': seq<Monkey>, matrix': seq<seq<nat>>)
    requires RulesOk(rules) && Fits(rules, t) && m < |rules| && j < |t.items[m]|
    requires Simulates(ms, matrix, rules, ThrowsUpTo(rules, t, m, j))
    ensures Simulates(ms', matrix', rules, ThrowsUpTo(rules, t, m, j + 1))
  {
    ghost var s := ThrowsUpTo(rules, t, m, j);
    AssembleRules(rules, s);
    var k := ms[m].itemWorryIndex[j];
    assert k == s.items[m][j];
    ms', matrix' := InspectItem(ms, matrix, m, k, rules, s);
  }

  /** The second loop of a turn: `list.remove(i - x)` for the `x`-th recorded position
      `i`; as the positions are 0, 1, 2, ... every removal takes the front item. */
  method RemoveThrown(ms: seq<Monkey>, m: nat, toRemove: seq<nat>) returns (ms': seq<Monkey>)
    requires m < |ms| && |toRemove| <= |ms[m].itemWorryIndex|
    requires forall i :: 0 <= i < |toRemove| ==> toRemove[i] == i
    ensures ms' == ms[m := ms[m].(itemWorryIndex := ms[m].itemWorryIndex[|toRemove|..])]
  {
    ms' := ms;
    var x := 0;
    while x < |toRemove|
      invariant x <= |toRemove|
      invariant ms' == ms[m := ms[m].(itemWorryIndex := ms[m].itemWorryIndex[x..])]
    {
      var i := toRemove[x] - x;
      var list := ms'[m].itemWorryIndex;
      ms' := ms'[m := ms'[m].(itemWorryIndex := list[..i] + list[i + 1..])];
      assert list[..i] + list[i + 1..] == ms[m].itemWorryIndex[x + 1..];
      x := x + 1;
    }
  }

  /** Monkey `m`'s turn as the program takes it agrees with the turn over true worry
      levels. */
  method TakeTurn(ms: seq<Monkey>, matrix: seq<seq<nat>>, m: nat, ghost rules: seq<Rule>, ghost t: Troop)
    returns (ms': seq<Monkey>, matrix': seq<seq<nat>>)
    requires Simulates(ms, matrix, rules, t) && m < |rules|
    ensures Simulates(ms', matrix', rules, Turn(rules, t, m))
  {
    var toRemove;
    ms', matrix', toRemove := ThrowItems(ms, matrix, m, rules, t);
    ghost var s := ThrowsUpTo(rules, t, m, |t.items[m]|);
    ms' := RemoveThrown(ms', m, toRemove);
    AssembleUpdate(rules, s, Turn(rules, t, m), m);
    assert InRange(Turn(rules, t, m)) by {
      var u := Turn(rules, t, m);
      forall i, j | 0 <= i < |u.items| && 0 <= j < |u.items[i]| ensures u.items[i][j] < |u.worry| {
        if i == m {
          assert u.items[i][j] == s.items[m][|toRemove| + j];
        }
      }
    }
  }

  /** One round: every monkey takes its turn, in order. */
  method PlayRound(ms: seq<Monkey>, matrix: seq<seq<nat>>, ghost rules: seq<Rule>, ghost t: Troop)
    returns (ms': seq<Monkey>, matrix': seq<seq<nat>>)
    requires Simulates(ms, matrix, rules, t)
    ensures Simulates(ms', matrix', rules, Round(rules, t))
  {
    ms', matrix' := ms, matrix;
    var m := 0;
    while m < |ms'|
      invariant m <= |rules| && |ms'| == |rules|
      invariant Simulates(ms', matrix', rules, RoundUpTo(rules, t, m))
    {
      ms', matrix' := TakeTurn(ms', matrix', m, rules, RoundUpTo(rules, t, m));
      m := m + 1;
    }
    RoundIsAllTurns(rules, t);
    SimulatesSame(ms', matrix', rules, RoundUpTo(rules, t, m), Round(rules, t));
  }

  lemma SimulatesSame(ms: seq<Monkey>, matrix: seq<seq<nat>>, rules: seq<Rule>, a: Troop, b: Troop)
    requires Simulates(ms, matrix, rules, a) && a == b
    ensures Simulates(ms, matrix, rules, b)
  {
  }

  lemma RoundIsAllTurns(rules: seq<Rule>, t: Troop)
    requires RulesOk(rules) && Fits(rules, t)
    ensures Round(rules, t) == RoundUpTo(rules, t, |rules|)
  {
  }

  /** `rounds` rounds. */
  method Play(ms: seq<Monkey>, matrix: seq<seq<nat>>, rounds: nat, ghost rules: seq<Rule>, ghost t: Troop)
    returns (ms': seq<Monkey>)
    requires Simulates(ms, matrix, rules, t)
    ensures ms' == Assemble(rules, Rounds(rules, t, rounds))
  {
    ms' := ms;
    var matrix' := matrix;
    var round := 0;
    while round < rounds
      invariant round <= rounds
      invariant Simulates(ms', matrix', rules, Rounds(rules, t, round))
    {
      ms', matrix' := PlayRound(ms', matrix', rules, Rounds(rules, t, round));
      round := round + 1;
    }
  }

  // ---------------------------------------------------------------- setting up

  /** Every parsed worry level, monkey by monkey, in order. */
  function Worries(ms: seq<Monkey>): seq<nat>
  {
    if ms == [] then [] else Worries(ms[..|ms| - 1]) + ms[|ms| - 1].itemWorryIndex
  }

  /** How many items the monkeys before monkey `i` hold: the first number given to
      monkey `i`'s items. */
  function Offset(ms: seq<Monkey>, i: nat): nat
    requires i <= |ms|
  {
    |Worries(ms[..i])|
  }

  lemma OffsetStep(ms: seq<Monkey>, i: nat)
    requires i < |ms|
    ensures Worries(ms[..i + 1]) == Worries(ms[..i]) + ms[i].itemWorryIndex
    ensures Offset(ms, i + 1) == Offset(ms, i) + |ms[i].itemWorryIndex|
  {
    assert ms[..i + 1][..i] == ms[..i];
  }

  /** `n` consecutive numbers from `lo`. */
  function Range(lo: nat, n: nat): (r: seq<nat>)
    ensures |r| == n && forall j :: 0 <= j < n ==> r[j] == lo + j
  {
    seq(n, j requires 0 <= j < n => lo + j)
  }

  /** The simulation state the program starts from: the items are numbered in reading
      order, item `k`'s worry level is the `k`-th parsed level, and the counts are the
      parsed ones. */
  function Start(ms: seq<Monkey>): (t: Troop)
    ensures Fits(Rules(ms), t)
  {
    Troop(seq(|ms|, i requires 0 <= i < |ms| => Range(Offset(ms, i), |ms[i].itemWorryIndex|)),
          seq(|ms|, i requires 0 <= i < |ms| => ms[i].inspectionCount),
          Worries(ms))
  }

  /** The program's first loop: the worry levels are gathered, monkey by monkey, and
      every item's worry level is replaced by its position among them. */
  method NumberItems(ms: seq<Monkey>) returns (items: seq<nat>, ms': seq<Monkey>)
    ensures items == Worries(ms) && ms' == Assemble(Rules(ms), Start(ms))
  {
    ms' := ms;
    items := [];
    var counter := 0;
    var i := 0;
    while i < |ms'|
      invariant i <= |ms'| == |ms|
      invariant items == Worries(ms[..i]) && counter == |items|
      invariant forall l :: 0 <= l < i ==> ms'[l] == ms[l].(itemWorryIndex := Range(Offset(ms, l), |ms[l].itemWorryIndex|))
      invariant forall l :: i <= l < |ms| ==> ms'[l] == ms[l]
    {
      OffsetStep(ms, i);
      var m;
      items, m, counter := NumberMonkey(items, ms'[i], counter);
      ms' := ms'[i := m];
      i := i + 1;
    }
    assert ms[..i] == ms;
    ghost var rules := Rules(ms);
    ghost var t := Start(ms);
    forall l | 0 <= l < |ms| ensures ms'[l] == Assemble(rules, t)[l] {
      assert RuleOf(ms[l]) == rules[l];
    }
  }

  /** The inner loop for one monkey: its worry levels are appended to `items` and
      replaced by the next numbers. */
  method NumberMonkey(items: seq<nat>, m: Monkey, counter: nat) returns (items': seq<nat>, m': Monkey, counter': nat)
    requires counter == |items|
    ensures items' == items + m.itemWorryIndex && counter' == |items'|
    ensures m' == m.(itemWorryIndex := Range(counter, |m.itemWorryIndex|))
  {
    var list := m.itemWorryIndex;
    items', counter' := items, counter;
    var j := 0;
    while j < |list|
      invariant j <= |list| == |m.itemWorryIndex|
      invariant items' == items + m.itemWorryIndex[..j] && counter' == |items'| == counter + j
      invariant forall l :: 0 <= l < j ==> list[l] == counter + l
      invariant forall l :: j <= l < |list| ==> list[l] == m.itemWorryIndex[l]
    {
      items' := items' + [list[j]];
      list := list[j := counter'];
      counter' := counter' + 1;
      j := j + 1;
      assert m.itemWorryIndex[..j] == m.itemWorryIndex[..j - 1] + [m.itemWorryIndex[j - 1]];
    }
    assert m.itemWorryIndex[..j] == m.itemWorryIndex;
    m' := m.(itemWorryIndex := list);
    assert list == Range(counter, |m.itemWorryIndex|);
  }

  lemma PrefixOfAppend(a: seq<nat>, b: seq<nat>, n: nat)
    requires n <= |a|
    ensures (a + b)[..n] == a[..n]
  {
  }

  /** The worry levels of the first `p` monkeys begin the list of all of them. */
  lemma {:induction false} WorriesPrefix(ms: seq<Monkey>, p: nat)
    requires p <= |ms|
    ensures Offset(ms, p) <= |Worries(ms)| && Worries(ms)[..Offset(ms, p)] == Worries(ms[..p])
    decreases |ms|
  {
    if p < |ms| {
      var init := ms[..|ms| - 1];
      assert init[..p] == ms[..p];
      WorriesPrefix(init, p);
      PrefixOfAppend(Worries(init), ms[|ms| - 1].itemWorryIndex, Offset(ms, p));
    } else {
      assert ms[..p] == ms;
    }
  }

  /** Item number `Offset(ms, i) + j`, the one monkey `i`'s `j`-th item gets, starts with
      that item's parsed worry level. */
  lemma StartWorry(ms: seq<Monkey>, i: nat, j: nat)
    requires i < |ms| && j < |ms[i].itemWorryIndex|
    ensures Start(ms).items[i][j] == Offset(ms, i) + j < |Start(ms).worry|
    ensures Start(ms).worry[Offset(ms, i) + j] == ms[i].itemWorryIndex[j]
  {
    OffsetStep(ms, i);
    WorriesPrefix(ms, i + 1);
    assert Worries(ms)[..Offset(ms, i + 1)][Offset(ms, i) + j] == Worries(ms)[Offset(ms, i) + j];
  }

  lemma StartInRange(ms: seq<Monkey>)
    ensures InRange(Start(ms))
  {
    var t := Start(ms);
    forall i, j | 0 <= i < |t.items| && 0 <= j < |t.items[i]| ensures t.items[i][j] < |t.worry| {
      StartWorry(ms, i, j);
    }
  }

  /** Consecutive numbers hold `k` once if it is among them. */
  lemma CountRange(lo: nat, n: nat, k: nat)
    ensures Count(Range(lo, n), k) == if lo <= k < lo + n then 1 else 0
  {
    var p := 0;
    while p < n
      invariant p <= n
      invariant Count(Range(lo, p), k) == if lo <= k < lo + p then 1 else 0
    {
      assert Range(lo, p + 1)[..p] == Range(lo, p);
      p := p + 1;
    }
  }

  /** At the start every item number below the number of items is held exactly once,
      and no other number is held. */
  lemma StartHeldOnce(ms: seq<Monkey>, k: nat)
    ensures Held(Start(ms).items, k) == if k < |Worries(ms)| then 1 else 0
  {
    var items := Start(ms).items;
    var p := 0;
    while p < |ms|
      invariant p <= |ms|
      invariant Held(items[..p], k) == if k < Offset(ms, p) then 1 else 0
    {
      HeldSnoc(items, p, k);
      OffsetStep(ms, p);
      CountRange(Offset(ms, p), |ms[p].itemWorryIndex|, k);
      p := p + 1;
    }
    assert items[..p] == items && ms[..p] == ms;
  }

  /** However many rounds are played, every item is held by exactly one monkey, once:
      no item is lost or duplicated. */
  lemma ItemsHeldOnce(ms: seq<Monkey>, n: nat, k: nat)
    requires RulesOk(Rules(ms))
    ensures Held(Rounds(Rules(ms), Start(ms), n).items, k) == if k < |Worries(ms)| then 1 else 0
  {
    RoundsConserve(Rules(ms), Start(ms), n, k);
    StartHeldOnce(ms, k);
  }

  /** The program's residue matrix: one copy of the worry levels per monkey, each taken
      modulo that monkey's divisor. */
  method BuildMatrix(items: seq<nat>, ms: seq<Monkey>) returns (matrix: seq<seq<nat>>)
    requires forall i :: 0 <= i < |ms| ==> ms[i].test > 0
    ensures Residues(matrix, Rules(ms), items)
  {
    matrix := seq(|ms|, _ => items);
    var mi := 0;
    while mi < |matrix|
      invariant mi <= |matrix| == |ms|
      invariant forall i :: 0 <= i < mi ==> ResidueRow(matrix[i], ms[i].test, items)
      invariant forall i :: mi <= i < |matrix| ==> matrix[i] == items
    {
      var row := matrix[mi];
      var c := 0;
      while c < |row|
        invariant c <= |row| == |items|
        invariant forall k :: 0 <= k < c ==> row[k] == items[k] % ms[mi].test
        invariant forall k :: c <= k < |row| ==> row[k] == items[k]
      {
        row := row[c := row[c] % ms[mi].test];
        c := c + 1;
      }
      matrix := matrix[mi := row];
      mi := mi + 1;
    }
  }

  // ---------------------------------------------------------------- the answer

  /** `fold(1, |acc, c| acc * c)`. */
  function Product(s: seq<int>): int
  {
    if s == [] then 1 else Product(s[..|s| - 1]) * s[|s| - 1]
  }

  /** The monkeys sorted by inspection count, largest first; the product of the first
      two counts (of fewer when there are fewer monkeys). */
  function MonkeyBusiness(counts: seq<int>): int
  {
    var s := Sorting.SortDesc(counts);
    Product(if |s| < 2 then s else s[..2])
  }

  /** Removing position `i` removes one copy of its element. */
  lemma RemoveAt(a: seq<int>, i: nat)
    requires i < |a|
    ensures multiset(a[..i] + a[i + 1..]) == multiset(a) - multiset{a[i]}
  {
    assert a == a[..i] + [a[i]] + a[i + 1..];
  }

  /** Monkeys `i` and `j` are two different monkeys with a largest count and a largest
      count among the others. */
  predicate TopPair(counts: seq<int>, i: int, j: int)
  {
    0 <= i < |counts| && 0 <= j < |counts| && i != j
    && (forall l :: 0 <= l < |counts| ==> counts[l] <= counts[i])
    && (forall l :: 0 <= l < |counts| && l != i ==> counts[l] <= counts[j])
  }

  lemma FirstIsMax(counts: seq<int>) returns (i: nat)
    requires |counts| > 0
    ensures i < |counts| && counts[i] == Sorting.SortDesc(counts)[0]
    ensures forall l :: 0 <= l < |counts| ==> counts[l] <= counts[i]
  {
    var s := Sorting.SortDesc(counts);
    Sorting.SortDescSorted(counts);
    Sorting.SortDescPerm(counts);
    assert s[0] in multiset(counts);
    i :| 0 <= i < |counts| && counts[i] == s[0];
    forall l | 0 <= l < |counts| ensures counts[l] <= counts[i] {
      assert counts[l] in multiset(s);
      Sorting.HeadIsMax(s, counts[l]);
    }
  }

  /** A value held by the other monkeys is the count of a monkey other than `i`, and
      every other monkey's count is held by them. */
  lemma Others(counts: seq<int>, i: nat, v: int) returns (j: nat)
    requires i < |counts| && v in multiset(counts[..i] + counts[i + 1..])
    ensures j < |counts| && j != i && counts[j] == v
    ensures forall l :: 0 <= l < |counts| && l != i ==> counts[l] in multiset(counts[..i] + counts[i + 1..])
  {
    var rest := counts[..i] + counts[i + 1..];
    var j' :| 0 <= j' < |rest| && rest[j'] == v;
    j := if j' < i then j' else j' + 1;
    forall l | 0 <= l < |counts| && l != i ensures counts[l] in multiset(rest) {
      var l' := if l < i then l else l - 1;
      assert rest[l'] == counts[l];
    }
  }

  lemma SecondIsMax(counts: seq<int>, i: nat) returns (j: nat)
    requires |counts| >= 2 && i < |counts| && counts[i] == Sorting.SortDesc(counts)[0]
    ensures j < |counts| && j != i && counts[j] == Sorting.SortDesc(counts)[1]
    ensures forall l :: 0 <= l < |counts| && l != i ==> counts[l] <= counts[j]
  {
    var s := Sorting.SortDesc(counts);
    var tail := s[1..];
    assert multiset(counts[..i] + counts[i + 1..]) == multiset(tail) by {
      RemoveAt(counts, i);
      Sorting.SortDescPerm(counts);
      Sorting.MultisetTail(s);
    }
    assert Sorting.NonIncreasing(tail) by {
      Sorting.SortDescSorted(counts);
      Sorting.TailNonIncreasing(s);
    }
    assert tail[0] in multiset(tail);
    j := Others(counts, i, tail[0]);
    forall l | 0 <= l < |counts| && l != i ensures counts[l] <= counts[j] {
      Sorting.HeadIsMax(tail, counts[l]);
    }
  }

  lemma ProductPair(a: int, b: int)
    ensures Product([a, b]) == a * b
  {
    assert Product([a]) == a by { assert [a][..0] == []; }
    assert [a, b][..1] == [a];
  }

  /** With two monkeys or more, the answer is the product of the counts of two
      different monkeys: a largest count, and a largest among the others. */
  lemma MonkeyBusinessTop(counts: seq<int>)
    requires |counts| >= 2
    ensures exists i, j :: TopPair(counts, i, j) && MonkeyBusiness(counts) == counts[i] * counts[j]
  {
    var s := Sorting.SortDesc(counts);
    var i := FirstIsMax(counts);
    var j := SecondIsMax(counts, i);
    assert s[..2] == [s[0], s[1]];
    ProductPair(s[0], s[1]);
    assert TopPair(counts, i, j);
  }

  /** The program's last step: sort the counts, largest first, and multiply the first
      two. */
  method TopTwoProduct(counts: seq<int>) returns (r: int)
    ensures r == MonkeyBusiness(counts)
  {
    var sorted := Sorting.SortDesc(counts);
    r := 1;
    var i := 0;
    while i < |sorted| && i < 2
      invariant i <= |sorted| && i <= 2
      invariant r == Product(sorted[..i])
    {
      assert sorted[..i + 1][..i] == sorted[..i];
      r := r * sorted[i];
      i := i + 1;
    }
    assert sorted[..i] == if |sorted| < 2 then sorted else sorted[..2];
  }

  /** The program's set-up: numbered items and the residue matrix stand for the start
      of the simulation. */
  method Setup(monkeys: seq<Monkey>) returns (numbered: seq<Monkey>, matrix: seq<seq<nat>>)
    requires RulesOk(Rules(monkeys))
    ensures Simulates(numbered, matrix, Rules(monkeys), Start(monkeys))
  {
    var items;
    items, numbered := NumberItems(monkeys);
    matrix := BuildMatrix(items, monkeys);
    StartInRange(monkeys);
  }

  /** Part 2: parse the monkeys, number the items, build the residue matrix, play 10000
      rounds over residues and multiply the two largest inspection counts. The answer is
      that of the simulation over true worry levels. */
  method Part2(input: string) returns (r: int)
    requires ParsesWithoutPanic(Chunks(input)) && ParseAll(Chunks(input)).Ok?
    requires RulesOk(Rules(ParseAll(Chunks(input)).value))
    ensures var ms := ParseAll(Chunks(input)).value;
      r == MonkeyBusiness(Rounds(Rules(ms), Start(ms), 10000).counts)
  {
    var monkeys := ParseAll(Chunks(input)).value;
    var numbered, matrix := Setup(monkeys);
    var finished := Play(numbered, matrix, 10000, Rules(monkeys), Start(monkeys));
    var counts := seq(|finished|, i requires 0 <= i < |finished| => finished[i].inspectionCount);
    assert counts == Rounds(Rules(monkeys), Start(monkeys), 10000).counts;
    r := TopTwoProduct(counts);
  }
}
