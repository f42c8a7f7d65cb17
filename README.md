# Advent of Code 2022 solvers, modelled in Dafny

This project models the puzzle solvers of the `advent_of_code_2022` repository: one solver
per puzzle day, each reading the puzzle input as text and returning a number (or, for day 5,
a string of crate letters). The solvers are modelled day by day, together with the
fixed-size chunking iterator from `src/utill/chunk.rs`. The project proves properties of the
model.

The modules are:

- `Wrappers`: `Option` and `Result`. `Result` stands for the `anyhow::Result` values the
  parsers return. An error keeps the parser's message where the program sets one.
- `Text`: the string operations the parsers use, written out on `seq<char>`. These are
  `lines`, `split`, `split_once`, `trim` and the integer parsers for the source's widths.
- `Sorting`: insertion sorts that stand for the standard library's `sort`. Each comes with
  its ordering and permutation lemmas.
- `Chunk`: the `Chunk` iterator, a class over a sequence of items with the iterator's cursor
  as a field.
- `Day1` … `Day15`: one module per day (there is no day 16; its stubs return 0). Each module
  holds:
  - the day's data as datatypes;
  - the parsing as functions over `Result`;
  - the solving loops as methods, proved against specification functions;
  - lemmas that state what the puzzle promises about those functions.

The source's mutable state takes these forms:

- Where the source updates an object in place, the model uses a class:
  - `Day7.SizeCache`, the memoised directory sizes;
  - `Day8.GridIterator`;
  - `Day12.Board`, whose parent pointers the search writes;
  - `Day14.Cave`, whose columns the sand fills.
- Where the source updates local vectors in loops, the model uses methods that update local
  sequences, with loop invariants tying them to the specification functions.

Machine integers are unbounded `int`/`nat` here. Where the source's width matters, the model
says so:

- parsing bounds every number to the source's integer type;
- `find_slice`'s `as usize` cast is written out modulo 2^64.

A `panic` in the source (an `unwrap`, an out-of-range index, an `unreachable!`) becomes a
precondition of the model's operation.

## Model

| member | source | states |
|---|---|---|
| Chunk.Chunks | src/utill/chunk.rs:21-27 | every array the iterator yields before its first None holds exactly A items |
| Chunk.ChunksConcat | src/utill/chunk.rs:21-27 | the yielded arrays, concatenated, are the leading items in order, and fewer than A items are left over |
| Chunk.ChunksCover | src/utill/chunk.rs:21-27 | for A >= 1 and n items exactly floor(n/A) arrays are yielded, concatenating to the first A*floor(n/A) items |
| Chunk.Chunk.Next | src/utill/chunk.rs:21-27 | with at least A items left, yields the next A in order and consumes them; otherwise yields None and the partial group is consumed; for A = 0 yields an empty array and consumes nothing |
| Chunk.Chunk.CollectAll | src/utill/chunk.rs:15-28 | driving the iterator to its first None collects exactly the specified chunks and leaves nothing |
| Chunk.ChunkAt | src/utill/chunk.rs:21-27 | the k-th yielded array is the k-th run of A consecutive items, starting at item A*k |
| Chunk.ChunksAt | src/utill/chunk.rs:21-27 | exactly floor(n/A) arrays are yielded and each of them, at index k, holds items A*k .. A*k+A-1 |
| Chunk.ExampleChunks | src/utill/chunk.rs:42-53 | the text "1 2 3 4 5 6 7 8 9" splits at ' ' into its nine digits, chunks by 3 into [1,2,3], [4,5,6], [7,8,9], and joining each chunk with commas and the chunks with vertical bars gives the test's expected answer |
| Day1.GroupValues | src/days/day1/mod.rs:4-5 | one value per blank-line-separated group, each the sum of the group's lines that parse |
| Day1.GroupValuesNonNegative | src/days/day1/mod.rs:5 | group values, sums of parsed `u32`s, are never negative |
| Day1.TopInsertAt | src/days/day1/mod.rs:6-13 | a value exceeding entry i (and no earlier one) is inserted at i, later entries shift down and the last is dropped |
| Day1.TopInsertNone | src/days/day1/mod.rs:6-13 | a value exceeding no entry leaves `maxes` unchanged |
| Day1.TopInsertPrefix | src/days/day1/mod.rs:6-13 | meeting a value on the first n entries of a descending list equals inserting it in order and keeping n entries |
| Day1.RotateRight | src/days/day1/mod.rs:9 | `rotate_right(1)` on `maxes[i..]` moves the last entry to position i and shifts the rest down |
| Day1.PlaceAt | src/days/day1/mod.rs:9-10 | after the rotation and the store, the new value sits at position i, the earlier entries are unchanged and the later ones are the old ones shifted down by one, the last dropped |
| Day1.InsertTop | src/days/day1/mod.rs:6-13 | the inner loop performs exactly the specified insertion of the current group value |
| Day1.TopNStep | src/days/day1/mod.rs:4-14 | one group of the outer loop keeps `maxes` equal to the n largest values seen so far, zero-padded |
| Day1.TopN | src/days/day1/mod.rs:3-14 | after all groups `maxes` holds the n largest group values in descending order, zeros standing in for missing groups |
| Day1.PaddedSort | src/days/day1/mod.rs:3-14 | sorting non-negative values together with n zeros places the zeros last |
| Day1.SumArray | src/days/day1/mod.rs:15 | the final sum adds the entries of `maxes` |
| Day1.GetNMaxes | src/days/day1/mod.rs:1-16 | returns the sum of the n largest group values, zero-padded when there are fewer than n groups |
| Day1.FastMatchesSlow | src/days/day1/mod.rs:18-26 | with at least n groups, `get_n_maxes` and `get_slow_n_maxes` agree |
| Day1.GroupTextValue | src/days/day1/mod.rs:5 | a group written as decimal `u32` lines, one per line, reads back as the sum of its numbers |
| Day1.InventoryValues | src/days/day1/mod.rs:4-5 | an inventory written as text (non-empty groups of `u32` lines joined by blank lines) reads back as the totals of its groups, in order |
| Day1.SampleValues | src/days/day1/mod.rs:32-45 | the sample text, exactly as written in the test, gives the group values 6000, 4000, 11000, 24000, 10000 |
| Day1.SampleSorted | src/days/day1/mod.rs:32-45 | the values 6000, 4000, 11000, 24000, 10000 (which `Day1.SampleValues` derives from the sample text) sort to 24000, 11000, 10000, 6000, 4000 |
| Day1.SampleTotals | src/days/day1/mod.rs:32-53 | on the sample text the top 1 is 24000 and the top 3 add to 45000, both by the in-place top-N result and by the sort-based version |
| Day2.ParseShape | src/days/day2/mod.rs:8-20 | A and X are rock, B and Y paper, C and Z scissors, each in both directions; other text is excluded (the source panics) |
| Day2.Game | src/days/day2/mod.rs:22-47 | the score is the shape value plus 6 for a win, 3 for a draw and 0 for a loss, so it lies in 1..9 |
| Day2.Trichotomy | src/days/day2/mod.rs:36-46 | of two shapes exactly one beats the other unless they are equal, and a shape never beats itself |
| Day2.DrawIffSame | src/days/day2/mod.rs:37-45 | a game scores as a draw exactly when both shapes are equal |
| Day2.OutcomesAddUp | src/days/day2/mod.rs:35-47 | the two players' scores of a game add up to both shape values plus 6 |
| Day2.ParseOutcome | src/days/day2/mod.rs:70-79 | X is lose, Y draw and Z win, in both directions |
| Day2.OutcomeGame | src/days/day2/mod.rs:81-98 | the score is that of a shape s actually played against the opponent, and equals s's value plus the requested outcome's value |
| Day2.ResponseUnique | src/days/day2/mod.rs:86-98 | at most one shape reaches a requested outcome against a given opponent |
| Day2.RoundScore1 | src/days/day2/mod.rs:54-59 | one round of part 1 scores between 1 and 9 |
| Day2.Score1 | src/days/day2/mod.rs:50-61 | part 1's total is at most 9 per line |
| Day2.FormatRoundParses | src/days/day2/mod.rs:54-59 | a printed round parses back and scores as the game it describes |
| Day2.Score1Lines | src/days/day2/mod.rs:50-61 | scoring printed rounds line by line gives the total score of the rounds |
| Day2.Part1OfGuide | src/days/day2/mod.rs:50-61 | part 1 of a printed strategy guide is the total score of its rounds |
| Day2.Part1 | src/days/day2/mod.rs:50-61 | part 1 over the pieces of `split('\n')`, empty pieces skipped, is at most 9 per piece |
| Day2.RoundScore2 | src/days/day2/mod.rs:105-110 | a part-2 line scores the game of some shape s against the opponent's shape, equal to s's value plus the requested outcome's value, between 1 and 9 |
| Day2.Score2 | src/days/day2/mod.rs:101-112 | part 2's total is at most 9 per line |
| Day2.Part2 | src/days/day2/mod.rs:101-112 | part 2 over the pieces of `split('\n')`, empty pieces skipped, is at most 9 per piece |
| Day2.FormatPlanParses | src/days/day2/mod.rs:105-110 | a printed plan parses back and scores the response that reaches its outcome |
| Day2.Score2Lines | src/days/day2/mod.rs:101-112 | scoring printed plans line by line gives the total score of the plans |
| Day2.Part2OfPlan | src/days/day2/mod.rs:101-112 | part 2 of a printed guide is the total score of the responses its plans ask for |
| Day2.Sample | src/days/day2/mod.rs:118-126 | the sample text "A Y", "B X", "C Z" is accepted by both parts; part 1 gives 15 and part 2 gives 12 |
| Day3.Priority | src/days/day3/mod.rs:4-10 | lower-case letters get 1..26 and upper-case letters 27..52 |
| Day3.PriorityLetterOf | src/days/day3/mod.rs:4-10 | priority is a bijection between the ASCII letters and 1..52 |
| Day3.PriorityInjective | src/days/day3/mod.rs:4-10 | two letters with the same priority are the same letter |
| Day3.PrioritySumBelow | src/days/day3/mod.rs:18-26 | a sum of priorities of distinct items below byte n is non-negative, and zero exactly when no item lies below n |
| Day3.PrioritySum | src/days/day3/mod.rs:18-26 | a sum of priorities of distinct valid items is non-negative, and zero exactly when there are no items |
| Day3.PrioritySumOfFew | src/days/day3/mod.rs:18-26 | the empty set sums to 0 and a single item to its priority |
| Day3.Common | src/days/day3/mod.rs:15-17 | the items common to both halves are items of the rucksack, and a rucksack of fewer than two items has none |
| Day3.CommonMeans | src/days/day3/mod.rs:15-25 | an item is common exactly when it occurs before position len/2 and also at or after it |
| Day3.Part1Lines | src/days/day3/mod.rs:11-29 | part 1's total is non-negative, and zero exactly when no rucksack shares an item between its halves |
| Day3.Part1 | src/days/day3/mod.rs:11-29 | over the lines of the input, part 1 is non-negative and zero exactly when no line shares an item between its halves |
| Day3.Part1OneShared | src/days/day3/mod.rs:11-29 | when each rucksack shares exactly one item between its halves, part 1 is the sum of those items' priorities |
| Day3.BadgeMeans | src/days/day3/mod.rs:35-45 | an item is a badge exactly when all three elves of the group carry it |
| Day3.Part2Groups | src/days/day3/mod.rs:31-48 | part 2's total is non-negative, and zero exactly when no group has a badge |
| Day3.Part2 | src/days/day3/mod.rs:31-48 | over lines 3k..3k+2 of the input, for every complete group k, part 2 is non-negative and zero exactly when none of those groups has a badge |
| Day3.Part2Groups3 | src/days/day3/mod.rs:32-35 | the lines are taken in floor(n/3) complete groups of three, in order, and a trailing partial group is dropped |
| Day3.Part2OneBadge | src/days/day3/mod.rs:31-48 | when every group of three ASCII lines has exactly one badge, part 2 is the sum of those badges' priorities |
| Day3.SamplePriorities | src/days/day3/mod.rs:53-64 | the letters p, L, P, v, t, s have priorities summing to 157 and r, Z to 70; `Day3.SampleHalves` and `Day3.SampleBadges` derive these letters from the sample lines |
| Day3.ItemsConcat | src/days/day3/mod.rs:16-17 | the items of two texts written one after the other are the items of each |
| Day3.HalvesLine | src/days/day3/mod.rs:15-17 | a line written as two equal-length halves of letters shares with itself exactly what those halves share |
| Day3.SharedOfHalves | src/days/day3/mod.rs:16-17 | the items two texts share are the union of what their pieces share pairwise |
| Day3.BadgeOf3 | src/days/day3/mod.rs:35-45 | a group's badge is what its third elf shares with the items the first two share |
| Day3.SixLines | src/days/day3/mod.rs:12-13 | six lines free of line breaks and carriage returns, joined by '\n', read back as those six lines |
| Day3.SixLinesPart1 | src/days/day3/mod.rs:11-29 | six lines each sharing one item between its halves: part 1 is the sum of those items' priorities |
| Day3.SampleHalves | src/days/day3/mod.rs:53-58 | each sample line is free of line breaks and shares exactly one item between its halves: p, L, P, v, t and s in turn |
| Day3.SampleBadges | src/days/day3/mod.rs:53-58 | the sample's first three lines have the single badge r and the last three the single badge Z |
| Day3.SixLinesPart2 | src/days/day3/mod.rs:31-48 | six ASCII lines in two groups with one badge each: part 2 is the sum of the two badges' priorities |
| Day3.Sample | src/days/day3/mod.rs:53-64 | the sample text, exactly as in the test, is accepted by both parts; part 1 gives 157 and part 2 gives 70 |
| Day4.ElfNumbers | src/days/day4/mod.rs:7-8 | the numbers of one side are the `u32` pieces between '-' that parse, so never negative |
| Day4.LinePair | src/days/day4/mod.rs:6-8 | a line with a ',' and two numbers per side gives a pair of ranges |
| Day4.Pairs | src/days/day4/mod.rs:3-8 | one pair per line, in order |
| Day4.ContainsSymmetric | src/days/day4/mod.rs:9 | the containment test does not depend on the order of the two elves |
| Day4.ContainsMeans | src/days/day4/mod.rs:9 | for well-formed ranges the test holds exactly when one range's sections all lie in the other |
| Day4.OverlapsMeans | src/days/day4/mod.rs:25-31 | for well-formed ranges the overlap test holds exactly when some section lies in both |
| Day4.OverlapsSymmetric | src/days/day4/mod.rs:25-28 | for well-formed ranges the overlap test does not depend on the order of the two elves |
| Day4.ContainsImpliesOverlaps | src/days/day4/mod.rs:9-28 | a contained pair also overlaps |
| Day4.CountContained | src/days/day4/mod.rs:2-16 | part 1 counts at most one per line |
| Day4.CountOverlapping | src/days/day4/mod.rs:18-34 | part 2 counts at most one per line |
| Day4.ContainedAtMostOverlapping | src/days/day4/mod.rs:2-34 | for well-formed ranges part 1's count never exceeds part 2's |
| Day4.Part1 | src/days/day4/mod.rs:2-16 | part 1 counts at most one per line of the input and, when every line's ranges are well formed, no more than part 2 |
| Day4.Part2 | src/days/day4/mod.rs:18-34 | part 2 counts at most one per line of the input |
| Day4.SectionsParse | src/days/day4/mod.rs:7-8 | a range `a-b` written in decimal reads back as the numbers a and b |
| Day4.LineParses | src/days/day4/mod.rs:6-8 | a line `a-b,c-d` is accepted and reads back as the pair of the two ranges |
| Day4.PairsOfLines | src/days/day4/mod.rs:3-8 | lines that each read as a given pair give those pairs, in order |
| Day4.PartsOfList | src/days/day4/mod.rs:2-34 | for a list of range pairs written one per line, part 1 is the number of pairs where one range contains the other and part 2 the number that overlap |
| Day4.SampleCounts | src/days/day4/mod.rs:38-49 | the sample's six pairs count 2 contained and 4 overlapping |
| Day4.SampleParsed | src/days/day4/mod.rs:38-43 | each sample line is accepted and the lines read as the six sample pairs |
| Day4.Sample | src/days/day4/mod.rs:38-49 | the sample text, exactly as in the test, is accepted; part 1 gives 2 and part 2 gives 4 |
| Day5.ParseInstruction | src/days/day5/mod.rs:3-9 | the words that parse as `usize`, each decreased by one, in order; the other words are dropped |
| Day5.ParseMove | src/days/day5/mod.rs:3-9 | an instruction's first three numbers give the count and the 0-based source and destination stacks |
| Day5.ParseFormatMove | src/days/day5/mod.rs:3-9 | "move n from a to b" printed from a move parses back to that move |
| Day5.TotalCratesUpdate | src/days/day5/mod.rs:45-51 | replacing one stack changes the crate total by the difference in that stack's size |
| Day5.MoveCrate | src/days/day5/mod.rs:48-49 | one `pop_front`/`push_front` keeps the number of stacks |
| Day5.Crane9000 | src/days/day5/mod.rs:47-50 | n single-crate moves keep the number of stacks |
| Day5.Crane9000Effect | src/days/day5/mod.rs:47-50 | moving n crates one at a time between different stacks puts them on the destination in reversed order, removes them from the source, and changes no other stack |
| Day5.Crane9000Same | src/days/day5/mod.rs:47-50 | moving crates from a stack onto itself leaves every stack as it was |
| Day5.Crane9000Conserves | src/days/day5/mod.rs:45-51 | a part-1 move conserves the total number of crates |
| Day5.Crane9001 | src/days/day5/mod.rs:62-69 | the top min(n, size) crates move as a block that keeps its order, only the two stacks change, a move onto the same stack changes nothing, and a move that takes no crate changes nothing and needs no existing destination |
| Day5.Crane9001Conserves | src/days/day5/mod.rs:60-70 | a part-2 move conserves the total number of crates |
| Day5.RunsConserve | src/days/day5/mod.rs:45-70 | a whole program under either crane conserves the total number of crates |
| Day5.Tops | src/days/day5/mod.rs:52-54 | the answer has one character per stack, its top crate, in stack order |
| Day5.StackCount | src/days/day5/mod.rs:12-23 | the number of stacks is the last digit of the label line, at most 9 |
| Day5.ScanWordsCount | src/days/day5/mod.rs:26-38 | each three-character token of a drawing line adds one crate to the stacks |
| Day5.ScanWordsAppends | src/days/day5/mod.rs:35 | crates are appended to the back of their stack, so what was there stays in front |
| Day5.BuildOriginal | src/days/day5/mod.rs:11-40 | the loops over the drawing build exactly the stacks the drawing specifies |
| Day5.ScanDrawing | src/days/day5/mod.rs:25-38 | the loop over the drawing's lines, each scanned with a fresh counter, builds exactly the specified stacks |
| Day5.ScanLine | src/days/day5/mod.rs:27-37 | the token loop with its counter builds exactly the specified stacks for one line |
| Day5.Moves | src/days/day5/mod.rs:45-46 | one move per instruction line, in order |
| Day5.PopPush | src/days/day5/mod.rs:48-49 | one crate goes from the front of the source to the front of the destination |
| Day5.MoveOneByOne | src/days/day5/mod.rs:47-50 | the inner loop of part 1 performs the specified one-at-a-time move |
| Day5.TopCrates | src/days/day5/mod.rs:52-54 | the final fold collects every stack's top crate in order |
| Day5.Part1 | src/days/day5/mod.rs:42-55 | the answer is the top crates after running the program one crate at a time, given enough crates for every unwrap |
| Day5.Apply9000 | src/days/day5/mod.rs:45-51 | the instruction loop of part 1 runs the whole program |
| Day5.Run9000Step | src/days/day5/mod.rs:45-51 | running a program is running its first move and then the rest |
| Day5.Apply9001 | src/days/day5/mod.rs:60-70 | the instruction loop of part 2 runs the whole program, whenever every move names an existing source and, if it takes a crate, an existing destination |
| Day5.Run9001Step | src/days/day5/mod.rs:60-70 | running a block-move program is running its first move and then the rest |
| Day5.BlockMove | src/days/day5/mod.rs:62-69 | popping up to n crates and pushing them back in reverse is the specified block move; when none is popped the destination is never indexed |
| Day5.Part2 | src/days/day5/mod.rs:57-75 | the answer is the top crates after running the program with block moves, given an existing source for every move and an existing destination for every move that takes a crate |
| Day5.Sample9000 | src/days/day5/mod.rs:80-93 | the sample's moves under part 1's crane end with stacks C, M, ZNDP and the answer "CMZ" |
| Day5.Sample9001 | src/days/day5/mod.rs:80-97 | the sample's moves under part 2's crane end with stacks M, C, DNZP and the answer "MCD" |
| Day6.ItemsAtMost | src/days/day6/mod.rs:7 | a window has at most as many distinct characters as positions |
| Day6.DistinctMeans | src/days/day6/mod.rs:7 | the set-size test holds exactly when the window's characters are pairwise different |
| Day6.ScanMeans | src/days/day6/mod.rs:11-19 | the scan over starts [from, stop) returns the end of the first distinct window and no earlier window is distinct; None means no window in range is distinct |
| Day6.FindUniqueB3nny | src/days/day6/mod.rs:3-9 | the result is p + amount for the first all-distinct window p, no earlier window is distinct, and None exactly when no window is |
| Day6.IsDistinct | src/days/day6/mod.rs:14 | the window test as a check |
| Day6.FindUniqueMine | src/days/day6/mod.rs:11-19 | the loop tries only the starts 0 .. len − amount, returning the end of the first distinct window among them |
| Day6.MineAgreesExceptLast | src/days/day6/mod.rs:3-19 | the two searches agree except when the only distinct window is the last one, which the loop misses |
| Day6.MineMissesLastWindow | src/days/day6/mod.rs:11-19 | on "abcd" with windows of 4 the windowed search gives 4 and the loop gives None |
| Day6.FindUniqueFixed | src/days/day6/mod.rs:11-19 | the loop with the last start included returns exactly what the windowed search returns |
| Day6.Part1 | src/days/day6/mod.rs:21-23 | when the windowed search finds a marker, the answer r ends the first 4-character window with all characters distinct: s[r-4..r] is distinct and no earlier window is |
| Day6.Part2 | src/days/day6/mod.rs:25-27 | on text of at least 14 characters where the as-written loop finds a window, its answer is what the windowed search gives: the end r of the first 14-character window with all characters distinct, before the last character |
| Day6.Sample1 | src/days/day6/mod.rs:34 | "bvwbjplbgvbhsrlpgdmjqwftvncz" has its first 4-marker ending at 5 |
| Day6.Sample2 | src/days/day6/mod.rs:35 | "nppdvjthqldpwncqszvftbrmjlhg" has its first 4-marker ending at 6 |
| Day6.MarkerAt5 | src/days/day6/mod.rs:3-9 | a text whose characters 0 and 3 repeat and whose characters 1..4 differ has its first 4-marker ending at 5 |
| Day6.MarkerAt6 | src/days/day6/mod.rs:3-9 | a text whose characters 1 and 2 repeat and whose characters 2..5 differ has its first 4-marker ending at 6 |
| Day7.TotalAppend | src/days/day7/mod.rs:109-114 | the fold over a directory's contents adds up part by part |
| Day7.ChildSmaller | src/days/day7/mod.rs:106-117 | a directory is at least as large as each of its entries |
| Day7.SizeCache.constructor | src/days/day7/mod.rs:20 | sizes start unremembered |
| Day7.SizeCache.GetSize | src/days/day7/mod.rs:106-117 | returns the directory's true size (file sizes plus subdirectory sizes), remembers it, and every remembered size stays true |
| Day7.DirSizes | src/days/day7/mod.rs:184-212 | the sizes the recursive walks visit: a directory's own size first, then its subdirectories'; none for a file |
| Day7.SumBelowAppend | src/days/day7/mod.rs:184-197 | the sum of the sizes below the limit adds up over the parts of the walk |
| Day7.MinFitMeans | src/days/day7/mod.rs:199-212 | the running minimum is the start value or a size that frees enough space, and is no larger than any size that does |
| Day7.MinFitAppend | src/days/day7/mod.rs:199-212 | the running minimum over two parts of the walk is the running minimum of the second part started from the first's |
| Day7.RecursiveSum | src/days/day7/mod.rs:184-197 | `recurssive_sum` adds to `sum` the sizes under 100000 of the directory and all directories below it |
| Day7.RecursiveMin | src/days/day7/mod.rs:199-212 | `recurssive_min` lowers `min` to the smallest size over the directory and those below it that frees 30000000 with the given free space |
| Day7.Find | src/days/day7/mod.rs:53-57 | looking up a name in a directory gives an entry with that name, or None exactly when no entry has it |
| Day7.GetSetAt | src/days/day7/mod.rs:67-79 | after overwriting the node at a path, the path leads to the new node |
| Day7.GetSetAtElsewhere | src/days/day7/mod.rs:67-79 | overwriting the node at one path leaves every path neither above nor below it unchanged |
| Day7.GetSnoc | src/days/day7/mod.rs:53-65 | extending a path by a name looks that name up in the directory the path leads to |
| Day7.GetPrefix | src/days/day7/mod.rs:40-66 | every prefix of a path that leads somewhere leads somewhere too |
| Day7.Dedupe | src/days/day7/mod.rs:68-78 | collecting a listing into a map keeps one entry per name, the last one listed with that name |
| Day7.ParseFileType | src/days/day7/mod.rs:132-153 | "dir name" gives an empty directory, "<u64> name" a file; anything else is an error |
| Day7.ParseFormatEntry | src/days/day7/mod.rs:132-153 | a printed listing entry parses back to itself |
| Day7.ParseEntries | src/days/day7/mod.rs:170-175 | a listing parses line by line into one entry per line, or fails when some line fails |
| Day7.ParseCd | src/days/day7/mod.rs:161-182 | "cd name" followed by a newline parses to a change of directory; without the newline it is an error |
| Day7.ParseCommand | src/days/day7/mod.rs:161-182 | a piece without a newline is an error; otherwise it is a `cd` exactly when its first line starts with "cd", naming the rest after the third character, an `ls` only when it starts with "ls", with one entry per following line each parsed from that line, and anything else is an error |
| Day7.Chunks | src/days/day7/mod.rs:99-101 | the transcript is split at "$ " and empty pieces are dropped |
| Day7.ParsedCommands | src/days/day7/mod.rs:102 | commands that fail to parse are silently dropped, so all failing gives no commands |
| Day7.Step | src/days/day7/mod.rs:40-81 | one command keeps the cursor on a directory of the tree |
| Day7.LsEffect | src/days/day7/mod.rs:67-79 | `ls` replaces the current directory's contents with the deduplicated listing and changes nothing outside it |
| Day7.CdThenUp | src/days/day7/mod.rs:42-66 | `cd name` succeeds exactly when the current directory holds a directory of that name, and `cd ..` after it returns to the same state |
| Day7.Run | src/days/day7/mod.rs:40-83 | a successful run of commands returns a directory |
| Day7.FromCommands | src/days/day7/mod.rs:23-84 | the first command must be a `cd`; a successful build returns a directory |
| Day7.BuildFs | src/days/day7/mod.rs:98-104 | a successful build gives a directory; a transcript with no command that parses, or whose first parsed command is an `ls`, fails |
| Day7.FromIter | src/days/day7/mod.rs:23-84 | the cursor loop builds exactly the tree the command semantics specify, failing on the same commands |
| Day7.Part1 | src/days/day7/mod.rs:213-220 | the sum of the sizes under 100000 over all directories |
| Day7.SmallestToDelete | src/days/day7/mod.rs:221-229 | the fold from `u64::MAX` over all directory sizes with the free space 70000000 minus the root size |
| Day7.Part2 | src/days/day7/mod.rs:221-229 | the answer of part 2 for the built tree |
| Day7.Part2Answer | src/days/day7/mod.rs:199-229 | the answer is a directory size that frees enough space, and no directory that frees enough is smaller |
| Day7.SampleSizes | src/days/day7/mod.rs:232-266 | the sample tree's directory sizes are 48381165, 94853, 584 and 24933642 |
| Day7.SampleAnswers | src/days/day7/mod.rs:232-266 | on those sizes part 1 gives 95437 and part 2 gives 24933642 |
| Day8.RayMeans | src/days/day8/mod.rs:25-38 | a walk yields the heights at c, c+d, c+2d, … while in bounds and stops at the first cell outside the grid |
| Day8.OffsetStep | src/days/day8/mod.rs:33 | advancing the cursor by d shifts every later position by one step |
| Day8.GridIterator.constructor | src/days/day8/mod.rs:10-20 | the iterator starts at the given cell and direction |
| Day8.GridIterator.Next | src/days/day8/mod.rs:25-38 | inside the grid, yields the height and cell and advances by the direction; outside, yields None and stays; what remains to be yielded loses exactly its head |
| Day8.CheckDirection | src/days/day8/mod.rs:49-57 | true exactly when every tree strictly beyond the start in that direction is strictly shorter |
| Day8.ViewingDistance | src/days/day8/mod.rs:58-68 | the score is at most the number of trees to the edge |
| Day8.ViewingDistanceMeans | src/days/day8/mod.rs:58-68 | the score is 0 only at the edge, every tree counted before the last is shorter, and when the view stops early the last counted tree is at least as tall |
| Day8.ViewingDistanceBlocked | src/days/day8/mod.rs:62-64 | a tree at least as tall at distance k+1 caps the score at k+1 |
| Day8.CheckScore | src/days/day8/mod.rs:58-68 | the counter loop returns the viewing distance over the trees in that direction |
| Day8.VisibilityAt | src/days/day8/mod.rs:81-91 | the visibility grid holds, for every tree, whether it is visible from some side |
| Day8.CountInRow | src/days/day8/mod.rs:82-90 | a row contributes at most one per tree counted |
| Day8.Digits | src/days/day8/mod.rs:74-76 | the characters of a line that are decimal digits, each at most 9 |
| Day8.ParseGrid | src/days/day8/mod.rs:71-78 | one grid row per input line |
| Day8.VisibleAt | src/days/day8/mod.rs:83-86 | the four `check_direction` calls, short-circuited, decide visibility |
| Day8.CountInterior | src/days/day8/mod.rs:81-91 | the nested loop counts the visible trees of the interior rows and columns |
| Day8.CountRow | src/days/day8/mod.rs:82-90 | the inner loop counts the visible interior trees of one row |
| Day8.Part1 | src/days/day8/mod.rs:70-93 | the visible interior trees plus `grid.len()·4 − 4`, which is the number of visible trees on a square grid only (see SquareCount and TwoByThreeCount) |
| Day8.ScoreAt | src/days/day8/mod.rs:106-109 | the product of the four viewing distances |
| Day8.BestScore | src/days/day8/mod.rs:103-113 | the result bounds every tree's scenic score and is attained by some tree (or is 0) |
| Day8.BestInRow | src/days/day8/mod.rs:105-111 | one row of the loop keeps the best score bounding and attained |
| Day8.Part2 | src/days/day8/mod.rs:94-114 | the highest scenic score of any tree |
| Day8.EdgeScoresZero | src/days/day8/mod.rs:104-110 | a tree on the edge looks at nothing outward, so its product is 0 |
| Day8.EdgeVisible | src/days/day8/mod.rs:49-57 | a tree on the edge is visible |
| Day8.EdgesVisible | src/days/day8/mod.rs:81-92 | every edge cell of the visibility grid is set |
| Day8.MiddleRows | src/days/day8/mod.rs:81-92 | with visible edges, the visible trees are those of the first row, the interior, and two per middle row |
| Day8.SquareCount | src/days/day8/mod.rs:92 | on a square grid the interior count plus `len·4 − 4` is the number of visible trees |
| Day8.TwoByThreeCount | src/days/day8/mod.rs:92 | on a 2×3 grid the formula gives 4 although all 6 trees are visible: the perimeter term is right only for square grids |
| Day8.SampleScore | src/days/day8/mod.rs:118-132 | the sample's tree at row 3, column 2 scores 8 |
| Day8.VisibleCellsAt | src/days/day8/mod.rs:82-90 | each cell of a row of the visibility grid records whether that tree is visible |
| Day8.VisibleRowsAt | src/days/day8/mod.rs:81-91 | each row of the visibility grid is that row's cells |
| Day8.NothingToSee | src/days/day8/mod.rs:58-68 | looking out of the grid scores 0 |
| Day8.CountInRowAll | src/days/day8/mod.rs:82-90 | a run of visible cells counts its length |
| Day8.RowWithEdges | src/days/day8/mod.rs:92 | a row whose two ends are visible counts its interior plus 2 |
| Day8.SampleUp | src/days/day8/mod.rs:118-122 | from the sample's row 3, column 2 the trees upwards are 3, 5, 3 |
| Day8.SampleLeft | src/days/day8/mod.rs:118-122 | leftwards they are 3, 3 |
| Day8.SampleDown | src/days/day8/mod.rs:118-122 | downwards it is 3 |
| Day8.SampleRight | src/days/day8/mod.rs:118-122 | rightwards they are 4, 9 |
| Day9.UnitPart | src/days/day9/mod.rs:48-49 | `v / max(1, abs(v))` is the sign of v (the division is exact, so truncation does not matter) |
| Day9.MakeOne | src/days/day9/mod.rs:46-51 | each component becomes its sign, so the step is at most one cell in each axis |
| Day9.IsOneAwayMeans | src/days/day9/mod.rs:53-56 | two knots touch exactly when both coordinate differences are within ±1, and touching is symmetric |
| Day9.ParseDirection | src/days/day9/mod.rs:62-72 | U, D, L, R give unit axis vectors; anything else is an error |
| Day9.ParseDirectionName | src/days/day9/mod.rs:62-72 | parsing the letter of a direction gives that direction back |
| Day9.ParseLine | src/days/day9/mod.rs:79-86 | a parsed motion has a unit axis direction and a count within the isize range |
| Day9.ParseFormatLine | src/days/day9/mod.rs:79-86 | parsing `"<letter> <count>"` gives the motion back |
| Day9.ParseMotions | src/days/day9/mod.rs:79-88 | one motion per line when every line parses |
| Day9.ParseMotionsPrefixErr | src/days/day9/mod.rs:88 | the first bad line decides the error, whatever follows it |
| Day9.Repeat | src/days/day9/mod.rs:89 | `0..count` runs max(count, 0) times |
| Day9.RepeatAll | src/days/day9/mod.rs:89-90 | every repeated step is the motion's direction |
| Day9.StepsDirections | src/days/day9/mod.rs:88-90 | the head only ever moves by unit axis steps |
| Day9.Follow | src/days/day9/mod.rs:92-95 | knot i stays put when touching knot i−1, else steps towards it; the rope keeps its length |
| Day9.Pull | src/days/day9/mod.rs:91-96 | knots i.. follow in order; the rope keeps its length |
| Day9.Step | src/days/day9/mod.rs:90-96 | one head move followed by the pull; the rope keeps its length |
| Day9.Run | src/days/day9/mod.rs:89-98 | the rope after a sequence of steps keeps its length |
| Day9.Visited | src/days/day9/mod.rs:77-97 | the tail's starting cell is among the visited cells |
| Day9.Start | src/days/day9/mod.rs:76 | N knots at the origin |
| Day9.VisitedCount | src/days/day9/mod.rs:75-102 | when the input parses, at least one cell is visited |
| Day9.CatchUp | src/days/day9/mod.rs:95 | a knot within two cells of its leader touches it after one `make_one` step |
| Day9.PullTaut | src/days/day9/mod.rs:91-96 | pulling a taut rope whose leader moved by one cell leaves it taut |
| Day9.StepTaut | src/days/day9/mod.rs:89-96 | a unit head move keeps every knot touching its predecessor |
| Day9.RunTaut | src/days/day9/mod.rs:88-98 | any sequence of unit moves keeps the rope taut |
| Day9.FollowKnotsTaut | src/days/day9/mod.rs:75-98 | from the start, every knot touches the one before it after every motion |
| Day9.StepKnots | src/days/day9/mod.rs:90-96 | the in-place array update equals the rope step |
| Day9.RunSnoc | src/days/day9/mod.rs:89-97 | one more step extends the run by one rope step and the visited set by the new tail cell |
| Day9.StepAndRecord | src/days/day9/mod.rs:90-97 | moving the rope and inserting the tail keep the array and set equal to the run and its visited cells |
| Day9.ApplyMotion | src/days/day9/mod.rs:89-98 | the count loop applies the motion's direction count times to the rope and the visited set |
| Day9.ParseMotionsStep | src/days/day9/mod.rs:79-88 | parsing one more good line appends that motion's steps |
| Day9.FollowKnots | src/days/day9/mod.rs:75-102 | the result is the number of distinct tail cells of the run, or the first parse error |
| Day9.Track | src/days/day9/mod.rs:77-101 | the line loop computes the same count or error from the starting rope |
| Day9.Part1 | src/days/day9/mod.rs:104-106 | the two-knot count, at least 1 |
| Day9.Part2 | src/days/day9/mod.rs:108-110 | the ten-knot count, at least 1 |
| Day9.VisitedOf | src/days/day9/mod.rs:79-101 | over the lines: the first parse error, or a positive count of tail cells |
| Day10.ExpandLength | src/days/day10/mod.rs:6-12 | the expanded stream has one extra cycle per `addx` line |
| Day10.SampledMeans | src/days/day10/mod.rs:15 | the guard holds exactly on cycles whose index mod 40 is 19 (cycles 20, 60, 100, …) |
| Day10.Execute | src/days/day10/mod.rs:18-22 | executing cycle i turns X during cycle i into X during cycle i+1 |
| Day10.Part1 | src/days/day10/mod.rs:1-25 | the sum of `x·(i+1)` over the sampled cycles of the expanded stream |
| Day10.SumSignals | src/days/day10/mod.rs:8-23 | the loop keeping X and the running sum yields the signal sum of the whole stream |
| Day10.Trace | src/days/day10/mod.rs:28-49 | one X value per cycle, each equal to X during that cycle |
| Day10.LayoutBound | src/days/day10/mod.rs:40-44 | the pixel of cycle i lies inside the printed text |
| Day10.LayoutStep | src/days/day10/mod.rs:40-44 | one more cycle adds one pixel and, every 40 cycles, one line break |
| Day10.ScreenLength | src/days/day10/mod.rs:40-44 | n cycles print n pixels and ⌈n/40⌉ line breaks |
| Day10.ScreenPixel | src/days/day10/mod.rs:40-44 | cycle i's pixel sits at i + i/40 + 1, preceded by a line break when i is a multiple of 40 |
| Day10.ScreenLayout | src/days/day10/mod.rs:40-44 | every cycle's pixel and every row's line break are where the layout puts them |
| Day10.DrawCycle | src/days/day10/mod.rs:40-44 | one loop iteration appends the optional line break and the lit-or-dark pixel of X against column i mod 40 |
| Day10.Part2 | src/days/day10/mod.rs:27-52 | the printed text is the screen of the trace followed by the final line break |
| Day10.XDuringPrefix | src/days/day10/mod.rs:4-23 | X during cycle i depends only on the instructions before it |
| Day10.ExpandOk | src/days/day10/mod.rs:6-12 | expanding well-formed lines gives a stream whose every non-noop operand parses |
| Day10.ExpandSnoc | src/days/day10/mod.rs:6-12 | expanding one more line appends that line's cycles |
| Day10.XChunk | src/days/day10/mod.rs:18-22 | after a line's cycles X has changed by that line's operand |
| Day10.XAtLine | src/days/day10/mod.rs:1-25 | after the first k lines, X is 1 plus the sum of their operands |
| Day10.AddxHolds | src/days/day10/mod.rs:7-8 | during both cycles of an `addx` X keeps its value from before the line |
| Day10.SmallExpand | src/days/day10/mod.rs:57-59 | the commented-out sample expands to five cycles |
| Day10.AddxOperand | src/days/day10/mod.rs:19-20 | "addx 3" and "addx -5" parse to 3 and −5 |
| Day10.SmallStream | src/days/day10/mod.rs:57-59 | the sample's stream is well formed with the changes 0, 0, 3, 0, −5 |
| Day10.SmallProgram | src/days/day10/mod.rs:57-59 | on the small sample X is 1, 1, 1, 4, 4 during the cycles and −1 at the end |
| Day10.SmallTrace | src/days/day10/mod.rs:57-59 | any five-cycle stream with those changes has that trace |
| Day11.Field | src/days/day11/mod.rs:41-65 | a line's text after its separator, or the "can't parse …" error when the line is missing and the "can't split …" error when the separator is absent |
| Day11.ParseUsize | src/days/day11/mod.rs:54-66 | a trimmed field parses exactly when it is a decimal `usize` |
| Day11.ParseItems | src/days/day11/mod.rs:32-40 | the list parses exactly when every trimmed piece is a `usize`, giving one number per piece in order; otherwise the error quotes the first piece that fails, untrimmed |
| Day11.ParseOperation | src/days/day11/mod.rs:47-77 | an operand that is not a `usize` gives `MulSelf`; a number after '+' gives `Add` and after '*' `Mul` of that number; a number after any other sign is an error |
| Day11.ParseNumber | src/days/day11/mod.rs:34-39 | an item parses exactly when its trimmed text is a `usize`; otherwise the error quotes the untrimmed piece |
| Day11.ParseFields | src/days/day11/mod.rs:26-87 | a parsed monkey needs the five field lines and starts with no inspections |
| Day11.ParseMonkey | src/days/day11/mod.rs:25-87 | the header line is skipped; a parsed monkey starts with no inspections |
| Day11.ParseAll | src/days/day11/mod.rs:122-126 | when every chunk parses, one monkey per chunk |
| Day11.ParseAllFresh | src/days/day11/mod.rs:122-126 | the parsed monkeys start with no inspections |
| Day11.ParseItemsPrinted | src/days/day11/mod.rs:32-40 | a comma-separated list of printed worry levels parses back to them |
| Day11.ParseItemsLine | src/days/day11/mod.rs:27-40 | the printed "Starting items:" line parses back to its items |
| Day11.ParseOperationText | src/days/day11/mod.rs:47-77 | the printed operation parses back to the same `Chain` |
| Day11.OperatorWithNumber | src/days/day11/mod.rs:68-75 | `+ n` gives `Add(n)`, `* n` gives `Mul(n)`, any other operator with a number is "Invalid op" |
| Day11.OperatorWithOld | src/days/day11/mod.rs:47-76 | any operator followed by `old` gives `MulSelf`, because only the number is looked at |
| Day11.OldIsNoNumber | src/days/day11/mod.rs:47 | `old` is not a number |
| Day11.ParseNumberLine | src/days/day11/mod.rs:49-66 | a line made of a prefix, the separator and a printed number splits there and the number parses back |
| Day11.TextField | src/days/day11/mod.rs:41-45 | a field line whose prefix does not contain the separator yields the text after it |
| Day11.NumberField | src/days/day11/mod.rs:49-66 | such a line holding a printed number yields that number |
| Day11.ParseFieldsOk | src/days/day11/mod.rs:26-87 | when every field parses, the monkey is built from them with a count of 0 |
| Day11.ItemsFieldPrinted | src/days/day11/mod.rs:27-40 | the items line of a printed monkey parses to its items |
| Day11.OpFieldPrinted | src/days/day11/mod.rs:41-45 | the operation line of a printed monkey yields its operation text |
| Day11.TestFieldPrinted | src/days/day11/mod.rs:49-54 | the test line of a printed monkey yields its divisor |
| Day11.TargetFieldsPrinted | src/days/day11/mod.rs:55-66 | the two target lines of a printed monkey yield its targets |
| Day11.ParseFormatFields | src/days/day11/mod.rs:25-87 | parsing a printed monkey gives it back (round trip) |
| Day11.Rules | src/days/day11/mod.rs:13-18 | each monkey's fixed operation, divisor and targets, one rule per monkey |
| Day11.SetWorry | src/days/day11/mod.rs:150-167 | updating one item's worry keeps the number of items |
| Day11.Inspect | src/days/day11/mod.rs:147-174 | an inspection applies the operation to the item's true worry, throws it by divisibility, and adds one to that monkey's count only |
| Day11.ThrowsUpTo | src/days/day11/mod.rs:147-175 | after j inspections the monkey's own list only grew at its end and its count rose by j |
| Day11.Turn | src/days/day11/mod.rs:146-179 | a turn adds the number of items the monkey held to its count |
| Day11.RoundUpTo | src/days/day11/mod.rs:145-180 | the turns of the first m monkeys keep the troop well formed |
| Day11.Round | src/days/day11/mod.rs:145-180 | a round keeps the troop well formed |
| Day11.Rounds | src/days/day11/mod.rs:144-181 | n rounds keep the troop well formed |
| Day11.HeldUpdate | src/days/day11/mod.rs:174-178 | replacing one monkey's list changes how often an item is held by the difference of the two lists' counts |
| Day11.InspectConserves | src/days/day11/mod.rs:147-174 | an inspection adds one more holding of the thrown item |
| Day11.ThrowStep | src/days/day11/mod.rs:147-174 | one more inspection adds one holding of that item |
| Day11.ThrowsConserve | src/days/day11/mod.rs:147-175 | the first j inspections add the holdings of the first j items |
| Day11.TurnConserves | src/days/day11/mod.rs:146-179 | throwing every item and removing them from the thrower keeps how often each item is held |
| Day11.TurnsStep | src/days/day11/mod.rs:145-180 | one more turn keeps every item's holding count |
| Day11.TurnsConserve | src/days/day11/mod.rs:145-180 | after the first p turns of a round every item is held as often as before the round |
| Day11.RoundConserves | src/days/day11/mod.rs:145-180 | a round keeps every item's holding count |
| Day11.RoundsConserve | src/days/day11/mod.rs:144-181 | any number of rounds keeps every item's holding count |
| Day11.ResidueStep | src/days/day11/mod.rs:151-166 | the residue update of each operation equals the true new worry modulo the divisor |
| Day11.ResidueRowUpdate | src/days/day11/mod.rs:150-167 | updating one item in a row keeps the row equal to the true worries modulo that row's divisor |
| Day11.Assemble | src/days/day11/mod.rs:13-20 | monkey i carries rule i and the troop's list and count for i |
| Day11.AssembleRules | src/days/day11/mod.rs:13-18 | the rules read back from the assembled monkeys are the rules |
| Day11.AssembleUpdate | src/days/day11/mod.rs:168-178 | changing one monkey's list and count changes only that monkey |
| Day11.InspectInRange | src/days/day11/mod.rs:149-174 | item numbers stay within the numbered items |
| Day11.UpdateResidues | src/days/day11/mod.rs:150-167 | the matrix loop keeps every row equal to the true worries modulo its divisor after the operation |
| Day11.InspectItem | src/days/day11/mod.rs:147-174 | one inspection of the program's state matches the inspection of the true-worry simulation |
| Day11.ThrowItems | src/days/day11/mod.rs:146-175 | the item loop matches the simulation after all the monkey's inspections and removes indices 0, 1, … |
| Day11.ThrowNext | src/days/day11/mod.rs:148-173 | one pass of the item loop turns a state that matches the first j throws into one that matches the first j + 1 |
| Day11.RemoveThrown | src/days/day11/mod.rs:177-179 | removing at `i - x` for the indices 0, 1, … drops exactly the first items |
| Day11.TakeTurn | src/days/day11/mod.rs:146-179 | a turn of the program matches a turn of the simulation |
| Day11.PlayRound | src/days/day11/mod.rs:145-180 | a round of the program matches a round of the simulation |
| Day11.Play | src/days/day11/mod.rs:144-181 | the rounds loop yields the monkeys of the simulation after that many rounds |
| Day11.OffsetStep | src/days/day11/mod.rs:130-136 | numbering one more monkey appends its worries and advances the counter by its item count |
| Day11.Range | src/days/day11/mod.rs:131-135 | consecutive numbers from the counter |
| Day11.Start | src/days/day11/mod.rs:128-136 | the numbered starting troop is well formed |
| Day11.NumberItems | src/days/day11/mod.rs:128-136 | collects every worry in order and replaces each monkey's items by their numbers |
| Day11.NumberMonkey | src/days/day11/mod.rs:131-135 | one monkey's worries are appended and its items renumbered from the counter |
| Day11.WorriesPrefix | src/days/day11/mod.rs:128-136 | the numbers before a monkey's offset belong to the monkeys before it |
| Day11.StartWorry | src/days/day11/mod.rs:131-135 | item number offset+j carries monkey i's j-th starting worry |
| Day11.StartInRange | src/days/day11/mod.rs:128-136 | every starting item number names an item |
| Day11.StartHeldOnce | src/days/day11/mod.rs:128-136 | at the start every item is held exactly once |
| Day11.ItemsHeldOnce | src/days/day11/mod.rs:144-181 | after any number of rounds every item is still held exactly once |
| Day11.BuildMatrix | src/days/day11/mod.rs:137-142 | row i holds every worry modulo monkey i's divisor |
| Day11.FirstIsMax | src/days/day11/mod.rs:182 | the first count after the descending sort is a largest count of some monkey |
| Day11.Others | src/days/day11/mod.rs:182 | a value left after removing monkey i is some other monkey's count |
| Day11.SecondIsMax | src/days/day11/mod.rs:182 | the second count after the sort is a largest count among the other monkeys |
| Day11.MonkeyBusinessTop | src/days/day11/mod.rs:182-186 | the answer is the product of a largest count and the largest of the others |
| Day11.TopTwoProduct | src/days/day11/mod.rs:182-186 | sorting descending and folding the first two counts gives the monkey business |
| Day11.Setup | src/days/day11/mod.rs:127-142 | the numbered monkeys and the matrix stand for the starting simulation |
| Day11.Part2 | src/days/day11/mod.rs:120-187 | the monkey business of the true-worry simulation after 10000 rounds, for inputs whose divisors are positive and whose targets all name monkeys |
| Day12.ElevOf | src/days/day12/mod.rs:151-160 | `S` is elevation 0, `E` is 25 (`z − a`), any other byte is its distance from `a` |
| Day12.MapOf | src/days/day12/mod.rs:143-164 | one row per line and one cell per byte, each holding the byte's elevation and no parent |
| Day12.LastIn | src/days/day12/mod.rs:150-156 | the last column of a row holding the marker, or none when the row has none |
| Day12.LastOf | src/days/day12/mod.rs:141-164 | the marker's last square in reading order (later squares overwrite `start`/`end`), or none anywhere |
| Day12.ParseBoardErrors | src/days/day12/mod.rs:165-169 | the board parses exactly when both markers occur; a missing `S` reports "couldn't find start", otherwise a missing `E` reports "couldn't find end" |
| Day12.ParseBoard | src/days/day12/mod.rs:140-170 | a parsed board has no parents, byte elevations, its start at elevation 0 and its end at 25, both on the map at the markers' last squares |
| Day12.MapCells | src/days/day12/mod.rs:143-164 | each square of the map carries its byte's elevation |
| Day12.GetIn | src/days/day12/mod.rs:109-111 | an elevation exactly for squares on the map, and then that square's elevation |
| Day12.WithParent | src/days/day12/mod.rs:113-115 | recording a parent leaves shape and elevations unchanged |
| Day12.StepKept | src/days/day12/mod.rs:113-115 | whether a step is legal does not depend on the recorded parents |
| Day12.TargetsAdjacent | src/days/day12/mod.rs:74-105 | the four `check` targets are exactly the orthogonal neighbours (the subtraction refused below 0) |
| Day12.CandidateMeans | src/days/day12/mod.rs:84-100 | `check` pushes a node exactly for a target on the map at most one level up, scored 1 + the elevation difference |
| Day12.SuccessorsMeans | src/days/day12/mod.rs:71-107 | the successors are exactly the legal steps from q, each scored 1 + the elevation difference |
| Day12.SuccessorScores | src/days/day12/mod.rs:89-95 | every successor's score is between 1 and 256 and it is not q itself |
| Day12.CmpScore | src/days/day12/mod.rs:41-45 | a lower score orders greater; equal scores order by location |
| Day12.CmpTotal | src/days/day12/mod.rs:41-51 | nodes order equal only when equal, and the order is antisymmetric |
| Day12.CmpTransitive | src/days/day12/mod.rs:41-51 | the node order is transitive |
| Day12.MaxIndex | src/days/day12/mod.rs:180 | the popped node is a greatest one of the heap |
| Day12.GreatestUnique | src/days/day12/mod.rs:180 | two greatest nodes are equal, so what the heap pops is determined |
| Day12.WithParentValid | src/days/day12/mod.rs:187-204 | recording a legal step as parent keeps every parent a legal step |
| Day12.Board.constructor | src/days/day12/mod.rs:165-169 | the board holds the parsed map, start and end |
| Day12.Board.SetParent | src/days/day12/mod.rs:113-115 | only that square's parent changes |
| Day12.Board.Check | src/days/day12/mod.rs:74-101 | appends the candidate for the target, if any |
| Day12.Board.GetSuccessors | src/days/day12/mod.rs:71-107 | down, up, right, left candidates, in that order |
| Day12.InUniverse | src/days/day12/mod.rs:8-12 | every node on the map lies in the finite set of nodes the search can hold |
| Day12.UnseenShrinks | src/days/day12/mod.rs:205 | seeing a new node shrinks what is left unseen |
| Day12.SeenPush | src/days/day12/mod.rs:205-207 | pushing to the heap or the closed list adds that node to the seen nodes |
| Day12.SeenPop | src/days/day12/mod.rs:180 | popping moves a node out of the heap without unseeing it |
| Day12.SuccessorsLegal | src/days/day12/mod.rs:182 | every successor is a legal step on the original map |
| Day12.LegalMoves | src/days/day12/mod.rs:182 | the successor list holds only legal steps |
| Day12.Visit | src/days/day12/mod.rs:184-205 | one successor: at the end it records the parent and stops; when some queued or closed node is at least as good it is skipped; otherwise it records the parent and is pushed |
| Day12.UndominatedNew | src/days/day12/mod.rs:190-200 | a successor that is not skipped has not been seen before |
| Day12.Advance | src/days/day12/mod.rs:184-205 | after one successor the seen set has grown by one unless nothing was pushed |
| Day12.PushSeen | src/days/day12/mod.rs:205 | a push extends the seen set by the new node |
| Day12.Expand | src/days/day12/mod.rs:182-206 | the successor loop keeps elevations and valid parents and only grows the seen set |
| Day12.Search | src/days/day12/mod.rs:176-208 | the search loop ends and leaves the elevations unchanged and every parent a legal step |
| Day12.Walk | src/days/day12/mod.rs:209-223 | the parent walk answers 0 or more than the steps already counted, never more than 51 |
| Day12.ParentStep | src/days/day12/mod.rs:216-221 | a square's recorded parent is a legal step to it |
| Day12.WalkRetraces | src/days/day12/mod.rs:209-223 | a positive answer comes with a path of that many steps ending at the start whose every square was reached by a legal step |
| Day12.RetracesKept | src/days/day12/mod.rs:113-115 | a path of legal steps stays legal whatever parents are recorded later |
| Day12.Trace | src/days/day12/mod.rs:209-223 | the loop from the end's parent computes the parent walk |
| Day12.Part1 | src/days/day12/mod.rs:173-224 | the answer is at most 51 and, when positive, a route of that many legal steps leads from the start to the end |
| Day13.NumberAt | src/days/day13/mod.rs:37-50 | a pending digit span parses to an `i32` or fails |
| Day13.Scan | src/days/day13/mod.rs:21-74 | a successful scan ends on a `]` at or after where it started and yields a list |
| Day13.RecursiveFromStr | src/days/day13/mod.rs:21-74 | the while loop with its recursive calls computes the scan from the start of the slice |
| Day13.ScanChar | src/days/day13/mod.rs:35-69 | a `]` ends the scan with its result, a `,` closes the open number and any other character extends the digit span, each agreeing with the scan |
| Day13.ParseEl | src/days/day13/mod.rs:18-77 | a parsed packet is a list |
| Day13.ParsePair | src/days/day13/mod.rs:80-89 | a pair needs two lines; no line reports "Can't find first list", one good line "Can't find second list" |
| Day13.ScanRun | src/days/day13/mod.rs:56-67 | a run of digit characters only extends the pending number span |
| Day13.ScanNoClose | src/days/day13/mod.rs:25-73 | text with no closing bracket left is an error ("Invalid: expected ]") |
| Day13.IntTextPlain | src/days/day13/mod.rs:56-67 | a printed number consists of characters the scanner treats as digits |
| Day13.FormatListEnds | src/days/day13/mod.rs:5-8 | a printed list starts with `[` and ends with `]` |
| Day13.ScanValItem | src/days/day13/mod.rs:35-55 | a printed number followed by `]` closes the list with it; followed by `,` it is pushed and scanning goes on |
| Day13.ScanNumber | src/days/day13/mod.rs:35-67 | any digit text that parses to v behaves as that number item |
| Day13.ScanNumberEnd | src/days/day13/mod.rs:35-55 | at the delimiter the pending span is pushed as a value |
| Day13.ValSpan | src/days/day13/mod.rs:38-49 | the span of a number's text parses to that number |
| Day13.ScanListItem | src/days/day13/mod.rs:29-34 | a nested printed list is scanned recursively and pushed as one item |
| Day13.ItemsSplit | src/days/day13/mod.rs:43-55 | the printed items split at commas into the first item and the rest |
| Day13.ListItemSplit | src/days/day13/mod.rs:29-34 | a nested list's text starts with `[` and its body ends at the matching `]` |
| Day13.ScanFirst | src/days/day13/mod.rs:29-34 | after a nested list the scanner is at the following delimiter with the list pushed |
| Day13.ScanItems | src/days/day13/mod.rs:21-74 | scanning printed items yields the list of them and stops at the closing bracket |
| Day13.ScanLastItem | src/days/day13/mod.rs:35-42 | the last item is pushed before the closing bracket ends the list |
| Day13.ScanNextItem | src/days/day13/mod.rs:43-55 | an item followed by a comma is pushed and the rest scanned |
| Day13.ScanInner | src/days/day13/mod.rs:29-34 | a printed list scanned from after its `[` yields itself, ending at its `]` |
| Day13.ParseFormat | src/days/day13/mod.rs:15-78 | parsing a printed packet of `i32` numbers gives it back (round trip) |
| Day13.CompareFlip | src/days/day13/mod.rs:97-151 | comparing the other way round swaps Good and Bad and keeps Continue |
| Day13.CompareListsFlip | src/days/day13/mod.rs:100-129 | the same for the list case |
| Day13.CompareSelf | src/days/day13/mod.rs:97-151 | a packet compared with itself continues |
| Day13.CompareListsSelf | src/days/day13/mod.rs:100-129 | a list compared with itself continues |
| Day13.WrapValue | src/days/day13/mod.rs:142-149 | a number compares as the one-number list on either side |
| Day13.CompareListsSkip | src/days/day13/mod.rs:102-118 | zipped pairs that continue can be skipped |
| Day13.CompareListsFirst | src/days/day13/mod.rs:102-118 | the first zipped pair that does not continue decides |
| Day13.CompareListsLengths | src/days/day13/mod.rs:119-128 | when every zipped pair continues, the shorter list is first and equal lengths continue |
| Day13.PrefixInOrder | src/days/day13/mod.rs:119-121 | a proper prefix is in order |
| Day13.InOrderIndexSumBound | src/days/day13/mod.rs:153-170 | the sum is at most 1+…+n, with equality exactly when every pair is in order |
| Day13.SampleVerdict1 | src/days/day13/mod.rs:220-221 | sample pair 1 is in order |
| Day13.SampleVerdict2 | src/days/day13/mod.rs:223-224 | sample pair 2 is in order |
| Day13.SampleVerdict3 | src/days/day13/mod.rs:226-227 | sample pair 3 is not |
| Day13.SampleVerdict4 | src/days/day13/mod.rs:229-230 | sample pair 4 is in order |
| Day13.SampleVerdict5 | src/days/day13/mod.rs:232-233 | sample pair 5 is not |
| Day13.SampleVerdict6 | src/days/day13/mod.rs:235-236 | sample pair 6 is in order |
| Day13.SampleVerdict7 | src/days/day13/mod.rs:238-239 | sample pair 7 is not |
| Day13.SampleVerdict8 | src/days/day13/mod.rs:241-242 | sample pair 8 is not |
| Day13.NestedBad | src/days/day13/mod.rs:241-242 | equal leading numbers followed by a deciding nested list give that list's verdict |
| Day13.IndexSumStep | src/days/day13/mod.rs:157-169 | one more pair adds its 1-based index exactly when it is in order |
| Day13.SamplePart1 | src/days/day13/mod.rs:244-247 | on the example's eight pairs written as packet values, the indices of the pairs in order sum to 13 (the text itself is not parsed in this proof) |
| Day13.Pairs | src/days/day13/mod.rs:154-158 | one parsed pair per blank-line chunk |
| Day13.Part1 | src/days/day13/mod.rs:153-170 | the sum is at most 1+…+n for n pairs |
| Day13.NonEmptyLines | src/days/day13/mod.rs:175-176 | exactly the non-empty lines are kept |
| Day13.Packets | src/days/day13/mod.rs:174-181 | the parsed lines with the dividers `[[2]]` and `[[6]]` appended last |
| Day13.InsertByPerm | src/days/day13/mod.rs:182-191 | inserting adds exactly that packet |
| Day13.SortByPerm | src/days/day13/mod.rs:182-191 | the sort is a permutation of the packets |
| Day13.InsertByInOrder | src/days/day13/mod.rs:182-191 | inserting into an ordered list keeps it ordered |
| Day13.SortByInOrder | src/days/day13/mod.rs:182-191 | the sorted packets are in order by the comparison |
| Day13.LastDividerMeans | src/days/day13/mod.rs:194-213 | the 1-based position of the last `[[d]]`, 0 exactly when there is none |
| Day13.DividerPositions | src/days/day13/mod.rs:192-213 | the scan loop records the last positions of `[[2]]` and `[[6]]` |
| Day13.SortedDividerKey | src/days/day13/mod.rs:182-214 | sorting and scanning give the product of the divider positions |
| Day13.Part2 | src/days/day13/mod.rs:172-215 | the decoder key of the sorted packets |
| Day13.DividerFound | src/days/day13/mod.rs:180-213 | each appended divider is found after sorting |
| Day13.DividersFound | src/days/day13/mod.rs:180-214 | both dividers are found at different positions, so the key is positive |
| Day13.Part2Positive | src/days/day13/mod.rs:172-215 | the decoder key is never 0 |
| Day14.ParseFormatPoint | src/days/day14/mod.rs:121-124 | parsing a printed `x,y` gives the point back |
| Day14.ParsePoint | src/days/day14/mod.rs:121-124 | a point parses exactly when it splits at a ',' into two `usize`s, and then it is those two numbers |
| Day14.ParsePath | src/days/day14/mod.rs:119-125 | a line parses exactly when every piece between " -> " is a point, giving one point per piece in order |
| Day14.ParsePaths | src/days/day14/mod.rs:118-125 | the input parses exactly when every line does, one path per line in order; a failure reports some line's error |
| Day14.SegmentCells | src/days/day14/mod.rs:129-157 | a segment covers exactly the cells between its end points on its vertical or horizontal line |
| Day14.ColumnOfMeans | src/days/day14/mod.rs:141-155 | a column's pushes are exactly the depths of the rock cells in that column |
| Day14.DeepestMeans | src/days/day14/mod.rs:116-157 | the deepest rock bounds every cell, and the column vector (at least 1000 wide) covers every cell |
| Day14.ColumnsMeans | src/days/day14/mod.rs:160-168 | each column is sorted, holds its rock depths as a multiset, and ends with the floor depth `largest + 2` |
| Day14.Push | src/days/day14/mod.rs:141-156 | one push keeps the heaps equal to the pushed cells and `largest` equal to the deepest |
| Day14.PushSegment | src/days/day14/mod.rs:129-157 | a segment pushes exactly its cells |
| Day14.PushVertical | src/days/day14/mod.rs:131-145 | the vertical branch grows the vector if needed and pushes every depth of the segment |
| Day14.PushHorizontal | src/days/day14/mod.rs:146-157 | the horizontal branch pushes the row into every column of the segment |
| Day14.PushPath | src/days/day14/mod.rs:119-158 | the windows of a path push the cells of its segments in order |
| Day14.PathStep | src/days/day14/mod.rs:127-130 | one more window adds the segment between consecutive points |
| Day14.BuildColumns | src/days/day14/mod.rs:116-168 | the columns built from every path and the floor depth two below the deepest rock |
| Day14.FirstBelow | src/days/day14/mod.rs:58-63 | the first entry deeper than y, or none exactly when no entry is deeper |
| Day14.FirstBelowLeast | src/days/day14/mod.rs:58-63 | on a sorted column the first deeper entry is the shallowest one |
| Day14.Contains | src/days/day14/mod.rs:79-103 | the scan loop finds the landing depth exactly when the neighbour column holds it |
| Day14.BoundedIn | src/days/day14/mod.rs:166-168 | every entry lies between 0 and the floor depth |
| Day14.DropStep | src/days/day14/mod.rs:57-109 | when the grain moves on it goes strictly deeper, never below the floor |
| Day14.ExtendsTrans | src/days/day14/mod.rs:89-96 | growing the columns to the right composes |
| Day14.StepNext | src/days/day14/mod.rs:86-106 | a diagonal move goes one column left or right onto a free square above the floor, changing the columns only by adding one on the right |
| Day14.StepDone | src/days/day14/mod.rs:57-109 | a finished drop changes the columns only by adding one on the right |
| Day14.StepRest | src/days/day14/mod.rs:108 | a grain rests in its own column on top of something, with both diagonals blocked |
| Day14.StepRestFree | src/days/day14/mod.rs:108 | the resting square is free unless it is where the drop started |
| Day14.DropShape | src/days/day14/mod.rs:57-109 | a whole drop keeps the columns sorted and bounded, adding at most one column on the right with the floor only |
| Day14.DropRests | src/days/day14/mod.rs:57-109 | wherever the grain comes to rest it is supported below and blocked on both diagonals |
| Day14.ExtendsSorted | src/days/day14/mod.rs:89-96 | grown columns stay sorted |
| Day14.DropFree | src/days/day14/mod.rs:57-109 | the resting square is free unless it is the starting square |
| Day14.DropFloorRests | src/days/day14/mod.rs:64-78 | with the floor every drop comes to rest |
| Day14.DropKeepsColumns | src/days/day14/mod.rs:89-96 | when the grain stays within the existing columns, the columns are unchanged |
| Day14.PlaceIn | src/days/day14/mod.rs:36-51 | push then sort adds exactly the resting depth to its column and keeps it sorted |
| Day14.PlaceValid | src/days/day14/mod.rs:36-51 | placing a grain keeps the cave well formed |
| Day14.FreeIn | src/days/day14/mod.rs:57-109 | a square is free when it is in the cave, above the floor and not occupied |
| Day14.PlaceFree | src/days/day14/mod.rs:50-51 | placing a grain removes exactly its square from the free ones |
| Day14.Pour1 | src/days/day14/mod.rs:45-55 | the count is the number of squares filled, and afterwards the next grain falls into the abyss; when none is returned a grain rests on an occupied square |
| Day14.Pour2 | src/days/day14/mod.rs:31-44 | pouring with a floor ends with the source blocked, counting each square filled plus the source grain |
| Day14.FirstBelowSame | src/days/day14/mod.rs:58-63 | sorted columns holding the same depths give the same first deeper entry |
| Day14.SameSetsIn | src/days/day14/mod.rs:79-103 | columns that hold the same depths answer the same membership |
| Day14.SameSetsWiden | src/days/day14/mod.rs:89-96 | adding the same floor column keeps the depths equal |
| Day14.StepSame | src/days/day14/mod.rs:57-109 | a drop step sees only which depths a column holds, not how often |
| Day14.DropSame | src/days/day14/mod.rs:57-109 | a whole drop sees only which depths a column holds |
| Day14.StuckForever | src/days/day14/mod.rs:45-55 | when a grain lands on an occupied square, placing it changes no depth set and the next grain lands there again, so the loop never ends |
| Day14.ValidOfColumns | src/days/day14/mod.rs:160-168 | sorted columns ending with the floor make a well-formed cave |
| Day14.ColumnsValid | src/days/day14/mod.rs:112-176 | the parsed cave is well formed when the deepest rock is above 498 |
| Day14.Pour1Drop | src/days/day14/mod.rs:47 | without a floor a drop from the source never changes the columns and a rest is supported |
| Day14.Pour1Out | src/days/day14/mod.rs:47-54 | a first drop into the abyss ends the loop with no grain counted and the cave unchanged |
| Day14.Pour1Stuck | src/days/day14/mod.rs:47-53 | a grain resting on an occupied square makes the loop repeat forever: no count is ever returned |
| Day14.Pour1Next | src/days/day14/mod.rs:47-53 | a grain resting on a free square is placed, leaving a valid cave with fewer free squares |
| Day14.Pour1Shift | src/days/day14/mod.rs:47-53 | the rounds from such a cave count exactly one grain more than the rounds after the placement |
| Day14.Cave.Round1 | src/days/day14/mod.rs:47-53 | one round: the grain falls out or rests on sand with the cave unchanged, or is placed with the count shifting by one |
| Day14.Pour2Step | src/days/day14/mod.rs:33-41 | with a floor a grain always rests; at the source it is the last one, otherwise it shrinks the free squares and counts one |
| Day14.Cave.constructor | src/days/day14/mod.rs:170-174 | the cave holds the columns, the floor depth and the source (500, 0) |
| Day14.Cave.Drop | src/days/day14/mod.rs:57-109 | the columns and the result are those of the drop |
| Day14.Cave.SimulatePart1 | src/days/day14/mod.rs:45-55 | the loop computes the pouring without a floor: its count and final columns |
| Day14.Cave.SimulatePart2 | src/days/day14/mod.rs:31-44 | the loop computes the pouring with a floor: its count and final columns |
| Day14.FromStr | src/days/day14/mod.rs:112-176 | a path error is passed on; otherwise the cave holds the columns of every rock cell, the floor two below the deepest rock, and the source (500, 0) |
| Day14.Part1 | src/days/day14/mod.rs:178-181 | the grains poured without a floor on the parsed cave |
| Day14.Part2 | src/days/day14/mod.rs:182-185 | the grains poured with a floor on the parsed cave |
| Day15.Distance | src/days/day15/mod.rs:11-14 | the reach is the Manhattan distance to the beacon, 0 exactly when the beacon is on the sensor |
| Day15.ManhattanMetric | src/days/day15/mod.rs:11-14 | the distance is symmetric and obeys the triangle inequality |
| Day15.ParseCoord | src/days/day15/mod.rs:23-28 | a parsed half is a pair of `isize` values |
| Day15.Coords | src/days/day15/mod.rs:20-30 | one coordinate pair per `:`-separated half |
| Day15.ParsedCoords | src/days/day15/mod.rs:22-29 | each half parsed on its own |
| Day15.ParseSensor | src/days/day15/mod.rs:19-35 | a line parses exactly when its halves do, the first giving the sensor and the second the beacon |
| Day15.ParseFormatCoord | src/days/day15/mod.rs:23-28 | `<prefix>x=<x>, y=<y>` parses back to (x, y) |
| Day15.HeadSplit | src/days/day15/mod.rs:24 | the x text is what follows the first `x=` |
| Day15.TailSplit | src/days/day15/mod.rs:25 | the y text is what follows the first `y=` |
| Day15.ParseCoordOf | src/days/day15/mod.rs:23-28 | a half whose pieces parse gives their coordinates |
| Day15.CoordsHalves | src/days/day15/mod.rs:20-30 | two halves without a colon give their two coordinates |
| Day15.ParseHalves | src/days/day15/mod.rs:19-35 | such a line gives the sensor at the first and the beacon at the second |
| Day15.ParseFormatSensor | src/days/day15/mod.rs:19-35 | parsing a printed sensor line gives the sensor back (round trip) |
| Day15.ParsedLines | src/days/day15/mod.rs:41-45 | one parse per line |
| Day15.ReachOnRow | src/days/day15/mod.rs:47-49 | a column of row y is within a sensor's reach exactly when it lies between that sensor's left and right ends |
| Day15.BoundsMeans | src/days/day15/mod.rs:39-52 | the bounds are the least left end and the greatest right end, or the starting extremes when there are no sensors |
| Day15.FindSlice | src/days/day15/mod.rs:38-54 | the loop computes the span between the bounds cast to `usize` |
| Day15.WidthFromExtremes | src/days/day15/mod.rs:46-53 | the width is the distance between the extreme ends |
| Day15.SampleWidth | src/days/day15/mod.rs:182-185 | on the example's fourteen sensors written as values, row 10 gives 26 (the text itself is not parsed in this proof) |
| Day15.SampleLeftEnds | src/days/day15/mod.rs:167-180 | on row 10 the sample's leftmost end is −2 |
| Day15.SampleRightEnds | src/days/day15/mod.rs:167-180 | on row 10 the sample's rightmost end is 24 |
| Day15.Part1 | src/days/day15/mod.rs:157-159 | the width of row 2000000 |
| Day15.Reach | src/days/day15/mod.rs:67-73 | a sensor reaching the row gives a non-empty interval |
| Day15.ReachMeans | src/days/day15/mod.rs:67-73 | a column is in the interval exactly when it is within the sensor's reach |
| Day15.CombinedCovers | src/days/day15/mod.rs:92-141 | the merged interval covers exactly the columns of the pair |
| Day15.FindFrom | src/days/day15/mod.rs:85-143 | the first pair in loop order to which a rule applies, i ≠ j |
| Day15.FindFromNone | src/days/day15/mod.rs:85-144 | when none is found no rule applies from there on |
| Day15.StableDisjoint | src/days/day15/mod.rs:84-145 | after merging, two intervals are apart by more than the slack |
| Day15.TouchingStaySeparate | src/days/day15/mod.rs:116-131 | adjacent intervals that do not overlap are not merged by the rules as written |
| Day15.RemoveAt | src/days/day15/mod.rs:99-138 | removing one interval |
| Day15.Apply | src/days/day15/mod.rs:92-141 | a merge step removes one interval |
| Day15.ReplacePair | src/days/day15/mod.rs:124-138 | replacing a pair by an interval covering the same columns keeps the row's coverage |
| Day15.ApplyCovers | src/days/day15/mod.rs:92-141 | a merge step keeps exactly the covered columns |
| Day15.MergedMeans | src/days/day15/mod.rs:84-145 | merging keeps the covered columns, ends stable and never adds intervals |
| Day15.FindMerge | src/days/day15/mod.rs:85-143 | the double loop finds the first applicable pair |
| Day15.MergeRow | src/days/day15/mod.rs:84-145 | the `'w_loop` computes the merged row |
| Day15.ApplyInPlace | src/days/day15/mod.rs:99-138 | the in-place updates perform the merge step |
| Day15.ReachedSnoc | src/days/day15/mod.rs:66-146 | one sensor more reaches a point exactly when the earlier sensors or the new one does |
| Day15.RowOfMeans | src/days/day15/mod.rs:66-146 | a row's intervals cover exactly the columns some sensor reaches, and are stable |
| Day15.RowStep | src/days/day15/mod.rs:66-146 | one more sensor adds exactly its reach to the covered columns |
| Day15.FreeFromSkip | src/days/day15/mod.rs:147 | a row with at most one interval is passed over |
| Day15.FreeFromFirst | src/days/day15/mod.rs:147-152 | the first row with more than one interval decides the answer |
| Day15.FreeFromNone | src/days/day15/mod.rs:154 | when no row has more than one interval the answer is 0 |
| Day15.FindFree | src/days/day15/mod.rs:56-155 | the row loop computes that answer |
| Day15.RowOfStep | src/days/day15/mod.rs:66-146 | one more sensor pushes its interval, if it reaches the row, and merges again |
| Day15.BuildRow | src/days/day15/mod.rs:66-146 | the sensor loop builds the row's merged intervals |
| Day15.Part2 | src/days/day15/mod.rs:160-162 | the tuning value of the first row left with a gap, up to 4000000, with touching intervals joined |
| Day15.ApplyOrdered | src/days/day15/mod.rs:92-141 | a merge step keeps every interval running left to right |
| Day15.MergedOrdered | src/days/day15/mod.rs:84-145 | merged rows stay ordered |
| Day15.RowOfOrdered | src/days/day15/mod.rs:66-146 | every row's intervals are ordered |
| Day15.ReportedColumnFree | src/days/day15/mod.rs:147-152 | with touching intervals joined, the reported column is out of every sensor's reach |
| Day15.TouchingReportsCovered | src/days/day15/mod.rs:147-152 | with the rules as written, the reported column can be covered by a sensor |

## Left out

- Reading input files and printing answers (`src/bin/*.rs`), `parse_file` and `parse_string` in `src/utill/mod.rs`: input/output, not modelled.
- `src/utill/v2d.rs` is not part of this model: it is an unused copy of the day 9 vector addition.
- The day 16 stubs are not part of this model: both parts return 0.
- Debug output is not modelled:
  - the `println!`/`print!` calls of days 12 and 15;
  - `Cave::draw` (day 14);
  - `_draw_board` (day 9);
  - the `Debug` impls.
- Day 10's `part_2` prints the screen. The model returns the printed text as a string instead.
- Day 11 `part_1` and `src/days/day11/old_monkey.rs` are not modelled: they compute on `f64` worry levels through boxed closures.
- Integer overflow is not modelled, with the exceptions below: the sums, products and counters are unbounded here. Where Rust would panic (debug) or wrap (release) on overflow, the model simply computes the mathematical value. Integer parsing does check the source's type range (`u32`, `i32`, `u64`, `usize`, `isize`). The exceptions:
  - Day 7 excludes overflowing input instead of computing through it. `Day7.Part1` requires the root's size and the sum of the small directories' sizes to fit in a `u64`. `Day7.Part2` requires the root's size to be at most 70000000, because `70000000 - cur_min` is a `u64` subtraction.
  - Day 15's `as usize` casts of the width and of the found column are written out modulo 2^64 (`Day15.AsUsize`).
- Parse error messages are the program's own where it writes them. Where it passes on a standard-library error (`ParseIntError`), the model returns a fixed message instead of that error's text.
- Rust's `sort`/`sort_by`/`BinaryHeap` become the insertion sorts of `Sorting` and `Day13.SortBy`. They agree with the library on the resulting order. The library's algorithm and its stability are not modelled.
- These sample answers are not evaluated in the model:
  - day 6: the part 1 samples 10 and 11, and all five part 2 (14-character) samples;
  - day 8: the part 1 sample 21, and for part 2 that no tree scores more than 8 (`Day8.SampleScore` shows only that one tree scores 8);
  - day 9: the samples 13 and 36;
  - day 10: the sample 13140;
  - day 11: the sample 2713310158;
  - day 12: the sample 31;
  - day 13: the part 1 sample 13 on the example text (it is evaluated on the example's pairs written as packets, see `Day13.SamplePart1` below), and the part 2 sample 140;
  - day 14: the samples 24 and 93;
  - day 15: the part 1 sample 26 on the example text (it is evaluated on the example's sensors written as values, see `Day15.SampleWidth` below), and the part 2 sample 56000011.
  Evaluating them means unfolding the full simulations, which is beyond what the verifier does quickly. The day 7 sample is checked on the directory tree, not on the transcript text.
- Day5.Sample9000: starts from the sample's parsed stacks and moves, not from the sample text; the drawing and the instruction lines are not parsed in the model's proof of "CMZ".
- Day5.Sample9001: starts from the sample's parsed stacks and moves, not from the sample text; the drawing and the instruction lines are not parsed in the model's proof of "MCD".
- Day13.SamplePart1: starts from the example's eight pairs written as packet values (`SamplePairs`), not from the example text; the text is not parsed in the proof of 13. `Day13.ParseFormat` shows that the printed form of any packet parses back to it, but the example text is not shown to be that printed form.
- Day15.SampleWidth: starts from the example's fourteen sensors written as values (`SampleSensors`), not from the example text; the lines are not parsed in the proof of 26. `Day15.ParseFormatSensor` shows that a printed sensor line parses back to the sensor, but the example lines are not shown to be those printed lines.
- Day7.SizeCache: the memo is keyed by the directory's value rather than by an `Rc` pointer. Sharing, `RefCell` borrowing and parent pointers are not modelled. The directory tree is a value and the cursor is a path of names.
- Day 7: `HashMap` iteration order is not modelled. A listing keeps the last entry of each name, as `collect` into a map does. The sums do not depend on the order.
- Days 3, 5, 6, 7, 11, 12 and 13 read bytes (`as_bytes`, byte lengths, byte offsets and slices of `str` at byte offsets); the model reads characters. The two agree on ASCII input, and the model requires ASCII text: `Day3.Part1Ok` and `Day3.Part2Ok` for day 3, `Day5.DrawingOk` for day 5, the `requires` of `Day6.Part1` and `Day6.Part2` for day 6, and the elevation letters of `Day12.RowsOk` for day 12. Days 7, 11 and 13 do not require ASCII: on text where a slice boundary falls inside a multi-byte character, Rust's slice panics while the model goes on with characters, as the per-member lines below say. Non-ASCII input, where a byte count and a character count differ, is otherwise not modelled. The members below state their contracts on characters:
- Day3.CommonMeans: halves are taken at half the character count, which is half the byte count only on ASCII text.
- Day3.Part1Lines: sums over character sets, equal to the source's byte sets on the ASCII lines `Part1Ok` requires.
- Day3.Part1OneShared: shared items are characters, equal to bytes on the ASCII lines it requires.
- Day3.BadgeMeans: badges are characters, equal to bytes on ASCII lines.
- Day3.Part2Groups: sums over character sets, equal to the source's byte sets on the ASCII groups `Part2Ok` requires.
- Day5.ScanWordsCount: tokens are three characters, which are three bytes on the ASCII drawing `DrawingOk` requires.
- Day5.BuildOriginal: reads the crate letter as the second character of a token, the source's second byte on ASCII drawings.
- Day5.ScanLine: as BuildOriginal, for one line.
- Day5.Part1: takes the drawing as characters, requiring it to be ASCII.
- Day5.Part2: takes the drawing as characters, requiring it to be ASCII.
- Day6.FindUniqueB3nny: windows are runs of characters; the source's windows are runs of bytes, the same on ASCII text.
- Day6.FindUniqueMine: windows are runs of characters and the result a character offset; the source's are bytes, the same on ASCII text.
- Day7.ParseCommand: `&cmd[0..2]` and `cmd[3..]` cut the first line at byte offsets 2 and 3; the model takes the first two characters and drops three. On a first line like "cdé", whose third byte is inside a character, the source panics where the model returns a command or an error.
- Day11.ParseOperation: `op.trim()[1..]` and `&op.trim()[0..1]` cut after the first byte; the model drops or takes the first character. When the trimmed operation starts with a multi-byte character ("é old"), the source panics where the model returns an error.
- Day11.OperatorWithNumber: states the operator as the first character of the trimmed operation and the number as the rest; the source cuts at the first byte, the same on ASCII text and a panic otherwise.
- Day11.OperatorWithOld: states the `old` case on characters after the first; the source cuts at the first byte, the same on ASCII text and a panic otherwise.
- Day13.Scan: `sl.chars().nth(i)` is bounded by the byte length `sl.len()` and `&sl[i + 1..]` and `sl[num.0..num.1]` cut at byte offsets, while the model indexes characters throughout. On a packet with a multi-byte character ("[é]") the source fails with "Invalid index" or panics where the model reports its own error.
- Day13.RecursiveFromStr: the same character indexing as `Day13.Scan`; equal to the source on ASCII packets.
- Day13.ParseEl: the same character indexing as `Day13.Scan`; equal to the source on ASCII packets.
- Day6.Part2: requires at least 14 characters and a distinct window among the starts the loop tries. Below 14 the source's `len - 14` underflows, and without such a window `unwrap` panics; on every other input it is proved equal to the windowed search.
- Day8.Part1: the perimeter term `len·4 − 4` counts the edge trees of a square grid only. The puzzle's grids are square, and `Day8.SquareCount` proves the answer is the number of visible trees there; on other grids the answer is not that number (`Day8.TwoByThreeCount`: 4 instead of 6 on a 2×3 grid), and the model keeps the formula as written.
- Day8.CheckDirection: a zero direction would make the iterator never leave the grid. The model requires a unit direction, as every caller passes.
- Day11.Part2: requires every divisor to be positive and every target to name a monkey (`Day11.RulesOk`).
  - The divisor half matches the source. Every parsed monkey holds at least one item, so building the residue matrix divides by every divisor and panics on `% 0`.
  - The target half asks more than the source. The source indexes `monkeys[new_pos]` only for a target an item is actually thrown to. An input whose out-of-range target is never used runs normally in the source but is excluded here. An example is a monkey that throws to 7 when its test holds, among two monkeys, where its items never pass the test.
- Day11.Part2: does not state the product of the two largest counts for a concrete input. `Day11.MonkeyBusinessTop` states it for any counts.
- Day12.Part1: states that a positive answer is the length of a route of legal steps. It does not claim the route is shortest: the search's score is not goal-directed and the reconstruction gives up after 50 steps.
- Day 12: `part_2` (which returns 0) is not modelled.
- Day 12: the `BinaryHeap` is a sequence with a scan for the greatest node. The node order is total, so the node popped is determined.
- Day13.Part2: requires no two packets compare as undecided (`NoTies`), the case where `sort_by` hits `unreachable!`. Transitivity of the comparison is not proved, so the model does not show that the library sort gives the same order as `SortBy` beyond the sorted-and-permutation facts proved about `SortBy`.
- Day14.Cave.SimulatePart1: returns `None` where the source loops forever, that is, when a grain comes to rest on an occupied square. `Day14.StuckForever` shows that the loop then never ends.
- Day14.Part1 and Day14.Part2: require the deepest rock to be above depth 498. This keeps the sand cone within columns 0–999. It excludes the underflow of `from.0 - 1` at column 0, which panics in the source.
- Day14.Cave.Drop: under that requirement the floor-mode insertion of a new column on the left is unreachable, so it is not modelled. The insertion on the right is modelled.
- Day15.Part2: follows the 4,000,000-row scan row by row through `FreeFrom`. It uses the corrected merge that joins touching intervals (see Findings).

## Findings

| source | as written | input that shows it | evidently intended | confidence | as-written member | corrected member |
|---|---|---|---|---|---|---|
| src/days/day6/mod.rs:12 | `find_unique_mine` tries the starts `0..len - amount`, so the last window (start `len - amount`) is never checked | `"abcd"` with `amount` 4: the only window is distinct, yet the loop returns `None` (the windowed search returns 4) | try the starts `0..=len - amount` | not executed | Day6.MineMissesLastWindow | Day6.FindUniqueFixed |
| src/days/day15/mod.rs:116-150 | the merge rules join intervals only when they overlap; two touching intervals `[a, b]`, `[b + 1, c]` stay separate, so the row counts as having a gap and the reported column is `b + 1`, which is covered | sensors at (0,0) with beacon (1,0) and at (3,0) with beacon (4,0), `max_c` 1 (only row 0 is scanned): intervals [-1,1] and [2,4] on row 0, answer 8000000 for column 2, which the second sensor covers | join touching intervals, so only a real gap is reported | not executed | Day15.TouchingReportsCovered | Day15.ReportedColumnFree |
