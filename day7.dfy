/** Day 7: a filesystem rebuilt from a shell transcript. `$ cd` moves a cursor through
    the tree, `$ ls` replaces the current directory's contents with what it lists, and
    directory sizes (memoised) answer the two questions.

    The source's directories are shared, mutable `Rc<RefCell<Dir>>` objects with parent
    pointers. Here the filesystem is a tree value, the cursor is the path of names from
    the root, "cd .." drops the last name, and a change to the current directory rebuilds
    the tree along that path. A directory's contents, a `HashMap` in the source, is a
    sequence of (name, node) entries with distinct names; sizes, sums and minima do not
    depend on the order the entries are visited in. */
module Day7 {
  import opened Wrappers
  import opened Text

  datatype Node = File(size: nat) | Dir(contents: seq<(string, Node)>)

  type Path = seq<string>

  // ---------------------------------------------------------------- sizes

  function Total(s: seq<nat>): nat
  {
    if s == [] then 0 else Total(s[..|s| - 1]) + s[|s| - 1]
  }

  lemma {:induction false} TotalAppend(a: seq<nat>, b: seq<nat>)
    ensures Total(a + b) == Total(a) + Total(b)
    decreases |b|
  {
    if b != [] {
      TotalAppend(a, b[..|b| - 1]);
      assert (a + b)[..|a + b| - 1] == a + b[..|b| - 1];
    } else {
      assert a + b == a;
    }
  }

  /** Every summand is at most the total. */
  lemma {:induction false} TotalBounds(s: seq<nat>, k: nat)
    requires k < |s|
    ensures s[k] <= Total(s)
    decreases |s|
  {
    if k < |s| - 1 {
      TotalBounds(s[..|s| - 1], k);
    }
  }

  /** The size of a node: a file's own size, or for a directory the sum over its
      contents (`get_size` folds the contents, adding file sizes and the sizes of
      subdirectories). */
  function Size(n: Node): nat
    decreases n
  {
    match n
    case File(s) => s
    case Dir(cs) => Total(seq(|cs|, i requires 0 <= i < |cs| => Size(cs[i].1)))
  }

  /** A directory is at least as large as anything it contains. */
  lemma ChildSmaller(cs: seq<(string, Node)>, i: nat)
    requires i < |cs|
    ensures Size(cs[i].1) <= Size(Dir(cs))
  {
    var sizes := seq(|cs|, j requires 0 <= j < |cs| => Size(cs[j].1));
    TotalBounds(sizes, i);
  }

  /** `Dir::get_size` with its `Cell<Option<u64>>` memo. The memo is keyed by the
      directory's value; two directories with equal contents have equal sizes, so this
      returns what the per-object memo returns. */
  class SizeCache {
    var memo: map<Node, nat>

    /** Every remembered size is the directory's true size. */
    predicate Valid()
      reads this
    {
      forall n :: n in memo ==> memo[n] == Size(n)
    }

    constructor ()
      ensures Valid() && memo == map[]
    {
      memo := map[];
    }

    /** The size, computed once: a later call returns the remembered value, which is the
        same sum. */
    method GetSize(n: Node) returns (r: nat)
      requires Valid() && n.Dir?
      modifies this
      ensures Valid() && r == Size(n)
      ensures n in memo && old(memo).Keys <= memo.Keys
      decreases n
    {
      if n in memo {
        return memo[n];
      }
      var cs := n.contents;
      ghost var sizes := seq(|cs|, j requires 0 <= j < |cs| => Size(cs[j].1));
      var acc: nat := 0;
      for i := 0 to |cs|
        invariant Valid() && old(memo).Keys <= memo.Keys
        invariant acc == Total(sizes[..i])
      {
        var s: nat;
        match cs[i].1 {
          case File(fs) => s := fs;
          case Dir(_) => s := GetSize(cs[i].1);
        }
        assert sizes[..i + 1][..i] == sizes[..i];
        acc := acc + s;
      }
      assert sizes[..|cs|] == sizes;
      memo := memo[n := acc];
      r := acc;
    }
  }

  // ---------------------------------------------------------------- all directories

  function Flatten(ss: seq<seq<nat>>): seq<nat>
  {
    if ss == [] then [] else Flatten(ss[..|ss| - 1]) + ss[|ss| - 1]
  }

  /** The sizes of all directories of a tree, the directory itself first, then each
      entry's in order. */
  function DirSizes(n: Node): (r: seq<nat>)
    ensures n.Dir? ==> |r| >= 1 && r[0] == Size(n)
    ensures n.File? ==> r == []
    decreases n
  {
    match n
    case File(_) => []
    case Dir(cs) => [Size(n)] + Flatten(seq(|cs|, i requires 0 <= i < |cs| => DirSizes(cs[i].1)))
  }

  /** The sum of the elements below `limit` (the test of part 1). */
  function SumBelow(s: seq<nat>, limit: nat): nat
  {
    if s == [] then 0
    else SumBelow(s[..|s| - 1], limit) + (if s[|s| - 1] < limit then s[|s| - 1] else 0)
  }

  lemma {:induction false} SumBelowAppend(a: seq<nat>, b: seq<nat>, limit: nat)
    ensures SumBelow(a + b, limit) == SumBelow(a, limit) + SumBelow(b, limit)
    decreases |b|
  {
    if b != [] {
      SumBelowAppend(a, b[..|b| - 1], limit);
      assert (a + b)[..|a + b| - 1] == a + b[..|b| - 1];
    } else {
      assert a + b == a;
    }
  }

  /** The fold of part 2: start from `m` and take every element that frees enough space
      (s + free >= 30000000) and is smaller than the best so far. */
  function MinFit(s: seq<nat>, free: nat, m: nat): nat
  {
    if s == [] then m
    else
      var best := MinFit(s[..|s| - 1], free, m);
      var x := s[|s| - 1];
      if x + free >= 30000000 && x < best then x else best
  }

  /** The fold's result is the start value or an element that frees enough space, and it
      is at most the start value and every element that frees enough. */
  lemma {:induction false} MinFitMeans(s: seq<nat>, free: nat, m: nat)
    ensures MinFit(s, free, m) <= m
    ensures MinFit(s, free, m) == m || (MinFit(s, free, m) in s && MinFit(s, free, m) + free >= 30000000)
    ensures forall k :: 0 <= k < |s| && s[k] + free >= 30000000 ==> MinFit(s, free, m) <= s[k]
  {
    if s != [] {
      var p := s[..|s| - 1];
      MinFitMeans(p, free, m);
      var r := MinFit(s, free, m);
      assert MinFit(p, free, m) in p ==> MinFit(p, free, m) in s;
      forall k | 0 <= k < |s| && s[k] + free >= 30000000 ensures r <= s[k] {
        if k < |s| - 1 {
          assert s[k] == p[k];
        }
      }
    }
  }

  lemma {:induction false} MinFitAppend(a: seq<nat>, b: seq<nat>, free: nat, m: nat)
    ensures MinFit(a + b, free, m) == MinFit(b, free, MinFit(a, free, m))
    decreases |b|
  {
    if b != [] {
      MinFitAppend(a, b[..|b| - 1], free, m);
      assert (a + b)[..|a + b| - 1] == a + b[..|b| - 1];
    } else {
      assert a + b == a;
    }
  }

  /** One more entry of a directory walk: the sizes seen so far grow by that entry's. */
  lemma FlattenStep(cur: nat, parts: seq<seq<nat>>, i: nat)
    requires i < |parts|
    ensures [cur] + Flatten(parts[..i + 1]) == ([cur] + Flatten(parts[..i])) + parts[i]
  {
    assert parts[..i + 1][..i] == parts[..i];
  }

  lemma SumBelowStep(cur: nat, parts: seq<seq<nat>>, i: nat, limit: nat)
    requires i < |parts|
    ensures SumBelow([cur] + Flatten(parts[..i + 1]), limit)
         == SumBelow([cur] + Flatten(parts[..i]), limit) + SumBelow(parts[i], limit)
  {
    FlattenStep(cur, parts, i);
    SumBelowAppend([cur] + Flatten(parts[..i]), parts[i], limit);
  }

  lemma MinFitStep(cur: nat, parts: seq<seq<nat>>, i: nat, free: nat, m: nat)
    requires i < |parts|
    ensures MinFit([cur] + Flatten(parts[..i + 1]), free, m)
         == MinFit(parts[i], free, MinFit([cur] + Flatten(parts[..i]), free, m))
  {
    FlattenStep(cur, parts, i);
    MinFitAppend([cur] + Flatten(parts[..i]), parts[i], free, m);
  }

  /** `recurssive_sum`: add the directory's size when it is below 100000, then walk
      every subdirectory. */
  method RecursiveSum(cache: SizeCache, n: Node, sum: nat) returns (total: nat)
    requires cache.Valid() && n.Dir?
    modifies cache
    ensures cache.Valid()
    ensures total == sum + SumBelow(DirSizes(n), 100000)
    decreases n
  {
    var cur := cache.GetSize(n);
    total := sum + (if cur < 100000 then cur else 0);
    var cs := n.contents;
    ghost var parts := seq(|cs|, i requires 0 <= i < |cs| => DirSizes(cs[i].1));
    assert SumBelow([cur], 100000) == (if cur < 100000 then cur else 0) by {
      assert [cur][..0] == [];
    }
    for i := 0 to |cs|
      invariant cache.Valid()
      invariant total == sum + SumBelow([cur] + Flatten(parts[..i]), 100000)
    {
      SumBelowStep(cur, parts, i, 100000);
      match cs[i].1 {
        case File(_) =>
        case Dir(_) =>
          total := RecursiveSum(cache, cs[i].1, total);
      }
    }
    assert parts[..|cs|] == parts;
  }

  /** `recurssive_min`: keep the directory's size when it frees enough space and is
      below the best so far, then walk every subdirectory. */
  method RecursiveMin(cache: SizeCache, n: Node, min: nat, free: nat) returns (best: nat)
    requires cache.Valid() && n.Dir?
    modifies cache
    ensures cache.Valid()
    ensures best == MinFit(DirSizes(n), free, min)
    decreases n
  {
    var cur := cache.GetSize(n);
    best := min;
    if cur + free >= 30000000 && cur < best {
      best := cur;
    }
    var cs := n.contents;
    ghost var parts := seq(|cs|, i requires 0 <= i < |cs| => DirSizes(cs[i].1));
    assert best == MinFit([cur], free, min) by {
      assert [cur][..0] == [];
    }
    for i := 0 to |cs|
      invariant cache.Valid()
      invariant best == MinFit([cur] + Flatten(parts[..i]), free, min)
    {
      MinFitStep(cur, parts, i, free, min);
      match cs[i].1 {
        case File(_) =>
        case Dir(_) =>
          best := RecursiveMin(cache, cs[i].1, best, free);
      }
    }
    assert parts[..|cs|] == parts;
  }

  // ---------------------------------------------------------------- paths

  /** The index of the entry with a given name (`contents.get(name)`). */
  function Find(cs: seq<(string, Node)>, name: string): (r: Option<nat>)
    ensures r.Some? ==> r.value < |cs| && cs[r.value].0 == name
    ensures r.None? ==> forall i :: 0 <= i < |cs| ==> cs[i].0 != name
  {
    if cs == [] then None
    else if cs[0].0 == name then Some(0)
    else match Find(cs[1..], name)
      case None => None
      case Some(i) => Some(i + 1)
  }

  /** The node at the end of a path of names from `n`. */
  function Get(n: Node, p: Path): Option<Node>
    decreases p
  {
    if p == [] then Some(n)
    else match n
      case File(_) => None
      case Dir(cs) =>
        match Find(cs, p[0])
        case None => None
        case Some(i) => Get(cs[i].1, p[1..])
  }

  /** The tree with the node at path `p` replaced by `v`. */
  function SetAt(n: Node, p: Path, v: Node): (r: Node)
    requires Get(n, p).Some?
    ensures p != [] ==> r.Dir?
    decreases p
  {
    if p == [] then v
    else
      var cs := n.contents;
      var i := Find(cs, p[0]).value;
      Dir(cs[i := (cs[i].0, SetAt(cs[i].1, p[1..], v))])
  }

  lemma FindSameNames(cs: seq<(string, Node)>, i: nat, x: Node, name: string)
    requires i < |cs|
    ensures Find(cs[i := (cs[i].0, x)], name) == Find(cs, name)
  {
    var ds := cs[i := (cs[i].0, x)];
    assert forall j :: 0 <= j < |cs| ==> ds[j].0 == cs[j].0;
    FindByNames(cs, ds, name);
  }

  lemma {:induction false} FindByNames(cs: seq<(string, Node)>, ds: seq<(string, Node)>, name: string)
    requires |cs| == |ds| && forall j :: 0 <= j < |cs| ==> ds[j].0 == cs[j].0
    ensures Find(cs, name) == Find(ds, name)
    decreases |cs|
  {
    if cs != [] {
      FindByNames(cs[1..], ds[1..], name);
    }
  }

  /** After the replacement the path leads to the new node. */
  lemma {:induction false} GetSetAt(n: Node, p: Path, v: Node)
    requires Get(n, p).Some?
    ensures Get(SetAt(n, p, v), p) == Some(v)
    decreases p
  {
    if p != [] {
      var cs := n.contents;
      var i := Find(cs, p[0]).value;
      FindSameNames(cs, i, SetAt(cs[i].1, p[1..], v), p[0]);
      GetSetAt(cs[i].1, p[1..], v);
    }
  }

  predicate IsPrefix(p: Path, q: Path)
  {
    |p| <= |q| && q[..|p|] == p
  }

  /** The replacement touches nothing beside the path to `p`: every path that parts
      from it leads where it led before. */
  lemma {:induction false} GetSetAtElsewhere(n: Node, p: Path, v: Node, q: Path)
    requires Get(n, p).Some? && !IsPrefix(p, q) && !IsPrefix(q, p)
    ensures Get(SetAt(n, p, v), q) == Get(n, q)
    decreases p
  {
    var cs := n.contents;
    var i := Find(cs, p[0]).value;
    var cs2 := cs[i := (cs[i].0, SetAt(cs[i].1, p[1..], v))];
    assert SetAt(n, p, v) == Dir(cs2);
    if q != [] {
      FindSameNames(cs, i, SetAt(cs[i].1, p[1..], v), q[0]);
      if q[0] == p[0] {
        assert !IsPrefix(p[1..], q[1..]) && !IsPrefix(q[1..], p[1..]);
        GetSetAtElsewhere(cs[i].1, p[1..], v, q[1..]);
      } else {
        match Find(cs, q[0]) {
          case None =>
          case Some(j) =>
            assert j != i;
            assert cs2[j] == cs[j];
        }
      }
    }
  }

  /** Following one more name is looking it up in the directory reached so far. */
  lemma {:induction false} GetSnoc(n: Node, p: Path, name: string)
    requires Get(n, p).Some?
    ensures Get(n, p + [name]) ==
      match Get(n, p).value
      case File(_) => None
      case Dir(cs) => (match Find(cs, name) case None => None case Some(i) => Some(cs[i].1))
    decreases p
  {
    if p == [] {
      assert p + [name] == [name];
      assert ([name])[1..] == [];
    } else {
      var cs := n.contents;
      var i := Find(cs, p[0]).value;
      assert (p + [name])[1..] == p[1..] + [name];
      GetSnoc(cs[i].1, p[1..], name);
    }
  }

  /** A prefix of a path that leads somewhere leads somewhere. */
  lemma {:induction false} GetPrefix(n: Node, p: Path, k: nat)
    requires k <= |p| && Get(n, p).Some?
    ensures Get(n, p[..k]).Some?
    decreases p
  {
    if k > 0 {
      var i := Find(n.contents, p[0]).value;
      GetPrefix(n.contents[i].1, p[1..], k - 1);
      assert p[..k][1..] == p[1..][..k - 1];
    }
  }

  // ---------------------------------------------------------------- listings

  predicate UniqueNames(cs: seq<(string, Node)>)
  {
    forall i, j :: 0 <= i < j < |cs| ==> cs[i].0 != cs[j].0
  }

  function Names(cs: seq<(string, Node)>): set<string>
  {
    set e | e in cs :: e.0
  }

  /** The entry is the last one in `es` with its name. */
  predicate LastOfName(es: seq<(string, Node)>, j: nat)
    requires j < |es|
  {
    forall k :: j < k < |es| ==> es[k].0 != es[j].0
  }

  /** Every entry of `r` is the last entry of `es` with its name. */
  predicate AllLast(es: seq<(string, Node)>, r: seq<(string, Node)>)
  {
    forall i :: 0 <= i < |r| ==> exists j :: 0 <= j < |es| && es[j] == r[i] && LastOfName(es, j)
  }

  /** The contents a listing makes: `collect::<HashMap<_, _>>()` keeps, for each name,
      the last entry listed with it. */
  function Dedupe(es: seq<(string, Node)>): (r: seq<(string, Node)>)
    ensures UniqueNames(r) && Names(r) == Names(es)
    ensures AllLast(es, r)
  {
    if es == [] then []
    else
      var rest := Dedupe(es[1..]);
      DedupeTail(es, rest);
      if es[0].0 in Names(es[1..]) then rest
      else
        DedupeCons(es, rest);
        [es[0]] + rest
  }

  /** Entries that are last of their name among es[1..] are last of it in es. */
  lemma DedupeTail(es: seq<(string, Node)>, rest: seq<(string, Node)>)
    requires es != [] && AllLast(es[1..], rest) && Names(rest) == Names(es[1..])
    ensures AllLast(es, rest)
    ensures Names(es) == {es[0].0} + Names(rest)
  {
    assert Names(es) == {es[0].0} + Names(es[1..]) by {
      forall n | n in Names(es) ensures n in {es[0].0} + Names(es[1..]) {
        var e :| e in es && e.0 == n;
        var k :| 0 <= k < |es| && es[k] == e;
        if k > 0 {
          assert es[1..][k - 1] == e;
        }
      }
      forall n | n in Names(es[1..]) ensures n in Names(es) {
        var e :| e in es[1..] && e.0 == n;
        assert e in es;
      }
    }
    forall i | 0 <= i < |rest|
      ensures exists j :: 0 <= j < |es| && es[j] == rest[i] && LastOfName(es, j)
    {
      var j :| 0 <= j < |es[1..]| && es[1..][j] == rest[i] && LastOfName(es[1..], j);
      forall k | j + 1 < k < |es|
        ensures es[k].0 != es[j + 1].0
      {
        assert es[k] == es[1..][k - 1];
      }
      var w := j + 1;
      assert 0 <= w < |es| && es[w] == rest[i] && LastOfName(es, w);
    }
    assert AllLast(es, rest);
  }

  /** The first entry, when no later entry shares its name, stays in front. */
  lemma DedupeCons(es: seq<(string, Node)>, rest: seq<(string, Node)>)
    requires es != [] && es[0].0 !in Names(es[1..])
    requires UniqueNames(rest) && Names(rest) == Names(es[1..]) && AllLast(es, rest)
    ensures UniqueNames([es[0]] + rest) && Names([es[0]] + rest) == {es[0].0} + Names(rest)
    ensures AllLast(es, [es[0]] + rest)
  {
    var r := [es[0]] + rest;
    assert LastOfName(es, 0) by {
      forall k | 0 < k < |es| ensures es[k].0 != es[0].0 {
        assert es[1..][k - 1] in es[1..];
      }
    }
    forall i | 0 < i < |r| ensures r[i].0 != es[0].0 {
      assert rest[i - 1] in rest;
    }
    assert Names(r) == {es[0].0} + Names(rest) by {
      assert forall e :: e in r <==> e == es[0] || e in rest;
    }
    forall i | 0 <= i < |r|
      ensures exists j :: 0 <= j < |es| && es[j] == r[i] && LastOfName(es, j)
    {
      if i == 0 {
        assert es[0] == r[0];
      } else {
        assert r[i] == rest[i - 1];
      }
    }
  }


  // ---------------------------------------------------------------- parsing

  datatype Command = CD(name: string) | LS(entries: seq<(string, Node)>)

  /** `FileType::from_str`: "dir <name>" is a new, empty directory; "<size> <name>" a
      file of that `u64` size; the name is everything after the first space. */
  function ParseFileType(s: string): (r: Result<(string, Node)>)
    ensures r.Ok? ==> r.value.1 == Dir([]) || r.value.1.File?
  {
    match SplitOnce(s, " ")
    case None => Err("Invalid cmd format for parsing")
    case Some((first, second)) =>
      if first == "dir" then Ok((second, Dir([])))
      else match ParseNat(first, U64_MAX)
        case None => Err("invalid u64")
        case Some(size) => Ok((second, File(size)))
  }

  /** The listing line of an entry. */
  function FormatEntry(e: (string, Node)): string
    requires e.1 == Dir([]) || e.1.File?
  {
    if e.1.Dir? then "dir " + e.0 else NatToString(e.1.size) + " " + e.0
  }

  /** Listing lines read back as the entries they list. */
  lemma ParseFormatEntry(e: (string, Node))
    requires e.1 == Dir([]) || (e.1.File? && e.1.size <= U64_MAX)
    ensures ParseFileType(FormatEntry(e)) == Ok(e)
  {
    if e.1.Dir? {
      SplitOnceChar("dir", ' ', e.0);
      assert "dir " + e.0 == "dir" + [' '] + e.0;
    } else {
      NatToStringNoChar(e.1.size, ' ');
      SplitOnceChar(NatToString(e.1.size), ' ', e.0);
      ParseNatToString(e.1.size, U64_MAX);
      assert NatToString(e.1.size) != "dir" by {
        assert IsDigit(NatToString(e.1.size)[0]);
      }
    }
  }

  /** `collect::<Result<Vec<_>>>()`: every line's entry, or the first error. */
  function ParseEntries(lines: seq<string>): (r: Result<seq<(string, Node)>>)
    ensures r.Ok? ==> |r.value| == |lines|
    ensures r.Ok? ==> forall k :: 0 <= k < |lines| ==> ParseFileType(lines[k]) == Ok(r.value[k])
    ensures r.Err? ==> exists k :: 0 <= k < |lines| && ParseFileType(lines[k]).Err?
  {
    var rs := seq(|lines|, k requires 0 <= k < |lines| => ParseFileType(lines[k]));
    Collect(rs)
  }

  /** The slices `&cmd[0..2]` and `&cmd[3..]` the command parser takes: the command line
      has at least two characters, and at least three when it starts with "cd". */
  predicate CommandOk(s: string)
  {
    SplitOnce(s, "\n").None? ||
    (var cmd := SplitOnce(s, "\n").value.0;
     |cmd| >= 2 && (cmd[..2] == "cd" ==> |cmd| >= 3))
  }

  /** `Command::from_str` on the text after a "$ ": its first line is the command, "cd
      <name>" or "ls", and for "ls" the remaining lines are the listing. Text without a
      newline, another verb, or a listing line that does not parse is an error. */
  function ParseCommand(s: string): (r: Result<Command>)
    requires CommandOk(s)
    ensures SplitOnce(s, "\n").None? ==> r.Err?
    ensures SplitOnce(s, "\n").Some? ==>
      var (cmd, rest) := SplitOnce(s, "\n").value;
      && (r.Ok? && r.value.CD? <==> cmd[..2] == "cd")
      && (r.Ok? && r.value.CD? ==> s == cmd + "\n" + rest && cmd == "cd" + [cmd[2]] + r.value.name)
      && (r.Ok? && r.value.LS? ==> cmd[..2] == "ls" && |r.value.entries| == |Lines(rest)|)
      && (r.Ok? && r.value.LS? ==> forall k :: 0 <= k < |Lines(rest)| ==> ParseFileType(Lines(rest)[k]) == Ok(r.value.entries[k]))
      && (cmd[..2] != "cd" && cmd[..2] != "ls" ==> r.Err?)
  {
    match SplitOnce(s, "\n")
    case None => Err("Invalid cmd format for parsing")
    case Some((cmd, rest)) =>
      if cmd[..2] == "cd" then Ok(CD(cmd[3..]))
      else if cmd[..2] == "ls" then
        match ParseEntries(Lines(rest))
        case Err(e) => Err(e)
        case Ok(es) => Ok(LS(es))
      else Err("")
  }

  /** A "cd" line with its newline parses; without the newline it is an error. */
  lemma ParseCd(name: string)
    requires '\n' !in name
    ensures CommandOk("cd " + name + "\n") && ParseCommand("cd " + name + "\n") == Ok(CD(name))
    ensures CommandOk("cd " + name) && ParseCommand("cd " + name).Err?
  {
    var s := "cd " + name;
    assert '\n' !in s by {
      assert forall i :: 0 <= i < |s| ==> s[i] == ' ' || s[i] == 'c' || s[i] == 'd' || s[i] in name;
    }
    SplitOnceChar(s, '\n', "");
    assert s + ['\n'] + "" == s + "\n";
    assert s[..2] == "cd" && s[3..] == name;
  }

  /** The non-empty pieces of the transcript split at "$ ". */
  function Chunks(input: string): (r: seq<string>)
    ensures forall k :: 0 <= k < |r| ==> r[k] != ""
  {
    var ps := SplitOn(input, "$ ");
    Keep(ps)
  }

  function Keep(ps: seq<string>): (r: seq<string>)
    ensures forall k :: 0 <= k < |r| ==> r[k] != ""
  {
    if ps == [] then [] else (if ps[0] == "" then [] else [ps[0]]) + Keep(ps[1..])
  }

  /** `flat_map(str::parse::<Command>)`: a chunk that fails to parse is dropped. */
  function ParsedCommands(chunks: seq<string>): (r: seq<Command>)
    requires forall k :: 0 <= k < |chunks| ==> CommandOk(chunks[k])
    ensures |r| <= |chunks|
    ensures (forall k :: 0 <= k < |chunks| ==> ParseCommand(chunks[k]).Err?) ==> r == []
  {
    if chunks == [] then []
    else
      var rest := ParsedCommands(chunks[1..]);
      match ParseCommand(chunks[0])
      case Err(_) => rest
      case Ok(c) => [c] + rest
  }

  // ---------------------------------------------------------------- building the tree

  /** The tree built so far and the current directory. */
  datatype State = State(root: Node, cursor: Path)

  /** The cursor names a directory of the tree. */
  predicate Inv(st: State)
  {
    Get(st.root, st.cursor).Some? && Get(st.root, st.cursor).value.Dir?
  }

  /** One command after the first. "cd .." goes to the parent, "cd <name>" to a
      subdirectory of the current one, "ls" replaces the current directory's contents. */
  function Step(st: State, c: Command): (r: Result<State>)
    requires Inv(st)
    ensures r.Ok? ==> Inv(r.value)
  {
    match c
    case CD(name) =>
      if name == ".." then
        if st.cursor == [] then Err("Error can't .. on root")
        else
          GetPrefix(st.root, st.cursor, |st.cursor| - 1);
          var up := st.cursor[..|st.cursor| - 1];
          GetSnoc(st.root, up, st.cursor[|st.cursor| - 1]);
          assert up + [st.cursor[|st.cursor| - 1]] == st.cursor;
          Ok(State(st.root, up))
      else
        (match Get(st.root, st.cursor + [name])
         case None => Err("Folder should exist")
         case Some(File(_)) => Err("Value must be Dir")
         case Some(Dir(_)) => Ok(State(st.root, st.cursor + [name])))
    case LS(es) =>
      GetSetAt(st.root, st.cursor, Dir(Dedupe(es)));
      Ok(State(SetAt(st.root, st.cursor, Dir(Dedupe(es))), st.cursor))
  }

  /** "ls" leaves the current directory holding exactly the listed entries (the last of
      each name) and every path that parts from the current one unchanged. */
  lemma LsEffect(st: State, es: seq<(string, Node)>, q: Path)
    requires Inv(st)
    ensures Step(st, LS(es)).Ok? && Step(st, LS(es)).value.cursor == st.cursor
    ensures Get(Step(st, LS(es)).value.root, st.cursor) == Some(Dir(Dedupe(es)))
    ensures !IsPrefix(st.cursor, q) && !IsPrefix(q, st.cursor) ==>
      Get(Step(st, LS(es)).value.root, q) == Get(st.root, q)
  {
    GetSetAt(st.root, st.cursor, Dir(Dedupe(es)));
    if !IsPrefix(st.cursor, q) && !IsPrefix(q, st.cursor) {
      GetSetAtElsewhere(st.root, st.cursor, Dir(Dedupe(es)), q);
    }
  }

  /** "cd <name>" succeeds exactly when the current directory holds an entry of that
      name that is a directory, and "cd .." afterwards returns to the same place. */
  lemma CdThenUp(st: State, name: string)
    requires Inv(st) && name != ".."
    ensures var cs := Get(st.root, st.cursor).value.contents;
      Step(st, CD(name)).Ok? <==> Find(cs, name).Some? && cs[Find(cs, name).value].1.Dir?
    ensures Step(st, CD(name)).Ok? ==> Step(Step(st, CD(name)).value, CD("..")) == Ok(st)
  {
    GetSnoc(st.root, st.cursor, name);
    var c2 := st.cursor + [name];
    assert c2[..|c2| - 1] == st.cursor;
  }

  /** The tree after the commands from a state on, or the first error. */
  function Run(st: State, cmds: seq<Command>): (r: Result<Node>)
    requires Inv(st)
    ensures r.Ok? ==> r.value.Dir?
    decreases |cmds|
  {
    if cmds == [] then
      assert Get(st.root, []) == Some(st.root);
      Ok(st.root)
    else match Step(st, cmds[0])
      case Err(e) => Err(e)
      case Ok(next) => Run(next, cmds[1..])
  }

  /** `from_iter`: the first command must be a cd (its name names the root), then every
      other command in turn from an empty root. */
  function FromCommands(cmds: seq<Command>): (r: Result<Node>)
    ensures r.Ok? ==> r.value.Dir?
  {
    if cmds == [] then Err("First value must exist")
    else if cmds[0].LS? then Err("First command must be cd")
    else Run(State(Dir([]), []), cmds[1..])
  }

  /** `from_iter` as the source writes it: a cursor that moves, and contents that are
      overwritten, until the commands run out or one fails. */
  method FromIter(cmds: seq<Command>) returns (r: Result<Node>)
    ensures r == FromCommands(cmds)
  {
    if cmds == [] {
      return Err("First value must exist");
    }
    if cmds[0].LS? {
      return Err("First command must be cd");
    }
    var root := Dir([]);
    var cursor: Path := [];
    for i := 1 to |cmds|
      invariant Inv(State(root, cursor))
      invariant Run(State(root, cursor), cmds[i..]) == FromCommands(cmds)
    {
      assert cmds[i..][1..] == cmds[i + 1..];
      match cmds[i] {
        case CD(name) =>
          if name == ".." {
            if cursor == [] {
              return Err("Error can't .. on root");
            }
            cursor := cursor[..|cursor| - 1];
          } else {
            var cs := Get(root, cursor).value.contents;
            GetSnoc(root, cursor, name);
            match Find(cs, name) {
              case None =>
                return Err("Folder should exist");
              case Some(k) =>
                if cs[k].1.File? {
                  return Err("Value must be Dir");
                }
                cursor := cursor + [name];
            }
          }
        case LS(es) =>
          root := SetAt(root, cursor, Dir(Dedupe(es)));
      }
    }
    assert cmds[|cmds|..] == [];
    return Ok(root);
  }

  /** Every chunk of the transcript is one the command parser can slice. */
  predicate TranscriptOk(input: string)
  {
    forall k :: 0 <= k < |Chunks(input)| ==> CommandOk(Chunks(input)[k])
  }

  /** `Dir::build_fs`. */
  function BuildFs(input: string): (r: Result<Node>)
    requires TranscriptOk(input)
    ensures r.Ok? ==> r.value.Dir?
    ensures ParsedCommands(Chunks(input)) == [] ==> r.Err?
    ensures |ParsedCommands(Chunks(input))| > 0 && ParsedCommands(Chunks(input))[0].LS? ==> r.Err?
  {
    FromCommands(ParsedCommands(Chunks(input)))
  }

  // ---------------------------------------------------------------- the two parts

  /** `part_1`: the sum of the sizes of all directories below 100000. The transcript
      must build (`unwrap`), and the sums must fit in a `u64`. */
  method Part1(input: string) returns (r: nat)
    requires TranscriptOk(input) && BuildFs(input).Ok?
    requires Size(BuildFs(input).value) <= U64_MAX
    requires SumBelow(DirSizes(BuildFs(input).value), 100000) <= U64_MAX
    ensures r == SumBelow(DirSizes(BuildFs(input).value), 100000)
  {
    var fs := FromIter(ParsedCommands(Chunks(input)));
    var cache := new SizeCache();
    r := RecursiveSum(cache, fs.value, 0);
  }

  /** The answer of part 2 for a tree, as the fold over all directory sizes. */
  function ToDelete(root: Node): nat
    requires Size(root) <= 70000000
  {
    MinFit(DirSizes(root), 70000000 - Size(root), U64_MAX)
  }

  /** `part_2`: with free = 70000000 - the root's size, the smallest directory size s
      with s + free >= 30000000. The root qualifies, so the answer is a directory's
      size. A root above 70000000 underflows the subtraction. */
  method Part2(input: string) returns (r: nat)
    requires TranscriptOk(input) && BuildFs(input).Ok?
    requires Size(BuildFs(input).value) <= 70000000
    ensures r == ToDelete(BuildFs(input).value)
  {
    var fs := FromIter(ParsedCommands(Chunks(input)));
    r := SmallestToDelete(fs.value);
  }

  /** The tail of `part_2` once the tree is built. */
  method SmallestToDelete(root: Node) returns (r: nat)
    requires root.Dir? && Size(root) <= 70000000
    ensures r == ToDelete(root)
  {
    var cache := new SizeCache();
    var cur := cache.GetSize(root);
    var free := 70000000 - cur;
    r := RecursiveMin(cache, root, U64_MAX, free);
  }

  /** The answer of part 2 is the size of a directory that frees enough space, and no
      directory that frees enough is smaller: the root always qualifies, so the start
      value `u64::MAX` never survives. */
  lemma Part2Answer(root: Node)
    requires root.Dir? && Size(root) <= 70000000
    ensures var free := 70000000 - Size(root);
      var r := ToDelete(root);
      r in DirSizes(root) && r + free >= 30000000 &&
      forall k :: 0 <= k < |DirSizes(root)| && DirSizes(root)[k] + free >= 30000000 ==> r <= DirSizes(root)[k]
  {
    var free := 70000000 - Size(root);
    MinFitMeans(DirSizes(root), free, U64_MAX);
    assert DirSizes(root)[0] + free >= 30000000;
  }

  // ---------------------------------------------------------------- the sample

  lemma Total4(a: nat, b: nat, c: nat, d: nat)
    ensures Total([a, b, c, d]) == a + b + c + d
  {
    var s := [a, b, c, d];
    assert Total([a]) == a by { assert [a][..0] == []; }
    assert Total([a, b]) == a + b by { assert [a, b][..1] == [a]; }
    assert Total([a, b, c]) == a + b + c by { assert [a, b, c][..2] == [a, b]; }
    assert s[..3] == [a, b, c];
  }

  lemma SizeOf4(cs: seq<(string, Node)>)
    requires |cs| == 4
    ensures Size(Dir(cs)) == Size(cs[0].1) + Size(cs[1].1) + Size(cs[2].1) + Size(cs[3].1)
  {
    var sizes := seq(|cs|, i requires 0 <= i < |cs| => Size(cs[i].1));
    assert sizes == [Size(cs[0].1), Size(cs[1].1), Size(cs[2].1), Size(cs[3].1)];
    Total4(Size(cs[0].1), Size(cs[1].1), Size(cs[2].1), Size(cs[3].1));
  }

  lemma SizeOf1(cs: seq<(string, Node)>)
    requires |cs| == 1
    ensures Size(Dir(cs)) == Size(cs[0].1)
  {
    var sizes := seq(|cs|, i requires 0 <= i < |cs| => Size(cs[i].1));
    assert sizes == [Size(cs[0].1)];
    assert Total(sizes) == Total(sizes[..0]) + sizes[0];
    assert sizes[..0] == [];
  }

  lemma Flatten4(a: seq<nat>, b: seq<nat>, c: seq<nat>, d: seq<nat>)
    ensures Flatten([a, b, c, d]) == a + b + c + d
  {
    var s := [a, b, c, d];
    assert Flatten([a]) == a by { assert [a][..0] == []; }
    assert Flatten([a, b]) == a + b by { assert [a, b][..1] == [a]; }
    assert Flatten([a, b, c]) == a + b + c by { assert [a, b, c][..2] == [a, b]; }
    assert s[..3] == [a, b, c];
  }

  lemma DirSizesOf4(cs: seq<(string, Node)>)
    requires |cs| == 4
    ensures DirSizes(Dir(cs)) == [Size(Dir(cs))] + (DirSizes(cs[0].1) + DirSizes(cs[1].1) + DirSizes(cs[2].1) + DirSizes(cs[3].1))
  {
    var parts := seq(|cs|, i requires 0 <= i < |cs| => DirSizes(cs[i].1));
    var a, b, c, d := DirSizes(cs[0].1), DirSizes(cs[1].1), DirSizes(cs[2].1), DirSizes(cs[3].1);
    assert Flatten(parts) == a + b + c + d by {
      Four(parts, a, b, c, d);
      Flatten4(a, b, c, d);
    }
    DirSizesUnfold(cs, parts);
  }

  lemma DirSizesUnfold(cs: seq<(string, Node)>, parts: seq<seq<nat>>)
    requires parts == seq(|cs|, i requires 0 <= i < |cs| => DirSizes(cs[i].1))
    ensures DirSizes(Dir(cs)) == [Size(Dir(cs))] + Flatten(parts)
  {
  }

  lemma Four<T>(s: seq<T>, a: T, b: T, c: T, d: T)
    requires |s| == 4 && s[0] == a && s[1] == b && s[2] == c && s[3] == d
    ensures s == [a, b, c, d]
  {
  }

  lemma DirSizesOf1(cs: seq<(string, Node)>)
    requires |cs| == 1 && cs[0].1.File?
    ensures DirSizes(Dir(cs)) == [Size(Dir(cs))]
  {
    var parts := seq(|cs|, i requires 0 <= i < |cs| => DirSizes(cs[i].1));
    assert parts == [[]];
    assert Flatten(parts) == Flatten(parts[..0]) + parts[0];
    assert parts[..0] == [];
  }

  /** The sample transcript's tree: e holds 584 bytes, a 94853, d 24933642 and the root
      48381165. */
  lemma SampleSizes(e: Node, a: Node, d: Node, root: Node)
    requires e == Dir([("i", File(584))])
    requires a == Dir([("e", e), ("f", File(29116)), ("g", File(2557)), ("h.lst", File(62596))])
    requires d == Dir([("j", File(4060174)), ("d.log", File(8033020)), ("d.ext", File(5626152)), ("k", File(7214296))])
    requires root == Dir([("a", a), ("b.txt", File(14848514)), ("c.dat", File(8504156)), ("d", d)])
    ensures DirSizes(root) == [48381165, 94853, 584, 24933642]
  {
    SampleE(e);
    SampleA(a, e);
    SampleD(d);
    SampleRoot(root, a, d);
  }

  lemma SampleE(e: Node)
    requires e == Dir([("i", File(584))])
    ensures Size(e) == 584 && DirSizes(e) == [584]
  {
    SizeOf1(e.contents);
    DirSizesOf1(e.contents);
  }

  lemma SampleA(a: Node, e: Node)
    requires a == Dir([("e", e), ("f", File(29116)), ("g", File(2557)), ("h.lst", File(62596))])
    requires Size(e) == 584 && DirSizes(e) == [584]
    ensures Size(a) == 94853 && DirSizes(a) == [94853, 584]
  {
    SizeOf4(a.contents);
    DirSizesOf4(a.contents);
  }

  lemma SampleD(d: Node)
    requires d == Dir([("j", File(4060174)), ("d.log", File(8033020)), ("d.ext", File(5626152)), ("k", File(7214296))])
    ensures Size(d) == 24933642 && DirSizes(d) == [24933642]
  {
    SizeOf4(d.contents);
    DirSizesOf4(d.contents);
  }

  lemma SampleRoot(root: Node, a: Node, d: Node)
    requires root == Dir([("a", a), ("b.txt", File(14848514)), ("c.dat", File(8504156)), ("d", d)])
    requires Size(a) == 94853 && DirSizes(a) == [94853, 584]
    requires Size(d) == 24933642 && DirSizes(d) == [24933642]
    ensures DirSizes(root) == [48381165, 94853, 584, 24933642]
  {
    SizeOf4(root.contents);
    DirSizesOf4(root.contents);
  }

  /** On the sample tree part 1 gives 95437 (a and e are the directories below 100000)
      and part 2 gives 24933642 (d). */
  lemma SampleAnswers(sizes: seq<nat>)
    requires sizes == [48381165, 94853, 584, 24933642]
    ensures SumBelow(sizes, 100000) == 95437
    ensures MinFit(sizes, 70000000 - 48381165, U64_MAX) == 24933642
  {
    assert SumBelow([48381165], 100000) == 0 by { assert [48381165][..0] == []; }
    assert SumBelow([48381165, 94853], 100000) == 94853 by { assert [48381165, 94853][..1] == [48381165]; }
    assert SumBelow([48381165, 94853, 584], 100000) == 95437 by { assert [48381165, 94853, 584][..2] == [48381165, 94853]; }
    assert sizes[..3] == [48381165, 94853, 584];
    var free := 70000000 - 48381165;
    assert MinFit([48381165], free, U64_MAX) == 48381165 by { assert [48381165][..0] == []; }
    assert MinFit([48381165, 94853], free, U64_MAX) == 48381165 by { assert [48381165, 94853][..1] == [48381165]; }
    assert MinFit([48381165, 94853, 584], free, U64_MAX) == 48381165 by { assert [48381165, 94853, 584][..2] == [48381165, 94853]; }
  }
}
