/** Day 13: distress-signal packets. A packet is a nested list of `i32` values written
    with brackets and commas; pairs of packets are judged in or out of order by a
    recursive comparison, and part 2 sorts all packets with two divider packets added. */
module Day13 {
  import opened Wrappers
  import opened Text

  /** A packet element: a list of elements or a number (`El`). */
  datatype El = List(items: seq<El>) | Val(v: int)

  /** The verdict of a comparison: in order, out of order, or not decided yet. */
  datatype State = Good | Bad | Continue

  /** Size of an element, for termination of the comparison. */
  function Weight(e: El): nat
  {
    match e
    case Val(_) => 1
    case List(es) => 1 + Weights(es)
  }

  function Weights(es: seq<El>): nat
  {
    if es == [] then 0 else Weight(es[0]) + Weights(es[1..])
  }

  lemma WeightPositive(e: El)
    ensures Weight(e) >= 1
  {
  }

  /** The items of the first element, and the remaining elements, weigh less than the
      whole sequence. */
  lemma WeightsSplit(es: seq<El>)
    requires es != []
    ensures Weights(es[1..]) < Weights(es)
    ensures es[0].List? ==> Weights(es[0].items) < Weights(es)
  {
    WeightPositive(es[0]);
  }

  /** Every number in the element fits in an `i32`. */
  predicate Fits(e: El)
  {
    match e
    case Val(v) => I32_MIN <= v <= I32_MAX
    case List(es) => AllFit(es)
  }

  predicate AllFit(es: seq<El>)
  {
    es == [] || (Fits(es[0]) && AllFit(es[1..]))
  }

  // ---------------------------------------------------------------- parsing

  /** The characters the scanner treats specially; every other character belongs to a
      number. */
  predicate Special(c: char)
  {
    c == '[' || c == ']' || c == ','
  }

  /** The digits seen so far: a span `[start, end)` ending at or before `i`. */
  predicate SpanOk(num: Option<(nat, nat)>, i: nat)
  {
    num.Some? ==> num.value.0 < num.value.1 <= i
  }

  /** `sl[num.0..num.1].parse::<i32>()`. */
  function NumberAt(sl: string, num: Option<(nat, nat)>): (r: Result<int>)
    requires num.Some? && num.value.0 <= num.value.1 <= |sl|
    ensures r.Ok? ==> I32_MIN <= r.value <= I32_MAX
  {
    match ParseInt(sl[num.value.0..num.value.1], I32_MIN, I32_MAX)
    case None => Err("invalid digit found in string")
    case Some(v) => Ok(v)
  }

  /** The scanner of `recursive_from_str` resumed at index `i` of `sl`, with the elements
      `root` collected and the digit span `num` open. On success it gives the list and the
      index of the `]` that closes it. */
  function Scan(sl: string, i: nat, root: seq<El>, num: Option<(nat, nat)>): (r: Result<(El, nat)>)
    requires i <= |sl| && SpanOk(num, i)
    ensures r.Ok? ==> i <= r.value.1 < |sl| && sl[r.value.1] == ']' && r.value.0.List?
    decreases |sl|, |sl| - i
  {
    if i == |sl| then Err("Invalid: expected ]")
    else if sl[i] == '[' then
      var sub := Scan(sl[i + 1..], 0, [], None);
      if sub.Err? then Err(sub.msg)
      else Scan(sl, i + sub.value.1 + 2, root + [sub.value.0], num)
    else if sl[i] == ']' then
      if num.None? then Ok((List(root), i))
      else
        var v := NumberAt(sl, num);
        if v.Err? then Err(v.msg) else Ok((List(root + [Val(v.value)]), i))
    else if sl[i] == ',' then
      if !(i == 0 || sl[i - 1] == ']') && num.Some? then
        var v := NumberAt(sl, num);
        if v.Err? then Err(v.msg) else Scan(sl, i + 1, root + [Val(v.value)], None)
      else Scan(sl, i + 1, root, None)
    else
      Scan(sl, i + 1, root, Some((if num.Some? then num.value.0 else i, i + 1)))
  }

  /** `recursive_from_str`: the scanning loop, recursing on every `[`. */
  method RecursiveFromStr(sl: string) returns (r: Result<(El, nat)>)
    ensures r == Scan(sl, 0, [], None)
    decreases |sl|
  {
    var root: seq<El> := [];
    var num: Option<(nat, nat)> := None;
    var i: nat := 0;
    while i < |sl|
      invariant i <= |sl| && SpanOk(num, i)
      invariant Scan(sl, i, root, num) == Scan(sl, 0, [], None)
      decreases |sl| - i
    {
      var c := sl[i];
      if c == '[' {
        var sub := RecursiveFromStr(sl[i + 1..]);
        if sub.Err? {
          return Err(sub.msg);
        }
        root := root + [sub.value.0];
        i := i + sub.value.1 + 1;
      } else {
        var stop;
        stop, r, root, num := ScanChar(sl, i, root, num);
        if stop {
          return;
        }
      }
      i := i + 1;
    }
    return Err("Invalid: expected ]");
  }

  /** One character of `recursive_from_str` other than `[`: a `]` ends the list, a `,`
      closes the open number, anything else extends the digit span. */
  method ScanChar(sl: string, i: nat, root: seq<El>, num: Option<(nat, nat)>)
    returns (stop: bool, r: Result<(El, nat)>, root': seq<El>, num': Option<(nat, nat)>)
    requires i < |sl| && sl[i] != '[' && SpanOk(num, i)
    ensures stop ==> r == Scan(sl, i, root, num)
    ensures !stop ==> SpanOk(num', i + 1) && Scan(sl, i + 1, root', num') == Scan(sl, i, root, num)
  {
    stop, r, root', num' := false, Err(""), root, num;
    var c := sl[i];
    if c == ']' {
      if num.Some? {
        var v := NumberAt(sl, num);
        if v.Err? {
          return true, Err(v.msg), root', num';
        }
        root' := root + [Val(v.value)];
      }
      return true, Ok((List(root'), i)), root', num';
    } else if c == ',' {
      if !(i == 0 || sl[i - 1] == ']') {
        if num.Some? {
          var v := NumberAt(sl, num);
          if v.Err? {
            return true, Err(v.msg), root', num';
          }
          root' := root + [Val(v.value)];
        }
      }
      num' := None;
    } else {
      if num.Some? {
        num' := Some((num.value.0, i + 1));
      } else {
        num' := Some((i, i + 1));
      }
    }
  }

  /** `El::from_str`: the text after the opening bracket is scanned; the first character
      itself is not looked at. */
  function ParseEl(s: string): (r: Result<El>)
    requires |s| >= 1
    ensures r.Ok? ==> r.value.List?
  {
    var sc := Scan(s[1..], 0, [], None);
    if sc.Err? then Err(sc.msg) else Ok(sc.value.0)
  }

  /** Every line `Lists::from_str` would parse (the first two) is non-empty; an empty line
      makes `&s[1..]` panic. */
  predicate PairParsable(s: string)
  {
    var ls := Lines(s);
    (|ls| >= 1 ==> |ls[0]| >= 1) && (|ls| >= 2 ==> |ls[1]| >= 1)
  }

  /** `Lists::from_str`: the first line is the left packet, the second the right one. */
  function ParsePair(s: string): (r: Result<(El, El)>)
    requires PairParsable(s)
    ensures r.Ok? ==> |Lines(s)| >= 2
    ensures |Lines(s)| == 0 ==> r == Err("Can't find first list")
    ensures |Lines(s)| == 1 && ParseEl(Lines(s)[0]).Ok? ==> r == Err("Can't find second list")
  {
    var ls := Lines(s);
    if |ls| == 0 then Err("Can't find first list")
    else
      var left := ParseEl(ls[0]);
      if left.Err? then Err(left.msg)
      else if |ls| == 1 then Err("Can't find second list")
      else
        var right := ParseEl(ls[1]);
        if right.Err? then Err(right.msg) else Ok((left.value, right.value))
  }

  /** A run of non-special characters extends (or opens) the digit span. */
  lemma {:induction false} ScanRun(sl: string, i: nat, j: nat, root: seq<El>, num: Option<(nat, nat)>)
    requires i < j <= |sl| && SpanOk(num, i)
    requires forall k :: i <= k < j ==> !Special(sl[k])
    ensures Scan(sl, i, root, num)
         == Scan(sl, j, root, Some((if num.Some? then num.value.0 else i, j)))
    decreases j - i
  {
    var next := Some((if num.Some? then num.value.0 else i, i + 1));
    assert Scan(sl, i, root, num) == Scan(sl, i + 1, root, next);
    if i + 1 < j {
      ScanRun(sl, i + 1, j, root, next);
    }
  }

  /** Without any `]` left, scanning fails. */
  lemma {:induction false} ScanNoClose(sl: string, i: nat, root: seq<El>, num: Option<(nat, nat)>)
    requires i <= |sl| && SpanOk(num, i)
    requires forall k :: i <= k < |sl| ==> sl[k] != ']'
    ensures Scan(sl, i, root, num).Err?
    decreases |sl|, |sl| - i
  {
    if i < |sl| {
      if sl[i] == '[' {
      } else if sl[i] == ',' {
        if !(i == 0 || sl[i - 1] == ']') && num.Some? {
          if NumberAt(sl, num).Ok? {
            ScanNoClose(sl, i + 1, root + [Val(NumberAt(sl, num).value)], None);
          }
        } else {
          ScanNoClose(sl, i + 1, root, None);
        }
      } else {
        ScanNoClose(sl, i + 1, root, Some((if num.Some? then num.value.0 else i, i + 1)));
      }
    }
  }

  // ---------------------------------------------------------------- printing

  /** The packet text: `[` items separated by `,` `]`, numbers in decimal. */
  function Format(e: El): string
  {
    match e
    case Val(v) => IntToString(v)
    case List(es) => "[" + Body(es) + "]"
  }

  /** The items of a list separated by commas. */
  function Body(es: seq<El>): string
  {
    if es == [] then ""
    else if |es| == 1 then Format(es[0])
    else Format(es[0]) + "," + Body(es[1..])
  }

  /** `t` occurs in `s` at index `i`. */
  predicate At(s: string, i: nat, t: string)
  {
    i + |t| <= |s| && forall k :: 0 <= k < |t| ==> s[i + k] == t[k]
  }

  lemma AtConcat(s: string, i: nat, a: string, b: string)
    requires At(s, i, a + b)
    ensures At(s, i, a) && At(s, i + |a|, b)
  {
    forall k | 0 <= k < |a| ensures s[i + k] == a[k] {
      assert (a + b)[k] == a[k];
    }
    forall k | 0 <= k < |b| ensures s[i + |a| + k] == b[k] {
      assert (a + b)[|a| + k] == b[k];
      assert s[i + (|a| + k)] == (a + b)[|a| + k];
    }
  }

  lemma AtChar(s: string, i: nat, t: string, k: nat)
    requires At(s, i, t) && k < |t|
    ensures s[i + k] == t[k]
  {
  }

  lemma AtDrop(s: string, i: nat, t: string)
    requires i < |s| && At(s, i + 1, t)
    ensures At(s[i + 1..], 0, t)
  {
    forall k | 0 <= k < |t| ensures s[i + 1..][k] == t[k] {
      assert s[i + 1..][k] == s[i + 1 + k];
    }
  }

  /** Printed numbers hold no special character. */
  lemma IntTextPlain(v: int)
    ensures |IntToString(v)| >= 1
    ensures forall k :: 0 <= k < |IntToString(v)| ==> !Special(IntToString(v)[k])
  {
    var d := if v < 0 then NatToString(-v) else NatToString(v);
    assert forall k :: 0 <= k < |d| ==> IsDigit(d[k]);
    if v < 0 {
      assert IntToString(v) == "-" + d;
      assert forall k :: 1 <= k < |IntToString(v)| ==> IntToString(v)[k] == d[k - 1];
    }
  }

  /** The last character of a printed list is its closing bracket. */
  lemma FormatListEnds(es: seq<El>)
    ensures |Format(List(es))| >= 2
    ensures Format(List(es))[0] == '[' && Format(List(es))[|Format(List(es))| - 1] == ']'
  {
  }

  /** One printed number, then the separator or closing bracket at `p`. */
  lemma ScanValItem(sl: string, i: nat, root: seq<El>, v: int)
    requires I32_MIN <= v <= I32_MAX
    requires At(sl, i, IntToString(v)) && i + |IntToString(v)| < |sl|
    ensures var p := i + |IntToString(v)|;
      (sl[p] == ']' ==> Scan(sl, i, root, None) == Ok((List(root + [Val(v)]), p))) &&
      (sl[p] == ',' ==> Scan(sl, i, root, None) == Scan(sl, p + 1, root + [Val(v)], None))
  {
    IntTextPlain(v);
    ParseIntToString(v, I32_MIN, I32_MAX);
    ScanNumber(sl, i, root, IntToString(v), v);
  }

  lemma ScanNumber(sl: string, i: nat, root: seq<El>, t: string, v: int)
    requires At(sl, i, t) && i + |t| < |sl| && |t| >= 1
    requires forall k :: 0 <= k < |t| ==> !Special(t[k])
    requires ParseInt(t, I32_MIN, I32_MAX) == Some(v)
    ensures var p := i + |t|;
      (sl[p] == ']' ==> Scan(sl, i, root, None) == Ok((List(root + [Val(v)]), p))) &&
      (sl[p] == ',' ==> Scan(sl, i, root, None) == Scan(sl, p + 1, root + [Val(v)], None))
  {
    var p := i + |t|;
    ValSpan(sl, i, t, v);
    ScanRun(sl, i, p, root, None);
    ScanNumberEnd(sl, i, p, root, v);
  }

  /** What the scanner does at the character after a number. */
  lemma ScanNumberEnd(sl: string, i: nat, p: nat, root: seq<El>, v: int)
    requires i < p < |sl| && sl[p - 1] != ']' && NumberAt(sl, Some((i, p))) == Ok(v)
    ensures sl[p] == ']' ==> Scan(sl, p, root, Some((i, p))) == Ok((List(root + [Val(v)]), p))
    ensures sl[p] == ',' ==> Scan(sl, p, root, Some((i, p))) == Scan(sl, p + 1, root + [Val(v)], None)
  {
  }

  /** A number's text in place: plain characters that parse back to the number. */
  lemma ValSpan(sl: string, i: nat, t: string, v: int)
    requires At(sl, i, t) && i + |t| < |sl| && |t| >= 1
    requires forall k :: 0 <= k < |t| ==> !Special(t[k])
    requires ParseInt(t, I32_MIN, I32_MAX) == Some(v)
    ensures var p := i + |t|;
      (forall k :: i <= k < p ==> !Special(sl[k])) && sl[p - 1] != ']'
      && NumberAt(sl, Some((i, p))) == Ok(v)
  {
    var p := i + |t|;
    forall k | i <= k < p ensures !Special(sl[k]) {
      AtChar(sl, i, t, k - i);
    }
    AtSlice(sl, i, t);
    NumberOfSlice(sl, i, p, t, v);
  }

  lemma AtSlice(s: string, i: nat, t: string)
    requires At(s, i, t)
    ensures s[i..i + |t|] == t
  {
    forall k | 0 <= k < |t| ensures s[i..i + |t|][k] == t[k] {
      AtChar(s, i, t, k);
    }
  }

  lemma NumberOfSlice(sl: string, i: nat, p: nat, t: string, v: int)
    requires i <= p <= |sl| && sl[i..p] == t
    requires ParseInt(t, I32_MIN, I32_MAX) == Some(v)
    ensures NumberAt(sl, Some((i, p))) == Ok(v)
  {
  }

  /** One printed list, then the separator or closing bracket at `p`. */
  lemma ScanListItem(sl: string, i: nat, root: seq<El>, ys: seq<El>)
    requires i < |sl| && sl[i] == '['
    requires i + 1 + |Body(ys)| < |sl| - 1
    requires Scan(sl[i + 1..], 0, [], None) == Ok((List(ys), |Body(ys)|))
    ensures var p := i + |Body(ys)| + 2;
      (sl[p] == ']' ==> Scan(sl, i, root, None) == Ok((List(root + [List(ys)]), p))) &&
      (sl[p] == ',' ==> Scan(sl, i, root, None) == Scan(sl, p + 1, root + [List(ys)], None))
  {
    var p := i + |Body(ys)| + 2;
    assert Scan(sl, i, root, None) == Scan(sl, p, root + [List(ys)], None);
    assert sl[i + 1..][|Body(ys)|] == sl[p - 1];
  }

  /** Where the first item of a printed item list ends, and what follows it. */
  lemma ItemsSplit(sl: string, i: nat, es: seq<El>)
    requires es != []
    requires At(sl, i, Body(es)) && i + |Body(es)| < |sl| && sl[i + |Body(es)|] == ']'
    ensures var p := i + |Format(es[0])|;
      At(sl, i, Format(es[0])) && p < |sl| &&
      (|es| == 1 ==> sl[p] == ']' && p == i + |Body(es)|) &&
      (|es| > 1 ==> sl[p] == ',' && At(sl, p + 1, Body(es[1..]))
                    && p + 1 + |Body(es[1..])| == i + |Body(es)|)
  {
    var f := Format(es[0]);
    var p := i + |f|;
    if |es| == 1 {
      assert Body(es) == f;
    } else {
      var rest := Body(es[1..]);
      assert Body(es) == f + ("," + rest);
      AtConcat(sl, i, f, "," + rest);
      AtConcat(sl, p, ",", rest);
      AtChar(sl, p, ",", 0);
    }
  }

  /** Where the items of a printed inner list sit. */
  lemma ListItemSplit(sl: string, i: nat, ys: seq<El>)
    requires At(sl, i, Format(List(ys))) && i + |Format(List(ys))| < |sl|
    ensures i < |sl| && sl[i] == '['
    ensures At(sl[i + 1..], 0, Body(ys)) && |Body(ys)| < |sl[i + 1..]| && sl[i + 1..][|Body(ys)|] == ']'
  {
    var f := Format(List(ys));
    AtChar(sl, i, f, 0);
    assert f == "[" + (Body(ys) + "]");
    AtConcat(sl, i, "[", Body(ys) + "]");
    AtConcat(sl, i + 1, Body(ys), "]");
    AtChar(sl, i + 1 + |Body(ys)|, "]", 0);
    AtDrop(sl, i, Body(ys));
    assert sl[i + 1..][|Body(ys)|] == sl[i + 1 + |Body(ys)|];
  }

  /** One printed item, then the separator or closing bracket at `p`. */
  lemma ScanFirst(sl: string, i: nat, root: seq<El>, x: El, p: nat)
    requires Fits(x) && At(sl, i, Format(x)) && p == i + |Format(x)| < |sl|
    requires x.List? ==> (i < |sl| && sl[i] == '['
                         && Scan(sl[i + 1..], 0, [], None) == Ok((x, |Body(x.items)|)))
    ensures sl[p] == ']' ==> Scan(sl, i, root, None) == Ok((List(root + [x]), p))
    ensures sl[p] == ',' ==> Scan(sl, i, root, None) == Scan(sl, p + 1, root + [x], None)
  {
    match x {
      case Val(v) =>
        ScanValItem(sl, i, root, v);
      case List(ys) =>
        ScanListItem(sl, i, root, ys);
    }
  }

  /** The printed items of a list, followed by `]`, scan back to exactly those items. */
  lemma {:induction false} ScanItems(sl: string, i: nat, root: seq<El>, es: seq<El>)
    requires AllFit(es)
    requires At(sl, i, Body(es)) && i + |Body(es)| < |sl| && sl[i + |Body(es)|] == ']'
    ensures Scan(sl, i, root, None) == Ok((List(root + es), i + |Body(es)|))
    decreases Weights(es), 2
  {
    if es == [] {
      assert root + es == root;
    } else if |es| == 1 {
      ScanLastItem(sl, i, root, es);
    } else {
      ScanNextItem(sl, i, root, es);
    }
  }

  /** The last item before the `]`. */
  lemma {:induction false} ScanLastItem(sl: string, i: nat, root: seq<El>, es: seq<El>)
    requires AllFit(es) && |es| == 1
    requires At(sl, i, Body(es)) && i + |Body(es)| < |sl| && sl[i + |Body(es)|] == ']'
    ensures Scan(sl, i, root, None) == Ok((List(root + es), i + |Body(es)|))
    decreases Weights(es), 1
  {
    var x := es[0];
    var p := i + |Format(x)|;
    ItemsSplit(sl, i, es);
    WeightsSplit(es);
    if x.List? {
      ScanInner(sl, i, x.items);
    }
    ScanFirst(sl, i, root, x, p);
    assert root + [x] == root + es;
  }

  /** An item followed by a comma and more items. */
  lemma {:induction false} ScanNextItem(sl: string, i: nat, root: seq<El>, es: seq<El>)
    requires AllFit(es) && |es| > 1
    requires At(sl, i, Body(es)) && i + |Body(es)| < |sl| && sl[i + |Body(es)|] == ']'
    ensures Scan(sl, i, root, None) == Ok((List(root + es), i + |Body(es)|))
    decreases Weights(es), 1
  {
    var x := es[0];
    var p := i + |Format(x)|;
    ItemsSplit(sl, i, es);
    WeightsSplit(es);
    assert Scan(sl, i, root, None) == Scan(sl, p + 1, root + [x], None) by {
      if x.List? {
        ScanInner(sl, i, x.items);
      }
      ScanFirst(sl, i, root, x, p);
    }
    ScanItems(sl, p + 1, root + [x], es[1..]);
    assert root + [x] + es[1..] == root + es;
  }

  /** A printed inner list, starting at `i`, scans back to that list. */
  lemma {:induction false} ScanInner(sl: string, i: nat, ys: seq<El>)
    requires AllFit(ys)
    requires At(sl, i, Format(List(ys))) && i + |Format(List(ys))| < |sl|
    ensures i < |sl| && sl[i] == '['
    ensures Scan(sl[i + 1..], 0, [], None) == Ok((List(ys), |Body(ys)|))
    decreases Weights(ys), 3
  {
    ListItemSplit(sl, i, ys);
    ScanItems(sl[i + 1..], 0, [], ys);
    assert [] + ys == ys;
  }

  /** Printing a list packet and parsing it back gives the packet. */
  lemma ParseFormat(es: seq<El>)
    requires AllFit(es)
    ensures ParseEl(Format(List(es))) == Ok(List(es))
  {
    var s := Format(List(es));
    var sl := s[1..];
    assert sl == Body(es) + "]";
    assert sl[..|Body(es)|] == Body(es);
    ScanItems(sl, 0, [], es);
    assert [] + es == es;
  }

  // ---------------------------------------------------------------- comparing

  /** The opposite verdict: what comparing the pair the other way round gives. */
  function Flip(v: State): State
  {
    match v
    case Good => Bad
    case Bad => Good
    case Continue => Continue
  }

  /** The verdict on two lists whose zipped items all continue: the shorter is first. */
  function LengthVerdict(m: nat, n: nat): State
  {
    if m < n then Good else if m == n then Continue else Bad
  }

  /** `recursive_compare`: numbers by value, lists item by item and then by length, and a
      number against a list as the one-number list. */
  function Compare(l: El, r: El): State
    decreases Weight(l) + Weight(r), 0
  {
    match (l, r)
    case (List(a), List(b)) => CompareLists(a, b)
    case (Val(x), Val(y)) => if x < y then Good else if x == y then Continue else Bad
    case (List(a), Val(y)) =>
      assert Weights([Val(y)]) == 1 by { assert [Val(y)][1..] == []; }
      CompareLists(a, [Val(y)])
    case (Val(x), List(b)) =>
      assert Weights([Val(x)]) == 1 by { assert [Val(x)][1..] == []; }
      CompareLists([Val(x)], b)
  }

  /** The list case of `recursive_compare`: the first zipped pair that does not continue
      decides, otherwise the lengths do. */
  function CompareLists(a: seq<El>, b: seq<El>): State
    decreases Weights(a) + Weights(b), 1
  {
    if a == [] || b == [] then LengthVerdict(|a|, |b|)
    else
      WeightsSplit(a);
      WeightsSplit(b);
      var v := Compare(a[0], b[0]);
      if v == Continue then CompareLists(a[1..], b[1..]) else v
  }

  /** Comparing the other way round flips the verdict. */
  lemma {:induction false} CompareFlip(l: El, r: El)
    ensures Compare(r, l) == Flip(Compare(l, r))
    decreases Weight(l) + Weight(r), 0
  {
    match (l, r)
    case (List(a), List(b)) => CompareListsFlip(a, b);
    case (Val(x), Val(y)) =>
    case (List(a), Val(y)) =>
      assert Weights([Val(y)]) == 1 by { assert [Val(y)][1..] == []; }
      CompareListsFlip(a, [Val(y)]);
    case (Val(x), List(b)) =>
      assert Weights([Val(x)]) == 1 by { assert [Val(x)][1..] == []; }
      CompareListsFlip([Val(x)], b);
  }

  lemma {:induction false} CompareListsFlip(a: seq<El>, b: seq<El>)
    ensures CompareLists(b, a) == Flip(CompareLists(a, b))
    decreases Weights(a) + Weights(b), 1
  {
    if a != [] && b != [] {
      WeightsSplit(a);
      WeightsSplit(b);
      CompareFlip(a[0], b[0]);
      if Compare(a[0], b[0]) == Continue {
        CompareListsFlip(a[1..], b[1..]);
      }
    }
  }

  /** A packet compared with itself is undecided. */
  lemma {:induction false} CompareSelf(e: El)
    ensures Compare(e, e) == Continue
    decreases Weight(e), 0
  {
    if e.List? {
      CompareListsSelf(e.items);
    }
  }

  lemma {:induction false} CompareListsSelf(a: seq<El>)
    ensures CompareLists(a, a) == Continue
    decreases Weights(a), 1
  {
    if a != [] {
      WeightsSplit(a);
      CompareSelf(a[0]);
      CompareListsSelf(a[1..]);
    }
  }

  /** A number compares exactly as the list holding only that number, on either side. */
  lemma {:induction false} WrapValue(x: int, e: El)
    ensures Compare(Val(x), e) == Compare(List([Val(x)]), e)
    ensures Compare(e, Val(x)) == Compare(e, List([Val(x)]))
  {
    if e.Val? {
      assert [Val(x)][1..] == [] && [e][1..] == [];
      assert CompareLists([Val(x)], [e]) == Compare(Val(x), e);
      assert CompareLists([e], [Val(x)]) == Compare(e, Val(x));
    }
  }

  /** Items that continue can be skipped: the verdict is that of the remaining items. */
  lemma {:induction false} CompareListsSkip(a: seq<El>, b: seq<El>, k: nat)
    requires k <= |a| && k <= |b|
    requires forall j :: 0 <= j < k ==> Compare(a[j], b[j]) == Continue
    ensures CompareLists(a, b) == CompareLists(a[k..], b[k..])
  {
    if k > 0 {
      assert Compare(a[0], b[0]) == Continue;
      assert a[1..][k - 1..] == a[k..] && b[1..][k - 1..] == b[k..];
      forall j | 0 <= j < k - 1 ensures Compare(a[1..][j], b[1..][j]) == Continue {
        assert a[1..][j] == a[j + 1] && b[1..][j] == b[j + 1];
      }
      CompareListsSkip(a[1..], b[1..], k - 1);
    }
  }

  /** The first zipped pair that does not continue decides the verdict on two lists. */
  lemma CompareListsFirst(a: seq<El>, b: seq<El>, k: nat)
    requires k < |a| && k < |b| && Compare(a[k], b[k]) != Continue
    requires forall j :: 0 <= j < k ==> Compare(a[j], b[j]) == Continue
    ensures CompareLists(a, b) == Compare(a[k], b[k])
  {
    CompareListsSkip(a, b, k);
    assert a[k..][0] == a[k] && b[k..][0] == b[k];
  }

  /** When every zipped pair continues, the shorter list comes first. */
  lemma CompareListsLengths(a: seq<El>, b: seq<El>)
    requires forall j :: 0 <= j < |a| && j < |b| ==> Compare(a[j], b[j]) == Continue
    ensures CompareLists(a, b) == LengthVerdict(|a|, |b|)
  {
    var k := if |a| < |b| then |a| else |b|;
    CompareListsSkip(a, b, k);
    assert a[k..] == [] || b[k..] == [];
  }

  /** A proper prefix of a list is in order before it. */
  lemma PrefixInOrder(a: seq<El>, b: seq<El>)
    requires |a| < |b| && b[..|a|] == a
    ensures CompareLists(a, b) == Good
  {
    forall j | 0 <= j < |a| ensures Compare(a[j], b[j]) == Continue {
      assert b[j] == b[..|a|][j];
      CompareSelf(a[j]);
    }
    CompareListsLengths(a, b);
  }

  // ---------------------------------------------------------------- part 1

  /** The 1-based indices of the pairs judged in order, summed. */
  function InOrderIndexSum(ps: seq<(El, El)>): nat
  {
    if ps == [] then 0
    else
      var last := ps[|ps| - 1];
      InOrderIndexSum(ps[..|ps| - 1]) + (if Compare(last.0, last.1) == Good then |ps| else 0)
  }

  /** The sum is at most 1 + 2 + ... + n, reached exactly when every pair is in order. */
  lemma {:induction false} InOrderIndexSumBound(ps: seq<(El, El)>)
    ensures 2 * InOrderIndexSum(ps) <= |ps| * (|ps| + 1)
    ensures 2 * InOrderIndexSum(ps) == |ps| * (|ps| + 1)
        <==> forall k :: 0 <= k < |ps| ==> Compare(ps[k].0, ps[k].1) == Good
  {
    if ps != [] {
      var n := |ps|;
      var init := ps[..n - 1];
      InOrderIndexSumBound(init);
      var last := ps[n - 1];
      var add := if Compare(last.0, last.1) == Good then n else 0;
      assert InOrderIndexSum(ps) == InOrderIndexSum(init) + add;
      BoundStep(InOrderIndexSum(init), n, add);
      assert forall k :: 0 <= k < |init| ==> init[k] == ps[k];
    }
  }

  lemma BoundStep(s0: int, n: int, add: int)
    requires n >= 1 && 2 * s0 <= (n - 1) * n && (add == n || add == 0)
    ensures 2 * (s0 + add) <= n * (n + 1)
    ensures 2 * (s0 + add) == n * (n + 1) <==> 2 * s0 == (n - 1) * n && add == n
  {
    assert n * (n + 1) == (n - 1) * n + 2 * n;
  }

  /** The eight pairs of the puzzle's example, as packets. */
  function SamplePairs(): seq<(El, El)>
  {
    [ (List([Val(1), Val(1), Val(3), Val(1), Val(1)]), List([Val(1), Val(1), Val(5), Val(1), Val(1)])),
      (List([List([Val(1)]), List([Val(2), Val(3), Val(4)])]), List([List([Val(1)]), Val(4)])),
      (List([Val(9)]), List([List([Val(8), Val(7), Val(6)])])),
      (List([List([Val(4), Val(4)]), Val(4), Val(4)]), List([List([Val(4), Val(4)]), Val(4), Val(4), Val(4)])),
      (List([Val(7), Val(7), Val(7), Val(7)]), List([Val(7), Val(7), Val(7)])),
      (List([]), List([Val(3)])),
      (List([List([List([])])]), List([List([])])),
      (List([Val(1), List([Val(2), List([Val(3), List([Val(4), List([Val(5), Val(6), Val(7)])])])]), Val(8), Val(9)]),
       List([Val(1), List([Val(2), List([Val(3), List([Val(4), List([Val(5), Val(6), Val(0)])])])]), Val(8), Val(9)]))
    ]
  }

  lemma SampleVerdict1()
    ensures Compare(SamplePairs()[0].0, SamplePairs()[0].1) == Good
  {
  }

  lemma SampleVerdict2()
    ensures Compare(SamplePairs()[1].0, SamplePairs()[1].1) == Good
  {
  }

  lemma SampleVerdict3()
    ensures Compare(SamplePairs()[2].0, SamplePairs()[2].1) == Bad
  {
  }

  lemma SampleVerdict4()
    ensures Compare(SamplePairs()[3].0, SamplePairs()[3].1) == Good
  {
  }

  lemma SampleVerdict5()
    ensures Compare(SamplePairs()[4].0, SamplePairs()[4].1) == Bad
  {
  }

  lemma SampleVerdict6()
    ensures Compare(SamplePairs()[5].0, SamplePairs()[5].1) == Good
  {
  }

  lemma SampleVerdict7()
    ensures Compare(SamplePairs()[6].0, SamplePairs()[6].1) == Bad
  {
  }

  lemma SampleVerdict8()
    ensures Compare(SamplePairs()[7].0, SamplePairs()[7].1) == Bad
  {
    var a4, b4 := [Val(5), Val(6), Val(7)], [Val(5), Val(6), Val(0)];
    assert CompareLists(a4, b4) == Bad by {
      CompareListsFirst(a4, b4, 2);
    }
    NestedBad(4, a4, b4);
    var a3, b3 := [Val(4), List(a4)], [Val(4), List(b4)];
    NestedBad(3, a3, b3);
    var a2, b2 := [Val(3), List(a3)], [Val(3), List(b3)];
    NestedBad(2, a2, b2);
    var a1, b1 := [Val(2), List(a2)], [Val(2), List(b2)];
    var l, r := [Val(1), List(a1), Val(8), Val(9)], [Val(1), List(b1), Val(8), Val(9)];
    assert SamplePairs()[7] == (List(l), List(r));
    CompareListsFirst(l, r, 1);
  }

  /** A number, then a nested list: equal numbers pass the verdict of the nested lists on. */
  lemma NestedBad(x: int, a: seq<El>, b: seq<El>)
    requires CompareLists(a, b) == Bad
    ensures CompareLists([Val(x), List(a)], [Val(x), List(b)]) == Bad
  {
    CompareListsFirst([Val(x), List(a)], [Val(x), List(b)], 1);
  }

  lemma IndexSumStep(ps: seq<(El, El)>, k: nat)
    requires k < |ps|
    ensures InOrderIndexSum(ps[..k + 1])
         == InOrderIndexSum(ps[..k]) + (if Compare(ps[k].0, ps[k].1) == Good then k + 1 else 0)
  {
    assert ps[..k + 1][..k] == ps[..k];
  }

  /** Eight pairs of which the 1st, 2nd, 4th and 6th are in order give 13. */
  lemma IndexSumOfVerdicts(ps: seq<(El, El)>)
    requires |ps| == 8
    requires Compare(ps[0].0, ps[0].1) == Good && Compare(ps[1].0, ps[1].1) == Good
    requires Compare(ps[2].0, ps[2].1) == Bad && Compare(ps[3].0, ps[3].1) == Good
    requires Compare(ps[4].0, ps[4].1) == Bad && Compare(ps[5].0, ps[5].1) == Good
    requires Compare(ps[6].0, ps[6].1) == Bad && Compare(ps[7].0, ps[7].1) == Bad
    ensures InOrderIndexSum(ps) == 13
  {
    assert ps[..0] == [];
    IndexSumStep(ps, 0);
    IndexSumStep(ps, 1);
    IndexSumStep(ps, 2);
    IndexSumStep(ps, 3);
    IndexSumStep(ps, 4);
    IndexSumStep(ps, 5);
    IndexSumStep(ps, 6);
    IndexSumStep(ps, 7);
    assert ps[..8] == ps;
  }

  /** Part 1 on the example's pairs gives 13. */
  lemma SamplePart1()
    ensures InOrderIndexSum(SamplePairs()) == 13
  {
    SampleVerdict1();
    SampleVerdict2();
    SampleVerdict3();
    SampleVerdict4();
    SampleVerdict5();
    SampleVerdict6();
    SampleVerdict7();
    SampleVerdict8();
    IndexSumOfVerdicts(SamplePairs());
  }

  /** The blank-line separated pairs of the puzzle input. */
  function Chunks(input: string): seq<string>
  {
    SplitOn(input, "\n\n")
  }

  /** Every chunk parses as a pair; otherwise `unwrap` panics. */
  predicate Part1Parsable(input: string)
  {
    forall k :: 0 <= k < |Chunks(input)| ==>
      PairParsable(Chunks(input)[k]) && ParsePair(Chunks(input)[k]).Ok?
  }

  /** The parsed pairs, in input order. */
  function Pairs(input: string): (ps: seq<(El, El)>)
    requires Part1Parsable(input)
    ensures |ps| == |Chunks(input)|
    ensures forall k :: 0 <= k < |ps| ==> Ok(ps[k]) == ParsePair(Chunks(input)[k])
  {
    var cs := Chunks(input);
    seq(|cs|, k requires 0 <= k < |cs| => ParsePair(cs[k]).value)
  }

  /** `part_1`: the sum of the 1-based indices of the pairs in the right order. */
  function Part1(input: string): (r: nat)
    requires Part1Parsable(input)
    ensures 2 * r <= |Chunks(input)| * (|Chunks(input)| + 1)
  {
    InOrderIndexSumBound(Pairs(input));
    InOrderIndexSum(Pairs(input))
  }

  // ---------------------------------------------------------------- part 2

  /** The divider packet `[[d]]`. */
  function Divider(d: int): El
  {
    List([List([Val(d)])])
  }

  /** `lines().filter(|s| !s.is_empty())`. */
  function NonEmptyLines(ls: seq<string>): (r: seq<string>)
    ensures forall k :: 0 <= k < |r| ==> |r[k]| >= 1
    ensures forall k :: 0 <= k < |r| ==> r[k] in ls
    ensures forall k :: 0 <= k < |ls| && |ls[k]| >= 1 ==> ls[k] in r
  {
    if ls == [] then []
    else
      var rest := NonEmptyLines(ls[1..]);
      assert forall k :: 1 <= k < |ls| ==> ls[k] == ls[1..][k - 1];
      if ls[0] == "" then rest else [ls[0]] + rest
  }

  /** The parse of each non-empty line. */
  function ParsedLines(input: string): seq<Result<El>>
  {
    var ls := NonEmptyLines(Lines(input));
    seq(|ls|, k requires 0 <= k < |ls| => ParseEl(ls[k]))
  }

  /** Every packet line parses; otherwise `expect` panics. */
  predicate Part2Parsable(input: string)
  {
    Collect(ParsedLines(input)).Ok?
  }

  /** The packets of part 2: every packet line, then `[[2]]` and `[[6]]`. */
  function Packets(input: string): (ps: seq<El>)
    requires Part2Parsable(input)
    ensures |ps| >= 2 && ps[|ps| - 2] == Divider(2) && ps[|ps| - 1] == Divider(6)
  {
    Collect(ParsedLines(input)).value + [Divider(2), Divider(6)]
  }

  /** No two packets at different positions compare as undecided; `sort_by` reaches
      `unreachable!` on such a pair. */
  predicate NoTies(s: seq<El>)
  {
    forall i, j :: 0 <= i < |s| && 0 <= j < |s| && i != j ==> Compare(s[i], s[j]) != Continue
  }

  /** Each packet is judged in order before the next one. */
  predicate InOrder(s: seq<El>)
  {
    forall k :: 0 <= k < |s| - 1 ==> Compare(s[k], s[k + 1]) == Good
  }

  /** `x` placed before the first packet it is in order before. */
  function InsertBy(x: El, s: seq<El>): (r: seq<El>)
    ensures |r| == |s| + 1
    ensures r[0] == x || (s != [] && r[0] == s[0])
  {
    if s == [] then [x]
    else if Compare(x, s[0]) == Good then [x] + s
    else [s[0]] + InsertBy(x, s[1..])
  }

  /** `sort_by` with `recursive_compare` as the ordering. */
  function SortBy(s: seq<El>): (r: seq<El>)
    ensures |r| == |s|
  {
    if s == [] then [] else InsertBy(s[|s| - 1], SortBy(s[..|s| - 1]))
  }

  lemma {:induction false} InsertByPerm(x: El, s: seq<El>)
    ensures multiset(InsertBy(x, s)) == multiset(s) + multiset{x}
  {
    if s != [] && Compare(x, s[0]) != Good {
      InsertByPerm(x, s[1..]);
      ConsMultiset(s, InsertBy(x, s), InsertBy(x, s[1..]));
    }
  }

  lemma ConsMultiset(s: seq<El>, r: seq<El>, t: seq<El>)
    requires s != [] && r == [s[0]] + t
    ensures multiset(r) == multiset{s[0]} + multiset(t)
    ensures multiset(s) == multiset{s[0]} + multiset(s[1..])
  {
    assert s == [s[0]] + s[1..];
  }

  /** Sorting only reorders the packets. */
  lemma {:induction false} SortByPerm(s: seq<El>)
    ensures multiset(SortBy(s)) == multiset(s)
  {
    if s != [] {
      var init := s[..|s| - 1];
      SortByPerm(init);
      InsertByPerm(s[|s| - 1], SortBy(init));
      assert s == init + [s[|s| - 1]];
    }
  }

  /** Inserting a packet that ties with none of a sorted sequence keeps it sorted. */
  lemma {:induction false} InsertByInOrder(x: El, s: seq<El>)
    requires InOrder(s)
    requires forall k :: 0 <= k < |s| ==> Compare(x, s[k]) != Continue
    ensures InOrder(InsertBy(x, s))
  {
    if s != [] && Compare(x, s[0]) != Good {
      var t := InsertBy(x, s[1..]);
      assert forall k :: 0 <= k < |s| - 1 ==> s[1..][k] == s[k + 1];
      InsertByInOrder(x, s[1..]);
      CompareFlip(x, s[0]);
      var r := [s[0]] + t;
      assert Compare(s[0], t[0]) == Good by {
        if t[0] != x {
          assert t[0] == s[1];
        }
      }
      assert forall k :: 1 <= k < |r| - 1 ==> r[k] == t[k - 1] && r[k + 1] == t[k];
    }
  }

  /** Sorting packets without ties puts each one in order before the next. */
  lemma {:induction false} SortByInOrder(s: seq<El>)
    requires NoTies(s)
    ensures InOrder(SortBy(s))
  {
    if s != [] {
      var init := s[..|s| - 1];
      var x := s[|s| - 1];
      assert NoTies(init) by {
        assert forall k :: 0 <= k < |init| ==> init[k] == s[k];
      }
      SortByInOrder(init);
      SortByPerm(init);
      var t := SortBy(init);
      forall k | 0 <= k < |t| ensures Compare(x, t[k]) != Continue {
        assert t[k] in multiset(init);
        var j :| 0 <= j < |init| && init[j] == t[k];
        assert s[j] == t[k];
      }
      InsertByInOrder(x, t);
    }
  }

  /** The 1-based position of the last `[[d]]` in `s`, 0 when there is none. */
  function LastDivider(s: seq<El>, d: int): nat
  {
    if s == [] then 0
    else if s[|s| - 1] == Divider(d) then |s|
    else LastDivider(s[..|s| - 1], d)
  }

  /** The position names a `[[d]]` with none after it, and 0 means there is none. */
  lemma {:induction false} LastDividerMeans(s: seq<El>, d: int)
    ensures LastDivider(s, d) <= |s|
    ensures LastDivider(s, d) > 0 ==> s[LastDivider(s, d) - 1] == Divider(d)
    ensures forall j :: LastDivider(s, d) <= j < |s| ==> s[j] != Divider(d)
    ensures LastDivider(s, d) == 0 <==> Divider(d) !in s
  {
    if s != [] && s[|s| - 1] != Divider(d) {
      var init := s[..|s| - 1];
      LastDividerMeans(init, d);
      assert s == init + [s[|s| - 1]];
    }
  }

  /** The `for` loop of `part_2`: positions of the last `[[2]]` and the last `[[6]]`. */
  method DividerPositions(s: seq<El>) returns (a: nat, b: nat)
    ensures a == LastDivider(s, 2) && b == LastDivider(s, 6)
  {
    a, b := 0, 0;
    for i := 0 to |s|
      invariant a == LastDivider(s[..i], 2) && b == LastDivider(s[..i], 6)
    {
      assert s[..i + 1][..i] == s[..i] && s[..i + 1][i] == s[i];
      var v := s[i];
      if v.List? && |v.items| == 1 && v.items[0].List? && |v.items[0].items| == 1
         && v.items[0].items[0].Val?
      {
        var x := v.items[0].items[0].v;
        assert v.items[0].items == [Val(x)] && v.items == [List([Val(x)])];
        assert v == Divider(x);
        if x == 2 {
          a := i + 1;
        }
        if x == 6 {
          b := i + 1;
        }
      }
    }
    assert s[..|s|] == s;
  }

  /** The product of the dividers' 1-based positions once the packets are sorted. */
  function DividerKey(ps: seq<El>): nat
  {
    LastDivider(SortBy(ps), 2) * LastDivider(SortBy(ps), 6)
  }

  /** `part_2`: sort the packets with the dividers added and multiply the dividers'
      positions. */
  method Part2(input: string) returns (r: nat)
    requires Part2Parsable(input)
    requires NoTies(Packets(input))
    ensures r == DividerKey(Packets(input))
  {
    var packets := Packets(input);
    r := SortedDividerKey(packets);
  }

  /** The sort and the scan of `part_2` on the packets. */
  method SortedDividerKey(packets: seq<El>) returns (r: nat)
    ensures r == DividerKey(packets)
  {
    var sorted := SortBy(packets);
    var a, b := DividerPositions(sorted);
    r := a * b;
  }

  /** A divider among the packets is found after sorting. */
  lemma DividerFound(ps: seq<El>, d: int)
    requires Divider(d) in ps
    ensures var p := LastDivider(SortBy(ps), d); 0 < p <= |ps| && SortBy(ps)[p - 1] == Divider(d)
  {
    SortByPerm(ps);
    assert Divider(d) in multiset(SortBy(ps));
    LastDividerMeans(SortBy(ps), d);
  }

  /** With both dividers among packets that do not tie, the sorted packets are in order
      and both dividers are found, at different positions. */
  lemma DividersFound(ps: seq<El>)
    requires Divider(2) in ps && Divider(6) in ps
    requires NoTies(ps)
    ensures var sorted := SortBy(ps);
      var a := LastDivider(sorted, 2);
      var b := LastDivider(sorted, 6);
      InOrder(sorted) && a > 0 && b > 0 && a != b && DividerKey(ps) > 0
  {
    SortByInOrder(ps);
    DividerFound(ps, 2);
    DividerFound(ps, 6);
    var a := LastDivider(SortBy(ps), 2);
    var b := LastDivider(SortBy(ps), 6);
    assert Divider(2) != Divider(6) by {
      assert Divider(2).items[0].items[0].v != Divider(6).items[0].items[0].v;
    }
    ProductPositive(a, b);
  }

  lemma ProductPositive(a: nat, b: nat)
    requires a >= 1 && b >= 1
    ensures a * b >= 1
  {
    assert a * b >= a * 1;
  }

  /** The answer of `part_2` is positive. */
  lemma Part2Positive(input: string)
    requires Part2Parsable(input)
    requires NoTies(Packets(input))
    ensures DividerKey(Packets(input)) > 0
  {
    var ps := Packets(input);
    assert ps[|ps| - 2] in ps && ps[|ps| - 1] in ps;
    DividersFound(ps);
  }
}
