/** The string operations of Rust's `str` that the puzzle parsers use: `split` with a
    char or string pattern, `split_once`, `lines`, `trim`, `starts_with`, and `parse`
    for unsigned and signed integers of a given width. */
module Text {
  import opened Wrappers

  // ---------------------------------------------------------------- splitting

  /** `s.split(sep)`: the pieces between non-overlapping occurrences of `sep`, found
      left to right; a string without `sep` is one piece. */
  function SplitOn(s: string, sep: string): (r: seq<string>)
    requires |sep| > 0
    ensures |r| >= 1
    decreases |s|
  {
    if |s| < |sep| then [s]
    else if s[..|sep|] == sep then [""] + SplitOn(s[|sep|..], sep)
    else
      var rest := SplitOn(s[1..], sep);
      [[s[0]] + rest[0]] + rest[1..]
  }

  /** The pieces glued back together with `sep` between neighbours. */
  function Join(ps: seq<string>, sep: string): string
  {
    if |ps| == 0 then ""
    else if |ps| == 1 then ps[0]
    else ps[0] + sep + Join(ps[1..], sep)
  }

  /** Joining one more piece appends the separator and the piece. */
  lemma {:induction false} JoinSnoc(ps: seq<string>, p: string, sep: string)
    requires |ps| >= 1
    ensures Join(ps + [p], sep) == Join(ps, sep) + sep + p
    decreases |ps|
  {
    if |ps| > 1 {
      assert (ps + [p])[1..] == ps[1..] + [p];
      JoinSnoc(ps[1..], p, sep);
    }
  }

  /** Splitting loses nothing: joining the pieces gives the string back. */
  lemma {:induction false} JoinSplitOn(s: string, sep: string)
    requires |sep| > 0
    ensures Join(SplitOn(s, sep), sep) == s
    decreases |s|
  {
    if |s| < |sep| {
    } else if s[..|sep|] == sep {
      JoinSplitOn(s[|sep|..], sep);
      JoinSplitAtSep(s, sep);
    } else {
      JoinSplitOn(s[1..], sep);
      JoinSplitAtChar(s, sep);
    }
  }

  lemma JoinSplitAtSep(s: string, sep: string)
    requires 0 < |sep| <= |s| && s[..|sep|] == sep
    requires Join(SplitOn(s[|sep|..], sep), sep) == s[|sep|..]
    ensures Join(SplitOn(s, sep), sep) == s
  {
    var t := s[|sep|..];
    var ps := SplitOn(t, sep);
    SplitOnAtSep(s, sep);
    JoinEmptyFirst(ps, sep);
    PrefixSuffix(s, sep, t);
    JoinAfterSep(SplitOn(s, sep), ps, sep, t, s);
  }

  lemma PrefixSuffix(s: string, p: string, t: string)
    requires |p| <= |s| && s[..|p|] == p && t == s[|p|..]
    ensures s == p + t
  {
  }

  lemma JoinAfterSep(qs: seq<string>, ps: seq<string>, sep: string, t: string, s: string)
    requires qs == [""] + ps && Join(qs, sep) == sep + Join(ps, sep)
    requires Join(ps, sep) == t && s == sep + t
    ensures Join(qs, sep) == s
  {
  }

  lemma SplitOnAtSep(s: string, sep: string)
    requires 0 < |sep| <= |s| && s[..|sep|] == sep
    ensures SplitOn(s, sep) == [""] + SplitOn(s[|sep|..], sep)
  {
  }

  /** An empty first piece puts a separator at the front. */
  lemma JoinEmptyFirst(ps: seq<string>, sep: string)
    requires |ps| >= 1
    ensures Join([""] + ps, sep) == sep + Join(ps, sep)
  {
    var qs := [""] + ps;
    assert qs[1..] == ps;
    assert qs[0] + sep == sep;
  }

  lemma JoinSplitAtChar(s: string, sep: string)
    requires 0 < |sep| <= |s| && s[..|sep|] != sep
    requires Join(SplitOn(s[1..], sep), sep) == s[1..]
    ensures Join(SplitOn(s, sep), sep) == s
  {
    JoinCons(s[0], SplitOn(s[1..], sep), sep);
    assert s == [s[0]] + s[1..];
  }

  /** Prepending a char to the first piece prepends it to the joined string. */
  lemma JoinCons(c: char, ps: seq<string>, sep: string)
    requires |ps| >= 1
    ensures Join([[c] + ps[0]] + ps[1..], sep) == [c] + Join(ps, sep)
  {
    var qs := [[c] + ps[0]] + ps[1..];
    if |ps| > 1 {
      assert qs[1..] == ps[1..];
      var j := Join(ps[1..], sep);
      assert [c] + ps[0] + sep + j == [c] + (ps[0] + sep + j);
    }
  }

  /** A string without the separator char stays whole. */
  lemma {:induction false} SplitOnAbsent(s: string, c: char)
    requires c !in s
    ensures SplitOn(s, [c]) == [s]
    decreases |s|
  {
    if |s| >= 1 {
      assert s[..1] == [s[0]];
      SplitOnAbsent(s[1..], c);
      assert [s[0]] + s[1..] == s;
    }
  }

  /** Splitting `a + [c] + b` at the char `c`, when `a` has no `c`, yields `a` and then
      the pieces of `b`. */
  lemma {:induction false} SplitOnCons(a: string, c: char, b: string)
    requires c !in a
    ensures SplitOn(a + [c] + b, [c]) == [a] + SplitOn(b, [c])
    decreases |a|
  {
    var s := a + [c] + b;
    if |a| == 0 {
      assert s == [c] + b;
      assert s[..1] == [c];
      assert s[1..] == b;
    } else {
      assert s[..1] == [a[0]];
      assert s[1..] == a[1..] + [c] + b;
      SplitOnCons(a[1..], c, b);
      assert [a[0]] + a[1..] == a;
    }
  }

  /** Joining pieces that do not contain `c` with `c` and splitting at `c` again gives
      the same pieces. */
  lemma {:induction false} SplitOnJoin(ps: seq<string>, c: char)
    requires |ps| >= 1
    requires forall k :: 0 <= k < |ps| ==> c !in ps[k]
    ensures SplitOn(Join(ps, [c]), [c]) == ps
    decreases |ps|
  {
    if |ps| == 1 {
      SplitOnAbsent(ps[0], c);
    } else {
      SplitOnJoin(ps[1..], c);
      SplitOnCons(ps[0], c, Join(ps[1..], [c]));
      assert ps == [ps[0]] + ps[1..];
    }
  }

  /** `sep` occurs in `s` starting at index `i`. */
  predicate OccursAt(s: string, sep: string, i: int)
  {
    0 <= i && i + |sep| <= |s| && s[i..i + |sep|] == sep
  }

  /** No occurrence of `sep` starts inside `a`, even one running on into a following
      `sep`. */
  predicate SepFree(a: string, sep: string)
  {
    forall i :: 0 <= i < |a| ==> !OccursAt(a + sep, sep, i)
  }

  /** A string in which `sep` never starts stays whole. */
  lemma {:induction false} SplitOnNone(s: string, sep: string)
    requires |sep| > 0 && SepFree(s, sep)
    ensures SplitOn(s, sep) == [s]
    decreases |s|
  {
    if |s| >= |sep| {
      assert (s + sep)[..|sep|] == s[..|sep|];
      assert !OccursAt(s + sep, sep, 0);
      assert SepFree(s[1..], sep) by {
        forall i | 0 <= i < |s| - 1 ensures !OccursAt(s[1..] + sep, sep, i) {
          assert !OccursAt(s + sep, sep, i + 1);
          OccursShift(s + sep, sep, i + 1);
          assert (s + sep)[1..] == s[1..] + sep;
        }
      }
      SplitOnNone(s[1..], sep);
      assert [s[0]] + s[1..] == s;
    }
  }

  /** Splitting `a + sep + b` at `sep`, when no occurrence starts inside `a`, yields `a`
      and then the pieces of `b`. */
  lemma {:induction false} SplitOnSep(a: string, sep: string, b: string)
    requires |sep| > 0 && SepFree(a, sep)
    ensures SplitOn(a + sep + b, sep) == [a] + SplitOn(b, sep)
    decreases |a|
  {
    var s := a + sep + b;
    if |a| == 0 {
      assert s == sep + b;
      assert s[..|sep|] == sep;
      assert s[|sep|..] == b;
    } else {
      assert s[..|sep|] == (a + sep)[..|sep|];
      assert !OccursAt(a + sep, sep, 0);
      assert s[1..] == a[1..] + sep + b;
      assert SepFree(a[1..], sep) by {
        forall i | 0 <= i < |a| - 1 ensures !OccursAt(a[1..] + sep, sep, i) {
          assert !OccursAt(a + sep, sep, i + 1);
          OccursShift(a + sep, sep, i + 1);
          assert (a + sep)[1..] == a[1..] + sep;
        }
      }
      SplitOnSep(a[1..], sep, b);
      assert [a[0]] + a[1..] == a;
    }
  }

  /** Joining pieces in which `sep` never starts with `sep` and splitting at `sep`
      again gives the same pieces. */
  lemma {:induction false} SplitOnJoinSep(ps: seq<string>, sep: string)
    requires |sep| > 0 && |ps| >= 1
    requires forall k :: 0 <= k < |ps| ==> SepFree(ps[k], sep)
    ensures SplitOn(Join(ps, sep), sep) == ps
    decreases |ps|
  {
    if |ps| == 1 {
      SplitOnNone(ps[0], sep);
    } else {
      SplitOnJoinSep(ps[1..], sep);
      SplitOnSep(ps[0], sep, Join(ps[1..], sep));
      assert ps == [ps[0]] + ps[1..];
    }
  }

  lemma OccursShift(s: string, sep: string, i: int)
    requires |s| > 0 && i >= 1
    ensures OccursAt(s, sep, i) <==> OccursAt(s[1..], sep, i - 1)
  {
    if i + |sep| <= |s| {
      var a, b := s[i..i + |sep|], s[1..][i - 1..i - 1 + |sep|];
      assert |a| == |b|;
      forall k | 0 <= k < |a|
        ensures a[k] == b[k]
      {
        assert a[k] == s[i + k];
        assert b[k] == s[1..][i - 1 + k];
      }
      assert a == b;
    }
  }

  /** Index of the first occurrence of `sep` in `s`, if any. */
  function FindFirst(s: string, sep: string): (r: Option<nat>)
    requires |sep| > 0
    ensures r.Some? ==> OccursAt(s, sep, r.value)
    ensures r.Some? ==> forall i :: 0 <= i < r.value ==> !OccursAt(s, sep, i)
    ensures r.None? ==> forall i :: !OccursAt(s, sep, i)
    decreases |s|
  {
    if |s| < |sep| then None
    else if s[..|sep|] == sep then Some(0)
    else match FindFirst(s[1..], sep)
      case None =>
        assert forall i :: 1 <= i ==> !OccursAt(s, sep, i) by {
          forall i | 1 <= i { OccursShift(s, sep, i); }
        }
        None
      case Some(i) =>
        assert forall j :: 1 <= j < i + 1 ==> !OccursAt(s, sep, j) by {
          forall j | 1 <= j < i + 1 { OccursShift(s, sep, j); }
        }
        OccursShift(s, sep, i + 1);
        Some(i + 1)
  }

  /** `s.split_once(sep)`: the text before and after the first occurrence of `sep`. */
  function SplitOnce(s: string, sep: string): (r: Option<(string, string)>)
    requires |sep| > 0
    ensures r.Some? ==> s == r.value.0 + sep + r.value.1
    ensures r.None? <==> FindFirst(s, sep).None?
  {
    match FindFirst(s, sep)
    case None => None
    case Some(i) =>
      assert s == s[..i] + s[i..i + |sep|] + s[i + |sep|..];
      Some((s[..i], s[i + |sep|..]))
  }

  /** For a single-char separator, `split_once` at the first `c` of `a + [c] + b` when
      `a` has none. */
  lemma SplitOnceChar(a: string, c: char, b: string)
    requires c !in a
    ensures SplitOnce(a + [c] + b, [c]) == Some((a, b))
  {
    var s := a + [c] + b;
    assert s[|a|..|a| + 1] == [c];
    assert OccursAt(s, [c], |a|);
    forall i | 0 <= i < |a| ensures !OccursAt(s, [c], i) {
      assert s[i..i + 1] == [a[i]];
    }
    assert s[..|a|] == a;
    assert s[|a| + 1..] == b;
  }

  /** `split_once(sep)` on `a + sep + b` cuts right after `a` when no occurrence of
      `sep` starts inside `a`. */
  lemma SplitOnceAfter(a: string, sep: string, b: string)
    requires |sep| > 0
    requires forall i :: 0 <= i < |a| ==> !OccursAt(a + sep, sep, i)
    ensures SplitOnce(a + sep + b, sep) == Some((a, b))
  {
    var s := a + sep + b;
    assert s[|a|..|a| + |sep|] == sep;
    assert OccursAt(s, sep, |a|);
    forall i | 0 <= i < |a| ensures !OccursAt(s, sep, i) {
      assert !OccursAt(a + sep, sep, i);
      assert s[i..i + |sep|] == (a + sep)[i..i + |sep|];
    }
    assert s[..|a|] == a;
    assert s[|a| + |sep|..] == b;
  }

  function StartsWith(s: string, p: string): bool
  {
    |p| <= |s| && s[..|p|] == p
  }

  // ---------------------------------------------------------------- lines

  function StripCR(line: string): string
  {
    if |line| > 0 && line[|line| - 1] == '\r' then line[..|line| - 1] else line
  }

  /** `s.lines()`: split at '\n'; a '\r' right before a '\n' is dropped; a final empty
      piece (text ending in '\n', or no text at all) is not a line. */
  function Lines(s: string): (r: seq<string>)
    ensures forall k :: 0 <= k < |r| ==> '\n' !in r[k]
  {
    var ps := SplitOn(s, "\n");
    assert forall k :: 0 <= k < |ps| ==> '\n' !in ps[k] by {
      SplitOnNoSep(s, '\n');
    }
    var body := seq(|ps| - 1, k requires 0 <= k < |ps| - 1 => StripCR(ps[k]));
    var last := ps[|ps| - 1];
    body + (if last == "" then [] else [last])
  }

  /** Text of one-byte characters, where Rust's byte view and char view coincide. */
  predicate Ascii(s: string)
  {
    forall i :: 0 <= i < |s| ==> s[i] as int < 128
  }

  /** Lines written out one after another with '\n' between them are read back as those
      lines, as long as none holds a '\n', none ends in '\r' and the last is not empty. */
  lemma LinesJoin(ps: seq<string>)
    requires |ps| >= 1 && ps[|ps| - 1] != ""
    requires forall k :: 0 <= k < |ps| ==> '\n' !in ps[k] && StripCR(ps[k]) == ps[k]
    ensures Lines(Join(ps, "\n")) == ps
  {
    SplitOnJoin(ps, '\n');
    LinesOfPieces(Join(ps, "\n"), ps);
  }

  lemma LinesOfPieces(s: string, ps: seq<string>)
    requires SplitOn(s, "\n") == ps && ps[|ps| - 1] != ""
    requires forall k :: 0 <= k < |ps| ==> StripCR(ps[k]) == ps[k]
    ensures Lines(s) == ps
  {
    var body := seq(|ps| - 1, k requires 0 <= k < |ps| - 1 => StripCR(ps[k]));
    assert Lines(s) == body + [ps[|ps| - 1]];
    assert body == ps[..|ps| - 1];
  }

  /** No piece of a split at a char contains that char. */
  lemma {:induction false} SplitOnNoSep(s: string, c: char)
    ensures forall k :: 0 <= k < |SplitOn(s, [c])| ==> c !in SplitOn(s, [c])[k]
    decreases |s|
  {
    if |s| >= 1 {
      SplitOnNoSep(s[1..], c);
      assert s[..1] == [s[0]];
    }
  }

  // ---------------------------------------------------------------- trimming

  /** `char::is_whitespace`: the Unicode White_Space characters. */
  predicate IsWhitespace(c: char)
  {
    ('\t' <= c <= '\r') || c == ' ' || c == '\U{0085}' || c == '\U{00A0}'
    || c == '\U{1680}' || ('\U{2000}' <= c <= '\U{200A}') || c == '\U{2028}'
    || c == '\U{2029}' || c == '\U{202F}' || c == '\U{205F}' || c == '\U{3000}'
  }

  function TrimStart(s: string): (r: string)
    ensures |r| <= |s| && r == s[|s| - |r|..]
    ensures |r| > 0 ==> !IsWhitespace(r[0])
    ensures forall i :: 0 <= i < |s| - |r| ==> IsWhitespace(s[i])
    decreases |s|
  {
    if |s| > 0 && IsWhitespace(s[0]) then
      var r := TrimStart(s[1..]);
      assert forall i :: 1 <= i < |s| - |r| ==> s[i] == s[1..][i - 1];
      r
    else s
  }

  function TrimEnd(s: string): (r: string)
    ensures |r| <= |s| && r == s[..|r|]
    ensures |r| > 0 ==> !IsWhitespace(r[|r| - 1])
    ensures forall i :: |r| <= i < |s| ==> IsWhitespace(s[i])
    decreases |s|
  {
    if |s| > 0 && IsWhitespace(s[|s| - 1]) then TrimEnd(s[..|s| - 1]) else s
  }

  /** `s.trim()`: both ends without white space. */
  function Trim(s: string): string
  {
    TrimEnd(TrimStart(s))
  }

  /** Leading white space is dropped by trimming. */
  lemma TrimStartSpace(c: char, w: string)
    requires IsWhitespace(c)
    ensures TrimStart([c] + w) == TrimStart(w)
  {
    assert ([c] + w)[1..] == w;
  }

  /** A string starting with a character that is not white space is its own `TrimStart`. */
  lemma TrimStartNoop(w: string)
    requires |w| > 0 && !IsWhitespace(w[0])
    ensures TrimStart(w) == w
  {
  }

  /** A string with no white space at either end trims to itself. */
  lemma TrimNoop(s: string)
    requires |s| > 0 ==> !IsWhitespace(s[0]) && !IsWhitespace(s[|s| - 1])
    ensures Trim(s) == s
  {
  }

  // ---------------------------------------------------------------- integers

  predicate IsDigit(c: char) { '0' <= c <= '9' }

  predicate AllDigits(s: string) { forall i :: 0 <= i < |s| ==> IsDigit(s[i]) }

  /** The value of a string of decimal digits, most significant first. */
  function DigitsValue(s: string): nat
    requires AllDigits(s)
  {
    if |s| == 0 then 0 else DigitsValue(s[..|s| - 1]) * 10 + (s[|s| - 1] - '0') as nat
  }

  /** `s.parse::<uN>()` where `max` is the type's maximum: an optional '+', then one or
      more ASCII digits whose value is at most `max`. */
  function ParseNat(s: string, max: nat): (r: Option<nat>)
    ensures r.Some? ==> r.value <= max
  {
    var body := if |s| > 0 && s[0] == '+' then s[1..] else s;
    if |body| > 0 && AllDigits(body) && DigitsValue(body) <= max
    then Some(DigitsValue(body)) else None
  }

  /** `s.parse::<iN>()` for the range `min..=max`: an optional '+' or '-', then one or
      more ASCII digits. */
  function ParseInt(s: string, min: int, max: int): (r: Option<int>)
    ensures r.Some? ==> min <= r.value <= max
  {
    var neg := |s| > 0 && s[0] == '-';
    var body := if |s| > 0 && (s[0] == '+' || s[0] == '-') then s[1..] else s;
    if |body| > 0 && AllDigits(body) then
      var v := if neg then -(DigitsValue(body) as int) else DigitsValue(body) as int;
      if min <= v <= max then Some(v) else None
    else None
  }

  /** The numbers among `pieces` that parse (`flat_map(str::parse)`), in order; the
      pieces that do not parse are skipped. */
  function ParsedNats(pieces: seq<string>, max: nat): (r: seq<int>)
    ensures |r| <= |pieces|
    ensures forall k :: 0 <= k < |r| ==> 0 <= r[k] <= max
  {
    if pieces == [] then []
    else
      var rest := ParsedNats(pieces[..|pieces| - 1], max);
      match ParseNat(pieces[|pieces| - 1], max)
      case None => rest
      case Some(v) => rest + [v]
  }

  /** None of the first `p` pieces is a number. */
  predicate NoneParse(pieces: seq<string>, max: nat, p: nat)
    requires p <= |pieces|
  {
    forall k :: 0 <= k < p ==> ParseNat(pieces[k], max).None?
  }

  /** No number comes out exactly when no piece is a number. */
  lemma ParsedNatsEmpty(pieces: seq<string>, max: nat)
    ensures ParsedNats(pieces, max) == [] <==> forall k :: 0 <= k < |pieces| ==> ParseNat(pieces[k], max).None?
  {
    var p := 0;
    while p < |pieces|
      invariant p <= |pieces|
      invariant ParsedNats(pieces[..p], max) == [] <==> NoneParse(pieces, max, p)
    {
      ParsedNatsStep(pieces, p, max);
      if ParseNat(pieces[p], max).Some? {
        assert !NoneParse(pieces, max, p + 1);
      } else {
        assert NoneParse(pieces, max, p + 1) <==> NoneParse(pieces, max, p);
      }
      p := p + 1;
    }
    assert pieces[..p] == pieces;
  }

  /** One more piece adds its number, if it is one. */
  lemma ParsedNatsStep(pieces: seq<string>, k: nat, max: nat)
    requires k < |pieces|
    ensures ParsedNats(pieces[..k + 1], max) == ParsedNats(pieces[..k], max)
      + (if ParseNat(pieces[k], max).Some? then [ParseNat(pieces[k], max).value] else [])
  {
    assert pieces[..k + 1][..k] == pieces[..k];
  }

  lemma ParsedNatsSkip(pieces: seq<string>, k: nat, max: nat, acc: seq<int>)
    requires k < |pieces| && ParsedNats(pieces[..k], max) == acc && ParseNat(pieces[k], max).None?
    ensures ParsedNats(pieces[..k + 1], max) == acc
  {
    ParsedNatsStep(pieces, k, max);
  }

  lemma ParsedNatsTake(pieces: seq<string>, k: nat, max: nat, acc: seq<int>, v: nat)
    requires k < |pieces| && ParsedNats(pieces[..k], max) == acc && ParseNat(pieces[k], max) == Some(v)
    ensures ParsedNats(pieces[..k + 1], max) == acc + [v]
  {
    ParsedNatsStep(pieces, k, max);
  }

  /** A piece starting with something other than '+' or a digit is not a number. */
  lemma NotNumber(w: string, max: nat)
    requires |w| > 0 && w[0] != '+' && !IsDigit(w[0])
    ensures ParseNat(w, max).None?
  {
  }

  const U8_MAX: nat := 0xFF
  const U32_MAX: nat := 0xFFFF_FFFF
  const U64_MAX: nat := 0xFFFF_FFFF_FFFF_FFFF
  const I32_MIN: int := -0x8000_0000
  const I32_MAX: int := 0x7FFF_FFFF
  const I64_MIN: int := -0x8000_0000_0000_0000
  const I64_MAX: int := 0x7FFF_FFFF_FFFF_FFFF
  /** The target is 64-bit: `usize` is `u64` and `isize` is `i64`. */
  const USIZE_MAX: nat := U64_MAX

  /** Decimal digits of `n`, without leading zeros. */
  function NatToString(n: nat): (r: string)
    ensures |r| > 0 && AllDigits(r)
    ensures r[0] != '+' && r[0] != '-'
  {
    if n < 10 then ['0' + n as char]
    else NatToString(n / 10) + ['0' + (n % 10) as char]
  }

  /** Printing a natural number and parsing it back gives the number. */
  lemma {:induction false} NatToStringValue(n: nat)
    ensures DigitsValue(NatToString(n)) == n
  {
    if n >= 10 {
      NatToStringValue(n / 10);
      var s := NatToString(n);
      assert s[..|s| - 1] == NatToString(n / 10);
    }
  }

  lemma ParseNatToString(n: nat, max: nat)
    requires n <= max
    ensures ParseNat(NatToString(n), max) == Some(n)
  {
    NatToStringValue(n);
  }

  /** The decimal text of a number holds nothing but digits. */
  lemma NatToStringNoChar(n: nat, c: char)
    requires !IsDigit(c)
    ensures c !in NatToString(n)
  {
  }

  /** Decimal text of an integer, with a '-' for negatives. */
  function IntToString(v: int): string
  {
    if v < 0 then "-" + NatToString(-v) else NatToString(v)
  }

  lemma ParseNegative(d: string, min: int, max: int)
    requires |d| > 0 && AllDigits(d) && min <= -(DigitsValue(d) as int) <= max
    ensures ParseInt("-" + d, min, max) == Some(-(DigitsValue(d) as int))
  {
    var s := "-" + d;
    assert s[0] == '-' && s[1..] == d;
  }

  lemma ParsePositive(d: string, min: int, max: int)
    requires |d| > 0 && AllDigits(d) && d[0] != '+' && d[0] != '-'
    requires min <= DigitsValue(d) as int <= max
    ensures ParseInt(d, min, max) == Some(DigitsValue(d) as int)
  {
  }

  lemma ParseIntToString(v: int, min: int, max: int)
    requires min <= v <= max
    ensures ParseInt(IntToString(v), min, max) == Some(v)
  {
    if v < 0 {
      var d := NatToString(-v);
      NatToStringValue(-v);
      ParseNegative(d, min, max);
      assert IntToString(v) == "-" + d;
    } else {
      var d := NatToString(v);
      NatToStringValue(v);
      ParsePositive(d, min, max);
      assert IntToString(v) == d;
    }
  }
}
