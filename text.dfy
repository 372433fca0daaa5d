/**
 * The string operations the monitor relies on, restricted to ASCII:
 * `str.strip()`, `str.lower()`, the substring test `needle in hay`,
 * `sep.join(parts)` and the line splitting of `file.readlines()`.
 */
module Text {

  /** The ASCII characters for which Python's `str.isspace()` holds:
      tab, line feed, vertical tab, form feed, carriage return,
      the four information separators 0x1C-0x1F, and the space. */
  predicate IsSpace(c: char) {
    (9 <= c as int <= 13) || (28 <= c as int <= 31) || c == ' '
  }

  predicate AllSpace(s: string) {
    forall k :: 0 <= k < |s| ==> IsSpace(s[k])
  }

  /** Neither end of `s` is whitespace. */
  predicate IsTrimmed(s: string) {
    s == [] || (!IsSpace(s[0]) && !IsSpace(s[|s| - 1]))
  }

  /** `s` with its leading whitespace removed: a suffix of `s` that starts with a non-space. */
  function TrimStart(s: string): (r: string)
    ensures |r| <= |s| && r == s[|s| - |r|..]
    ensures r != [] ==> !IsSpace(r[0])
  {
    if s != [] && IsSpace(s[0]) then TrimStart(s[1..]) else s
  }

  /** What `TrimStart` drops is whitespace. */
  lemma {:induction false} TrimStartDropsSpace(s: string)
    ensures AllSpace(s[..|s| - |TrimStart(s)|])
  {
    if s != [] && IsSpace(s[0]) {
      TrimStartDropsSpace(s[1..]);
      var r := TrimStart(s[1..]);
      assert s[..|s| - |r|] == [s[0]] + s[1..][..|s| - 1 - |r|];
    }
  }

  /** `s` with its trailing whitespace removed: a prefix of `s` that ends with a non-space. */
  function TrimEnd(s: string): (r: string)
    ensures |r| <= |s| && r == s[..|r|]
    ensures r != [] ==> !IsSpace(r[|r| - 1])
  {
    if s != [] && IsSpace(s[|s| - 1]) then TrimEnd(s[..|s| - 1]) else s
  }

  /** What `TrimEnd` drops is whitespace. */
  lemma {:induction false} TrimEndDropsSpace(s: string)
    ensures AllSpace(s[|TrimEnd(s)|..])
  {
    if s != [] && IsSpace(s[|s| - 1]) {
      TrimEndDropsSpace(s[..|s| - 1]);
      var r := TrimEnd(s[..|s| - 1]);
      assert s[|r|..] == s[..|s| - 1][|r|..] + [s[|s| - 1]];
    }
  }

  lemma TrimStartSpace(c: char, s: string)
    requires IsSpace(c)
    ensures TrimStart([c] + s) == TrimStart(s)
  {
    assert ([c] + s)[1..] == s;
  }

  lemma TrimStartNonSpace(s: string)
    requires s != [] && !IsSpace(s[0])
    ensures TrimStart(s) == s
  {
  }

  lemma TrimEndSpace(s: string, c: char)
    requires IsSpace(c)
    ensures TrimEnd(s + [c]) == TrimEnd(s)
  {
    assert (s + [c])[..|s|] == s;
  }

  lemma TrimEndNonSpace(s: string)
    requires s != [] && !IsSpace(s[|s| - 1])
    ensures TrimEnd(s) == s
  {
  }

  /** Python's `str.strip()` over the ASCII whitespace set. */
  function Trim(s: string): (r: string)
    ensures IsTrimmed(r)
  {
    TrimEnd(TrimStart(s))
  }

  /** `Trim` keeps the infix of `s` that remains once whitespace is removed from both
      ends, and gives the empty string exactly for an all-whitespace string. */
  lemma TrimIsInfix(s: string)
    ensures var r := Trim(s);
      (r == [] <==> AllSpace(s)) &&
      exists i :: 0 <= i <= |s| - |r| && r == s[i..i + |r|] && AllSpace(s[..i]) && AllSpace(s[i + |r|..])
  {
    var t := TrimStart(s);
    var r := TrimEnd(t);
    var i := |s| - |t|;
    TrimStartDropsSpace(s);
    TrimEndDropsSpace(t);
    assert r == s[i..i + |r|];
    assert s[i + |r|..] == t[|r|..];
    assert r == [] ==> s == s[..i] + t && AllSpace(t);
  }

  /** Trimming an already trimmed string changes nothing, so `Trim` is idempotent. */
  lemma TrimmedIsFixed(s: string)
    requires IsTrimmed(s)
    ensures Trim(s) == s
  {
  }

  lemma TrimIdempotent(s: string)
    ensures Trim(Trim(s)) == Trim(s)
  {
    TrimmedIsFixed(Trim(s));
  }

  predicate IsUpper(c: char) {
    'A' <= c <= 'Z'
  }

  /** ASCII case folding of one character: `A`-`Z` become `a`-`z`, all else is kept. */
  function LowerChar(c: char): (d: char)
    ensures !IsUpper(d)
    ensures IsUpper(c) ==> d as int == c as int + 32
    ensures !IsUpper(c) ==> d == c
  {
    if IsUpper(c) then (c as int + 32) as char else c
  }

  /** Python's `str.lower()` restricted to ASCII letters: same length, folded character by character. */
  function Lower(s: string): (r: string)
    ensures |r| == |s|
    ensures forall k :: 0 <= k < |s| ==> r[k] == LowerChar(s[k])
  {
    if s == [] then [] else [LowerChar(s[0])] + Lower(s[1..])
  }

  lemma LowerAppend(a: string, b: string)
    ensures Lower(a + b) == Lower(a) + Lower(b)
  {
    assert forall k :: 0 <= k < |a + b| ==> Lower(a + b)[k] == (Lower(a) + Lower(b))[k];
  }

  lemma LowerIdempotent(s: string)
    ensures Lower(Lower(s)) == Lower(s)
  {
  }

  /** `needle` occurs in `hay` starting at index `i`. */
  predicate OccursAt(needle: string, hay: string, i: nat) {
    i + |needle| <= |hay| && hay[i..i + |needle|] == needle
  }

  lemma OccursShift(needle: string, hay: string, i: nat)
    requires hay != []
    ensures OccursAt(needle, hay[1..], i) <==> OccursAt(needle, hay, i + 1)
  {
    if i + 1 + |needle| <= |hay| {
      assert hay[1..][i..i + |needle|] == hay[i + 1..i + 1 + |needle|];
    }
  }

  /** Python's `needle in hay` for strings. */
  function Contains(needle: string, hay: string): (r: bool)
    ensures r ==> |needle| <= |hay|
    ensures needle == [] ==> r
    decreases |hay|
  {
    if |needle| > |hay| then false
    else if hay[..|needle|] == needle then true
    else Contains(needle, hay[1..])
  }

  /** `needle in hay` holds exactly when `needle` occurs at some index of `hay`; so the
      empty needle is in every string. */
  lemma {:induction false} ContainsIffOccurs(needle: string, hay: string)
    ensures Contains(needle, hay) <==> exists i: nat :: OccursAt(needle, hay, i)
    decreases |hay|
  {
    if |needle| > |hay| {
    } else if hay[..|needle|] == needle {
      assert OccursAt(needle, hay, 0);
    } else {
      ContainsIffOccurs(needle, hay[1..]);
      if Contains(needle, hay[1..]) {
        var i: nat :| OccursAt(needle, hay[1..], i);
        OccursShift(needle, hay, i);
      }
      if exists i: nat :: OccursAt(needle, hay, i) {
        var i: nat :| OccursAt(needle, hay, i);
        assert i != 0;
        OccursShift(needle, hay, i - 1);
      }
    }
  }

  /** Every string contains itself. */
  lemma Contains1(s: string)
    ensures Contains(s, s)
  {
    assert s[..|s|] == s;
  }

  /** A needle with a character that the haystack lacks does not occur in it. */
  lemma AbsentWithoutLetter(needle: string, hay: string, j: nat)
    requires j < |needle| && forall k :: 0 <= k < |hay| ==> hay[k] != needle[j]
    ensures !Contains(needle, hay)
  {
    ContainsIffOccurs(needle, hay);
    forall i: nat
      ensures !OccursAt(needle, hay, i)
    {
      if i + |needle| <= |hay| {
        assert hay[i..i + |needle|][j] == hay[i + j];
      }
    }
  }

  /** An occurrence in a prefix of a string is an occurrence in the whole string. */
  lemma ContainsInPrefix(needle: string, a: string, b: string)
    requires Contains(needle, a)
    ensures Contains(needle, a + b)
  {
    ContainsIffOccurs(needle, a);
    ContainsIffOccurs(needle, a + b);
    var i: nat :| OccursAt(needle, a, i);
    assert (a + b)[i..i + |needle|] == a[i..i + |needle|];
    assert OccursAt(needle, a + b, i);
  }

  /** An occurrence in a suffix of a string is an occurrence in the whole string. */
  lemma ContainsInSuffix(needle: string, a: string, b: string)
    requires Contains(needle, b)
    ensures Contains(needle, a + b)
  {
    ContainsIffOccurs(needle, b);
    ContainsIffOccurs(needle, a + b);
    var i: nat :| OccursAt(needle, b, i);
    assert (a + b)[|a| + i..|a| + i + |needle|] == b[i..i + |needle|];
    assert OccursAt(needle, a + b, |a| + i);
  }

  /** Python's `sep.join(parts)`. */
  function Join(sep: string, parts: seq<string>): (r: string)
    ensures parts != [] ==> |parts[0]| <= |r| && r[..|parts[0]|] == parts[0]
  {
    if |parts| == 0 then ""
    else if |parts| == 1 then parts[0]
    else parts[0] + sep + Join(sep, parts[1..])
  }

  /** Joining is associative over concatenation of the part lists: the separator
      appears exactly between neighbouring parts. */
  lemma {:induction false} JoinConcat(sep: string, xs: seq<string>, ys: seq<string>)
    requires xs != [] && ys != []
    ensures Join(sep, xs + ys) == Join(sep, xs) + sep + Join(sep, ys)
  {
    if |xs| == 1 {
      assert (xs + ys)[1..] == ys;
    } else {
      assert (xs + ys)[1..] == xs[1..] + ys;
      JoinConcat(sep, xs[1..], ys);
    }
  }

  function TotalLength(parts: seq<string>): nat
  {
    if parts == [] then 0 else |parts[0]| + TotalLength(parts[1..])
  }

  /** A joined string holds every part and one separator between each pair of neighbours. */
  lemma {:induction false} JoinLength(sep: string, parts: seq<string>)
    requires parts != []
    ensures |Join(sep, parts)| == TotalLength(parts) + (|parts| - 1) * |sep|
  {
    if |parts| > 1 {
      JoinLength(sep, parts[1..]);
    }
  }

  /** Length of the first line of `t`: up to and including its first line feed, or all of `t`. */
  function FirstLineLength(t: string): (n: nat)
    requires t != []
    ensures 0 < n <= |t|
    ensures forall k :: 0 <= k < n - 1 ==> t[k] != '\n'
    ensures n < |t| ==> t[n - 1] == '\n'
  {
    if t[0] == '\n' || |t| == 1 then 1 else 1 + FirstLineLength(t[1..])
  }

  /** A line as `readlines()` returns it: non-empty, no line feed before its last character. */
  predicate IsLine(line: string) {
    line != [] && forall k :: 0 <= k < |line| - 1 ==> line[k] != '\n'
  }

  /** Python's `file.readlines()` on already decoded text: the text cut after every line feed. */
  function SplitLines(t: string): (lines: seq<string>)
    ensures |lines| <= |t|
    decreases |t|
  {
    if t == [] then [] else
      var n := FirstLineLength(t);
      [t[..n]] + SplitLines(t[n..])
  }

  /** Every line `readlines()` returns is non-empty with no line feed before its last character. */
  lemma {:induction false} SplitLinesAreLines(t: string)
    ensures forall i :: 0 <= i < |SplitLines(t)| ==> IsLine(SplitLines(t)[i])
    decreases |t|
  {
    if t != [] {
      var n := FirstLineLength(t);
      var rest := SplitLines(t[n..]);
      SplitLinesAreLines(t[n..]);
      var lines := SplitLines(t);
      assert lines == [t[..n]] + rest;
      assert IsLine(t[..n]) by {
        forall k | 0 <= k < n - 1
          ensures t[..n][k] != '\n'
        {
          assert t[..n][k] == t[k];
        }
      }
      forall i | 0 <= i < |lines|
        ensures IsLine(lines[i])
      {
        if i == 0 {
          assert lines[0] == t[..n];
        } else {
          assert lines[i] == rest[i - 1];
          assert IsLine(rest[i - 1]);
        }
      }
    }
  }

  predicate EndsInFeed(line: string) {
    line != [] && line[|line| - 1] == '\n'
  }

  /** Each line `readlines()` returns, except the last, ends with a line feed. */
  lemma {:induction false} SplitLinesEndInFeed(t: string)
    ensures forall i :: 0 <= i < |SplitLines(t)| - 1 ==> EndsInFeed(SplitLines(t)[i])
    decreases |t|
  {
    if t != [] {
      var n := FirstLineLength(t);
      var rest := SplitLines(t[n..]);
      SplitLinesEndInFeed(t[n..]);
      var lines := SplitLines(t);
      assert lines == [t[..n]] + rest;
      forall i | 0 <= i < |lines| - 1
        ensures EndsInFeed(lines[i])
      {
        if i == 0 {
          assert rest != [];
          assert t[n..] != [];
          assert lines[0] == t[..n];
          assert t[..n][n - 1] == t[n - 1];
        } else {
          assert lines[i] == rest[i - 1];
          assert i - 1 < |rest| - 1;
        }
      }
    }
  }

  /** Every line `readlines()` returns is non-empty and has no line feed before its last
      character, and each line but the last ends with one. */
  lemma SplitLinesShape(t: string)
    ensures var lines := SplitLines(t);
      (forall i :: 0 <= i < |lines| ==> IsLine(lines[i])) &&
      (forall i :: 0 <= i < |lines| - 1 ==> lines[i] != [] && lines[i][|lines[i]| - 1] == '\n')
  {
    SplitLinesAreLines(t);
    SplitLinesEndInFeed(t);
  }

  function Concat(lines: seq<string>): string
  {
    if lines == [] then "" else lines[0] + Concat(lines[1..])
  }

  lemma ConcatCons(line: string, rest: seq<string>)
    ensures Concat([line] + rest) == line + Concat(rest)
  {
    assert ([line] + rest)[1..] == rest;
  }

  /** Splitting loses nothing: the lines put back together are the text. */
  lemma {:induction false} SplitLinesRoundTrip(t: string)
    ensures Concat(SplitLines(t)) == t
    decreases |t|
  {
    if t != [] {
      var n := FirstLineLength(t);
      var rest := SplitLines(t[n..]);
      SplitLinesRoundTrip(t[n..]);
      assert SplitLines(t) == [t[..n]] + rest;
      ConcatCons(t[..n], rest);
      assert t == t[..n] + t[n..];
    }
  }
}
