/**
 * The keyword list and its conditional reload from the keyword file
 * (`load_keywords` in reddit_monitor.py).
 */
module Keywords {
  import opened Wrappers
  import opened Text

  /** A raw line (before trimming) is a comment when its first character is `#`. */
  predicate IsComment(line: string) {
    |line| > 0 && line[0] == '#'
  }

  /** A raw line yields a keyword when it is not a comment and is not blank once trimmed. */
  predicate KeepLine(line: string)
    ensures KeepLine(line) ==> IsKeyword(Trim(line)) && line != [] && line[0] != '#'
  {
    Trim(line) != [] && !IsComment(line)
  }

  /** A keyword as the parser produces it: non-empty, no whitespace at either end. */
  predicate IsKeyword(k: string) {
    k != [] && IsTrimmed(k)
  }

  predicate AllKeywords(kws: seq<string>) {
    forall k :: 0 <= k < |kws| ==> IsKeyword(kws[k])
  }

  /** What one line contributes to the keyword list: its trimmed form when it is kept. */
  function LineKeywords(line: string): seq<string>
  {
    if KeepLine(line) then [Trim(line)] else []
  }

  /** The list comprehension of `load_keywords`: the trimmed form of every kept line, in file order. */
  function ParseLines(lines: seq<string>): (kws: seq<string>)
    ensures |kws| <= |lines|
  {
    if lines == [] then []
    else LineKeywords(lines[0]) + ParseLines(lines[1..])
  }

  /** Reading the whole file and parsing it. */
  function ParseKeywordFile(text: string): (kws: seq<string>)
    ensures |kws| <= |text|
    ensures text == [] ==> kws == []
  {
    ParseLines(SplitLines(text))
  }

  /** The first line contributes first. */
  lemma ParseLinesCons(line: string, rest: seq<string>)
    ensures ParseLines([line] + rest) == LineKeywords(line) + ParseLines(rest)
  {
    assert ([line] + rest)[1..] == rest;
  }

  /** Parsing distributes over the file's lines: the keywords of two consecutive blocks
      of lines are those of the first block followed by those of the second. */
  lemma {:induction false} ParseLinesConcat(a: seq<string>, b: seq<string>)
    ensures ParseLines(a + b) == ParseLines(a) + ParseLines(b)
  {
    if a == [] {
      assert a + b == b;
    } else {
      var line, tail := a[0], a[1..];
      assert a == [line] + tail;
      assert a + b == [line] + (tail + b);
      ParseLinesCons(line, tail + b);
      ParseLinesCons(line, tail);
      ParseLinesConcat(tail, b);
      var head, restA, restB := LineKeywords(line), ParseLines(tail), ParseLines(b);
      assert head + (restA + restB) == (head + restA) + restB;
    }
  }

  /** Every parsed keyword is non-empty and trimmed. */
  lemma {:induction false} ParsedAreKeywords(lines: seq<string>)
    ensures AllKeywords(ParseLines(lines))
  {
    if lines != [] {
      ParsedAreKeywords(lines[1..]);
      var head := LineKeywords(lines[0]);
      assert ParseLines(lines) == head + ParseLines(lines[1..]);
    }
  }

  /** One line contributes its trimmed form exactly when it is kept, and nothing otherwise. */
  lemma ParseOneLine(line: string)
    ensures ParseLines([line]) == if KeepLine(line) then [Trim(line)] else []
  {
    assert [line][1..] == [];
  }

  /** A string is a parsed keyword exactly when some kept line trims to it. */
  lemma {:induction false} ParseLinesMembership(lines: seq<string>, x: string)
    ensures x in ParseLines(lines) <==> exists i :: 0 <= i < |lines| && KeepLine(lines[i]) && Trim(lines[i]) == x
  {
    if lines != [] {
      ParseLinesMembership(lines[1..], x);
      if x in ParseLines(lines[1..]) {
        var i :| 0 <= i < |lines| - 1 && KeepLine(lines[1..][i]) && Trim(lines[1..][i]) == x;
        assert lines[i + 1] == lines[1..][i];
      }
      if exists i :: 0 <= i < |lines| && KeepLine(lines[i]) && Trim(lines[i]) == x {
        var i :| 0 <= i < |lines| && KeepLine(lines[i]) && Trim(lines[i]) == x;
        if i > 0 {
          assert lines[1..][i - 1] == lines[i];
        }
      }
    }
  }

  /** Number of lines that yield a keyword. */
  function KeptCount(lines: seq<string>): nat
  {
    if lines == [] then 0 else (if KeepLine(lines[0]) then 1 else 0) + KeptCount(lines[1..])
  }

  /** There is one keyword per kept line. */
  lemma {:induction false} ParseLinesCount(lines: seq<string>)
    ensures |ParseLines(lines)| == KeptCount(lines)
  {
    if lines != [] {
      ParseLinesCount(lines[1..]);
    }
  }

  /** Indentation and the line terminator are stripped: a keyword indented by two spaces
      and ended by a line feed trims back to the keyword. */
  lemma IndentedLineTrims(k: string)
    requires IsKeyword(k)
    ensures Trim("  " + k + "\n") == k
  {
    var r1, r2 := [' '] + (k + ['\n']), k + ['\n'];
    assert "  " + k + "\n" == [' '] + r1;
    TrimStartSpace(' ', r1);
    TrimStartSpace(' ', r2);
    TrimStartNonSpace(r2);
    TrimEndSpace(k, '\n');
    TrimEndNonSpace(k);
  }

  /** The comment test looks at the raw line, so a keyword indented by spaces is kept
      even when it starts with `#`. */
  lemma IndentedKeywordKept(k: string)
    requires IsKeyword(k)
    ensures ParseLines(["  " + k + "\n"]) == [k]
  {
    IndentedLineTrims(k);
    ParseOneLine("  " + k + "\n");
  }

  lemma SplitIndentedHash()
    ensures SplitLines("  #x\n") == ["  #x\n"]
  {
    assert FirstLineLength("\n") == 1;
    assert "x\n"[1..] == "\n";
    assert FirstLineLength("x\n") == 2;
    assert "#x\n"[1..] == "x\n";
    assert FirstLineLength("#x\n") == 3;
    assert " #x\n"[1..] == "#x\n";
    assert FirstLineLength(" #x\n") == 4;
    assert "  #x\n"[1..] == " #x\n";
    assert FirstLineLength("  #x\n") == 5;
    assert "  #x\n"[5..] == [];
    assert "  #x\n"[..5] == "  #x\n";
  }

  /** The file `"  #x\n"` yields the keyword `#x`. */
  lemma IndentedHashIsKeyword()
    ensures ParseKeywordFile("  #x\n") == ["#x"]
  {
    SplitIndentedHash();
    assert "  " + "#x" + "\n" == "  #x\n";
    IndentedKeywordKept("#x");
  }

  lemma DropOneLine(line: string, rest: seq<string>)
    requires !KeepLine(line)
    ensures ParseLines([line] + rest) == ParseLines(rest)
  {
    ParseOneLine(line);
    ParseLinesConcat([line], rest);
  }

  /** A comment line and a whitespace-only line yield no keyword, and a line that is
      already a keyword is kept as it is. */
  lemma CommentsAndBlanksDropped(comment: string, blank: string, kw: string)
    requires IsComment(comment) && AllSpace(blank) && IsKeyword(kw) && !IsComment(kw)
    ensures ParseLines([comment, blank, kw]) == [kw]
  {
    TrimIsInfix(blank);
    TrimmedIsFixed(kw);
    ParseOneLine(kw);
    DropOneLine(blank, [kw]);
    DropOneLine(comment, [blank, kw]);
    assert [blank] + [kw] == [blank, kw];
    assert [comment] + [blank, kw] == [comment, blank, kw];
  }

  /** What one probe of the keyword file shows: the stat failed, or the file has
      modification time `mtime` and reading it gives `contents` (`None` when the read fails). */
  datatype FileProbe = StatError | Stamped(mtime: real, contents: Option<string>)

  /** The values of the two globals `keywords` and `last_modified`. */
  datatype StoreState = StoreState(keywords: seq<string>, lastModified: real)

  /** The state before the first load: no keywords, timestamp 0. */
  const InitialStore := StoreState([], 0.0)

  /** One call of `load_keywords`: an unchanged timestamp or a failing stat or read leaves
      the state alone; otherwise the parsed list and the timestamp are swapped in together,
      but only when the list differs from the current one. */
  function ReloadStep(s: StoreState, p: FileProbe): (r: StoreState)
    ensures r == s || (r.keywords != s.keywords && r.lastModified != s.lastModified)
    ensures r == s || p.Stamped?
  {
    match p
    case StatError => s
    case Stamped(mtime, contents) =>
      if mtime == s.lastModified then s
      else match contents
        case None => s
        case Some(text) =>
          var parsed := ParseKeywordFile(text);
          if parsed != s.keywords then StoreState(parsed, mtime) else s
  }

  /** A failing stat or read changes neither the keywords nor the timestamp. */
  lemma ReloadFailureKeepsState(s: StoreState, p: FileProbe)
    requires p.StatError? || (p.Stamped? && p.contents.None?)
    ensures ReloadStep(s, p) == s
  {
  }

  /** A timestamp equal to the recorded one skips the reload, whatever the file holds. */
  lemma ReloadSameStampKeepsState(s: StoreState, p: FileProbe)
    requires p.Stamped? && p.mtime == s.lastModified
    ensures ReloadStep(s, p) == s
  {
  }

  /** The keyword list and the timestamp change together or not at all, and when they
      change the new list is the parse of the file just read and the new timestamp its mtime. */
  lemma ReloadSwapsTogether(s: StoreState, p: FileProbe)
    ensures var r := ReloadStep(s, p);
      (r.keywords != s.keywords <==> r.lastModified != s.lastModified) &&
      (r != s ==> p.Stamped? && p.contents.Some? && r == StoreState(ParseKeywordFile(p.contents.value), p.mtime))
  {
  }

  /** A file touched without a change in its keywords updates nothing, not even the timestamp. */
  lemma ReloadTouchedFileKeepsStaleStamp(s: StoreState, mtime: real, text: string)
    requires ParseKeywordFile(text) == s.keywords
    ensures ReloadStep(s, Stamped(mtime, Some(text))) == s
  {
  }

  /** After a reload that reads the file, the keywords are exactly those of the file. */
  lemma ReloadReadYieldsFileKeywords(s: StoreState, mtime: real, text: string)
    requires mtime != s.lastModified
    ensures ReloadStep(s, Stamped(mtime, Some(text))).keywords == ParseKeywordFile(text)
  {
  }

  /** Probing the same file twice in a row has the effect of probing it once. */
  lemma ReloadIdempotent(s: StoreState, p: FileProbe)
    ensures ReloadStep(ReloadStep(s, p), p) == ReloadStep(s, p)
  {
  }

  /** Every keyword the store ever holds came out of the parser. */
  lemma ReloadKeepsKeywordsWellFormed(s: StoreState, p: FileProbe)
    requires AllKeywords(s.keywords)
    ensures AllKeywords(ReloadStep(s, p).keywords)
  {
    if p.Stamped? && p.contents.Some? {
      ParsedAreKeywords(SplitLines(p.contents.value));
    }
  }

  /** The globals `keywords` and `last_modified`, with `load_keywords` as `Reload`
      and the copy taken under the lock as `Snapshot`. */
  class KeywordStore {
    var keywords: seq<string>
    var lastModified: real

    function State(): StoreState
      reads this
    {
      StoreState(keywords, lastModified)
    }

    constructor ()
      ensures State() == InitialStore
    {
      keywords := [];
      lastModified := 0.0;
    }

    /** `load_keywords`: the whole file is parsed before anything is assigned, and the two
        fields are assigned in one step. */
    method Reload(probe: FileProbe)
      modifies this
      ensures State() == ReloadStep(old(State()), probe)
    {
      match probe
      case StatError =>
      case Stamped(mtime, contents) =>
        if mtime != lastModified {
          match contents
          case None =>
          case Some(text) =>
            var parsed := ParseKeywordFile(text);
            if parsed != keywords {
              keywords, lastModified := parsed, mtime;
            }
        }
    }

    /** `keywords.copy()`: a value that later reloads cannot alter. */
    method Snapshot() returns (snapshot: seq<string>)
      ensures snapshot == keywords
    {
      snapshot := keywords;
    }
  }
}
