/**
 Title extraction: the book title is the one line, among the first lines of a
 text file, that starts with the prefix pattern `^Title:` (compared without
 regard to case). The title is that line with the first `len("^Title:")`
 characters sliced off. Zero or several such lines give no title.
 */
module TitleSearch {
  import opened Wrappers

  /** Only this many leading lines are searched (the slice `lines[0:40]`). */
  const SearchWindow: nat := 40

  /** The default prefix pattern, as the source passes it to the regex engine. */
  const TitlePattern: string := "^Title:"

  /** The text the pattern matches after its `^` anchor, in lower case. */
  const TitleLiteral: string := "title:"

  /** Characters sliced off a matching line: the length of the PATTERN string
      (7, counting the anchor `^`), not the length of the matched text (6). */
  const StripLength: nat := |TitlePattern|

  /** The lines that are searched: the first `SearchWindow` of them, or all
      of them when there are fewer (Python slicing never fails). */
  function Window(lines: seq<string>): (w: seq<string>)
    ensures |w| <= SearchWindow
    ensures w <= lines
    ensures |lines| <= SearchWindow ==> w == lines
    ensures |lines| >= SearchWindow ==> |w| == SearchWindow
  {
    if |lines| <= SearchWindow then lines else lines[..SearchWindow]
  }

  /** The simple lower-case mapping the regex engine applies to both sides of
      a case-insensitive literal: ASCII capitals, and U+0130 (capital I with
      dot above) whose simple lower case is `i`. No other character lowers to
      a letter of `title:`. */
  function SimpleLower(c: char): char
  {
    if 'A' <= c <= 'Z' then (c as int + 32) as char
    else if c == '\U{0130}' then 'i'
    else c
  }

  /** Does character `c` of the line match lower-case pattern character `p`
      under IGNORECASE? The regex engine also treats dotless `ı` as
      equivalent to `i`. */
  predicate MatchesLiteralChar(c: char, p: char)
  {
    SimpleLower(c) == p || (p == 'i' && c == '\U{0131}')
  }

  /** `re.search("^Title:", line, flags=re.IGNORECASE)` succeeds: without
      MULTILINE the anchor only matches at position 0 of the line. */
  predicate IsTitleLine(line: string)
  {
    && |line| >= |TitleLiteral|
    && forall i :: 0 <= i < |TitleLiteral| ==> MatchesLiteralChar(line[i], TitleLiteral[i])
  }

  /** `line[len(regex_prefix):]`: the title candidate of a matching line.
      Slicing past the end gives the empty string. */
  function StripPrefix(line: string): (title: string)
    ensures |line| >= StripLength ==> line[..StripLength] + title == line
    ensures |line| <= StripLength ==> title == ""
    ensures |title| + StripLength == |line| || (title == "" && |line| < StripLength)
  {
    if |line| < StripLength then "" else line[StripLength..]
  }

  /** The outcome of the search. The source returns `False` for both failure
      kinds; the model keeps them apart. */
  datatype TitleOutcome =
    | Found(title: string)
    | NotFound
    | Ambiguous(matches: nat)

  /** No line of `w` is a title line. */
  ghost predicate NoneMatch(w: seq<string>)
  {
    forall i :: 0 <= i < |w| ==> !IsTitleLine(w[i])
  }

  /** At least two distinct lines of `w` are title lines. */
  ghost predicate TwoMatch(w: seq<string>)
  {
    exists i, j :: 0 <= i < j < |w| && IsTitleLine(w[i]) && IsTitleLine(w[j])
  }

  /** Line `k` is the one and only title line of `w`. */
  ghost predicate OnlyMatchAt(w: seq<string>, k: int)
  {
    && 0 <= k < |w|
    && IsTitleLine(w[k])
    && forall j :: 0 <= j < |w| && j != k ==> !IsTitleLine(w[j])
  }

  /** Line `k` is a title line and no later line of `w` is one. */
  ghost predicate LastMatchAt(w: seq<string>, k: int)
  {
    && 0 <= k < |w|
    && IsTitleLine(w[k])
    && forall j :: k < j < |w| ==> !IsTitleLine(w[j])
  }

  /** The loop state of the source: the last candidate title (`title_line`,
      `None` until the first hit) and the number of hits (`count_matched`). */
  datatype ScanState = ScanState(titleLine: Option<string>, countMatched: nat)

  /** One iteration of the search loop. */
  function Step(s: ScanState, line: string): ScanState
  {
    if IsTitleLine(line) then ScanState(Some(StripPrefix(line)), s.countMatched + 1) else s
  }

  /** What a loop state says about the lines scanned so far: no candidate
      exactly when there was no hit, the candidate comes from the last hit,
      and the count tells none, exactly one, or several hits apart. */
  ghost predicate Summarizes(w: seq<string>, s: ScanState)
  {
    && (s.countMatched == 0 <==> s.titleLine.None?)
    && (s.countMatched == 0 <==> NoneMatch(w))
    && (s.countMatched >= 2 <==> TwoMatch(w))
    && (s.titleLine.Some? ==>
          exists k :: LastMatchAt(w, k) && s.titleLine.value == StripPrefix(w[k]))
    && (s.countMatched == 1 ==>
          exists k :: OnlyMatchAt(w, k) && s.titleLine.value == StripPrefix(w[k]))
  }

  /** A hit on the next line: it becomes the last hit, and the count grows. */
  lemma {:induction false} StepOnTitleLine(w: seq<string>, s: ScanState, line: string)
    requires Summarizes(w, s)
    requires IsTitleLine(line)
    ensures Summarizes(w + [line], Step(s, line))
  {
    var w' := w + [line];
    var n := |w|;
    assert forall i :: 0 <= i < n ==> w'[i] == w[i];
    assert w'[n] == line;
    assert LastMatchAt(w', n);
    assert !NoneMatch(w');
    if s.countMatched == 0 {
      assert OnlyMatchAt(w', n);
    } else {
      var i :| LastMatchAt(w, i) && s.titleLine.value == StripPrefix(w[i]);
      assert IsTitleLine(w'[i]) && IsTitleLine(w'[n]);
      assert TwoMatch(w');
    }
  }

  /** A miss on the next line adds no hit: which lines of `w` are hits, and
      whether there are none or several, is unchanged. */
  lemma {:induction false} MissKeepsHits(w: seq<string>, line: string)
    requires !IsTitleLine(line)
    ensures NoneMatch(w + [line]) <==> NoneMatch(w)
    ensures TwoMatch(w + [line]) <==> TwoMatch(w)
  {
    var w' := w + [line];
    assert forall i :: 0 <= i < |w| ==> w'[i] == w[i];
    assert w'[|w|] == line;
    if TwoMatch(w') {
      var i, j :| 0 <= i < j < |w'| && IsTitleLine(w'[i]) && IsTitleLine(w'[j]);
      assert IsTitleLine(w[i]) && IsTitleLine(w[j]);
    }
    if TwoMatch(w) {
      var i, j :| 0 <= i < j < |w| && IsTitleLine(w[i]) && IsTitleLine(w[j]);
      assert IsTitleLine(w'[i]) && IsTitleLine(w'[j]);
    }
  }

  /** A miss on the next line leaves the last hit, and a sole hit, where
      they were. */
  lemma {:induction false} MissKeepsLastHit(w: seq<string>, line: string, k: int)
    requires !IsTitleLine(line)
    ensures LastMatchAt(w, k) ==> LastMatchAt(w + [line], k)
    ensures OnlyMatchAt(w, k) ==> OnlyMatchAt(w + [line], k)
  {
    var w' := w + [line];
    assert forall i :: 0 <= i < |w| ==> w'[i] == w[i];
    assert w'[|w|] == line;
  }

  /** A miss on the next line: the state, and what it says, carry over. */
  lemma {:induction false} StepOnOtherLine(w: seq<string>, s: ScanState, line: string)
    requires Summarizes(w, s)
    requires !IsTitleLine(line)
    ensures Summarizes(w + [line], Step(s, line))
  {
    var w' := w + [line];
    MissKeepsHits(w, line);
    if s.titleLine.Some? {
      var k :| LastMatchAt(w, k) && s.titleLine.value == StripPrefix(w[k]);
      MissKeepsLastHit(w, line, k);
      assert w'[k] == w[k];
    }
    if s.countMatched == 1 {
      var k :| OnlyMatchAt(w, k) && s.titleLine.value == StripPrefix(w[k]);
      MissKeepsLastHit(w, line, k);
      assert w'[k] == w[k];
    }
  }

  /** The search loop run over `w`, front to back: one `Step` per line. */
  function Scan(w: seq<string>): ScanState
  {
    if |w| == 0 then ScanState(None, 0) else Step(Scan(w[..|w| - 1]), w[|w| - 1])
  }

  /** The loop state after scanning `w` keeps the LAST hit's remainder and
      counts the hits: none, exactly one, or several. */
  lemma {:induction false} ScanSummarizes(w: seq<string>)
    ensures Summarizes(w, Scan(w))
  {
    if |w| > 0 {
      var front, line := w[..|w| - 1], w[|w| - 1];
      assert front + [line] == w;
      ScanSummarizes(front);
      if IsTitleLine(line) {
        StepOnTitleLine(front, Scan(front), line);
      } else {
        StepOnOtherLine(front, Scan(front), line);
      }
    }
  }

  /** Scanning one more line is one more loop iteration. */
  lemma ScanOneMore(w: seq<string>, k: int)
    requires 0 <= k < |w|
    ensures Scan(w[..k + 1]) == Step(Scan(w[..k]), w[k])
  {
    assert w[..k + 1][..k] == w[..k];
  }

  /** `find_book_title_in_text_file` with the default prefix: the title when
      exactly one line of the window matches, a failure otherwise. */
  function FindTitle(lines: seq<string>): (r: TitleOutcome)
    ensures r.NotFound? <==> NoneMatch(Window(lines))
    ensures r.Ambiguous? <==> TwoMatch(Window(lines))
    ensures r.Found? ==>
      exists k :: OnlyMatchAt(Window(lines), k) && r.title == StripPrefix(lines[k])
  {
    var s := Scan(Window(lines));
    ScanSummarizes(Window(lines));
    if s.titleLine.Some? && s.countMatched == 1 then Found(s.titleLine.value)
    else if s.countMatched == 0 then NotFound
    else Ambiguous(s.countMatched)
  }

  /** Conversely: whenever line `k` of the window is its only title line, the
      search finds exactly that line's remainder. */
  lemma {:induction false} SoleMatchIsFound(lines: seq<string>, k: int)
    requires OnlyMatchAt(Window(lines), k)
    ensures FindTitle(lines) == Found(StripPrefix(lines[k]))
  {
    var w := Window(lines);
    var r := FindTitle(lines);
    assert !NoneMatch(w) by { assert IsTitleLine(w[k]); }
    var k' :| OnlyMatchAt(w, k') && r.title == StripPrefix(lines[k']);
    assert k' == k;
  }

  /** Only the first `SearchWindow` lines decide the result: two files that
      agree on them (line for line, and on which of them exist) have the
      same title outcome, whatever follows. */
  lemma {:induction false} OnlyWindowMatters(a: seq<string>, b: seq<string>)
    requires |a| < SearchWindow || |b| < SearchWindow ==> |a| == |b|
    requires forall i :: 0 <= i < SearchWindow && i < |a| && i < |b| ==> a[i] == b[i]
    ensures FindTitle(a) == FindTitle(b)
  {
    var wa, wb := Window(a), Window(b);
    assert |wa| == |wb|;
    forall i | 0 <= i < |wa| ensures wa[i] == wb[i] {
      assert a[i] == b[i];
    }
    assert wa == wb;
  }

  /** Appending lines to a file that already fills the window never changes
      the title outcome. */
  lemma {:induction false} AppendingBeyondWindowIgnored(lines: seq<string>, more: seq<string>)
    requires |lines| >= SearchWindow
    ensures FindTitle(lines + more) == FindTitle(lines)
  {
    OnlyWindowMatters(lines + more, lines);
  }

  /** Replacing a line at index `SearchWindow` or later never changes the
      title outcome. */
  lemma {:induction false} ChangingBeyondWindowIgnored(lines: seq<string>, i: int, line: string)
    requires SearchWindow <= i < |lines|
    ensures FindTitle(lines[i := line]) == FindTitle(lines)
  {
    OnlyWindowMatters(lines[i := line], lines);
  }

  /** The whole line lowered character by character, as the regex engine
      lowers it for comparison. */
  function LowerLine(line: string): string
  {
    seq(|line|, i requires 0 <= i < |line| => SimpleLower(line[i]))
  }

  /** Matching ignores case: a line matches exactly when its lowered form
      does. */
  lemma MatchIgnoresCase(line: string)
    ensures IsTitleLine(line) <==> IsTitleLine(LowerLine(line))
  {
  }

  /** The anchor is at the start of the line: a line whose first character
      cannot begin `Title:` (a leading space, say) never matches, whatever
      follows. */
  lemma LeadingCharacterMustMatch(c: char, rest: string)
    requires SimpleLower(c) != 't'
    ensures !IsTitleLine([c] + rest)
  {
    assert ([c] + rest)[0] == c;
  }

  /** Whether a line matches is decided by its first `|TitleLiteral|`
      characters alone. */
  lemma {:induction false} HeadDecides(head: string, rest: string)
    requires |head| == |TitleLiteral|
    ensures IsTitleLine(head + rest) <==> IsTitleLine(head)
  {
    assert forall i :: 0 <= i < |head| ==> (head + rest)[i] == head[i];
  }

  /** The usual spellings of the prefix are themselves title lines. */
  lemma CapitalisationsMatch()
    ensures IsTitleLine("Title:") && IsTitleLine("title:") && IsTitleLine("TITLE:")
  {
    assert SimpleLower('T') == 't' && SimpleLower('I') == 'i' && SimpleLower('L') == 'l' && SimpleLower('E') == 'e';
    assert IsTitleLine("Title:") by {
      forall i | 0 <= i < |TitleLiteral| ensures MatchesLiteralChar("Title:"[i], TitleLiteral[i]) {}
    }
    assert IsTitleLine("TITLE:") by {
      forall i | 0 <= i < |TitleLiteral| ensures MatchesLiteralChar("TITLE:"[i], TitleLiteral[i]) {}
    }
  }

  /** Any capitalisation of `Title:` at the start of a line matches; with a
      space in front it does not. */
  lemma AnyCaseOfPrefixMatches(rest: string)
    ensures IsTitleLine("Title:" + rest)
    ensures IsTitleLine("title:" + rest)
    ensures IsTitleLine("TITLE:" + rest)
    ensures !IsTitleLine(" Title:" + rest)
  {
    CapitalisationsMatch();
    HeadDecides("Title:", rest);
    HeadDecides("title:", rest);
    HeadDecides("TITLE:", rest);
    LeadingCharacterMustMatch(' ', "Title:" + rest);
    assert [' '] + ("Title:" + rest) == " Title:" + rest;
  }

  /** The two header lines of the Project Gutenberg example, one by one:
      seven characters are sliced off the title line, so the space after the
      colon goes too and the newline stays. */
  lemma MobyDickLines()
    ensures IsTitleLine("Title: Moby Dick\n")
    ensures StripPrefix("Title: Moby Dick\n") == "Moby Dick\n"
    ensures !IsTitleLine("Author: Melville\n")
  {
    var first, second := "Title: Moby Dick\n", "Author: Melville\n";
    assert IsTitleLine(first) by {
      assert first[0] == 'T' && first[1] == 'i' && first[2] == 't';
      assert first[3] == 'l' && first[4] == 'e' && first[5] == ':';
    }
    assert !IsTitleLine(second) by {
      assert second[0] == 'A';
    }
  }

  /** The Project Gutenberg header case: the title keeps its newline and
      loses the space after the colon. */
  lemma MobyDickExample()
    ensures FindTitle(["Title: Moby Dick\n", "Author: Melville\n"]) == Found("Moby Dick\n")
  {
    var lines := ["Title: Moby Dick\n", "Author: Melville\n"];
    MobyDickLines();
    assert OnlyMatchAt(Window(lines), 0);
    SoleMatchIsFound(lines, 0);
  }

  /** The search loop of the source, over the window, with the source's
      three loop variables. */
  method FindBookTitle(lines: seq<string>) returns (r: TitleOutcome)
    ensures r == FindTitle(lines)
  {
    var window := Window(lines);
    var titleLine: Option<string> := None;
    var lineMatched := false;
    var countMatched: nat := 0;
    var k := 0;
    while k < |window|
      invariant 0 <= k <= |window|
      invariant Scan(window[..k]) == ScanState(titleLine, countMatched)
      invariant lineMatched <==> titleLine.Some?
    {
      var line := window[k];
      ScanOneMore(window, k);
      if IsTitleLine(line) {
        titleLine := Some(StripPrefix(line));
        lineMatched := true;
        countMatched := countMatched + 1;
      }
      k := k + 1;
    }
    assert window[..k] == window;
    if lineMatched && countMatched == 1 {
      r := Found(titleLine.value);
    } else if countMatched == 0 {
      r := NotFound;
    } else {
      r := Ambiguous(countMatched);
    }
  }
}
