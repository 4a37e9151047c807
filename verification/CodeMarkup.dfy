/**
 Printing inline code and fenced code blocks, and reading them back by the rules of
 CommonMark 0.31.2 (section 6.1 for code spans, section 4.5 for fenced code blocks).
 */
module CodeMarkup {
  import opened Wrappers
  import opened Characters
  import opened Backticks

  function Max(a: nat, b: nat): nat { if a < b then b else a }

  /** The length of the longest backtick run of `s[i..]`. */
  function LongestRunFrom(s: string, i: nat): nat
    requires i <= |s|
    decreases |s| - i
  {
    if i == |s| then 0
    else if s[i] != '`' then LongestRunFrom(s, i + 1)
    else Max(RunEnd(s, i) - i, LongestRunFrom(s, RunEnd(s, i)))
  }

  function LongestBacktickRun(s: string): nat {
    LongestRunFrom(s, 0)
  }

  function Ticks(n: nat): (r: string)
    ensures |r| == n && forall k :: 0 <= k < n ==> r[k] == '`'
  {
    seq(n, _ => '`')
  }

  // ----- Printing -----

  predicate IsTickOrSpace(c: char) { c == '`' || c == ' ' }

  /** Padding keeps the code apart from its delimiters and protects its own outer spaces. */
  predicate NeedsPadding(code: string) {
    code != "" && (IsTickOrSpace(code[0]) || IsTickOrSpace(code[|code| - 1]))
  }

  function Padded(code: string): string {
    if NeedsPadding(code) then " " + code + " " else code
  }

  function InlineCode(code: string): string {
    var delimiter := Ticks(LongestBacktickRun(code) + 1);
    delimiter + Padded(code) + delimiter
  }

  function FenceLength(content: string): nat {
    Max(LongestBacktickRun(content) + 1, 3)
  }

  /** The content, ended by a line feed unless it is empty. */
  function Terminated(content: string): string {
    if content == "" || content[|content| - 1] == '\n' then content else content + "\n"
  }

  function FencedBlock(language: string, content: string): string {
    var fence := Ticks(FenceLength(content));
    fence + language + "\n" + Terminated(content) + fence
  }

  // ----- Reading, section 6.1 -----

  /** The start of the first backtick string of exactly `n` backticks at or after `i`. */
  function FindCloser(s: string, i: nat, n: nat): (r: Option<nat>)
    requires i <= |s|
    ensures r.Some? ==> i <= r.value && r.value + n <= |s|
    decreases |s| - i
  {
    if i == |s| then None
    else if s[i] != '`' then FindCloser(s, i + 1, n)
    else if RunEnd(s, i) - i == n then Some(i)
    else FindCloser(s, RunEnd(s, i), n)
  }

  /** Line endings become spaces. */
  function LineEndingsToSpaces(s: string): string {
    if s == "" then ""
    else if s[0] == '\r' && |s| > 1 && s[1] == '\n' then " " + LineEndingsToSpaces(s[2..])
    else if s[0] == '\r' || s[0] == '\n' then " " + LineEndingsToSpaces(s[1..])
    else [s[0]] + LineEndingsToSpaces(s[1..])
  }

  predicate HasNonSpace(s: string) {
    exists k :: 0 <= k < |s| && s[k] != ' '
  }

  /** One space is dropped at each end when both ends have one and not all is space. */
  function StripOuterSpaces(s: string): string {
    if |s| >= 2 && s[0] == ' ' && s[|s| - 1] == ' ' && HasNonSpace(s) then s[1..|s| - 1] else s
  }

  /** The code span that opens with the backtick string at `p`: its text and its end. */
  function ReadCodeSpan(s: string, p: nat): Option<(string, nat)>
    requires p <= |s|
  {
    var n := RunEnd(s, p) - p;
    if n == 0 then None
    else
      match FindCloser(s, p + n, n)
      case None => None
      case Some(close) => Some((StripOuterSpaces(LineEndingsToSpaces(s[p + n..close])), close + n))
  }

  // ----- Runs inside a larger text -----

  /** `d` stands in `s` at `p`, and its last run is not prolonged by what follows. */
  ghost predicate Separate(s: string, p: nat, d: string) {
    && p + |d| <= |s| && s[p..p + |d|] == d
    && (d == "" || d[|d| - 1] != '`' || p + |d| == |s| || s[p + |d|] != '`')
  }

  lemma {:induction false} RunEndInside(s: string, p: nat, d: string, j: nat)
    requires Separate(s, p, d) && j < |d|
    ensures RunEnd(s, p + j) == p + RunEnd(d, j)
    decreases |d| - j
  {
    assert s[p + j] == s[p..p + |d|][j];
    if d[j] == '`' && j + 1 < |d| {
      RunEndInside(s, p, d, j + 1);
    }
  }

  lemma {:induction false} RunsAreAtMostLongest(s: string, i: nat, j: nat)
    requires i <= j < |s|
    ensures RunEnd(s, j) - j <= LongestRunFrom(s, i)
    decreases |s| - i
  {
    if s[i] != '`' {
      if i < j {
        RunsAreAtMostLongest(s, i + 1, j);
      }
    } else if RunEnd(s, i) <= j {
      RunsAreAtMostLongest(s, RunEnd(s, i), j);
    } else {
      RunEndFromInside(s, i, j);
    }
  }

  lemma {:induction false} RunEndFromInside(s: string, i: nat, j: nat)
    requires i < |s| && i <= j < RunEnd(s, i)
    ensures RunEnd(s, j) == RunEnd(s, i)
    decreases j - i
  {
    if i < j {
      RunEndFromInside(s, i + 1, j);
    }
  }

  lemma RunEndOfTicks(s: string, p: nat, n: nat)
    requires p + n <= |s| && s[p..p + n] == Ticks(n) && (p + n < |s| ==> s[p + n] != '`')
    ensures RunEnd(s, p) == p + n
  {
    assert forall k :: p <= k < p + n ==> s[k] == s[p..p + n][k - p];
    RunEndIs(s, p, p + n);
  }

  // ----- Round trip of inline code -----

  /** Every backtick string of `d` is shorter than `n`, and none touches its ends. */
  ghost predicate ShortRuns(d: string, n: nat) {
    && d != "" && d[0] != '`' && d[|d| - 1] != '`'
    && forall j :: 0 <= j < |d| ==> RunEnd(d, j) - j < n
  }

  lemma PaddedHasShortRuns(code: string)
    requires code != ""
    ensures ShortRuns(Padded(code), LongestBacktickRun(code) + 1)
  {
    forall j | 0 <= j < |code|
      ensures RunEnd(code, j) - j <= LongestBacktickRun(code)
    {
      RunsAreAtMostLongest(code, 0, j);
    }
    if NeedsPadding(code) {
      var d := " " + code + " ";
      forall j | 0 <= j < |d|
        ensures RunEnd(d, j) - j < LongestBacktickRun(code) + 1
      {
        if 0 < j <= |code| {
          RunEndInside(d, 1, code, j - 1);
        }
      }
    }
  }

  lemma {:induction false} CloserIsFoundAfterBody(s: string, p: nat, d: string, n: nat, j: nat)
    requires p + |d| + n <= |s| && s[p..p + |d|] == d && ShortRuns(d, n) && j <= |d| && n > 0
    requires s[p + |d|] == '`' && RunEnd(s, p + |d|) == p + |d| + n
    ensures FindCloser(s, p + j, n) == Some(p + |d|)
    decreases |d| - j
  {
    if j < |d| {
      assert s[p + j] == s[p..p + |d|][j];
      if d[j] == '`' {
        RunEndInside(s, p, d, j);
        CloserIsFoundAfterBody(s, p, d, n, RunEnd(d, j));
      } else {
        CloserIsFoundAfterBody(s, p, d, n, j + 1);
      }
    }
  }

  /** `s` holds at `b` the text `d` between two strings of `n` backticks. */
  ghost predicate Delimited(s: string, b: nat, n: nat, d: string) {
    && b + n + |d| + n <= |s|
    && s[b..b + n] == Ticks(n) && s[b + n..b + n + |d|] == d
    && s[b + n + |d|..b + n + |d| + n] == Ticks(n)
  }

  /** Both delimiters of a delimited text are maximal backtick strings. */
  lemma DelimiterRuns(s: string, b: nat, n: nat, d: string)
    requires n > 0 && Delimited(s, b, n, d) && ShortRuns(d, n)
    requires b + n + |d| + n < |s| ==> s[b + n + |d| + n] != '`'
    ensures RunEnd(s, b) == b + n && RunEnd(s, b + n + |d|) == b + n + |d| + n
    ensures s[b + n + |d|] == '`' && s[b + n..b + n + |d|] == d
  {
    hide RunEnd;
    var close := b + n + |d|;
    assert s[b + n] == s[b + n..b + n + |d|][0];
    assert s[close] == s[close..close + n][0];
    RunEndOfTicks(s, b, n);
    RunEndOfTicks(s, close, n);
  }

  lemma DelimitedIsRead(s: string, b: nat, n: nat, d: string)
    requires n > 0 && Delimited(s, b, n, d) && ShortRuns(d, n)
    requires b + n + |d| + n < |s| ==> s[b + n + |d| + n] != '`'
    ensures ReadCodeSpan(s, b) == Some((StripOuterSpaces(LineEndingsToSpaces(d)), b + n + |d| + n))
  {
    hide RunEnd, FindCloser, LineEndingsToSpaces, StripOuterSpaces, Ticks, ShortRuns, Delimited;
    DelimiterRuns(s, b, n, d);
    CloserIsFoundAfterBody(s, b + n, d, n, 0);
    var p := b + n;
    assert FindCloser(s, p, n) == Some(p + |d|);
    assert s[p..p + |d|] == d;
  }

  /** The printed code is read back as its padded form with the outer spaces handled. */
  lemma PrintedCodeIsRead(before: string, code: string, after: string)
    requires code != ""
    requires after == "" || after[0] != '`'
    ensures ReadCodeSpan(before + InlineCode(code) + after, |before|)
         == Some((StripOuterSpaces(LineEndingsToSpaces(Padded(code))), |before| + |InlineCode(code)|))
  {
    hide Padded, Ticks, LongestBacktickRun, ReadCodeSpan, ShortRuns, StripOuterSpaces, LineEndingsToSpaces;
    var n := LongestBacktickRun(code) + 1;
    PaddedHasShortRuns(code);
    var s := before + InlineCode(code) + after;
    assert after != "" ==> s[|before| + |InlineCode(code)|] == after[0];
    DelimitedIsRead(s, |before|, n, Padded(code));
  }

  lemma PrintedAloneIsRead(code: string)
    requires code != ""
    ensures ReadCodeSpan(InlineCode(code), 0)
         == Some((StripOuterSpaces(LineEndingsToSpaces(Padded(code))), |InlineCode(code)|))
  {
    hide InlineCode, Padded, ReadCodeSpan, StripOuterSpaces, LineEndingsToSpaces;
    PrintedCodeIsRead("", code, "");
    assert "" + InlineCode(code) + "" == InlineCode(code);
  }

  predicate HasLineEnding(s: string) {
    exists k :: 0 <= k < |s| && (s[k] == '\n' || s[k] == '\r')
  }

  lemma {:induction false} NoLineEndingsLeft(s: string)
    ensures !HasLineEnding(LineEndingsToSpaces(s))
    ensures !HasLineEnding(s) ==> LineEndingsToSpaces(s) == s
    decreases |s|
  {
    if s != "" {
      if s[0] == '\r' && |s| > 1 && s[1] == '\n' {
        NoLineEndingsLeft(s[2..]);
      } else {
        NoLineEndingsLeft(s[1..]);
        if HasLineEnding(s[1..]) {
          var k :| 0 <= k < |s[1..]| && (s[1..][k] == '\n' || s[1..][k] == '\r');
          assert s[k + 1] == s[1..][k];
        }
      }
    }
  }

  /** Inline code of one line with something visible in it survives printing and reading, in any context. */
  lemma InlineCodeRoundTrip(before: string, code: string, after: string)
    requires HasNonSpace(code) && !HasLineEnding(code)
    requires after == "" || after[0] != '`'
    ensures ReadCodeSpan(before + InlineCode(code) + after, |before|) == Some((code, |before| + |InlineCode(code)|))
  {
    hide InlineCode, Padded, ReadCodeSpan, StripOuterSpaces, LineEndingsToSpaces, HasNonSpace, HasLineEnding;
    NonSpaceIsSome(code);
    PrintedCodeIsRead(before, code, after);
    PaddingKeepsLineEndings(code);
    NoLineEndingsLeft(Padded(code));
    StrippingUndoesPadding(code);
  }

  lemma NonSpaceIsSome(code: string)
    ensures HasNonSpace(code) ==> code != ""
  {
  }

  lemma StrippingUndoesPadding(code: string)
    requires HasNonSpace(code)
    ensures StripOuterSpaces(Padded(code)) == code
  {
    var d := Padded(code);
    if NeedsPadding(code) {
      var k :| 0 <= k < |code| && code[k] != ' ';
      assert d[k + 1] == code[k] && d[1..|d| - 1] == code;
    }
  }

  lemma PaddingKeepsLineEndings(code: string)
    ensures HasLineEnding(Padded(code)) <==> HasLineEnding(code)
  {
    var d := Padded(code);
    if HasLineEnding(code) {
      var k :| 0 <= k < |code| && (code[k] == '\n' || code[k] == '\r');
      assert d[if NeedsPadding(code) then k + 1 else k] == code[k];
    }
    if HasLineEnding(d) {
      var k :| 0 <= k < |d| && (d[k] == '\n' || d[k] == '\r');
      assert code[if NeedsPadding(code) then k - 1 else k] == d[k];
    }
  }

  /** Printed on its own, code is read back unchanged exactly when it is one line and not blank. */
  lemma InlineCodeRoundTripIff(code: string)
    ensures ReadCodeSpan(InlineCode(code), 0) == Some((code, |InlineCode(code)|))
       <==> HasNonSpace(code) && !HasLineEnding(code)
  {
    if code == "" {
    } else {
      hide InlineCode, Padded, ReadCodeSpan, StripOuterSpaces, LineEndingsToSpaces, HasNonSpace, HasLineEnding;
      PrintedAloneIsRead(code);
      PaddingKeepsLineEndings(code);
      NoLineEndingsLeft(Padded(code));
      if HasLineEnding(code) && StripOuterSpaces(LineEndingsToSpaces(Padded(code))) == code {
        assert false;
      }
    }
  }

  // ----- Reading, section 4.5 -----

  predicate IsLineEnding(c: char) { c == '\n' || c == '\r' }

  /** The end of the line that holds position `i`, before its line ending. */
  function LineEnd(s: string, i: nat): (e: nat)
    requires i <= |s|
    ensures i <= e <= |s|
    decreases |s| - i
  {
    if i == |s| || IsLineEnding(s[i]) then i else LineEnd(s, i + 1)
  }

  /** The start of the line after the line ending at `e`. */
  function NextLine(s: string, e: nat): (n: nat)
    requires e < |s|
    ensures e < n <= |s|
  {
    if s[e] == '\r' && e + 1 < |s| && s[e + 1] == '\n' then e + 2 else e + 1
  }

  /** At most `budget` spaces are skipped. */
  function SkipSpaces(s: string, i: nat, budget: nat): (j: nat)
    requires i <= |s|
    ensures i <= j <= |s|
    decreases |s| - i
  {
    if budget > 0 && i < |s| && s[i] == ' ' then SkipSpaces(s, i + 1, budget - 1) else i
  }

  predicate BlankToLineEnd(s: string, i: nat)
    requires i <= |s|
    decreases |s| - i
  {
    i == |s| || IsLineEnding(s[i]) || ((s[i] == ' ' || s[i] == '\t') && BlankToLineEnd(s, i + 1))
  }

  /** The line at `i` closes a fence of `n` backticks. */
  predicate ClosesFence(s: string, i: nat, n: nat)
    requires i <= |s|
  {
    var j := SkipSpaces(s, i, 3);
    RunEnd(s, j) - j >= n && BlankToLineEnd(s, RunEnd(s, j))
  }

  /** The start of the first line, from the line start `i` on, that closes the fence. */
  function FindClosingLine(s: string, i: nat, n: nat): Option<nat>
    requires i <= |s|
    decreases |s| - i
  {
    if ClosesFence(s, i, n) then Some(i)
    else if LineEnd(s, i) == |s| then None
    else FindClosingLine(s, NextLine(s, LineEnd(s, i)), n)
  }

  /** A backtick-fenced block at the start of `s`: its info string and its content. */
  function ReadFencedBlock(s: string): Option<(string, string)> {
    var n := RunEnd(s, 0);
    var e := LineEnd(s, n);
    if n < 3 || e == |s| || LongestBacktickRun(s[n..e]) > 0 then None
    else
      match FindClosingLine(s, NextLine(s, e), n)
      case None => None
      case Some(close) => if NextLine(s, e) <= close <= |s| then Some((s[n..e], s[NextLine(s, e)..close])) else None
  }

  /** The characters the renderer keeps of a fence's info string. */
  predicate IsLanguageChar(c: char) {
    IsAsciiAlphanumeric(c) || c == '-' || c == '_' || c == '+'
  }

  predicate IsLanguage(s: string) {
    forall k :: 0 <= k < |s| ==> IsLanguageChar(s[k])
  }

  lemma {:induction false} LineEndIs(s: string, i: nat, e: nat)
    requires i <= e <= |s| && (e == |s| || IsLineEnding(s[e]))
    requires forall k :: i <= k < e ==> !IsLineEnding(s[k])
    ensures LineEnd(s, i) == e
    decreases e - i
  {
    if i < e {
      LineEndIs(s, i + 1, e);
    }
  }

  lemma {:induction false} LineEndsBefore(s: string, i: nat, c: nat)
    requires i < c <= |s| && s[c - 1] == '\n'
    ensures LineEnd(s, i) < c && NextLine(s, LineEnd(s, i)) <= c
    decreases c - i
  {
    if !IsLineEnding(s[i]) {
      LineEndsBefore(s, i + 1, c);
    }
  }

  lemma {:induction false} SkipSpacesStays(s: string, i: nat, budget: nat, c: nat)
    requires i < c <= |s| && s[c - 1] == '\n'
    ensures SkipSpaces(s, i, budget) < c
    decreases c - i
  {
    if budget > 0 && s[i] == ' ' {
      SkipSpacesStays(s, i + 1, budget - 1, c);
    }
  }

  /** No backtick string of `s[a..c]` is as long as the fence, and a line feed ends that part. */
  ghost predicate FencedRegion(s: string, a: nat, c: nat, n: nat) {
    && a <= c <= |s| && (a < c ==> s[c - 1] == '\n')
    && forall j :: a <= j < c ==> RunEnd(s, j) - j < n
  }

  /** Content cannot close its own fence: the first closing line is the one after it. */
  lemma {:induction false} ContentDoesNotClose(s: string, a: nat, c: nat, n: nat)
    requires FencedRegion(s, a, c, n) && ClosesFence(s, c, n)
    ensures FindClosingLine(s, a, n) == Some(c)
    decreases c - a
  {
    if a < c {
      SkipSpacesStays(s, a, 3, c);
      LineEndsBefore(s, a, c);
      assert !ClosesFence(s, a, n);
      ContentDoesNotClose(s, NextLine(s, LineEnd(s, a)), c, n);
    }
  }

  /** The content with its terminator has no longer run than the content itself. */
  lemma TerminatedHasShortRuns(content: string, j: nat)
    requires j < |Terminated(content)|
    ensures RunEnd(Terminated(content), j) - j < FenceLength(content)
  {
    if j < |content| {
      RunsAreAtMostLongest(content, 0, j);
      RunEndInside(Terminated(content), 0, content, j);
    }
  }

  /** `s` is a fence, a language, a line feed, the content and the fence again. */
  ghost predicate FenceLayout(s: string, language: string, content: string) {
    var n := FenceLength(content);
    var a := n + |language| + 1;
    var c := a + |Terminated(content)|;
    && c + n == |s|
    && s[0..n] == Ticks(n) && s[n..n + |language|] == language && s[n + |language|] == '\n'
    && s[a..c] == Terminated(content) && s[c..c + n] == Ticks(n)
  }

  lemma FencedBlockLayout(language: string, content: string)
    ensures FenceLayout(FencedBlock(language, content), language, content)
  {
    hide Terminated, FenceLength, Ticks;
  }

  lemma ContentIsFencedRegion(s: string, language: string, content: string)
    requires FenceLayout(s, language, content)
    ensures var n := FenceLength(content);
      var c := n + |language| + 1 + |Terminated(content)|;
      FencedRegion(s, n + |language| + 1, c, n) && ClosesFence(s, c, n)
  {
    var d := Terminated(content);
    var n := FenceLength(content);
    var a := n + |language| + 1;
    var c := a + |d|;
    if a < c {
      assert s[c - 1] == s[a..c][|d| - 1];
    }
    forall j | a <= j < c
      ensures RunEnd(s, j) - j < n
    {
      TerminatedHasShortRuns(content, j - a);
      RunEndInside(s, a, d, j - a);
    }
    RunEndOfTicks(s, c, n);
    assert s[c] == s[c..c + n][0];
  }

  lemma LanguageLine(s: string, language: string, content: string)
    requires FenceLayout(s, language, content) && IsLanguage(language)
    ensures var n := FenceLength(content);
      RunEnd(s, 0) == n && LineEnd(s, n) == n + |language| && LongestBacktickRun(language) == 0
  {
    var n := FenceLength(content);
    assert forall k :: n <= k < n + |language| ==> s[k] == s[n..n + |language|][k - n];
    LineEndIs(s, n, n + |language|);
    RunEndOfTicks(s, 0, n);
    NoTicksNoRun(language, 0);
  }

  lemma {:induction false} NoTicksNoRun(s: string, i: nat)
    requires i <= |s| && forall k :: i <= k < |s| ==> s[k] != '`'
    ensures LongestRunFrom(s, i) == 0
    decreases |s| - i
  {
    if i < |s| {
      NoTicksNoRun(s, i + 1);
    }
  }

  /** A printed block is read back with its language and its whole content: nothing in the content closes it. */
  lemma FencedBlockRoundTrip(language: string, content: string)
    requires IsLanguage(language)
    ensures ReadFencedBlock(FencedBlock(language, content))
         == Some((language, if content == "" || content[|content| - 1] == '\n' then content else content + "\n"))
  {
    hide FencedBlock, Terminated, FenceLength, Ticks, RunEnd, LineEnd, FindClosingLine, ClosesFence,
        LongestBacktickRun, IsLanguage, FencedRegion;
    var s := FencedBlock(language, content);
    FencedBlockLayout(language, content);
    LanguageLine(s, language, content);
    ContentIsFencedRegion(s, language, content);
    var n := FenceLength(content);
    ContentDoesNotClose(s, n + |language| + 1, n + |language| + 1 + |Terminated(content)|, n);
    FenceLengthIsAtLeastThree(content);
    TerminatedMeaning(content);
  }

  lemma TerminatedMeaning(content: string)
    ensures Terminated(content)
         == if content == "" || content[|content| - 1] == '\n' then content else content + "\n"
  {
  }

  lemma FenceLengthIsAtLeastThree(content: string)
    ensures FenceLength(content) >= 3
  {
  }

  // ----- The length of the delimiters -----

  ghost predicate TicksAt(s: string, a: nat, n: nat) {
    a + n <= |s| && forall k :: a <= k < a + n ==> s[k] == '`'
  }

  /** Somewhere in `s` stand `n` backticks in a row, and nowhere more. */
  ghost predicate LongestRow(s: string, n: nat) {
    (exists a: nat :: TicksAt(s, a, n)) && forall a: nat, m: nat :: TicksAt(s, a, m) ==> m <= n
  }

  lemma {:induction false} LongestRunIsThere(s: string, i: nat) returns (a: nat)
    requires i <= |s|
    ensures i <= a && TicksAt(s, a, LongestRunFrom(s, i))
    decreases |s| - i
  {
    hide RunEnd;
    if i == |s| {
      a := i;
    } else if s[i] != '`' {
      a := LongestRunIsThere(s, i + 1);
    } else {
      RunEndIsMaximal(s, i);
      a := LongestRunIsThere(s, RunEnd(s, i));
      if RunEnd(s, i) - i >= LongestRunFrom(s, RunEnd(s, i)) {
        a := i;
      }
    }
  }

  lemma {:induction false} NoRowIsLonger(s: string, i: nat, a: nat, m: nat)
    requires i <= a && m > 0 && TicksAt(s, a, m)
    ensures m <= LongestRunFrom(s, i)
    decreases |s| - i
  {
    hide RunEnd;
    if s[i] != '`' {
      NoRowIsLonger(s, i + 1, a, m);
    } else {
      var e := RunEnd(s, i);
      RunEndIsMaximal(s, i);
      if e <= a {
        NoRowIsLonger(s, e, a, m);
      } else if e < |s| {
        assert s[e] != '`';
      }
    }
  }

  /**
   Delimiters are as short as their content allows: of inline code one backtick longer than its
   longest row of them, of a block at least three and also one longer.
   */
  lemma DelimitersAreShortest(s: string, n: nat)
    requires LongestRow(s, n)
    ensures FenceLength(s) == if n < 3 then 3 else n + 1
    ensures var tight := s == "" || (s[0] !in {'`', ' '} && s[|s| - 1] !in {'`', ' '});
      InlineCode(s) == Ticks(n + 1) + (if tight then s else " " + s + " ") + Ticks(n + 1)
  {
    var a := LongestRunIsThere(s, 0);
    var b: nat :| TicksAt(s, b, n);
    if n > 0 {
      NoRowIsLonger(s, 0, b, n);
    }
    assert LongestBacktickRun(s) == n;
  }
}
