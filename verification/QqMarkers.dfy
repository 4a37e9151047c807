/**
 In runs of text events no text can turn into a Markdown block marker, and how the parser splits
 text into events does not matter.
 */
module QqMarkers {
  import opened Wrappers
  import opened Characters
  import opened CodeMarkup
  import opened QqRenderer

  // ----- Classification -----

  /** The characters the classifier looks at. */
  predicate Matters(c: char) {
    c in {'#', '-', '+', '=', '.', ')'} || IsAsciiDigit(c) || IsWhitespace(c)
  }

  /** The two texts agree wherever the classifier looks. */
  ghost predicate LooksLike(s: string, t: string) {
    |s| == |t| && forall k :: 0 <= k < |s| ==> s[k] == t[k] || (!Matters(s[k]) && !Matters(t[k]))
  }

  lemma {:induction false} LooksLikeLeading(s: string, t: string)
    requires LooksLike(s, t)
    ensures LeadingHashes(s) == LeadingHashes(t) && LeadingDigits(s) == LeadingDigits(t)
  {
    if s != "" {
      LooksLikeLeading(s[1..], t[1..]);
    }
  }

  lemma {:induction false} LooksLikeOnly(s: string, t: string, c: char)
    requires LooksLike(s, t) && (c == '-' || c == '=')
    ensures OnlyCharOrSpace(s, c) == OnlyCharOrSpace(t, c) && CountOf(s, c) == CountOf(t, c)
  {
    if s != "" {
      LooksLikeOnly(s[1..], t[1..], c);
    }
  }

  lemma LooksLikeClassify(s: string, t: string, atLineEnd: bool)
    requires LooksLike(s, t)
    ensures Classify(s, atLineEnd) == Classify(t, atLineEnd)
  {
    hide LeadingHashes, LeadingDigits, OnlyCharOrSpace, CountOf, InRanges;
    LooksLikeLeading(s, t);
    LooksLikeOnly(s, t, '-');
    LooksLikeOnly(s, t, '=');
  }

  lemma {:induction false} LeadingGrows(s: string, c: char)
    ensures LeadingHashes(s) < |s| ==> LeadingHashes(s + [c]) == LeadingHashes(s)
    ensures LeadingDigits(s) < |s| ==> LeadingDigits(s + [c]) == LeadingDigits(s)
    ensures LeadingHashes(s) == |s| ==> LeadingHashes(s + [c]) == |s| + (if c == '#' then 1 else 0)
    ensures LeadingDigits(s) == |s| ==> LeadingDigits(s + [c]) == |s| + (if IsAsciiDigit(c) then 1 else 0)
  {
    if s != "" {
      assert (s + [c])[1..] == s[1..] + [c];
      LeadingGrows(s[1..], c);
    }
  }

  lemma {:induction false} OnlyGrows(s: string, c: char, x: char)
    ensures OnlyCharOrSpace(s + [x], c) ==> OnlyCharOrSpace(s, c)
  {
    if s != "" {
      assert (s + [x])[1..] == s[1..] + [x];
      OnlyGrows(s[1..], c, x);
    }
  }

  /** A line start once found safe stays safe, whatever the line goes on with. */
  lemma SafeStaysSafe(s: string, c: char)
    requires s != "" && Classify(s, false) == Safe
    ensures Classify(s + [c], false) == Safe
  {
    hide LeadingHashes, LeadingDigits, CountOf, InRanges;
    LeadingGrows(s, c);
    OnlyGrows(s, '-', c);
    OnlyGrows(s, '=', c);
    if |s| == 1 {
      assert OnlyCharOrSpace(s[1..], s[0]);
      assert s[0] == '-' ==> OnlyCharOrSpace(s, '-');
    }
    assert forall k :: 0 <= k < |s| ==> (s + [c])[k] == s[k];
  }

  /** A line that is safe while open is no marker when it ends. */
  lemma SafeIsNoMarker(s: string)
    requires Classify(s, false) == Safe
    ensures Classify(s, true) != MarkdownMarker
  {
  }

  // ----- Flushing -----

  lemma {:induction false} FlushedAt(s: string, i: nat, kind: PrefixClass, inLabel: bool, alnum: char -> bool, k: nat)
    requires i <= k < |s|
    ensures |FlushedFrom(s, i, kind, inLabel, alnum)| == |s| - i
    ensures FlushedFrom(s, i, kind, inLabel, alnum)[k - i] == FlushedChar(s, k, kind, inLabel, alnum)
    decreases k - i
  {
    if i < k {
      FlushedAt(s, i + 1, kind, inLabel, alnum, k);
    } else {
      FlushedLength(s, i, kind, inLabel, alnum);
    }
  }

  lemma {:induction false} FlushedLength(s: string, i: nat, kind: PrefixClass, inLabel: bool, alnum: char -> bool)
    requires i <= |s|
    ensures |FlushedFrom(s, i, kind, inLabel, alnum)| == |s| - i
    decreases |s| - i
  {
    if i < |s| {
      FlushedLength(s, i + 1, kind, inLabel, alnum);
    }
  }

  lemma FullWidthDoesNotMatter(c: char)
    requires c in {'＃', '－', '＋', '＝', '．', '）', '＼', '｀', '［', '］', '＜', '＞', '＊', '＿', '～', '｜', '（',
                   '_', '`'}
    ensures !Matters(c)
  {
    NotInRanges(c, WHITE_SPACE);
  }

  lemma LiteralKeepsWhatMatters(c: char, previous: Option<char>, next: Option<char>, alnum: char -> bool)
    ensures var r := SafeLiteralChar(c, previous, next, false, alnum);
      r == c || (!Matters(r) && !Matters(c))
  {
    hide InRanges;
    var r := SafeLiteralChar(c, previous, next, false, alnum);
    if r != c {
      FullWidthDoesNotMatter(r);
      NotInRanges(c, WHITE_SPACE);
    }
  }

  /** Text that is no marker is flushed into text that looks the same. */
  lemma FlushedLooksLike(s: string, kind: PrefixClass, alnum: char -> bool)
    requires kind != MarkdownMarker
    ensures LooksLike(FlushedFrom(s, 0, kind, false, alnum), s)
  {
    hide Matters, SafeLiteralChar;
    FlushedLength(s, 0, kind, false, alnum);
    forall k | 0 <= k < |s|
      ensures var r := FlushedFrom(s, 0, kind, false, alnum)[k]; r == s[k] || (!Matters(r) && !Matters(s[k]))
    {
      FlushedAt(s, 0, kind, false, alnum, k);
      LiteralKeepsWhatMatters(s[k], At(s, k - 1), At(s, k + 1), alnum);
    }
  }

  /** A full-width first character makes a line safe for good. */
  lemma UnmarkedStartIsSafe(t: string, atLineEnd: bool)
    requires t != "" && !Matters(t[0])
    ensures Classify(t, atLineEnd) == Safe
  {
  }

  lemma {:induction false} DigitsThenMark(s: string, t: string, n: nat)
    requires n == LeadingDigits(s) && n < |s| && n < |t|
    requires forall k :: 0 <= k < n ==> t[k] == s[k]
    requires !IsAsciiDigit(t[n])
    ensures LeadingDigits(t) == n
  {
    if n > 0 {
      DigitsThenMark(s[1..], t[1..], n - 1);
    }
  }

  lemma {:induction false} LeadingDigitsAreDigits(s: string)
    ensures forall k :: 0 <= k < LeadingDigits(s) ==> IsAsciiDigit(s[k])
  {
    if s != "" && IsAsciiDigit(s[0]) {
      LeadingDigitsAreDigits(s[1..]);
    }
  }

  /** An ordered-list marker loses its delimiter. */
  lemma FlushedNumberIsSafe(s: string, alnum: char -> bool, atLineEnd: bool)
    requires s != "" && IsAsciiDigit(s[0]) && Classify(s, atLineEnd) == MarkdownMarker
    ensures Classify(FlushedFrom(s, 0, MarkdownMarker, false, alnum), false) == Safe
  {
    hide Classify, InRanges;
    var n := LeadingDigits(s);
    var t := FlushedFrom(s, 0, MarkdownMarker, false, alnum);
    NumberMarkerShape(s, atLineEnd);
    FlushedLength(s, 0, MarkdownMarker, false, alnum);
    LeadingDigitsAreDigits(s);
    forall k | 0 <= k < n
      ensures t[k] == s[k]
    {
      FlushedAt(s, 0, MarkdownMarker, false, alnum, k);
    }
    FlushedAt(s, 0, MarkdownMarker, false, alnum, n);
    assert t[n] == '．' || t[n] == '）';
    DigitsThenMark(s, t, n);
    NumberWithoutDelimiterIsSafe(t, n);
  }

  lemma NumberMarkerShape(s: string, atLineEnd: bool)
    requires s != "" && IsAsciiDigit(s[0]) && Classify(s, atLineEnd) == MarkdownMarker
    ensures 0 < LeadingDigits(s) < |s| && (s[LeadingDigits(s)] == '.' || s[LeadingDigits(s)] == ')')
  {
  }

  lemma NumberWithoutDelimiterIsSafe(t: string, n: nat)
    requires 0 < n < |t| && n == LeadingDigits(t) && t[n] != '.' && t[n] != ')'
    ensures Classify(t, false) == Safe
  {
  }

  /** A flushed marker is a marker no longer. */
  lemma FlushedMarkerIsSafe(s: string, alnum: char -> bool, atLineEnd: bool)
    requires Classify(s, atLineEnd) == MarkdownMarker
    ensures Classify(FlushedFrom(s, 0, MarkdownMarker, false, alnum), false) == Safe
  {
    assert s != "";
    if IsAsciiDigit(s[0]) {
      FlushedNumberIsSafe(s, alnum, atLineEnd);
    } else {
      FlushedAt(s, 0, MarkdownMarker, false, alnum, 0);
      FullWidthDoesNotMatter(SafeMarkerChar(s, 0).value);
      UnmarkedStartIsSafe(FlushedFrom(s, 0, MarkdownMarker, false, alnum), false);
    }
  }

  /** Whatever is flushed at the end of a line leaves no marker. */
  lemma FlushedLineIsNoMarker(s: string, alnum: char -> bool)
    ensures Classify(FlushedFrom(s, 0, Classify(s, true), false, alnum), true) != MarkdownMarker
  {
    hide Classify, Matters;
    var kind := Classify(s, true);
    var t := FlushedFrom(s, 0, kind, false, alnum);
    if kind == MarkdownMarker {
      FlushedMarkerIsSafe(s, alnum, true);
      SafeIsNoMarker(t);
    } else {
      FlushedLooksLike(s, kind, alnum);
      LooksLikeClassify(t, s, true);
    }
  }

  /** A prefix flushed once it is decided leaves a line start that is safe for good. */
  lemma FlushedPrefixIsSafe(s: string, alnum: char -> bool)
    requires Classify(s, false) != Pending
    ensures var kind := if Classify(s, false) == Safe then Classify(s, false) else Classify(s, true);
      Classify(FlushedFrom(s, 0, kind, false, alnum), false) == Safe
  {
    hide LooksLike;
    if Classify(s, false) == Safe {
      FlushedLooksLike(s, Safe, alnum);
      LooksLikeClassify(FlushedFrom(s, 0, Safe, false, alnum), s, false);
    } else {
      FlushedMarkerIsSafe(s, alnum, true);
    }
  }

  // ----- Lines of the output -----

  /** The text after the last line feed. */
  function CurrentLine(s: string): string {
    if s == "" || s[|s| - 1] == '\n' then "" else CurrentLine(s[..|s| - 1]) + [s[|s| - 1]]
  }

  /** No line that a line feed ends is a block marker. */
  ghost predicate EndedLinesSafe(s: string) {
    s == ""
    || (EndedLinesSafe(s[..|s| - 1])
        && (s[|s| - 1] == '\n' ==> Classify(CurrentLine(s[..|s| - 1]), true) != MarkdownMarker))
  }

  /** No line of the text is a block marker. */
  ghost predicate LinesSafe(s: string) {
    EndedLinesSafe(s) && Classify(CurrentLine(s), true) != MarkdownMarker
  }

  /** `s[a..b]` is a whole line. */
  ghost predicate IsLine(s: string, a: nat, b: nat) {
    && a <= b <= |s|
    && (a == 0 || s[a - 1] == '\n') && (b == |s| || s[b] == '\n')
    && forall k :: a <= k < b ==> s[k] != '\n'
  }

  lemma {:induction false} CurrentLineIsTail(s: string, a: nat)
    requires IsLine(s, a, |s|)
    ensures CurrentLine(s) == s[a..]
  {
    if a < |s| {
      var shorter := s[..|s| - 1];
      assert IsLine(shorter, a, |shorter|);
      CurrentLineIsTail(shorter, a);
      assert s[a..] == shorter[a..] + [s[|s| - 1]];
    }
  }

  /** The recursive reading covers every line of the text. */
  lemma {:induction false} EveryLineIsSafe(s: string, a: nat, b: nat)
    requires LinesSafe(s) && IsLine(s, a, b)
    ensures Classify(s[a..b], true) != MarkdownMarker
  {
    EveryEndedLineIsSafe(s, a, b);
    if b == |s| {
      CurrentLineIsTail(s, a);
      assert s[a..b] == s[a..];
    }
  }

  lemma {:induction false} EveryEndedLineIsSafe(s: string, a: nat, b: nat)
    requires EndedLinesSafe(s) && IsLine(s, a, b)
    ensures b < |s| ==> Classify(s[a..b], true) != MarkdownMarker
    decreases |s|
  {
    if b < |s| {
      var shorter := s[..|s| - 1];
      assert IsLine(shorter, a, b);
      if b == |shorter| {
        CurrentLineIsTail(shorter, a);
      } else {
        EveryEndedLineIsSafe(shorter, a, b);
      }
      assert shorter[a..b] == s[a..b];
    }
  }

  lemma {:induction false} AppendWithoutBreak(s: string, t: string)
    requires forall k :: 0 <= k < |t| ==> t[k] != '\n'
    ensures CurrentLine(s + t) == CurrentLine(s) + t
    ensures EndedLinesSafe(s + t) == EndedLinesSafe(s)
    decreases |t|
  {
    if t == "" {
      assert s + t == s;
    } else {
      var shorter := t[..|t| - 1];
      assert (s + t)[..|s + t| - 1] == s + shorter;
      AppendWithoutBreak(s, shorter);
      assert t == shorter + [t[|t| - 1]];
    }
  }

  lemma AppendBreak(s: string)
    ensures CurrentLine(s + "\n") == ""
    ensures EndedLinesSafe(s + "\n") <==> EndedLinesSafe(s) && Classify(CurrentLine(s), true) != MarkdownMarker
  {
    assert (s + "\n")[..|s + "\n"| - 1] == s;
  }

  lemma {:induction false} StrippedLinesSafe(s: string)
    requires LinesSafe(s)
    ensures LinesSafe(StripLineBreaks(s))
  {
    if EndsWith(s, "\n") {
      assert s[|s| - 1] == '\n';
      StrippedLinesSafe(s[..|s| - 1]);
    }
  }

  // ----- Runs of text events -----

  /** Paragraphs, text, breaks, rules, images and inline code on one line; no list, heading or link. */
  ghost predicate IsTextEvent(e: Event) {
    match e
    case Start(tag) => tag.Paragraph? || tag.Image? || tag.Transparent?
    case End(tag) => tag.EndParagraph? || tag.EndImage? || tag.EndTransparent?
    case Code(code) => forall k :: 0 <= k < |code| ==> code[k] != '\n'
    case TaskListMarker(_) => false
    case _ => true
  }

  /** A text event where it stands: within a list item the end of a paragraph ends no line. */
  ghost predicate IsTextAt(st: State, e: Event) {
    IsTextEvent(e) && (e == End(EndParagraph) ==> st.inItem == 0)
  }

  ghost predicate NoBreak(s: string) {
    forall k :: 0 <= k < |s| ==> s[k] != '\n'
  }

  /**
   Finished lines hold no marker, the open line is safe for good, and an undecided line start is
   held back.
   */
  ghost predicate LineHeld(st: State) {
    && !InLabel(st) && EndedLinesSafe(st.output) && NoBreak(st.prefix)
    && Classify(CurrentLine(st.output), false) == Safe
    && (st.prefix != "" ==> Classify(st.prefix, false) == Pending)
  }

  lemma FlushedHasNoBreak(s: string, kind: PrefixClass, alnum: char -> bool)
    requires NoBreak(s)
    ensures NoBreak(FlushedFrom(s, 0, kind, false, alnum))
  {
    FlushedLength(s, 0, kind, false, alnum);
    forall k | 0 <= k < |s|
      ensures FlushedFrom(s, 0, kind, false, alnum)[k] != '\n'
    {
      FlushedAt(s, 0, kind, false, alnum, k);
    }
  }

  lemma {:induction false} SafeStaysSafeBy(s: string, t: string)
    requires s != "" && Classify(s, false) == Safe
    ensures Classify(s + t, false) == Safe
    decreases |t|
  {
    if t == "" {
      assert s + t == s;
    } else {
      SafeStaysSafe(s, t[0]);
      SafeStaysSafeBy(s + [t[0]], t[1..]);
      assert s + [t[0]] + t[1..] == s + t;
    }
  }

  lemma FlushShape(st: State, atLineEnd: bool, alnum: char -> bool)
    ensures var f := Flush(st, atLineEnd, alnum); f == st.(output := f.output, prefix := "")
  {
  }

  /** What a flush appends to the open line. */
  lemma FlushedLine(st: State, atLineEnd: bool, alnum: char -> bool)
    requires EndedLinesSafe(st.output) && NoBreak(st.prefix) && !InLabel(st)
    ensures var f := Flush(st, atLineEnd, alnum); var kind := Classify(st.prefix, atLineEnd);
      && f == st.(output := f.output, prefix := "") && EndedLinesSafe(f.output)
      && CurrentLine(f.output) == CurrentLine(st.output) + FlushedFrom(st.prefix, 0, kind, false, alnum)
  {
    hide Classify, EndedLinesSafe, CurrentLine;
    var kind := Classify(st.prefix, atLineEnd);
    FlushedHasNoBreak(st.prefix, kind, alnum);
    AppendWithoutBreak(st.output, FlushedFrom(st.prefix, 0, kind, false, alnum));
    assert st.output + "" == st.output;
  }

  /** Flushing at a line end leaves an open line that is no marker. */
  lemma HeldLineEnds(st: State, alnum: char -> bool)
    requires LineHeld(st)
    ensures LinesSafe(Flush(st, true, alnum).output)
  {
    hide Classify, FlushedFrom, EndedLinesSafe, CurrentLine, Flush;
    FlushedLine(st, true, alnum);
    var line, flushed := CurrentLine(st.output), FlushedFrom(st.prefix, 0, Classify(st.prefix, true), false, alnum);
    if line == "" {
      assert line + flushed == flushed;
      FlushedLineIsNoMarker(st.prefix, alnum);
    } else {
      SafeStaysSafeBy(line, flushed);
      SafeIsNoMarker(line + flushed);
    }
  }

  lemma EmptyLineIsSafe()
    ensures Classify("", true) == Safe && Classify("", false) == Safe
  {
  }

  /** A line feed after a line end flush. */
  lemma BreakIsHeld(st: State, out: string)
    requires !InLabel(st) && LinesSafe(out)
    ensures LineHeld(st.(output := out + "\n", prefix := ""))
  {
    AppendBreak(out);
    EmptyLineIsSafe();
  }

  lemma EndsWithBreak(s: string)
    ensures EndsWith(s, "\n") <==> s != "" && s[|s| - 1] == '\n'
  {
    if s != "" {
      assert s[|s| - 1..] == [s[|s| - 1]];
    }
  }

  lemma LineStartIff(s: string)
    ensures CurrentLine(s) == "" <==> s == "" || EndsWith(s, "\n")
  {
    if s != "" {
      assert s[|s| - 1..] == [s[|s| - 1]];
    }
  }

  lemma PushCharIsHeld(st: State, s: string, i: nat, alnum: char -> bool)
    requires LineHeld(st) && i < |s|
    ensures LineHeld(PushChar(st, s, i, alnum))
  {
    hide Classify, FlushedFrom, Flush, EndedLinesSafe, CurrentLine;
    FlushedLine(st, true, alnum);
    if s[i] == '\n' {
      HeldLineEnds(st, alnum);
      BreakIsHeld(Flush(st, true, alnum), Flush(st, true, alnum).output);
    } else if st.prefix != "" || st.output == "" || EndsWith(st.output, "\n") {
      LineStartCharIsHeld(st, s, i, alnum);
    } else {
      OpenLineCharIsHeld(st, s, i, alnum);
    }
  }

  lemma LineStartCharIsHeld(st: State, s: string, i: nat, alnum: char -> bool)
    requires LineHeld(st) && i < |s| && s[i] != '\n'
    requires st.prefix != "" || st.output == "" || EndsWith(st.output, "\n")
    ensures LineHeld(PushChar(st, s, i, alnum))
  {
    hide Classify, FlushedFrom, Flush, EndedLinesSafe, CurrentLine;
    var longer := st.(prefix := st.prefix + [s[i]]);
    if Classify(longer.prefix, false) != Pending {
      var atEnd := Classify(longer.prefix, false) == MarkdownMarker;
      FlushedLine(longer, atEnd, alnum);
      FlushedPrefixIsSafe(longer.prefix, alnum);
      var line := CurrentLine(st.output);
      var flushed := FlushedFrom(longer.prefix, 0, Classify(longer.prefix, atEnd), false, alnum);
      if line == "" {
        assert line + flushed == flushed;
      } else {
        SafeStaysSafeBy(line, flushed);
      }
    }
  }

  lemma OpenLineCharIsHeld(st: State, s: string, i: nat, alnum: char -> bool)
    requires LineHeld(st) && i < |s| && s[i] != '\n'
    requires st.prefix == "" && st.output != "" && !EndsWith(st.output, "\n")
    ensures LineHeld(PushChar(st, s, i, alnum))
  {
    hide Classify, EndedLinesSafe;
    var c := LiteralAt(s, i, false, alnum);
    AppendWithoutBreak(st.output, [c]);
    LineStartIff(st.output);
    SafeStaysSafe(CurrentLine(st.output), c);
  }

  lemma {:induction false} PushCharsIsHeld(st: State, s: string, i: nat, alnum: char -> bool)
    requires LineHeld(st) && i <= |s|
    ensures LineHeld(PushChars(st, s, i, alnum))
    decreases |s| - i
  {
    hide LineHeld, PushChar;
    if i < |s| {
      PushCharIsHeld(st, s, i, alnum);
      PushCharsIsHeld(PushChar(st, s, i, alnum), s, i + 1, alnum);
    }
  }

  /** Characters reach the output, the prefix and nothing else. */
  lemma {:induction false} PushCharsKeepsRoute(st: State, s: string, i: nat, alnum: char -> bool)
    requires i <= |s|
    ensures var r := PushChars(st, s, i, alnum); r == st.(output := r.output, prefix := r.prefix)
    decreases |s| - i
  {
    hide Classify, FlushedFrom;
    if i < |s| {
      PushCharsKeepsRoute(PushChar(st, s, i, alnum), s, i + 1, alnum);
    }
  }

  /** On an open line with nothing held back, characters are written one by one. */
  lemma {:induction false} OpenLineText(st: State, s: string, i: nat, n: nat, alnum: char -> bool)
    requires i <= n <= |s| && forall k :: i <= k < n ==> s[k] != '\n'
    requires st.prefix == "" && st.output != "" && st.output[|st.output| - 1] != '\n'
    ensures var written := FlushedFrom(s, i, Safe, InLabel(st), alnum);
      |written| == |s| - i && NoBreak(written[..n - i])
      && PushChars(st, s, i, alnum) == PushChars(st.(output := st.output + written[..n - i]), s, n, alnum)
    decreases n - i
  {
    hide PushChar, SafeLiteralChar;
    FlushedLength(s, i, Safe, InLabel(st), alnum);
    var written := FlushedFrom(s, i, Safe, InLabel(st), alnum);
    if i == n {
      assert st.output + written[..0] == st.output;
    } else {
      var c := LiteralAt(s, i, InLabel(st), alnum);
      var next := st.(output := st.output + [c]);
      OpenLineChar(st, s, i, alnum);
      OpenLineText(next, s, i + 1, n, alnum);
      var rest := FlushedFrom(s, i + 1, Safe, InLabel(st), alnum);
      assert written == [c] + rest;
      assert written[..n - i] == [c] + rest[..n - i - 1];
      assert st.output + written[..n - i] == next.output + rest[..n - i - 1];
    }
  }

  lemma OpenLineChar(st: State, s: string, i: nat, alnum: char -> bool)
    requires i < |s| && s[i] != '\n' && st.prefix == "" && st.output != "" && st.output[|st.output| - 1] != '\n'
    ensures LiteralAt(s, i, InLabel(st), alnum) != '\n'
    ensures PushChar(st, s, i, alnum) == st.(output := st.output + [LiteralAt(s, i, InLabel(st), alnum)])
  {
    hide Classify, Flush;
    assert st.output[|st.output| - 1..] == [st.output[|st.output| - 1]];
  }

  // ----- Images -----

  /** What the open images will have contributed when they are all closed now: each alternative text is trimmed. */
  function Collected(images: seq<string>): string {
    if images == [] then "" else Trim(images[0] + Collected(images[1..]))
  }

  function AppendLast(images: seq<string>, s: string): seq<string>
    requires images != []
  {
    images[..|images| - 1] + [images[|images| - 1] + s]
  }

  lemma TrimKeepsPrefix(x: string, y: string)
    requires x <= y
    ensures Trim(x) <= Trim(y)
  {
    TrimStartKeepsPrefix(x, y);
    if TrimStart(x) != "" {
      TrimEndKeepsPrefix(TrimStart(x), TrimStart(y));
    }
  }

  lemma {:induction false} TrimStartKeepsPrefix(x: string, y: string)
    requires x <= y
    ensures TrimStart(x) <= TrimStart(y)
  {
    hide IsWhitespace;
    if x != "" {
      if IsWhitespace(x[0]) {
        TrimStartKeepsPrefix(x[1..], y[1..]);
      }
    }
  }

  lemma TrimEndKeepsPrefix(x: string, y: string)
    requires x <= y
    ensures TrimEnd(x) <= TrimEnd(y)
  {
    hide IsWhitespace, TrimEnd;
    TrimEndShape(x);
    TrimEndShape(y);
    if TrimEnd(x) != "" {
      var last := |TrimEnd(x)| - 1;
      assert y[last] == TrimEnd(x)[last];
    }
  }

  lemma {:induction false} CollectedGrows(images: seq<string>, s: string)
    requires images != []
    ensures Collected(images) <= Collected(AppendLast(images, s))
  {
    hide Trim;
    var longer := AppendLast(images, s);
    if |images| == 1 {
      assert images[0] + Collected([]) == images[0] && longer[0] + Collected([]) == images[0] + s;
      assert images[1..] == [] && longer[1..] == [];
      TrimKeepsPrefix(images[0], images[0] + s);
    } else {
      assert longer[1..] == AppendLast(images[1..], s) && longer[0] == images[0];
      CollectedGrows(images[1..], s);
      TrimKeepsPrefix(images[0] + Collected(images[1..]), images[0] + Collected(longer[1..]));
    }
  }

  lemma {:induction false} CollectedAfterClose(images: seq<string>)
    requires |images| > 1
    ensures var last := |images| - 1;
      Collected(AppendLast(images[..last], Trim(images[last]))) == Collected(images)
  {
    hide Trim;
    var last := |images| - 1;
    var closed := AppendLast(images[..last], Trim(images[last]));
    if last == 1 {
      assert closed == [images[0] + Trim(images[1])];
      assert closed[1..] == [] && images[1..] == [images[1]] && [images[1]][1..] == [];
      assert images[1] + "" == images[1] && closed[0] + "" == closed[0];
      assert Collected(images[1..]) == Trim(images[1]);
    } else {
      CollectedAfterClose(images[1..]);
      assert images[1..][..last - 1] == images[..last][1..];
      assert closed[1..] == AppendLast(images[1..][..last - 1], Trim(images[1..][last - 1]));
      assert closed[0] == images[0];
    }
  }

  lemma {:induction false} CollectedOfNewImage(images: seq<string>)
    ensures Collected(images + [""]) == Collected(images)
  {
    if images == [] {
      assert [""][1..] == [];
      assert Trim("") == "";
    } else {
      assert (images + [""])[1..] == images[1..] + [""];
      CollectedOfNewImage(images[1..]);
    }
  }

  // ----- The guard -----

  /** The text before the first line feed. */
  function FirstLine(s: string): string {
    if s == "" || s[0] == '\n' then "" else [s[0]] + FirstLine(s[1..])
  }

  lemma {:induction false} FirstLineShape(s: string)
    ensures FirstLine(s) <= s && NoBreak(FirstLine(s))
    ensures if NoBreak(s) then FirstLine(s) == s else |FirstLine(s)| < |s| && s[|FirstLine(s)|] == '\n'
  {
    if s != "" && s[0] != '\n' {
      FirstLineShape(s[1..]);
      assert NoBreak(s) <==> NoBreak(s[1..]);
      assert s == [s[0]] + s[1..];
    }
  }

  /**
   A written line can become no marker, neither as it stands nor by the text the open images hold
   for it and whatever follows that text.
   */
  ghost predicate Unmarkable(line: string, held: string) {
    || line == ""
    || (&& Classify(line, true) != MarkdownMarker
        && if NoBreak(held) then Classify(line + held, false) == Safe
           else Classify(line + FirstLine(held), true) != MarkdownMarker)
  }

  /** What every step keeps, and exactly what keeps every continuation free of markers. */
  ghost predicate Guarded(st: State) {
    && OutsideSpans(st) && EndedLinesSafe(st.output) && NoBreak(st.prefix)
    && if st.prefix != "" then LineHeld(st) else Unmarkable(CurrentLine(st.output), Collected(st.images))
  }

  /** No link or code block is open. */
  ghost predicate OutsideSpans(st: State) {
    st.links == [] && st.codeBlock.None?
  }

  lemma SafeIsUnmarkable(line: string, held: string)
    requires Classify(line, false) == Safe
    ensures Unmarkable(line, held)
  {
    hide Classify, FirstLine;
    if line != "" {
      SafeIsNoMarker(line);
      SafeStaysSafeBy(line, held);
      SafeStaysSafeBy(line, FirstLine(held));
      SafeIsNoMarker(line + FirstLine(held));
    }
  }

  lemma HeldIsGuarded(st: State)
    requires LineHeld(st) && OutsideSpans(st)
    ensures Guarded(st)
  {
    hide Classify, Collected, CurrentLine, Unmarkable, EndedLinesSafe;
    SafeIsUnmarkable(CurrentLine(st.output), Collected(st.images));
  }

  lemma GuardedIsHeld(st: State)
    requires Guarded(st) && st.images == []
    ensures LineHeld(st)
  {
    hide Classify, CurrentLine, EndedLinesSafe;
    EmptyLineIsSafe();
    assert CurrentLine(st.output) + "" == CurrentLine(st.output);
  }

  /** More text held by images changes nothing. */
  lemma UnmarkableStays(line: string, held: string, longer: string)
    requires Unmarkable(line, held) && held <= longer
    ensures Unmarkable(line, longer)
  {
    hide Classify;
    FirstLineShape(held);
    FirstLineShape(longer);
    if line != "" {
      if NoBreak(held) {
        var rest := FirstLine(longer)[|held|..];
        assert held + longer[|held|..] == longer;
        SafeStaysSafeBy(line + held, longer[|held|..]);
        assert line + held + longer[|held|..] == line + longer;
        FirstLineExtends(held, longer);
        SafeStaysSafeBy(line + held, rest);
        assert line + held + rest == line + FirstLine(longer);
        SafeIsNoMarker(line + FirstLine(longer));
      } else {
        FirstLineExtends(held, longer);
      }
    }
  }

  lemma {:induction false} FirstLineExtends(s: string, t: string)
    requires s <= t
    ensures FirstLine(s) <= FirstLine(t)
    ensures if NoBreak(s) then s <= FirstLine(t) else FirstLine(t) == FirstLine(s) && !NoBreak(t)
  {
    if s != "" {
      if s[0] == '\n' {
        assert t[0] == '\n';
      } else {
        FirstLineExtends(s[1..], t[1..]);
        assert NoBreak(s) <==> NoBreak(s[1..]);
        assert NoBreak(t) <==> NoBreak(t[1..]);
      }
    }
  }

  lemma FlushAtLineEnd(st: State, alnum: char -> bool)
    requires Guarded(st)
    ensures var f := Flush(st, true, alnum);
      f == st.(output := f.output, prefix := "") && LinesSafe(f.output)
  {
    hide Classify, FlushedFrom;
    EmptyLineIsSafe();
    if st.prefix != "" {
      HeldLineEnds(st, alnum);
    }
  }

  /** Text for the last open image changes what the images hold and nothing else. */
  lemma ImageTextIsGuarded(st: State, s: string)
    requires Guarded(st) && st.images != []
    ensures Guarded(st.(images := AppendLast(st.images, s)))
  {
    hide Classify, Collected, CurrentLine, EndedLinesSafe, Unmarkable;
    CollectedGrows(st.images, s);
    if st.prefix == "" {
      UnmarkableStays(CurrentLine(st.output), Collected(st.images), Collected(AppendLast(st.images, s)));
    }
  }

  lemma PushTextIsGuarded(st: State, s: string, alnum: char -> bool)
    requires Guarded(st)
    ensures Guarded(PushText(st, s, alnum))
  {
    hide Guarded, LineHeld, PushChars, OutsideSpans;
    if st.images != [] {
      ImageTextIsGuarded(st, s);
    } else {
      assert OutsideSpans(st) by { GuardedIsOutside(st); }
      assert st.codeBlock.None? by { GuardedIsOutside(st); }
      GuardedIsHeld(st);
      PushCharsIsHeld(st, s, 0, alnum);
      PushCharsKeepsRoute(st, s, 0, alnum);
      OutsideStays(st, PushChars(st, s, 0, alnum));
      HeldIsGuarded(PushChars(st, s, 0, alnum));
    }
  }

  lemma GuardedIsOutside(st: State)
    requires Guarded(st)
    ensures OutsideSpans(st) && st.codeBlock.None? && !InLabel(st)
  {
  }

  lemma OutsideStays(st: State, after: State)
    requires OutsideSpans(st) && after == st.(output := after.output, prefix := after.prefix)
    ensures OutsideSpans(after)
  {
  }

  /** Closing an image hands its text on: to the image around it, or to the line. */
  lemma CloseImageIsGuarded(st: State, alnum: char -> bool)
    requires Guarded(st) && st.images != []
    ensures Guarded(CloseImage(st, alnum))
  {
    hide Classify, CurrentLine, EndedLinesSafe, Unmarkable, Trim, PushChars, Collected;
    var last := |st.images| - 1;
    var alt, popped := Trim(st.images[last]), st.(images := st.images[..last]);
    if last > 0 {
      CollectedAfterClose(st.images);
      var closed := st.(images := AppendLast(popped.images, alt));
      assert Guarded(closed);
      if alt == "" {
        assert popped.images[|popped.images| - 1] + "" == popped.images[|popped.images| - 1];
        assert AppendLast(popped.images, alt) == popped.images;
      }
    } else {
      CollectedOfOne(st.images);
      LastImageIsGuarded(st, popped, alt, alnum);
    }
  }

  lemma CollectedOfOne(images: seq<string>)
    requires |images| == 1
    ensures Collected(images) == Trim(images[0])
  {
    assert images[1..] == [] && images[0] + "" == images[0];
  }

  lemma LastImageIsGuarded(st: State, popped: State, alt: string, alnum: char -> bool)
    requires Guarded(st) && popped == st.(images := []) && Collected(st.images) == alt
    ensures Guarded(if alt != "" then PushText(popped, alt, alnum) else popped)
  {
    hide Classify, CurrentLine, EndedLinesSafe, PushChars, Collected, FirstLine;
    var line := CurrentLine(st.output);
    assert line + "" == line;
    EmptyLineIsSafe();
    if st.prefix != "" || line == "" || Classify(line, false) == Safe {
      HeldIsGuarded(popped);
      PushTextIsGuarded(popped, alt, alnum);
    } else {
      WrittenAltIsHeld(popped, alt, alnum);
      PushCharsKeepsRoute(popped, alt, 0, alnum);
      HeldIsGuarded(PushChars(popped, alt, 0, alnum));
    }
  }

  /** The images' text completes an undecided line into one that is safe. */
  lemma WrittenAltIsHeld(st: State, alt: string, alnum: char -> bool)
    requires EndedLinesSafe(st.output) && st.prefix == "" && !InLabel(st)
    requires CurrentLine(st.output) != "" && Unmarkable(CurrentLine(st.output), alt)
    ensures LineHeld(PushChars(st, alt, 0, alnum))
  {
    hide Classify, CurrentLine, EndedLinesSafe, FirstLine;
    var line, n := CurrentLine(st.output), |FirstLine(alt)|;
    FirstLineShape(alt);
    LineIsOpen(st.output);
    forall k | 0 <= k < n
      ensures alt[k] != '\n'
    {
      assert alt[k] == FirstLine(alt)[k];
    }
    OpenLineText(st, alt, 0, n, alnum);
    var written := FlushedFrom(alt, 0, Safe, false, alnum)[..n];
    var open := st.(output := st.output + written);
    AppendWithoutBreak(st.output, written);
    WrittenLooksLike(line, alt, n, alnum);
    assert alt[..n] == FirstLine(alt);
    if NoBreak(alt) {
      assert PushChars(open, alt, n, alnum) == open;
    } else {
      BreakIsHeld(open, open.output);
      assert PushChar(open, alt, n, alnum) == open.(output := open.output + "\n");
      PushCharsIsHeld(PushChar(open, alt, n, alnum), alt, n + 1, alnum);
    }
  }

  lemma LineIsOpen(s: string)
    ensures CurrentLine(s) != "" <==> s != "" && s[|s| - 1] != '\n'
  {
  }

  /** Text written after a line is classified as the text itself would be. */
  lemma WrittenLooksLike(line: string, s: string, n: nat, alnum: char -> bool)
    requires n <= |s|
    ensures |FlushedFrom(s, 0, Safe, false, alnum)| == |s|
    ensures var out := line + FlushedFrom(s, 0, Safe, false, alnum)[..n];
      Classify(out, true) == Classify(line + s[..n], true) && Classify(out, false) == Classify(line + s[..n], false)
  {
    hide Classify, FlushedFrom;
    FlushedLooksLike(s, Safe, alnum);
    var out := line + FlushedFrom(s, 0, Safe, false, alnum)[..n];
    LooksLikeClassify(out, line + s[..n], true);
    LooksLikeClassify(out, line + s[..n], false);
  }

  // ----- The other steps -----

  lemma {:induction false} TicksAndCodeHaveNoBreak(code: string)
    requires NoBreak(code)
    ensures NoBreak(InlineCode(code)) && InlineCode(code) != "" && InlineCode(code)[0] == '`'
  {
    var n := LongestBacktickRun(code) + 1;
    assert NoBreak(Padded(code));
    assert InlineCode(code)[0] == Ticks(n)[0];
  }

  /** A character that matters to no marker decides a pending start: it is none. */
  lemma PendingThenPlain(s: string, c: char)
    requires Classify(s, false) == Pending && !Matters(c)
    ensures Classify(s + [c], false) == Safe
  {
    hide LeadingHashes, LeadingDigits, CountOf, InRanges;
    LeadingGrows(s, c);
    PlainIsNeither(s, '-', c);
    PlainIsNeither(s, '=', c);
    assert forall k :: 0 <= k < |s| ==> (s + [c])[k] == s[k];
  }

  lemma {:induction false} PlainIsNeither(s: string, mark: char, c: char)
    requires (mark == '-' || mark == '=') && !Matters(c)
    ensures !OnlyCharOrSpace(s + [c], mark)
  {
    if s != "" {
      assert (s + [c])[1..] == s[1..] + [c];
      PlainIsNeither(s[1..], mark, c);
    }
  }

  /** Text that starts with a plain character and is written after the pending start was flushed. */
  lemma PlainAfterLineStart(st: State, alnum: char -> bool, text: string)
    requires LineHeld(st) && text != "" && !Matters(text[0]) && NoBreak(text)
    ensures var f := Flush(st, false, alnum);
      f == st.(output := f.output, prefix := "") && LineHeld(st.(output := f.output + text, prefix := ""))
  {
    hide Classify, FlushedFrom, CurrentLine, EndedLinesSafe, LooksLike, Matters, Flush;
    FlushedLine(st, false, alnum);
    var out := Flush(st, false, alnum).output;
    var before, flushed := CurrentLine(st.output), FlushedFrom(st.prefix, 0, Classify(st.prefix, false), false, alnum);
    var line := before + flushed;
    var longer := line + [text[0]];
    if before != "" {
      SafeStaysSafeBy(before, flushed + [text[0]]);
      assert before + (flushed + [text[0]]) == longer;
    } else if st.prefix != "" {
      assert line == flushed;
      FlushedLooksLike(st.prefix, Pending, alnum);
      LooksLikeClassify(line, st.prefix, false);
      PendingThenPlain(line, text[0]);
    } else {
      FlushedOfNothing(alnum);
      UnmarkedStartIsSafe(longer, false);
    }
    SafeStaysSafeBy(longer, text[1..]);
    assert longer + text[1..] == line + text;
    AppendWithoutBreak(out, text);
  }

  lemma FlushedOfNothing(alnum: char -> bool)
    ensures forall kind :: FlushedFrom("", 0, kind, false, alnum) == ""
  {
  }

  /** Inline code after a flushed undecided start, or after anything safe, keeps the line safe. */
  lemma PushCodeIsGuarded(st: State, code: string, alnum: char -> bool)
    requires Guarded(st) && NoBreak(code)
    ensures Guarded(PushCode(st, code, alnum))
  {
    hide Classify, CurrentLine, EndedLinesSafe, Unmarkable, Collected, InlineCode, Matters;
    if st.images == [] {
      GuardedIsHeld(st);
      TicksAndCodeHaveNoBreak(code);
      FullWidthDoesNotMatter('`');
      PlainAfterLineStart(st, alnum, InlineCode(code));
      HeldIsGuarded(PushCode(st, code, alnum));
    } else {
      ImageTextIsGuarded(st, code);
    }
  }

  lemma EnsureLineBreakIsGuarded(st: State, out: string)
    requires OutsideSpans(st) && LinesSafe(out)
    ensures Guarded(st.(output := EnsureLineBreak(out), prefix := ""))
    ensures LinesSafe(EnsureLineBreak(out)) && CurrentLine(EnsureLineBreak(out)) == ""
  {
    hide Classify, Collected;
    AppendBreak(out);
    LineStartIff(out);
    EmptyLineIsSafe();
  }

  lemma ParagraphBreakIsGuarded(st: State, out: string)
    requires OutsideSpans(st) && LinesSafe(out)
    ensures Guarded(st.(output := PushParagraphBreak(out), prefix := ""))
  {
    hide Classify, Collected;
    EnsureLineBreakIsGuarded(st, out);
    AppendBreak(EnsureLineBreak(out));
    if EndsWith(out, "\n\n") {
      assert out[|out| - 1] == out[|out| - 2..][1] == '\n';
    }
  }

  /** A paragraph start does not flush; the prefix it holds back stays undecided on the new line. */
  lemma StartParagraphIsGuarded(st: State)
    requires Guarded(st)
    ensures Guarded(st.(output := EnsureParagraphBreak(st.output)))
  {
    hide Classify, Collected;
    var out := st.output;
    if out != "" && !EndsWith(out, "\n\n") {
      EmptyLineIsSafe();
      SafeIsNoMarkerIf(CurrentLine(out));
      EnsureLineBreakIsGuarded(st, out);
      AppendBreak(EnsureLineBreak(out));
    }
  }

  lemma SafeIsNoMarkerIf(s: string)
    ensures Classify(s, false) == Safe ==> Classify(s, true) != MarkdownMarker
  {
  }

  /** Every step on a text event keeps the guard. */
  lemma StepIsGuarded(st: State, e: Event, alnum: char -> bool)
    requires Guarded(st) && IsTextAt(st, e)
    ensures Guarded(Step(st, e, alnum))
  {
    hide Classify, FlushedFrom, EnsureLineBreak, PushParagraphBreak, EnsureParagraphBreak, CurrentLine,
        EndedLinesSafe, PushText, PushCode, Trim, Collected, Unmarkable, LineHeld, CloseImage;
    FlushAtLineEnd(st, alnum);
    var out := Flush(st, true, alnum).output;
    match e
    case Text(text) => PushTextIsGuarded(st, text, alnum);
    case Math(math) => PushTextIsGuarded(st, math, alnum);
    case Code(code) => PushCodeIsGuarded(st, code, alnum);
    case Rule => ParagraphBreakIsGuarded(st, out);
    case Break =>
      if st.images != [] {
        ImageTextIsGuarded(st, " ");
      } else {
        EnsureLineBreakIsGuarded(st, out);
      }
    case Start(tag) =>
      StartParagraphIsGuarded(st);
      NewImageIsGuarded(st);
    case End(tag) =>
      ParagraphBreakIsGuarded(st, out);
      if tag.EndImage? && st.images != [] {
        CloseImageIsGuarded(st, alnum);
      } else {
        NoImageToClose(st, alnum);
      }
    case Ignored =>
  }

  lemma NewImageIsGuarded(st: State)
    requires Guarded(st)
    ensures Guarded(st.(images := st.images + [""]))
  {
    hide Classify, Collected, CurrentLine, EndedLinesSafe, Unmarkable;
    CollectedOfNewImage(st.images);
  }

  lemma NoImageToClose(st: State, alnum: char -> bool)
    ensures st.images == [] ==> CloseImage(st, alnum) == st
  {
  }

  /** Text events open and close no list item. */
  lemma TextKeepsItems(st: State, e: Event, alnum: char -> bool)
    requires IsTextEvent(e)
    ensures var r := Step(st, e, alnum); r.inItem == st.inItem && r.lists == st.lists
  {
    hide PushText, EnsureLineBreak, PushParagraphBreak, EnsureParagraphBreak, Trim, FlushedFrom, InlineCode;
    PushTextKeepsItems(st, if e.Text? then e.text else if e.Math? then e.math else "", alnum);
    if e.Code? {
      PushTextKeepsItems(st, e.code, alnum);
      PushTextKeepsItems(Flush(st, false, alnum), e.code, alnum);
    }
    if e == End(EndImage) && st.images != [] {
      var last := |st.images| - 1;
      PushTextKeepsItems(st.(images := st.images[..last]), Trim(st.images[last]), alnum);
    }
  }

  lemma PushTextKeepsItems(st: State, s: string, alnum: char -> bool)
    ensures var r := PushText(st, s, alnum); r.inItem == st.inItem && r.lists == st.lists
  {
    hide PushChars;
    PushCharsKeepsRoute(st, s, 0, alnum);
  }

  lemma {:induction false} RunIsGuarded(st: State, events: seq<Event>, alnum: char -> bool)
    requires Guarded(st) && forall k :: 0 <= k < |events| ==> IsTextAt(st, events[k])
    ensures Guarded(Run(st, events, alnum))
    decreases |events|
  {
    hide Guarded, Step, IsTextEvent;
    if events != [] {
      StepIsGuarded(st, events[0], alnum);
      TextKeepsItems(st, events[0], alnum);
      RunIsGuarded(Step(st, events[0], alnum), events[1..], alnum);
    }
  }

  lemma InitialIsGuarded()
    ensures Guarded(INITIAL)
  {
  }

  // ----- The finished output -----

  /** No line of the text is classified as a block marker. */
  ghost predicate Unmarked(s: string) {
    forall a: nat, b: nat :: IsLine(s, a, b) ==> Classify(s[a..b], true) != MarkdownMarker
  }

  lemma GuardedFinishesUnmarked(st: State, alnum: char -> bool)
    requires Guarded(st)
    ensures Unmarked(Finish(st, alnum))
  {
    hide Classify, Guarded;
    FlushAtLineEnd(st, alnum);
    StrippedLinesSafe(Flush(st, true, alnum).output);
    forall a: nat, b: nat | IsLine(Finish(st, alnum), a, b)
      ensures Classify(Finish(st, alnum)[a..b], true) != MarkdownMarker
    {
      EveryLineIsSafe(Finish(st, alnum), a, b);
    }
  }

  /**
   However the parser splits the text, no line of the finished output of a run of text events
   is classified as a block marker.
   */
  lemma NoMarkerIsReactivated(events: seq<Event>, alnum: char -> bool)
    requires forall k :: 0 <= k < |events| ==> IsTextEvent(events[k])
    ensures Unmarked(Finish(Run(INITIAL, events, alnum), alnum))
  {
    hide Guarded, Run, IsTextEvent, Finish;
    InitialIsGuarded();
    RunIsGuarded(INITIAL, events, alnum);
    GuardedFinishesUnmarked(Run(INITIAL, events, alnum), alnum);
  }

  // ----- Splitting text events -----

  /** Only an underscore looks at its neighbours. */
  lemma LiteralIgnoresContext(c: char, p: Option<char>, n: Option<char>, p': Option<char>, n': Option<char>,
                              inLabel: bool, alnum: char -> bool)
    requires c != '_'
    ensures SafeLiteralChar(c, p, n, inLabel, alnum) == SafeLiteralChar(c, p', n', inLabel, alnum)
  {
  }

  lemma {:induction false} PushCharsOfFirstPart(st: State, s: string, t: string, i: nat, alnum: char -> bool)
    requires i <= |s| && (s != "" ==> s[|s| - 1] != '_')
    ensures PushChars(st, s + t, i, alnum) == PushChars(PushChars(st, s, i, alnum), s + t, |s|, alnum)
    decreases |s| - i
  {
    hide PushChar;
    if i < |s| {
      FirstPartChar(st, s, t, i, alnum);
      PushCharsOfFirstPart(PushChar(st, s, i, alnum), s, t, i + 1, alnum);
    }
  }

  lemma FirstPartChar(st: State, s: string, t: string, i: nat, alnum: char -> bool)
    requires i < |s| && s[|s| - 1] != '_'
    ensures PushChar(st, s + t, i, alnum) == PushChar(st, s, i, alnum)
  {
    hide Flush, Classify, EndsWith, SafeLiteralChar;
    var all := s + t;
    assert At(all, i - 1) == At(s, i - 1);
    if i + 1 < |s| {
      assert At(all, i + 1) == At(s, i + 1);
    } else {
      LiteralIgnoresContext(s[i], At(s, i - 1), At(s, i + 1), At(all, i - 1), At(all, i + 1), InLabel(st), alnum);
    }
  }

  lemma SecondPartChar(st: State, s: string, t: string, j: nat, alnum: char -> bool)
    requires j < |t| && t[0] != '_'
    ensures PushChar(st, s + t, |s| + j, alnum) == PushChar(st, t, j, alnum)
  {
    hide Flush, Classify, EndsWith, SafeLiteralChar;
    var all := s + t;
    assert all[|s| + j] == t[j];
    assert At(all, |s| + j + 1) == At(t, j + 1);
    if j > 0 {
      assert At(all, |s| + j - 1) == At(t, j - 1);
    } else {
      LiteralIgnoresContext(t[j], At(t, j - 1), At(t, j + 1), At(all, |s| - 1), At(all, |s| + 1), InLabel(st), alnum);
    }
  }

  lemma {:induction false} PushCharsOfSecondPart(st: State, s: string, t: string, j: nat, alnum: char -> bool)
    requires j <= |t| && (t != "" ==> t[0] != '_')
    ensures PushChars(st, s + t, |s| + j, alnum) == PushChars(st, t, j, alnum)
    decreases |t| - j
  {
    hide PushChar;
    if j < |t| {
      SecondPartChar(st, s, t, j, alnum);
      PushCharsOfSecondPart(PushChar(st, t, j, alnum), s, t, j + 1, alnum);
    }
  }

  lemma RunOfTwo(st: State, e: Event, f: Event, alnum: char -> bool)
    ensures Run(st, [e, f], alnum) == Step(Step(st, e, alnum), f, alnum)
  {
    hide Step;
    assert [e, f][1..] == [f] && [f][1..] == [];
    assert Run(Step(st, e, alnum), [f], alnum) == Run(Step(Step(st, e, alnum), f, alnum), [], alnum);
  }

  /**
   Splitting one text event in two, away from any underscore, changes nothing: from any state the
   two steps end where the one does.
   */
  lemma SplittingTextChangesNothing(st: State, s: string, t: string, alnum: char -> bool)
    requires s != "" ==> s[|s| - 1] != '_'
    requires t != "" ==> t[0] != '_'
    ensures Run(st, [Text(s), Text(t)], alnum) == Step(st, Text(s + t), alnum)
  {
    RunOfTwo(st, Text(s), Text(t), alnum);
    if st.images != [] {
      var last := |st.images| - 1;
      assert st.images[last] + s + t == st.images[last] + (s + t);
      assert AppendToImage(st, s).images[..last] == st.images[..last];
    } else if st.codeBlock.Some? {
      assert st.codeBlock.value.content + s + t == st.codeBlock.value.content + (s + t);
    } else {
      PushCharsKeepsRoute(st, s, 0, alnum);
      PushCharsOfFirstPart(st, s, t, 0, alnum);
      PushCharsOfSecondPart(PushChars(st, s, 0, alnum), s, t, 0, alnum);
    }
  }
}
