/**
 The guard of the renderer is exact: when it fails, some further text completes a block marker.
 */
module QqContinuations {
  import opened Characters
  import opened InlineEscape
  import opened CodeMarkup
  import opened QqRenderer
  import opened QqMarkers

  ghost predicate AllText(st: State, events: seq<Event>) {
    forall k :: 0 <= k < |events| ==> IsTextAt(st, events[k])
  }

  /**
   However the text goes on from here, within a list item in its paragraph, no line of the finished
   output is a block marker.
   */
  ghost predicate MarkerFreeFrom(st: State, alnum: char -> bool) {
    forall events :: AllText(st, events) ==> Unmarked(Finish(Run(st, events, alnum), alnum))
  }

  // ----- Reading unmarked output back -----

  lemma {:induction false} CurrentLineStart(s: string) returns (a: nat)
    ensures IsLine(s, a, |s|) && CurrentLine(s) == s[a..]
  {
    if s == "" || s[|s| - 1] == '\n' {
      a := |s|;
    } else {
      var shorter := s[..|s| - 1];
      a := CurrentLineStart(shorter);
      assert s[a..] == shorter[a..] + [s[|s| - 1]];
    }
  }

  lemma {:induction false} UnmarkedEndedLines(s: string)
    requires forall a: nat, b: nat :: IsLine(s, a, b) && b < |s| ==> Classify(s[a..b], true) != MarkdownMarker
    ensures EndedLinesSafe(s)
  {
    hide Classify, CurrentLine;
    if s != "" {
      var shorter := s[..|s| - 1];
      forall a: nat, b: nat | IsLine(shorter, a, b) && b < |shorter|
        ensures Classify(shorter[a..b], true) != MarkdownMarker
      {
        assert IsLine(s, a, b) && s[a..b] == shorter[a..b];
      }
      UnmarkedEndedLines(shorter);
      if s[|s| - 1] == '\n' {
        var a := CurrentLineStart(shorter);
        assert IsLine(s, a, |shorter|) && s[a..|shorter|] == shorter[a..];
      }
    }
  }

  lemma UnmarkedIsSafe(s: string)
    requires Unmarked(s)
    ensures LinesSafe(s)
  {
    hide Classify, CurrentLine;
    UnmarkedEndedLines(s);
    var a := CurrentLineStart(s);
    assert s[a..|s|] == s[a..];
  }

  lemma {:induction false} StrippedWasSafe(s: string)
    requires LinesSafe(StripLineBreaks(s))
    ensures LinesSafe(s)
  {
    hide Classify, EndedLinesSafe, CurrentLine;
    if EndsWith(s, "\n") {
      var shorter := s[..|s| - 1];
      assert s == shorter + s[|s| - 1..];
      StrippedWasSafe(shorter);
      AppendBreak(shorter);
      EmptyLineIsSafe();
    }
  }

  lemma {:induction false} EndedPrefix(s: string, t: string)
    requires EndedLinesSafe(s + t)
    ensures EndedLinesSafe(s)
    decreases |t|
  {
    hide Classify, CurrentLine;
    if t == "" {
      assert s + t == s;
    } else {
      assert (s + t)[..|s + t| - 1] == s + t[..|t| - 1];
      EndedPrefix(s, t[..|t| - 1]);
    }
  }

  /** What freedom from markers says about one continuation. */
  lemma ContinuationIsSafe(st: State, events: seq<Event>, alnum: char -> bool)
    requires MarkerFreeFrom(st, alnum) && AllText(st, events)
    ensures LinesSafe(Flush(Run(st, events, alnum), true, alnum).output)
  {
    hide Classify, LinesSafe, Run, Unmarked, AllText, Flush;
    var end := Run(st, events, alnum);
    UnmarkedIsSafe(Finish(end, alnum));
    StrippedWasSafe(Flush(end, true, alnum).output);
  }

  // ----- Completing a marker -----

  /** Text that makes a marker of a line that is not safe. */
  function Completion(s: string): string {
    if s != "" && s[0] == '-' then "--" else if LeadingDigits(s) == |s| then "." else ""
  }

  lemma {:induction false} OneMore(s: string, c: char)
    ensures OnlyCharOrSpace(s + [c], c) == OnlyCharOrSpace(s, c)
    ensures CountOf(s + [c], c) == CountOf(s, c) + 1
  {
    if s != "" {
      assert (s + [c])[1..] == s[1..] + [c];
      OneMore(s[1..], c);
    }
  }

  lemma {:induction false} DigitsEndAtDot(s: string)
    requires LeadingDigits(s) == |s|
    ensures LeadingDigits(s + ".") == |s|
  {
    if s != "" {
      assert (s + ".")[1..] == s[1..] + ".";
      DigitsEndAtDot(s[1..]);
    }
  }

  lemma UnsafeLineCanTurn(s: string)
    requires Classify(s, false) != Safe
    ensures Classify(s + Completion(s), true) == MarkdownMarker
  {
    assert s != "";
    if s[0] == '-' {
      OneMore(s, '-');
      OneMore(s + ['-'], '-');
      assert s + ['-'] + ['-'] == s + "--";
      assert CountOf(s, '-') >= 1;
    } else if LeadingDigits(s) == |s| {
      DigitsEndAtDot(s);
      assert IsAsciiDigit(s[0]);
    } else {
      assert s + "" == s;
    }
  }

  // ----- Closing the open images -----

  function Closings(n: nat): seq<Event> {
    if n == 0 then [] else [End(EndImage)] + Closings(n - 1)
  }

  lemma {:induction false} ClosingsAreText(st: State, n: nat)
    ensures AllText(st, Closings(n))
  {
    if n > 0 {
      ClosingsAreText(st, n - 1);
    }
  }

  /** Closing all images writes what they collected. */
  lemma {:induction false} ClosingWritesCollected(st: State, alnum: char -> bool)
    requires st.codeBlock.None?
    ensures Run(st, Closings(|st.images|), alnum) == PushChars(st.(images := []), Collected(st.images), 0, alnum)
    decreases |st.images|
  {
    hide PushChars, Trim, Collected;
    var images := st.images;
    if images == [] {
      CollectedOfNothing();
      NothingPushed(st, alnum);
    } else {
      var last := |images| - 1;
      var alt := Trim(images[last]);
      assert Closings(|images|)[1..] == Closings(last);
      if last == 0 {
        CollectedOfOne(images);
        NothingPushed(st.(images := []), alnum);
        assert images[..0] == [];
        PushCharsKeepsRoute(st.(images := []), alt, 0, alnum);
      } else {
        CollectedAfterClose(images);
        var closed := st.(images := AppendLast(images[..last], alt));
        if alt == "" {
          assert images[last - 1] + "" == images[last - 1];
          assert AppendLast(images[..last], alt) == images[..last];
        }
        assert Step(st, End(EndImage), alnum) == closed;
        ClosingWritesCollected(closed, alnum);
      }
    }
  }

  lemma CollectedOfNothing()
    ensures Collected([]) == ""
  {
  }

  lemma NothingPushed(st: State, alnum: char -> bool)
    ensures PushChars(st, "", 0, alnum) == st
  {
  }

  lemma {:induction false} RunOfMore(st: State, events: seq<Event>, e: Event, alnum: char -> bool)
    ensures Run(st, events + [e], alnum) == Step(Run(st, events, alnum), e, alnum)
    decreases |events|
  {
    hide Step;
    if events == [] {
      assert [] + [e] == [e] && [e][1..] == [];
    } else {
      assert (events + [e])[1..] == events[1..] + [e];
      RunOfMore(Step(st, events[0], alnum), events[1..], e, alnum);
    }
  }

  /** Pushing characters only adds to the output. */
  lemma {:induction false} PushCharsExtends(st: State, s: string, i: nat, alnum: char -> bool)
    requires i <= |s|
    ensures st.output <= PushChars(st, s, i, alnum).output
    decreases |s| - i
  {
    hide Classify, FlushedFrom;
    if i < |s| {
      PushCharsExtends(PushChar(st, s, i, alnum), s, i + 1, alnum);
    }
  }

  lemma FlushExtends(st: State, atLineEnd: bool, alnum: char -> bool)
    ensures st.output <= Flush(st, atLineEnd, alnum).output
  {
  }

  lemma BreaksExtend(s: string)
    ensures s <= EnsureLineBreak(s) && s <= EnsureParagraphBreak(s) && s <= PushParagraphBreak(s)
  {
  }

  /** Only the end of a link takes anything back. */
  lemma StepExtends(st: State, e: Event, alnum: char -> bool)
    requires e != End(EndLink)
    ensures st.output <= Step(st, e, alnum).output
  {
    hide PushChars, FlushedFrom, Classify, Trim, InlineCode, EnsureLineBreak, EnsureParagraphBreak, PushParagraphBreak,
      FencedBlock, Indent, HeadingPrefix, FilterLanguage, SanitizeLinkDestination, Flush, EndsWith;
    var f, ended, before := Flush(st, false, alnum), Flush(st, true, alnum), EnsureParagraphBreak(st.output);
    FlushShape(st, false, alnum);
    FlushShape(st, true, alnum);
    FlushExtends(st, false, alnum);
    FlushExtends(st, true, alnum);
    BreaksExtend(st.output);
    BreaksExtend(f.output);
    BreaksExtend(ended.output);
    match e
    case Text(t) => PushCharsExtends(st, t, 0, alnum);
    case Math(t) => PushCharsExtends(st, t, 0, alnum);
    case Code(t) => PushCharsExtends(f, t, 0, alnum);
    case End(tag) =>
      if tag.EndImage? && st.images != [] {
        var last := |st.images| - 1;
        PushCharsExtends(st.(images := st.images[..last]), Trim(st.images[last]), 0, alnum);
      }
      if tag.EndCodeBlock? && st.codeBlock.Some? {
        BreaksExtend(before + FencedBlock(st.codeBlock.value.language, st.codeBlock.value.content));
      }
    case _ =>
  }

  lemma {:induction false} RunExtends(st: State, es: seq<Event>, alnum: char -> bool)
    requires forall k :: 0 <= k < |es| ==> es[k] != End(EndLink)
    ensures st.output <= Run(st, es, alnum).output
    decreases |es|
  {
    hide Step;
    if es != [] {
      StepExtends(st, es[0], alnum);
      RunExtends(Step(st, es[0], alnum), es[1..], alnum);
    }
  }

  // ----- The guard is necessary -----

  /** Text with a line feed ends the open line after what stands before the line feed. */
  lemma BrokenTextIsWritten(st: State, s: string, alnum: char -> bool)
    requires OutsideSpans(st) && st.prefix == "" && CurrentLine(st.output) != "" && !NoBreak(s)
    ensures var n := |FirstLine(s)|;
      && n < |s| && s[..n] == FirstLine(s) && n <= |FlushedFrom(s, 0, Safe, false, alnum)|
      && st.output + FlushedFrom(s, 0, Safe, false, alnum)[..n] + "\n" <= PushChars(st, s, 0, alnum).output
  {
    hide Classify, CurrentLine, FirstLine, FlushedFrom, PushChar, PushChars;
    var n := |FirstLine(s)|;
    FirstLineShape(s);
    LineIsOpen(st.output);
    FlushedLength(s, 0, Safe, false, alnum);
    assert forall k :: 0 <= k < n ==> s[k] == FirstLine(s)[k];
    OpenLineText(st, s, 0, n, alnum);
    var open := st.(output := st.output + FlushedFrom(s, 0, Safe, false, alnum)[..n]);
    BreakOnOpenLine(open, s, n, alnum);
    PushCharsExtends(PushChar(open, s, n, alnum), s, n + 1, alnum);
  }

  /** The line that would hold a marker: finished by a line feed in the images' text. */
  lemma BrokenTextStaysUnmarked(st: State, alnum: char -> bool)
    requires OutsideSpans(st) && EndedLinesSafe(st.output) && st.prefix == "" && CurrentLine(st.output) != ""
    requires MarkerFreeFrom(st, alnum) && !NoBreak(Collected(st.images))
    ensures Classify(CurrentLine(st.output) + FirstLine(Collected(st.images)), true) != MarkdownMarker
  {
    hide Classify, CurrentLine, EndedLinesSafe, FirstLine, Collected, MarkerFreeFrom, Run, Flush, FlushedFrom, PushChars;
    var held, line := Collected(st.images), CurrentLine(st.output);
    var n, shut := |FirstLine(held)|, st.(images := []);
    ClosingsAreText(st, |st.images|);
    ClosingWritesCollected(st, alnum);
    ContinuationIsSafe(st, Closings(|st.images|), alnum);
    BrokenTextIsWritten(shut, held, alnum);
    var end := PushChars(shut, held, 0, alnum);
    FlushExtends(end, true, alnum);
    var written := FlushedFrom(held, 0, Safe, false, alnum)[..n];
    var ended, out := st.output + written + "\n", Flush(end, true, alnum).output;
    assert out == ended + out[|ended|..];
    EndedPrefix(ended, out[|ended|..]);
    AppendBreak(st.output + written);
    FirstLineShape(held);
    WrittenHasNoBreak(held, n, alnum);
    AppendWithoutBreak(st.output, written);
    WrittenLooksLike(line, held, n, alnum);
  }

  lemma WrittenHasNoBreak(s: string, n: nat, alnum: char -> bool)
    requires n <= |s| && NoBreak(s[..n])
    ensures n <= |FlushedFrom(s, 0, Safe, false, alnum)| && NoBreak(FlushedFrom(s, 0, Safe, false, alnum)[..n])
  {
    hide FlushedFrom, FlushedChar;
    FlushedLength(s, 0, Safe, false, alnum);
    forall k | 0 <= k < n
      ensures FlushedFrom(s, 0, Safe, false, alnum)[k] != '\n'
    {
      FlushedAt(s, 0, Safe, false, alnum, k);
      assert s[..n][k] == s[k];
      FlushedCharIsNoBreak(s, k, alnum);
    }
  }

  lemma FlushedCharIsNoBreak(s: string, k: nat, alnum: char -> bool)
    requires k < |s| && s[k] != '\n'
    ensures FlushedChar(s, k, Safe, false, alnum) != '\n'
  {
  }

  lemma BreakOnOpenLine(st: State, s: string, n: nat, alnum: char -> bool)
    requires n < |s| && s[n] == '\n' && st.prefix == ""
    ensures PushChar(st, s, n, alnum) == st.(output := st.output + "\n")
    ensures PushChars(st, s, n, alnum) == PushChars(PushChar(st, s, n, alnum), s, n + 1, alnum)
  {
  }

  /** The line that would hold a marker: completed by the images' text and the text after it. */
  lemma CompletedTextStaysUnmarked(st: State, alnum: char -> bool)
    requires OutsideSpans(st) && EndedLinesSafe(st.output) && st.prefix == "" && CurrentLine(st.output) != ""
    requires MarkerFreeFrom(st, alnum) && NoBreak(Collected(st.images))
    ensures Classify(CurrentLine(st.output) + Collected(st.images), false) == Safe
  {
    hide Classify, CurrentLine, EndedLinesSafe, Collected, MarkerFreeFrom, Run, Flush, FlushedFrom, PushChars,
        Completion;
    var held := Collected(st.images);
    var line := CurrentLine(st.output);
    var more := Completion(line + held);
    var closings := Closings(|st.images|);
    CompletionHasNoBreak(line + held);
    LineIsOpen(st.output);
    ClosingsAreText(st, |st.images|);
    ClosingWritesCollected(st, alnum);
    RunOfMore(st, closings, Text(more), alnum);
    ContinuationIsSafe(st, closings + [Text(more)], alnum);
    var shut := st.(images := []);
    OpenLinePush(shut, held, alnum);
    var first := FlushedFrom(held, 0, Safe, false, alnum);
    var open := shut.(output := st.output + first);
    OpenLinePush(open, more, alnum);
    var second := FlushedFrom(more, 0, Safe, false, alnum);
    var end := open.(output := open.output + second);
    assert Run(st, closings + [Text(more)], alnum) == end;
    NothingHeld(end, alnum);
    AppendWithoutBreak(st.output, first);
    AppendWithoutBreak(open.output, second);
    TwiceWritten(line, held, more, alnum);
    if Classify(line + held, false) != Safe {
      UnsafeLineCanTurn(line + held);
    }
  }

  lemma CompletionHasNoBreak(s: string)
    ensures NoBreak(Completion(s))
  {
  }

  lemma NothingHeld(st: State, alnum: char -> bool)
    requires st.prefix == ""
    ensures Flush(st, true, alnum) == st
  {
  }

  lemma NothingToStrip(st: State, alnum: char -> bool)
    requires st.prefix == "" && !EndsWith(st.output, "\n")
    ensures Finish(st, alnum) == st.output
  {
  }

  lemma OpenLinePush(st: State, s: string, alnum: char -> bool)
    requires OutsideSpans(st) && st.prefix == "" && st.output != "" && st.output[|st.output| - 1] != '\n' && NoBreak(s)
    ensures var written := FlushedFrom(s, 0, Safe, false, alnum);
      NoBreak(written) && PushChars(st, s, 0, alnum) == st.(output := st.output + written)
  {
    hide FlushedFrom, PushChar;
    OpenLineText(st, s, 0, |s|, alnum);
    var written := FlushedFrom(s, 0, Safe, false, alnum);
    assert written[..|s|] == written;
  }

  lemma TwiceWritten(line: string, s: string, t: string, alnum: char -> bool)
    ensures Classify(line + FlushedFrom(s, 0, Safe, false, alnum) + FlushedFrom(t, 0, Safe, false, alnum), true)
         == Classify(line + s + t, true)
  {
    hide Classify, FlushedFrom;
    FlushedLooksLike(s, Safe, alnum);
    FlushedLooksLike(t, Safe, alnum);
    LooksLikeClassify(line + FlushedFrom(s, 0, Safe, false, alnum) + FlushedFrom(t, 0, Safe, false, alnum), line + s + t, true);
  }

  /** With nothing held back, every continuation is free of markers exactly when the guard holds. */
  lemma MarkerFreeIffGuarded(st: State, alnum: char -> bool)
    requires OutsideSpans(st) && st.prefix == ""
    ensures MarkerFreeFrom(st, alnum) <==> Guarded(st)
  {
    hide Classify, CurrentLine, EndedLinesSafe, FirstLine, Collected, MarkerFreeFrom;
    if Guarded(st) {
      GuardedIsMarkerFree(st, alnum);
    }
    if MarkerFreeFrom(st, alnum) {
      ContinuationIsSafe(st, [], alnum);
      NothingHeld(st, alnum);
      assert EndedLinesSafe(st.output);
    }
    if MarkerFreeFrom(st, alnum) && CurrentLine(st.output) != "" {
      if NoBreak(Collected(st.images)) {
        CompletedTextStaysUnmarked(st, alnum);
      } else {
        BrokenTextStaysUnmarked(st, alnum);
      }
    }
  }

  lemma GuardedIsMarkerFree(st: State, alnum: char -> bool)
    requires Guarded(st)
    ensures MarkerFreeFrom(st, alnum)
  {
    hide Guarded, Run, Finish, Unmarked;
    forall events | AllText(st, events)
      ensures Unmarked(Finish(Run(st, events, alnum), alnum))
    {
      RunIsGuarded(st, events, alnum);
      GuardedFinishesUnmarked(Run(st, events, alnum), alnum);
    }
  }
}
