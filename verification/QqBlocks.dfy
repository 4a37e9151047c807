/**
 Block tags around text: exactly when the text before a tag can become a block marker.
 */
module QqBlocks {
  import opened Wrappers
  import opened Characters
  import opened CodeMarkup
  import opened QqRenderer
  import opened QqMarkers
  import opened QqContinuations
  import opened QqLinks
  import opened QqLinkMarkers
  import opened QqSight
  import opened QqText

  // ----- Runs with block tags -----

  /**
   Block tags. Those the parser never separates are taken together: a list and its first item, a
   code block and its text.
   */
  datatype Block =
    | HeadingStart(level: nat) | ListStart(first: Option<nat>) | ItemStart
    | Fenced(info: Option<string>, content: seq<string>)
    | TableStart | RowStart(head: bool) | CellStart | Task(checked: bool)
    | BlockEnd(tag: TagEnd)

  datatype Segment = Inline(piece: Piece) | Structure(block: Block)

  function BlockEvents(b: Block): seq<Event> {
    match b
    case HeadingStart(level) => [Start(Heading(level))]
    case ListStart(first) => [Start(List(first))] + [Start(Item)]
    case ItemStart => [Start(Item)]
    case Fenced(info, content) => [Start(CodeBlock(info))] + Texts(content) + [End(EndCodeBlock)]
    case TableStart => [Start(Table)]
    case RowStart(head) => [Start(if head then TableHead else TableRow)]
    case CellStart => [Start(TableCell)]
    case Task(checked) => [TaskListMarker(checked)]
    case BlockEnd(tag) => [End(tag)]
  }

  function SegmentEvents(s: Segment): seq<Event> {
    match s
    case Inline(piece) => PieceEvents(piece)
    case Structure(block) => BlockEvents(block)
  }

  function AllEvents(segments: seq<Segment>): seq<Event> {
    if segments == [] then [] else AllEvents(segments[..|segments| - 1]) + SegmentEvents(segments[|segments| - 1])
  }

  ghost predicate ValidSegment(s: Segment) {
    match s
    case Inline(Plain(e)) => IsTextEvent(e)
    case Inline(WholeLink(_, content)) => IsLabel(content)
    case Structure(b) =>
      b.BlockEnd? ==> b.tag in {EndHeading, EndList, EndItem, EndTable, EndTableHead, EndTableRow, EndTableCell}
  }

  /** The state after the first `k` segments of a run. */
  function StateAfter(segments: seq<Segment>, k: nat, alnum: char -> bool): State
    requires k <= |segments|
  {
    Run(INITIAL, AllEvents(segments[..k]), alnum)
  }

  lemma StateAfterNext(segments: seq<Segment>, k: nat, alnum: char -> bool)
    requires k < |segments|
    ensures StateAfter(segments, k + 1, alnum) == Run(StateAfter(segments, k, alnum), SegmentEvents(segments[k]), alnum)
  {
    hide Run, SegmentEvents;
    assert segments[..k + 1][..k] == segments[..k];
    RunAppend(INITIAL, AllEvents(segments[..k]), SegmentEvents(segments[k]), alnum);
  }

  // ----- The renderer's own markup -----

  /** The output before the markup that a block tag writes. */
  function TextBefore(st: State, b: Block, alnum: char -> bool): string {
    var out := Flush(st, false, alnum).output;
    match b
    case HeadingStart(_) => EnsureParagraphBreak(out)
    case Fenced(_, _) => EnsureParagraphBreak(out)
    case ListStart(_) => EnsureLineBreak(if st.lists == [] then EnsureParagraphBreak(out) else out)
    case _ => EnsureLineBreak(out)
  }

  /** The positions of the output that hold markup written for the block itself. */
  function Marks(st: State, b: Block, alnum: char -> bool): set<nat> {
    if b.HeadingStart? || b.ListStart? || b.ItemStart? || b.Fenced? then
      Range(|TextBefore(st, b, alnum)|, |Run(st, BlockEvents(b), alnum).output|)
    else {}
  }

  function OwnMarks(segments: seq<Segment>, k: nat, alnum: char -> bool): set<nat>
    requires k <= |segments|
  {
    if k == 0 then {}
    else
      OwnMarks(segments, k - 1, alnum)
      + if segments[k - 1].Structure? then Marks(StateAfter(segments, k - 1, alnum), segments[k - 1].block, alnum) else {}
  }

  // ----- The condition -----

  /** The open line as it would read with the line start that is still held back. */
  function OpenLine(st: State): string {
    CurrentLine(st.output) + st.prefix
  }

  /**
   When a block tag leaves the text before it text. Tags that end the open line without a line break
   in the text: it must be no marker as a whole line. A table cell: a space must not complete one.
   */
  predicate BlockHarmless(st: State, b: Block) {
    match b
    case CellStart => Classify(OpenLine(st) + " ", false) != MarkdownMarker
    case Task(_) => true
    case BlockEnd(_) => true
    case _ => Classify(OpenLine(st), true) != MarkdownMarker
  }

  /** When the end of a paragraph inside a list item, which ends no line, leaves the line text. */
  ghost predicate ParagraphHarmless(st: State) {
    Classify(st.prefix, true) == MarkdownMarker || Unmarkable(OpenLine(st), Collected(st.images))
  }

  // ----- The line a tag ends -----

  lemma FlushedOpenLine(st: State, alnum: char -> bool)
    requires Guarded(st)
    ensures var f := Flush(st, false, alnum);
      && f == st.(output := f.output, prefix := "") && EndedLinesSafe(f.output)
      && LooksLike(CurrentLine(f.output), OpenLine(st))
  {
    hide Classify, FlushedFrom, CurrentLine, EndedLinesSafe, Unmarkable, Collected, Matters, Flush;
    GuardedFlushes(st, alnum);
    if st.prefix == "" {
      FlushedOfNothing(alnum);
    } else {
      FlushedLooksLike(st.prefix, Pending, alnum);
    }
  }

  /** Ending the line without a line break in the text. */
  lemma EndedLineIff(st: State, alnum: char -> bool)
    requires Guarded(st)
    ensures LinesSafe(Flush(st, false, alnum).output) <==> Classify(OpenLine(st), true) != MarkdownMarker
  {
    hide Classify, CurrentLine, EndedLinesSafe, Guarded, LooksLike, Flush;
    FlushedOpenLine(st, alnum);
    LooksLikeClassify(CurrentLine(Flush(st, false, alnum).output), OpenLine(st), true);
  }

  lemma LineBreakIff(out: string)
    ensures CurrentLine(EnsureLineBreak(out)) == "" && (EndedLinesSafe(EnsureLineBreak(out)) <==> LinesSafe(out))
  {
    hide Classify, CurrentLine;
    EmptyLineIsSafe();
    AppendBreak(out);
    LineStartIff(out);
  }

  lemma ParagraphBreakIff(out: string)
    ensures CurrentLine(EnsureParagraphBreak(out)) == ""
    ensures EndedLinesSafe(EnsureParagraphBreak(out)) <==> LinesSafe(out)
  {
    hide Classify, CurrentLine, EndedLinesSafe;
    EmptyLineIsSafe();
    LineBreakIff(out);
    AppendBreak(EnsureLineBreak(out));
    LineStartIff(out);
    if EndsWith(out, "\n\n") {
      assert out[|out| - 1..] == out[|out| - 2..][1..] == "\n";
    }
  }

  /** Blotted markup after finished lines is safe text. */
  lemma {:induction false} MarklessTextIsSafe(s: string, t: string)
    requires EndedLinesSafe(s) && CurrentLine(s) == ""
    requires forall k :: 0 <= k < |t| ==> Blot(t[k]) == t[k]
    ensures EndedLinesSafe(s + t) && Classify(CurrentLine(s + t), false) == Safe
    decreases |t|
  {
    hide Classify, EndedLinesSafe, CurrentLine, Blot;
    EmptyLineIsSafe();
    if t == "" {
      assert s + t == s;
    } else {
      var shorter, c := t[..|t| - 1], t[|t| - 1];
      var line := CurrentLine(s + shorter);
      MarklessTextIsSafe(s, shorter);
      assert s + t == s + shorter + [c];
      if c == '\n' {
        AppendBreak(s + shorter);
        SafeIsNoMarkerIf(line);
      } else {
        AppendWithoutBreak(s + shorter, [c]);
        if line == "" {
          assert line + [c] == [c];
          MarklessStartIsSafe(c);
        } else {
          SafeStaysSafe(line, c);
        }
      }
    }
  }

  lemma MarklessStartIsSafe(c: char)
    requires Blot(c) == c
    ensures Classify([c], false) == Safe
  {
  }


  // ----- Tags that write markup -----

  /** Finished lines and then markup: what is in sight is guarded exactly when the finished lines are safe. */
  lemma MarkupIsGuardedIff(after: State, before: string, t: string)
    requires OutsideSpans(after) && after.prefix == "" && after.output == before + t && CurrentLine(before) == ""
    ensures Guarded(Sight(after, Range(|before|, |after.output|))) <==> EndedLinesSafe(before)
  {
    hide Classify, CurrentLine, EndedLinesSafe, Blot, Blotted, Collected, Unmarkable;
    BlottedTail(before, t);
    var blotted := Blotted(after.output, Range(|before|, |after.output|));
    if EndedLinesSafe(before) {
      MarklessTextIsSafe(before, blotted[|before|..]);
      SafeIsUnmarkable(CurrentLine(blotted), Collected(after.images));
    }
    if EndedLinesSafe(blotted) {
      EndedPrefix(before, blotted[|before|..]);
    }
  }

  lemma {:induction false} BufferedText(st: State, texts: seq<string>, alnum: char -> bool)
    requires st.codeBlock.Some?
    ensures var r := Run(st, Texts(texts), alnum);
      r == st.(images := r.images, codeBlock := r.codeBlock) && r.codeBlock.Some?
    decreases |texts|
  {
    if texts != [] {
      assert Texts(texts)[1..] == Texts(texts[1..]);
      BufferedText(Step(st, Text(texts[0]), alnum), texts[1..], alnum);
    }
  }

  lemma RunOfFenced(st: State, info: Option<string>, content: seq<string>, alnum: char -> bool)
    requires OutsideSpans(st)
    ensures var r, f := Run(st, BlockEvents(Fenced(info, content)), alnum), Flush(st, false, alnum);
      OutsideSpans(r) && r.prefix == "" && EnsureParagraphBreak(f.output) <= r.output
  {
    hide Flush, EnsureParagraphBreak, PushParagraphBreak, FencedBlock, FilterLanguage, StartTag, Run, Texts;
    var opening, closing := [Start(CodeBlock(info))], [End(EndCodeBlock)];
    FlushShape(st, false, alnum);
    RunAppend(st, opening + Texts(content), closing, alnum);
    RunAppend(st, opening, Texts(content), alnum);
    RunOfOne(st, opening[0], alnum);
    CodeOpens(st, info, alnum);
    var inside := StartTag(st, CodeBlock(info), alnum);
    BufferedText(inside, content, alnum);
    var filled := Run(inside, Texts(content), alnum);
    RunOfOne(filled, closing[0], alnum);
    var before := EnsureParagraphBreak(filled.output);
    BlottedBreaks(before + FencedBlock(filled.codeBlock.value.language, filled.codeBlock.value.content), {});
  }

  lemma CodeOpens(st: State, info: Option<string>, alnum: char -> bool)
    ensures var f, r := Flush(st, false, alnum), StartTag(st, CodeBlock(info), alnum);
      r == f.(codeBlock := r.codeBlock) && r.codeBlock.Some?
  {
  }

  lemma RunOfMarkup(st: State, b: Block, alnum: char -> bool)
    requires OutsideSpans(st) && (b.HeadingStart? || b.ListStart? || b.ItemStart? || b.Fenced?)
    ensures var r := Run(st, BlockEvents(b), alnum);
      OutsideSpans(r) && r.prefix == "" && TextBefore(st, b, alnum) <= r.output
  {
    hide Run, Flush, EnsureParagraphBreak, EnsureLineBreak, Indent, HeadingPrefix;
    FlushShape(st, false, alnum);
    match b
    case HeadingStart(level) => RunOfOne(st, Start(Heading(level)), alnum);
    case ItemStart => RunOfOne(st, Start(Item), alnum);
    case ListStart(first) =>
      var listed := Step(st, Start(List(first)), alnum);
      RunAppend(st, [Start(List(first))], [Start(Item)], alnum);
      RunOfOne(st, Start(List(first)), alnum);
      RunOfOne(listed, Start(Item), alnum);
      FlushedAlready(listed, alnum);
    case Fenced(info, content) => RunOfFenced(st, info, content, alnum);
  }

  lemma MarkupKeepsGuardIff(st: State, b: Block, alnum: char -> bool)
    requires Guarded(st) && (b.HeadingStart? || b.ListStart? || b.ItemStart? || b.Fenced?)
    ensures var after := Run(st, BlockEvents(b), alnum);
      && OutsideSpans(after) && after.prefix == ""
      && (Guarded(Sight(after, Marks(st, b, alnum))) <==> BlockHarmless(st, b))
  {
    hide Run, Flush, EnsureParagraphBreak, EnsureLineBreak, Classify, CurrentLine, EndedLinesSafe, LinesSafe, Blotted,
      BlockEvents, Unmarkable, Collected, OpenLine;
    var f, after, before := Flush(st, false, alnum), Run(st, BlockEvents(b), alnum), TextBefore(st, b, alnum);
    RunOfMarkup(st, b, alnum);
    EndedLineIff(st, alnum);
    LineBreakIff(f.output);
    ParagraphBreakIff(f.output);
    LineBreakIff(EnsureParagraphBreak(f.output));
    EmptyIsUnmarked(EnsureParagraphBreak(f.output));
    assert after.output == before + after.output[|before|..];
    MarkupIsGuardedIff(after, before, after.output[|before|..]);
  }

  lemma EmptyIsUnmarked(s: string)
    requires CurrentLine(s) == ""
    ensures LinesSafe(s) <==> EndedLinesSafe(s)
  {
    EmptyLineIsSafe();
  }

  // ----- Tags that write no markup -----

  lemma {:induction false} OnlyCharMatters(s: string, c: char, k: nat)
    requires OnlyCharOrSpace(s, c) && k < |s|
    ensures s[k] == c || IsWhitespace(s[k])
  {
    if k > 0 {
      OnlyCharMatters(s[1..], c, k - 1);
    }
  }

  lemma {:induction false} LeadingHashAt(s: string, k: nat)
    requires k < LeadingHashes(s)
    ensures s[k] == '#'
  {
    if k > 0 {
      LeadingHashAt(s[1..], k - 1);
    }
  }

  /** A pending line start consists of characters that matter. */
  lemma PendingMatters(s: string, k: nat)
    requires Classify(s, false) == Pending && k < |s|
    ensures Matters(s[k])
  {
    hide LeadingHashes, LeadingDigits, OnlyCharOrSpace, CountOf, IsWhitespace;
    if s[0] == '#' {
      LeadingHashAt(s, k);
    } else if s[0] == '-' || s[0] == '=' {
      OnlyCharMatters(s, s[0], k);
    } else if IsAsciiDigit(s[0]) {
      LeadingDigitsAreDigits(s);
    }
  }

  /** A space that makes no marker, and a slash behind it, settle an open line. */
  lemma SpaceSettlesIff(line: string)
    requires line == "" || Classify(line, false) != MarkdownMarker
    ensures if Classify(line + " ", false) == MarkdownMarker
            then Classify(line + " / ", true) == MarkdownMarker else Classify(line + " / ", false) == Safe
  {
    hide Classify, Matters;
    var spaced := line + " ";
    assert line + " / " == spaced + ['/'] + [' '];
    if Classify(spaced, false) == MarkdownMarker {
      MarkerStaysMarker(spaced, '/');
      MarkerStaysMarker(spaced + ['/'], ' ');
      MarkerAtLineEnd(line + " / ");
    } else {
      SlashDoesNotMatter();
      if Classify(spaced, false) == Pending {
        PendingThenPlain(spaced, '/');
      } else {
        SafeStaysSafe(spaced, '/');
      }
      SafeStaysSafe(spaced + ['/'], ' ');
    }
  }

  lemma MarkerAtLineEnd(s: string)
    ensures Classify(s, false) == MarkdownMarker ==> Classify(s, true) == MarkdownMarker
  {
  }

  lemma SlashDoesNotMatter()
    ensures !Matters('/')
  {
    PrintableIsNotWhitespace('/');
  }

  /** The open line of a guarded state is not a marker yet. */
  lemma OpenLineIsUndecided(st: State)
    requires Guarded(st)
    ensures Classify(OpenLine(st), false) != MarkdownMarker
    ensures Classify(OpenLine(st), false) == Safe || st.prefix == "" || OpenLine(st) == st.prefix
  {
    hide Classify, CurrentLine, EndedLinesSafe, Collected, FirstLine;
    var line := CurrentLine(st.output);
    assert line + "" == line;
    EmptyLineIsSafe();
    MarkerAtLineEnd(line);
    if line != "" && st.prefix != "" {
      SafeStaysSafeBy(line, st.prefix);
    } else {
      assert line == "" ==> line + st.prefix == st.prefix;
    }
  }

  /** What a flushed undecided start ends with is no separator: a cell always adds one. */
  lemma UndecidedIsNotSeparated(st: State, alnum: char -> bool)
    requires Guarded(st) && st.prefix != "" && Classify(OpenLine(st), false) != Safe
    ensures var out := Flush(st, false, alnum).output; !EndsWith(out, "\n") && !EndsWith(out, " / ")
  {
    hide Classify, CurrentLine, EndedLinesSafe, FlushedFrom, Matters, Collected, Unmarkable, OpenLine;
    var p := st.prefix;
    var out, flushed := Flush(st, false, alnum).output, FlushedFrom(p, 0, Pending, false, alnum);
    LineOrPrefix(st);
    LineStartIff(st.output);
    FlushedLooksLike(p, Pending, alnum);
    FlushedHasNoBreak(p, Pending, alnum);
    SlashDoesNotMatter();
    var n, last := |st.output|, |out| - 1;
    assert out[last] == flushed[|p| - 1];
    EndsWithBreak(st.output);
    EndsWithBreak(out);
    if |p| > 1 {
      PendingMatters(p, |p| - 2);
      assert out[last - 1] == flushed[|p| - 2];
      NotSeparated(out);
    } else {
      assert n > 0 ==> out[last - 1] == st.output[n - 1];
      NotSeparated(out);
    }
  }

  lemma NotSeparated(s: string)
    requires |s| > 1 ==> s[|s| - 2] != '/'
    ensures !EndsWith(s, " / ")
  {
    if |s| >= 3 {
      assert s[|s| - 3..][1] == s[|s| - 2];
    }
  }

  lemma LineOrPrefix(st: State)
    requires Guarded(st) && st.prefix != "" && Classify(OpenLine(st), false) != Safe
    ensures CurrentLine(st.output) == ""
  {
    hide Classify, CurrentLine, EndedLinesSafe;
    if CurrentLine(st.output) != "" {
      SafeStaysSafeBy(CurrentLine(st.output), st.prefix);
    }
  }

  /** A table cell. */
  lemma CellKeepsGuardIff(st: State, alnum: char -> bool)
    requires Guarded(st)
    ensures var after := Step(st, Start(TableCell), alnum);
      && OutsideSpans(after) && after.prefix == ""
      && (Guarded(after) <==> BlockHarmless(st, CellStart))
  {
    hide Classify, CurrentLine, EndedLinesSafe, Matters, Collected, FirstLine, Flush, OpenLine, LooksLike;
    var f, line := Flush(st, false, alnum), OpenLine(st);
    FlushedOpenLine(st, alnum);
    OpenLineIsUndecided(st);
    SpaceSettlesIff(line);
    var written := CurrentLine(f.output);
    if EndsWith(f.output, "\n") || EndsWith(f.output, " / ") {
      SettledCell(st, alnum);
    } else {
      AppendWithoutBreak(f.output, " / ");
      LooksLikeMore(written, line, " / ");
      LooksLikeClassify(written + " / ", line + " / ", true);
      LooksLikeClassify(written + " / ", line + " / ", false);
      if Classify(line + " ", false) != MarkdownMarker {
        SafeIsUnmarkable(written + " / ", Collected(st.images));
      }
    }
  }

  lemma LooksLikeMore(s: string, t: string, more: string)
    requires LooksLike(s, t)
    ensures LooksLike(s + more, t + more)
  {
    hide Matters;
  }

  /** A cell that adds no separator. */
  lemma SettledCell(st: State, alnum: char -> bool)
    requires Guarded(st)
    requires var out := Flush(st, false, alnum).output; EndsWith(out, "\n") || EndsWith(out, " / ")
    ensures Guarded(Flush(st, false, alnum)) && BlockHarmless(st, CellStart)
  {
    hide Classify, CurrentLine, EndedLinesSafe, Matters, Collected, FirstLine, LooksLike, FlushedFrom;
    var f, line := Flush(st, false, alnum), OpenLine(st);
    FlushedOpenLine(st, alnum);
    OpenLineIsUndecided(st);
    if st.prefix != "" {
      if Classify(line, false) != Safe {
        UndecidedIsNotSeparated(st, alnum);
      }
      LooksLikeClassify(CurrentLine(f.output), line, false);
      SafeIsUnmarkable(CurrentLine(f.output), Collected(st.images));
    } else {
      LineStartIff(st.output);
      SeparatedLineIsDecided(st.output);
      assert line == CurrentLine(st.output);
    }
    SpaceIsSafe();
    if line == "" {
      assert line + " " == " ";
    } else {
      SafeStaysSafe(line, ' ');
    }
  }

  lemma SeparatedLineIsDecided(s: string)
    ensures EndsWith(s, " / ") ==> Classify(CurrentLine(s), false) != Pending
  {
    hide Classify, CurrentLine, Matters;
    if EndsWith(s, " / ") {
      var shorter := s[..|s| - 3];
      assert s == shorter + " / ";
      AppendWithoutBreak(shorter, " / ");
      var line := CurrentLine(s);
      assert line[|line| - 2] == '/';
      SlashDoesNotMatter();
      if Classify(line, false) == Pending {
        PendingMatters(line, |line| - 2);
      }
    }
  }

  /** The start of a table or of one of its rows. */
  lemma RowKeepsGuardIff(st: State, b: Block, alnum: char -> bool)
    requires Guarded(st) && (b.TableStart? || b.RowStart?)
    ensures var after := Run(st, BlockEvents(b), alnum);
      && OutsideSpans(after) && after.prefix == ""
      && (Guarded(after) <==> BlockHarmless(st, b))
  {
    hide Run, Flush, EnsureParagraphBreak, EnsureLineBreak, Classify, CurrentLine, EndedLinesSafe, LinesSafe, Collected,
      OpenLine;
    var f := Flush(st, false, alnum);
    FlushShape(st, false, alnum);
    RunOfOne(st, BlockEvents(b)[0], alnum);
    EndedLineIff(st, alnum);
    LineBreakIff(f.output);
    ParagraphBreakIff(f.output);
  }

  /** A task marker starts with a bracket, which settles every open line. */
  lemma TaskKeepsGuard(st: State, checked: bool, alnum: char -> bool)
    requires Guarded(st)
    ensures Guarded(Step(st, TaskListMarker(checked), alnum))
  {
    hide Classify, CurrentLine, EndedLinesSafe, Matters, Collected, FirstLine, Flush, OpenLine, LooksLike;
    var f, line, mark := Flush(st, false, alnum), OpenLine(st), if checked then "[x] " else "[ ] ";
    FlushedOpenLine(st, alnum);
    OpenLineIsUndecided(st);
    BracketDoesNotMatter();
    assert Classify(line + ['['], false) == Safe by {
      if line == "" {
        assert line + ['['] == "[";
        UnmarkedStartIsSafe("[", false);
      } else if Classify(line, false) == Pending {
        PendingThenPlain(line, '[');
      } else {
        SafeStaysSafe(line, '[');
      }
    }
    SafeStaysSafeBy(line + ['['], mark[1..]);
    assert line + ['['] + mark[1..] == line + mark;
    AppendWithoutBreak(f.output, mark);
    LooksLikeMore(CurrentLine(f.output), line, mark);
    LooksLikeClassify(CurrentLine(f.output) + mark, line + mark, false);
    SafeIsUnmarkable(CurrentLine(f.output) + mark, Collected(st.images));
  }

  /** Closing block tags end the line as a line break does. */
  lemma BlockEndKeepsGuard(st: State, tag: TagEnd, alnum: char -> bool)
    requires Guarded(st) && ValidSegment(Structure(BlockEnd(tag)))
    ensures Guarded(Step(st, End(tag), alnum))
  {
    hide Classify, Collected, Unmarkable, EnsureLineBreak, PushParagraphBreak, CurrentLine, EndedLinesSafe, Flush,
      LinesSafe;
    FlushAtLineEnd(st, alnum);
    var out := Flush(st, true, alnum).output;
    match tag
    case EndItem => EnsureLineBreakIsGuarded(st.(inItem := if st.inItem == 0 then 0 else st.inItem - 1), out);
    case EndList => ListEndKeepsGuard(st, if st.lists == [] then [] else st.lists[..|st.lists| - 1]);
    case _ =>
      EnsureLineBreakIsGuarded(st, out);
      ParagraphBreakIsGuarded(st, out);
  }

  /** The end of the outermost list does not flush; what is held back moves to the new line. */
  lemma ListEndKeepsGuard(st: State, lists: seq<Option<nat>>)
    requires Guarded(st)
    ensures Guarded(st.(lists := lists)) && Guarded(st.(lists := lists, output := PushParagraphBreak(st.output)))
  {
    hide Classify, Collected, CurrentLine, EndedLinesSafe, PushParagraphBreak, FirstLine;
    assert LinesSafe(st.output) by {
      EmptyLineIsSafe();
      SafeIsNoMarkerIf(CurrentLine(st.output));
    }
    var shut := st.(lists := lists, output := PushParagraphBreak(st.output), prefix := "");
    ParagraphBreakIsGuarded(st.(lists := lists), st.output);
    assert CurrentLine(shut.output) == "" by { PushedBreakEndsLine(st.output); }
    EmptyLineIsSafe();
  }

  lemma PushedBreakEndsLine(s: string)
    ensures CurrentLine(PushParagraphBreak(s)) == ""
  {
    hide CurrentLine;
    AppendBreak(EnsureLineBreak(s));
    LineStartIff(s);
    if EndsWith(s, "\n\n") {
      assert s[|s| - 1..] == s[|s| - 2..][1..] == "\n";
    }
  }

  /** The end of a paragraph within a list item writes the line start out and ends no line. */
  lemma ParagraphKeepsGuardIff(st: State, alnum: char -> bool)
    requires Guarded(st) && st.inItem > 0
    ensures var after := Step(st, End(EndParagraph), alnum);
      && OutsideSpans(after) && after.prefix == ""
      && (Guarded(after) <==> ParagraphHarmless(st))
  {
    hide Classify, CurrentLine, EndedLinesSafe, Matters, Collected, FirstLine, Flush, FlushedFrom, LooksLike;
    var f, line, p, held := Flush(st, true, alnum), CurrentLine(st.output), st.prefix, Collected(st.images);
    var kind := Classify(p, true);
    var flushed := FlushedFrom(p, 0, kind, false, alnum);
    FlushedLine(st, true, alnum);
    if line != "" && p != "" {
      SafeStaysSafeBy(line, flushed);
      SafeStaysSafeBy(line, p);
      SafeIsUnmarkable(line + flushed, held);
      SafeIsUnmarkable(line + p, held);
    } else if p == "" {
      FlushedOfNothing(alnum);
      EmptyLineIsSafe();
      assert line + "" == line;
    } else {
      assert line + flushed == flushed && line + p == p;
      if kind == MarkdownMarker {
        FlushedMarkerIsSafe(p, alnum, true);
        SafeIsUnmarkable(flushed, held);
      } else {
        FlushedLooksLike(p, kind, alnum);
        FlushedLength(p, 0, kind, false, alnum);
        LooksLikeMore(flushed, p, held);
        LooksLikeMore(flushed, p, FirstLine(held));
        LooksLikeClassify(flushed, p, true);
        LooksLikeClassify(flushed + held, p + held, false);
        LooksLikeClassify(flushed + FirstLine(held), p + FirstLine(held), true);
      }
    }
  }

  // ----- Every block -----

  /** A block tag keeps the guard, its own markup out of sight, exactly when it is harmless. */
  lemma BlockKeepsGuardIff(st: State, b: Block, alnum: char -> bool)
    requires Guarded(st) && ValidSegment(Structure(b))
    ensures var after := Sight(Run(st, BlockEvents(b), alnum), Marks(st, b, alnum));
      && (Guarded(after) <==> BlockHarmless(st, b))
      && (after.prefix != "" ==> Guarded(after)) && OutsideSpans(after)
  {
    hide Run, Flush, Classify, Guarded, Blotted, Step;
    if b.HeadingStart? || b.ListStart? || b.ItemStart? || b.Fenced? {
      MarkupKeepsGuardIff(st, b, alnum);
    } else {
      NothingBlotted(Run(st, BlockEvents(b), alnum));
      match b
      case CellStart =>
        RunOfOne(st, Start(TableCell), alnum);
        CellKeepsGuardIff(st, alnum);
      case Task(checked) =>
        RunOfOne(st, TaskListMarker(checked), alnum);
        TaskKeepsGuard(st, checked, alnum);
        GuardedIsOutside(Step(st, TaskListMarker(checked), alnum));
      case BlockEnd(tag) =>
        RunOfOne(st, End(tag), alnum);
        BlockEndKeepsGuard(st, tag, alnum);
        GuardedIsOutside(Step(st, End(tag), alnum));
      case _ => RowKeepsGuardIff(st, b, alnum);
    }
  }
}
