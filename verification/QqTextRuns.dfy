/**
 Whole runs of the renderer: text stays text around lists, headings, tables, code blocks and links,
 exactly when every segment is harmless.
 */
module QqTextRuns {
  import opened Wrappers
  import opened Characters
  import opened InlineEscape
  import opened QqRenderer
  import opened QqMarkers
  import opened QqContinuations
  import opened QqLinks
  import opened QqLinkMarkers
  import opened QqSight
  import opened QqText
  import opened QqBlocks

  // ----- Runs -----

  /** The state after the first `k` segments with all markup of the renderer's own blotted out. */
  function TextState(segments: seq<Segment>, k: nat, alnum: char -> bool): State
    requires k <= |segments|
  {
    Sight(StateAfter(segments, k, alnum), OwnMarks(segments, k, alnum))
  }

  /** Segment `k` leaves the text before it text. */
  ghost predicate HarmlessHere(segments: seq<Segment>, k: nat, alnum: char -> bool)
    requires k < |segments|
  {
    var st := TextState(segments, k, alnum);
    match segments[k]
    case Inline(Plain(e)) => e == End(EndParagraph) && st.inItem > 0 ==> ParagraphHarmless(st)
    case Inline(WholeLink(url, content)) => Harmless(st, url, content)
    case Structure(b) => BlockHarmless(st, b)
  }

  /**
   However text goes on after the first `k` segments, no line of the finished output is a block
   marker once the renderer's own markup is blotted out.
   */
  ghost predicate TextStaysText(segments: seq<Segment>, k: nat, alnum: char -> bool)
    requires k <= |segments|
  {
    var st := StateAfter(segments, k, alnum);
    forall events :: AllText(st, events) ==>
      Unmarked(Blotted(Finish(Run(st, events, alnum), alnum), OwnMarks(segments, k, alnum)))
  }

  ghost predicate AllValid(segments: seq<Segment>) {
    forall k :: 0 <= k < |segments| ==> ValidSegment(segments[k])
  }

  predicate IsLinkTag(e: Event) {
    e == End(EndLink) || (e.Start? && e.tag.Link?)
  }

  lemma {:induction false} RunKeepsLinks(st: State, es: seq<Event>, alnum: char -> bool)
    requires forall k :: 0 <= k < |es| ==> !IsLinkTag(es[k])
    ensures Run(st, es, alnum).links == st.links
    decreases |es|
  {
    hide Step;
    if es != [] {
      PlainKeepsLinks(st, es[0], alnum);
      RunKeepsLinks(Step(st, es[0], alnum), es[1..], alnum);
    }
  }

  lemma {:induction false} TextsAreText(texts: seq<string>)
    ensures forall k :: 0 <= k < |Texts(texts)| ==> Texts(texts)[k].Text?
  {
    if texts != [] {
      TextsAreText(texts[1..]);
    }
  }

  lemma SegmentKeepsLinks(st: State, s: Segment, alnum: char -> bool)
    requires ValidSegment(s)
    ensures Run(st, SegmentEvents(s), alnum).links == st.links
  {
    hide Run, IsLabel, Step, PieceEvents;
    match s
    case Inline(piece) => PieceKeepsLinks(st, piece, alnum);
    case Structure(b) =>
      if b.Fenced? {
        TextsAreText(b.content);
      }
      RunKeepsLinks(st, BlockEvents(b), alnum);
  }

  lemma {:induction false} NoLinkIsOpen(segments: seq<Segment>, k: nat, alnum: char -> bool)
    requires k <= |segments| && AllValid(segments)
    ensures StateAfter(segments, k, alnum).links == []
  {
    hide SegmentEvents, ValidSegment, StateAfter;
    if k == 0 {
      StateAfterNothing(segments, alnum);
    } else {
      NoLinkIsOpen(segments, k - 1, alnum);
      StateAfterNext(segments, k - 1, alnum);
      SegmentKeepsLinks(StateAfter(segments, k - 1, alnum), segments[k - 1], alnum);
    }
  }

  lemma StateAfterNothing(segments: seq<Segment>, alnum: char -> bool)
    ensures StateAfter(segments, 0, alnum) == INITIAL
  {
  }

  /** The renderer's own markup lies within the output. */
  lemma {:induction false} OwnMarksAreWithin(segments: seq<Segment>, k: nat, alnum: char -> bool)
    requires k <= |segments| && AllValid(segments)
    ensures Within(StateAfter(segments, k, alnum), OwnMarks(segments, k, alnum))
  {
    hide SegmentEvents, ValidSegment, StateAfter, Run, TextBefore, AllValid;
    if k > 0 {
      var st := StateAfter(segments, k - 1, alnum);
      OwnMarksAreWithin(segments, k - 1, alnum);
      StateAfterNext(segments, k - 1, alnum);
      NoLinkIsOpen(segments, k, alnum);
      RunInSight(st, SegmentEvents(segments[k - 1]), OwnMarks(segments, k - 1, alnum), alnum);
      if segments[k - 1].Structure? {
        EventsOfBlock(segments[k - 1].block);
      }
    }
  }

  lemma EventsOfBlock(b: Block)
    ensures SegmentEvents(Structure(b)) == BlockEvents(b)
  {
  }

  /** Where a block's markup goes does not depend on earlier markup. */
  lemma MarksInSight(st: State, b: Block, own: set<nat>, alnum: char -> bool)
    requires Within(st, own)
    ensures Marks(Sight(st, own), b, alnum) == Marks(st, b, alnum)
  {
    hide Run, Flush, Blotted, EnsureLineBreak, EnsureParagraphBreak, BlockEvents;
    var out := Flush(st, false, alnum).output;
    FlushInSight(st, own, false, alnum);
    RunInSight(st, BlockEvents(b), own, alnum);
    BlottedBreaks(out, own);
    BlottedBreaks(EnsureParagraphBreak(out), own);
    BlottedLength(Run(st, BlockEvents(b), alnum).output, own);
    BlottedLength(EnsureLineBreak(out), own);
    BlottedLength(EnsureParagraphBreak(out), own);
    BlottedLength(EnsureLineBreak(EnsureParagraphBreak(out)), own);
  }

  /** One segment takes the text to the text. */
  lemma TextStateNext(segments: seq<Segment>, k: nat, alnum: char -> bool)
    requires k < |segments| && AllValid(segments)
    ensures var st, after := TextState(segments, k, alnum), TextState(segments, k + 1, alnum);
      match segments[k]
      case Inline(piece) => after == Run(st, PieceEvents(piece), alnum)
      case Structure(b) => after == Sight(Run(st, BlockEvents(b), alnum), Marks(st, b, alnum))
  {
    hide Run, Marks, StateAfter, PieceEvents, BlockEvents, Sight, Within, AllValid;
    var st, own := StateAfter(segments, k, alnum), OwnMarks(segments, k, alnum);
    OwnMarksAreWithin(segments, k, alnum);
    StateAfterNext(segments, k, alnum);
    RunInSight(st, SegmentEvents(segments[k]), own, alnum);
    match segments[k]
    case Inline(piece) => assert own + {} == own;
    case Structure(b) =>
      BlottedTwice(Run(st, BlockEvents(b), alnum), own, Marks(st, b, alnum));
      MarksInSight(st, b, own, alnum);
  }

  /** A segment keeps the guard on the text, and keeps every continuation free of markers, exactly when it is harmless. */
  lemma SegmentKeepsGuardIff(segments: seq<Segment>, k: nat, alnum: char -> bool)
    requires k < |segments| && AllValid(segments) && Guarded(TextState(segments, k, alnum))
    ensures Guarded(TextState(segments, k + 1, alnum)) <==> HarmlessHere(segments, k, alnum)
    ensures MarkerFreeFrom(TextState(segments, k + 1, alnum), alnum) <==> HarmlessHere(segments, k, alnum)
  {
    hide Run, Marks, TextState, LinkEvents, BlockEvents, Sight, Guarded, MarkerFreeFrom, Harmless, BlockHarmless,
      ParagraphHarmless, Step, IsTextEvent, IsLabel, OutsideSpans;
    var st, after := TextState(segments, k, alnum), TextState(segments, k + 1, alnum);
    TextStateNext(segments, k, alnum);
    assert ValidSegment(segments[k]);
    match segments[k]
    case Inline(Plain(e)) =>
      RunOfOne(st, e, alnum);
      if e == End(EndParagraph) && st.inItem > 0 {
        ParagraphKeepsGuardIff(st, alnum);
        MarkerFreeIffGuarded(after, alnum);
      } else {
        StepIsGuarded(st, e, alnum);
        GuardedIsMarkerFree(after, alnum);
      }
    case Inline(WholeLink(url, content)) =>
      LinkKeepsGuardIff(st, url, content, alnum);
      ContinuationsAreMarkerFreeIff(st, url, content, alnum);
    case Structure(b) =>
      BlockKeepsGuardIff(st, b, alnum);
      if after.prefix == "" {
        MarkerFreeIffGuarded(after, alnum);
      } else {
        GuardedIsMarkerFree(after, alnum);
      }
  }

  /** What is said of the text in sight is said of the output with the markup blotted out. */
  lemma TextStaysTextMeaning(segments: seq<Segment>, k: nat, alnum: char -> bool)
    requires k <= |segments| && AllValid(segments)
    ensures TextStaysText(segments, k, alnum) <==> MarkerFreeFrom(TextState(segments, k, alnum), alnum)
  {
    hide Run, StateAfter, OwnMarks, Finish, Unmarked, Blotted, Within, AllValid, IsTextAt;
    var st, own := StateAfter(segments, k, alnum), OwnMarks(segments, k, alnum);
    var text := Sight(st, own);
    OwnMarksAreWithin(segments, k, alnum);
    forall events
      ensures AllText(st, events) == AllText(text, events)
      ensures Finish(Run(text, events, alnum), alnum) == Blotted(Finish(Run(st, events, alnum), alnum), own)
    {
      TextAtInSight(st, own, events);
      RunInSight(st, events, own, alnum);
      FinishInSight(Run(st, events, alnum), own, alnum);
    }
  }

  lemma TextAtInSight(st: State, own: set<nat>, events: seq<Event>)
    ensures AllText(st, events) == AllText(Sight(st, own), events)
  {
  }

  lemma {:induction false} HarmlessSegmentsKeepGuard(segments: seq<Segment>, k: nat, alnum: char -> bool)
    requires k <= |segments| && AllValid(segments) && forall j :: 0 <= j < k ==> HarmlessHere(segments, j, alnum)
    ensures Guarded(TextState(segments, k, alnum))
  {
    hide StateAfter, Guarded, HarmlessHere, AllValid;
    if k == 0 {
      StateAfterNothing(segments, alnum);
      NothingBlotted(INITIAL);
      InitialIsGuarded();
    } else {
      HarmlessSegmentsKeepGuard(segments, k - 1, alnum);
      SegmentKeepsGuardIff(segments, k - 1, alnum);
    }
  }

  lemma {:induction false} TextStaysMeansHarmless(segments: seq<Segment>, k: nat, alnum: char -> bool)
    requires k <= |segments| && AllValid(segments)
    requires forall j :: 0 <= j <= k ==> MarkerFreeFrom(TextState(segments, j, alnum), alnum)
    ensures forall j :: 0 <= j < k ==> HarmlessHere(segments, j, alnum)
  {
    hide TextState, Guarded, HarmlessHere, AllValid, MarkerFreeFrom;
    if k > 0 {
      TextStaysMeansHarmless(segments, k - 1, alnum);
      HarmlessSegmentsKeepGuard(segments, k - 1, alnum);
      SegmentKeepsGuardIff(segments, k - 1, alnum);
    }
  }

  /**
   Over every run of text, links and block tags: wherever the run stops and text goes on, no line of
   the output but the renderer's own markup becomes a block marker, if and only if every segment is
   harmless where it stands.
   */
  lemma TextStaysTextIff(segments: seq<Segment>, alnum: char -> bool)
    requires AllValid(segments)
    ensures (forall k :: 0 <= k <= |segments| ==> TextStaysText(segments, k, alnum))
       <==> (forall k :: 0 <= k < |segments| ==> HarmlessHere(segments, k, alnum))
  {
    hide TextState, Guarded, HarmlessHere, AllValid, MarkerFreeFrom, TextStaysText;
    forall k | 0 <= k <= |segments|
      ensures TextStaysText(segments, k, alnum) <==> MarkerFreeFrom(TextState(segments, k, alnum), alnum)
    {
      TextStaysTextMeaning(segments, k, alnum);
    }
    if forall k :: 0 <= k <= |segments| ==> TextStaysText(segments, k, alnum) {
      TextStaysMeansHarmless(segments, |segments|, alnum);
    }
    if forall k :: 0 <= k < |segments| ==> HarmlessHere(segments, k, alnum) {
      forall k | 0 <= k <= |segments|
        ensures TextStaysText(segments, k, alnum)
      {
        HarmlessSegmentsKeepGuard(segments, k, alnum);
        GuardedIsMarkerFree(TextState(segments, k, alnum), alnum);
      }
    }
  }

  // ----- Marker lines of the output -----

  /** A whole link takes back at most its own opener. */
  lemma LinkExtends(st: State, url: string, content: seq<Event>, alnum: char -> bool)
    requires IsLabel(content)
    ensures st.output <= Run(st, LinkEvents(url, content), alnum).output
  {
    hide Run, Flush, SanitizeLinkDestination, ImagesNested;
    var base := Step(st, Start(Link(url)), alnum);
    FlushShape(st, false, alnum);
    FlushExtends(st, false, alnum);
    RunOfLink(st, url, content, alnum);
    RunExtends(base, content, alnum);
    PlainRunKeepsLinks(base, content, alnum);
  }

  lemma SegmentExtends(st: State, s: Segment, alnum: char -> bool)
    requires ValidSegment(s)
    ensures st.output <= Run(st, SegmentEvents(s), alnum).output
  {
    hide Run, IsLabel, Step, LinkEvents;
    match s
    case Inline(Plain(e)) =>
      RunOfOne(st, e, alnum);
      StepExtends(st, e, alnum);
    case Inline(WholeLink(url, content)) => LinkExtends(st, url, content, alnum);
    case Structure(b) =>
      if b.Fenced? {
        TextsAreText(b.content);
      }
      RunExtends(st, BlockEvents(b), alnum);
  }

  /** Each position is at the start of a line or right behind another of the positions. */
  ghost predicate FromLineStarts(s: string, own: set<nat>) {
    forall p :: p in own ==> p <= |s| && (p == 0 || s[p - 1] == '\n' || p - 1 in own)
  }

  lemma MarksFromLineStart(st: State, b: Block, alnum: char -> bool)
    requires OutsideSpans(st)
    ensures FromLineStarts(Run(st, BlockEvents(b), alnum).output, Marks(st, b, alnum))
  {
    hide Run, Flush, EnsureLineBreak, EnsureParagraphBreak, BlockEvents, CurrentLine, Classify, EndedLinesSafe;
    if b.HeadingStart? || b.ListStart? || b.ItemStart? || b.Fenced? {
      var f, before := Flush(st, false, alnum).output, TextBefore(st, b, alnum);
      var out := Run(st, BlockEvents(b), alnum).output;
      RunOfMarkup(st, b, alnum);
      LineBreakIff(f);
      LineBreakIff(EnsureParagraphBreak(f));
      ParagraphBreakIff(f);
      EndsWithBreak(before);
      LineStartIff(before);
      assert before != "" ==> out[|before| - 1] == before[|before| - 1];
    }
  }

  lemma {:induction false} OwnMarksFromLineStarts(segments: seq<Segment>, k: nat, alnum: char -> bool)
    requires k <= |segments| && AllValid(segments)
    requires forall j :: 0 <= j < |segments| ==> HarmlessHere(segments, j, alnum)
    ensures FromLineStarts(StateAfter(segments, k, alnum).output, OwnMarks(segments, k, alnum))
  {
    hide SegmentEvents, ValidSegment, StateAfter, Run, Marks, HarmlessHere, Blotted;
    if k > 0 {
      var st, s := StateAfter(segments, k - 1, alnum), segments[k - 1];
      OwnMarksFromLineStarts(segments, k - 1, alnum);
      StateAfterNext(segments, k - 1, alnum);
      SegmentExtends(st, s, alnum);
      HarmlessSegmentsKeepGuard(segments, k - 1, alnum);
      GuardedIsOutside(TextState(segments, k - 1, alnum));
      if s.Structure? {
        EventsOfBlock(s.block);
        MarksFromLineStart(st, s.block, alnum);
      }
    }
  }

  lemma {:induction false} LineStartIsOwn(s: string, own: set<nat>, a: nat, p: nat)
    requires FromLineStarts(s, own) && a <= p <= |s| && p in own && forall k :: a <= k < p ==> s[k] != '\n'
    ensures a in own
    decreases p
  {
    if a < p {
      LineStartIsOwn(s, own, a, p - 1);
    }
  }

  lemma {:induction false} StrippedIsPrefix(s: string)
    ensures StripLineBreaks(s) <= s
  {
    if EndsWith(s, "\n") {
      StrippedIsPrefix(s[..|s| - 1]);
    }
  }

  /** With harmless segments, every line of the finished output that is a marker starts with the renderer's own markup. */
  lemma MarkersAreTheRenderersOwn(segments: seq<Segment>, a: nat, b: nat, alnum: char -> bool)
    requires AllValid(segments) && forall k :: 0 <= k < |segments| ==> HarmlessHere(segments, k, alnum)
    requires var out := Finish(StateAfter(segments, |segments|, alnum), alnum);
      IsLine(out, a, b) && Classify(out[a..b], true) == MarkdownMarker
    ensures a in OwnMarks(segments, |segments|, alnum)
  {
    hide StateAfter, OwnMarks, Guarded, HarmlessHere, AllValid, StripLineBreaks, Flush, Classify, Blot;
    var st, own := StateAfter(segments, |segments|, alnum), OwnMarks(segments, |segments|, alnum);
    var out := Finish(st, alnum);
    HarmlessSegmentsKeepGuard(segments, |segments|, alnum);
    GuardedFinishesUnmarked(Sight(st, own), alnum);
    OwnMarksAreWithin(segments, |segments|, alnum);
    FinishInSight(st, own, alnum);
    if forall p :: a <= p < b ==> p !in own {
      BlottedLine(out, own, a, b);
    } else {
      var p :| a <= p < b && p in own;
      OwnMarksFromLineStarts(segments, |segments|, alnum);
      FlushExtends(st, true, alnum);
      StrippedIsPrefix(Flush(st, true, alnum).output);
      assert forall k :: a <= k < p ==> st.output[k] == out[k];
      LineStartIsOwn(st.output, own, a, p);
    }
  }


  // ----- Where text becomes a marker -----

  lemma RunNext(st: State, events: seq<Event>, alnum: char -> bool)
    ensures events == [] ==> Run(st, events, alnum) == st
    ensures events != [] ==> Run(st, events, alnum) == Run(Step(st, events[0], alnum), events[1..], alnum)
  {
  }

  /** Nothing but lists and items is open, and nothing is held back. */
  ghost predicate Idle(st: State) {
    st.prefix == "" && st.links == [] && st.images == [] && st.codeBlock.None?
  }

  lemma LetterIsText(st: State, alnum: char -> bool)
    requires Idle(st)
    ensures Step(st, Text("x"), alnum) == st.(output := st.output + "x")
  {
    hide PushChars, PushChar;
    PushOne(st, "x", alnum);
    LetterIsWritten(st, alnum);
  }

  lemma LetterIsWritten(st: State, alnum: char -> bool)
    requires Idle(st)
    ensures PushChar(st, "x", 0, alnum) == st.(output := st.output + "x")
  {
    hide Flush, Classify, EndsWith, LiteralAt;
    var longer := st.(prefix := "x");
    assert st.prefix + ['x'] == "x" && st.output + ['x'] == st.output + "x";
    LetterIsSafe();
    LetterIsFlushed(longer, alnum);
    LetterIsLiteral(InLabel(st), alnum);
  }

  lemma LetterIsLiteral(inLabel: bool, alnum: char -> bool)
    ensures LiteralAt("x", 0, inLabel, alnum) == 'x'
  {
  }

  lemma LetterIsSafe()
    ensures Classify("x", false) == Safe
  {
  }

  lemma LetterIsFlushed(st: State, alnum: char -> bool)
    requires st.prefix == "x"
    ensures Flush(st, false, alnum) == st.(output := st.output + "x", prefix := "")
  {
    assert FlushedFrom("x", 1, Classify("x", false), InLabel(st), alnum) == "";
  }

  /** A character that may start a marker is held back. */
  lemma StartIsHeld(st: State, s: string, alnum: char -> bool)
    requires Idle(st) && (st.output == "" || EndsWith(st.output, "\n")) && s in {"-", "#", "1"}
    ensures Step(st, Text(s), alnum) == st.(prefix := s)
    ensures Flush(st.(prefix := s), false, alnum) == st.(output := st.output + s)
    ensures s == "1" ==> Flush(st.(prefix := s), true, alnum) == st.(output := st.output + s)
  {
    hide Classify, FlushedFrom, EndsWith, PushChars;
    assert [] + [s[0]] == s;
    StartIsPending(s, alnum);
    PushOne(st, s, alnum);
  }

  lemma StartIsPending(s: string, alnum: char -> bool)
    requires s in {"-", "#", "1"}
    ensures Classify(s, false) == Pending && (s == "1" ==> Classify(s, true) == Safe)
    ensures FlushedFrom(s, 0, Pending, false, alnum) == FlushedFrom(s, 0, Safe, false, alnum) == s
  {
    assert s[1..] == "";
    assert FlushedFrom(s, 1, Pending, false, alnum) == FlushedFrom(s, 1, Safe, false, alnum) == "";
  }

  lemma BreakEndsLine(st: State, alnum: char -> bool)
    requires Idle(st)
    ensures Step(st, Break, alnum) == st.(output := EnsureLineBreak(st.output))
  {
  }

  /** An idle state's next step, for tags that only write. */
  lemma TagIsWritten(st: State, alnum: char -> bool)
    requires Idle(st)
    ensures Step(st, Start(TableRow), alnum) == st.(output := EnsureLineBreak(st.output))
    ensures EndsWith(st.output, "\n") ==> Step(st, Start(TableCell), alnum) == st
    ensures Step(st, Start(List(None)), alnum)
         == st.(output := if st.lists == [] then EnsureParagraphBreak(st.output) else st.output,
                lists := st.lists + [None])
    ensures st.lists != [] && st.lists[|st.lists| - 1].None? ==>
              Step(st, Start(Item), alnum)
              == st.(output := EnsureLineBreak(st.output) + Indent(|st.lists| - 1) + "- ", inItem := st.inItem + 1)
  {
    hide EnsureLineBreak, EnsureParagraphBreak, Indent;
  }

  /** The events before a held-back start: one line of text. */
  lemma OneLine(st: State, rest: seq<Event>, alnum: char -> bool)
    requires Idle(st)
    ensures Run(st, [Text("x"), Break] + rest, alnum) == Run(st.(output := st.output + "x" + "\n"), rest, alnum)
  {
    hide Run, Step, EndsWith, Classify;
    var written := st.(output := st.output + "x");
    RunNext(st, [Text("x"), Break] + rest, alnum);
    LetterIsText(st, alnum);
    assert ([Text("x"), Break] + rest)[1..] == [Break] + rest;
    RunNext(written, [Break] + rest, alnum);
    BreakEndsLine(written, alnum);
    EndsWithBreak(written.output);
    assert ([Break] + rest)[1..] == rest;
  }

  lemma SeparatorEndsInSpace(s: string)
    ensures EndsWith(s, " / ") ==> s[|s| - 1] == ' '
  {
    if EndsWith(s, " / ") {
      assert s[|s| - 3..][2] == s[|s| - 1];
    }
  }

  lemma NextCell(st: State, alnum: char -> bool)
    requires st.prefix == "-" && Idle(st.(prefix := ""))
    requires Flush(st, false, alnum) == st.(output := st.output + "-", prefix := "")
    ensures Step(st, End(EndTableCell), alnum) == st
    ensures Step(st, Start(TableCell), alnum) == st.(output := st.output + "-" + " / ", prefix := "")
  {
    hide Flush;
    var out := st.output + "-";
    EndsWithBreak(out);
    SeparatorEndsInSpace(out);
  }

  /** A dash in a table cell becomes a list marker by the separator of the next cell. */
  lemma CellReactivatesAMarker(alnum: char -> bool)
    ensures var events := [Text("x"), Break] + [Start(TableRow), Start(TableCell), Text("-"), End(EndTableCell),
                                               Start(TableCell), Text("x")];
      && Finish(Run(INITIAL, events, alnum), alnum) == "x\n- / x"
      && Classify("- / x", true) == MarkdownMarker
  {
    hide Run, Step, Finish, Flush, EndsWith, EnsureLineBreak, Classify;
    var row := [Start(TableRow), Start(TableCell), Text("-"), End(EndTableCell), Start(TableCell), Text("x")];
    var line := INITIAL.(output := "" + "x" + "\n");
    var dashed := line.(prefix := "-");
    var cell := line.(output := line.output + "-" + " / ");
    OneLine(INITIAL, row, alnum);
    EndsWithBreak(line.output);
    TagIsWritten(line, alnum);
    LineKept(line.output);
    RunNext(line, row, alnum);
    RunNext(line, row[1..], alnum);
    RunNext(line, row[2..], alnum);
    StartIsHeld(line, "-", alnum);
    RunNext(dashed, row[3..], alnum);
    NextCell(dashed, alnum);
    RunNext(dashed, row[4..], alnum);
    RunNext(cell, row[5..], alnum);
    LetterIsText(cell, alnum);
    var end := cell.(output := cell.output + "x");
    RunNext(end, row[6..], alnum);
    assert end.output == "x\n- / x";
    EndsWithBreak(end.output);
    NothingToStrip(end, alnum);
    DashStaysMarker();
  }

  lemma LineKept(s: string)
    requires EndsWith(s, "\n")
    ensures EnsureLineBreak(s) == s
  {
  }

  lemma DashStaysMarker()
    ensures Classify("- / x", true) == MarkdownMarker
  {
    IsInRanges(' ', WHITE_SPACE, 1);
  }

  /** The first item of a document's first list. */
  lemma FirstItem(rest: seq<Event>, alnum: char -> bool)
    ensures Run(INITIAL, [Start(List(None)), Start(Item)] + rest, alnum)
         == Run(INITIAL.(output := "- ", lists := [None], inItem := 1), rest, alnum)
  {
    hide Run, Step;
    var events, listed := [Start(List(None)), Start(Item)] + rest, INITIAL.(lists := [None]);
    TagIsWritten(INITIAL, alnum);
    assert INITIAL.lists + [None] == [None];
    RunNext(INITIAL, events, alnum);
    assert events[1..] == [Start(Item)] + rest;
    TagIsWritten(listed, alnum);
    assert EnsureLineBreak("") + Indent(0) + "- " == "- ";
    RunNext(listed, events[1..], alnum);
    assert events[1..][1..] == rest;
  }

  lemma NestedList(st: State, alnum: char -> bool)
    requires st.prefix == "#" && Idle(st.(prefix := "")) && st.lists == [None]
    requires Flush(st, false, alnum) == st.(output := st.output + "#", prefix := "")
    ensures var listed := Step(st, Start(List(None)), alnum);
      && listed == st.(output := st.output + "#", prefix := "", lists := [None, None])
      && Step(listed, Start(Item), alnum)
         == listed.(output := st.output + "#" + "\n" + "  " + "- ", inItem := st.inItem + 1)
  {
    hide Flush;
    var listed := st.(output := st.output + "#", prefix := "", lists := [None, None]);
    assert st.lists + [None] == [None, None];
    TagIsWritten(listed, alnum);
    EndsWithBreak(listed.output);
    assert Indent(1) == "  ";
  }

  /** A hash that ends an item's text becomes a heading when a nested list ends its line. */
  lemma NestedListReactivatesAMarker(alnum: char -> bool)
    ensures var events := [Start(List(None)), Start(Item)]
        + ([Text("x"), Break] + [Text("#"), Start(List(None)), Start(Item), Text("x")]);
      && Finish(Run(INITIAL, events, alnum), alnum) == "- x\n#\n  - x"
      && Classify("#", true) == MarkdownMarker
  {
    hide Run, Step, Finish, Flush, EndsWith, Classify;
    var rest := [Text("#"), Start(List(None)), Start(Item), Text("x")];
    var item := INITIAL.(output := "- ", lists := [None], inItem := 1);
    var line := item.(output := "- " + "x" + "\n");
    var held := line.(prefix := "#");
    FirstItem([Text("x"), Break] + rest, alnum);
    OneLine(item, rest, alnum);
    EndsWithBreak(line.output);
    RunNext(line, rest, alnum);
    StartIsHeld(line, "#", alnum);
    RunNext(held, rest[1..], alnum);
    NestedList(held, alnum);
    var listed := line.(output := line.output + "#", lists := [None, None]);
    RunNext(listed, rest[2..], alnum);
    var inner := listed.(output := line.output + "#" + "\n" + "  " + "- ", inItem := 2);
    RunNext(inner, rest[3..], alnum);
    LetterIsText(inner, alnum);
    var end := inner.(output := inner.output + "x");
    RunNext(end, rest[4..], alnum);
    assert end.output == "- x\n#\n  - x";
    EndsWithBreak(end.output);
    NothingToStrip(end, alnum);
    HashIsMarker();
  }

  lemma HashIsMarker()
    ensures Classify("#", true) == MarkdownMarker
  {
    assert "#"[1..] == "";
  }

  /** A paragraph of an item ends on a number, and the next paragraph, written behind it, makes it a list marker. */
  lemma ParagraphReactivatesAMarker(alnum: char -> bool)
    ensures var events := [Start(List(None)), Start(Item)]
        + ([Text("x"), Break] + [Text("1"), End(EndParagraph), Start(Paragraph), Text(". x")]);
      && Finish(Run(INITIAL, events, alnum), alnum) == "- x\n1. x"
      && Classify("1. x", true) == MarkdownMarker
  {
    hide Run, Step, Finish, Flush, EndsWith, Classify;
    var rest := [Text("1"), End(EndParagraph), Start(Paragraph), Text(". x")];
    var item := INITIAL.(output := "- ", lists := [None], inItem := 1);
    var line := item.(output := "- " + "x" + "\n");
    var held, shut := line.(prefix := "1"), line.(output := line.output + "1");
    FirstItem([Text("x"), Break] + rest, alnum);
    OneLine(item, rest, alnum);
    EndsWithBreak(line.output);
    RunNext(line, rest, alnum);
    StartIsHeld(line, "1", alnum);
    RunNext(held, rest[1..], alnum);
    ParagraphsInItem(held, shut, alnum);
    RunNext(shut, rest[2..], alnum);
    RunNext(shut, rest[3..], alnum);
    DotIsWritten(shut, alnum);
    var end := shut.(output := shut.output + ". x");
    RunNext(end, rest[4..], alnum);
    assert end.output == "- x\n1. x";
    EndsWithBreak(end.output);
    NothingToStrip(end, alnum);
    NumberIsMarker();
  }

  lemma ParagraphsInItem(held: State, shut: State, alnum: char -> bool)
    requires held.inItem > 0 && shut.inItem > 0 && Flush(held, true, alnum) == shut
    ensures Step(held, End(EndParagraph), alnum) == shut && Step(shut, Start(Paragraph), alnum) == shut
  {
  }

  lemma DotIsWritten(st: State, alnum: char -> bool)
    requires Idle(st) && st.output != "" && st.output[|st.output| - 1] != '\n'
    ensures Step(st, Text(". x"), alnum) == st.(output := st.output + ". x")
  {
    hide PushChars;
    OpenLinePush(st, ". x", alnum);
    assert FlushedFrom(". x", 0, Safe, false, alnum) == ". x" by {
      assert FlushedFrom(". x", 1, Safe, false, alnum) == " x" by {
        assert FlushedFrom(". x", 2, Safe, false, alnum) == "x" by {
          assert FlushedFrom(". x", 3, Safe, false, alnum) == "";
        }
      }
    }
  }

  lemma NumberIsMarker()
    ensures Classify("1. x", true) == MarkdownMarker
  {
    IsInRanges(' ', WHITE_SPACE, 1);
    assert "1. x"[1..] == ". x";
  }
}
