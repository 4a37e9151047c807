/**
 Line breaks inside links: exactly when a break is written where it stands.
 */
module QqLinkBreaks {
  import opened Wrappers
  import opened Characters
  import opened InlineEscape
  import opened QqRenderer
  import opened QqMarkers
  import opened QqContinuations
  import opened QqLinks
  import opened QqLinkMarkers

  // ----- The condition -----

  /** The same events with every break delivered as the space it stands for. */
  function InPlace(es: seq<Event>): seq<Event> {
    if es == [] then [] else [if es[0].Break? then Text(" ") else es[0]] + InPlace(es[1..])
  }

  /**
   The first break outside images finds the line start, `l.text` so far, still undecided and not yet
   released by inline code.
   */
  ghost predicate BreakMeetsLineStart(l: Label, es: seq<Event>)
    decreases |es|
  {
    es != []
    && if l.images == [] && es[0].Break? then Classify(l.text, false) == Pending
       else if l.images == [] && es[0].Code? && Classify(l.text, false) == Pending then false
       else BreakMeetsLineStart(LabelStep(l, es[0], Raw), es[1..])
  }

  /** A rejected link outside images has a break while the line start is held back. */
  ghost predicate BreakOvertakes(st: State, url: string, content: seq<Event>) {
    && SanitizeLinkDestination(url).None? && st.images == []
    && (CurrentLine(st.output) == "" || st.prefix != "")
    && BreakMeetsLineStart(Label(st.prefix, [], false), content)
  }

  lemma {:induction false} InPlaceIsLabel(es: seq<Event>, depth: nat)
    requires ImagesNested(es, depth) && forall k :: 0 <= k < |es| ==> IsLabelEvent(es[k])
    ensures ImagesNested(InPlace(es), depth) && |InPlace(es)| == |es|
    ensures forall k :: 0 <= k < |es| ==> IsLabelEvent(InPlace(es)[k]) && !InPlace(es)[k].Break?
    decreases |es|
  {
    if es != [] {
      NestedStep(es, depth);
      InPlaceIsLabel(es[1..], DepthAfter(es[0], depth));
      assert InPlace(es)[1..] == InPlace(es[1..]);
    }
  }

  // ----- Links whose breaks keep their place -----

  lemma SpaceWriterIsPlain(alnum: char -> bool)
    ensures LabelWriter(alnum)(" ") == " "
  {
    assert FlushedFrom(" ", 1, Safe, true, alnum) == "";
  }

  /** A label reads a break as a space. */
  lemma {:induction false} LabelIgnoresBreaks(l: Label, es: seq<Event>, alnum: char -> bool)
    requires !l.inCode
    ensures LabelRun(l, InPlace(es), LabelWriter(alnum)) == LabelRun(l, es, LabelWriter(alnum))
    decreases |es|
  {
    hide Trim, LabelWriter;
    if es != [] {
      SpaceWriterIsPlain(alnum);
      LabelDepth(l, es[0], LabelWriter(alnum));
      LabelIgnoresBreaks(LabelStep(l, es[0], LabelWriter(alnum)), es[1..], alnum);
      assert InPlace(es)[1..] == InPlace(es[1..]);
    }
  }

  lemma AcceptedKeepsBreaks(st: State, url: string, content: seq<Event>, alnum: char -> bool)
    requires st.codeBlock.None? && SanitizeLinkDestination(url).Some? && IsLabel(content)
    ensures Run(st, LinkEvents(url, content), alnum) == Run(st, LinkEvents(url, InPlace(content)), alnum)
  {
    hide Run, LinkEvents, LabelRun, LabelWriter, Flush, ShowsText, IsLabelEvent, ImagesNested, CleanLabel, InPlace;
    InPlaceIsLabel(content, 0);
    LinkIsClosedOrTakenBack(st, url, content, alnum);
    LinkIsClosedOrTakenBack(st, url, InPlace(content), alnum);
    LabelIgnoresBreaks(Label("", st.images, false), content, alnum);
  }

  /** Nothing is held back and the line is open: a break is the space it stands for, now and later. */
  ghost predicate Free(s: State, l: Label) {
    InRejected(s, l) && s.prefix == "" && CurrentLine(s.output) != ""
  }

  lemma BreakIsSpace(s: State, l: Label, alnum: char -> bool)
    requires InRejected(s, l) && (s.prefix == "" || l.images != [])
    ensures Step(s, Text(" "), alnum) == Step(s, Break, alnum)
    ensures l.images == [] ==> Free(Step(s, Break, alnum), LabelStep(l, Break, Raw))
  {
    hide CurrentLine;
    if l.images == [] {
      AppendWithoutBreak(s.output, " ");
      SpaceIsPushed(s, alnum);
    }
  }

  lemma SpaceIsPushed(s: State, alnum: char -> bool)
    requires s.prefix == "" && !InLabel(s)
    ensures PushChars(s, " ", 0, alnum) == s.(output := s.output + " ")
  {
    SpaceIsSafe();
    assert [] + [' '] == " ";
    assert FlushedFrom(" ", 0, Safe, false, alnum) == " " by {
      assert FlushedFrom(" ", 1, Safe, false, alnum) == "";
    }
    NothingMorePushed(PushChar(s, " ", 0, alnum), " ", alnum);
  }

  lemma {:induction false} TextStaysFree(s: State, text: string, i: nat, alnum: char -> bool)
    requires i <= |text| && NoBreak(text) && s.prefix == "" && CurrentLine(s.output) != ""
    ensures var r := PushChars(s, text, i, alnum); r.prefix == "" && CurrentLine(r.output) != ""
    decreases |text| - i
  {
    hide CurrentLine, PushChar;
    if i < |text| {
      OpenCharStaysOpen(s, text, i, alnum);
      TextStaysFree(PushChar(s, text, i, alnum), text, i + 1, alnum);
    }
  }

  lemma FreeStep(s: State, l: Label, e: Event, alnum: char -> bool)
    requires Free(s, l) && IsLabelEvent(e) && (e == End(EndImage) ==> l.images != [])
    ensures Free(Step(s, e, alnum), LabelStep(l, e, Raw))
    ensures e.Break? ==> Step(s, Text(" "), alnum) == Step(s, e, alnum)
  {
    hide CurrentLine, PushChars, Step, LabelStep, IsLabelEvent;
    if e.Break? {
      BreakIsSpace(s, l, alnum);
    }
    if StaysInImages(l, e) {
      ImageStep(s, l, e, alnum);
    } else if !e.Break? {
      WritingStep(s, l, e, alnum);
      var shut := s.(images := []);
      TextStaysFree(shut, WrittenBy(l, e), 0, alnum);
      PushCharsKeepsRoute(shut, WrittenBy(l, e), 0, alnum);
    }
  }

  lemma {:induction false} FreeRun(s: State, l: Label, es: seq<Event>, alnum: char -> bool)
    requires Free(s, l) && ImagesNested(es, |l.images|) && forall k :: 0 <= k < |es| ==> IsLabelEvent(es[k])
    ensures Run(s, es, alnum) == Run(s, InPlace(es), alnum)
    decreases |es|
  {
    hide Free, Step, LabelStep, IsLabelEvent, ImagesNested;
    if es != [] {
      NestedStep(es, |l.images|);
      LabelDepth(l, es[0], Raw);
      FreeStep(s, l, es[0], alnum);
      FreeRun(Step(s, es[0], alnum), LabelStep(l, es[0], Raw), es[1..], alnum);
      assert InPlace(es)[1..] == InPlace(es[1..]);
    }
  }

  /** Inside an image around the link a break is a space of that image. */
  lemma InImagesKeepsBreaks(s: State, l: Label, es: seq<Event>, alnum: char -> bool)
    requires s.images == l.images != [] && !l.inCode && s.codeBlock.None? && ImagesNested(es, 0)
    requires forall k :: 0 <= k < |es| ==> IsLabelEvent(es[k])
    ensures Run(s, es, alnum) == Run(s, InPlace(es), alnum)
  {
    hide Run, LabelRun, ImagesNested, IsLabelEvent, InPlace;
    InPlaceIsLabel(es, 0);
    RejectedInImage(s, l, es, 0, alnum);
    RejectedInImage(s, l, InPlace(es), 0, alnum);
    ImagesIgnoreBreaks(l, es, 0);
  }

  lemma {:induction false} ImagesIgnoreBreaks(l: Label, es: seq<Event>, depth: nat)
    requires !l.inCode && |l.images| > depth && ImagesNested(es, depth)
    ensures LabelRun(l, InPlace(es), Raw) == LabelRun(l, es, Raw)
    decreases |es|
  {
    hide Trim, ImagesNested;
    if es != [] {
      NestedStep(es, depth);
      LabelDepth(l, es[0], Raw);
      ImagesIgnoreBreaks(LabelStep(l, es[0], Raw), es[1..], DepthAfter(es[0], depth));
      assert InPlace(es)[1..] == InPlace(es[1..]);
    }
  }

  // ----- The line start while it is held back -----

  /** What is held back is undecided and on one line. */
  ghost predicate PrefixHeld(s: State) {
    NoBreak(s.prefix) && (s.prefix != "" ==> Classify(s.prefix, false) == Pending)
  }

  /** The undecided line start is the text so far; once decided, nothing is held back. */
  ghost predicate Holds(s: State, l: Label) {
    && InRejected(s, l) && PrefixHeld(s)
    && s.prefix == (if Classify(l.text, false) == Pending then l.text else "")
    && (s.prefix == "" ==> (l.text == "" <==> CurrentLine(s.output) == ""))
  }

  lemma CharKeepsPrefix(s: State, text: string, i: nat, alnum: char -> bool)
    requires PrefixHeld(s) && i < |text|
    ensures PrefixHeld(PushChar(s, text, i, alnum))
  {
    hide Classify, FlushedFrom;
  }

  lemma CharAtLineStart(s: State, text: string, i: nat, alnum: char -> bool)
    requires i < |text| && text[i] != '\n' && !InLabel(s) && PrefixHeld(s)
    requires CurrentLine(s.output) == "" || s.prefix != ""
    ensures var r := PushChar(s, text, i, alnum); var longer := s.prefix + [text[i]];
      if Classify(longer, false) == Pending then r.prefix == longer && r.output == s.output
      else r.prefix == "" && CurrentLine(r.output) != ""
  {
    hide Classify, FlushedFrom, CurrentLine;
    LineStartIff(s.output);
    var longer := s.(prefix := s.prefix + [text[i]]);
    FlushOpensLine(longer, false, alnum);
    FlushOpensLine(longer, true, alnum);
  }

  lemma FlushOpensLine(s: State, atLineEnd: bool, alnum: char -> bool)
    requires NoBreak(s.prefix) && s.prefix != "" && !InLabel(s)
    ensures var f := Flush(s, atLineEnd, alnum); f == s.(output := f.output, prefix := "") && CurrentLine(f.output) != ""
  {
    hide Classify, FlushedFrom, CurrentLine;
    var kind := Classify(s.prefix, atLineEnd);
    FlushedHasNoBreak(s.prefix, kind, alnum);
    FlushedLength(s.prefix, 0, kind, false, alnum);
    AppendWithoutBreak(s.output, FlushedFrom(s.prefix, 0, kind, false, alnum));
  }

  lemma CharIsHeldBack(s: State, l: Label, text: string, i: nat, alnum: char -> bool)
    requires Holds(s, l) && i < |text| && text[i] != '\n' && l.images == []
    ensures Holds(PushChar(s, text, i, alnum), l.(text := l.text + [text[i]]))
  {
    hide Classify, PrefixHeld, FlushedFrom, Flush, CurrentLine, PushChar;
    CharKeepsPrefix(s, text, i, alnum);
    CharKeepsRoute(s, text, i, alnum);
    if s.prefix == "" && CurrentLine(s.output) != "" {
      DecidedStaysDecided(l.text, text[i]);
      OpenCharStaysOpen(s, text, i, alnum);
    } else {
      assert s.prefix + [text[i]] == l.text + [text[i]];
      CharAtLineStart(s, text, i, alnum);
    }
  }

  lemma {:induction false} TextIsHeldBack(s: State, l: Label, text: string, i: nat, alnum: char -> bool)
    requires Holds(s, l) && i <= |text| && NoBreak(text) && l.images == []
    ensures Holds(PushChars(s, text, i, alnum), l.(text := l.text + text[i..]))
    decreases |text| - i
  {
    hide Holds, PushChar;
    if i < |text| {
      CharIsHeldBack(s, l, text, i, alnum);
      TextIsHeldBack(PushChar(s, text, i, alnum), l.(text := l.text + [text[i]]), text, i + 1, alnum);
      assert l.text + [text[i]] + text[i + 1..] == l.text + text[i..];
    } else {
      assert l.text + text[i..] == l.text;
    }
  }

  lemma ReleasedIsFree(s: State, l: Label, text: string, alnum: char -> bool)
    requires Holds(s, l) && l.images == [] && Classify(l.text, false) == Pending && NoBreak(text)
    ensures var r := PushChars(Flush(s, false, alnum), text, 0, alnum); Free(r, l)
  {
    hide Classify, CurrentLine, Flush, PushChars;
    EmptyLineIsSafe();
    FlushOpensLine(s, false, alnum);
    var f := Flush(s, false, alnum);
    TextStaysFree(f, text, 0, alnum);
    PushCharsKeepsRoute(f, text, 0, alnum);
  }

  /** Any event but a break outside images. */
  lemma HeldStep(s: State, l: Label, e: Event, alnum: char -> bool)
    requires Holds(s, l) && IsLabelEvent(e) && (e == End(EndImage) ==> l.images != [])
    requires e.Break? ==> l.images != []
    ensures var r, m := Step(s, e, alnum), LabelStep(l, e, Raw);
      if e.Code? && l.images == [] && Classify(l.text, false) == Pending then Free(r, m) else Holds(r, m)
  {
    hide Classify, CurrentLine, PushChars, Step, LabelStep, IsLabelEvent, Flush;
    if StaysInImages(l, e) {
      ImageStep(s, l, e, alnum);
    } else {
      WritingStep(s, l, e, alnum);
      var shut, rest, text := s.(images := []), l.(images := []), WrittenBy(l, e);
      if e.Code? && Classify(l.text, false) == Pending {
        ReleasedIsFree(shut, rest, text, alnum);
      } else {
        NothingToFlush(shut, alnum);
        TextIsHeldBack(shut, rest, text, 0, alnum);
        assert l.text + text[0..] == l.text + text;
      }
    }
  }

  lemma NothingToFlush(s: State, alnum: char -> bool)
    ensures s.prefix == "" ==> Flush(s, false, alnum) == s
  {
  }

  // ----- What a break leaves behind the line start -----

  /** Whatever is written after `base` starts with no space. */
  ghost predicate Ahead(s: State, base: string) {
    && base <= s.output
    && if |s.output| > |base| then s.output[|base|] !in {' ', '\n'} else s.prefix != "" && s.prefix[0] !in {' ', '\n'}
  }

  lemma FlushedFirst(s: string, kind: PrefixClass, inLabel: bool, alnum: char -> bool)
    requires s != "" && s[0] !in {' ', '\n'}
    ensures FlushedFrom(s, 0, kind, inLabel, alnum) != "" && FlushedFrom(s, 0, kind, inLabel, alnum)[0] !in {' ', '\n'}
  {
  }

  lemma FlushIsAhead(s: State, base: string, atLineEnd: bool, alnum: char -> bool)
    requires Ahead(s, base)
    ensures Ahead(Flush(s, atLineEnd, alnum), base)
  {
    hide FlushedFrom, Classify;
    if s.prefix != "" && s.prefix[0] !in {' ', '\n'} {
      FlushedFirst(s.prefix, Classify(s.prefix, atLineEnd), InLabel(s), alnum);
    }
  }

  lemma CharIsAhead(s: State, base: string, text: string, i: nat, alnum: char -> bool)
    requires Ahead(s, base) && i < |text|
    ensures Ahead(PushChar(s, text, i, alnum), base)
  {
    hide FlushedFrom, Classify, Flush, LiteralAt;
    var longer := s.(prefix := s.prefix + [text[i]]);
    FlushIsAhead(s, base, true, alnum);
    FlushIsAhead(longer, base, true, alnum);
    FlushIsAhead(longer, base, false, alnum);
    FlushShape(s, true, alnum);
  }

  lemma {:induction false} TextIsAhead(s: State, base: string, text: string, i: nat, alnum: char -> bool)
    requires Ahead(s, base) && i <= |text|
    ensures Ahead(PushChars(s, text, i, alnum), base)
    decreases |text| - i
  {
    hide Ahead, PushChar;
    if i < |text| {
      CharIsAhead(s, base, text, i, alnum);
      TextIsAhead(PushChar(s, text, i, alnum), base, text, i + 1, alnum);
    }
  }

  lemma StepIsAhead(s: State, base: string, e: Event, alnum: char -> bool)
    requires Ahead(s, base) && IsLabelEvent(e) && !e.Break? && s.links != []
    ensures Ahead(Step(s, e, alnum), base)
  {
    hide PushChars, Flush, Trim;
    FlushShape(s, false, alnum);
    FlushIsAhead(s, base, false, alnum);
    match e
    case Text(t) => TextIsAhead(s, base, t, 0, alnum);
    case Math(t) => TextIsAhead(s, base, t, 0, alnum);
    case Code(t) => TextIsAhead(Flush(s, false, alnum), base, t, 0, alnum);
    case End(tag) =>
      if s.images != [] {
        var last := |s.images| - 1;
        TextIsAhead(s.(images := s.images[..last]), base, Trim(s.images[last]), 0, alnum);
      }
    case _ =>
  }

  lemma {:induction false} RunIsAhead(s: State, base: string, es: seq<Event>, alnum: char -> bool)
    requires Ahead(s, base) && s.links != []
    requires forall k :: 0 <= k < |es| ==> IsLabelEvent(es[k]) && !es[k].Break?
    ensures Ahead(Run(s, es, alnum), base)
    decreases |es|
  {
    hide Ahead, Step;
    if es != [] {
      StepIsAhead(s, base, es[0], alnum);
      PlainKeepsLinks(s, es[0], alnum);
      RunIsAhead(Step(s, es[0], alnum), base, es[1..], alnum);
    }
  }

  lemma {:induction false} StrippedAt(s: string, k: nat)
    requires k < |s| && s[k] != '\n'
    ensures k < |StripLineBreaks(s)| && StripLineBreaks(s)[k] == s[k]
  {
    if EndsWith(s, "\n") {
      assert s[|s| - 1] == s[|s| - 1..][0];
      StrippedAt(s[..|s| - 1], k);
    }
  }

  /** The finished text after a rejected link holds everything written before its end. */
  lemma FinishedAt(s: State, n: nat, alnum: char -> bool)
    requires s.links != [] && s.links[|s.links| - 1].destination.None?
    requires n < |s.output| && s.output[n] != '\n'
    ensures var text := Finish(CloseLink(s), alnum); n < |text| && text[n] == s.output[n]
  {
    hide Flush, StripLineBreaks;
    var end := CloseLink(s);
    FlushExtends(end, true, alnum);
    StrippedAt(Flush(end, true, alnum).output, n);
  }

  /** A break that overtakes: whatever follows, its space comes first. */
  lemma OvertakingComesFirst(s: State, rest: seq<Event>, alnum: char -> bool)
    requires |s.links| == 1 && s.links[0].destination.None? && s.images == [] && s.codeBlock.None?
    requires forall k :: 0 <= k < |rest| ==> IsLabelEvent(rest[k])
    ensures var text := Finish(CloseLink(Run(Step(s, Break, alnum), rest, alnum)), alnum);
      |s.output| < |text| && text[|s.output|] == ' '
  {
    hide Run, Finish, CloseLink;
    var moved := Step(s, Break, alnum);
    assert moved == s.(output := s.output + " ");
    RunExtends(moved, rest, alnum);
    PlainRunKeepsLinks(moved, rest, alnum);
    FinishedAt(Run(moved, rest, alnum), |s.output|, alnum);
  }

  /** In its place, the space stays behind the line start. */
  lemma LineStartComesFirst(s: State, rest: seq<Event>, alnum: char -> bool)
    requires |s.links| == 1 && s.links[0].destination.None? && s.images == [] && s.codeBlock.None?
    requires s.prefix != "" && s.prefix[0] !in {' ', '\n'}
    requires forall k :: 0 <= k < |rest| ==> IsLabelEvent(rest[k]) && !rest[k].Break?
    ensures var text := Finish(CloseLink(Run(Step(s, Text(" "), alnum), rest, alnum)), alnum);
      |s.output| < |text| && text[|s.output|] != ' '
  {
    hide Run, IsLabelEvent, Flush, StripLineBreaks, PushChars;
    var kept := Step(s, Text(" "), alnum);
    TextIsAhead(s, s.output, " ", 0, alnum);
    PushCharsKeepsRoute(s, " ", 0, alnum);
    RunIsAhead(kept, s.output, rest, alnum);
    PlainRunKeepsLinks(kept, rest, alnum);
    var late := CloseLink(Run(kept, rest, alnum));
    AheadIsWritten(late, s.output, alnum);
    StrippedAt(Flush(late, true, alnum).output, |s.output|);
  }

  lemma AheadIsWritten(s: State, base: string, alnum: char -> bool)
    requires Ahead(s, base)
    ensures var out := Flush(s, true, alnum).output; |base| < |out| && out[|base|] !in {' ', '\n'}
  {
    hide Classify, FlushedFrom;
    if s.prefix != "" && s.prefix[0] !in {' ', '\n'} {
      FlushedFirst(s.prefix, Classify(s.prefix, true), InLabel(s), alnum);
    }
  }

  lemma PendingStartsPlain(s: string)
    requires Classify(s, false) == Pending
    ensures s != "" && s[0] !in {' ', '\n'}
  {
    hide LeadingHashes, LeadingDigits, CountOf, OnlyCharOrSpace;
  }

  // ----- Whole links -----

  lemma {:induction false} HeldRun(s: State, l: Label, es: seq<Event>, alnum: char -> bool)
    requires Holds(s, l) && ImagesNested(es, |l.images|) && forall k :: 0 <= k < |es| ==> IsLabelEvent(es[k])
    ensures if BreakMeetsLineStart(l, es)
            then Finish(CloseLink(Run(s, es, alnum)), alnum) != Finish(CloseLink(Run(s, InPlace(es), alnum)), alnum)
            else Run(s, es, alnum) == Run(s, InPlace(es), alnum)
    decreases |es|
  {
    hide Holds, Free, Step, LabelStep, IsLabelEvent, ImagesNested, Finish, CloseLink, Classify;
    if es != [] {
      var r, m := Step(s, es[0], alnum), LabelStep(l, es[0], Raw);
      assert InPlace(es)[1..] == InPlace(es[1..]);
      NestedStep(es, |l.images|);
      LabelDepth(l, es[0], Raw);
      if l.images == [] && es[0].Break? {
        if Classify(l.text, false) == Pending {
          InPlaceIsLabel(es[1..], |l.images|);
          PendingStartsPlain(l.text);
          HeldHasLabel(s, l);
          OvertakingComesFirst(s, es[1..], alnum);
          LineStartComesFirst(s, InPlace(es[1..]), alnum);
        } else {
          HeldHasLabel(s, l);
          BreakIsSpace(s, l, alnum);
          FreeRun(r, m, es[1..], alnum);
        }
      } else {
        if es[0].Break? {
          HeldHasLabel(s, l);
          BreakIsSpace(s, l, alnum);
        }
        HeldStep(s, l, es[0], alnum);
        if es[0].Code? && l.images == [] && Classify(l.text, false) == Pending {
          FreeRun(r, m, es[1..], alnum);
        } else {
          HeldRun(r, m, es[1..], alnum);
        }
      }
    }
  }

  lemma HeldHasLabel(s: State, l: Label)
    requires Holds(s, l)
    ensures InRejected(s, l) && s.prefix == if Classify(l.text, false) == Pending then l.text else ""
  {
  }

  /**
   The breaks of a link are written where they stand, unless the link is rejected and its first break
   outside images comes while the line start is held back: then the output is a different one.
   */
  lemma BreaksKeepTheirPlaceIff(st: State, url: string, content: seq<Event>, alnum: char -> bool)
    requires OutsideSpans(st) && PrefixHeld(st) && IsLabel(content)
    ensures var after := Run(st, LinkEvents(url, content), alnum);
      var inPlace := Run(st, LinkEvents(url, InPlace(content)), alnum);
      if BreakOvertakes(st, url, content) then Finish(after, alnum) != Finish(inPlace, alnum) else after == inPlace
  {
    hide Run, LinkEvents, IsLabelEvent, ImagesNested, Finish, CloseLink, Classify, CurrentLine, BreakMeetsLineStart,
      InPlace, Step;
    if SanitizeLinkDestination(url).Some? {
      AcceptedKeepsBreaks(st, url, content, alnum);
    } else {
      var base := st.(links := [LinkFrame(None, |st.output|)]);
      RunOfLink(st, url, content, alnum);
      RunOfLink(st, url, InPlace(content), alnum);
      RejectedOpens(st, url, alnum);
      if st.images != [] {
        InImagesKeepsBreaks(base, Label("", st.images, false), content, alnum);
      } else {
        var l := Label(st.prefix, [], false);
        if st.prefix == "" && CurrentLine(st.output) != "" {
          FreeRun(base, l, content, alnum);
        } else {
          EmptyLineIsSafe();
          HeldRun(base, l, content, alnum);
        }
      }
    }
  }

  // ----- Every run -----

  lemma {:induction false} CharsKeepPrefix(s: State, text: string, i: nat, alnum: char -> bool)
    requires PrefixHeld(s) && i <= |text|
    ensures PrefixHeld(PushChars(s, text, i, alnum))
    decreases |text| - i
  {
    hide PrefixHeld, PushChar;
    if i < |text| {
      CharKeepsPrefix(s, text, i, alnum);
      CharsKeepPrefix(PushChar(s, text, i, alnum), text, i + 1, alnum);
    }
  }

  lemma TextKeepsPrefix(s: State, text: string, alnum: char -> bool)
    requires PrefixHeld(s)
    ensures PrefixHeld(PushText(s, text, alnum))
  {
    hide PushChars, Classify;
    CharsKeepPrefix(s, text, 0, alnum);
  }

  lemma FlushKeepsPrefix(s: State, atLineEnd: bool, alnum: char -> bool)
    requires PrefixHeld(s)
    ensures PrefixHeld(Flush(s, atLineEnd, alnum))
  {
  }

  /** No event whatsoever leaves a decided line start held back. */
  lemma StepKeepsPrefix(s: State, e: Event, alnum: char -> bool)
    requires PrefixHeld(s)
    ensures PrefixHeld(Step(s, e, alnum))
  {
    hide PushText, Flush, Classify, Trim, EnsureLineBreak, EnsureParagraphBreak, PushParagraphBreak,
      SanitizeLinkDestination, FilterLanguage, Indent, HeadingPrefix;
    FlushKeepsPrefix(s, true, alnum);
    FlushKeepsPrefix(s, false, alnum);
    match e
    case Text(t) => TextKeepsPrefix(s, t, alnum);
    case Math(t) => TextKeepsPrefix(s, t, alnum);
    case Code(t) =>
      TextKeepsPrefix(s, t, alnum);
      TextKeepsPrefix(Flush(s, false, alnum), t, alnum);
    case End(tag) =>
      if tag.EndImage? && s.images != [] {
        var last := |s.images| - 1;
        TextKeepsPrefix(s.(images := s.images[..last]), Trim(s.images[last]), alnum);
      }
    case _ =>
  }

  lemma {:induction false} RunKeepsPrefix(s: State, events: seq<Event>, alnum: char -> bool)
    requires PrefixHeld(s)
    ensures PrefixHeld(Run(s, events, alnum))
    decreases |events|
  {
    hide PrefixHeld, Step;
    if events != [] {
      StepKeepsPrefix(s, events[0], alnum);
      RunKeepsPrefix(Step(s, events[0], alnum), events[1..], alnum);
    }
  }

  /** After every run whatsoever, wherever a whole link can stand. */
  lemma EveryLinkKeepsItsBreaksIff(events: seq<Event>, url: string, content: seq<Event>, alnum: char -> bool)
    requires OutsideSpans(Run(INITIAL, events, alnum)) && IsLabel(content)
    ensures var st := Run(INITIAL, events, alnum);
      Finish(Run(INITIAL, events + LinkEvents(url, content), alnum), alnum)
      == Finish(Run(INITIAL, events + LinkEvents(url, InPlace(content)), alnum), alnum)
      <==> !BreakOvertakes(st, url, content)
  {
    hide Run, LinkEvents, InPlace, IsLabel, Finish, BreakOvertakes, OutsideSpans;
    RunKeepsPrefix(INITIAL, events, alnum);
    RunAppend(INITIAL, events, LinkEvents(url, content), alnum);
    RunAppend(INITIAL, events, LinkEvents(url, InPlace(content)), alnum);
    BreaksKeepTheirPlaceIff(Run(INITIAL, events, alnum), url, content, alnum);
  }

  // ----- Where a break overtakes -----

  lemma DashThenLetter(st: State, alnum: char -> bool)
    requires st.prefix == "-" && !InLabel(st)
    ensures PushChars(st, "x", 0, alnum) == st.(output := st.output + "-x", prefix := "")
  {
    hide PushChars, Classify, FlushedFrom, EndsWith, LiteralAt;
    assert "-" + ['x'] == "-x";
    DashLetterIsText(alnum);
    PushOne(st, "x", alnum);
  }

  lemma DashLetterIsText(alnum: char -> bool)
    ensures Classify("-x", false) == Safe && FlushedFrom("-x", 0, Safe, false, alnum) == "-x"
  {
    PrintableIsNotWhitespace('x');
    assert FlushedFrom("-x", 1, Safe, false, alnum) == "x" by {
      assert FlushedFrom("-x", 2, Safe, false, alnum) == "";
    }
  }

  /** A break in a rejected link after a lone dash: its space is written before the dash. */
  lemma BreakOvertakesLineStart(alnum: char -> bool)
    ensures Finish(Run(INITIAL, [Text("-")] + LinkEvents("ftp://a", [Break, Text("x")]), alnum), alnum) == " -x"
  {
    hide Step, LinkEvents, Finish, Run, SanitizeLinkDestination, Flush, PushChars;
    var content := [Break, Text("x")];
    var dashed, link := INITIAL.(prefix := "-"), LinkEvents("ftp://a", content);
    RunAppend(INITIAL, [Text("-")], link, alnum);
    RunOfOne(INITIAL, Text("-"), alnum);
    DashIsPending(alnum);
    FtpIsRejected();
    RunOfLink(dashed, "ftp://a", content, alnum);
    RejectedOpens(dashed, "ftp://a", alnum);
    var inside := dashed.(links := [LinkFrame(None, 0)]);
    var moved := inside.(output := " ");
    assert "" + " " == " ";
    BreakIsWritten(inside, alnum);
    assert content == [Break] + [Text("x")];
    RunAppend(inside, [Break], [Text("x")], alnum);
    RunOfOne(inside, Break, alnum);
    RunOfOne(moved, Text("x"), alnum);
    TextIsPushed(moved, "x", alnum);
    DashThenLetter(moved, alnum);
    assert " " + "-x" == " -x";
    var end := moved.(output := " -x", prefix := "");
    assert end.links[..0] == [];
    assert CloseLink(end) == end.(links := []);
    NothingToStrip(end.(links := []), alnum);
  }

  lemma BreakIsWritten(st: State, alnum: char -> bool)
    requires st.links != [] && st.images == [] && st.codeBlock.None?
    ensures Step(st, Break, alnum) == st.(output := st.output + " ")
  {
  }
}
