/**
 Links and block markers: exactly which links, accepted or rejected, leave a line start that later
 text can turn into a marker.
 */
module QqLinkMarkers {
  import opened Wrappers
  import opened Characters
  import opened InlineEscape
  import opened QqRenderer
  import opened QqMarkers
  import opened QqContinuations
  import opened QqLinks

  // ----- The condition -----

  /**
   Inline code outside images reaches the line while its start, `l.text` so far, is still undecided,
   and no line break came before it.
   */
  ghost predicate CodeMeetsLineStart(l: Label, es: seq<Event>)
    decreases |es|
  {
    es != []
    && ((es[0].Code? && l.images == [] && Classify(l.text, false) == Pending)
        || (!(es[0].Break? && l.images == []) && CodeMeetsLineStart(LabelStep(l, es[0], Raw), es[1..])))
  }

  /** The line start held back before the link, followed by the plain text of the link. */
  function LineWithLink(prefix: string, content: seq<Event>): string {
    LabelRun(Label(prefix, [], false), content, Raw).text
  }

  /**
   When a link is harmless: the line is already open; or an accepted link has nothing held back to
   release, shows text, or releases a start that the images around it complete into plain text; or
   a rejected one stands in an image, brings no code to an undecided line start, or is plain text
   by its end.
   */
  ghost predicate Harmless(st: State, url: string, content: seq<Event>) {
    || CurrentLine(st.output) != ""
    || if SanitizeLinkDestination(url).Some?
       then
         || st.prefix == "" || (st.images == [] && ShowsText(Label("", [], false), content))
         || Unmarkable(st.prefix, Collected(LabelRun(Label("", st.images, false), content, Raw).images))
       else
         || st.images != [] || !CodeMeetsLineStart(Label(st.prefix, [], false), content)
         || Classify(LineWithLink(st.prefix, content), false) == Safe
  }

  // ----- Images around a link -----

  lemma {:induction false} ImagesIgnoreWriter(l: Label, m: Label, es: seq<Event>, v: string -> string,
      w: string -> string)
    requires l.images == m.images && l.inCode == m.inCode
    ensures LabelRun(l, es, v).images == LabelRun(m, es, w).images
    decreases |es|
  {
    hide Trim;
    if es != [] {
      ImagesIgnoreWriter(LabelStep(l, es[0], v), LabelStep(m, es[0], w), es[1..], v, w);
    }
  }

  /** Inside an image, a link's text only adds to what the images hold. */
  lemma {:induction false} LinkTextIsCollected(l: Label, es: seq<Event>, depth: nat, write: string -> string)
    requires ImagesNested(es, depth) && |l.images| > depth && !l.inCode
    ensures Collected(l.images) <= Collected(LabelRun(l, es, write).images)
    decreases |es|
  {
    hide Trim, Collected, ImagesNested, LabelStep;
    if es != [] {
      NestedStep(es, depth);
      StepIsCollected(l, es[0], write);
      LabelDepth(l, es[0], write);
      LinkTextIsCollected(LabelStep(l, es[0], write), es[1..], DepthAfter(es[0], depth), write);
    }
  }

  lemma NestedStep(es: seq<Event>, depth: nat)
    requires ImagesNested(es, depth) && es != []
    ensures DepthAfter(es[0], depth) >= 0 && ImagesNested(es[1..], DepthAfter(es[0], depth))
  {
  }

  lemma LabelDepth(l: Label, e: Event, write: string -> string)
    ensures e != End(EndImage) || l.images != [] ==> |LabelStep(l, e, write).images| == DepthAfter(e, |l.images|)
    ensures LabelStep(l, e, write).inCode == l.inCode
  {
    hide Trim;
  }

  lemma StepIsCollected(l: Label, e: Event, write: string -> string)
    requires l.images != [] && !l.inCode && (e == End(EndImage) ==> |l.images| > 1)
    ensures Collected(l.images) <= Collected(LabelStep(l, e, write).images)
  {
    hide Trim, Collected;
    match e
    case Text(s) => CollectedGrows(l.images, s);
    case Math(s) => CollectedGrows(l.images, s);
    case Code(s) => CollectedGrows(l.images, s);
    case Break => CollectedGrows(l.images, " ");
    case Start(tag) => CollectedOfNewImage(l.images);
    case End(tag) =>
      if tag.EndImage? {
        CollectedAfterClose(l.images);
        var last := |l.images| - 1;
        var alt := Trim(l.images[last]);
        if alt == "" {
          assert l.images[last - 1] + "" == l.images[last - 1];
          assert AppendLast(l.images[..last], alt) == l.images[..last];
        }
      }
    case _ =>
  }

  // ----- Accepted links -----

  lemma AcceptedKeepsGuardIff(st: State, url: string, content: seq<Event>, alnum: char -> bool)
    requires Guarded(st) && SanitizeLinkDestination(url).Some? && IsLabel(content)
    ensures Guarded(Run(st, LinkEvents(url, content), alnum)) <==> Harmless(st, url, content)
    ensures var after := Run(st, LinkEvents(url, content), alnum);
      OutsideSpans(after) && EndedLinesSafe(after.output) && after.prefix == ""
  {
    hide Run, LinkEvents, IsLabel, LabelRun, Classify, CurrentLine, EndedLinesSafe, Collected, Unmarkable, ShowsText,
      LabelWriter, LineHeld, Flush, FirstLine, CodeMeetsLineStart;
    var d, l := SanitizeLinkDestination(url).value, LabelOf(st, content, alnum);
    var after := Run(st, LinkEvents(url, content), alnum);
    LinkIsClosedOrTakenBack(st, url, content, alnum);
    ImagesIgnoreWriter(Label("", st.images, false), Label("", st.images, false), content, LabelWriter(alnum), Raw);
    GuardedFlushes(st, alnum);
    if l.text != "" {
      WrittenLinkIsGuarded(st, after, d, l, alnum);
    } else {
      assert Flush(st, false, alnum).output + "" == Flush(st, false, alnum).output;
      if st.images != [] {
        assert ImagesNested(content, 0) by { LabelIsNested(content); }
        LinkTextIsCollected(Label("", st.images, false), content, 0, Raw);
      } else {
        assert l.images == [];
      }
      EmptyLinkIsGuardedIff(st, after, alnum);
    }
  }

  lemma LabelIsNested(content: seq<Event>)
    requires IsLabel(content)
    ensures ImagesNested(content, 0)
  {
  }

  lemma GuardedFlushes(st: State, alnum: char -> bool)
    requires Guarded(st)
    ensures var f := Flush(st, false, alnum);
      && f == st.(output := f.output, prefix := "") && EndedLinesSafe(f.output)
      && CurrentLine(f.output) == CurrentLine(st.output) + FlushedFrom(st.prefix, 0, Classify(st.prefix, false), false, alnum)
  {
    hide Classify, Unmarkable, Collected;
    FlushedLine(st, false, alnum);
  }

  lemma WrittenLinkIsGuarded(st: State, after: State, d: string, l: Label, alnum: char -> bool)
    requires Guarded(st) && LinkWritten(st, after, d, l, alnum) && l.text != "" && NoBreak(d)
    ensures Guarded(after) && st.images == []
  {
    hide Classify, FlushedFrom, CurrentLine, EndedLinesSafe, Flush, Matters;
    var text := LinkText(l.text, d);
    assert text == "[" + text[1..];
    assert NoBreak(text) by {
      assert forall k :: 0 <= k < |l.text| ==> l.text[k] != '\n';
    }
    GuardedIsHeld(st);
    BracketDoesNotMatter();
    PlainAfterLineStart(st, alnum, text);
    HeldIsGuarded(st.(output := Flush(st, false, alnum).output + text, prefix := ""));
  }

  lemma BracketDoesNotMatter()
    ensures !Matters('[')
  {
    PrintableIsNotWhitespace('[');
  }

  /** A link that leaves nothing but the released line start. */
  lemma EmptyLinkIsGuardedIff(st: State, after: State, alnum: char -> bool)
    requires Guarded(st) && after == st.(output := Flush(st, false, alnum).output, prefix := "", images := after.images,
                                         codeBlock := after.codeBlock)
    requires after.codeBlock.None? && Collected(st.images) <= Collected(after.images)
    ensures EndedLinesSafe(after.output)
    ensures Guarded(after) <==>
              CurrentLine(st.output) != "" || st.prefix == "" || Unmarkable(st.prefix, Collected(after.images))
  {
    hide Classify, FlushedFrom, CurrentLine, EndedLinesSafe, Collected, Unmarkable, FirstLine, Flush;
    GuardedFlushes(st, alnum);
    var line, held := CurrentLine(st.output), Collected(after.images);
    var flushed := FlushedFrom(st.prefix, 0, Classify(st.prefix, false), false, alnum);
    if st.prefix == "" {
      FlushedOfNothing(alnum);
      assert line + "" == line;
      UnmarkableStays(line, Collected(st.images), held);
    } else if line != "" {
      SafeStaysSafeBy(line, flushed);
      SafeIsUnmarkable(line + flushed, held);
    } else {
      assert line + flushed == flushed;
      FlushedStartIsUnmarkableIff(st.prefix, held, alnum);
    }
  }

  lemma FlushedStartIsUnmarkableIff(prefix: string, held: string, alnum: char -> bool)
    requires Classify(prefix, false) == Pending
    ensures Unmarkable(FlushedFrom(prefix, 0, Pending, false, alnum), held) <==> Unmarkable(prefix, held)
  {
    hide Classify, FlushedFrom, FirstLine;
    FlushedLooksLike(prefix, Pending, alnum);
    var flushed := FlushedFrom(prefix, 0, Pending, false, alnum);
    LooksLikeClassify(flushed, prefix, true);
    LooksLikeClassify(flushed + held, prefix + held, false);
    LooksLikeClassify(flushed + FirstLine(held), prefix + FirstLine(held), true);
  }

  // ----- Rejected links -----

  /** The state inside a rejected link, its open images those of `l`. */
  ghost predicate InRejected(s: State, l: Label) {
    && |s.links| == 1 && s.links[0].destination.None? && s.codeBlock.None?
    && s.images == l.images && !l.inCode && forall k :: 0 <= k < |l.images| ==> NoBreak(l.images[k])
  }

  /** The line start is still the text so far, or is decided and safe. */
  ghost predicate Tracked(s: State, l: Label) {
    && InRejected(s, l) && LineHeld(s)
    && (Classify(l.text, false) == Pending ==> s.prefix == l.text && CurrentLine(s.output) == "")
    && (Classify(l.text, false) != Pending ==> s.prefix == "")
    && (l.text == "" <==> s.prefix == "" && CurrentLine(s.output) == "")
  }

  /** The line is open and safe, whatever may still be held back. */
  ghost predicate Opened(s: State, l: Label) {
    InRejected(s, l) && LineHeld(s) && CurrentLine(s.output) != ""
  }

  /** The line start was written undecided; the line so far looks like the text so far. */
  ghost predicate Exposed(s: State, l: Label) {
    && InRejected(s, l) && s.prefix == "" && EndedLinesSafe(s.output)
    && CurrentLine(s.output) != "" && LooksLike(CurrentLine(s.output), l.text)
  }

  lemma MarkerStaysMarker(s: string, c: char)
    requires Classify(s, false) == MarkdownMarker
    ensures Classify(s + [c], false) == MarkdownMarker
  {
    hide CountOf, OnlyCharOrSpace, InRanges;
    LeadingGrows(s, c);
    assert forall k :: 0 <= k < |s| ==> (s + [c])[k] == s[k];
  }

  lemma DecidedStaysDecided(s: string, c: char)
    requires s != "" && Classify(s, false) != Pending
    ensures Classify(s + [c], false) != Pending
  {
    hide Classify;
    if Classify(s, false) == Safe {
      SafeStaysSafe(s, c);
    } else {
      MarkerStaysMarker(s, c);
    }
  }

  lemma CharIsTracked(s: State, l: Label, text: string, i: nat, alnum: char -> bool)
    requires Tracked(s, l) && i < |text| && text[i] != '\n' && l.images == []
    ensures Tracked(PushChar(s, text, i, alnum), l.(text := l.text + [text[i]]))
  {
    hide Classify, LineHeld, FlushedFrom, Flush, CurrentLine, EndedLinesSafe;
    PushCharIsHeld(s, text, i, alnum);
    CharKeepsRoute(s, text, i, alnum);
    LineStartIff(s.output);
    if s.prefix == "" && CurrentLine(s.output) != "" {
      DecidedStaysDecided(l.text, text[i]);
      OpenCharStaysOpen(s, text, i, alnum);
    } else {
      assert s.prefix + [text[i]] == l.text + [text[i]];
      StartChar(s, text, i, alnum);
    }
  }

  lemma CharKeepsRoute(s: State, text: string, i: nat, alnum: char -> bool)
    requires i < |text|
    ensures var r := PushChar(s, text, i, alnum); r == s.(output := r.output, prefix := r.prefix)
  {
    hide Classify, FlushedFrom;
  }

  lemma OpenCharStaysOpen(s: State, text: string, i: nat, alnum: char -> bool)
    requires i < |text| && text[i] != '\n' && s.prefix == "" && CurrentLine(s.output) != ""
    ensures PushChar(s, text, i, alnum).prefix == "" && CurrentLine(PushChar(s, text, i, alnum).output) != ""
  {
    hide Classify, Flush;
    LineIsOpen(s.output);
    OpenLineChar(s, text, i, alnum);
    LineIsOpen(PushChar(s, text, i, alnum).output);
  }

  /** A character at an undecided line start. */
  lemma StartChar(s: State, text: string, i: nat, alnum: char -> bool)
    requires i < |text| && text[i] != '\n' && LineHeld(s) && CurrentLine(s.output) == ""
    ensures var r := PushChar(s, text, i, alnum); var longer := s.prefix + [text[i]];
      if Classify(longer, false) == Pending then r.prefix == longer && r.output == s.output
      else r.prefix == "" && CurrentLine(r.output) != ""
  {
    hide Classify, FlushedFrom, EndedLinesSafe, CurrentLine, Flush;
    LineStartIff(s.output);
    var longer := s.(prefix := s.prefix + [text[i]]);
    if Classify(longer.prefix, false) != Pending {
      var atEnd := Classify(longer.prefix, false) == MarkdownMarker;
      FlushedLine(longer, atEnd, alnum);
      FlushedLength(longer.prefix, 0, Classify(longer.prefix, atEnd), false, alnum);
    }
  }

  lemma {:induction false} TextIsTracked(s: State, l: Label, text: string, i: nat, alnum: char -> bool)
    requires Tracked(s, l) && i <= |text| && NoBreak(text) && l.images == []
    ensures Tracked(PushChars(s, text, i, alnum), l.(text := l.text + text[i..]))
    decreases |text| - i
  {
    hide Tracked, PushChar;
    if i < |text| {
      CharIsTracked(s, l, text, i, alnum);
      TextIsTracked(PushChar(s, text, i, alnum), l.(text := l.text + [text[i]]), text, i + 1, alnum);
      assert l.text + [text[i]] + text[i + 1..] == l.text + text[i..];
    } else {
      assert l.text + text[i..] == l.text;
    }
  }

  lemma TextOnOpenLine(s: State, l: Label, text: string, alnum: char -> bool)
    requires Opened(s, l) && l.images == [] && NoBreak(text)
    ensures Opened(PushChars(s, text, 0, alnum), l.(text := l.text + text))
  {
    hide Classify, CurrentLine, EndedLinesSafe, PushChars;
    PushCharsIsHeld(s, text, 0, alnum);
    PushCharsKeepsRoute(s, text, 0, alnum);
    OpenLineStays(s, text, 0, alnum);
  }

  /** Text without a line feed only adds to an open line. */
  lemma {:induction false} OpenLineStays(s: State, text: string, i: nat, alnum: char -> bool)
    requires i <= |text| && NoBreak(text) && CurrentLine(s.output) != "" && !InLabel(s) && NoBreak(s.prefix)
    ensures CurrentLine(PushChars(s, text, i, alnum).output) != ""
    decreases |text| - i
  {
    hide Classify, FlushedFrom, CurrentLine, Flush;
    if i < |text| {
      CharOnOpenLine(s, text, i, alnum);
      OpenLineStays(PushChar(s, text, i, alnum), text, i + 1, alnum);
    }
  }

  lemma CharOnOpenLine(s: State, text: string, i: nat, alnum: char -> bool)
    requires i < |text| && text[i] != '\n' && CurrentLine(s.output) != "" && !InLabel(s) && NoBreak(s.prefix)
    ensures var r := PushChar(s, text, i, alnum); CurrentLine(r.output) != "" && !InLabel(r) && NoBreak(r.prefix)
  {
    hide Classify, FlushedFrom, CurrentLine, SafeLiteralChar;
    var longer := s.(prefix := s.prefix + [text[i]]);
    LineIsOpen(s.output);
    FlushedHasNoBreak(longer.prefix, Classify(longer.prefix, false), alnum);
    FlushedHasNoBreak(longer.prefix, Classify(longer.prefix, true), alnum);
    AppendWithoutBreak(s.output, FlushedFrom(longer.prefix, 0, Classify(longer.prefix, false), false, alnum));
    AppendWithoutBreak(s.output, FlushedFrom(longer.prefix, 0, Classify(longer.prefix, true), false, alnum));
    LiteralIsNoBreak(text, i, alnum);
    AppendWithoutBreak(s.output, [LiteralAt(text, i, false, alnum)]);
  }

  lemma LiteralIsNoBreak(text: string, i: nat, alnum: char -> bool)
    requires i < |text| && text[i] != '\n'
    ensures LiteralAt(text, i, false, alnum) != '\n'
  {
  }

  lemma TextOnExposedLine(s: State, l: Label, text: string, alnum: char -> bool)
    requires Exposed(s, l) && l.images == [] && NoBreak(text)
    ensures Exposed(PushChars(s, text, 0, alnum), l.(text := l.text + text))
  {
    hide Classify, FlushedFrom, CurrentLine, EndedLinesSafe, PushChar, Matters;
    LineIsOpen(s.output);
    OpenLineText(s, text, 0, |text|, alnum);
    var written := FlushedFrom(text, 0, Safe, false, alnum);
    assert written[..|text|] == written;
    NothingMorePushed(s.(output := s.output + written), text, alnum);
    AppendWithoutBreak(s.output, written);
    FlushedLooksLike(text, Safe, alnum);
  }

  lemma FlushOnOpenLine(s: State, l: Label, alnum: char -> bool)
    requires Opened(s, l)
    ensures Opened(Flush(s, false, alnum), l)
  {
    hide Classify, FlushedFrom, CurrentLine, EndedLinesSafe, Flush;
    FlushedLine(s, false, alnum);
    SafeStaysSafeBy(CurrentLine(s.output), FlushedFrom(s.prefix, 0, Classify(s.prefix, false), false, alnum));
  }

  /** A space written by a line break opens the line: what was held back no longer stands at its start. */
  lemma BreakOpensLine(s: State, l: Label, alnum: char -> bool)
    requires Tracked(s, l) || Opened(s, l)
    requires l.images == []
    ensures Opened(Step(s, Break, alnum), LabelStep(l, Break, Raw))
  {
    hide Classify, CurrentLine, EndedLinesSafe, Flush;
    AppendWithoutBreak(s.output, " ");
    if CurrentLine(s.output) == "" {
      assert "" + " " == " ";
      SpaceIsSafe();
    } else {
      SafeStaysSafeBy(CurrentLine(s.output), " ");
    }
  }

  lemma SpaceIsSafe()
    ensures Classify(" ", false) == Safe
  {
  }

  /** An undecided line start that code writes out. */
  lemma CodeExposesLineStart(s: State, l: Label, code: string, alnum: char -> bool)
    requires Tracked(s, l) && l.images == [] && Classify(l.text, false) == Pending && NoBreak(code)
    ensures Exposed(PushCode(s, code, alnum), l.(text := l.text + code))
  {
    hide Classify, FlushedFrom, CurrentLine, EndedLinesSafe, Flush, PushChars, Matters;
    FlushedLine(s, false, alnum);
    FlushedLooksLike(l.text, Pending, alnum);
    var flushed := FlushedFrom(l.text, 0, Pending, false, alnum);
    assert "" + flushed == flushed;
    EmptyLineIsSafe();
    TextOnExposedLine(Flush(s, false, alnum), l, code, alnum);
  }

  // ----- Steps inside a rejected link -----

  /** Events that only concern images. */
  predicate StaysInImages(l: Label, e: Event) {
    e.Start? || e.Ignored? || (if e.End? then e != End(EndImage) || |l.images| > 1 else l.images != [])
  }

  lemma ImageStep(s: State, l: Label, e: Event, alnum: char -> bool)
    requires InRejected(s, l) && IsLabelEvent(e) && StaysInImages(l, e)
    ensures InRejected(Step(s, e, alnum), LabelStep(l, e, Raw))
    ensures var r := Step(s, e, alnum); r.output == s.output && r.prefix == s.prefix && r.links == s.links
    ensures LabelStep(l, e, Raw).text == l.text
  {
    hide Trim, Classify, FlushedFrom, PushChars, Flush;
    if e == End(EndImage) {
      TrimHasNoBreak(l.images[|l.images| - 1]);
    }
  }

  /** What an event writes outside images. */
  function WrittenBy(l: Label, e: Event): string {
    match e
    case Text(s) => s
    case Math(s) => s
    case Code(s) => s
    case End(_) => if l.images != [] then Trim(l.images[|l.images| - 1]) else ""
    case _ => ""
  }

  /** Closing the last image, and text: both push plain text outside images. */
  lemma WritingStep(s: State, l: Label, e: Event, alnum: char -> bool)
    requires InRejected(s, l) && IsLabelEvent(e) && !StaysInImages(l, e) && !e.Break?
    requires e == End(EndImage) ==> l.images != []
    ensures var text := WrittenBy(l, e); var shut := s.(images := []);
      && NoBreak(text) && InRejected(shut, l.(images := []))
      && LabelStep(l, e, Raw) == l.(text := l.text + text, images := [])
      && Step(s, e, alnum) == PushChars(if e.Code? then Flush(shut, false, alnum) else shut, text, 0, alnum)
  {
    hide Trim, Classify, FlushedFrom, PushChars;
    assert l.text + "" == l.text;
    if e == End(EndImage) {
      TrimHasNoBreak(l.images[0]);
      assert l.images[..0] == [];
      NothingPushed(s.(images := []), alnum);
    }
  }

  lemma OpenedStep(s: State, l: Label, e: Event, alnum: char -> bool)
    requires Opened(s, l) && IsLabelEvent(e) && (e == End(EndImage) ==> l.images != [])
    ensures Opened(Step(s, e, alnum), LabelStep(l, e, Raw))
  {
    hide Classify, CurrentLine, EndedLinesSafe, PushChars, Flush, Step, LabelStep, IsLabelEvent;
    if StaysInImages(l, e) {
      ImageStep(s, l, e, alnum);
    } else if e.Break? {
      BreakOpensLine(s, l, alnum);
    } else {
      WritingStep(s, l, e, alnum);
      var shut, rest := s.(images := []), l.(images := []);
      FlushOnOpenLine(shut, rest, alnum);
      TextOnOpenLine(if e.Code? then Flush(shut, false, alnum) else shut, rest, WrittenBy(l, e), alnum);
    }
  }

  lemma ExposedStep(s: State, l: Label, e: Event, alnum: char -> bool)
    requires Exposed(s, l) && IsLabelEvent(e) && (e == End(EndImage) ==> l.images != [])
    ensures Exposed(Step(s, e, alnum), LabelStep(l, e, Raw))
  {
    hide Classify, CurrentLine, EndedLinesSafe, PushChars, Step, LabelStep, IsLabelEvent, Matters;
    if StaysInImages(l, e) {
      ImageStep(s, l, e, alnum);
    } else if e.Break? {
      SpaceOnExposedLine(s, l, alnum);
    } else {
      WritingStep(s, l, e, alnum);
      TextOnExposedLine(s.(images := []), l.(images := []), WrittenBy(l, e), alnum);
    }
  }

  lemma SpaceOnExposedLine(s: State, l: Label, alnum: char -> bool)
    requires Exposed(s, l) && l.images == []
    ensures Exposed(Step(s, Break, alnum), LabelStep(l, Break, Raw))
  {
    hide Classify, CurrentLine, EndedLinesSafe, Matters;
    AppendWithoutBreak(s.output, " ");
  }

  lemma TrackedStep(s: State, l: Label, e: Event, alnum: char -> bool)
    requires Tracked(s, l) && IsLabelEvent(e) && (e == End(EndImage) ==> l.images != [])
    ensures var r, m := Step(s, e, alnum), LabelStep(l, e, Raw);
      if e.Code? && l.images == [] && Classify(l.text, false) == Pending then Exposed(r, m)
      else if e.Break? && l.images == [] then Opened(r, m)
      else Tracked(r, m)
  {
    hide Classify, CurrentLine, EndedLinesSafe, PushChars, Step, LabelStep, IsLabelEvent, LineHeld, Exposed, Opened;
    if StaysInImages(l, e) {
      ImageStep(s, l, e, alnum);
      HeldIgnoresImages(s, Step(s, e, alnum));
    } else if e.Break? {
      BreakOpensLine(s, l, alnum);
    } else {
      WritingStep(s, l, e, alnum);
      var shut, rest := s.(images := []), l.(images := []);
      HeldIgnoresImages(s, shut);
      if e.Code? && Classify(l.text, false) == Pending {
        CodeExposesLineStart(s, l, WrittenBy(l, e), alnum);
        CodeIsPushed(s, e, alnum);
        assert LabelStep(l, e, Raw) == l.(text := l.text + WrittenBy(l, e));
      } else {
        TextIsTracked(shut, rest, WrittenBy(l, e), 0, alnum);
        assert l.text + WrittenBy(l, e)[0..] == l.text + WrittenBy(l, e);
      }
    }
  }

  lemma CodeIsPushed(s: State, e: Event, alnum: char -> bool)
    requires e.Code?
    ensures Step(s, e, alnum) == PushCode(s, e.code, alnum)
  {
  }

  lemma HeldIgnoresImages(s: State, r: State)
    requires LineHeld(s) && r.output == s.output && r.prefix == s.prefix && r.links == s.links
    ensures LineHeld(r)
  {
  }

  // ----- Whole rejected links -----

  lemma {:induction false} OpenedRun(s: State, l: Label, es: seq<Event>, alnum: char -> bool)
    requires Opened(s, l) && ImagesNested(es, |l.images|) && forall k :: 0 <= k < |es| ==> IsLabelEvent(es[k])
    ensures var m := LabelRun(l, es, Raw); Opened(Run(s, es, alnum), m) && m.images == []
    decreases |es|
  {
    hide Opened, Step, LabelStep, IsLabelEvent, ImagesNested;
    NestedEnd(es, |l.images|);
    if es != [] {
      NestedStep(es, |l.images|);
      LabelDepth(l, es[0], Raw);
      OpenedStep(s, l, es[0], alnum);
      OpenedRun(Step(s, es[0], alnum), LabelStep(l, es[0], Raw), es[1..], alnum);
    }
  }

  lemma NestedEnd(es: seq<Event>, depth: nat)
    requires ImagesNested(es, depth)
    ensures es == [] ==> depth == 0
  {
  }

  lemma {:induction false} ExposedRun(s: State, l: Label, es: seq<Event>, alnum: char -> bool)
    requires Exposed(s, l) && ImagesNested(es, |l.images|) && forall k :: 0 <= k < |es| ==> IsLabelEvent(es[k])
    ensures var m := LabelRun(l, es, Raw); Exposed(Run(s, es, alnum), m) && m.images == []
    decreases |es|
  {
    hide Exposed, Step, LabelStep, IsLabelEvent, ImagesNested;
    NestedEnd(es, |l.images|);
    if es != [] {
      NestedStep(es, |l.images|);
      LabelDepth(l, es[0], Raw);
      ExposedStep(s, l, es[0], alnum);
      ExposedRun(Step(s, es[0], alnum), LabelStep(l, es[0], Raw), es[1..], alnum);
    }
  }

  lemma {:induction false} TrackedRun(s: State, l: Label, es: seq<Event>, alnum: char -> bool)
    requires Tracked(s, l) && ImagesNested(es, |l.images|) && forall k :: 0 <= k < |es| ==> IsLabelEvent(es[k])
    ensures var r, m := Run(s, es, alnum), LabelRun(l, es, Raw);
      m.images == [] && if CodeMeetsLineStart(l, es) then Exposed(r, m) else InRejected(r, m) && LineHeld(r)
    decreases |es|
  {
    hide Exposed, Opened, Tracked, Step, LabelStep, IsLabelEvent, ImagesNested, InRejected, LineHeld, Classify;
    NestedEnd(es, |l.images|);
    if es == [] {
      TrackedIsHeld(s, l);
    } else {
      var r, m := Step(s, es[0], alnum), LabelStep(l, es[0], Raw);
      NestedStep(es, |l.images|);
      LabelDepth(l, es[0], Raw);
      TrackedStep(s, l, es[0], alnum);
      if es[0].Code? && l.images == [] && Classify(l.text, false) == Pending {
        ExposedRun(r, m, es[1..], alnum);
      } else if es[0].Break? && l.images == [] {
        OpenedRun(r, m, es[1..], alnum);
        OpenedIsHeld(Run(r, es[1..], alnum), LabelRun(m, es[1..], Raw));
      } else {
        TrackedRun(r, m, es[1..], alnum);
      }
    }
  }

  lemma TrackedIsHeld(s: State, l: Label)
    requires Tracked(s, l)
    ensures InRejected(s, l) && LineHeld(s)
  {
  }

  lemma OpenedIsHeld(s: State, l: Label)
    requires Opened(s, l)
    ensures InRejected(s, l) && LineHeld(s)
  {
  }

  /** Inside an image a rejected link reaches the images and nothing else. */
  lemma {:induction false} RejectedInImage(s: State, l: Label, es: seq<Event>, depth: nat, alnum: char -> bool)
    requires s.images == l.images && |l.images| > depth && !l.inCode && s.codeBlock.None? && ImagesNested(es, depth)
    requires forall k :: 0 <= k < |es| ==> IsLabelEvent(es[k])
    ensures Run(s, es, alnum) == s.(images := LabelRun(l, es, Raw).images)
    decreases |es|
  {
    hide Step, LabelStep, IsLabelEvent, ImagesNested;
    if es != [] {
      NestedStep(es, depth);
      LabelDepth(l, es[0], Raw);
      InImageStep(s, l, es[0], alnum);
      RejectedInImage(Step(s, es[0], alnum), LabelStep(l, es[0], Raw), es[1..], DepthAfter(es[0], depth), alnum);
    }
  }

  lemma InImageStep(s: State, l: Label, e: Event, alnum: char -> bool)
    requires s.images == l.images && l.images != [] && !l.inCode && s.codeBlock.None? && IsLabelEvent(e)
    requires e == End(EndImage) ==> |l.images| > 1
    ensures Step(s, e, alnum) == s.(images := LabelStep(l, e, Raw).images)
  {
    hide Trim, Classify, FlushedFrom, PushChars;
  }

  lemma RejectedKeepsGuardIff(st: State, url: string, content: seq<Event>, alnum: char -> bool)
    requires Guarded(st) && SanitizeLinkDestination(url).None? && IsLabel(content)
    ensures Guarded(Run(st, LinkEvents(url, content), alnum)) <==> Harmless(st, url, content)
    ensures var after := Run(st, LinkEvents(url, content), alnum);
      OutsideSpans(after) && EndedLinesSafe(after.output) && (after.prefix == "" || Guarded(after))
  {
    hide Run, LinkEvents, LabelRun, LabelStep, Classify, CurrentLine, EndedLinesSafe, Collected, Unmarkable, ShowsText,
      LineHeld, FirstLine, CodeMeetsLineStart, IsLabelEvent, ImagesNested;
    var base := st.(links := [LinkFrame(None, |st.output|)]);
    RunOfLink(st, url, content, alnum);
    RejectedOpens(st, url, alnum);
    if st.images != [] {
      var l := Label("", st.images, false);
      RejectedInImage(base, l, content, 0, alnum);
      LinkTextIsCollected(l, content, 0, Raw);
      CollectedMoreIsGuarded(st, LabelRun(l, content, Raw).images);
      assert CloseLink(Run(base, content, alnum)) == st.(images := LabelRun(l, content, Raw).images);
    } else {
      var l := Label(st.prefix, [], false);
      GuardedIsHeld(st);
      RejectedStarts(st, base, l);
      if CurrentLine(st.output) != "" {
        OpenedRun(base, l, content, alnum);
      } else {
        TrackedRun(base, l, content, alnum);
      }
      RejectedCloses(Run(base, content, alnum), LabelRun(l, content, Raw));
    }
  }

  lemma RejectedOpens(st: State, url: string, alnum: char -> bool)
    requires st.links == [] && SanitizeLinkDestination(url).None?
    ensures Step(st, Start(Link(url)), alnum) == st.(links := [LinkFrame(None, |st.output|)])
  {
    hide SanitizeLinkDestination;
    assert [] + [LinkFrame(None, |st.output|)] == [LinkFrame(None, |st.output|)];
  }

  lemma CollectedMoreIsGuarded(st: State, images: seq<string>)
    requires Guarded(st) && Collected(st.images) <= Collected(images)
    ensures Guarded(st.(images := images))
  {
    hide Classify, Collected, CurrentLine, EndedLinesSafe, Unmarkable;
    if st.prefix == "" {
      UnmarkableStays(CurrentLine(st.output), Collected(st.images), Collected(images));
    }
  }

  lemma RejectedStarts(st: State, base: State, l: Label)
    requires LineHeld(st) && OutsideSpans(st) && st.images == []
    requires base == st.(links := [LinkFrame(None, |st.output|)]) && l == Label(st.prefix, [], false)
    ensures if CurrentLine(st.output) != "" then Opened(base, l) else Tracked(base, l)
  {
    hide Classify, CurrentLine, EndedLinesSafe;
    EmptyLineIsSafe();
  }

  /** What closing a rejected link leaves. */
  lemma RejectedCloses(s: State, l: Label)
    requires l.images == [] && (Exposed(s, l) || (InRejected(s, l) && LineHeld(s)))
    ensures var after := CloseLink(s);
      && OutsideSpans(after) && EndedLinesSafe(after.output) && (after.prefix == "" || Guarded(after))
      && (LineHeld(s) ==> Guarded(after))
      && (Exposed(s, l) ==> (Guarded(after) <==> Classify(l.text, false) == Safe))
  {
    hide Classify, CurrentLine, EndedLinesSafe, LooksLike, FirstLine;
    var after := CloseLink(s);
    assert s.links[..0] == [];
    assert after == s.(links := []);
    if LineHeld(s) {
      HeldIsGuarded(after);
    }
    if Exposed(s, l) {
      var line := CurrentLine(s.output);
      LooksLikeClassify(line, l.text, false);
      CollectedOfNothing();
      assert line + "" == line;
      SafeIsNoMarkerIf(line);
    }
  }

  // ----- Main results -----

  /** A link, accepted or rejected, outside or inside images, keeps the guard exactly when it is harmless. */
  lemma LinkKeepsGuardIff(st: State, url: string, content: seq<Event>, alnum: char -> bool)
    requires Guarded(st) && IsLabel(content)
    ensures Guarded(Run(st, LinkEvents(url, content), alnum)) <==> Harmless(st, url, content)
  {
    hide Run, LinkEvents, IsLabel, Harmless, Guarded;
    if SanitizeLinkDestination(url).Some? {
      AcceptedKeepsGuardIff(st, url, content, alnum);
    } else {
      RejectedKeepsGuardIff(st, url, content, alnum);
    }
  }

  /**
   After a whole link, every continuation of text events is free of block markers if and only if
   the link is harmless.
   */
  lemma ContinuationsAreMarkerFreeIff(st: State, url: string, content: seq<Event>, alnum: char -> bool)
    requires Guarded(st) && IsLabel(content)
    ensures MarkerFreeFrom(Run(st, LinkEvents(url, content), alnum), alnum) <==> Harmless(st, url, content)
  {
    hide Run, LinkEvents, IsLabel, Harmless, Guarded, MarkerFreeFrom, EndedLinesSafe;
    var after := Run(st, LinkEvents(url, content), alnum);
    if SanitizeLinkDestination(url).Some? {
      AcceptedKeepsGuardIff(st, url, content, alnum);
    } else {
      RejectedKeepsGuardIff(st, url, content, alnum);
    }
    if after.prefix == "" {
      MarkerFreeIffGuarded(after, alnum);
    } else {
      GuardedIsMarkerFree(after, alnum);
    }
  }

  /** Text events and whole links, in any order. */
  ghost predicate TextPieces(ps: seq<Piece>) {
    forall k :: 0 <= k < |ps| ==>
      match ps[k]
      case Plain(e) => IsTextEvent(e)
      case WholeLink(_, content) => IsLabel(content)
  }

  /** The link at piece `k`, if there is one, is harmless where it stands. */
  ghost predicate HarmlessAt(ps: seq<Piece>, k: nat, alnum: char -> bool)
    requires k < |ps|
  {
    ps[k].WholeLink? ==> Harmless(After(ps, k, alnum), ps[k].url, ps[k].content)
  }

  lemma {:induction false} RunKeepsItems(st: State, es: seq<Event>, alnum: char -> bool)
    requires forall k :: 0 <= k < |es| ==> IsLabelEvent(es[k])
    ensures var r := Run(st, es, alnum); r.inItem == st.inItem && r.lists == st.lists
    decreases |es|
  {
    hide Step;
    if es != [] {
      TextKeepsItems(st, es[0], alnum);
      RunKeepsItems(Step(st, es[0], alnum), es[1..], alnum);
    }
  }

  lemma LinkKeepsItems(st: State, url: string, content: seq<Event>, alnum: char -> bool)
    requires IsLabel(content)
    ensures var r := Run(st, LinkEvents(url, content), alnum); r.inItem == st.inItem && r.lists == st.lists
  {
    hide Run, Flush, SanitizeLinkDestination, ImagesNested, IsLabelEvent;
    RunOfLink(st, url, content, alnum);
    FlushShape(st, false, alnum);
    RunKeepsItems(Step(st, Start(Link(url)), alnum), content, alnum);
  }

  /** A run of text events and links opens no list item. */
  lemma {:induction false} PiecesKeepItems(ps: seq<Piece>, k: nat, alnum: char -> bool)
    requires k <= |ps| && TextPieces(ps)
    ensures After(ps, k, alnum).inItem == 0
  {
    hide After, Step, Run, LinkEvents, IsLabel, IsTextEvent;
    if k == 0 {
      AfterNothing(ps, alnum);
    } else {
      var st := After(ps, k - 1, alnum);
      PiecesKeepItems(ps, k - 1, alnum);
      AfterNext(ps, k - 1, alnum);
      match ps[k - 1]
      case Plain(e) =>
        RunOfOne(st, e, alnum);
        TextKeepsItems(st, e, alnum);
      case WholeLink(url, content) =>
        LinkKeepsItems(st, url, content, alnum);
    }
  }

  lemma PieceKeepsGuard(ps: seq<Piece>, k: nat, alnum: char -> bool)
    requires k < |ps| && TextPieces(ps) && Guarded(After(ps, k, alnum))
    ensures Guarded(After(ps, k + 1, alnum)) <==> HarmlessAt(ps, k, alnum)
    ensures MarkerFreeFrom(After(ps, k + 1, alnum), alnum) <==> HarmlessAt(ps, k, alnum)
  {
    hide After, Guarded, IsLabel, IsTextEvent, Harmless, LinkEvents, Step, MarkerFreeFrom, Run;
    AfterNext(ps, k, alnum);
    PiecesKeepItems(ps, k, alnum);
    var st := After(ps, k, alnum);
    match ps[k]
    case Plain(e) =>
      assert IsTextEvent(e);
      RunOfOne(st, e, alnum);
      StepIsGuarded(st, e, alnum);
      GuardedIsMarkerFree(Step(st, e, alnum), alnum);
    case WholeLink(url, content) =>
      LinkKeepsGuardIff(st, url, content, alnum);
      ContinuationsAreMarkerFreeIff(st, url, content, alnum);
  }

  lemma {:induction false} HarmlessLinksKeepGuard(ps: seq<Piece>, k: nat, alnum: char -> bool)
    requires k <= |ps| && TextPieces(ps) && forall j :: 0 <= j < k ==> HarmlessAt(ps, j, alnum)
    ensures Guarded(After(ps, k, alnum))
  {
    hide After, Guarded, HarmlessAt, TextPieces;
    if k == 0 {
      AfterNothing(ps, alnum);
      InitialIsGuarded();
    } else {
      HarmlessLinksKeepGuard(ps, k - 1, alnum);
      PieceKeepsGuard(ps, k - 1, alnum);
    }
  }

  lemma {:induction false} MarkerFreeMeansHarmless(ps: seq<Piece>, k: nat, alnum: char -> bool)
    requires k <= |ps| && TextPieces(ps) && forall j :: 0 <= j <= k ==> MarkerFreeFrom(After(ps, j, alnum), alnum)
    ensures forall j :: 0 <= j < k ==> HarmlessAt(ps, j, alnum)
  {
    hide After, Guarded, HarmlessAt, TextPieces, MarkerFreeFrom;
    if k > 0 {
      MarkerFreeMeansHarmless(ps, k - 1, alnum);
      HarmlessLinksKeepGuard(ps, k - 1, alnum);
      PieceKeepsGuard(ps, k - 1, alnum);
    }
  }

  /**
   Over every run of text events and links: wherever the run stops and text goes on, no line of the
   output becomes a block marker, if and only if every link of the run is harmless where it stands.
   */
  lemma RunsAreMarkerFreeIff(ps: seq<Piece>, alnum: char -> bool)
    requires TextPieces(ps)
    ensures (forall k :: 0 <= k <= |ps| ==> MarkerFreeFrom(After(ps, k, alnum), alnum))
       <==> (forall k :: 0 <= k < |ps| ==> HarmlessAt(ps, k, alnum))
  {
    hide After, Guarded, HarmlessAt, TextPieces, MarkerFreeFrom;
    if forall k :: 0 <= k <= |ps| ==> MarkerFreeFrom(After(ps, k, alnum), alnum) {
      MarkerFreeMeansHarmless(ps, |ps|, alnum);
    }
    if forall k :: 0 <= k < |ps| ==> HarmlessAt(ps, k, alnum) {
      forall k | 0 <= k <= |ps|
        ensures MarkerFreeFrom(After(ps, k, alnum), alnum)
      {
        HarmlessLinksKeepGuard(ps, k, alnum);
        GuardedIsMarkerFree(After(ps, k, alnum), alnum);
      }
    }
  }

  /** With harmless links in the run, still no line of the finished output is a block marker. */
  lemma NoMarkerIsReactivatedAroundLinks(ps: seq<Piece>, alnum: char -> bool)
    requires TextPieces(ps) && forall k :: 0 <= k < |ps| ==> HarmlessAt(ps, k, alnum)
    ensures Unmarked(Finish(After(ps, |ps|, alnum), alnum))
  {
    hide After, Guarded, HarmlessAt, TextPieces, Finish, Unmarked;
    HarmlessLinksKeepGuard(ps, |ps|, alnum);
    GuardedFinishesUnmarked(After(ps, |ps|, alnum), alnum);
  }

  // ----- Where the guarantee ends -----

  lemma DashIsPending(alnum: char -> bool)
    ensures Step(INITIAL, Text("-"), alnum) == INITIAL.(prefix := "-")
  {
    assert [] + ['-'] == "-";
    assert Classify("-", false) == Pending;
    assert PushChar(INITIAL, "-", 0, alnum) == INITIAL.(prefix := "-");
  }

  lemma DashIsFlushed(st: State, alnum: char -> bool)
    requires st.prefix == "-" && st.output == "" && !InLabel(st)
    ensures Flush(st, false, alnum) == st.(output := "-", prefix := "")
  {
    assert Classify("-", false) == Pending;
    assert FlushedFrom("-", 0, Pending, false, alnum) == "-" by {
      assert FlushedFrom("-", 1, Pending, false, alnum) == "";
    }
  }

  lemma PlainCharIsWritten(st: State, s: string, i: nat, alnum: char -> bool)
    requires st.prefix == "" && st.output != "" && st.output[|st.output| - 1] != '\n' && !InLabel(st)
    requires i < |s| && (s[i] == ' ' || s[i] == 'x')
    ensures PushChar(st, s, i, alnum) == st.(output := st.output + [s[i]])
  {
    hide Flush, Classify;
    OpenLineChar(st, s, i, alnum);
  }

  lemma SpaceAfterDash(st: State, s: string, alnum: char -> bool)
    requires st.output == "-" && st.prefix == "" && !InLabel(st) && s == " x"
    ensures PushChars(st, s, 0, alnum) == st.(output := st.output + s)
  {
    hide PushChar;
    PlainCharIsWritten(st, s, 0, alnum);
    var spaced := st.(output := st.output + [' ']);
    PlainCharIsWritten(spaced, s, 1, alnum);
    assert st.output + [' '] + ['x'] == st.output + s;
    var written := st.(output := st.output + s);
    NothingMorePushed(written, s, alnum);
    assert PushChars(spaced, s, 1, alnum) == PushChars(written, s, 2, alnum);
  }

  lemma DashSpaceIsMarker(alnum: char -> bool)
    ensures Finish(INITIAL.(output := "- x"), alnum) == "- x" && Classify("- x", true) == MarkdownMarker
  {
    IsInRanges(' ', WHITE_SPACE, 1);
  }

  lemma HttpIsAccepted()
    ensures SanitizeLinkDestination("http://a") == Some("http://a")
  {
    var d := "http://a";
    PrintableIsNotWhitespace('h');
    PrintableIsNotWhitespace('a');
    assert Trim(d) == d;
    assert StartsWithIgnoringCase(d, "http://");
  }

  lemma FtpIsRejected()
    ensures SanitizeLinkDestination("ftp://a").None?
  {
    var d := "ftp://a";
    PrintableIsNotWhitespace('f');
    PrintableIsNotWhitespace('a');
    assert Trim(d) == d;
    assert AsciiLower('f') == 'f';
  }

  lemma DashThenEmptyLink(alnum: char -> bool)
    ensures Run(INITIAL, [Text("-")] + LinkEvents("http://a", []), alnum) == INITIAL.(output := "-")
  {
    hide Step, LinkEvents;
    RunAppend(INITIAL, [Text("-")], LinkEvents("http://a", []), alnum);
    RunOfOne(INITIAL, Text("-"), alnum);
    DashIsPending(alnum);
    EmptyLinkAfterDash(INITIAL.(prefix := "-"), alnum);
  }

  /** An accepted link whose label stays empty is taken back, and the text after it completes a list marker. */
  lemma EmptyLinkReactivatesAMarker(alnum: char -> bool)
    ensures var events := [Text("-")] + LinkEvents("http://a", []) + [Text(" x")];
      && Finish(Run(INITIAL, events, alnum), alnum) == "- x"
      && Classify("- x", true) == MarkdownMarker
  {
    hide Step, LinkEvents, Finish, Classify, Run, PushChars, Flush;
    var released := INITIAL.(output := "-");
    DashThenEmptyLink(alnum);
    RunAppend(INITIAL, [Text("-")] + LinkEvents("http://a", []), [Text(" x")], alnum);
    RunOfOne(released, Text(" x"), alnum);
    TextIsPushed(released, " x", alnum);
    SpaceAfterDash(released, " x", alnum);
    assert "-" + " x" == "- x";
    DashSpaceIsMarker(alnum);
  }

  lemma TextIsPushed(st: State, s: string, alnum: char -> bool)
    requires st.images == [] && st.codeBlock.None?
    ensures Step(st, Text(s), alnum) == PushChars(st, s, 0, alnum)
    ensures st.links != [] ==> Step(st, Code(s), alnum) == PushChars(Flush(st, false, alnum), s, 0, alnum)
  {
    hide PushChars, Classify, FlushedFrom;
  }

  lemma EmptyLinkAfterDash(dashed: State, alnum: char -> bool)
    requires dashed == INITIAL.(prefix := "-")
    ensures Run(dashed, LinkEvents("http://a", []), alnum) == dashed.(output := "-", prefix := "")
  {
    hide Run, LinkEvents, SanitizeLinkDestination, Flush;
    HttpIsAccepted();
    LinkIsClosedOrTakenBack(dashed, "http://a", [], alnum);
    DashIsFlushed(dashed, alnum);
    assert LabelOf(dashed, [], alnum) == Label("", [], false);
    assert "-" + "" == "-";
  }

  /** Inline code in a rejected link shows text and still completes a list marker. */
  lemma RejectedLinkReactivatesAMarker(alnum: char -> bool)
    ensures var events := [Text("-")] + LinkEvents("ftp://a", [Code(" x")]);
      && Finish(Run(INITIAL, events, alnum), alnum) == "- x"
      && Classify("- x", true) == MarkdownMarker
  {
    hide Step, LinkEvents, Finish, Classify, SanitizeLinkDestination, Flush, PushChars;
    var dashed, link := INITIAL.(prefix := "-"), LinkEvents("ftp://a", [Code(" x")]);
    RunAppend(INITIAL, [Text("-")], link, alnum);
    RunOfOne(INITIAL, Text("-"), alnum);
    DashIsPending(alnum);
    FtpIsRejected();
    RunOfLink(dashed, "ftp://a", [Code(" x")], alnum);
    RejectedOpens(dashed, "ftp://a", alnum);
    var inside := dashed.(links := [LinkFrame(None, 0)]);
    RunOfOne(inside, Code(" x"), alnum);
    DashIsFlushed(inside, alnum);
    var released := inside.(output := "-", prefix := "");
    TextIsPushed(inside, " x", alnum);
    SpaceAfterDash(released, " x", alnum);
    assert "-" + " x" == "- x";
    assert released.links[..0] == [];
    DashSpaceIsMarker(alnum);
  }
}
