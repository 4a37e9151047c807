/**
 The output of the renderer with its own markup blotted out, and why that view is faithful: the
 renderer never looks at the markup again.
 */
module QqSight {
  import opened Characters
  import opened CodeMarkup
  import opened InlineEscape
  import opened QqRenderer
  import opened QqMarkers
  import Decimal

  // ----- Blotting -----

  /** What stands where a list marker, a heading marker or a fence was. */
  function Blot(c: char): char {
    if c in {'#', '-', '+', '=', '.', ')'} || IsAsciiDigit(c) then 'x' else c
  }

  /** The text with its characters at the positions `own` blotted out. */
  function Blotted(s: string, own: set<nat>): string {
    seq(|s|, i requires 0 <= i < |s| => if i in own then Blot(s[i]) else s[i])
  }

  function Range(lo: nat, hi: nat): (r: set<nat>)
    ensures forall p :: p in r <==> lo <= p < hi
    decreases hi - lo
  {
    if lo < hi then {lo} + Range(lo + 1, hi) else {}
  }

  /** The state as far as it is text: its own markup blotted out. */
  function Sight(st: State, own: set<nat>): State {
    st.(output := Blotted(st.output, own))
  }

  ghost predicate Within(st: State, own: set<nat>) {
    forall p :: p in own ==> p < |st.output| && forall k :: 0 <= k < |st.links| ==> p < st.links[k].outputStart
  }

  lemma BlotIsFinal(c: char)
    ensures Blot(Blot(c)) == Blot(c)
  {
  }

  lemma BlottedTail(s: string, t: string)
    ensures var blotted := Blotted(s + t, Range(|s|, |s + t|)); var tail := blotted[|s|..];
      blotted == s + tail && forall k :: 0 <= k < |tail| ==> Blot(tail[k]) == tail[k]
  {
    hide Blot;
    var blotted := Blotted(s + t, Range(|s|, |s + t|));
    var tail := blotted[|s|..];
    assert blotted[..|s|] == s;
    forall k | 0 <= k < |tail|
      ensures Blot(tail[k]) == tail[k]
    {
      assert tail[k] == Blot(t[k]);
      BlotIsFinal(t[k]);
    }
  }

  lemma NothingBlotted(st: State)
    ensures Sight(st, {}) == st
  {
    assert Blotted(st.output, {}) == st.output;
  }

  lemma BlottedTwice(st: State, a: set<nat>, b: set<nat>)
    ensures Sight(Sight(st, a), b) == Sight(st, a + b)
  {
    hide Blot;
    forall k | 0 <= k < |st.output|
      ensures Blotted(Blotted(st.output, a), b)[k] == Blotted(st.output, a + b)[k]
    {
      BlotIsFinal(st.output[k]);
    }
  }

  lemma BlottedLine(s: string, own: set<nat>, a: nat, b: nat)
    requires IsLine(s, a, b) && forall p :: a <= p < b ==> p !in own
    ensures IsLine(Blotted(s, own), a, b) && Blotted(s, own)[a..b] == s[a..b]
  {
    assert forall c :: Blot(c) == '\n' <==> c == '\n';
  }

  // ----- Blotting commutes with every step -----

  lemma BlottedAppend(s: string, t: string, own: set<nat>)
    requires forall p :: p in own ==> p < |s|
    ensures Blotted(s + t, own) == Blotted(s, own) + t
  {
  }

  lemma BlottedEnds(s: string, t: string, own: set<nat>)
    requires forall k :: 0 <= k < |t| ==> t[k] in {'\n', ' ', '/'}
    ensures EndsWith(Blotted(s, own), t) == EndsWith(s, t)
  {
    if |t| <= |s| {
      var r, m := s[|s| - |t|..], Blotted(s, own)[|s| - |t|..];
      assert forall k :: 0 <= k < |t| ==> (r[k] == t[k] <==> m[k] == t[k]);
    }
  }

  lemma BlottedBreaks(s: string, own: set<nat>)
    requires forall p :: p in own ==> p < |s|
    ensures EnsureLineBreak(Blotted(s, own)) == Blotted(EnsureLineBreak(s), own)
    ensures EnsureParagraphBreak(Blotted(s, own)) == Blotted(EnsureParagraphBreak(s), own)
    ensures PushParagraphBreak(Blotted(s, own)) == Blotted(PushParagraphBreak(s), own)
    ensures s <= EnsureLineBreak(s) && s <= EnsureParagraphBreak(s) && s <= PushParagraphBreak(s)
  {
    hide Blotted, EndsWith;
    BlottedLength(s, own);
    BlottedEnds(s, "\n", own);
    BlottedEnds(s, "\n\n", own);
    BlottedAppend(s, "\n", own);
    BlottedAppend(s + "\n", "\n", own);
  }

  lemma BlottedLength(s: string, own: set<nat>)
    ensures |Blotted(s, own)| == |s| && (Blotted(s, own) == "" <==> s == "")
  {
  }

  lemma FlushInSight(st: State, own: set<nat>, atLineEnd: bool, alnum: char -> bool)
    requires Within(st, own)
    ensures Flush(Sight(st, own), atLineEnd, alnum) == Sight(Flush(st, atLineEnd, alnum), own)
    ensures Within(Flush(st, atLineEnd, alnum), own)
  {
    hide Blotted, FlushedFrom, Classify;
    BlottedAppend(st.output, FlushedFrom(st.prefix, 0, Classify(st.prefix, atLineEnd), InLabel(st), alnum), own);
  }

  /** Anything appended is in sight as it is. */
  lemma AppendInSight(st: State, t: string, own: set<nat>)
    requires Within(st, own)
    ensures Sight(st.(output := st.output + t), own) == Sight(st, own).(output := Sight(st, own).output + t)
    ensures Within(st.(output := st.output + t), own)
  {
    hide Blotted;
    BlottedAppend(st.output, t, own);
  }

  lemma CharInSight(st: State, s: string, i: nat, own: set<nat>, alnum: char -> bool)
    requires Within(st, own) && i < |s|
    ensures PushChar(Sight(st, own), s, i, alnum) == Sight(PushChar(st, s, i, alnum), own)
    ensures Within(PushChar(st, s, i, alnum), own)
  {
    hide Blotted, Flush, Classify, LiteralAt, EndsWith, Within;
    BlottedLength(st.output, own);
    BlottedEnds(st.output, "\n", own);
    if s[i] == '\n' {
      FlushInSight(st, own, true, alnum);
      AppendInSight(Flush(st, true, alnum), "\n", own);
    } else {
      var longer := st.(prefix := st.prefix + [s[i]]);
      assert Within(longer, own) by { OutputDecidesWithin(st, longer, own); }
      FlushInSight(longer, own, true, alnum);
      FlushInSight(longer, own, false, alnum);
      AppendInSight(st, [LiteralAt(s, i, InLabel(st), alnum)], own);
    }
  }

  lemma OutputDecidesWithin(st: State, other: State, own: set<nat>)
    requires Within(st, own) && other.output == st.output && other.links == st.links
    ensures Within(other, own)
  {
  }

  lemma {:induction false} CharsInSight(st: State, s: string, i: nat, own: set<nat>, alnum: char -> bool)
    requires Within(st, own) && i <= |s|
    ensures PushChars(Sight(st, own), s, i, alnum) == Sight(PushChars(st, s, i, alnum), own)
    ensures Within(PushChars(st, s, i, alnum), own)
    decreases |s| - i
  {
    hide Within, PushChar, Sight;
    if i < |s| {
      CharInSight(st, s, i, own, alnum);
      CharsInSight(PushChar(st, s, i, alnum), s, i + 1, own, alnum);
    }
  }

  lemma TextInSight(st: State, s: string, own: set<nat>, alnum: char -> bool)
    requires Within(st, own)
    ensures PushText(Sight(st, own), s, alnum) == Sight(PushText(st, s, alnum), own)
    ensures Within(PushText(st, s, alnum), own)
  {
    hide PushChars, Blotted;
    CharsInSight(st, s, 0, own, alnum);
  }

  lemma CodeInSight(st: State, code: string, own: set<nat>, alnum: char -> bool)
    requires Within(st, own)
    ensures PushCode(Sight(st, own), code, alnum) == Sight(PushCode(st, code, alnum), own)
    ensures Within(PushCode(st, code, alnum), own)
  {
    hide PushText, Blotted, InlineCode, Flush, Within;
    FlushShape(st, false, alnum);
    TextInSight(st, code, own, alnum);
    FlushInSight(st, own, false, alnum);
    TextInSight(Flush(st, false, alnum), code, own, alnum);
    AppendInSight(Flush(st, false, alnum), InlineCode(code), own);
  }

  lemma BreakInSight(st: State, own: set<nat>, alnum: char -> bool)
    requires Within(st, own)
    ensures PushBreak(Sight(st, own), alnum) == Sight(PushBreak(st, alnum), own)
    ensures Within(PushBreak(st, alnum), own)
  {
    hide Blotted, Flush, EnsureLineBreak;
    FlushShape(st, true, alnum);
    AppendInSight(st, " ", own);
    FlushInSight(st, own, true, alnum);
    BlottedBreaks(Flush(st, true, alnum).output, own);
  }

  lemma CloseLinkInSight(st: State, own: set<nat>)
    requires Within(st, own)
    ensures CloseLink(Sight(st, own)) == Sight(CloseLink(st), own)
    ensures Within(CloseLink(st), own)
  {
    if st.links != [] {
      var frame := st.links[|st.links| - 1];
      if frame.destination.Some? {
        AppendInSight(st, "](<" + frame.destination.value + ">)", own);
        assert st.output + "](<" + frame.destination.value + ">)" == st.output + ("](<" + frame.destination.value + ">)");
      }
    }
  }

  lemma CloseImageInSight(st: State, own: set<nat>, alnum: char -> bool)
    requires Within(st, own)
    ensures CloseImage(Sight(st, own), alnum) == Sight(CloseImage(st, alnum), own)
    ensures Within(CloseImage(st, alnum), own)
  {
    hide PushText, Blotted, Trim;
    if st.images != [] {
      var last := |st.images| - 1;
      TextInSight(st.(images := st.images[..last]), Trim(st.images[last]), own, alnum);
    }
  }

  lemma CloseCodeInSight(st: State, own: set<nat>)
    requires Within(st, own)
    ensures CloseCodeBlock(Sight(st, own)) == Sight(CloseCodeBlock(st), own)
    ensures Within(CloseCodeBlock(st), own)
  {
    hide Blotted, FencedBlock, EnsureParagraphBreak, PushParagraphBreak;
    if st.codeBlock.Some? {
      var before, block := EnsureParagraphBreak(st.output), st.codeBlock.value;
      BlottedBreaks(st.output, own);
      BlottedAppend(before, FencedBlock(block.language, block.content), own);
      BlottedBreaks(before + FencedBlock(block.language, block.content), own);
    }
  }

  lemma StartInSight(st: State, tag: Tag, own: set<nat>, alnum: char -> bool)
    requires Within(st, own)
    ensures StartTag(Sight(st, own), tag, alnum) == Sight(StartTag(st, tag, alnum), own)
    ensures Within(StartTag(st, tag, alnum), own)
  {
    hide Blotted, Flush, EnsureLineBreak, EnsureParagraphBreak, Indent, HeadingPrefix, FilterLanguage, EndsWith,
      SanitizeLinkDestination;
    FlushShape(st, false, alnum);
    var f := Flush(st, false, alnum);
    FlushInSight(st, own, false, alnum);
    BlottedBreaks(st.output, own);
    BlottedBreaks(f.output, own);
    BlottedEnds(f.output, "\n", own);
    BlottedEnds(f.output, " / ", own);
    BlottedLength(st.output, own);
    BlottedLength(f.output, own);
    match tag
    case Heading(level) =>
      var out := EnsureParagraphBreak(f.output);
      BlottedAppend(out, HeadingPrefix(level), own);
      BlottedAppend(out + HeadingPrefix(level), " ", own);
    case Item =>
      ItemInSight(f, own, alnum);
      FlushedAlready(f, alnum);
      FlushedAlready(Sight(f, own), alnum);
    case Link(_) => AppendInSight(f, "[", own);
    case TableCell => AppendInSight(f, " / ", own);
    case _ =>
  }

  lemma FlushedAlready(st: State, alnum: char -> bool)
    requires st.prefix == ""
    ensures Flush(st, false, alnum) == st
  {
  }

  lemma ItemInSight(f: State, own: set<nat>, alnum: char -> bool)
    requires Within(f, own) && f.prefix == ""
    ensures StartTag(Sight(f, own), Item, alnum) == Sight(StartTag(f, Item, alnum), own)
    ensures Within(StartTag(f, Item, alnum), own)
  {
    hide Blotted, EnsureLineBreak, Indent;
    var depth := |f.lists|;
    var broken, indent := EnsureLineBreak(f.output), Indent(if depth == 0 then 0 else depth - 1);
    BlottedBreaks(f.output, own);
    BlottedAppend(broken, indent, own);
    BlottedAppend(broken + indent, "- ", own);
    if depth > 0 && f.lists[depth - 1].Some? {
      var number := Decimal.Print(f.lists[depth - 1].value);
      BlottedAppend(broken + indent, number, own);
      BlottedAppend(broken + indent + number, ". ", own);
    }
  }

  lemma EndInSight(st: State, tag: TagEnd, own: set<nat>, alnum: char -> bool)
    requires Within(st, own)
    ensures EndTag(Sight(st, own), tag, alnum) == Sight(EndTag(st, tag, alnum), own)
    ensures Within(EndTag(st, tag, alnum), own)
  {
    hide Blotted, Flush, EnsureLineBreak, PushParagraphBreak, CloseLink, CloseImage, CloseCodeBlock;
    FlushShape(st, true, alnum);
    FlushInSight(st, own, true, alnum);
    BlottedBreaks(Flush(st, true, alnum).output, own);
    BlottedBreaks(st.output, own);
    CloseLinkInSight(st, own);
    CloseImageInSight(st, own, alnum);
    CloseCodeInSight(st, own);
  }

  /** Every step, on every event: the renderer never looks at its own markup again. */
  lemma StepInSight(st: State, e: Event, own: set<nat>, alnum: char -> bool)
    requires Within(st, own)
    ensures Step(Sight(st, own), e, alnum) == Sight(Step(st, e, alnum), own)
    ensures Within(Step(st, e, alnum), own)
  {
    hide Blotted, Flush, PushText, PushCode, PushBreak, StartTag, EndTag, PushParagraphBreak;
    match e
    case Start(tag) => StartInSight(st, tag, own, alnum);
    case End(tag) => EndInSight(st, tag, own, alnum);
    case Text(text) => TextInSight(st, text, own, alnum);
    case Math(math) => TextInSight(st, math, own, alnum);
    case Code(code) => CodeInSight(st, code, own, alnum);
    case Break => BreakInSight(st, own, alnum);
    case Rule =>
      FlushShape(st, true, alnum);
      FlushInSight(st, own, true, alnum);
      BlottedBreaks(Flush(st, true, alnum).output, own);
    case TaskListMarker(checked) =>
      FlushShape(st, false, alnum);
      FlushInSight(st, own, false, alnum);
      AppendInSight(Flush(st, false, alnum), if checked then "[x] " else "[ ] ", own);
    case Ignored =>
  }

  lemma {:induction false} RunInSight(st: State, events: seq<Event>, own: set<nat>, alnum: char -> bool)
    requires Within(st, own)
    ensures Run(Sight(st, own), events, alnum) == Sight(Run(st, events, alnum), own)
    ensures Within(Run(st, events, alnum), own)
    decreases |events|
  {
    hide Within, Step, Sight;
    if events != [] {
      StepInSight(st, events[0], own, alnum);
      RunInSight(Step(st, events[0], alnum), events[1..], own, alnum);
    }
  }

  lemma {:induction false} StripInSight(s: string, own: set<nat>)
    ensures StripLineBreaks(Blotted(s, own)) == Blotted(StripLineBreaks(s), own)
  {
    BlottedEnds(s, "\n", own);
    if EndsWith(s, "\n") {
      assert Blotted(s, own)[..|s| - 1] == Blotted(s[..|s| - 1], own);
      StripInSight(s[..|s| - 1], own);
    }
  }

  lemma FinishInSight(st: State, own: set<nat>, alnum: char -> bool)
    requires Within(st, own)
    ensures Finish(Sight(st, own), alnum) == Blotted(Finish(st, alnum), own)
  {
    hide Blotted, Flush, StripLineBreaks;
    FlushInSight(st, own, true, alnum);
    StripInSight(Flush(st, true, alnum).output, own);
  }
}
