/**
 Every link opener the renderer writes is closed by its destination or taken back, exactly by
 what its label shows, and no label can break out of its brackets.
 */
module QqLinks {
  import opened Wrappers
  import opened Characters
  import opened LinkScan
  import opened InlineEscape
  import opened CodeMarkup
  import opened QqRenderer
  import opened QqMarkers

  /** What the parser delivers between the start and the end of a link. */
  ghost predicate IsLabelEvent(e: Event) {
    match e
    case Start(tag) => tag.Image? || tag.Transparent?
    case End(tag) => tag.EndImage? || tag.EndTransparent?
    case Text(text) => NoBreak(text)
    case Math(math) => NoBreak(math)
    case Code(code) => NoBreak(code)
    case Break => true
    case Ignored => true
    case _ => false
  }

  /** Images open and close in pairs, starting with `depth` of them open. */
  ghost predicate ImagesNested(es: seq<Event>, depth: nat)
    decreases |es|
  {
    if es == [] then depth == 0
    else if es[0] == Start(Image) then ImagesNested(es[1..], depth + 1)
    else if es[0] == End(EndImage) then depth > 0 && ImagesNested(es[1..], depth - 1)
    else ImagesNested(es[1..], depth)
  }

  /** The content of a link: inline events, images nested, no link inside. */
  ghost predicate IsLabel(es: seq<Event>) {
    ImagesNested(es, 0) && forall k :: 0 <= k < |es| ==> IsLabelEvent(es[k])
  }

  /** Characters that could end a label, start another link, or escape. */
  predicate BreaksLabel(c: char) {
    c in {'[', ']', '(', ')', '<', '>', '\\', '`', '\n'}
  }

  ghost predicate CleanLabel(s: string) {
    forall k :: 0 <= k < |s| ==> !BreaksLabel(s[k])
  }

  // ----- The text of a label -----

  /** What the content of a link amounts to: the text outside images, and the texts of the open images. */
  datatype Label = Label(text: string, images: seq<string>, inCode: bool)

  /** `s` goes to the last open image, to a code block, or to the label, as `write` writes it there. */
  function Added(l: Label, s: string, write: string -> string): Label {
    if l.images != [] then l.(images := AppendLast(l.images, s))
    else if l.inCode then l
    else l.(text := l.text + write(s))
  }

  function LabelStep(l: Label, e: Event, write: string -> string): Label {
    match e
    case Text(s) => Added(l, s, write)
    case Math(s) => Added(l, s, write)
    case Code(s) => Added(l, s, write)
    case Break =>
      if l.inCode then l
      else if l.images != [] then l.(images := AppendLast(l.images, " "))
      else l.(text := l.text + " ")
    case Start(tag) => if tag.Image? then l.(images := l.images + [""]) else l
    case End(tag) =>
      if tag.EndImage? && l.images != [] then
        var last := |l.images| - 1;
        var alt, popped := Trim(l.images[last]), l.(images := l.images[..last]);
        if alt != "" then Added(popped, alt, write) else popped
      else l
    case _ => l
  }

  function LabelRun(l: Label, es: seq<Event>, write: string -> string): Label
    decreases |es|
  {
    if es == [] then l else LabelRun(LabelStep(l, es[0], write), es[1..], write)
  }

  /** Text as a label shows it: every character that could break the label replaced. */
  function LabelWriter(alnum: char -> bool): string -> string {
    s => FlushedFrom(s, 0, Safe, true, alnum)
  }

  /** The link's label in this state, and the images that are open after it. */
  function LabelOf(st: State, content: seq<Event>, alnum: char -> bool): Label {
    LabelRun(Label("", st.images, st.codeBlock.Some?), content, LabelWriter(alnum))
  }

  function DepthAfter(e: Event, depth: nat): int {
    if e == Start(Image) then depth + 1 else if e == End(EndImage) then depth - 1 else depth
  }

  /** With an image or a code block around the link, the label shows nothing. */
  lemma {:induction false} DivertedLabelIsEmpty(l: Label, es: seq<Event>, depth: nat, write: string -> string)
    requires ImagesNested(es, depth) && |l.images| >= depth && (l.inCode || |l.images| > depth)
    ensures LabelRun(l, es, write).text == l.text
    decreases |es|
  {
    hide Trim;
    if es != [] {
      DivertedLabelIsEmpty(LabelStep(l, es[0], write), es[1..], DepthAfter(es[0], depth), write);
    }
  }

  /** The event shows something: it writes outside images, or closes the outermost image on text that is not blank. */
  predicate Shows(l: Label, e: Event) {
    if l.images == [] then
      e.Break? || (e.Text? && e.text != "") || (e.Math? && e.math != "") || (e.Code? && e.code != "")
    else |l.images| == 1 && e == End(EndImage) && Trim(l.images[0]) != ""
  }

  /** Some event of the content shows something. */
  ghost predicate ShowsText(l: Label, es: seq<Event>)
    decreases |es|
  {
    es != [] && (Shows(l, es[0]) || ShowsText(LabelStep(l, es[0], Raw), es[1..]))
  }

  /** Text as it is. */
  function Raw(s: string): string { s }

  /** Outside images and code blocks, a label is empty exactly when no event of the link shows anything. */
  lemma {:induction false} LabelIsEmptyIff(l: Label, plain: Label, es: seq<Event>, alnum: char -> bool)
    requires l.images == plain.images && !l.inCode && !plain.inCode
    ensures LabelRun(l, es, LabelWriter(alnum)).text != "" <==> l.text != "" || ShowsText(plain, es)
    decreases |es|
  {
    hide Trim, FlushedFrom;
    if es != [] {
      LabelStepShows(l, plain, es[0], alnum);
      LabelIsEmptyIff(LabelStep(l, es[0], LabelWriter(alnum)), LabelStep(plain, es[0], Raw), es[1..], alnum);
    }
  }

  lemma LabelStepShows(l: Label, plain: Label, e: Event, alnum: char -> bool)
    requires l.images == plain.images && !l.inCode && !plain.inCode
    ensures var next, plainNext := LabelStep(l, e, LabelWriter(alnum)), LabelStep(plain, e, Raw);
      && next.images == plainNext.images && !next.inCode && !plainNext.inCode
      && (next.text != "" <==> l.text != "" || Shows(plain, e))
  {
    hide Trim, FlushedFrom;
    match e
    case Text(s) => FlushedSize(s, alnum);
    case Math(s) => FlushedSize(s, alnum);
    case Code(s) => FlushedSize(s, alnum);
    case End(tag) =>
      if l.images != [] {
        FlushedSize(Trim(l.images[|l.images| - 1]), alnum);
      }
    case _ =>
  }

  lemma FlushedSize(s: string, alnum: char -> bool)
    ensures |LabelWriter(alnum)(s)| == |s|
  {
    FlushedLength(s, 0, Safe, true, alnum);
  }

  // ----- Inside a link -----

  /** The state inside a link opened in `base` (after its bracket was written): `l` has been collected since. */
  ghost predicate InsideLink(base: State, st: State, l: Label, depth: nat) {
    && st == base.(output := base.output + l.text, images := l.images, codeBlock := st.codeBlock)
    && CleanLabel(l.text) && st.codeBlock.Some? == base.codeBlock.Some? == l.inCode
    && |l.images| == |base.images| + depth
    && forall k :: |base.images| <= k < |l.images| ==> NoBreak(l.images[k])
  }

  ghost predicate OpenedLink(base: State) {
    InLabel(base) && base.prefix == "" && base.output != "" && base.output[|base.output| - 1] == '['
  }

  lemma LabelCharIsClean(c: char, previous: Option<char>, next: Option<char>, alnum: char -> bool)
    requires c != '\n'
    ensures !BreaksLabel(SafeLiteralChar(c, previous, next, true, alnum))
  {
  }

  lemma WrittenLabelIsClean(s: string, alnum: char -> bool)
    requires NoBreak(s)
    ensures CleanLabel(LabelWriter(alnum)(s))
  {
    hide SafeLiteralChar;
    FlushedLength(s, 0, Safe, true, alnum);
    forall k | 0 <= k < |s|
      ensures !BreaksLabel(FlushedFrom(s, 0, Safe, true, alnum)[k])
    {
      FlushedAt(s, 0, Safe, true, alnum, k);
      LabelCharIsClean(s[k], At(s, k - 1), At(s, k + 1), alnum);
    }
  }

  lemma PushTextInLabel(base: State, st: State, l: Label, depth: nat, s: string, alnum: char -> bool)
    requires OpenedLink(base) && InsideLink(base, st, l, depth) && NoBreak(s)
    ensures InsideLink(base, PushText(st, s, alnum), Added(l, s, LabelWriter(alnum)), depth)
  {
    hide FlushedFrom, SafeLiteralChar, PushChars;
    if st.images == [] && st.codeBlock.None? {
      var out := st.output;
      assert out[|out| - 1] != '\n' by {
        if l.text != "" {
          assert out[|out| - 1] == l.text[|l.text| - 1];
        } else {
          assert out == base.output;
        }
      }
      OpenLineText(st, s, 0, |s|, alnum);
      WrittenLabelIsClean(s, alnum);
      var written := FlushedFrom(s, 0, Safe, true, alnum);
      assert written[..|s|] == written;
      NothingMorePushed(st.(output := out + written), s, alnum);
      assert out + written == base.output + (l.text + written);
    }
  }

  lemma NothingMorePushed(st: State, s: string, alnum: char -> bool)
    ensures PushChars(st, s, |s|, alnum) == st
  {
  }

  lemma PushOne(st: State, s: string, alnum: char -> bool)
    requires |s| == 1
    ensures PushChars(st, s, 0, alnum) == PushChar(st, s, 0, alnum)
  {
    hide PushChar;
    NothingMorePushed(PushChar(st, s, 0, alnum), s, alnum);
  }

  lemma TrimHasNoBreak(s: string)
    requires NoBreak(s)
    ensures NoBreak(Trim(s))
  {
    TrimStartShape(s);
    TrimEndShape(TrimStart(s));
    assert forall k :: 0 <= k < |Trim(s)| ==> Trim(s)[k] == TrimStart(s)[k];
  }

  lemma StepInLabel(base: State, st: State, l: Label, depth: nat, e: Event, alnum: char -> bool)
    requires OpenedLink(base) && InsideLink(base, st, l, depth) && IsLabelEvent(e) && DepthAfter(e, depth) >= 0
    ensures InsideLink(base, Step(st, e, alnum), LabelStep(l, e, LabelWriter(alnum)), DepthAfter(e, depth))
  {
    hide PushText, Trim, LabelWriter, Added;
    match e
    case Text(s) => PushTextInLabel(base, st, l, depth, s, alnum);
    case Math(s) => PushTextInLabel(base, st, l, depth, s, alnum);
    case Code(s) =>
      assert Flush(st, false, alnum) == st;
      PushTextInLabel(base, st, l, depth, s, alnum);
    case Break => assert st.output + " " == base.output + (l.text + " ");
    case Start(tag) =>
    case End(tag) =>
      if tag.EndImage? {
        var last := |l.images| - 1;
        var alt, popped := Trim(l.images[last]), st.(images := l.images[..last]);
        TrimHasNoBreak(l.images[last]);
        if alt != "" {
          PushTextInLabel(base, popped, l.(images := l.images[..last]), depth - 1, alt, alnum);
        }
      }
    case Ignored =>
  }

  lemma {:induction false} RunInLabel(base: State, st: State, l: Label, depth: nat, es: seq<Event>, alnum: char -> bool)
    requires OpenedLink(base) && InsideLink(base, st, l, depth) && ImagesNested(es, depth)
    requires forall k :: 0 <= k < |es| ==> IsLabelEvent(es[k])
    ensures InsideLink(base, Run(st, es, alnum), LabelRun(l, es, LabelWriter(alnum)), 0)
    decreases |es|
  {
    hide InsideLink, OpenedLink, Step, LabelStep, IsLabelEvent, LabelWriter;
    if es != [] {
      StepInLabel(base, st, l, depth, es[0], alnum);
      RunInLabel(base, Step(st, es[0], alnum), LabelStep(l, es[0], LabelWriter(alnum)), DepthAfter(es[0], depth),
                 es[1..], alnum);
    }
  }

  lemma {:induction false} RunAppend(st: State, a: seq<Event>, b: seq<Event>, alnum: char -> bool)
    ensures Run(st, a + b, alnum) == Run(Run(st, a, alnum), b, alnum)
    decreases |a|
  {
    hide Step;
    if a == [] {
      assert a + b == b;
    } else {
      assert (a + b)[1..] == a[1..] + b;
      RunAppend(Step(st, a[0], alnum), a[1..], b, alnum);
    }
  }

  function LinkText(shown: string, destination: string): string {
    "[" + shown + "](<" + destination + ">)"
  }

  function LinkEvents(url: string, content: seq<Event>): seq<Event> {
    [Start(Link(url))] + content + [End(EndLink)]
  }

  /**
   What a whole link leaves behind: the pending line start, then the complete link with its label,
   or nothing at all when the label is empty; the images' texts have grown by what they collected,
   and everything else is as it was.
   */
  ghost predicate LinkWritten(st: State, after: State, destination: string, l: Label, alnum: char -> bool) {
    && after.output == Flush(st, false, alnum).output + (if l.text == "" then "" else LinkText(l.text, destination))
    && after == st.(output := after.output, prefix := "", images := l.images, codeBlock := after.codeBlock)
    && after.codeBlock.Some? == st.codeBlock.Some?
    && CleanLabel(l.text) && (st.images != [] || st.codeBlock.Some? ==> l.text == "")
    && |l.images| == |st.images|
  }

  lemma CloseOpenedLink(st: State, base: State, inside: State, destination: string, l: Label, alnum: char -> bool)
    requires var f := Flush(st, false, alnum);
      base == f.(output := f.output + "[", links := f.links + [LinkFrame(Some(destination), |f.output|)])
    requires InsideLink(base, inside, l, 0)
    requires st.images != [] || st.codeBlock.Some? ==> l.text == ""
    ensures LinkWritten(st, CloseLink(inside), destination, l, alnum)
  {
    hide FlushedFrom, Classify;
    var f := Flush(st, false, alnum);
    assert base.links[..|base.links| - 1] == f.links;
    if l.text == "" {
      assert base.output + "" == base.output;
      assert base.output[..|f.output|] == f.output;
      assert f.output + "" == f.output;
    } else {
      assert base.output + l.text + "](<" + destination + ">)" == f.output + LinkText(l.text, destination);
    }
  }

  /** From any state, a link opener is closed by its destination, or taken back if its label is empty. */
  lemma LinkIsClosedOrTakenBack(st: State, url: string, content: seq<Event>, alnum: char -> bool)
    requires SanitizeLinkDestination(url).Some? && IsLabel(content)
    ensures LinkWritten(st, Run(st, LinkEvents(url, content), alnum), SanitizeLinkDestination(url).value,
                        LabelOf(st, content, alnum), alnum)
    ensures st.images == [] && st.codeBlock.None? ==>
              (LabelOf(st, content, alnum).text != "" <==> ShowsText(Label("", [], false), content))
  {
    hide SanitizeLinkDestination, IsLabelEvent, ImagesNested, ShowsText, Flush, LabelRun, LabelWriter;
    var d := SanitizeLinkDestination(url).value;
    var base := Step(st, Start(Link(url)), alnum);
    FlushShape(st, false, alnum);
    var l := Label("", st.images, st.codeBlock.Some?);
    assert base.output + "" == base.output;
    RunInLabel(base, base, l, 0, content, alnum);
    if st.images != [] || st.codeBlock.Some? {
      DivertedLabelIsEmpty(l, content, 0, LabelWriter(alnum));
    } else {
      LabelIsEmptyIff(l, l, content, alnum);
    }
    CloseOpenedLink(st, base, Run(base, content, alnum), d, LabelOf(st, content, alnum), alnum);
    RunOfLink(st, url, content, alnum);
  }

  lemma RunOfLink(st: State, url: string, content: seq<Event>, alnum: char -> bool)
    ensures Run(st, LinkEvents(url, content), alnum)
         == CloseLink(Run(Step(st, Start(Link(url)), alnum), content, alnum))
  {
    hide StartTag, CloseLink, PushText, PushCode, PushBreak, Flush;
    var opening, closing := [Start(Link(url))], [End(EndLink)];
    RunAppend(st, opening + content, closing, alnum);
    RunAppend(st, opening, content, alnum);
    RunOfOne(st, opening[0], alnum);
    RunOfOne(Run(Step(st, opening[0], alnum), content, alnum), closing[0], alnum);
  }

  lemma RunOfOne(st: State, e: Event, alnum: char -> bool)
    ensures Run(st, [e], alnum) == Step(st, e, alnum)
  {
    hide Step;
    assert [e][1..] == [];
  }

  // ----- Whole runs -----

  /** A well-nested run: single events other than link tags, and whole links. */
  datatype Piece = Plain(event: Event) | WholeLink(url: string, content: seq<Event>)

  ghost predicate ValidPiece(p: Piece) {
    match p
    case Plain(e) => e != End(EndLink) && !(e.Start? && e.tag.Link?)
    case WholeLink(_, content) => IsLabel(content)
  }

  function PieceEvents(p: Piece): seq<Event> {
    match p
    case Plain(e) => [e]
    case WholeLink(url, content) => LinkEvents(url, content)
  }

  function Events(ps: seq<Piece>): seq<Event> {
    if ps == [] then [] else Events(ps[..|ps| - 1]) + PieceEvents(ps[|ps| - 1])
  }

  /** The state after the first `k` pieces of a run. */
  function After(ps: seq<Piece>, k: nat, alnum: char -> bool): State
    requires k <= |ps|
  {
    Run(INITIAL, Events(ps[..k]), alnum)
  }

  lemma AfterNext(ps: seq<Piece>, k: nat, alnum: char -> bool)
    requires k < |ps|
    ensures After(ps, k + 1, alnum) == Run(After(ps, k, alnum), PieceEvents(ps[k]), alnum)
  {
    hide Run, PieceEvents;
    assert ps[..k + 1][..k] == ps[..k];
    RunAppend(INITIAL, Events(ps[..k]), PieceEvents(ps[k]), alnum);
  }

  /**
   In every well-nested run, every opener of an accepted link is closed by its destination when the
   label its content renders to is not empty, and is taken back when it is.
   */
  lemma EveryLinkIsClosedOrTakenBack(ps: seq<Piece>, k: nat, alnum: char -> bool)
    requires k < |ps| && ValidPiece(ps[k])
    requires ps[k].WholeLink? && SanitizeLinkDestination(ps[k].url).Some?
    ensures var st, after, d := After(ps, k, alnum), After(ps, k + 1, alnum), SanitizeLinkDestination(ps[k].url).value;
      && LinkWritten(st, after, d, LabelOf(st, ps[k].content, alnum), alnum)
      && (st.images == [] && st.codeBlock.None? ==>
            (LabelOf(st, ps[k].content, alnum).text != "" <==> ShowsText(Label("", [], false), ps[k].content)))
  {
    hide After, LinkWritten, LabelOf, ShowsText, IsLabel;
    AfterNext(ps, k, alnum);
    LinkIsClosedOrTakenBack(After(ps, k, alnum), ps[k].url, ps[k].content, alnum);
  }

  lemma TextKeepsShape(st: State, s: string, alnum: char -> bool)
    ensures |PushText(st, s, alnum).images| == |st.images| && PushText(st, s, alnum).links == st.links
    ensures |PushCode(st, s, alnum).images| == |st.images| && PushCode(st, s, alnum).links == st.links
    ensures |PushBreak(st, alnum).images| == |st.images| && PushBreak(st, alnum).links == st.links
  {
    hide PushChars, FlushedFrom, Classify;
    PushCharsKeepsRoute(st, s, 0, alnum);
    PushCharsKeepsRoute(Flush(st, false, alnum), s, 0, alnum);
  }

  lemma CloseImageKeepsShape(st: State, alnum: char -> bool)
    ensures CloseImage(st, alnum).links == st.links
    ensures |CloseImage(st, alnum).images| == if st.images == [] then 0 else |st.images| - 1
  {
    hide PushText, Trim;
    if st.images != [] {
      var last := |st.images| - 1;
      TextKeepsShape(st.(images := st.images[..last]), Trim(st.images[last]), alnum);
    }
  }

  lemma StartKeepsLinks(st: State, tag: Tag, alnum: char -> bool)
    requires !tag.Link?
    ensures StartTag(st, tag, alnum).links == st.links
    ensures |StartTag(st, tag, alnum).images| == |st.images| + if tag.Image? then 1 else 0
  {
    hide Flush, EnsureParagraphBreak, EnsureLineBreak, EndsWith, Indent, HeadingPrefix, FilterLanguage;
    FlushShape(st, false, alnum);
  }

  lemma EndKeepsLinks(st: State, tag: TagEnd, alnum: char -> bool)
    requires !tag.EndLink?
    ensures EndTag(st, tag, alnum).links == st.links
    ensures |EndTag(st, tag, alnum).images| == if tag.EndImage? && st.images != [] then |st.images| - 1 else |st.images|
  {
    hide Flush, PushParagraphBreak, EnsureParagraphBreak, EnsureLineBreak, CloseImage, FencedBlock;
    FlushShape(st, true, alnum);
    CloseImageKeepsShape(st, alnum);
  }

  /** Events other than link tags leave the stack of open links alone. */
  lemma PlainKeepsLinks(st: State, e: Event, alnum: char -> bool)
    requires e != End(EndLink) && !(e.Start? && e.tag.Link?)
    ensures Step(st, e, alnum).links == st.links
    ensures |Step(st, e, alnum).images|
         == if e == Start(Image) then |st.images| + 1
            else if e == End(EndImage) && st.images != [] then |st.images| - 1 else |st.images|
  {
    hide PushText, PushCode, PushBreak, StartTag, EndTag, Flush, PushParagraphBreak;
    FlushShape(st, true, alnum);
    FlushShape(st, false, alnum);
    match e
    case Text(text) => TextKeepsShape(st, text, alnum);
    case Math(math) => TextKeepsShape(st, math, alnum);
    case Code(code) => TextKeepsShape(st, code, alnum);
    case Break => TextKeepsShape(st, "", alnum);
    case Start(tag) => StartKeepsLinks(st, tag, alnum);
    case End(tag) => EndKeepsLinks(st, tag, alnum);
    case _ =>
  }

  lemma {:induction false} PlainRunKeepsLinks(st: State, es: seq<Event>, alnum: char -> bool)
    requires forall k :: 0 <= k < |es| ==> IsLabelEvent(es[k])
    ensures Run(st, es, alnum).links == st.links
    decreases |es|
  {
    hide Step;
    if es != [] {
      PlainKeepsLinks(st, es[0], alnum);
      PlainRunKeepsLinks(Step(st, es[0], alnum), es[1..], alnum);
    }
  }

  lemma PieceKeepsLinks(st: State, p: Piece, alnum: char -> bool)
    requires ValidPiece(p)
    ensures Run(st, PieceEvents(p), alnum).links == st.links
  {
    hide Run, Flush, SanitizeLinkDestination, ImagesNested, IsLabelEvent;
    match p
    case Plain(e) =>
      RunOfOne(st, e, alnum);
      PlainKeepsLinks(st, e, alnum);
    case WholeLink(url, content) =>
      RunOfLink(st, url, content, alnum);
      FlushShape(st, false, alnum);
      PlainRunKeepsLinks(Step(st, Start(Link(url)), alnum), content, alnum);
  }

  /** At the end of every well-nested run no link is open. */
  lemma {:induction false} NoLinkStaysOpen(ps: seq<Piece>, k: nat, alnum: char -> bool)
    requires k <= |ps| && forall j :: 0 <= j < k ==> ValidPiece(ps[j])
    ensures After(ps, k, alnum).links == []
  {
    hide PieceEvents, ValidPiece, After;
    if k == 0 {
      AfterNothing(ps, alnum);
    } else {
      NoLinkStaysOpen(ps, k - 1, alnum);
      AfterNext(ps, k - 1, alnum);
      PieceKeepsLinks(After(ps, k - 1, alnum), ps[k - 1], alnum);
    }
  }

  lemma AfterNothing(ps: seq<Piece>, alnum: char -> bool)
    ensures After(ps, 0, alnum) == INITIAL
  {
  }

  // ----- The link scanner reads what the renderer writes -----

  lemma {:induction false} GroupEndSkipsClean(s: string, i: nat, e: nat, depth: nat)
    requires i <= e <= |s| && forall k :: i <= k < e ==> !BreaksLabel(s[k])
    ensures GroupEnd(s, i, depth, '[', ']') == GroupEnd(s, e, depth, '[', ']')
    decreases e - i
  {
    if i < e {
      GroupEndSkipsClean(s, i + 1, e, depth);
    }
  }

  /** A written link is one link for the scanner exactly when its destination is balanced. */
  lemma WrittenLinkIsOneSpanIff(shown: string, d: string)
    requires CleanLabel(shown)
    ensures var s := LinkText(shown, d); Spans(s, 0) == [Span(0, |s|)] <==> BalancedParentheses(d)
  {
    hide BalancedParentheses, Spans;
    var s := LinkText(shown, d);
    var n := |shown|;
    LinkLayout(s, shown, d);
    assert forall k :: 1 <= k < 1 + n ==> s[k] == shown[k - 1];
    GroupEndSkipsClean(s, 1, 1 + n, 1);
    assert s[1 + n] == ']' && s[n] != '\\';
    assert GroupEnd(s, 1 + n, 1, '[', ']') == Some(1 + n);
    assert GroupEnd(s, 0, 0, '[', ']') == Some(1 + n);
    TargetGroup(s, 2 + n, d);
    OneSpanIff(s);
  }
}
