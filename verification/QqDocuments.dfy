/** The whole output for documents of plain blocks: paragraphs, headings, code blocks and lists. */
module QqDocuments {
  import opened Wrappers
  import opened CodeMarkup
  import opened QqRenderer
  import opened QqMarkers
  import opened QqContinuations
  import opened QqLinks
  import opened QqText
  import opened QqLists
  import opened QqLines
  import Decimal

  // ----- Documents -----

  datatype Block =
    | Prose(lines: seq<string>)
    | Title(level: nat, line: string)
    | Program(info: Option<string>, texts: seq<string>)
    | Listing(first: Option<nat>, loose: bool, items: seq<string>)

  predicate OneLine(s: string) {
    forall k :: 0 <= k < |s| ==> s[k] != '\n'
  }

  /** Lines are non-empty where a paragraph has them, and hold no line feed; a list has items. */
  predicate Plain(b: Block) {
    match b
    case Prose(lines) => lines != [] && forall k :: 0 <= k < |lines| ==> lines[k] != "" && OneLine(lines[k])
    case Title(_, line) => OneLine(line)
    case Program(_, _) => true
    case Listing(_, _, items) => items != [] && forall k :: 0 <= k < |items| ==> OneLine(items[k])
  }

  // ----- Their events -----

  function LineEvents(lines: seq<string>): seq<Event> {
    if |lines| == 0 then []
    else if |lines| == 1 then [Text(lines[0])]
    else LineEvents(lines[..|lines| - 1]) + [Break, Text(lines[|lines| - 1])]
  }

  /** The text of an item, which a loose list wraps into a paragraph. */
  function ItemEvents(loose: bool, item: string): seq<Event> {
    if loose then [Start(Paragraph), Text(item), End(EndParagraph)] else [Text(item)]
  }

  function Contents(loose: bool, items: seq<string>): seq<seq<Event>> {
    seq(|items|, k requires 0 <= k < |items| => ItemEvents(loose, items[k]))
  }

  function Events(b: Block): seq<Event> {
    match b
    case Prose(lines) => [Start(Paragraph)] + LineEvents(lines) + [End(EndParagraph)]
    case Title(level, line) => [Start(Heading(level)), Text(line), End(EndHeading)]
    case Program(info, texts) => [Start(CodeBlock(info))] + Texts(texts) + [End(EndCodeBlock)]
    case Listing(first, loose, items) => [Start(List(first))] + Items(Contents(loose, items)) + [End(EndList)]
  }

  function AllEvents(bs: seq<Block>): seq<Event> {
    if bs == [] then [] else AllEvents(bs[..|bs| - 1]) + Events(bs[|bs| - 1])
  }

  // ----- Their text -----

  ghost function LinesText(lines: seq<string>, alnum: char -> bool): string {
    if |lines| == 0 then ""
    else if |lines| == 1 then OnNewLine(lines[0], false, alnum)
    else LinesText(lines[..|lines| - 1], alnum) + "\n" + OnNewLine(lines[|lines| - 1], false, alnum)
  }

  function Hashes(level: nat): string {
    if level == 1 then "# " else if level == 2 then "## " else "### "
  }

  function Marker(first: Option<nat>, k: nat): string {
    match first
    case Some(n) => Decimal.Print(n + k) + ". "
    case None => "- "
  }

  function ItemText(first: Option<nat>, k: nat, item: string, alnum: char -> bool): string {
    Marker(first, k) + OnOpenLine(item, false, alnum)
  }

  function ItemsText(first: Option<nat>, items: seq<string>, alnum: char -> bool): string {
    if items == [] then ""
    else ItemsText(first, items[..|items| - 1], alnum) + ItemText(first, |items| - 1, items[|items| - 1], alnum) + "\n"
  }

  /** One block, with the line feeds behind it. */
  ghost function BlockText(b: Block, alnum: char -> bool): string {
    match b
    case Prose(lines) => LinesText(lines, alnum) + "\n\n"
    case Title(level, line) =>
      Hashes(level) + OnOpenLine(line, false, alnum) + "\n\n"
    case Program(info, texts) =>
      FencedBlock(FilterLanguage(if info.Some? then info.value else ""), Joined(texts)) + "\n\n"
    case Listing(first, _, items) => ItemsText(first, items, alnum) + "\n"
  }

  ghost function AllText(bs: seq<Block>, alnum: char -> bool): string {
    if bs == [] then "" else AllText(bs[..|bs| - 1], alnum) + BlockText(bs[|bs| - 1], alnum)
  }

  // ----- Between blocks -----

  /** No block is open and the next one begins a line of its own. */
  ghost predicate Between(st: State) {
    && st == INITIAL.(output := st.output)
    && (st.output == "" || (|st.output| >= 2 && st.output[|st.output| - 2] == '\n' && st.output[|st.output| - 1] == '\n'))
  }

  lemma NoBreakNeeded(st: State)
    requires Between(st)
    ensures EnsureParagraphBreak(st.output) == st.output && AtLineStart(st) && WritesText(st)
  {
    if st.output != "" {
      assert st.output[|st.output| - 2..] == "\n\n";
    }
  }

  /** Behind text, a paragraph break is two line feeds; behind one line feed, it is one more. */
  lemma BreakBehind(s: string)
    ensures s != "" && s[|s| - 1] != '\n' ==> PushParagraphBreak(s) == s + "\n\n" && EnsureLineBreak(s) == s + "\n"
    ensures |s| >= 2 && s[|s| - 1] == '\n' && s[|s| - 2] != '\n' ==>
              PushParagraphBreak(s) == s + "\n" && EnsureLineBreak(s) == s
  {
    EndsWithBreak(s);
    EndsWithTwoBreaks(s);
    if EndsWith(s, "\n\n") {
      assert s[|s| - 2..][0] == s[|s| - 2];
    }
    assert s + "\n" + "\n" == s + "\n\n";
  }

  // ----- Paragraphs -----

  lemma LinesTextShape(lines: seq<string>, alnum: char -> bool)
    requires Plain(Prose(lines))
    ensures var t := LinesText(lines, alnum); t != "" && t[|t| - 1] != '\n'
  {
    var last := lines[|lines| - 1];
    hide OnNewLine;
    NewLineHasNoBreak(last, false, alnum);
  }

  /** The state before the last line's flush does not matter: what counts is the flushed text. */
  lemma {:induction false} LinesAreWritten(st: State, lines: seq<string>, alnum: char -> bool)
    requires Between(st) && Plain(Prose(lines))
    ensures Flush(Run(st, LineEvents(lines), alnum), true, alnum) == st.(output := st.output + LinesText(lines, alnum))
    ensures var r := Run(st, LineEvents(lines), alnum);
      r.links == [] && r.images == [] && r.codeBlock.None?
    decreases |lines|
  {
    hide Run, Step, Flush, OnNewLine, Between;
    NoBreakNeeded(st);
    var last := lines[|lines| - 1];
    if |lines| == 1 {
      BetweenIsInitial(st);
      LineIsWritten(st, last, alnum);
      RunOfOne(st, Text(last), alnum);
      TextKeepsRoute(st, last, alnum);
    } else {
      var rest := lines[..|lines| - 1];
      LinesAreWritten(st, rest, alnum);
      var before := Run(st, LineEvents(rest), alnum);
      RunAppend(st, LineEvents(rest), [Break, Text(last)], alnum);
      LastLineIsWritten(st, before, rest, last, alnum);
    }
  }

  lemma BetweenIsInitial(st: State)
    requires Between(st)
    ensures st.links == [] && st.images == [] && st.codeBlock.None? && st.lists == [] && st.inItem == 0 && st.prefix == ""
    ensures !InLabel(st)
  {
  }

  lemma TextKeepsRoute(st: State, s: string, alnum: char -> bool)
    requires WritesText(st)
    ensures var r := Step(st, Text(s), alnum); r == st.(output := r.output, prefix := r.prefix)
  {
    PushCharsKeepsRoute(st, s, 0, alnum);
  }

  lemma LineEnds(before: State, flushed: State, alnum: char -> bool)
    requires Flush(before, true, alnum) == flushed && flushed.output != "" && flushed.output[|flushed.output| - 1] != '\n'
    requires before.links == [] && before.images == [] && before.codeBlock.None?
    ensures Step(before, Break, alnum) == flushed.(output := flushed.output + "\n")
  {
    hide Flush, EnsureLineBreak;
    BreakBehind(flushed.output);
  }

  lemma LastLineIsWritten(st: State, before: State, rest: seq<string>, last: string, alnum: char -> bool)
    requires Between(st) && Plain(Prose(rest)) && OneLine(last)
    requires Flush(before, true, alnum) == st.(output := st.output + LinesText(rest, alnum))
    requires before.links == [] && before.images == [] && before.codeBlock.None?
    ensures var r := Run(before, [Break, Text(last)], alnum);
      && Flush(r, true, alnum) == st.(output := st.output + LinesText(rest, alnum) + "\n" + OnNewLine(last, false, alnum))
      && r.links == [] && r.images == [] && r.codeBlock.None?
  {
    hide Run, Step, Flush, OnNewLine, LinesText, Between;
    var t := st.output + LinesText(rest, alnum);
    LinesTextShape(rest, alnum);
    BetweenIsInitial(st);
    LineEnds(before, st.(output := t), alnum);
    var broken := st.(output := t + "\n");
    RunOfTwo(before, Break, Text(last), alnum);
    LineIsWritten(broken, last, alnum);
    TextKeepsRoute(broken, last, alnum);
  }

  /** The text of a block ends in two line feeds, and not in three. */
  ghost predicate Closed(t: string) {
    |t| > 2 && t[|t| - 1] == '\n' && t[|t| - 2] == '\n' && t[|t| - 3] != '\n'
  }

  ghost predicate BlockIsWritten(st: State, b: Block, alnum: char -> bool) {
    Run(st, Events(b), alnum) == st.(output := st.output + BlockText(b, alnum)) && Closed(BlockText(b, alnum))
  }

  lemma ProseOpens(st: State, alnum: char -> bool)
    requires Between(st)
    ensures Step(st, Start(Paragraph), alnum) == st
  {
    hide EnsureParagraphBreak, Flush;
    NoBreakNeeded(st);
  }

  lemma ProseCloses(st: State, alnum: char -> bool)
    requires var f := Flush(st, true, alnum); f.output != "" && f.output[|f.output| - 1] != '\n' && f.inItem == 0
    ensures var f := Flush(st, true, alnum); Step(st, End(EndParagraph), alnum) == f.(output := f.output + "\n\n")
  {
    hide Flush, PushParagraphBreak;
    BreakBehind(Flush(st, true, alnum).output);
  }

  lemma ProseIsWritten(st: State, lines: seq<string>, alnum: char -> bool)
    requires Between(st) && Plain(Prose(lines))
    ensures BlockIsWritten(st, Prose(lines), alnum)
  {
    hide Run, Step, Flush, LinesText, Between, LineEvents, Plain;
    BetweenIsInitial(st);
    var opening, body, closing := [Start(Paragraph)], LineEvents(lines), [End(EndParagraph)];
    RunAppend(st, opening + body, closing, alnum);
    RunAppend(st, opening, body, alnum);
    RunOfOne(st, Start(Paragraph), alnum);
    ProseOpens(st, alnum);
    LinesAreWritten(st, lines, alnum);
    LinesTextShape(lines, alnum);
    var r := Run(st, body, alnum);
    RunOfOne(r, End(EndParagraph), alnum);
    ProseCloses(r, alnum);
    assert st.output + LinesText(lines, alnum) + "\n\n" == st.output + BlockText(Prose(lines), alnum);
  }

  // ----- Headings and code -----

  /** Behind something that does not end in a line feed, a text is written on the open line. */
  lemma TextBehind(st: State, start: string, s: string, alnum: char -> bool)
    requires WritesText(st) && st.prefix == "" && start != "" && start[|start| - 1] != '\n' && OneLine(s) && !InLabel(st)
    ensures var out := st.output + start + OnOpenLine(s, false, alnum);
      && Step(st.(output := st.output + start), Text(s), alnum) == st.(output := out)
      && out[|out| - 1] != '\n'
  {
    hide PushText, OnOpenLine;
    NewLineHasNoBreak(s, false, alnum);
    OpenLineIsWritten(st.(output := st.output + start), s, alnum);
  }

  lemma FlushNothing(st: State, atLineEnd: bool, alnum: char -> bool)
    requires st.prefix == ""
    ensures Flush(st, atLineEnd, alnum) == st
  {
  }

  lemma TitleOpens(st: State, level: nat, alnum: char -> bool)
    requires Between(st)
    ensures Step(st, Start(Heading(level)), alnum) == st.(output := st.output + Hashes(level))
  {
    hide Flush, Between, EnsureParagraphBreak;
    NoBreakNeeded(st);
    BetweenIsInitial(st);
    FlushNothing(st, false, alnum);
    assert st.output + HeadingPrefix(level) + " " == st.output + Hashes(level);
  }

  lemma TitleCloses(st: State, alnum: char -> bool)
    requires st.prefix == "" && st.output != "" && st.output[|st.output| - 1] != '\n'
    ensures Step(st, End(EndHeading), alnum) == st.(output := st.output + "\n\n")
  {
    hide Flush, PushParagraphBreak;
    FlushNothing(st, true, alnum);
    BreakBehind(st.output);
  }

  lemma TitleIsWritten(st: State, level: nat, line: string, alnum: char -> bool)
    requires Between(st) && Plain(Title(level, line))
    ensures BlockIsWritten(st, Title(level, line), alnum)
  {
    hide Run, Step, OnOpenLine, Between, Closed;
    NoBreakNeeded(st);
    BetweenIsInitial(st);
    TitleOpens(st, level, alnum);
    TextBehind(st, Hashes(level), line, alnum);
    var written := st.output + Hashes(level) + OnOpenLine(line, false, alnum);
    TitleCloses(st.(output := written), alnum);
    RunOfThree(st, Start(Heading(level)), Text(line), End(EndHeading), alnum);
    assert written + "\n\n" == st.output + BlockText(Title(level, line), alnum);
    TitleShape(Hashes(level), line, alnum);
  }

  lemma TitleShape(start: string, line: string, alnum: char -> bool)
    requires start != "" && start[|start| - 1] != '\n' && OneLine(line)
    ensures Closed(start + OnOpenLine(line, false, alnum) + "\n\n")
  {
    hide OnOpenLine;
    NewLineHasNoBreak(line, false, alnum);
  }

  lemma RunOfThree(st: State, e: Event, f: Event, g: Event, alnum: char -> bool)
    ensures Run(st, [e, f, g], alnum) == Step(Step(Step(st, e, alnum), f, alnum), g, alnum)
  {
    hide Run, Step;
    assert [e, f, g] == [e, f] + [g];
    RunAppend(st, [e, f], [g], alnum);
    RunOfTwo(st, e, f, alnum);
    RunOfOne(Step(Step(st, e, alnum), f, alnum), g, alnum);
  }

  lemma ProgramIsWritten(st: State, info: Option<string>, texts: seq<string>, alnum: char -> bool)
    requires Between(st)
    ensures BlockIsWritten(st, Program(info, texts), alnum)
  {
    hide Run, Flush, Between, EnsureParagraphBreak, FencedBlock, FilterLanguage, ReadFencedBlock;
    NoBreakNeeded(st);
    BetweenIsInitial(st);
    FlushNothing(st, false, alnum);
    CodeBlockIsRead(st, info, texts, alnum);
    var language := FilterLanguage(if info.Some? then info.value else "");
    BlockEndsInTick("", language, Joined(texts));
    FencedShape(language, Joined(texts));
    assert st.output + FencedBlock(language, Joined(texts)) + "\n\n"
        == st.output + BlockText(Program(info, texts), alnum);
    CodeKeepsRoute(st, info, texts, alnum);
  }

  lemma FencedShape(language: string, content: string)
    ensures Closed(FencedBlock(language, content) + "\n\n")
  {
    hide Ticks, LongestBacktickRun, Terminated;
    FenceLengthIsAtLeastThree(content);
    var block := FencedBlock(language, content);
    assert block[|block| - 1] == '`';
  }

  /** A code block leaves everything but the output as it was. */
  lemma CodeKeepsRoute(st: State, info: Option<string>, texts: seq<string>, alnum: char -> bool)
    requires Between(st)
    ensures var r := Run(st, [Start(CodeBlock(info))] + Texts(texts) + [End(EndCodeBlock)], alnum);
      r == st.(output := r.output)
  {
    hide Run, Flush, Between, EnsureParagraphBreak, PushParagraphBreak, FencedBlock, FilterLanguage;
    BetweenIsInitial(st);
    FlushNothing(st, false, alnum);
    var opening, closing := [Start(CodeBlock(info))], [End(EndCodeBlock)];
    RunAppend(st, opening + Texts(texts), closing, alnum);
    RunAppend(st, opening, Texts(texts), alnum);
    RunOfOne(st, opening[0], alnum);
    var inside := Step(st, opening[0], alnum);
    CodeIsCollected(inside, texts, alnum);
    RunOfOne(Run(inside, Texts(texts), alnum), closing[0], alnum);
  }

  // ----- Lists -----

  lemma ItemTextIsWritten(st: State, loose: bool, s: string, alnum: char -> bool)
    requires WritesText(st) && st.links == [] && st.prefix == "" && OneLine(s) && st.inItem > 0
    requires st.output != "" && st.output[|st.output| - 1] != '\n'
    ensures Run(st, ItemEvents(loose, s), alnum) == st.(output := st.output + OnOpenLine(s, false, alnum))
  {
    hide Run, PushText, OnOpenLine, Flush, EnsureParagraphBreak, PushParagraphBreak;
    OpenLineIsWritten(st, s, alnum);
    var written := Step(st, Text(s), alnum);
    FlushNothing(written, true, alnum);
    if loose {
      RunOfThree(st, Start(Paragraph), Text(s), End(EndParagraph), alnum);
    } else {
      RunOfOne(st, Text(s), alnum);
    }
  }

  /** Between the items of the only list. */
  ghost predicate InList(st: State, first: Option<nat>, k: nat) {
    && st == INITIAL.(output := st.output, lists := [Counted(first, k)])
    && (st.output == "" || st.output[|st.output| - 1] == '\n')
  }

  lemma ItemOpens(st: State, first: Option<nat>, k: nat, alnum: char -> bool)
    requires InList(st, first, k)
    ensures Step(st, Start(Item), alnum)
         == st.(output := st.output + Marker(first, k), lists := [Counted(first, k + 1)], inItem := 1)
  {
    hide Flush, EnsureLineBreak;
    FlushNothing(st, false, alnum);
    BreakIsThere(st.output);
    assert Indent(0) == "" && st.output + "" == st.output;
    if first.Some? {
      assert st.output + Decimal.Print(first.value + k) + ". " == st.output + Marker(first, k);
      assert st.lists[0 := Some(first.value + k + 1)] == [Counted(first, k + 1)];
    }
  }

  lemma ItemCloses(st: State, alnum: char -> bool)
    requires st.prefix == "" && st.output != "" && st.output[|st.output| - 1] != '\n' && st.inItem == 1
    ensures Step(st, End(EndItem), alnum) == st.(output := st.output + "\n", inItem := 0)
  {
    hide Flush, EnsureLineBreak;
    FlushNothing(st, true, alnum);
    BreakBehind(st.output);
  }

  lemma MarkerShape(first: Option<nat>, k: nat)
    ensures var m := Marker(first, k); m != "" && m[|m| - 1] == ' '
  {
  }

  lemma WholeItemIsWritten(st: State, first: Option<nat>, k: nat, loose: bool, s: string, alnum: char -> bool)
    requires InList(st, first, k) && OneLine(s)
    ensures var r := Run(st, [Start(Item)] + ItemEvents(loose, s) + [End(EndItem)], alnum);
      InList(r, first, k + 1) && r.output == st.output + ItemText(first, k, s, alnum) + "\n"
  {
    hide Run, Step, OnOpenLine, ItemEvents, Marker;
    ItemOpens(st, first, k, alnum);
    MarkerShape(first, k);
    var begun := Step(st, Start(Item), alnum);
    RunAppend(st, [Start(Item)] + ItemEvents(loose, s), [End(EndItem)], alnum);
    RunAppend(st, [Start(Item)], ItemEvents(loose, s), alnum);
    RunOfOne(st, Start(Item), alnum);
    ItemTextIsWritten(begun, loose, s, alnum);
    var written := begun.(output := begun.output + OnOpenLine(s, false, alnum));
    NewLineHasNoBreak(s, false, alnum);
    ItemCloses(written, alnum);
    RunOfOne(written, End(EndItem), alnum);
    assert written.output == st.output + ItemText(first, k, s, alnum) by {
      assert Marker(first, k) + OnOpenLine(s, false, alnum) == ItemText(first, k, s, alnum);
    }
  }

  lemma BreakIsThere(s: string)
    requires s == "" || s[|s| - 1] == '\n'
    ensures EnsureLineBreak(s) == s
  {
    EndsWithBreak(s);
  }

  lemma NoItems(opening: seq<Event>, loose: bool, first: Option<nat>, alnum: char -> bool)
    ensures opening + Items(Contents(loose, [])) == opening && ItemsText(first, [], alnum) == ""
  {
  }

  lemma LastItem(opening: seq<Event>, loose: bool, items: seq<string>)
    requires items != []
    ensures var rest, last := items[..|items| - 1], items[|items| - 1];
      opening + Items(Contents(loose, items))
      == opening + Items(Contents(loose, rest)) + ([Start(Item)] + ItemEvents(loose, last) + [End(EndItem)])
  {
    hide ItemEvents;
    var contents := Contents(loose, items);
    assert contents[..|contents| - 1] == Contents(loose, items[..|items| - 1]);
  }

  lemma OneMoreItem(before: string, first: Option<nat>, items: seq<string>, alnum: char -> bool)
    requires items != [] && OneLine(items[|items| - 1])
    ensures var rest, last := items[..|items| - 1], items[|items| - 1];
      && before + ItemsText(first, items, alnum)
         == before + ItemsText(first, rest, alnum) + ItemText(first, |rest|, last, alnum) + "\n"
      && ItemsShape(ItemsText(first, items, alnum))
  {
    hide ItemText;
    ItemTextShape(first, |items| - 1, items[|items| - 1], alnum);
  }

  lemma {:induction false} ItemsAreWritten(st: State, first: Option<nat>, loose: bool, items: seq<string>,
      alnum: char -> bool)
    requires Between(st) && forall k :: 0 <= k < |items| ==> OneLine(items[k])
    ensures var r := Run(st, [Start(List(first))] + Items(Contents(loose, items)), alnum);
      InList(r, first, |items|) && r.output == st.output + ItemsText(first, items, alnum)
    ensures items != [] ==> ItemsShape(ItemsText(first, items, alnum))
    decreases |items|
  {
    hide Run, Step, Between, ItemText, ItemEvents, InList, OneLine, Items, Contents, ItemsText, ItemsShape;
    var opening := [Start(List(first))];
    if items == [] {
      ListIsOpened(st, first, alnum);
      NoItems(opening, loose, first, alnum);
      assert st.output + "" == st.output;
    } else {
      var rest, last := items[..|items| - 1], items[|items| - 1];
      ItemsAreWritten(st, first, loose, rest, alnum);
      var before := Run(st, opening + Items(Contents(loose, rest)), alnum);
      LastItem(opening, loose, items);
      RunAppend(st, opening + Items(Contents(loose, rest)),
                [Start(Item)] + ItemEvents(loose, last) + [End(EndItem)], alnum);
      WholeItemIsWritten(before, first, |rest|, loose, last, alnum);
      OneMoreItem(st.output, first, items, alnum);
    }
  }

  ghost predicate ItemsShape(t: string) {
    |t| >= 2 && t[|t| - 1] == '\n' && t[|t| - 2] != '\n'
  }

  lemma ItemTextShape(first: Option<nat>, k: nat, s: string, alnum: char -> bool)
    requires OneLine(s)
    ensures var t := ItemText(first, k, s, alnum); t != "" && t[|t| - 1] != '\n'
  {
    hide OnOpenLine;
    NewLineHasNoBreak(s, false, alnum);
  }

  lemma ListIsOpened(st: State, first: Option<nat>, alnum: char -> bool)
    requires Between(st)
    ensures var r := Run(st, [Start(List(first))], alnum); r == st.(lists := [first]) && InList(r, first, 0)
  {
    hide Run, Flush, EnsureParagraphBreak, Between;
    NoBreakNeeded(st);
    BetweenIsInitial(st);
    FlushNothing(st, false, alnum);
    RunOfOne(st, Start(List(first)), alnum);
  }

  lemma ListCloses(st: State, first: Option<nat>, k: nat, before: string, text: string, alnum: char -> bool)
    requires InList(st, first, k) && st.output == before + text && ItemsShape(text)
    ensures Step(st, End(EndList), alnum) == INITIAL.(output := before + (text + "\n"))
  {
    hide PushParagraphBreak, Flush;
    BreakBehind(st.output);
    assert before + text + "\n" == before + (text + "\n");
  }

  lemma ListingIsWritten(st: State, first: Option<nat>, loose: bool, items: seq<string>, alnum: char -> bool)
    requires Between(st) && Plain(Listing(first, loose, items))
    ensures BlockIsWritten(st, Listing(first, loose, items), alnum)
  {
    hide Run, Step, Items, Contents, ItemsText, InList, Between, ItemsShape, OneLine;
    ItemsAreWritten(st, first, loose, items, alnum);
    var opening, closing := [Start(List(first))], [End(EndList)];
    RunAppend(st, opening + Items(Contents(loose, items)), closing, alnum);
    var before := Run(st, opening + Items(Contents(loose, items)), alnum);
    RunOfOne(before, closing[0], alnum);
    var text := ItemsText(first, items, alnum);
    ListCloses(before, first, |items|, st.output, text, alnum);
    ListingShape(text);
    BetweenIsJustOutput(st);
  }

  lemma ListingShape(text: string)
    requires ItemsShape(text)
    ensures Closed(text + "\n")
  {
  }

  lemma BetweenIsJustOutput(st: State)
    requires Between(st)
    ensures forall out :: INITIAL.(output := out) == st.(output := out)
  {
  }

  /** A rule leaves no mark of its own: it ends the paragraph, and between two blocks it adds nothing. */
  lemma RuleEndsParagraph(st: State, alnum: char -> bool)
    requires st.prefix == "" && st.output != ""
    ensures Between(st) ==> Step(st, Rule, alnum) == st
    ensures st.output[|st.output| - 1] != '\n' ==> Step(st, Rule, alnum) == st.(output := st.output + "\n\n")
  {
    hide PushParagraphBreak, Flush;
    FlushNothing(st, true, alnum);
    BreakBehind(st.output);
    if Between(st) {
      BreakIsDone(st.output);
    }
  }

  lemma BreakIsDone(s: string)
    requires |s| >= 2 && s[|s| - 2] == '\n' && s[|s| - 1] == '\n'
    ensures PushParagraphBreak(s) == s
  {
    assert s[|s| - 2..] == "\n\n";
  }

  /**
   Behind text that no block has ended, a paragraph, an outermost list and a table start behind a
   blank line; a paragraph of a list item and a list within another one do not.
   */
  lemma BlocksStartApart(st: State, first: Option<nat>, alnum: char -> bool)
    requires st.prefix == "" && st.output != "" && st.output[|st.output| - 1] != '\n'
    ensures Step(st, Start(Paragraph), alnum) == if st.inItem == 0 then st.(output := st.output + "\n\n") else st
    ensures Step(st, Start(Table), alnum) == st.(output := st.output + "\n\n")
    ensures Step(st, Start(List(first)), alnum)
         == st.(output := if st.lists == [] then st.output + "\n\n" else st.output, lists := st.lists + [first])
  {
    hide EnsureParagraphBreak, Flush;
    FlushNothing(st, false, alnum);
    BreakBefore(st.output);
  }

  lemma BreakBefore(s: string)
    requires s != "" && s[|s| - 1] != '\n'
    ensures EnsureParagraphBreak(s) == s + "\n\n"
  {
    EndsWithBreak(s);
    EndsWithTwoBreaks(s);
    assert s + "\n" + "\n" == s + "\n\n";
  }

  // ----- Whole documents -----

  lemma EachBlockIsWritten(st: State, b: Block, alnum: char -> bool)
    requires Between(st) && Plain(b)
    ensures BlockIsWritten(st, b, alnum)
  {
    hide BlockIsWritten;
    match b
    case Prose(lines) => ProseIsWritten(st, lines, alnum);
    case Title(level, line) => TitleIsWritten(st, level, line, alnum);
    case Program(info, texts) => ProgramIsWritten(st, info, texts, alnum);
    case Listing(first, loose, items) => ListingIsWritten(st, first, loose, items, alnum);
  }

  lemma {:induction false} BlocksAreWritten(bs: seq<Block>, alnum: char -> bool)
    requires forall k :: 0 <= k < |bs| ==> Plain(bs[k])
    ensures Run(INITIAL, AllEvents(bs), alnum) == INITIAL.(output := AllText(bs, alnum))
    ensures Between(INITIAL.(output := AllText(bs, alnum))) && (bs != [] ==> Closed(AllText(bs, alnum)))
    decreases |bs|
  {
    hide Events, BlockText, Plain, Step;
    if bs != [] {
      var rest, last := bs[..|bs| - 1], bs[|bs| - 1];
      BlocksAreWritten(rest, alnum);
      RunAppend(INITIAL, AllEvents(rest), Events(last), alnum);
      EachBlockIsWritten(INITIAL.(output := AllText(rest, alnum)), last, alnum);
    }
  }

  /**
   A document of paragraphs, headings, code blocks and lists is rendered as its blocks, one after
   the other with a blank line between two of them and none at the end: paragraphs line by line,
   headings behind their hashes, code in its fence and items behind their markers.
   */
  lemma DocumentIsWritten(bs: seq<Block>, alnum: char -> bool)
    requires bs != [] && forall k :: 0 <= k < |bs| ==> Plain(bs[k])
    ensures Finish(Run(INITIAL, AllEvents(bs), alnum), alnum) + "\n\n" == AllText(bs, alnum)
  {
    hide Run, AllText, Flush, StripLineBreaks, Closed, Between;
    BlocksAreWritten(bs, alnum);
    FlushNothing(INITIAL.(output := AllText(bs, alnum)), true, alnum);
    TwoBreaksAreStripped(AllText(bs, alnum));
  }

  lemma TwoBreaksAreStripped(t: string)
    requires Closed(t)
    ensures StripLineBreaks(t) + "\n\n" == t
  {
    var one, two := t[..|t| - 1], t[..|t| - 2];
    EndsWithBreak(t);
    EndsWithBreak(one);
    EndsWithBreak(two);
    assert one[..|one| - 1] == two && two + "\n\n" == t;
    assert StripLineBreaks(two) == two && StripLineBreaks(one) == two;
  }
}
