/**
 What text becomes in the output: every character of it, in order, as itself or as its full-width
 form, and none that inline Markdown could read as markup.
 */
module QqText {
  import opened Wrappers
  import opened Characters
  import opened CodeMarkup
  import opened QqRenderer
  import opened QqMarkers
  import opened QqLinks

  // ----- Conservation -----

  /** The ASCII character a full-width one stands for. */
  function Fold(c: char): char {
    match c
    case '＃' => '#'
    case '－' => '-'
    case '＋' => '+'
    case '＝' => '='
    case '．' => '.'
    case '（' => '('
    case '）' => ')'
    case '＼' => '\\'
    case '｀' => '`'
    case '［' => '['
    case '］' => ']'
    case '＜' => '<'
    case '＞' => '>'
    case '＊' => '*'
    case '＿' => '_'
    case '～' => '~'
    case '｜' => '|'
    case _ => c
  }

  function Folded(s: string): string {
    seq(|s|, i requires 0 <= i < |s| => Fold(s[i]))
  }

  lemma FoldedAppends(s: string, t: string)
    ensures Folded(s + t) == Folded(s) + Folded(t)
  {
    hide Fold;
  }

  lemma FlushedCharFolds(s: string, i: nat, kind: PrefixClass, inLabel: bool, alnum: char -> bool)
    requires i < |s|
    ensures Fold(FlushedChar(s, i, kind, inLabel, alnum)) == Fold(s[i])
    ensures Fold(LiteralAt(s, i, inLabel, alnum)) == Fold(s[i])
  {
    hide Classify;
  }

  lemma FlushedFolds(s: string, kind: PrefixClass, inLabel: bool, alnum: char -> bool)
    ensures Folded(FlushedFrom(s, 0, kind, inLabel, alnum)) == Folded(s)
  {
    hide Fold, FlushedFrom, FlushedChar;
    FlushedLength(s, 0, kind, inLabel, alnum);
    forall k | 0 <= k < |s|
      ensures Fold(FlushedFrom(s, 0, kind, inLabel, alnum)[k]) == Fold(s[k])
    {
      FlushedAt(s, 0, kind, inLabel, alnum, k);
      FlushedCharFolds(s, k, kind, inLabel, alnum);
    }
  }

  /** What is written and what is held back. */
  function Everything(st: State): string {
    st.output + st.prefix
  }

  lemma FlushIsConserved(st: State, atLineEnd: bool, alnum: char -> bool)
    ensures Folded(Flush(st, atLineEnd, alnum).output) == Folded(Everything(st))
  {
    hide Folded, FlushedFrom, Classify;
    FlushedFolds(st.prefix, Classify(st.prefix, atLineEnd), InLabel(st), alnum);
    FoldedAppends(st.output, st.prefix);
    FoldedAppends(st.output, FlushedFrom(st.prefix, 0, Classify(st.prefix, atLineEnd), InLabel(st), alnum));
    assert st.output + "" == st.output;
  }

  lemma CharIsConserved(st: State, s: string, i: nat, alnum: char -> bool)
    requires i < |s|
    ensures Folded(Everything(PushChar(st, s, i, alnum))) == Folded(Everything(st) + [s[i]])
  {
    hide Folded, Flush, Classify, LiteralAt, EndsWith;
    var longer := st.(prefix := st.prefix + [s[i]]);
    FlushShape(st, true, alnum);
    FlushShape(longer, true, alnum);
    FlushShape(longer, false, alnum);
    FlushIsConserved(st, true, alnum);
    FlushIsConserved(longer, true, alnum);
    FlushIsConserved(longer, false, alnum);
    assert Everything(longer) == Everything(st) + [s[i]];
    NothingBehind(Flush(longer, true, alnum).output);
    NothingBehind(Flush(longer, false, alnum).output);
    if s[i] == '\n' {
      FoldedAppends(Flush(st, true, alnum).output, "\n");
      FoldedAppends(Everything(st), "\n");
      NothingBehind(Flush(st, true, alnum).output + "\n");
      assert [s[i]] == "\n";
    } else if !(st.prefix != "" || st.output == "" || EndsWith(st.output, "\n")) {
      LiteralFolds(st, s, i, alnum);
    }
  }

  lemma NothingBehind(s: string)
    ensures s + "" == s
  {
  }

  lemma LiteralFolds(st: State, s: string, i: nat, alnum: char -> bool)
    requires i < |s| && st.prefix == ""
    ensures Folded(Everything(st.(output := st.output + [LiteralAt(s, i, InLabel(st), alnum)])))
         == Folded(Everything(st) + [s[i]])
  {
    hide LiteralAt, Fold;
    var c := LiteralAt(s, i, InLabel(st), alnum);
    FlushedCharFolds(s, i, Safe, InLabel(st), alnum);
    FoldedAppends(st.output, [c]);
    FoldedAppends(st.output, [s[i]]);
    NothingBehind(st.output);
    NothingBehind(st.output + [c]);
    assert Folded([c]) == [Fold(c)] && Folded([s[i]]) == [Fold(s[i])];
  }

  lemma {:induction false} CharsAreConserved(st: State, s: string, i: nat, alnum: char -> bool)
    requires i <= |s|
    ensures Folded(Everything(PushChars(st, s, i, alnum))) == Folded(Everything(st) + s[i..])
    decreases |s| - i
  {
    hide PushChar, Folded, Everything;
    if i == |s| {
      NothingBehind(Everything(st));
    } else {
      var r := PushChar(st, s, i, alnum);
      CharIsConserved(st, s, i, alnum);
      CharsAreConserved(r, s, i + 1, alnum);
      FoldedAppends(Everything(r), s[i + 1..]);
      FoldedAppends(Everything(st) + [s[i]], s[i + 1..]);
      assert Everything(st) + [s[i]] + s[i + 1..] == Everything(st) + s[i..];
    }
  }

  function Joined(texts: seq<string>): string {
    if texts == [] then "" else texts[0] + Joined(texts[1..])
  }

  function Texts(texts: seq<string>): seq<Event> {
    if texts == [] then [] else [Text(texts[0])] + Texts(texts[1..])
  }

  /** Neither an image nor a code block takes the text. */
  ghost predicate WritesText(st: State) {
    st.images == [] && st.codeBlock.None?
  }

  /**
   A run of text events writes or holds back every character of its texts, in order and nothing
   else, each as itself or in full-width form; in a link label as well as outside.
   */
  lemma {:induction false} TextIsConserved(st: State, texts: seq<string>, alnum: char -> bool)
    requires WritesText(st)
    ensures WritesText(Run(st, Texts(texts), alnum))
    ensures Folded(Everything(Run(st, Texts(texts), alnum))) == Folded(Everything(st) + Joined(texts))
    ensures Folded(Flush(Run(st, Texts(texts), alnum), true, alnum).output) == Folded(Everything(st) + Joined(texts))
    decreases |texts|
  {
    hide PushChars, Folded, Everything, Flush;
    FlushIsConserved(Run(st, Texts(texts), alnum), true, alnum);
    if texts == [] {
      NothingBehind(Everything(st));
    } else {
      var r := Step(st, Text(texts[0]), alnum);
      assert Texts(texts)[1..] == Texts(texts[1..]);
      PushCharsKeepsRoute(st, texts[0], 0, alnum);
      CharsAreConserved(st, texts[0], 0, alnum);
      assert texts[0][0..] == texts[0];
      TextIsConserved(r, texts[1..], alnum);
      FoldedAppends(Everything(r), Joined(texts[1..]));
      FoldedAppends(Everything(st) + texts[0], Joined(texts[1..]));
      assert Everything(st) + texts[0] + Joined(texts[1..]) == Everything(st) + Joined(texts);
    }
  }

  // ----- No inline markup -----

  /** No character of the text is one that inline Markdown reads as markup. */
  ghost predicate NoMarkup(s: string, inLabel: bool) {
    forall k :: 0 <= k < |s| ==>
      && s[k] !in {'\\', '`', '[', ']', '<', '>', '*', '~', '|'}
      && (inLabel ==> s[k] != '(' && s[k] != ')')
  }

  lemma FlushedCharIsNoMarkup(s: string, i: nat, kind: PrefixClass, inLabel: bool, alnum: char -> bool)
    requires i < |s|
    ensures NoMarkup([FlushedChar(s, i, kind, inLabel, alnum)], inLabel)
    ensures NoMarkup([LiteralAt(s, i, inLabel, alnum)], inLabel)
  {
    hide Classify;
  }

  lemma FlushedIsNoMarkup(s: string, kind: PrefixClass, inLabel: bool, alnum: char -> bool)
    ensures NoMarkup(FlushedFrom(s, 0, kind, inLabel, alnum), inLabel)
  {
    hide FlushedFrom, FlushedChar;
    FlushedLength(s, 0, kind, inLabel, alnum);
    forall k | 0 <= k < |s|
      ensures NoMarkup([FlushedFrom(s, 0, kind, inLabel, alnum)[k]], inLabel)
    {
      FlushedAt(s, 0, kind, inLabel, alnum, k);
      FlushedCharIsNoMarkup(s, k, kind, inLabel, alnum);
    }
    var t := FlushedFrom(s, 0, kind, inLabel, alnum);
    assert forall k :: 0 <= k < |t| ==> t[k] == [t[k]][0];
  }

  /** Everything `after` has beyond `before` is free of markup. */
  ghost predicate AddsNoMarkup(before: State, after: State) {
    && before.output <= after.output && after.links == before.links
    && NoMarkup(after.output[|before.output|..], InLabel(before))
  }

  lemma AddsByFlush(st: State, atLineEnd: bool, alnum: char -> bool)
    ensures AddsNoMarkup(st, Flush(st, atLineEnd, alnum))
  {
    hide FlushedFrom, Classify;
    var kind := Classify(st.prefix, atLineEnd);
    FlushedIsNoMarkup(st.prefix, kind, InLabel(st), alnum);
    assert (st.output + FlushedFrom(st.prefix, 0, kind, InLabel(st), alnum))[|st.output|..]
        == FlushedFrom(st.prefix, 0, kind, InLabel(st), alnum);
  }

  lemma AddsMore(a: State, b: State, c: State)
    requires AddsNoMarkup(a, b) && AddsNoMarkup(b, c)
    ensures AddsNoMarkup(a, c)
  {
    assert c.output[|a.output|..] == b.output[|a.output|..] + c.output[|b.output|..];
  }

  lemma CharAddsNoMarkup(st: State, s: string, i: nat, alnum: char -> bool)
    requires i < |s|
    ensures AddsNoMarkup(st, PushChar(st, s, i, alnum))
  {
    hide Flush, Classify, LiteralAt, EndsWith;
    var longer, flushed := st.(prefix := st.prefix + [s[i]]), Flush(st, true, alnum);
    AddsByFlush(longer, true, alnum);
    AddsByFlush(longer, false, alnum);
    AddsByFlush(st, true, alnum);
    var broken := flushed.(output := flushed.output + "\n");
    assert broken.output[|flushed.output|..] == "\n";
    AddsMore(st, flushed, broken);
    FlushedCharIsNoMarkup(s, i, Safe, InLabel(st), alnum);
    var c := LiteralAt(s, i, InLabel(st), alnum);
    assert (st.output + [c])[|st.output|..] == [c];
  }

  lemma {:induction false} CharsAddNoMarkup(st: State, s: string, i: nat, alnum: char -> bool)
    requires i <= |s|
    ensures AddsNoMarkup(st, PushChars(st, s, i, alnum))
    decreases |s| - i
  {
    hide AddsNoMarkup, PushChar;
    if i == |s| {
      AddsNothing(st);
    } else {
      CharAddsNoMarkup(st, s, i, alnum);
      CharsAddNoMarkup(PushChar(st, s, i, alnum), s, i + 1, alnum);
      AddsMore(st, PushChar(st, s, i, alnum), PushChars(st, s, i, alnum));
    }
  }

  lemma AddsNothing(st: State)
    ensures AddsNoMarkup(st, st)
  {
  }

  /**
   Of what a text event and the flush behind it write, no character is one that inline Markdown reads
   as markup, and in a link label none is a parenthesis.
   */
  lemma TextWritesNoMarkup(st: State, s: string, alnum: char -> bool)
    requires WritesText(st)
    ensures var r := Flush(Step(st, Text(s), alnum), true, alnum).output;
      && st.output <= r
      && (forall k :: |st.output| <= k < |r| ==> r[k] !in {'\\', '`', '[', ']', '<', '>', '*', '~', '|'})
      && (InLabel(st) ==> forall k :: |st.output| <= k < |r| ==> r[k] !in {'(', ')'})
  {
    hide PushChars, Flush;
    var pushed := PushChars(st, s, 0, alnum);
    var r := Flush(pushed, true, alnum);
    CharsAddNoMarkup(st, s, 0, alnum);
    AddsByFlush(pushed, true, alnum);
    AddsMore(st, pushed, r);
    assert forall k :: |st.output| <= k < |r.output| ==> r.output[k] == r.output[|st.output|..][k - |st.output|];
  }

  /**
   An underscore stays one exactly on an open line with nothing held back and between two
   alphanumeric characters of its own text; otherwise it becomes full-width.
   */
  lemma UnderscoreIsKeptIff(st: State, s: string, i: nat, alnum: char -> bool)
    requires i < |s| && s[i] == '_' && (st.prefix != "" ==> Classify(st.prefix, false) == Pending)
    ensures var r := PushChar(st, s, i, alnum).output;
      var kept := st.prefix == "" && CurrentLine(st.output) != ""
                  && 0 < i && alnum(s[i - 1]) && i + 1 < |s| && alnum(s[i + 1]);
      |r| > |st.output| && r[|r| - 1] == if kept then '_' else '＿'
  {
    hide Classify, FlushedFrom, CurrentLine, EndsWith;
    LineStartIff(st.output);
    var held := st.prefix + "_";
    assert st.prefix + [s[i]] == held;
    UnderscoreDecides(st.prefix);
    FlushedAt(held, 0, Safe, InLabel(st), alnum, |held| - 1);
    FlushedLength(held, 0, Safe, InLabel(st), alnum);
  }

  lemma UnderscoreDecides(prefix: string)
    requires prefix != "" ==> Classify(prefix, false) == Pending
    ensures Classify(prefix + "_", false) == Safe
  {
    hide Classify;
    FullWidthDoesNotMatter('_');
    if prefix == "" {
      assert prefix + "_" == "_";
      UnmarkedStartIsSafe("_", false);
    } else {
      PendingThenPlain(prefix, '_');
    }
  }

  // ----- What stands for text, and what leaves no trace -----

  /** A break is a line feed in a code block, and a space in an image or behind text in a link. */
  lemma BreakStandsForText(st: State, alnum: char -> bool)
    requires st.codeBlock.Some? ==> st.images == []
    requires st.codeBlock.None? && st.images == [] ==>
      st.links != [] && st.prefix == "" && st.output != "" && st.output[|st.output| - 1] != '\n'
    ensures Step(st, Break, alnum) == Step(st, Text(if st.codeBlock.Some? then "\n" else " "), alnum)
  {
    hide Classify, Flush;
    if st.codeBlock.None? && st.images == [] {
      EndsWithBreak(st.output);
      assert PushChars(st, " ", 0, alnum) == PushChars(PushChar(st, " ", 0, alnum), " ", 1, alnum);
    }
  }

  lemma {:induction false} ImageCollects(st: State, texts: seq<string>, alnum: char -> bool)
    requires st.images != []
    ensures Run(st, Texts(texts), alnum) == AppendToImage(st, Joined(texts))
    decreases |texts|
  {
    var last := |st.images| - 1;
    if texts == [] {
      NothingBehind(st.images[last]);
      assert st.images[..last] + [st.images[last]] == st.images;
    } else {
      assert Texts(texts)[1..] == Texts(texts[1..]);
      ImageCollects(AppendToImage(st, texts[0]), texts[1..], alnum);
      assert st.images[last] + texts[0] + Joined(texts[1..]) == st.images[last] + Joined(texts);
    }
  }

  /** From any state, an image is written as its trimmed alternative text would be, or not at all if that is empty. */
  lemma ImageIsItsText(st: State, texts: seq<string>, alnum: char -> bool)
    ensures Run(st, [Start(Image)] + Texts(texts) + [End(EndImage)], alnum)
         == if Trim(Joined(texts)) == "" then st else Step(st, Text(Trim(Joined(texts))), alnum)
  {
    hide Run, Flush, PushChars, Trim;
    var opening, closing := [Start(Image)], [End(EndImage)];
    RunAppend(st, opening + Texts(texts), closing, alnum);
    RunAppend(st, opening, Texts(texts), alnum);
    RunOfOne(st, opening[0], alnum);
    var inside := st.(images := st.images + [""]);
    ImageCollects(inside, texts, alnum);
    assert "" + Joined(texts) == Joined(texts);
    var filled := AppendToImage(inside, Joined(texts));
    RunOfOne(filled, closing[0], alnum);
    assert filled.images[..|filled.images| - 1] == st.images;
  }

  /** The events without those the renderer passes over, and with mathematics as text. */
  function Visible(events: seq<Event>): seq<Event> {
    if events == [] then []
    else
      var rest := Visible(events[1..]);
      match events[0]
      case Ignored => rest
      case Start(Transparent) => rest
      case End(EndTransparent) => rest
      case Math(math) => [Text(math)] + rest
      case e => [e] + rest
  }

  /** Emphasis, block quotes, raw HTML and the like leave no trace, wherever they stand in a run. */
  lemma {:induction false} OnlyVisibleEventsMatter(st: State, events: seq<Event>, alnum: char -> bool)
    ensures Run(st, events, alnum) == Run(st, Visible(events), alnum)
    decreases |events|
  {
    hide StartTag, PushText, PushCode, PushBreak;
    if events != [] {
      OnlyVisibleEventsMatter(Step(st, events[0], alnum), events[1..], alnum);
      PassedOver(st, alnum);
    }
  }

  lemma PassedOver(st: State, alnum: char -> bool)
    ensures Step(st, Ignored, alnum) == Step(st, Start(Transparent), alnum) == Step(st, End(EndTransparent), alnum) == st
  {
  }

  // ----- Code blocks -----

  /** The language is what the info string holds of letters, digits, and three signs, in order. */
  lemma {:induction false} LanguageIsFiltered(a: string, b: string)
    ensures FilterLanguage(a + b) == FilterLanguage(a) + FilterLanguage(b)
    ensures IsLanguage(FilterLanguage(a))
  {
    hide IsLanguage, IsLanguageChar;
    if a == "" {
      assert a + b == b;
      EmptyIsLanguage();
    } else {
      LanguageIsFiltered(a[1..], b);
      assert (a + b)[1..] == a[1..] + b;
      LanguageGrows(a[0], FilterLanguage(a[1..]));
    }
  }

  lemma LanguageOfOne(c: char)
    ensures FilterLanguage([c])
         == if '0' <= c <= '9' || 'a' <= c <= 'z' || 'A' <= c <= 'Z' || c in {'-', '_', '+'} then [c] else ""
  {
    assert [c][1..] == "" && FilterLanguage("") == "";
  }

  lemma EmptyIsLanguage()
    ensures IsLanguage("") && FilterLanguage("") == ""
  {
  }

  lemma LanguageGrows(c: char, s: string)
    requires IsLanguage(s)
    ensures IsLanguageChar(c) ==> IsLanguage([c] + s)
    ensures "" + s == s
  {
  }

  lemma {:induction false} CodeIsCollected(st: State, texts: seq<string>, alnum: char -> bool)
    requires st.images == [] && st.codeBlock.Some?
    ensures var block := st.codeBlock.value;
      Run(st, Texts(texts), alnum) == st.(codeBlock := Some(block.(content := block.content + Joined(texts))))
    decreases |texts|
  {
    var block := st.codeBlock.value;
    if texts == [] {
      NothingBehind(block.content);
    } else {
      assert Texts(texts)[1..] == Texts(texts[1..]);
      CodeIsCollected(Step(st, Text(texts[0]), alnum), texts[1..], alnum);
      assert block.content + texts[0] + Joined(texts[1..]) == block.content + Joined(texts);
    }
  }

  /**
   A code block is written on lines of its own as one fenced block, which section 4.5 of CommonMark
   0.31.2 reads back with its filtered language and all of its text.
   */
  lemma CodeBlockIsRead(st: State, info: Option<string>, texts: seq<string>, alnum: char -> bool)
    requires WritesText(st)
    ensures var r := Run(st, [Start(CodeBlock(info))] + Texts(texts) + [End(EndCodeBlock)], alnum);
      var block := FencedBlock(FilterLanguage(if info.Some? then info.value else ""), Joined(texts));
      && r.output == EnsureParagraphBreak(Flush(st, false, alnum).output) + block + "\n\n"
      && r.codeBlock.None? && r.prefix == ""
      && ReadFencedBlock(block).Some?
      && ReadFencedBlock(block).value.0 == FilterLanguage(if info.Some? then info.value else "")
      && (ReadFencedBlock(block).value.1 == Joined(texts) || ReadFencedBlock(block).value.1 == Joined(texts) + "\n")
  {
    hide Run, Flush, EnsureParagraphBreak, PushParagraphBreak, FencedBlock, Terminated, FilterLanguage, ReadFencedBlock,
      IsLanguage;
    var language := FilterLanguage(if info.Some? then info.value else "");
    var f := Flush(st, false, alnum);
    var inside := f.(codeBlock := Some(CodeBlockBuffer(language, "")));
    var opening, closing := [Start(CodeBlock(info))], [End(EndCodeBlock)];
    FlushShape(st, false, alnum);
    RunAppend(st, opening + Texts(texts), closing, alnum);
    RunAppend(st, opening, Texts(texts), alnum);
    RunOfOne(st, opening[0], alnum);
    EmptyIsLanguage();
    CodeIsCollected(inside, texts, alnum);
    assert "" + Joined(texts) == Joined(texts);
    var filled := inside.(codeBlock := Some(CodeBlockBuffer(language, Joined(texts))));
    RunOfOne(filled, closing[0], alnum);
    BlockEndsInTick(EnsureParagraphBreak(f.output), language, Joined(texts));
    LanguageIsFiltered(if info.Some? then info.value else "", "");
    FencedBlockRoundTrip(language, Joined(texts));
  }

  lemma EndsWithTwoBreaks(s: string)
    ensures EndsWith(s, "\n\n") ==> s[|s| - 1] == '\n'
  {
    if EndsWith(s, "\n\n") {
      assert s[|s| - 2..][1] == s[|s| - 1];
    }
  }

  lemma BlockEndsInTick(before: string, language: string, content: string)
    ensures var out := before + FencedBlock(language, content); PushParagraphBreak(out) == out + "\n\n"
  {
    hide Ticks, LongestBacktickRun, Terminated;
    var out := before + FencedBlock(language, content);
    FenceLengthIsAtLeastThree(content);
    assert out[|out| - 1] == '`';
    EndsWithBreak(out);
    EndsWithTwoBreaks(out);
    assert out + "\n" + "\n" == out + "\n\n";
  }
}
