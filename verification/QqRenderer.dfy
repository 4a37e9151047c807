/**
 The renderer that turns Markdown parser events into the stable subset of QQ Markdown. The
 parser is not part of this model: the renderer is studied on every event sequence.
 `alnum` stands for the Unicode alphanumeric property and is left arbitrary.
 */
module QqRenderer {
  import opened Wrappers
  import opened Characters
  import opened InlineEscape
  import opened CodeMarkup
  import Decimal

  // ----- Events -----

  datatype Tag =
    | Paragraph | Heading(level: nat) | List(start: Option<nat>) | Item
    | Link(destination: string) | Image | CodeBlock(info: Option<string>)
    | Table | TableHead | TableRow | TableCell
    | Transparent  // block quotes, emphasis and the other tags that leave no trace

  datatype TagEnd =
    | EndParagraph | EndHeading | EndList | EndItem | EndLink | EndImage | EndCodeBlock
    | EndTable | EndTableHead | EndTableRow | EndTableCell | EndTransparent

  datatype Event =
    | Start(tag: Tag) | End(tagEnd: TagEnd) | Text(text: string) | Code(code: string)
    | Break | Rule | TaskListMarker(checked: bool) | Math(math: string)
    | Ignored  // raw HTML and footnote references

  // ----- State -----

  datatype LinkFrame = LinkFrame(destination: Option<string>, outputStart: nat)

  datatype CodeBlockBuffer = CodeBlockBuffer(language: string, content: string)

  datatype State = State(
    output: string, lists: seq<Option<nat>>, links: seq<LinkFrame>, images: seq<string>,
    prefix: string, inItem: nat, codeBlock: Option<CodeBlockBuffer>)

  const INITIAL := State("", [], [], [], "", 0, None)

  // ----- Characters -----

  datatype PrefixClass = Pending | Safe | MarkdownMarker

  /** How many characters at the start of `s` are `#`. */
  function LeadingHashes(s: string): (n: nat)
    ensures n <= |s|
  {
    if s != "" && s[0] == '#' then 1 + LeadingHashes(s[1..]) else 0
  }

  function LeadingDigits(s: string): (n: nat)
    ensures n <= |s|
  {
    if s != "" && IsAsciiDigit(s[0]) then 1 + LeadingDigits(s[1..]) else 0
  }

  predicate OnlyCharOrSpace(s: string, c: char) {
    s == "" || ((s[0] == c || IsWhitespace(s[0])) && OnlyCharOrSpace(s[1..], c))
  }

  function CountOf(s: string, c: char): nat {
    if s == "" then 0 else (if s[0] == c then 1 else 0) + CountOf(s[1..], c)
  }

  /** What the character after a marker decides: whitespace makes it one, anything else does not. */
  function ClassifyNext(s: string, i: nat, atLineEnd: bool): PrefixClass {
    if i < |s| then if IsWhitespace(s[i]) then MarkdownMarker else Safe
    else if atLineEnd then MarkdownMarker else Pending
  }

  /** Whether the start of a line reads as a heading, list, rule or setext marker. */
  function Classify(s: string, atLineEnd: bool): PrefixClass {
    if s == "" then Safe
    else if s[0] == '#' then
      if LeadingHashes(s) > 6 then Safe else ClassifyNext(s, LeadingHashes(s), atLineEnd)
    else if s[0] == '-' then
      if |s| > 1 && IsWhitespace(s[1]) then MarkdownMarker
      else if OnlyCharOrSpace(s, '-') then
        if atLineEnd then if CountOf(s, '-') >= 3 then MarkdownMarker else Safe
        else Pending
      else Safe
    else if s[0] == '+' then ClassifyNext(s, 1, atLineEnd)
    else if s[0] == '=' then
      if OnlyCharOrSpace(s, '=') then if atLineEnd then MarkdownMarker else Pending
      else Safe
    else if IsAsciiDigit(s[0]) then
      var n := LeadingDigits(s);
      if n > 9 then Safe
      else if n == |s| then if atLineEnd then Safe else Pending
      else if s[n] != '.' && s[n] != ')' then Safe
      else ClassifyNext(s, n + 1, atLineEnd)
    else Safe
  }

  /** The full-width stand-in that takes a marker's meaning away. */
  function SafeMarkerChar(s: string, i: nat): Option<char>
    requires i < |s|
  {
    if s[0] == '#' && i == 0 then Some('＃')
    else if s[0] == '-' && i == 0 then Some('－')
    else if s[0] == '+' && i == 0 then Some('＋')
    else if s[0] == '=' && i == 0 then Some('＝')
    else if IsAsciiDigit(s[0]) && s[i] == '.' then Some('．')
    else if IsAsciiDigit(s[0]) && s[i] == ')' then Some('）')
    else None
  }

  function SafeLiteralChar(c: char, previous: Option<char>, next: Option<char>, inLabel: bool,
      alnum: char -> bool): char {
    match c
    case '\\' => '＼'
    case '`' => '｀'
    case '[' => '［'
    case ']' => '］'
    case '<' => '＜'
    case '>' => '＞'
    case '*' => '＊'
    case '_' => if previous.Some? && alnum(previous.value) && next.Some? && alnum(next.value) then '_' else '＿'
    case '~' => '～'
    case '|' => '｜'
    case '(' => if inLabel then '（' else c
    case ')' => if inLabel then '）' else c
    case _ => c
  }

  function At(s: string, i: int): Option<char> {
    if 0 <= i < |s| then Some(s[i]) else None
  }

  /** Character `i` of a text as it is written out. */
  function LiteralAt(s: string, i: nat, inLabel: bool, alnum: char -> bool): char
    requires i < |s|
  {
    SafeLiteralChar(s[i], At(s, i - 1), At(s, i + 1), inLabel, alnum)
  }

  function FlushedChar(s: string, i: nat, kind: PrefixClass, inLabel: bool, alnum: char -> bool): char
    requires i < |s|
  {
    if kind.MarkdownMarker? && SafeMarkerChar(s, i).Some? then SafeMarkerChar(s, i).value
    else LiteralAt(s, i, inLabel, alnum)
  }

  /** The characters of `s` from `i` on, as a flush writes them. */
  function FlushedFrom(s: string, i: nat, kind: PrefixClass, inLabel: bool, alnum: char -> bool): string
    requires i <= |s|
    decreases |s| - i
  {
    if i == |s| then "" else [FlushedChar(s, i, kind, inLabel, alnum)] + FlushedFrom(s, i + 1, kind, inLabel, alnum)
  }

  // ----- Output helpers -----

  predicate EndsWith(s: string, t: string) {
    |t| <= |s| && s[|s| - |t|..] == t
  }

  function EnsureLineBreak(s: string): string {
    if s != "" && !EndsWith(s, "\n") then s + "\n" else s
  }

  function EnsureParagraphBreak(s: string): string {
    if s != "" && !EndsWith(s, "\n\n") then EnsureLineBreak(s) + "\n" else s
  }

  function PushParagraphBreak(s: string): string {
    if !EndsWith(s, "\n\n") then EnsureLineBreak(s) + "\n" else s
  }

  function StripLineBreaks(s: string): string {
    if EndsWith(s, "\n") then StripLineBreaks(s[..|s| - 1]) else s
  }

  function Indent(n: nat): string {
    if n == 0 then "" else "  " + Indent(n - 1)
  }

  function HeadingPrefix(level: nat): string {
    if level == 1 then "#" else if level == 2 then "##" else "###"
  }

  function FilterLanguage(info: string): string {
    if info == "" then ""
    else (if IsLanguageChar(info[0]) then [info[0]] else "") + FilterLanguage(info[1..])
  }

  // ----- Transitions -----

  predicate InLabel(st: State) {
    st.links != [] && st.links[|st.links| - 1].destination.Some?
  }

  function Flush(st: State, atLineEnd: bool, alnum: char -> bool): State {
    if st.prefix == "" then st
    else
      var flushed := FlushedFrom(st.prefix, 0, Classify(st.prefix, atLineEnd), InLabel(st), alnum);
      st.(output := st.output + flushed, prefix := "")
  }

  /** One character of a text event. */
  function PushChar(st: State, s: string, i: nat, alnum: char -> bool): State
    requires i < |s|
  {
    if s[i] == '\n' then
      var flushed := Flush(st, true, alnum);
      flushed.(output := flushed.output + "\n")
    else if st.prefix != "" || st.output == "" || EndsWith(st.output, "\n") then
      var longer := st.(prefix := st.prefix + [s[i]]);
      match Classify(longer.prefix, false)
      case Pending => longer
      case Safe => Flush(longer, false, alnum)
      case MarkdownMarker => Flush(longer, true, alnum)
    else st.(output := st.output + [LiteralAt(s, i, InLabel(st), alnum)])
  }

  function PushChars(st: State, s: string, i: nat, alnum: char -> bool): State
    requires i <= |s|
    decreases |s| - i
  {
    if i == |s| then st else PushChars(PushChar(st, s, i, alnum), s, i + 1, alnum)
  }

  function AppendToImage(st: State, s: string): State
    requires st.images != []
  {
    st.(images := st.images[..|st.images| - 1] + [st.images[|st.images| - 1] + s])
  }

  function AppendToCode(st: State, s: string): State
    requires st.codeBlock.Some?
  {
    st.(codeBlock := Some(st.codeBlock.value.(content := st.codeBlock.value.content + s)))
  }

  function PushText(st: State, s: string, alnum: char -> bool): State {
    if st.images != [] then AppendToImage(st, s)
    else if st.codeBlock.Some? then AppendToCode(st, s)
    else PushChars(st, s, 0, alnum)
  }

  function PushCode(st: State, code: string, alnum: char -> bool): State {
    if st.images != [] then PushText(st, code, alnum)
    else
      var flushed := Flush(st, false, alnum);
      if flushed.links != [] then PushText(flushed, code, alnum)
      else flushed.(output := flushed.output + InlineCode(code))
  }

  function PushBreak(st: State, alnum: char -> bool): State {
    if st.codeBlock.Some? then AppendToCode(st, "\n")
    else if st.images != [] then AppendToImage(st, " ")
    else if st.links != [] then st.(output := st.output + " ")
    else
      var flushed := Flush(st, true, alnum);
      flushed.(output := EnsureLineBreak(flushed.output))
  }

  function StartTag(st: State, tag: Tag, alnum: char -> bool): State {
    var flushed := Flush(st, false, alnum);
    match tag
    case Paragraph => if st.inItem == 0 then st.(output := EnsureParagraphBreak(st.output)) else st
    case Heading(level) =>
      flushed.(output := EnsureParagraphBreak(flushed.output) + HeadingPrefix(level) + " ")
    case List(start) =>
      flushed.(
        output := if flushed.lists == [] then EnsureParagraphBreak(flushed.output) else flushed.output,
        lists := flushed.lists + [start])
    case Item =>
      var depth := |flushed.lists|;
      var out := EnsureLineBreak(flushed.output) + Indent(if depth == 0 then 0 else depth - 1);
      if depth > 0 && flushed.lists[depth - 1].Some? then
        var next := flushed.lists[depth - 1].value;
        flushed.(output := out + Decimal.Print(next) + ". ", lists := flushed.lists[depth - 1 := Some(next + 1)],
                 inItem := flushed.inItem + 1)
      else flushed.(output := out + "- ", inItem := flushed.inItem + 1)
    case Link(url) =>
      var destination := SanitizeLinkDestination(url);
      if destination.Some? then
        flushed.(output := flushed.output + "[", links := flushed.links + [LinkFrame(destination, |flushed.output|)])
      else st.(links := st.links + [LinkFrame(None, |st.output|)])
    case Image => st.(images := st.images + [""])
    case CodeBlock(info) =>
      flushed.(codeBlock := Some(CodeBlockBuffer(if info.Some? then FilterLanguage(info.value) else "", "")))
    case Table => flushed.(output := EnsureParagraphBreak(flushed.output))
    case TableHead => flushed.(output := EnsureLineBreak(flushed.output))
    case TableRow => flushed.(output := EnsureLineBreak(flushed.output))
    case TableCell =>
      if !EndsWith(flushed.output, "\n") && !EndsWith(flushed.output, " / ") then
        flushed.(output := flushed.output + " / ")
      else flushed
    case Transparent => st
  }

  /** Closes the innermost link: an opener with an empty label is taken back. */
  function CloseLink(st: State): State {
    if st.links == [] then st
    else
      var frame := st.links[|st.links| - 1];
      var popped := st.(links := st.links[..|st.links| - 1]);
      if frame.destination.None? then popped
      else if |st.output| == frame.outputStart + 1 then popped.(output := st.output[..frame.outputStart])
      else popped.(output := st.output + "](<" + frame.destination.value + ">)")
  }

  function CloseImage(st: State, alnum: char -> bool): State {
    if st.images == [] then st
    else
      var alt := Trim(st.images[|st.images| - 1]);
      var popped := st.(images := st.images[..|st.images| - 1]);
      if alt != "" then PushText(popped, alt, alnum) else popped
  }

  function CloseCodeBlock(st: State): State {
    if st.codeBlock.None? then st
    else
      var block := st.codeBlock.value;
      st.(output := PushParagraphBreak(EnsureParagraphBreak(st.output) + FencedBlock(block.language, block.content)),
          codeBlock := None)
  }

  function EndTag(st: State, tag: TagEnd, alnum: char -> bool): State {
    var flushed := Flush(st, true, alnum);
    match tag
    case EndParagraph =>
      if flushed.inItem == 0 then flushed.(output := PushParagraphBreak(flushed.output)) else flushed
    case EndHeading => flushed.(output := PushParagraphBreak(flushed.output))
    case EndItem =>
      flushed.(output := EnsureLineBreak(flushed.output), inItem := if flushed.inItem == 0 then 0 else flushed.inItem - 1)
    case EndList =>
      var popped := if st.lists == [] then st else st.(lists := st.lists[..|st.lists| - 1]);
      if popped.lists == [] then popped.(output := PushParagraphBreak(popped.output)) else popped
    case EndLink => CloseLink(st)
    case EndImage => CloseImage(st, alnum)
    case EndCodeBlock => CloseCodeBlock(st)
    case EndTable => flushed.(output := PushParagraphBreak(flushed.output))
    case EndTableHead => flushed.(output := EnsureLineBreak(flushed.output))
    case EndTableRow => flushed.(output := EnsureLineBreak(flushed.output))
    case EndTableCell => st
    case EndTransparent => st
  }

  function Step(st: State, event: Event, alnum: char -> bool): State {
    match event
    case Start(tag) => StartTag(st, tag, alnum)
    case End(tag) => EndTag(st, tag, alnum)
    case Text(text) => PushText(st, text, alnum)
    case Code(code) => PushCode(st, code, alnum)
    case Break => PushBreak(st, alnum)
    case Rule =>
      var flushed := Flush(st, true, alnum);
      flushed.(output := PushParagraphBreak(flushed.output))
    case TaskListMarker(checked) =>
      var flushed := Flush(st, false, alnum);
      flushed.(output := flushed.output + if checked then "[x] " else "[ ] ")
    case Math(math) => PushText(st, math, alnum)
    case Ignored => st
  }

  function Run(st: State, events: seq<Event>, alnum: char -> bool): State
    decreases |events|
  {
    if events == [] then st else Run(Step(st, events[0], alnum), events[1..], alnum)
  }

  function Finish(st: State, alnum: char -> bool): string {
    StripLineBreaks(Flush(st, true, alnum).output)
  }

  // ----- The renderer object -----

  class QqMarkdownRenderer {
    const alnum: char -> bool
    var output: string
    var lists: seq<Option<nat>>
    var links: seq<LinkFrame>
    var images: seq<string>
    var linePrefix: string
    var inItem: nat
    var codeBlock: Option<CodeBlockBuffer>

    ghost function Value(): State
      reads this
    {
      State(output, lists, links, images, linePrefix, inItem, codeBlock)
    }

    constructor (alnum: char -> bool)
      ensures Value() == INITIAL && this.alnum == alnum
    {
      this.alnum := alnum;
      output, lists, links, images := "", [], [], [];
      linePrefix, inItem, codeBlock := "", 0, None;
    }

    method Push(event: Event)
      modifies this
      ensures Value() == Step(old(Value()), event, alnum)
    {
      match event
      case Start(tag) => StartOf(tag);
      case End(tag) => EndOf(tag);
      case Text(text) => PushTextOf(text);
      case Code(code) => PushInlineCode(code);
      case Break =>
        if codeBlock.Some? {
          codeBlock := Some(codeBlock.value.(content := codeBlock.value.content + "\n"));
        } else if images != [] {
          images := images[..|images| - 1] + [images[|images| - 1] + " "];
        } else if links != [] {
          output := output + " ";
        } else {
          FlushLineStartPrefix(true);
          output := EnsureLineBreak(output);
        }
      case Rule =>
        FlushLineStartPrefix(true);
        output := PushParagraphBreak(output);
      case TaskListMarker(checked) =>
        FlushLineStartPrefix(false);
        output := output + if checked then "[x] " else "[ ] ";
      case Math(math) => PushTextOf(math);
      case Ignored =>
    }

    method StartOf(tag: Tag)
      modifies this
      ensures Value() == StartTag(old(Value()), tag, alnum)
    {
      hide Flush, EnsureLineBreak, EnsureParagraphBreak, PushParagraphBreak, EndsWith, Trim, FencedBlock, PushText;
      match tag
      case Paragraph =>
        if inItem == 0 {
          output := EnsureParagraphBreak(output);
        }
      case Heading(level) =>
        FlushLineStartPrefix(false);
        output := EnsureParagraphBreak(output);
        output := output + HeadingPrefix(level);
        output := output + " ";
      case List(start) =>
        FlushLineStartPrefix(false);
        if lists == [] {
          output := EnsureParagraphBreak(output);
        }
        lists := lists + [start];
      case Item =>
        FlushLineStartPrefix(false);
        output := EnsureLineBreak(output);
        output := output + Indent(if |lists| == 0 then 0 else |lists| - 1);
        if |lists| > 0 && lists[|lists| - 1].Some? {
          var next := lists[|lists| - 1].value;
          output := output + Decimal.Print(next) + ". ";
          lists := lists[|lists| - 1 := Some(next + 1)];
        } else {
          output := output + "- ";
        }
        inItem := inItem + 1;
      case Link(url) =>
        var destination := SanitizeLinkDestination(url);
        if destination.Some? {
          FlushLineStartPrefix(false);
          var outputStart := |output|;
          output := output + "[";
          links := links + [LinkFrame(destination, outputStart)];
        } else {
          links := links + [LinkFrame(None, |output|)];
        }
      case Image => images := images + [""];
      case CodeBlock(info) =>
        FlushLineStartPrefix(false);
        var language := if info.Some? then FilterLanguage(info.value) else "";
        codeBlock := Some(CodeBlockBuffer(language, ""));
      case Table =>
        FlushLineStartPrefix(false);
        output := EnsureParagraphBreak(output);
      case TableHead =>
        FlushLineStartPrefix(false);
        output := EnsureLineBreak(output);
      case TableRow =>
        FlushLineStartPrefix(false);
        output := EnsureLineBreak(output);
      case TableCell =>
        FlushLineStartPrefix(false);
        if !EndsWith(output, "\n") && !EndsWith(output, " / ") {
          output := output + " / ";
        }
      case Transparent =>
    }

    method EndOf(tag: TagEnd)
      modifies this
      ensures Value() == EndTag(old(Value()), tag, alnum)
    {
      hide Flush, EnsureLineBreak, EnsureParagraphBreak, PushParagraphBreak, EndsWith, Trim, FencedBlock, PushText;
      match tag
      case EndParagraph =>
        FlushLineStartPrefix(true);
        if inItem == 0 {
          output := PushParagraphBreak(output);
        }
      case EndHeading =>
        FlushLineStartPrefix(true);
        output := PushParagraphBreak(output);
      case EndItem =>
        FlushLineStartPrefix(true);
        inItem := if inItem == 0 then 0 else inItem - 1;
        output := EnsureLineBreak(output);
      case EndList =>
        if lists != [] {
          lists := lists[..|lists| - 1];
        }
        if lists == [] {
          output := PushParagraphBreak(output);
        }
      case EndLink =>
        if links != [] {
          var frame := links[|links| - 1];
          links := links[..|links| - 1];
          if frame.destination.Some? {
            if |output| == frame.outputStart + 1 {
              output := output[..frame.outputStart];
            } else {
              output := output + "](<";
              output := output + frame.destination.value;
              output := output + ">)";
            }
          }
        }
      case EndImage =>
        if images != [] {
          var alt := Trim(images[|images| - 1]);
          images := images[..|images| - 1];
          if alt != "" {
            PushTextOf(alt);
          }
        }
      case EndCodeBlock =>
        if codeBlock.Some? {
          var block := codeBlock.value;
          codeBlock := None;
          output := EnsureParagraphBreak(output);
          output := output + FencedBlock(block.language, block.content);
          output := PushParagraphBreak(output);
        }
      case EndTable =>
        FlushLineStartPrefix(true);
        output := PushParagraphBreak(output);
      case EndTableHead =>
        FlushLineStartPrefix(true);
        output := EnsureLineBreak(output);
      case EndTableRow =>
        FlushLineStartPrefix(true);
        output := EnsureLineBreak(output);
      case EndTableCell =>
      case EndTransparent =>
    }

    method FinishRendering() returns (text: string)
      modifies this
      ensures text == Finish(old(Value()), alnum)
    {
      FlushLineStartPrefix(true);
      while EndsWith(output, "\n")
        invariant StripLineBreaks(output) == Finish(old(Value()), alnum)
        decreases |output|
      {
        output := output[..|output| - 1];
      }
      return output;
    }

    method PushTextOf(text: string)
      modifies this
      ensures Value() == PushText(old(Value()), text, alnum)
    {
      hide PushChar;
      if images != [] {
        images := images[..|images| - 1] + [images[|images| - 1] + text];
        return;
      }
      if codeBlock.Some? {
        codeBlock := Some(codeBlock.value.(content := codeBlock.value.content + text));
        return;
      }
      var inLabel := links != [] && links[|links| - 1].destination.Some?;
      var i := 0;
      while i < |text|
        invariant i <= |text| && inLabel == InLabel(Value())
        invariant PushChars(old(Value()), text, 0, alnum) == PushChars(Value(), text, i, alnum)
      {
        PushCharOf(text, i, inLabel);
        i := i + 1;
      }
    }

    /** The body of the loop over the characters of a text event. */
    method PushCharOf(text: string, i: nat, inLabel: bool)
      requires i < |text| && inLabel == InLabel(Value())
      modifies this
      ensures Value() == PushChar(old(Value()), text, i, alnum) && links == old(links)
    {
      var c := text[i];
      if c == '\n' {
        FlushLineStartPrefix(true);
        output := output + "\n";
        return;
      }
      if linePrefix != "" || output == "" || EndsWith(output, "\n") {
        linePrefix := linePrefix + [c];
        match Classify(linePrefix, false) {
          case Pending =>
          case Safe => FlushLineStartPrefix(false);
          case MarkdownMarker => FlushLineStartPrefix(true);
        }
        return;
      }
      output := output + [LiteralAt(text, i, inLabel, alnum)];
    }

    method FlushLineStartPrefix(atLineEnd: bool)
      modifies this
      ensures Value() == Flush(old(Value()), atLineEnd, alnum)
    {
      if linePrefix == "" {
        return;
      }
      var kind := Classify(linePrefix, atLineEnd);
      var inLabel := links != [] && links[|links| - 1].destination.Some?;
      var i := 0;
      while i < |linePrefix|
        invariant i <= |linePrefix|
        invariant Value() == old(Value()).(output := output)
        invariant output + FlushedFrom(linePrefix, i, kind, inLabel, alnum)
               == old(output) + FlushedFrom(linePrefix, 0, kind, inLabel, alnum)
      {
        output := output + [FlushedChar(linePrefix, i, kind, inLabel, alnum)];
        i := i + 1;
      }
      linePrefix := "";
    }

    method PushInlineCode(code: string)
      modifies this
      ensures Value() == PushCode(old(Value()), code, alnum)
    {
      if images != [] {
        PushTextOf(code);
        return;
      }
      FlushLineStartPrefix(false);
      if links != [] {
        PushTextOf(code);
        return;
      }
      var delimiter := Ticks(LongestBacktickRun(code) + 1);
      output := output + (delimiter + Padded(code) + delimiter);
    }
  }
}
