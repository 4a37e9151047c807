/**
 The markup the renderer writes for lists, headings and tasks, over whole lists with any content.
 */
module QqLists {
  import opened Wrappers
  import opened Characters
  import opened InlineEscape
  import opened CodeMarkup
  import opened QqRenderer
  import opened QqMarkers
  import opened QqContinuations
  import opened QqLinks
  import Decimal

  function Spaces(n: nat): string {
    seq(n, _ => ' ')
  }

  /** `after` is `before` with more text, ending in a new line that consists of `line`. */
  ghost predicate OpensLine(before: string, after: string, line: string) {
    exists cut: nat ::
      cut <= |after| && before <= after[..cut] && (cut == 0 || after[cut - 1] == '\n') && after[cut..] == line
  }

  lemma {:induction false} IndentIsSpaces(n: nat)
    ensures Indent(n) == Spaces(2 * n)
  {
    if n > 0 {
      IndentIsSpaces(n - 1);
    }
  }

  // ----- The lists that are open -----

  /** Lists open and close in pairs within the events, and items stand within lists. */
  ghost predicate ListsNested(es: seq<Event>, depth: nat)
    decreases |es|
  {
    if es == [] then depth == 0
    else if es[0].Start? && es[0].tag.List? then ListsNested(es[1..], depth + 1)
    else if es[0] == End(EndList) then depth > 0 && ListsNested(es[1..], depth - 1)
    else if es[0] == Start(Item) then depth > 0 && ListsNested(es[1..], depth)
    else ListsNested(es[1..], depth)
  }

  /** Only a list's own tags and its items touch the open lists. */
  lemma OtherStepsKeepLists(st: State, e: Event, alnum: char -> bool)
    requires !(e.Start? && e.tag.List?) && e != End(EndList) && e != Start(Item)
    ensures Step(st, e, alnum).lists == st.lists
  {
    hide PushText, Flush, EnsureLineBreak, PushParagraphBreak, EnsureParagraphBreak, Trim, InlineCode, FencedBlock,
      SanitizeLinkDestination, FilterLanguage, HeadingPrefix;
    FlushShape(st, true, alnum);
    FlushShape(st, false, alnum);
    PushTextKeepsItems(st, if e.Text? then e.text else if e.Math? then e.math else if e.Code? then e.code else "", alnum);
    if e.Code? {
      PushTextKeepsItems(Flush(st, false, alnum), e.code, alnum);
    }
    if e == End(EndImage) && st.images != [] {
      var last := |st.images| - 1;
      PushTextKeepsItems(st.(images := st.images[..last]), Trim(st.images[last]), alnum);
    }
  }

  lemma ListStepsKeepOuter(st: State, e: Event, outer: seq<Option<nat>>, alnum: char -> bool)
    requires |st.lists| >= |outer| && st.lists[..|outer|] == outer
    ensures var r := Step(st, e, alnum).lists;
      && (e.Start? && e.tag.List? ==> r == st.lists + [e.tag.start])
      && (e == End(EndList) && |st.lists| > |outer| ==> r == st.lists[..|st.lists| - 1])
      && (e == Start(Item) && |st.lists| > |outer| ==> |r| == |st.lists| && r[..|outer|] == outer)
  {
    hide Flush, EnsureLineBreak, EnsureParagraphBreak, PushParagraphBreak, Indent;
    FlushShape(st, false, alnum);
  }

  /** Whatever stands in an item, the lists around it are as before once it is over. */
  lemma {:induction false} NestedRunKeepsLists(st: State, es: seq<Event>, outer: seq<Option<nat>>, depth: nat,
      alnum: char -> bool)
    requires |st.lists| == |outer| + depth && st.lists[..|outer|] == outer && ListsNested(es, depth)
    ensures Run(st, es, alnum).lists == outer
    decreases |es|
  {
    hide Step;
    if es != [] {
      var r := Step(st, es[0], alnum);
      ListStepsKeepOuter(st, es[0], outer, alnum);
      if es[0].Start? && es[0].tag.List? {
        NestedRunKeepsLists(r, es[1..], outer, depth + 1, alnum);
      } else if es[0] == End(EndList) {
        NestedRunKeepsLists(r, es[1..], outer, depth - 1, alnum);
      } else {
        if es[0] != Start(Item) {
          OtherStepsKeepLists(st, es[0], alnum);
        }
        NestedRunKeepsLists(r, es[1..], outer, depth, alnum);
      }
    } else {
      assert st.lists == st.lists[..|outer|];
    }
  }

  // ----- One item -----

  /** The marker of item `k` of a list: its number, counted from the list's first one, or a dash. */
  function ItemMarker(first: Option<nat>, k: nat): string {
    match first
    case Some(n) => Decimal.Print(n + k) + ". "
    case None => "- "
  }

  function Counted(first: Option<nat>, k: nat): Option<nat> {
    match first
    case Some(n) => Some(n + k)
    case None => None
  }

  lemma BreakOpensLine(before: string, line: string)
    ensures OpensLine(before, EnsureLineBreak(before) + line, line)
  {
    var out := EnsureLineBreak(before);
    BreaksExtend(before);
    EndsWithBreak(before);
    assert (out + line)[..|out|] == out && (out + line)[|out|..] == line;
  }

  lemma OpensLineFrom(a: string, b: string, after: string, line: string)
    requires a <= b && OpensLine(b, after, line)
    ensures OpensLine(a, after, line)
  {
  }

  lemma MarkerBehind(before: string, indent: string, first: Option<nat>, k: nat)
    ensures first.Some? ==>
              before + indent + Decimal.Print(first.value + k) + ". " == before + (indent + ItemMarker(first, k))
    ensures first.None? ==> before + indent + "- " == before + (indent + ItemMarker(first, k))
  {
    if first.Some? {
      assert before + indent + Decimal.Print(first.value + k) + ". "
          == before + (indent + (Decimal.Print(first.value + k) + ". "));
    }
  }

  lemma ItemIsWritten(st: State, outer: seq<Option<nat>>, first: Option<nat>, k: nat, alnum: char -> bool)
    requires st.lists == outer + [Counted(first, k)]
    ensures var r := Step(st, Start(Item), alnum);
      && r.lists == outer + [Counted(first, k + 1)]
      && OpensLine(st.output, r.output, Spaces(2 * |outer|) + ItemMarker(first, k))
  {
    hide Flush, EnsureLineBreak, Indent, OpensLine, Spaces;
    var f := Flush(st, false, alnum);
    FlushShape(st, false, alnum);
    FlushExtends(st, false, alnum);
    IndentIsSpaces(|outer|);
    var line := Spaces(2 * |outer|) + ItemMarker(first, k);
    var broken := EnsureLineBreak(f.output);
    BreakOpensLine(f.output, line);
    OpensLineFrom(st.output, f.output, broken + line, line);
    MarkerBehind(broken, Spaces(2 * |outer|), first, k);
  }

  // ----- Whole lists -----

  function Items(contents: seq<seq<Event>>): seq<Event> {
    if contents == [] then []
    else Items(contents[..|contents| - 1]) + ([Start(Item)] + contents[|contents| - 1] + [End(EndItem)])
  }

  /** The lists that are open after the first `k` items. */
  lemma {:induction false} AfterItems(st: State, first: Option<nat>, contents: seq<seq<Event>>, alnum: char -> bool)
    requires forall j :: 0 <= j < |contents| ==> ListsNested(contents[j], 0)
    ensures Run(st, [Start(List(first))] + Items(contents), alnum).lists == st.lists + [Counted(first, |contents|)]
    decreases |contents|
  {
    hide Run, Step, ListsNested;
    var opening := [Start(List(first))];
    if contents == [] {
      assert opening + [] == opening;
      RunOfOne(st, opening[0], alnum);
      ListStepsKeepOuter(st, opening[0], [], alnum);
    } else {
      var rest, content := contents[..|contents| - 1], contents[|contents| - 1];
      AfterItems(st, first, rest, alnum);
      var before := Run(st, opening + Items(rest), alnum);
      var item := [Start(Item)] + content + [End(EndItem)];
      assert opening + Items(contents) == opening + Items(rest) + item;
      RunAppend(st, opening + Items(rest), item, alnum);
      ItemKeepsLists(before, st.lists, first, |rest|, content, alnum);
    }
  }

  lemma ItemKeepsLists(st: State, outer: seq<Option<nat>>, first: Option<nat>, k: nat, content: seq<Event>,
      alnum: char -> bool)
    requires st.lists == outer + [Counted(first, k)] && ListsNested(content, 0)
    ensures Run(st, [Start(Item)] + content + [End(EndItem)], alnum).lists == outer + [Counted(first, k + 1)]
  {
    hide Run, Step, ListsNested;
    var item := Step(st, Start(Item), alnum);
    ItemIsWritten(st, outer, first, k, alnum);
    RunAppend(st, [Start(Item)] + content, [End(EndItem)], alnum);
    RunAppend(st, [Start(Item)], content, alnum);
    RunOfOne(st, Start(Item), alnum);
    NestedRunKeepsLists(item, content, item.lists, 0, alnum);
    RunOfOne(Run(item, content, alnum), End(EndItem), alnum);
    OtherStepsKeepLists(Run(item, content, alnum), End(EndItem), alnum);
  }

  /**
   Item `k` of a list, whatever its items hold, opens a line that consists of two spaces for every
   list around it and its marker: the number counted on from the list's first one, or a dash.
   */
  lemma ItemsAreNumbered(st: State, first: Option<nat>, contents: seq<seq<Event>>, k: nat, alnum: char -> bool)
    requires k < |contents| && forall j :: 0 <= j < |contents| ==> ListsNested(contents[j], 0)
    ensures var before := Run(st, [Start(List(first))] + Items(contents[..k]), alnum);
      OpensLine(before.output, Step(before, Start(Item), alnum).output,
                Spaces(2 * |st.lists|)
                + match first case Some(n) => Decimal.Print(n + k) + ". " case None => "- ")
  {
    hide Run, Step, ListsNested, OpensLine;
    AfterItems(st, first, contents[..k], alnum);
    ItemIsWritten(Run(st, [Start(List(first))] + Items(contents[..k]), alnum), st.lists, first, k, alnum);
  }

  /**
   Once a list is over, the lists around it and their numbers are as before it; the end of a list
   within another one writes nothing, and that of an outermost one ends the paragraph.
   */
  lemma ListIsClosed(st: State, first: Option<nat>, contents: seq<seq<Event>>, alnum: char -> bool)
    requires forall j :: 0 <= j < |contents| ==> ListsNested(contents[j], 0)
    ensures var before := Run(st, [Start(List(first))] + Items(contents), alnum);
      var r := Run(st, [Start(List(first))] + Items(contents) + [End(EndList)], alnum);
      && r.lists == st.lists
      && (st.lists != [] ==> r.output == before.output)
      && (st.lists == [] ==> EndsParagraph(before.output, r.output))
  {
    hide Run, Step, ListsNested, EndsParagraph;
    AfterItems(st, first, contents, alnum);
    var before := Run(st, [Start(List(first))] + Items(contents), alnum);
    RunAppend(st, [Start(List(first))] + Items(contents), [End(EndList)], alnum);
    RunOfOne(before, End(EndList), alnum);
    ListStepsKeepOuter(before, End(EndList), st.lists, alnum);
    ListEnds(before, alnum);
  }

  /** `after` is `before` with the line feeds that it lacks to end in two of them, or be one alone. */
  ghost predicate EndsParagraph(before: string, after: string) {
    && before <= after <= before + "\n\n"
    && (|after| > |before| + 1 ==> before != "" && before[|before| - 1] != '\n')
    && (after == "\n" || (|after| >= 2 && after[|after| - 2] == '\n' && after[|after| - 1] == '\n'))
  }

  lemma ListEnds(st: State, alnum: char -> bool)
    requires st.lists != []
    ensures var r := Step(st, End(EndList), alnum).output;
      (|st.lists| > 1 ==> r == st.output) && (|st.lists| == 1 ==> EndsParagraph(st.output, r))
  {
    hide Flush, EnsureLineBreak;
    ParagraphBreakShape(st.output);
    BreaksExtend(st.output);
    BreakIsShort(st.output);
  }

  lemma BreakIsShort(s: string)
    ensures PushParagraphBreak(s) <= s + "\n\n"
    ensures |PushParagraphBreak(s)| > |s| + 1 ==> s != "" && s[|s| - 1] != '\n'
  {
    EndsWithBreak(s);
    assert s + "\n" + "\n" == s + "\n\n";
  }

  // ----- Headings and tasks -----

  /** A heading opens a line with one, two or, for every deeper level, three hashes. */
  lemma HeadingIsWritten(st: State, level: nat, alnum: char -> bool)
    ensures var line := if level == 1 then "# " else if level == 2 then "## " else "### ";
      var r := Step(st, Start(Heading(level)), alnum);
      && OpensLine(st.output, r.output, line)
      && (|r.output| == |line| || EndsWith(r.output, "\n\n" + line))
  {
    hide Flush, OpensLine, EnsureParagraphBreak, EndsWith;
    var line := if level == 1 then "# " else if level == 2 then "## " else "### ";
    var f := Flush(st, false, alnum);
    FlushShape(st, false, alnum);
    FlushExtends(st, false, alnum);
    ParagraphOpensLine(f.output, line);
    OpensLineFrom(st.output, f.output, EnsureParagraphBreak(f.output) + line, line);
    assert EnsureParagraphBreak(f.output) + HeadingPrefix(level) + " " == EnsureParagraphBreak(f.output) + line;
  }

  /** A paragraph break leaves nothing, or text that ends in two line feeds. */
  lemma ParagraphBreakShape(s: string)
    ensures var out := EnsureParagraphBreak(s);
      out == "" || (|out| >= 2 && out[|out| - 2] == '\n' && out[|out| - 1] == '\n')
    ensures var out := PushParagraphBreak(s);
      out == "\n" || (|out| >= 2 && out[|out| - 2] == '\n' && out[|out| - 1] == '\n')
  {
    EndsWithBreak(s);
    if EndsWith(s, "\n\n") {
      assert s[|s| - 2] == s[|s| - 2..][0] && s[|s| - 1] == s[|s| - 2..][1];
    }
  }

  lemma ParagraphOpensLine(before: string, line: string)
    ensures var after := EnsureParagraphBreak(before) + line;
      OpensLine(before, after, line) && (|after| == |line| || EndsWith(after, "\n\n" + line))
  {
    hide EnsureParagraphBreak;
    var out := EnsureParagraphBreak(before);
    BreaksExtend(before);
    ParagraphBreakShape(before);
    assert (out + line)[..|out|] == out && (out + line)[|out|..] == line;
    if out != "" {
      assert out[|out| - 2..] == "\n\n";
      assert (out + line)[|out| - 2..] == out[|out| - 2..] + line;
    }
  }

  /** A task marker: a filled or an empty box, and a space. */
  lemma TaskIsWritten(st: State, checked: bool, alnum: char -> bool)
    ensures Step(st, TaskListMarker(checked), alnum).output
         == Flush(st, false, alnum).output + if checked then "[x] " else "[ ] "
  {
  }

  // ----- Items and paragraphs -----

  /** Items open and close in pairs within the events, starting with `depth` of them open. */
  ghost predicate ItemsNested(es: seq<Event>, depth: nat)
    decreases |es|
  {
    if es == [] then depth == 0
    else if es[0] == Start(Item) then ItemsNested(es[1..], depth + 1)
    else if es[0] == End(EndItem) then depth > 0 && ItemsNested(es[1..], depth - 1)
    else ItemsNested(es[1..], depth)
  }

  lemma StepKeepsItems(st: State, e: Event, alnum: char -> bool)
    ensures Step(st, e, alnum).inItem
         == if e == Start(Item) then st.inItem + 1
            else if e == End(EndItem) && st.inItem > 0 then st.inItem - 1 else st.inItem
  {
    hide PushText, Flush, EnsureLineBreak, PushParagraphBreak, EnsureParagraphBreak, Trim, InlineCode, FencedBlock,
      SanitizeLinkDestination, FilterLanguage, HeadingPrefix, Indent;
    FlushShape(st, true, alnum);
    FlushShape(st, false, alnum);
    PushTextKeepsItems(st, if e.Text? then e.text else if e.Math? then e.math else if e.Code? then e.code else "", alnum);
    if e.Code? {
      PushTextKeepsItems(Flush(st, false, alnum), e.code, alnum);
    }
    if e == End(EndImage) && st.images != [] {
      var last := |st.images| - 1;
      PushTextKeepsItems(st.(images := st.images[..last]), Trim(st.images[last]), alnum);
    }
  }

  /** The renderer counts the items that are open. */
  lemma {:induction false} OpenItemsAreCounted(st: State, es: seq<Event>, depth: nat, alnum: char -> bool)
    requires ItemsNested(es, depth) && st.inItem >= depth
    ensures Run(st, es, alnum).inItem == st.inItem - depth
    decreases |es|
  {
    hide Step;
    if es != [] {
      StepKeepsItems(st, es[0], alnum);
      var r := Step(st, es[0], alnum);
      if es[0] == Start(Item) {
        OpenItemsAreCounted(r, es[1..], depth + 1, alnum);
      } else if es[0] == End(EndItem) {
        OpenItemsAreCounted(r, es[1..], depth - 1, alnum);
      } else {
        OpenItemsAreCounted(r, es[1..], depth, alnum);
      }
    }
  }
}
