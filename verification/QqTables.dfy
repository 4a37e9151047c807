/** Tables: which rows come out as their cells with a separator between two of them. */
module QqTables {
  import opened QqRenderer
  import opened QqMarkers
  import opened QqContinuations
  import opened QqLinks
  import opened QqText
  import opened QqLines
  import opened QqDocuments

  // ----- Rows -----

  function Cells(cells: seq<string>): seq<Event> {
    if cells == [] then []
    else Cells(cells[..|cells| - 1]) + [Start(TableCell), Text(cells[|cells| - 1]), End(EndTableCell)]
  }

  /** A cell that does not leave the separator in front of it at the end of the row; so it is not empty. */
  predicate FullCell(cell: string) {
    OneLine(cell) && !EndsWith(" / " + cell, " / ")
  }

  predicate FullRow(cells: seq<string>) {
    cells != [] && forall k :: 0 <= k < |cells| ==> FullCell(cells[k])
  }

  /** The cells of a row that starts a line; `more` says that another cell follows the first one. */
  ghost function FirstCell(cell: string, more: bool, alnum: char -> bool): string {
    if more && Undecided(cell) then OnOpenLine(cell, false, alnum) else OnNewLine(cell, false, alnum)
  }

  ghost function RowText(cells: seq<string>, more: bool, alnum: char -> bool): string {
    if |cells| == 0 then ""
    else if |cells| == 1 then FirstCell(cells[0], more, alnum)
    else RowText(cells[..|cells| - 1], true, alnum) + " / " + OnOpenLine(cells[|cells| - 1], false, alnum)
  }

  lemma CellEnd(cell: string, t: string, alnum: char -> bool)
    requires FullCell(cell) && t in {OnOpenLine(cell, false, alnum), OnNewLine(cell, false, alnum)}
    ensures t != "" && t[|t| - 1] != '\n' && !EndsWith(" / " + t, " / ")
  {
    hide Neutralised, InlineMark, EndsWith;
    NewLineHasNoBreak(cell, false, alnum);
    EndsInSeparatorIff(" / " + cell);
    EndsInSeparatorIff(" / " + t);
    forall k | 0 <= k < |t|
      ensures t[k] in {' ', '/'} ==> cell[k] == t[k]
    {
      WideIsNoSpace(cell[k]);
    }
  }

  lemma WideIsNoSpace(c: char)
    ensures Wide(c) in {' ', '/'} ==> Wide(c) == c
  {
  }

  lemma EndsInSeparatorIff(s: string)
    ensures EndsWith(s, " / ") <==> |s| >= 3 && s[|s| - 3] == ' ' && s[|s| - 2] == '/' && s[|s| - 1] == ' '
  {
    if |s| >= 3 {
      assert s[|s| - 3..] == [s[|s| - 3], s[|s| - 2], s[|s| - 1]];
    }
  }

  /** Behind a full cell, the next one is separated. */
  lemma SeparatorFollows(before: string, cell: string, t: string, alnum: char -> bool)
    requires FullCell(cell) && t in {OnOpenLine(cell, false, alnum), OnNewLine(cell, false, alnum)}
    requires before == "" || before[|before| - 1] == '\n' || EndsWith(before, " / ")
    ensures !EndsWith(before + t, "\n") && !EndsWith(before + t, " / ")
  {
    hide OnOpenLine, OnNewLine, EndsWith, FullCell;
    CellEnd(cell, t, alnum);
    EndsWithBreak(before + t);
    EndsInSeparatorIff(before + t);
    EndsInSeparatorIff(" / " + t);
    EndsInSeparatorIff(before);
  }

  // ----- Written rows -----

  /** Inside a table row that starts a line behind earlier text. */
  ghost predicate InRow(st: State) {
    WritesText(st) && st.links == [] && st.output != ""
  }

  ghost predicate OpenRow(st: State) {
    st.prefix == "" && !EndsWith(st.output, "\n") && !EndsWith(st.output, " / ")
  }

  lemma FullIsNonEmpty(cell: string)
    requires FullCell(cell)
    ensures cell != "" && OneLine(cell)
  {
    EndsInSeparatorIff(" / " + cell);
  }

  lemma NextCellIsWritten(st: State, cell: string, alnum: char -> bool)
    requires InRow(st) && OpenRow(Flush(st, false, alnum)) && FullCell(cell)
    ensures var f := Flush(st, false, alnum);
      var r := Run(st, [Start(TableCell), Text(cell), End(EndTableCell)], alnum);
      r == f.(output := f.output + " / " + OnOpenLine(cell, false, alnum)) && OpenRow(r) && InRow(r)
  {
    hide Run, Flush, PushText, OnOpenLine, EndsWith, FullCell;
    FlushShape(st, false, alnum);
    FlushExtends(st, false, alnum);
    var f := Flush(st, false, alnum);
    RunOfThree(st, Start(TableCell), Text(cell), End(EndTableCell), alnum);
    FullIsNonEmpty(cell);
    TextBehind(f, " / ", cell, alnum);
    EndsInSeparatorIff(f.output + " / ");
    SeparatorFollows(f.output + " / ", cell, OnOpenLine(cell, false, alnum), alnum);
  }

  lemma CellStarts(st: State, alnum: char -> bool)
    requires InRow(st) && AtLineStart(st)
    ensures Step(st, Start(TableCell), alnum) == st
  {
    hide Flush, EndsWith;
    FlushNothing(st, false, alnum);
    EndsWithBreak(st.output);
  }

  lemma FirstCellIsWritten(st: State, cell: string, alnum: char -> bool)
    requires InRow(st) && AtLineStart(st) && FullCell(cell)
    ensures var r := Run(st, [Start(TableCell), Text(cell), End(EndTableCell)], alnum);
      && InRow(r)
      && Flush(r, false, alnum) == st.(output := st.output + FirstCell(cell, true, alnum))
      && Flush(r, true, alnum) == st.(output := st.output + FirstCell(cell, false, alnum))
  {
    hide Run, Flush, PushChars, FullCell, OnOpenLine, OnNewLine, Undecided, EndsWith;
    FullIsNonEmpty(cell);
    CellStarts(st, alnum);
    RunOfThree(st, Start(TableCell), Text(cell), End(EndTableCell), alnum);
    LineIsWritten(st, cell, alnum);
    EarlyFlush(st, cell, alnum);
    TextKeepsRoute(st, cell, alnum);
    PushCharsExtends(st, cell, 0, alnum);
  }

  /** A line whose start is still undecided is flushed early as plain text. */
  lemma EarlyFlush(st: State, s: string, alnum: char -> bool)
    requires WritesText(st) && AtLineStart(st) && OneLine(s) && s != ""
    ensures Flush(Step(st, Text(s), alnum), false, alnum)
         == st.(output := st.output + if Undecided(s) then OnOpenLine(s, InLabel(st), alnum)
                                      else OnNewLine(s, InLabel(st), alnum))
  {
    hide PushChars, Classify, OnNewLine, OnOpenLine, FlushedFrom, IsMarkerLine, Undecided;
    assert s[..0] == "" && s[..|s|] == s;
    LineFrom(st, st, s, 0, alnum);
    NewLineLength(s, InLabel(st), alnum);
    var w := OnNewLine(s, InLabel(st), alnum);
    assert w[..|s|] == w;
    UndecidedIff(s);
    if Undecided(s) {
      PlainFlush(s, InLabel(st), alnum);
    }
  }

  lemma PlainFlush(s: string, inLabel: bool, alnum: char -> bool)
    ensures FlushedFrom(s, 0, Pending, inLabel, alnum) == OnOpenLine(s, inLabel, alnum)
  {
    hide FlushedFrom, SafeLiteralChar, InlineMark;
    FlushedLength(s, 0, Pending, inLabel, alnum);
    forall k | 0 <= k < |s|
      ensures FlushedFrom(s, 0, Pending, inLabel, alnum)[k] == OnOpenLine(s, inLabel, alnum)[k]
    {
      FlushedAt(s, 0, Pending, inLabel, alnum, k);
      LiteralIs(s, k, inLabel, alnum);
    }
  }

  lemma {:induction false} CellsAreWritten(st: State, cells: seq<string>, alnum: char -> bool)
    requires InRow(st) && AtLineStart(st) && FullRow(cells)
    ensures var r := Run(st, Cells(cells), alnum);
      && InRow(r)
      && Flush(r, false, alnum) == st.(output := st.output + RowText(cells, true, alnum))
      && OpenRow(Flush(r, false, alnum))
      && Flush(r, true, alnum) == st.(output := st.output + RowText(cells, false, alnum))
      && OpenRow(Flush(r, true, alnum))
    decreases |cells|
  {
    hide Run, Flush, OnOpenLine, FullCell, Undecided, OnNewLine, InRow, EndsWith;
    var rest, last := cells[..|cells| - 1], cells[|cells| - 1];
    var cell := [Start(TableCell), Text(last), End(EndTableCell)];
    if rest == [] {
      assert Cells(rest) + cell == cell;
      FirstCellIsWritten(st, last, alnum);
      SeparatorFollows(st.output, last, FirstCell(last, true, alnum), alnum);
      SeparatorFollows(st.output, last, FirstCell(last, false, alnum), alnum);
    } else {
      CellsAreWritten(st, rest, alnum);
      RunAppend(st, Cells(rest), cell, alnum);
      NextCellIsWritten(Run(st, Cells(rest), alnum), last, alnum);
      var r := Run(st, Cells(cells), alnum);
      FlushNothing(r, false, alnum);
      FlushNothing(r, true, alnum);
      assert st.output + RowText(rest, true, alnum) + " / " + OnOpenLine(last, false, alnum)
          == st.output + (RowText(rest, true, alnum) + " / " + OnOpenLine(last, false, alnum));
    }
  }

  // ----- Whole tables -----

  /** The first row is the head. */
  function RowEvents(rows: seq<seq<string>>): seq<Event> {
    if |rows| == 0 then []
    else if |rows| == 1 then [Start(TableHead)] + Cells(rows[0]) + [End(EndTableHead)]
    else RowEvents(rows[..|rows| - 1]) + ([Start(TableRow)] + Cells(rows[|rows| - 1]) + [End(EndTableRow)])
  }

  ghost function RowsText(rows: seq<seq<string>>, alnum: char -> bool): string {
    if rows == [] then "" else RowsText(rows[..|rows| - 1], alnum) + RowText(rows[|rows| - 1], false, alnum) + "\n"
  }

  lemma RowStarts(st: State, head: bool, alnum: char -> bool)
    requires AtLineStart(st)
    ensures Step(st, Start(if head then TableHead else TableRow), alnum) == st
  {
    hide Flush, EnsureLineBreak;
    FlushNothing(st, false, alnum);
    BreakIsThere(st.output);
  }

  lemma RowEnds(st: State, head: bool, alnum: char -> bool)
    requires var out := Flush(st, true, alnum).output; out != "" && out[|out| - 1] != '\n'
    ensures var f := Flush(st, true, alnum);
      Step(st, End(if head then EndTableHead else EndTableRow), alnum) == f.(output := f.output + "\n")
  {
    hide Flush, EnsureLineBreak;
    BreakBehind(Flush(st, true, alnum).output);
  }

  /** A row of full cells, behind earlier text: its cells, with the separator between two of them. */
  lemma RowIsWritten(st: State, head: bool, cells: seq<string>, alnum: char -> bool)
    requires InRow(st) && AtLineStart(st) && FullRow(cells)
    ensures var (opening, closing) := if head then (TableHead, EndTableHead) else (TableRow, EndTableRow);
      Run(st, [Start(opening)] + Cells(cells) + [End(closing)], alnum)
      == st.(output := st.output + RowText(cells, false, alnum) + "\n")
  {
    hide Run, Step, Flush, RowText, FullCell, EndsWith;
    var (opening, closing) := if head then (TableHead, EndTableHead) else (TableRow, EndTableRow);
    RunAppend(st, [Start(opening)] + Cells(cells), [End(closing)], alnum);
    RunAppend(st, [Start(opening)], Cells(cells), alnum);
    RunOfOne(st, Start(opening), alnum);
    RowStarts(st, head, alnum);
    CellsAreWritten(st, cells, alnum);
    var r := Run(st, Cells(cells), alnum);
    RunOfOne(r, End(closing), alnum);
    EndsWithBreak(Flush(r, true, alnum).output);
    FlushExtends(st, true, alnum);
    RowEnds(r, head, alnum);
  }

  lemma RowGrows(out: string, before: string, t: string)
    requires t != "" && t[|t| - 1] != '\n'
    ensures RowsEnd(before + t + "\n")
    ensures out + before + t + "\n" == out + (before + t + "\n")
  {
  }

  lemma BehindRows(st: State, before: string)
    requires Between(st) && st.output != ""
    ensures InRow(st) && AtLineStart(st)
    ensures RowsEnd(before) ==> var now := st.(output := st.output + before); InRow(now) && AtLineStart(now)
  {
  }

  lemma NextRow(st: State, before: string, cells: seq<string>, alnum: char -> bool)
    requires Between(st) && st.output != "" && RowsEnd(before) && FullRow(cells)
    ensures var (now, text) := (st.(output := st.output + before), RowText(cells, false, alnum));
      Run(now, [Start(TableRow)] + Cells(cells) + [End(EndTableRow)], alnum)
      == st.(output := st.output + (before + text + "\n"))
    ensures RowsEnd(before + RowText(cells, false, alnum) + "\n")
  {
    hide Run, RowText, FullRow, Cells, Between, RowsEnd, InRow, AtLineStart;
    BehindRows(st, before);
    LastRowEnd(cells, alnum);
    RowIsWritten(st.(output := st.output + before), false, cells, alnum);
    RowGrows(st.output, before, RowText(cells, false, alnum));
  }

  lemma FirstRow(st: State, cells: seq<string>, alnum: char -> bool)
    requires Between(st) && st.output != "" && FullRow(cells)
    ensures Run(st, [Start(TableHead)] + Cells(cells) + [End(EndTableHead)], alnum)
         == st.(output := st.output + ("" + RowText(cells, false, alnum) + "\n"))
    ensures RowsEnd("" + RowText(cells, false, alnum) + "\n")
  {
    hide Run, RowText, FullRow, Cells, Between, RowsEnd, InRow, AtLineStart;
    BehindRows(st, "");
    LastRowEnd(cells, alnum);
    RowIsWritten(st, true, cells, alnum);
    RowGrows(st.output, "", RowText(cells, false, alnum));
    assert st.output + "" == st.output;
  }

  lemma {:induction false} RowsAreWritten(st: State, rows: seq<seq<string>>, alnum: char -> bool)
    requires Between(st) && st.output != "" && rows != []
    requires forall j :: 0 <= j < |rows| ==> FullRow(rows[j])
    ensures Run(st, RowEvents(rows), alnum) == st.(output := st.output + RowsText(rows, alnum))
    ensures RowsEnd(RowsText(rows, alnum))
    decreases |rows|
  {
    hide Run, Step, RowText, FullRow, Cells, Between, RowsEnd;
    var rest, last := rows[..|rows| - 1], rows[|rows| - 1];
    if rest == [] {
      FirstRow(st, last, alnum);
    } else {
      RowsAreWritten(st, rest, alnum);
      RunAppend(st, RowEvents(rest), [Start(TableRow)] + Cells(last) + [End(EndTableRow)], alnum);
      NextRow(st, RowsText(rest, alnum), last, alnum);
    }
  }

  ghost predicate RowsEnd(t: string) {
    |t| >= 2 && t[|t| - 1] == '\n' && t[|t| - 2] != '\n'
  }

  lemma LastRowEnd(cells: seq<string>, alnum: char -> bool)
    requires FullRow(cells)
    ensures var t := RowText(cells, false, alnum); t != "" && t[|t| - 1] != '\n'
  {
    hide FullCell, OnOpenLine, OnNewLine, Undecided, EndsWith;
    var last := cells[|cells| - 1];
    CellEnd(last, OnOpenLine(last, false, alnum), alnum);
    CellEnd(last, OnNewLine(last, false, alnum), alnum);
  }

  lemma TableEdges(st: State, text: string, alnum: char -> bool)
    requires Between(st) && RowsEnd(text)
    ensures Step(st, Start(Table), alnum) == st
    ensures Step(st.(output := st.output + text), End(EndTable), alnum) == st.(output := st.output + text + "\n")
  {
    hide EnsureParagraphBreak, PushParagraphBreak;
    NoBreakNeeded(st);
    BreakBehind(st.output + text);
  }

  /**
   A table of full cells behind other blocks is written row by row, the cells of a row with the
   separator between two of them, and a blank line behind the last row.
   */
  lemma TableIsWritten(st: State, rows: seq<seq<string>>, alnum: char -> bool)
    requires Between(st) && st.output != "" && rows != []
    requires forall j :: 0 <= j < |rows| ==> FullRow(rows[j])
    ensures Run(st, [Start(Table)] + RowEvents(rows) + [End(EndTable)], alnum)
         == st.(output := st.output + RowsText(rows, alnum) + "\n")
  {
    hide Run, Step, RowEvents, RowsText, FullRow, RowsEnd, Between;
    RunAppend(st, [Start(Table)] + RowEvents(rows), [End(EndTable)], alnum);
    RunAppend(st, [Start(Table)], RowEvents(rows), alnum);
    RunOfOne(st, Start(Table), alnum);
    RowsAreWritten(st, rows, alnum);
    TableEdges(st, RowsText(rows, alnum), alnum);
    RunOfOne(Run(st, RowEvents(rows), alnum), End(EndTable), alnum);
  }

  // ----- Where rows do not come out so -----

  /** An empty cell leaves no trace unless it is the last one: the next cell takes its place. */
  lemma EmptyCellIsDropped(st: State, alnum: char -> bool)
    requires WritesText(st)
    ensures Run(st, [Start(TableCell), Text(""), End(EndTableCell), Start(TableCell)], alnum)
         == Run(st, [Start(TableCell)], alnum)
  {
    hide Run, Flush;
    var first := Step(st, Start(TableCell), alnum);
    assert [Start(TableCell), Text(""), End(EndTableCell), Start(TableCell)]
        == [Start(TableCell), Text(""), End(EndTableCell)] + [Start(TableCell)];
    RunAppend(st, [Start(TableCell), Text(""), End(EndTableCell)], [Start(TableCell)], alnum);
    RunOfThree(st, Start(TableCell), Text(""), End(EndTableCell), alnum);
    FlushShape(st, false, alnum);
    RunOfOne(st, Start(TableCell), alnum);
    RunOfOne(first, Start(TableCell), alnum);
    FlushNothing(first, false, alnum);
    var f := Flush(st, false, alnum);
    EndsInSeparatorIff(f.output + " / ");
  }

  /** The first cell of a table gets a separator in front of it exactly when nothing is written yet. */
  lemma TableStartsWithSeparatorIff(st: State, alnum: char -> bool)
    requires Between(st)
    ensures Run(st, [Start(Table), Start(TableHead), Start(TableCell)], alnum)
         == st.(output := if st.output == "" then " / " else st.output)
  {
    hide Run, Flush, EnsureParagraphBreak;
    NoBreakNeeded(st);
    FlushNothing(st, false, alnum);
    RunOfThree(st, Start(Table), Start(TableHead), Start(TableCell), alnum);
    EndsWithBreak(st.output);
    BreakIsThere(st.output);
    assert "" + " / " == " / ";
  }
}
