# Verified model of the QQ maid bot's core

A Dafny model of the parts of the bot where a small mistake silently corrupts a message, a schedule, a stream or a stored
setting, with proofs of what those parts promise. `dafny verify dfyconfig.toml` checks everything.

Code that the program writes as a loop or as an object with fields is a method or a class here, proved equal to a specification
function; the results below are then lemmas about that function, for all inputs, runs or reachable states. Expressions and
recursion in the program are functions here. Text is a sequence of Unicode scalar values, bytes are bytes, integers are unbounded
except where the program checks for overflow, and there the checks are written out.

| files | models |
|---|---|
| `Positions`, `LinkScan` | the Markdown link scanner and the truncation that must not cut a link |
| `Backticks`, `BacktickPairs` | escaping of backtick runs that no later run closes, and the pairing rule by position |
| `InlineEscape` | escaping of dynamic text and building of links |
| `CodeMarkup` | printing of inline code and fenced blocks, with readers for sections 6.1 and 4.5 of CommonMark 0.31.2 |
| `QqRenderer`, `QqMarkers`, `QqContinuations` | the event-driven QQ renderer, its line-start guard, and why the guard is exact |
| `QqLinks`, `QqLinkMarkers`, `QqLinkBreaks` | the renderer's links: what their labels show, when they leave a line start unguarded, when their line breaks keep their place |
| `QqText`, `QqDecisions`, `QqLines` | what becomes of text: its characters, what the line-start classifier means, the exact text of a line |
| `QqLists`, `QqDocuments`, `QqTables` | list numbering and the exact output for documents of plain blocks and for tables |
| `QqSight`, `QqBlocks`, `QqTextRuns` | whole runs with lists, headings, tables and code blocks: when text stays text |
| `Calendar`, `Recurrence` | Gregorian dates, month arithmetic, the search for the next occurrence and its closed form |
| `SseFraming`, `Utf8` | incremental framing of server-sent events and the reading of one frame, with an encoder for its byte tests |
| `JsonText`, `ToolOutput` | a reader for RFC 8259 texts and the bounded wrapper around tool output |
| `CanonicalJson`, `ToolRegistry` | canonical JSON and the tool registry with its schema list |
| `ConfigMigration`, `MigrationActions`, `MigrationRerun`, `MigrationRuns` | the two-phase import of dotenv settings: one run, its exact decisions, repeated runs, concurrent runs |
| `TokenCache` | the access token cache under concurrent callers |
| `ScopeKeys` | the keys that isolate conversations and interactions |

`Wrappers`, `Characters`, `Numbers` and `Decimal` hold what these share.

## What the code does not promise

Each point is stated with its exact condition or with a concrete input.

- Truncation can cut a link whose text or target contains a newline (`LinkScan.LinkWithNewlineIsCut`). It cuts none exactly when
  the list line it may fall back to starts outside every link (`LinkScan.TruncationCutsNoLinkIff`).
- In runs of text events no line can become a block marker (`QqMarkers.NoMarkerIsReactivated`). With other events in the run,
  some can; the next points say which.
- Two kinds of link let later text complete a block marker: an accepted link that shows nothing after a pending line start
  (`QqLinkMarkers.EmptyLinkReactivatesAMarker`), and a rejected one that brings inline code to an undecided line start
  (`QqLinkMarkers.RejectedLinkReactivatesAMarker`). `QqLinkMarkers.Harmless` is the exact condition, on the state before the link and
  its content, with images in and around the link counted; over runs of text events and links it is necessary and sufficient
  (`QqLinkMarkers.RunsAreMarkerFreeIff`).
- Block tags release a held-back line start unchanged. A tag that then ends the line makes a marker of `#`, `===` or `1.`
  (`QqTextRuns.NestedListReactivatesAMarker`), a table cell one of `-` or `1.` (`QqTextRuns.CellReactivatesAMarker`), and the end of a
  paragraph in a list item leaves `1` open for the next paragraph (`QqTextRuns.ParagraphReactivatesAMarker`). `QqBlocks.BlockHarmless`
  and `QqBlocks.ParagraphHarmless` are the exact conditions, on the open line before the tag; over whole runs of text, links and
  block tags they are, with the one for links, necessary and sufficient (`QqTextRuns.TextStaysTextIff`).
- A line break in a rejected link is written ahead of a line start that is still held back
  (`QqLinkBreaks.BreakOvertakesLineStart`), exactly under `QqLinkBreaks.BreakOvertakes`, a condition on the state before the link and
  its content (`QqLinkBreaks.EveryLinkKeepsItsBreaksIff`).
- A complete fenced block is left unchanged when it holds no carriage return (`BacktickPairs.FencedBlockStays`). One whose longer
  closing fence has a carriage return behind it is escaped (`BacktickPairs.CarriageReturnBreaksTheBlock`); in general the two fences
  pair exactly when line feeds delimit the closing line or they pair as a code span would (`BacktickPairs.BlockIsOnePairIff`).
- A table that comes first gets a separator in front of its first cell (`QqTables.TableStartsWithSeparatorIff`), and an empty cell
  that another one follows leaves no trace, so later cells move up (`QqTables.EmptyCellIsDropped`). Other tables come out as their
  cells with separators (`QqTables.TableIsWritten`).
- A built or rendered link is one link for the scanner only when the parentheses of its destination balance
  (`InlineEscape.LinkIsOneSpanIff`, `QqLinks.WrittenLinkIsOneSpanIff`); `http://a)` is a destination for which it is not
  (`InlineEscape.UnbalancedDestinationBreaksTheLink`).
- Blank or multi-line inline code is not read back (`CodeMarkup.InlineCodeRoundTripIff`).
- Shifting month by month can end on an earlier day than one shift (`Calendar.RepeatedShiftAgainstDirect`), from 31 January for
  example (`Calendar.MonthEndIsLostOnTheWay`).
- The closed day formula does not check that its result is representable; the search does (`Recurrence.ClosedFormIsTheDateSearch`,
  and on the last day `Recurrence.ClosedFormPassesTheLastDay`).
- A migration whose dotenv files hold a masking placeholder for a secret, or a secret that the console may not edit, imports the
  public values and then fails, every time (`MigrationRerun.ApplySucceedsIff`, with an example in `MigrationRerun.MaskedSecretFails`).
- A caller that waits for the token lock longer than the margin can be handed an expired token, because freshness is judged by the
  time its call began; for every margin and every bound on the wait this is exact (`TokenCache.WaitsGetLiveTokensIff`).
- A conversation with no colon in platform, account and type shares its key with another one exactly when its target holds a colon
  with no white space next to it (`ScopeKeys.KeyIsSharedIff`). With any type, but still no colon in platform
  and account, exactly when type or target holds such a colon, one that is the whole type excepted (`ScopeKeys.KeyIsSharedForAnyTypeIff`). A target continued by `:actor:` and a name shares its
  interaction key with that actor (`ScopeKeys.InteractionKeysCollideIff`).
- A server-sent value that starts with white space loses it (`SseFraming.PrintedEventIsReadIff`).

## Model

| member | source | states |
|---|---|---|
| LinkScan.GroupEndMeaning | qq-maid-common/src/text.rs:137-174 | the bracket scan stops at the one unescaped delimiter where nesting first returns to zero, and only there |
| LinkScan.LinkEndMeaning | qq-maid-common/src/text.rs:137-174 | a link end is reported exactly when a label group is followed at once by a target group, and it is the only possible end |
| LinkScan.FindGroupEnd | qq-maid-common/src/text.rs:137-174 | the cursor-and-depth loop computes the specified group end |
| LinkScan.MarkdownLinkEnd | qq-maid-common/src/text.rs:137-174 | the scan from a bracket computes the specified link end |
| LinkScan.MarkdownLinkSpans | qq-maid-common/src/text.rs:119-134 | the scanning loop lists the specified spans |
| LinkScan.SpansAreExactlyTheOuterLinks | qq-maid-common/src/text.rs:119-134 | the spans are exactly the links that start outside every earlier span |
| Positions.ComputeIsEscaped | qq-maid-common/src/text.rs:176-184 | counting backslashes backwards decides whether a character is escaped |
| LinkScan.TruncateMarkdownPrefix | qq-maid-common/src/text.rs:88-109 | the loop that lowers the cut reaches the specified cut and returns the trimmed prefix |
| LinkScan.SpansOfPrefix | qq-maid-common/src/text.rs:119-134 | scanning a prefix that ends inside no link finds exactly the links that end by then |
| LinkScan.TruncationCutsNoLinkIff | qq-maid-common/src/text.rs:88-109 | the cut falls inside no link if and only if the list line it may fall back to starts outside every link |
| LinkScan.TruncationKeepsWholeLinks | qq-maid-common/src/text.rs:88-109 | the returned text then holds exactly the links of the full text that end by the cut |
| LinkScan.SingleLineLinksAreNeverCut | qq-maid-common/src/text.rs:88-109 | with no newline inside a link both hold at every limit |
| LinkScan.CutPosition | qq-maid-common/src/text.rs:88-109 | the cut is `limit - 1`, or the start of the one link holding it, or the start of that link's line exactly when only blanks and the characters `-`, `*`, `+`, `.`, `)` and digits stand before the link |
| LinkScan.UncutTextKeepsAllLinks | qq-maid-common/src/text.rs:88-109 | text within the limit keeps all its links through trimming |
| LinkScan.LinkWithNewlineIsCut | qq-maid-common/src/text.rs:187-200 | the list-marker rewind moves the cut into a link that contains a newline |
| Backticks.CollectBacktickRuns | qq-maid-common/src/markdown/backticks.rs:69-105 | the loop collects the maximal unescaped runs with their indentation and suffix flags |
| Backticks.EscapeUnclosedBackticks | qq-maid-common/src/markdown/backticks.rs:16-67 | the pairing loop and the copying loop compute the specified rewrite |
| Backticks.RunsOfRewrite | qq-maid-common/src/markdown/backticks.rs:16-105 | scanning the rewritten text finds the kept runs, moved, with the same flags, and only escaped single backticks for the others |
| Backticks.EscapedTextIsClosed | qq-maid-common/src/markdown/backticks.rs:16-105 | after one pass every run belongs to a pair and each pair encloses the same text as before |
| Backticks.EscapingIsIdempotent | qq-maid-common/src/markdown/backticks.rs:16-67 | a second pass changes nothing, and a first pass changes nothing if and only if every run was closed |
| Backticks.OnlyBackslashesAreInserted | qq-maid-common/src/markdown/backticks.rs:16-67 | deleting the inserted backslashes gives the text back |
| BacktickPairs.RunsAreExactly | qq-maid-common/src/markdown/backticks.rs:69-105 | the collected runs are exactly the maximal stretches of backticks, in order, each with the indentation, escape and suffix that its place in the text gives it |
| BacktickPairs.ClosingIsByPosition | qq-maid-common/src/markdown/backticks.rs:26-41 | an opener of at least three backticks, indented at most three, is closed by the first later unescaped run that is as long, so indented and blank behind; failing that, and for every other opener, by the first later unescaped run of equal length; and by none exactly when there is no such run |
| BacktickPairs.PairingIsByPosition | qq-maid-common/src/markdown/backticks.rs:16-67 | the pass goes from opener to closer to the next run behind it; the runs it escapes are exactly those left over |
| BacktickPairs.FencedBlockStays | qq-maid-common/src/markdown/backticks.rs:16-67 | every whole text without a carriage return that section 4.5 of CommonMark 0.31.2 reads as one fenced block is left unchanged |
| BacktickPairs.BlockIsOnePairIff | qq-maid-common/src/markdown/backticks.rs:16-105 | for every such block, carriage returns included, the fences are the only pair if and only if line feeds delimit the closing line or the fences pair as a code span would |
| BacktickPairs.CarriageReturnBreaksTheBlock | qq-maid-common/src/markdown/backticks.rs:88-100 | a longer closing fence with a carriage return behind it: a complete block, and the pass escapes its fences |
| InlineEscape.EscapeInline | qq-maid-common/src/markdown/mod.rs:27-53 | the escaping loop produces the escaped single-line text |
| InlineEscape.UnescapeInvertsEscape | qq-maid-common/src/markdown/mod.rs:27-53 | undoing backslash escapes by section 2.4 of CommonMark 0.31.2 gives the text back |
| InlineEscape.ExactlyMarkupIsEscaped | qq-maid-common/src/markdown/mod.rs:27-53 | in the output each of the fifteen listed characters other than the backslash stands escaped and every other one unescaped, and the length grows by exactly the number of listed characters, backslashes counted |
| InlineEscape.SingleLineShows | qq-maid-common/src/markdown/mod.rs:27-53 | before escaping, the trimmed text keeps every character but line feeds and carriage returns, which become spaces |
| InlineEscape.SanitizeMeaning | qq-maid-common/src/markdown/mod.rs:73-83 | a destination is accepted exactly when, trimmed, it starts with `http://` or `https://` in either case and holds no line break and no angle bracket |
| InlineEscape.EscapedInlineIsInert | qq-maid-common/src/markdown/mod.rs:27-53 | in escaped text the link scanner finds nothing, the backtick pass changes nothing, and the text is recoverable |
| InlineEscape.LinkIsOneSpanIff | qq-maid-common/src/markdown/mod.rs:66-83 | a built link is scanned as one span over the whole string if and only if the destination's parentheses balance |
| InlineEscape.UnbalancedDestinationBreaksTheLink | qq-maid-common/src/markdown/mod.rs:66-83 | with the destination `http://a)` no text gives a link that is scanned as one span |
| InlineEscape.LinkWithoutDestinationIsInert | qq-maid-common/src/markdown/mod.rs:66-83 | without a usable destination only inert, recoverable text is left |
| CodeMarkup.InlineCodeRoundTrip | qq-maid-common/src/markdown/qq.rs:408-429 | printed one-line code with something visible is read back unchanged in any context that does not go on with a backtick |
| CodeMarkup.InlineCodeRoundTripIff | qq-maid-common/src/markdown/qq.rs:408-429 | on its own it is read back if and only if it is one line and not blank |
| CodeMarkup.DelimitersAreShortest | qq-maid-common/src/markdown/qq.rs:287-304 | a fence is three backticks, or one more than the longest row in its content; a code delimiter is always one more, and padding is added exactly next to a backtick or a space |
| CodeMarkup.ContentDoesNotClose | qq-maid-common/src/markdown/qq.rs:287-304 | no line of the content can close the fence |
| CodeMarkup.FencedBlockRoundTrip | qq-maid-common/src/markdown/qq.rs:287-304 | a printed block is read back with its language and its whole content |
| QqText.CodeBlockIsRead | qq-maid-common/src/markdown/qq.rs:196-210 | from every state a code block event group is written on lines of its own and read back with its filtered language and all of its text |
| QqText.LanguageIsFiltered | qq-maid-common/src/markdown/qq.rs:199-203 | the language keeps the order of the info string and holds nothing but ASCII letters, digits, `-`, `_` and `+` |
| QqText.LanguageOfOne | qq-maid-common/src/markdown/qq.rs:199-203 | of a single character it keeps exactly an ASCII letter or digit, `-`, `_` or `+` |
| QqRenderer.QqMarkdownRenderer.Push | qq-maid-common/src/markdown/qq.rs:113-142 | one event takes the fields to the state the step function gives |
| QqRenderer.QqMarkdownRenderer.StartOf | qq-maid-common/src/markdown/qq.rs:144-238 | the same for opening tags |
| QqRenderer.QqMarkdownRenderer.EndOf | qq-maid-common/src/markdown/qq.rs:240-327 | the same for closing tags |
| QqRenderer.QqMarkdownRenderer.PushTextOf | qq-maid-common/src/markdown/qq.rs:337-379 | the character loop takes the fields to the state the specification gives |
| QqRenderer.QqMarkdownRenderer.FlushLineStartPrefix | qq-maid-common/src/markdown/qq.rs:381-406 | the pending line start is written in its neutralised form |
| QqRenderer.QqMarkdownRenderer.PushInlineCode | qq-maid-common/src/markdown/qq.rs:408-429 | inline code outside links and images is printed with delimiters and padding, elsewhere as text |
| QqRenderer.QqMarkdownRenderer.FinishRendering | qq-maid-common/src/markdown/qq.rs:329-335 | the final text is the flushed output without trailing line breaks |
| QqText.TextIsConserved | qq-maid-common/src/markdown/qq.rs:337-406 | a run of text events, in a link label or outside, writes or holds back every character, in order and nothing else, each as itself or in full-width form |
| QqText.TextWritesNoMarkup | qq-maid-common/src/markdown/qq.rs:532-561 | no character that a text event writes is one of the nine inline markup characters, nor in a label a parenthesis |
| QqText.UnderscoreIsKeptIff | qq-maid-common/src/markdown/qq.rs:545-550 | an underscore stays one exactly on an open line with nothing held back and between two alphanumeric characters of its own text |
| QqDecisions.LineIsMarkerIff | qq-maid-common/src/markdown/qq.rs:439-517 | a finished line is classified as a marker exactly when it is a heading, bullet, number, rule or underline, each described by its characters |
| QqDecisions.StartIsDecidedIff | qq-maid-common/src/markdown/qq.rs:439-517 | a line start is held back exactly while some continuations of it are markers and some are not |
| QqLines.LineIsWritten | qq-maid-common/src/markdown/qq.rs:337-406 | a text that is a whole line appears character by character, in full-width form exactly where inline Markdown could read markup or the character makes the line a block marker |
| QqLines.OpenLineIsWritten | qq-maid-common/src/markdown/qq.rs:368-378 | behind something on its line, a text appears with exactly its inline markup characters in full-width form |
| QqLists.ItemsAreNumbered | qq-maid-common/src/markdown/qq.rs:162-177 | item `k` of a list, whatever the items hold, opens a line of two spaces for every list around it and its marker: the first number plus `k`, or a dash |
| QqLists.ListIsClosed | qq-maid-common/src/markdown/qq.rs:257-262 | after a whole list the lists around it and their numbers are as before; the end of an inner list writes nothing and that of an outermost one ends the paragraph |
| QqLists.HeadingIsWritten | qq-maid-common/src/markdown/qq.rs:151-156 | a heading opens a line, behind a blank line or nothing, with one, two or for every deeper level three hashes |
| QqLists.TaskIsWritten | qq-maid-common/src/markdown/qq.rs:136-139 | a task marker is a filled or an empty box and a space |
| QqLists.OpenItemsAreCounted | qq-maid-common/src/markdown/qq.rs:162-258 | over every run the renderer counts the items that are open |
| QqDocuments.DocumentIsWritten | qq-maid-common/src/markdown/qq.rs:113-335 | every document of paragraphs, headings, code blocks, and tight or loose lists renders to exactly its blocks with a blank line between two of them |
| QqDocuments.BlocksStartApart | qq-maid-common/src/markdown/qq.rs:146-161 | behind open text a paragraph, an outermost list and a table start behind a blank line, a paragraph of an item and an inner list do not |
| QqDocuments.RuleEndsParagraph | qq-maid-common/src/markdown/qq.rs:132-135 | a rule leaves no mark: it ends open text with a blank line, and between blocks it adds nothing |
| QqTables.TableIsWritten | qq-maid-common/src/markdown/qq.rs:211-225 | a table behind other blocks, with no empty cell, comes out row by row with ` / ` between two cells |
| QqTables.TableStartsWithSeparatorIff | qq-maid-common/src/markdown/qq.rs:219-225 | the first cell of a table gets a separator in front of it exactly when nothing is written yet |
| QqTables.EmptyCellIsDropped | qq-maid-common/src/markdown/qq.rs:219-225 | from every state an empty cell that another one follows leaves no trace |
| QqText.ImageIsItsText | qq-maid-common/src/markdown/qq.rs:277-285 | from every state an image is written as its trimmed alternative text would be, or not at all if that is empty |
| QqText.BreakStandsForText | qq-maid-common/src/markdown/qq.rs:119-131 | a break is a line feed in a code block and a space in an image or behind text in a link |
| QqText.OnlyVisibleEventsMatter | qq-maid-common/src/markdown/qq.rs:113-142 | over every run, emphasis, quotes and raw HTML leave no trace and mathematics counts as text |
| QqMarkers.StepIsGuarded | qq-maid-common/src/markdown/qq.rs:113-142 | every text, break, paragraph, rule, image or code event, except the end of a paragraph in a list item, keeps all written lines free of markers, the open line unable to become one by what the open images hold, and the pending prefix undecided |
| QqMarkers.NoMarkerIsReactivated | qq-maid-common/src/markdown/qq.rs:337-406 | in every run of text events, however the text is split, no line of the output is classified as a block marker |
| QqContinuations.MarkerFreeIffGuarded | qq-maid-common/src/markdown/qq.rs:337-406 | with no line start pending, every continuation of text events is free of markers if and only if the guard holds |
| QqMarkers.SplittingTextChangesNothing | qq-maid-common/src/markdown/qq.rs:337-379 | splitting a text event away from underscores leaves every state unchanged |
| QqLinks.LinkIsClosedOrTakenBack | qq-maid-common/src/markdown/qq.rs:263-286 | from any state a link leaves the label its content renders to with its destination, or nothing if and only if that label is empty; outside images it is empty exactly when no event of the link shows anything, image texts counted |
| QqLinks.EveryLinkIsClosedOrTakenBack | qq-maid-common/src/markdown/qq.rs:178-194 | the same at every link of every well-nested run |
| QqLinks.NoLinkStaysOpen | qq-maid-common/src/markdown/qq.rs:263-286 | no link is open at the end of any well-nested run |
| QqLinks.WrittenLinkIsOneSpanIff | qq-maid-common/src/markdown/qq.rs:263-286 | a written link is one span for the link scanner if and only if its destination is balanced |
| QqLinkMarkers.LinkKeepsGuardIff | qq-maid-common/src/markdown/qq.rs:178-194 | a link, accepted or rejected, in or outside images, keeps the guard if and only if it is harmless |
| QqLinkMarkers.ContinuationsAreMarkerFreeIff | qq-maid-common/src/markdown/qq.rs:337-417 | after a whole link every continuation of text events is free of markers if and only if the link was harmless |
| QqLinkMarkers.RunsAreMarkerFreeIff | qq-maid-common/src/markdown/qq.rs:337-417 | over every run of text events and links, no stopping point lets later text complete a marker if and only if every link is harmless where it stands |
| QqLinkMarkers.NoMarkerIsReactivatedAroundLinks | qq-maid-common/src/markdown/qq.rs:337-406 | with harmless links in the run no line of the output is classified as a block marker |
| QqLinkMarkers.EmptyLinkReactivatesAMarker | qq-maid-common/src/markdown/qq.rs:263-286 | an empty link after a pending dash lets a list marker through |
| QqLinkMarkers.RejectedLinkReactivatesAMarker | qq-maid-common/src/markdown/qq.rs:408-416 | so does inline code in a rejected link, although its label shows text |
| QqLinkBreaks.BreaksKeepTheirPlaceIff | qq-maid-common/src/markdown/qq.rs:119-131 | from every state outside links and code blocks, a link renders as with each break delivered as the space it stands for, unless it is rejected and its first break outside images comes while the line start is held back; then the finished outputs differ |
| QqLinkBreaks.EveryLinkKeepsItsBreaksIff | qq-maid-common/src/markdown/qq.rs:119-131 | the same, as an equivalence on the output, after every run of any events |
| QqLinkBreaks.BreakOvertakesLineStart | qq-maid-common/src/markdown/qq.rs:119-131 | a lone dash and a rejected link with a break and text: the space is written before the dash |
| QqSight.StepInSight | qq-maid-common/src/markdown/qq.rs:113-142 | with any markup blotted out of the output every step does the same, so the renderer never looks at its own markup again |
| QqBlocks.BlockKeepsGuardIff | qq-maid-common/src/markdown/qq.rs:144-327 | a list, heading, table or code block tag keeps the text guarded if and only if the open line survives being ended, or for a cell being continued by a space |
| QqBlocks.ParagraphKeepsGuardIff | qq-maid-common/src/markdown/qq.rs:242-247 | the end of a paragraph in a list item keeps the guard if and only if the held-back start is neutralised or can become no marker |
| QqTextRuns.TextStaysTextIff | qq-maid-common/src/markdown/qq.rs:113-335 | over every run of text, links and block tags, no stopping point lets text complete a marker outside the renderer's own markup if and only if every segment is harmless where it stands |
| QqTextRuns.MarkersAreTheRenderersOwn | qq-maid-common/src/markdown/qq.rs:113-335 | with harmless segments every marker line of the finished output starts with markup the renderer wrote itself |
| QqTextRuns.CellReactivatesAMarker | qq-maid-common/src/markdown/qq.rs:219-224 | a dash in a table cell becomes a list marker by the separator of the next cell |
| QqTextRuns.NestedListReactivatesAMarker | qq-maid-common/src/markdown/qq.rs:157-182 | a hash at the end of an item's text becomes a heading when a nested list ends its line |
| QqTextRuns.ParagraphReactivatesAMarker | qq-maid-common/src/markdown/qq.rs:242-247 | a number that ends a paragraph of an item becomes a list marker by the next paragraph |
| Calendar.OrderIsDayOrder | qq-maid-common/src/time_context/recurrence.rs:148-204 | comparing dates field by field is comparing day numbers |
| Calendar.AddDaysMeaning | qq-maid-common/src/time_context/recurrence.rs:148-174 | adding days lands that many days later, or fails exactly beyond the last representable day |
| Calendar.AddMonthsMeaning | qq-maid-common/src/time_context/recurrence.rs:176-204 | month shifting moves the month index by exactly the amount, clamps the day to the month, and fails exactly out of range |
| Calendar.AddMonthsKeepsOrder | qq-maid-common/src/time_context/recurrence.rs:176-185 | shifting two anchors by the same months keeps their order |
| Calendar.AddMonthsAscends | qq-maid-common/src/time_context/recurrence.rs:176-185 | a larger shift lands strictly later |
| Calendar.RepeatMonthMeaning | qq-maid-common/src/time_context/recurrence.rs:176-204 | repeated one-month shifts end on the smaller of the anchor's day and the shortest month passed |
| Calendar.RepeatedShiftAgainstDirect | qq-maid-common/src/time_context/recurrence.rs:176-204 | the repeated shift lands in the month of the direct one on a day no later, with the exact condition for equality; always equal up to day 28 |
| Calendar.MonthEndIsLostOnTheWay | qq-maid-common/src/time_context/recurrence.rs:176-204 | from 31 January 2023 two single shifts end on 28 March, one double shift on 31 March |
| Calendar.TableAgrees | qq-maid-common/src/time_context/recurrence.rs:187-204 | in every year the month-length table agrees with day numbers given by a closed formula |
| Calendar.MonthRangeEndsWithTheMonth | qq-maid-common/src/time_context/mod.rs:780-792 | the date one day number before the next month is the last day by the month-length table, for every year and month |
| Calendar.MonthRangeHoldsItsDays | qq-maid-common/src/time_context/mod.rs:780-792 | by day numbers, a month range holds exactly the dates of its month |
| Calendar.ShiftedMonthsTile | qq-maid-common/src/time_context/mod.rs:773-792 | ranges of consecutive shifted months meet with no gap or overlap and together hold exactly the dates of both months |
| Recurrence.DayShiftMeaning | qq-maid-common/src/time_context/recurrence.rs:148-174 | day and week shifts land exactly that many days later or fail exactly out of range |
| Recurrence.MonthShiftMeaning | qq-maid-common/src/time_context/recurrence.rs:148-174 | month and year units shift by `interval * cycles` times 1 or 12 months, clamped, and fail exactly past the last representable month |
| Recurrence.ClockShiftMeaning | qq-maid-common/src/time_context/recurrence.rs:93-146 | for minutes and hours the shift is the anchor plus `interval * cycles` times 60 or 3600 seconds, and succeeds exactly when that instant is in range |
| Recurrence.DayTimeShiftMeaning | qq-maid-common/src/time_context/recurrence.rs:93-146 | for days and weeks it is `interval * cycles` times 1 or 7 days of 86400 seconds, and succeeds exactly when date and instant are in range |
| Recurrence.MonthTimeShiftMeaning | qq-maid-common/src/time_context/recurrence.rs:93-127 | for months and years it is the same time of day, at the same offset, on the date shifted by 1 or 12 months per unit |
| Recurrence.InstantRangeMeaning | qq-maid-common/src/time_context/recurrence.rs:93-113 | an instant is in range exactly when it lies on a day of the years -262143 to 262142 |
| Recurrence.InstantsAreRead | qq-maid-common/src/time_context/recurrence.rs:93-113 | at every offset of less than a day an instant in range reads as a date-time if and only if its local day is in range too |
| Recurrence.InstantsAreReadOnce | qq-maid-common/src/time_context/recurrence.rs:93-113 | no two date-times of one offset are the same instant |
| Recurrence.OffsetIsSubtracted | qq-maid-common/src/time_context/recurrence.rs:93-113 | a local time at an offset is the instant of the same reading less the offset |
| Recurrence.ShiftDateAscends | qq-maid-common/src/time_context/recurrence.rs:148-174 | if a larger cycle count can be shifted so can a smaller one, to an earlier date |
| Recurrence.ShiftDateTimeAscends | qq-maid-common/src/time_context/recurrence.rs:93-146 | the same for date-times with every unit |
| Recurrence.DateIsStaged | qq-maid-common/src/time_context/recurrence.rs:81-91 | as cycles grow, "after now" is false, then true, then undefined |
| Recurrence.DateTimeIsStaged | qq-maid-common/src/time_context/recurrence.rs:68-79 | the same for date-times |
| Recurrence.FindCyclesToAdvanceAfter | qq-maid-common/src/time_context/recurrence.rs:206-227 | over any predicate of that shape the binary search returns the least count within the bound, or none exactly when there is none |
| Recurrence.CyclesToAdvanceDateAfterCalendar | qq-maid-common/src/time_context/recurrence.rs:81-91 | the least count whose shifted date is representable and after now, for every anchor, interval, unit and bound |
| Recurrence.CyclesToAdvanceDateTimeAfterCalendar | qq-maid-common/src/time_context/recurrence.rs:68-79 | the same for date-times |
| Recurrence.ClockSearchIsTheQuotient | qq-maid-common/src/time_context/recurrence.rs:68-79 | for minutes and hours the least count is the elapsed time over the step of 60 or 3600 seconds times the interval, plus one, and there is none exactly when it exceeds the bound or its instant is out of range |
| Recurrence.ClosedFormIsTheDateSearch | qq-maid-common/src/time_context/mod.rs:385-401 | the search by days or weeks returns the closed form's count exactly when its date is representable, and none otherwise |
| Recurrence.ClosedFormPassesTheLastDay | qq-maid-common/src/time_context/mod.rs:385-401 | with the anchor on the last representable day the closed form answers one cycle and the search none |
| Recurrence.ClosedFormIsTheDateTimeSearch | qq-maid-common/src/time_context/mod.rs:365-383 | the same for date-times, seconds and nanoseconds included, for every interval the program's 32-bit field can hold and beyond |
| SseFraming.FindDelimiterMeaning | qq-maid-llm/src/sse.rs:22-32 | a delimiter is found exactly when it is two line feeds or twice carriage return and line feed, written out in bytes, and neither starts before it |
| SseFraming.FindDelimiterIsFirst | qq-maid-llm/src/sse.rs:22-32 | the delimiter found is the one that starts first, and none is found exactly when there is none |
| SseFraming.DelimiterIsStable | qq-maid-llm/src/sse.rs:22-32 | bytes that arrive later never move it |
| SseFraming.FrameBuffer.TakeFrame | qq-maid-llm/src/sse.rs:15-20 | one frame and its delimiter leave the front of the buffer, or nothing changes |
| SseFraming.FrameBuffer.Receive | qq-maid-llm/src/web_search/openai/mod.rs:256-258 | draining after a chunk yields the frames and the leftover of buffer plus chunk |
| SseFraming.DrainLosesNothing | qq-maid-llm/src/sse.rs:15-32 | frames, delimiters and leftover concatenate to the input and the leftover holds no complete frame |
| SseFraming.FramesHoldNoDelimiter | qq-maid-llm/src/sse.rs:15-32 | no frame contains a delimiter |
| SseFraming.ChunkingDoesNotMatter | qq-maid-llm/src/sse.rs:15-32 | every way of cutting the stream into chunks gives the frames and the leftover of the whole stream |
| SseFraming.ParseSseFrame | qq-maid-llm/src/sse.rs:34-61 | the line loop computes the specified event and data |
| Utf8.ValidUtf8Iff | qq-maid-llm/src/sse.rs:34-40 | bytes pass as UTF-8 if and only if they are the encoding of some text |
| Utf8.WhiteSpaceLengthIs | qq-maid-llm/src/sse.rs:41-49 | bytes that start with the encoding of a character are trimmed by exactly that encoding if and only if the character has the White_Space property |
| SseFraming.SplitThenJoin | qq-maid-llm/src/sse.rs:41-42 | the lines read are free of line feeds and joined by them give the text back |
| SseFraming.ReadLineMeaning | qq-maid-llm/src/sse.rs:41-49 | a line that starts with the bytes of `data:` adds the rest without leading white space, one with `event:` sets the name, every other line changes nothing |
| SseFraming.PrintedEventIsReadIff | qq-maid-llm/src/sse.rs:34-61 | an event of one-line values printed line by line is read back with its name and data if and only if none of them starts with white space |
| SseFraming.IgnorableTailHoldsNoEvent | qq-maid-llm/src/sse.rs:34-68 | a valid UTF-8 tail judged ignorable parses to no event |
| SseFraming.IgnorableTailIff | qq-maid-llm/src/sse.rs:63-68 | a tail is ignorable if and only if every line of it, by position, holds ASCII white space alone or starts with a colon |
| JsonText.QuoteIsRead | qq-maid-llm/src/tool.rs:438-490 | a string printed as serde_json does is read back by section 7 of RFC 8259 |
| JsonText.EscapeCharShape | qq-maid-llm/src/tool.rs:438-490 | seven characters are printed as two, the other control characters as six and every other character as itself |
| ToolOutput.TruncateToolOutput | qq-maid-llm/src/tool.rs:438-490 | the binary search returns the whole output, the wrapper with the longest preview that fits, or the fallback for the limit |
| ToolOutput.WrapperGrows | qq-maid-llm/src/tool.rs:438-490 | a longer preview makes a longer wrapper, so the search has something to search |
| ToolOutput.WrapperText | qq-maid-llm/src/tool.rs:447-454 | the wrapper is the object with the count, the preview as a JSON string and the mark, its members in name order |
| ToolOutput.TruncatedOutputIsBoundedJson | qq-maid-llm/src/tool.rs:438-490 | the result never exceeds the limit and is JSON for every limit of at least one |
| ToolOutput.PreviewIsTheLongestPrefix | qq-maid-llm/src/tool.rs:438-490 | when a wrapper fits, the result decodes to the longest prefix of the original that fits, with the original length |
| ToolOutput.FallbackIs | qq-maid-llm/src/tool.rs:475-489 | when not even an empty preview fits, the output is `{"truncated":true}` from eighteen characters on, `{}` from two, `0` for one and nothing for none |
| CanonicalJson.SortedIsUnique | qq-maid-llm/src/tool.rs:403-418 | two name-sorted lists with the same elements are equal |
| CanonicalJson.LessMeaning | qq-maid-llm/src/tool.rs:403-418 | a name comes before another if and only if it is a proper prefix of it or smaller at the first character where they differ |
| CanonicalJson.CanonicalIffSameUpToOrder | qq-maid-llm/src/tool.rs:403-418 | canonical forms are equal if and only if the values differ at most in member order, at any depth |
| CanonicalJson.CanonicalIsIdempotent | qq-maid-llm/src/tool.rs:403-418 | canonicalising twice is canonicalising once |
| ToolRegistry.ToolRegistry.Insert | qq-maid-llm/src/tool.rs:234-246 | a new valid name is registered; an invalid or taken one is an error and nothing changes |
| ToolRegistry.ToolRegistry.Replace | qq-maid-llm/src/tool.rs:253-265 | the instance behind a registered name is swapped and no name is added |
| ToolRegistry.ToolRegistry.Subset | qq-maid-llm/src/tool.rs:277-288 | exactly the named tools with the same limits, or the first unknown or repeated name |
| ToolRegistry.ToolRegistry.Metadata | qq-maid-llm/src/tool.rs:290-302 | the name-sorted list with canonical parameters, in whatever order the table is walked |
| ToolRegistry.RegisterAllMeaning | qq-maid-llm/src/tool.rs:226-246 | a chain of registrations succeeds if and only if names are valid and distinct, and then holds exactly those tools |
| ToolRegistry.RegistrationOrderDoesNotMatter | qq-maid-llm/src/tool.rs:234-246 | every order fails or every order gives the same table |
| ToolRegistry.SchemaIgnoresRegistrationOrder | qq-maid-llm/src/tool.rs:315-334 | the schema list is the same for every registration order |
| ToolRegistry.SchemaListIffSameSchema | qq-maid-llm/src/tool.rs:290-334 | two registries have the same schema list if and only if names, descriptions and parameters agree up to member order |
| ToolRegistry.SchemaListTellsAll | qq-maid-llm/src/tool.rs:315-334 | every entry of the list is an object of exactly the tool's name, description and parameters under those names |
| ToolRegistry.ValidNameMeaning | qq-maid-llm/src/tool.rs:420-431 | a name is valid exactly when it has one to sixty-four characters, each an ASCII letter, digit, `_` or `-` |
| ConfigMigration.LoadDotenvFiles | qq-maid-core/src/maintenance/config_migration.rs:255-285 | the file and line loops compute the specified map or stop at the first bad file |
| ConfigMigration.PlanConfigMigration | qq-maid-core/src/maintenance/config_migration.rs:98-161 | the loop over fields computes the specified inventory |
| ConfigMigration.CollectChanges | qq-maid-core/src/maintenance/config_migration.rs:201-234 | the loop over the inventory computes the specified changes |
| ConfigMigration.ConfigStores.UpdateManaged | qq-maid-core/src/config/center/managed_file.rs:100-152 | compare-and-swap: all changes land in the file, or it stays |
| ConfigMigration.ConfigStores.UpdateSecrets | qq-maid-core/src/config/center/secret.rs:146-226 | one transaction: all secrets whose keys are free are stored, or none |
| ConfigMigration.ConfigStores.ApplyConfigMigration | qq-maid-core/src/maintenance/config_migration.rs:165-253 | the whole step sequence, cut at any point, leaves the stores the specification gives |
| MigrationRerun.LoadDotenvMeaning | qq-maid-core/src/maintenance/config_migration.rs:255-285 | loading succeeds exactly for readable files and keeps the first definition of every name |
| MigrationActions.InventoryDecides | qq-maid-core/src/maintenance/config_migration.rs:98-161 | the inventory succeeds exactly for an accepted registry, a loadable file and readable dotenv files, and then gives every field its action by the exact condition on the definitions in the files, the field's sensitivity, the held keys and the registry's rules; a field's value is the first definition of its first defined name, the environment name before the aliases |
| MigrationActions.AcceptedIff | qq-maid-core/src/config/center/registry.rs:15-56 | key patterns and defaults aside, a registry is accepted exactly when no key and no name, environment name or alias, stands in two places and no name is blank |
| MigrationActions.FirstBadFileDecides | qq-maid-core/src/maintenance/config_migration.rs:255-285 | when the dotenv files cannot be loaded, the first bad one decides the error: unreadable, or invalid content |
| MigrationActions.FinishedRunImports | qq-maid-core/src/maintenance/config_migration.rs:163-253 | after a finished run a key is in the file, or in the secret store, if and only if it was there or its field was to be imported, and then with the value the files give it |
| MigrationActions.ReportCountsWhatWasAdded | qq-maid-core/src/maintenance/config_migration.rs:163-253 | a finished run leaves a managed file, and its report counts the values added to it, the secrets added to the store and the fields left alone |
| MigrationActions.FailureKind | qq-maid-core/src/maintenance/config_migration.rs:165-253 | an undisturbed run that does not finish fails for its input, unless registry and file are in order and the first bad dotenv file is an unreadable one |
| MigrationActions.BrokenFileStops | qq-maid-core/src/maintenance/config_migration.rs:165-253 | at whatever point of a run the managed file is spoiled, the next step that needs it fails and writes nothing |
| MigrationActions.StaleRunWritesNothing | qq-maid-core/src/maintenance/config_migration.rs:235-246 | a run whose inventory is out of date changes nothing: neither a file of another revision nor the secrets when one of the keys was taken meanwhile |
| MigrationActions.LoadIff | qq-maid-core/src/config/center/managed_file.rs:58-74 | the managed file loads if and only if it is missing or holds values for public, editable fields alone, each admitted by the registry |
| MigrationActions.PlaceholdersAreRefused | qq-maid-core/src/config/center/mod.rs:630-645 | a secret may be stored exactly when its field is secret and editable and its trimmed value is neither empty nor one of the five masking placeholders |
| MigrationRerun.ApplyFillsExactlyTheGaps | qq-maid-core/src/maintenance/config_migration.rs:163-253 | every old value stays, and a new key is exactly that of a field to import, with the value read for it |
| MigrationRerun.RerunReachesTheSameState | qq-maid-core/src/maintenance/config_migration.rs:235-246 | an interrupted run and a re-run reach the stores and the outcome of an uninterrupted run |
| MigrationRerun.SecondRunIsIdle | qq-maid-core/src/maintenance/config_migration.rs:163-253 | after a success a second run imports nothing and changes nothing |
| MigrationRerun.ApplySucceedsIff | qq-maid-core/src/maintenance/config_migration.rs:165-253 | a run succeeds if and only if the inventory passes and every secret to import may be stored |
| MigrationRerun.MaskedSecretFails | qq-maid-core/src/maintenance/config_migration.rs:165-253 | one secret whose dotenv value is a masking placeholder: the inventory passes and the migration fails |
| MigrationRerun.SuccessIffNothingLeft | qq-maid-core/src/maintenance/config_migration.rs:163-253 | a run succeeds if and only if the inventory afterwards has nothing to import and nothing invalid |
| MigrationRuns.MigrationStepKeepsEverything | qq-maid-core/src/maintenance/config_migration.rs:235-246 | no step of any migration changes or drops a value or secret, or spoils a loadable file |
| MigrationRuns.ManagedValueSurvives | qq-maid-core/src/maintenance/config_migration.rs:163-253 | over every run of migrations, crashes and other writers, a managed value no other writer changes is never changed |
| MigrationRuns.SecretSurvives | qq-maid-core/src/maintenance/config_migration.rs:163-253 | the same for secrets |
| MigrationRuns.ApplyIsARun | qq-maid-core/src/maintenance/config_migration.rs:165-253 | the undisturbed migration, with or without a fault, is one run of that system |
| TokenCache.AccessTokenManager.Token | qq-maid-gateway-rs/src/auth.rs:129-142 | a fresh cached token is returned and kept; otherwise a usable answer is returned and cached, and anything else leaves the cache |
| TokenCache.AcquireMeaning | qq-maid-gateway-rs/src/auth.rs:129-142 | a caller that gets the lock is answered from the cache exactly when the entry is more than the margin from expiry at the time the call began, and otherwise keeps the lock to fetch |
| TokenCache.RespondMeaning | qq-maid-gateway-rs/src/auth.rs:179-218 | a reply is usable exactly when its body has a token that is not blank and a positive lifetime that the clock can add; then that very token is returned and cached until call time plus lifetime, and otherwise the cache stays |
| TokenCache.FetchMeaning | qq-maid-gateway-rs/src/auth.rs:179-218 | a fetch is rejected exactly for an unusable reply, aborted exactly when no instant holds the expiry, and otherwise gives the token with its expiry |
| TokenCache.OtherStepsMeaning | qq-maid-gateway-rs/src/auth.rs:129-142 | beginning, cancelling and waiting change the caller, the lock and the clock alone |
| TokenCache.RunIsSound | qq-maid-gateway-rs/src/auth.rs:129-142 | lock, callers and cache stay consistent in every interleaving of calls, answers, failures and cancellations |
| TokenCache.EveryRunIsSafe | qq-maid-gateway-rs/src/auth.rs:129-142 | at most one fetch in flight, cached answers more than the margin from expiry at call time, recorded expiry within response time plus lifetime |
| TokenCache.CacheIsLastAnswer | qq-maid-gateway-rs/src/auth.rs:129-142 | after every run the cache holds the entry of the last usable answer, whatever failed or was cancelled since |
| TokenCache.OneFetchServesTheBurst | qq-maid-gateway-rs/src/auth.rs:129-142 | while an entry covers every call that begins, nobody fetches again |
| TokenCache.WaitsGetLiveTokensIff | qq-maid-gateway-rs/src/auth.rs:129-142 | for every margin and every bound on the wait, all cached answers in all runs are unexpired if and only if the bound is within the margin (or the margin exceeds every instant) |
| TokenCache.UndisturbedCall | qq-maid-gateway-rs/src/auth.rs:129-142 | in the concurrent system a call nobody disturbs has the effect the method promises |
| ScopeKeys.ParsingReturnsTheSegmentsIff | qq-maid-core/src/identity.rs:90-121 | parsing a conversation key returns its four cleaned segments if and only if the first three hold no colon and the target is not blank |
| ScopeKeys.KeyParsesIff | qq-maid-core/src/identity.rs:90-121 | any text parses to four segments if and only if it is those segments written as a key, none of them blank and no colon in the first three |
| ScopeKeys.KeyText | qq-maid-core/src/identity.rs:28-41 | the text of a conversation key: trimmed segments behind their labels, with `-` for a missing account and `unknown` for a blank platform or type |
| ScopeKeys.InteractionKeyText | qq-maid-core/src/identity.rs:59-73 | the text of an interaction key: the conversation key, followed by `:actor:` and the trimmed actor exactly when there is one that is not blank |
| ScopeKeys.ConversationKeysAreDistinct | qq-maid-core/src/identity.rs:28-41 | conversations without a colon before the target share a key if and only if they share all segments |
| ScopeKeys.KeyIsSharedIff | qq-maid-core/src/identity.rs:28-41 | a conversation without a colon before its target shares its key with a different one if and only if the target holds a colon with no white space directly before or after it |
| ScopeKeys.KeyIsSharedForAnyTypeIff | qq-maid-core/src/identity.rs:28-41 | the same for any type: if and only if type and target, written together, can be cut into trimmed parts at another colon than the one between them |
| ScopeKeys.InteractionKeysCollideIff | qq-maid-core/src/identity.rs:59-73 | for colon-free actors and any targets, two interaction keys coincide if and only if conversation and actor do, or one has no actor and its target is the other's continued by the other's actor |
| ScopeKeys.InteractionKeysAreDistinct | qq-maid-core/src/identity.rs:59-73 | with no colon anywhere, interaction keys coincide if and only if conversation and actor do |
| ScopeKeys.ColonInTypeCollides | qq-maid-core/src/identity.rs:28-41 | two conversations with different segments share a key when a target type holds a colon between trimmed parts |
| ScopeKeys.ColonInTargetCollides | qq-maid-core/src/identity.rs:70-73 | a colon in the target lets an actorless conversation share its key with an actor elsewhere |

## Left out

- Parsing of Markdown, regular expressions and HTTP: the renderer is studied on every event sequence, a fetch on every answer.
- The marker guarantee is about the code's own classifier: a line of one or two dashes and a line starting with a space count as safe
  there, while section 4.3 of CommonMark 0.31.2 reads `--` under a paragraph as a heading.
- QqTextRuns.TextStaysTextIff: takes events in the groups the parser delivers, a list with its first item and a code block with its
  text, and no block tag within a link.
- QqMarkers.SplittingTextChangesNothing: the Unicode alphanumeric property is left arbitrary, and it matters only beside underscores.
- The renderer's length-limited entry point and the line-by-line escaping helper compose the functions above; list counters are unbounded.
- The string forms of the recurrence functions (parsing and printing of dates and timestamps), leap-second nanoseconds and time zones other than fixed offsets.
- SSE text is compared as bytes; the reader trims all leading white space of a field where the standard removes one space, as the code does.
- Printing of canonical JSON values, number lexemes and tool execution with its timeouts; a tool's metadata is taken as fixed.
- Sorting in `Metadata` is a function proved to sort, not the library's algorithm.
- Symbolic links, permissions, TOML text, encryption and key files behind the two stores; a file's revision is its content, and the
  check before a rename is one step with it.
- The type rules for managed values are a parameter of the registry; stable-key patterns and defaults are not checked.
- The token snapshot for the console, lock fairness and wall-clock behaviour of the HTTP client.
