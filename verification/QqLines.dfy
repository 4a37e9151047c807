/**
 The exact text of a line: which of its characters are written in full-width form, from the
 five kinds of block marker and the inline characters alone.
 */
module QqLines {
  import opened Wrappers
  import opened Characters
  import opened QqRenderer
  import opened QqMarkers
  import opened QqBlocks
  import opened QqDecisions
  import opened QqText

  // ----- The text to expect -----

  /** The full-width form of a character that Markdown may read as markup. */
  function Wide(c: char): char {
    match c
    case '#' => '＃'
    case '-' => '－'
    case '+' => '＋'
    case '=' => '＝'
    case '.' => '．'
    case '(' => '（'
    case ')' => '）'
    case '\\' => '＼'
    case '`' => '｀'
    case '[' => '［'
    case ']' => '］'
    case '<' => '＜'
    case '>' => '＞'
    case '*' => '＊'
    case '_' => '＿'
    case '~' => '～'
    case '|' => '｜'
    case _ => c
  }

  /** The line reads as a heading, a list item, a rule or the underline of a heading. */
  ghost predicate IsMarkerLine(s: string) {
    IsHeading(s) || IsBullet(s) || IsNumber(s) || IsRule(s) || IsUnderline(s)
  }

  /** The one character that makes a marker line one: the delimiter behind the digits, or the first. */
  ghost predicate TurnsOn(s: string, k: nat) {
    k < |s| && if '0' <= s[0] <= '9' then DigitsUpTo(s, k) && s[k] in {'.', ')'} else k == 0
  }

  /** Whether the rest of the line decides if it is a marker line. */
  ghost predicate Undecided(s: string) {
    (exists t: string :: IsMarkerLine(s + t)) && (exists t: string :: !IsMarkerLine(s + t))
  }

  predicate InlineMark(s: string, k: nat, inLabel: bool, alnum: char -> bool)
    requires k < |s|
  {
    || s[k] in {'\\', '`', '[', ']', '<', '>', '*', '~', '|'}
    || (inLabel && s[k] in {'(', ')'})
    || (s[k] == '_' && !(0 < k && k + 1 < |s| && alnum(s[k - 1]) && alnum(s[k + 1])))
  }

  /** Text behind something that its line already holds. */
  function OnOpenLine(s: string, inLabel: bool, alnum: char -> bool): string {
    seq(|s|, k requires 0 <= k < |s| => if InlineMark(s, k, inLabel, alnum) then Wide(s[k]) else s[k])
  }

  ghost predicate Neutralised(s: string, k: nat, inLabel: bool, alnum: char -> bool)
    requires k < |s|
  {
    || InlineMark(s, k, inLabel, alnum)
    || (IsMarkerLine(s) && TurnsOn(s, k))
    || (s[k] == '_' && Undecided(s[..k]))
  }

  /** Text that is a whole line. */
  ghost function OnNewLine(s: string, inLabel: bool, alnum: char -> bool): string {
    seq(|s|, k requires 0 <= k < |s| => if Neutralised(s, k, inLabel, alnum) then Wide(s[k]) else s[k])
  }

  // ----- Decided and undecided starts -----

  lemma UndecidedIff(s: string)
    ensures s != "" ==> (Undecided(s) <==> Classify(s, false) == Pending)
  {
    hide Classify, IsMarkerLine;
    if s != "" {
      StartIsDecidedIff(s);
      forall t: string
        ensures Classify(s + t, true) == MarkdownMarker <==> IsMarkerLine(s + t)
      {
        MarkerLineIff(s + t);
      }
    }
  }

  lemma MarkerLineIff(s: string)
    ensures Classify(s, true) == MarkdownMarker <==> IsMarkerLine(s)
  {
    hide Classify, IsHeading, IsBullet, IsNumber, IsRule, IsUnderline;
    LineIsMarkerIff(s);
  }

  /** What starts an undecided line is undecided itself. */
  lemma PendingBefore(s: string, j: nat)
    requires Classify(s, false) == Pending && 0 < j <= |s|
    ensures Classify(s[..j], false) == Pending
  {
    hide Classify;
    assert s[..j] + s[j..] == s;
    if Classify(s[..j], false) == Safe {
      SafeStaysSafeBy(s[..j], s[j..]);
    } else if Classify(s[..j], false) == MarkdownMarker {
      MarkerForGood(s[..j], s[j..]);
    }
  }

  lemma DecidedAfter(s: string, i: nat, j: nat)
    requires 0 < i <= j <= |s| && Classify(s[..i], false) != Pending
    ensures Classify(s[..j], false) == Classify(s[..i], false)
  {
    hide Classify;
    assert s[..i] + s[i..j] == s[..j];
    if Classify(s[..i], false) == Safe {
      SafeStaysSafeBy(s[..i], s[i..j]);
    } else {
      MarkerForGood(s[..i], s[i..j]);
    }
  }

  lemma DecidedForLine(s: string, i: nat)
    requires 0 < i <= |s| && Classify(s[..i], false) != Pending
    ensures IsMarkerLine(s) <==> Classify(s[..i], false) == MarkdownMarker
  {
    hide Classify, IsMarkerLine;
    DecidedAfter(s, i, |s|);
    assert s[..|s|] == s;
    MarkerLineIff(s);
    if Classify(s, false) == Safe {
      SafeIsNoMarker(s);
    } else {
      MarkerAtLineEnd(s);
    }
  }

  // ----- Single characters -----

  lemma LiteralIs(s: string, k: nat, inLabel: bool, alnum: char -> bool)
    requires k < |s|
    ensures LiteralAt(s, k, inLabel, alnum) == if InlineMark(s, k, inLabel, alnum) then Wide(s[k]) else s[k]
  {
  }

  /** Within a start that is flushed, an underscore can only be its last character. */
  lemma UnderscoreIsLast(p: string, k: nat)
    requires k < |p| && p[k] == '_' && (|p| > 1 ==> Classify(p[..|p| - 1], false) == Pending)
    ensures k == |p| - 1 && (k > 0 ==> Undecided(p[..k]))
  {
    hide Classify, Undecided;
    var q := p[..|p| - 1];
    if k < |q| {
      PendingBefore(q, k + 1);
      assert q[..k + 1] == p[..k] + "_";
      if k > 0 {
        PendingBefore(q, k);
        assert q[..k] == p[..k];
      }
      UnderscoreDecides(p[..k]);
      assert false;
    }
    if k > 0 {
      UndecidedIff(q);
    }
  }

  /** Within the start of a number line that is flushed, only the delimiter is a dot or a parenthesis. */
  lemma DelimiterIsBehindDigits(p: string, k: nat)
    requires k < |p| && '0' <= p[0] <= '9' && p[k] in {'.', ')'}
    requires |p| > 1 && Classify(p[..|p| - 1], false) == Pending && Classify(p, false) != Safe
    ensures DigitsUpTo(p, k)
  {
    hide IsWhitespace;
    var q := p[..|p| - 1];
    var n := LeadingDigits(q);
    LeadingDigitsIff(q, n);
    assert DigitsUpTo(q, n);
    assert n == |q| || n + 1 == |q|;
    assert forall j :: 0 <= j < |q| ==> q[j] == p[j];
    if n + 1 == |q| {
      var m := LeadingDigits(p);
      LeadingDigitsIff(p, m);
      LeadingDigitsIff(p, n);
      assert m == n;
      if k == |q| {
        PrintableIsNotWhitespace(p[k]);
        assert false;
      }
    }
  }

  lemma MarkCharIs(s: string, p: string, k: nat)
    requires p != "" && p <= s && k < |p| && IsMarkerLine(s) && |p| > 0
    requires '0' <= s[0] <= '9' ==> |p| > 1 && Classify(p[..|p| - 1], false) == Pending && Classify(p, false) != Safe
    ensures SafeMarkerChar(p, k) == if TurnsOn(s, k) then Some(Wide(s[k])) else None
  {
    hide Classify, IsHeading, IsBullet, IsNumber, IsRule, IsUnderline;
    KindsByFirst(s);
    assert p[0] == s[0] && p[k] == s[k];
    if '0' <= s[0] <= '9' {
      if p[k] in {'.', ')'} {
        DelimiterIsBehindDigits(p, k);
        assert DigitsUpTo(s, k);
      }
    }
  }

  // ----- One line -----

  /** The kind of line that a flushed start is, is the kind of the whole line. */
  ghost predicate FlushedAs(s: string, n: nat, kind: PrefixClass)
    requires 0 < n <= |s|
  {
    && (n > 1 ==> Classify(s[..n - 1], false) == Pending)
    && (kind == MarkdownMarker <==> IsMarkerLine(s))
    && (kind == MarkdownMarker ==> Classify(s[..n], false) != Safe)
  }

  lemma FlushedCharIs(s: string, n: nat, kind: PrefixClass, k: nat, inLabel: bool, alnum: char -> bool)
    requires 0 < n <= |s| && k < n && FlushedAs(s, n, kind)
    requires kind == MarkdownMarker && '0' <= s[0] <= '9' ==> n > 1
    ensures FlushedChar(s[..n], k, kind, inLabel, alnum) == OnNewLine(s, inLabel, alnum)[k]
  {
    hide Classify, IsMarkerLine, SafeMarkerChar, SafeLiteralChar, Wide, Undecided, TurnsOn;
    var p := s[..n];
    assert p[..n - 1] == s[..n - 1];
    if kind == MarkdownMarker {
      MarkCharIs(s, p, k);
    }
    if s[k] == '_' {
      UnderscoreIsLast(p, k);
      assert p[..k] == s[..k];
      LiteralIs(p, k, inLabel, alnum);
      MarkIsNoUnderscore(s, k);
    } else {
      LiteralIs(p, k, inLabel, alnum);
    }
  }

  lemma MarkIsNoUnderscore(s: string, k: nat)
    requires k < |s| && s[k] == '_'
    ensures !(IsMarkerLine(s) && TurnsOn(s, k))
  {
    hide IsHeading, IsBullet, IsNumber, IsRule, IsUnderline;
    KindsByFirst(s);
  }

  lemma StartIs(s: string, n: nat, kind: PrefixClass, inLabel: bool, alnum: char -> bool)
    requires 0 < n <= |s| && FlushedAs(s, n, kind)
    requires kind == MarkdownMarker && '0' <= s[0] <= '9' ==> n > 1
    ensures FlushedFrom(s[..n], 0, kind, inLabel, alnum) == OnNewLine(s, inLabel, alnum)[..n]
  {
    hide FlushedFrom, FlushedChar, OnNewLine, FlushedAs;
    FlushedLength(s[..n], 0, kind, inLabel, alnum);
    NewLineLength(s, inLabel, alnum);
    forall k | 0 <= k < n
      ensures FlushedFrom(s[..n], 0, kind, inLabel, alnum)[k] == OnNewLine(s, inLabel, alnum)[k]
    {
      FlushedAt(s[..n], 0, kind, inLabel, alnum, k);
      FlushedCharIs(s, n, kind, k, inLabel, alnum);
    }
  }

  lemma NewLineLength(s: string, inLabel: bool, alnum: char -> bool)
    ensures |OnNewLine(s, inLabel, alnum)| == |s|
  {
  }

  /** Behind a decided start, characters are written as on any open line. */
  lemma BehindStart(s: string, i: nat, inLabel: bool, alnum: char -> bool)
    requires 0 < i < |s| && Classify(s[..i], false) != Pending
    ensures OnNewLine(s, inLabel, alnum)[i] == LiteralAt(s, i, inLabel, alnum)
  {
    hide Classify, IsMarkerLine, Undecided, SafeLiteralChar, Wide, IsNumber;
    LiteralIs(s, i, inLabel, alnum);
    UndecidedIff(s[..i]);
    if IsMarkerLine(s) && TurnsOn(s, i) {
      DigitsAreUndecided(s, i);
      DecidedForLine(s, i);
    }
  }

  lemma DigitsAreUndecided(s: string, i: nat)
    requires 0 < i < |s| && DigitsUpTo(s, i)
    ensures Classify(s[..i], false) in {Pending, Safe}
  {
    LeadingDigitsIff(s[..i], i);
    assert forall j :: 0 <= j < i ==> s[..i][j] == s[j];
  }

  /** `st` is how the renderer stands after the first `i` characters of a line that it began in `from`. */
  ghost predicate Behind(from: State, st: State, s: string, i: nat, alnum: char -> bool)
    requires i <= |s|
  {
    var start := i == 0 || Classify(s[..i], false) == Pending;
    st == from.(output := if start then from.output else from.output + OnNewLine(s, InLabel(from), alnum)[..i],
                prefix := if start then s[..i] else "")
  }

  ghost predicate AtLineStart(st: State) {
    st.prefix == "" && (st.output == "" || st.output[|st.output| - 1] == '\n')
  }

  lemma OneDigitIsPending(s: string)
    requires s != "" && '0' <= s[0] <= '9'
    ensures Classify(s[..1], false) == Pending
  {
    LeadingDigitsIff(s[..1], 1);
  }

  lemma StartCharIs(from: State, st: State, s: string, i: nat, alnum: char -> bool)
    requires AtLineStart(from) && i < |s| && s[i] != '\n' && Behind(from, st, s, i, alnum)
    requires i > 0 ==> Classify(s[..i], false) == Pending
    ensures Behind(from, PushChar(st, s, i, alnum), s, i + 1, alnum)
  {
    hide Classify, IsMarkerLine, FlushedFrom, OnNewLine;
    EndsWithBreak(st.output);
    assert st.prefix + [s[i]] == s[..i + 1];
    var kind := Classify(s[..i + 1], false);
    if kind != Pending {
      DecidedForLine(s, i + 1);
      MarkerAtLineEnd(s[..i + 1]);
      if '0' <= s[0] <= '9' {
        OneDigitIsPending(s);
      }
      StartIs(s, i + 1, kind, InLabel(from), alnum);
    }
  }

  lemma OpenCharIs(from: State, st: State, s: string, i: nat, alnum: char -> bool)
    requires AtLineStart(from) && 0 < i < |s| && (forall k :: 0 <= k < |s| ==> s[k] != '\n')
    requires Behind(from, st, s, i, alnum) && Classify(s[..i], false) != Pending
    ensures Behind(from, PushChar(st, s, i, alnum), s, i + 1, alnum)
  {
    hide Classify, OnNewLine, LiteralAt, PushChar;
    var w := OnNewLine(s, InLabel(from), alnum);
    NewLineHasNoBreak(s, InLabel(from), alnum);
    PrefixesGrow(from.output, w, i);
    OpenLineChar(st, s, i, alnum);
    BehindStart(s, i, InLabel(from), alnum);
    DecidedAfter(s, i, i + 1);
  }

  lemma PrefixesGrow(out: string, w: string, i: nat)
    requires 0 < i < |w|
    ensures out + w[..i] + [w[i]] == out + w[..i + 1]
    ensures (out + w[..i])[|out + w[..i]| - 1] == w[i - 1]
  {
    assert w[..i] + [w[i]] == w[..i + 1];
  }

  lemma NewLineHasNoBreak(s: string, inLabel: bool, alnum: char -> bool)
    requires forall k :: 0 <= k < |s| ==> s[k] != '\n'
    ensures forall k :: 0 <= k < |s| ==> OnNewLine(s, inLabel, alnum)[k] != '\n'
    ensures forall k :: 0 <= k < |s| ==> OnOpenLine(s, inLabel, alnum)[k] != '\n'
    ensures |OnNewLine(s, inLabel, alnum)| == |OnOpenLine(s, inLabel, alnum)| == |s|
  {
    hide Neutralised, InlineMark;
  }

  lemma {:induction false} LineFrom(from: State, st: State, s: string, i: nat, alnum: char -> bool)
    requires AtLineStart(from) && i <= |s| && (forall k :: 0 <= k < |s| ==> s[k] != '\n') && Behind(from, st, s, i, alnum)
    ensures Behind(from, PushChars(st, s, i, alnum), s, |s|, alnum)
    decreases |s| - i
  {
    hide Behind, PushChar, Classify;
    if i < |s| {
      if i > 0 && Classify(s[..i], false) != Pending {
        OpenCharIs(from, st, s, i, alnum);
      } else {
        StartCharIs(from, st, s, i, alnum);
      }
      LineFrom(from, PushChar(st, s, i, alnum), s, i + 1, alnum);
    }
  }

  /**
   A text that is a whole line, written at the start of one: each of its characters appears in its
   place, in full-width form exactly when inline Markdown could read it as markup, or the line is a
   block marker and this is the character that makes it one, and as itself otherwise.
   */
  lemma LineIsWritten(st: State, s: string, alnum: char -> bool)
    requires WritesText(st) && AtLineStart(st) && forall k :: 0 <= k < |s| ==> s[k] != '\n'
    ensures Flush(Step(st, Text(s), alnum), true, alnum) == st.(output := st.output + OnNewLine(s, InLabel(st), alnum))
  {
    hide PushChars, Classify, OnNewLine, FlushedFrom, IsMarkerLine;
    assert s[..0] == "" && s[..|s|] == s;
    LineFrom(st, st, s, 0, alnum);
    NewLineLength(s, InLabel(st), alnum);
    var w := OnNewLine(s, InLabel(st), alnum);
    assert w[..|s|] == w && st.output + "" == st.output;
    if s == "" {
      assert w == "";
    } else if Classify(s, false) == Pending {
      MarkerLineIff(s);
      if |s| > 1 {
        PendingBefore(s, |s| - 1);
      } else if '0' <= s[0] <= '9' {
        OneDigitIsNoMarker(s);
      }
      StartIs(s, |s|, Classify(s, true), InLabel(st), alnum);
    }
  }

  lemma OneDigitIsNoMarker(s: string)
    requires |s| == 1 && '0' <= s[0] <= '9'
    ensures Classify(s, true) != MarkdownMarker
  {
    LeadingDigitsIff(s, 1);
  }

  /** A text on a line that already holds something: no character of it can be a block marker. */
  lemma OpenLineIsWritten(st: State, s: string, alnum: char -> bool)
    requires WritesText(st) && st.prefix == "" && st.output != "" && st.output[|st.output| - 1] != '\n'
    requires forall k :: 0 <= k < |s| ==> s[k] != '\n'
    ensures Step(st, Text(s), alnum) == st.(output := st.output + OnOpenLine(s, InLabel(st), alnum))
  {
    hide FlushedFrom, PushChar, SafeLiteralChar, InlineMark;
    OpenLineText(st, s, 0, |s|, alnum);
    var written := FlushedFrom(s, 0, Safe, InLabel(st), alnum);
    assert written[..|s|] == written;
    forall k | 0 <= k < |s|
      ensures written[k] == OnOpenLine(s, InLabel(st), alnum)[k]
    {
      FlushedAt(s, 0, Safe, InLabel(st), alnum, k);
      LiteralIs(s, k, InLabel(st), alnum);
    }
    assert written == OnOpenLine(s, InLabel(st), alnum);
    var done := st.(output := st.output + written);
    assert PushChars(done, s, |s|, alnum) == done;
  }
}
