/** Escaping dynamic text for an inline Markdown context, and building links from it. */
module InlineEscape {
  import opened Wrappers
  import opened Characters
  import opened Positions
  import opened LinkScan
  import opened Backticks

  predicate NeedsEscape(c: char) {
    c in {'\\', '`', '*', '_', '{', '}', '[', ']', '(', ')', '#', '+', '-', '!', '|', '>'}
  }

  /** Line breaks become spaces. */
  function BreaksToSpaces(s: string): string {
    if s == "" then ""
    else [if s[0] == '\r' || s[0] == '\n' then ' ' else s[0]] + BreaksToSpaces(s[1..])
  }

  /** The text that is to be shown: trimmed, on one line. */
  function SingleLine(text: string): string {
    BreaksToSpaces(Trim(text))
  }

  function EscapeChars(s: string): string {
    if s == "" then ""
    else (if NeedsEscape(s[0]) then ['\\', s[0]] else [s[0]]) + EscapeChars(s[1..])
  }

  method EscapeInline(text: string) returns (escaped: string)
    ensures escaped == EscapeChars(SingleLine(text))
  {
    hide SingleLine, NeedsEscape;
    escaped := "";
    var line := SingleLine(text);
    var i := 0;
    assert line[0..] == line;
    while i < |line|
      invariant i <= |line|
      invariant EscapeChars(line) == escaped + EscapeChars(line[i..])
    {
      assert line[i..][1..] == line[i + 1..];
      if NeedsEscape(line[i]) {
        escaped := escaped + ['\\'];
      }
      escaped := escaped + [line[i]];
      i := i + 1;
    }
  }

  /** Backslash escapes undone, section 2.4 of CommonMark 0.31.2. */
  function Unescape(s: string): string {
    if s == "" then ""
    else if s[0] == '\\' && |s| > 1 && IsAsciiPunctuation(s[1]) then [s[1]] + Unescape(s[2..])
    else [s[0]] + Unescape(s[1..])
  }

  /** Undoing the escapes gives back the single-line text. */
  lemma {:induction false} UnescapeInvertsEscape(s: string)
    ensures Unescape(EscapeChars(s)) == s
  {
    if s != "" {
      var rest := EscapeChars(s[1..]);
      UnescapeInvertsEscape(s[1..]);
      if NeedsEscape(s[0]) {
        assert EscapeChars(s)[2..] == rest;
      } else {
        assert EscapeChars(s)[1..] == rest;
      }
    }
  }

  /** `s[o..e]` is the escaped form of `line[i..]`. */
  ghost predicate HoldsEscaped(s: string, o: nat, e: nat, line: string, i: nat)
    decreases |line| - i
  {
    && i <= |line| && o <= e <= |s|
    && if i == |line| then o == e
       else if NeedsEscape(line[i]) then
         o + 1 < e && s[o] == '\\' && s[o + 1] == line[i] && HoldsEscaped(s, o + 2, e, line, i + 1)
       else o < e && s[o] == line[i] && HoldsEscaped(s, o + 1, e, line, i + 1)
  }

  lemma {:induction false} EscapedTextHolds(before: string, line: string, i: nat, after: string)
    requires i <= |line|
    ensures HoldsEscaped(before + EscapeChars(line[i..]) + after, |before|, |before| + |EscapeChars(line[i..])|, line, i)
    decreases |line| - i
  {
    if i < |line| {
      var head := if NeedsEscape(line[i]) then ['\\', line[i]] else [line[i]];
      assert line[i..][1..] == line[i + 1..];
      EscapedTextHolds(before + head, line, i + 1, after);
      assert before + EscapeChars(line[i..]) + after == before + head + EscapeChars(line[i + 1..]) + after;
    }
  }

  /** No character of `s[o..e]` that could open or close Markdown syntax is active. */
  ghost predicate Inert(s: string, o: nat, e: nat) {
    o <= e <= |s|
    && forall p :: o <= p < e && NeedsEscape(s[p]) && s[p] != '\\' ==> IsEscaped(s, p)
  }

  /** Escaped text is inert wherever it stands, and does not escape what follows it. */
  lemma {:induction false} EscapedTextIsInert(s: string, o: nat, e: nat, line: string, i: nat)
    requires HoldsEscaped(s, o, e, line, i) && !IsEscaped(s, o)
    ensures Inert(s, o, e) && !IsEscaped(s, e)
    decreases |line| - i
  {
    if i < |line| {
      var next := if NeedsEscape(line[i]) then o + 2 else o + 1;
      EscapedTextIsInert(s, next, e, line, i + 1);
    }
  }

  lemma {:induction false} InertHasNoSpans(s: string, i: nat)
    requires i <= |s| && Inert(s, 0, |s|)
    ensures Spans(s, i) == []
    decreases |s| - i
  {
    if i < |s| {
      InertHasNoSpans(s, i + 1);
    }
  }

  lemma {:induction false} InertHasOnlyEscapedRuns(s: string, i: nat)
    requires i <= |s| && Inert(s, 0, |s|)
    ensures Unmatched(Runs(s, i)) == []
    decreases |s| - i
  {
    if i < |s| {
      if s[i] != '`' {
        InertHasOnlyEscapedRuns(s, i + 1);
      } else {
        InertHasOnlyEscapedRuns(s, RunEnd(s, i));
        assert Runs(s, i)[1..] == Runs(s, RunEnd(s, i));
      }
    }
  }

  /**
   Escaped dynamic text is inert and recoverable: the link scanner finds nothing in it, the
   backtick pass leaves it alone, and undoing the escapes gives the single-line text.
   */
  lemma EscapedInlineIsInert(text: string)
    ensures var out := EscapeChars(SingleLine(text));
      Spans(out, 0) == [] && EscapeUnclosed(out) == out && Unescape(out) == SingleLine(text)
  {
    var line := SingleLine(text);
    var out := EscapeChars(line);
    EscapedTextHolds("", line, 0, "");
    assert line[0..] == line && "" + out + "" == out;
    EscapedTextIsInert(out, 0, |out|, line, 0);
    InertHasNoSpans(out, 0);
    InertHasOnlyEscapedRuns(out, 0);
    EscapingIsIdempotent(out);
    UnescapeInvertsEscape(line);
  }

  // ----- Exactly the sixteen characters -----

  /** How many of the sixteen escaped characters the text holds. */
  function MarkupCount(s: string): nat {
    if s == "" then 0
    else
      MarkupCount(s[1..])
      + if s[0] in {'\\', '`', '*', '_', '{', '}', '[', ']', '(', ')', '#', '+', '-', '!', '|', '>'} then 1 else 0
  }

  lemma {:induction false} EscapedLength(s: string)
    ensures |EscapeChars(s)| == |s| + MarkupCount(s)
  {
    if s != "" {
      EscapedLength(s[1..]);
    }
  }

  /** Characters outside the sixteen stand unescaped. */
  lemma {:induction false} OthersStandUnescaped(s: string, o: nat, e: nat, line: string, i: nat)
    requires HoldsEscaped(s, o, e, line, i) && !IsEscaped(s, o)
    ensures forall p :: o <= p < e && IsEscaped(s, p) ==> NeedsEscape(s[p])
    decreases |line| - i
  {
    if i < |line| {
      var next := if NeedsEscape(line[i]) then o + 2 else o + 1;
      OthersStandUnescaped(s, next, e, line, i + 1);
    }
  }

  /**
   Of the sixteen characters each one but the backslash is escaped wherever it stands in the output,
   no other character is, and the output is longer by exactly one backslash for each of the sixteen.
   */
  lemma ExactlyMarkupIsEscaped(text: string)
    ensures var line, out := SingleLine(text), EscapeChars(SingleLine(text));
      && |out| == |line| + MarkupCount(line)
      && forall p :: 0 <= p < |out| && out[p] != '\\' ==>
           (IsEscaped(out, p)
            <==> out[p] in {'`', '*', '_', '{', '}', '[', ']', '(', ')', '#', '+', '-', '!', '|', '>'})
  {
    hide SingleLine;
    var line, out := SingleLine(text), EscapeChars(SingleLine(text));
    EscapedLength(line);
    EscapedTextHolds("", line, 0, "");
    assert line[0..] == line && "" + out + "" == out;
    EscapedTextIsInert(out, 0, |out|, line, 0);
    OthersStandUnescaped(out, 0, |out|, line, 0);
  }

  lemma {:induction false} BreaksToSpacesAt(s: string)
    ensures |BreaksToSpaces(s)| == |s|
    ensures forall k :: 0 <= k < |s| ==> BreaksToSpaces(s)[k] == if s[k] == '\n' || s[k] == '\r' then ' ' else s[k]
  {
    if s != "" {
      BreaksToSpacesAt(s[1..]);
    }
  }

  /** The line shown is the trimmed text, each line break of it a space. */
  lemma SingleLineShows(text: string)
    ensures |SingleLine(text)| == |Trim(text)|
    ensures forall k :: 0 <= k < |Trim(text)| ==>
              SingleLine(text)[k] == if Trim(text)[k] == '\n' || Trim(text)[k] == '\r' then ' ' else Trim(text)[k]
  {
    hide Trim;
    BreaksToSpacesAt(Trim(text));
  }

  // ----- Links -----

  function AsciiLower(c: char): char {
    if 'A' <= c <= 'Z' then c - 'A' + 'a' else c
  }

  predicate StartsWithIgnoringCase(s: string, prefix: string) {
    |prefix| <= |s| && forall k :: 0 <= k < |prefix| ==> AsciiLower(s[k]) == prefix[k]
  }

  /** The destination of a link, when it is a non-empty single-line HTTP(S) target. */
  function SanitizeLinkDestination(destination: string): (r: Option<string>)
    ensures r.Some? ==> forall k :: 0 <= k < |r.value| ==> r.value[k] !in {'\n', '\r', '<', '>'}
    ensures r.Some? ==> r.value != ""
  {
    var d := Trim(destination);
    if && d != ""
       && (StartsWithIgnoringCase(d, "https://") || StartsWithIgnoringCase(d, "http://"))
       && forall k :: 0 <= k < |d| ==> d[k] !in {'\n', '\r', '<', '>'}
    then Some(d) else None
  }

  /** `c` is this ASCII letter in either case. */
  ghost predicate EitherCase(c: char, lower: char, upper: char) { c == lower || c == upper }

  /** A destination is accepted, trimmed, exactly when it is an HTTP(S) target without line breaks and angle brackets. */
  lemma SanitizeMeaning(destination: string)
    ensures var d := Trim(destination);
      var http := |d| >= 7 && EitherCase(d[0], 'h', 'H') && EitherCase(d[1], 't', 'T') && EitherCase(d[2], 't', 'T')
                  && EitherCase(d[3], 'p', 'P');
      var accepted := && http
                      && (d[4..7] == "://" || (|d| >= 8 && EitherCase(d[4], 's', 'S') && d[5..8] == "://"))
                      && '\n' !in d && '\r' !in d && '<' !in d && '>' !in d;
      SanitizeLinkDestination(destination) == if accepted then Some(d) else None
  {
    hide Trim;
    var d := Trim(destination);
    SchemeMeaning(d);
  }

  lemma LowerMeaning(c: char)
    ensures AsciiLower(c) == 'h' <==> EitherCase(c, 'h', 'H')
    ensures AsciiLower(c) == 't' <==> EitherCase(c, 't', 'T')
    ensures AsciiLower(c) == 'p' <==> EitherCase(c, 'p', 'P')
    ensures AsciiLower(c) == 's' <==> EitherCase(c, 's', 'S')
    ensures AsciiLower(c) == ':' <==> c == ':'
    ensures AsciiLower(c) == '/' <==> c == '/'
  {
  }

  lemma SchemeMeaning(d: string)
    ensures StartsWithIgnoringCase(d, "http://") <==>
              && |d| >= 7 && EitherCase(d[0], 'h', 'H') && EitherCase(d[1], 't', 'T') && EitherCase(d[2], 't', 'T')
              && EitherCase(d[3], 'p', 'P') && d[4..7] == "://"
    ensures StartsWithIgnoringCase(d, "https://") <==>
              && |d| >= 8 && EitherCase(d[0], 'h', 'H') && EitherCase(d[1], 't', 'T') && EitherCase(d[2], 't', 'T')
              && EitherCase(d[3], 'p', 'P') && EitherCase(d[4], 's', 'S') && d[5..8] == "://"
  {
    hide AsciiLower, EitherCase;
    forall k | 0 <= k < |d|
      ensures AsciiLower(d[k]) == 'h' <==> EitherCase(d[k], 'h', 'H')
      ensures AsciiLower(d[k]) == 't' <==> EitherCase(d[k], 't', 'T')
      ensures AsciiLower(d[k]) == 'p' <==> EitherCase(d[k], 'p', 'P')
      ensures AsciiLower(d[k]) == 's' <==> EitherCase(d[k], 's', 'S')
      ensures AsciiLower(d[k]) == ':' <==> d[k] == ':'
      ensures AsciiLower(d[k]) == '/' <==> d[k] == '/'
    {
      LowerMeaning(d[k]);
    }
    SevenAgree(d);
    EightAgree(d);
  }

  lemma SevenAgree(d: string)
    ensures StartsWithIgnoringCase(d, "http://") <==>
              && |d| >= 7 && AsciiLower(d[0]) == 'h' && AsciiLower(d[1]) == 't' && AsciiLower(d[2]) == 't'
              && AsciiLower(d[3]) == 'p' && AsciiLower(d[4]) == ':' && AsciiLower(d[5]) == '/' && AsciiLower(d[6]) == '/'
  {
    hide AsciiLower;
    var p := "http://";
    assert p[0] == 'h' && p[1] == 't' && p[2] == 't' && p[3] == 'p' && p[4] == ':' && p[5] == '/' && p[6] == '/';
  }

  lemma EightAgree(d: string)
    ensures StartsWithIgnoringCase(d, "https://") <==>
              && |d| >= 8 && AsciiLower(d[0]) == 'h' && AsciiLower(d[1]) == 't' && AsciiLower(d[2]) == 't'
              && AsciiLower(d[3]) == 'p' && AsciiLower(d[4]) == 's' && AsciiLower(d[5]) == ':' && AsciiLower(d[6]) == '/'
              && AsciiLower(d[7]) == '/'
  {
    hide AsciiLower;
    var p := "https://";
    assert p[0] == 'h' && p[1] == 't' && p[2] == 't' && p[3] == 'p' && p[4] == 's' && p[5] == ':'
        && p[6] == '/' && p[7] == '/';
  }

  function Link(text: string, destination: string): string {
    var shown := EscapeChars(SingleLine(text));
    match SanitizeLinkDestination(destination)
    case Some(d) => "[" + shown + "](<" + d + ">)"
    case None => shown
  }

  /** The unescaped parentheses of `d` pair up and never close more than was opened. */
  ghost predicate BalancedParentheses(d: string) {
    && Nesting(d, 0, |d|, '(', ')') == 0
    && forall j :: 0 <= j < |d| && Active(d, j, ')') ==> Nesting(d, 0, j, '(', ')') >= 1
  }

  lemma {:induction false} GroupEndSkipsInert(s: string, i: nat, e: nat, depth: nat)
    requires i <= e <= |s| && Inert(s, i, e)
    ensures GroupEnd(s, i, depth, '[', ']') == GroupEnd(s, e, depth, '[', ']')
    decreases e - i
  {
    if i < e {
      GroupEndSkipsInert(s, i + 1, e, depth);
    }
  }

  lemma {:induction false} NestingSplit(s: string, i: nat, j: nat, k: nat, open: char, close: char)
    requires i <= j <= k <= |s|
    ensures Nesting(s, i, k, open, close) == Nesting(s, i, j, open, close) + Nesting(s, j, k, open, close)
    decreases j - i
  {
    if i < j {
      NestingSplit(s, i + 1, j, k, open, close);
    }
  }

  /** `d` stands in `s` at `p`, and nothing before it escapes its first character. */
  ghost predicate Embeds(s: string, p: nat, d: string) {
    p + |d| <= |s| && s[p..p + |d|] == d && (p > 0 ==> s[p - 1] != '\\')
  }

  lemma {:induction false} EmbeddedEscapes(s: string, p: nat, d: string, i: nat)
    requires Embeds(s, p, d) && i <= |d|
    ensures IsEscaped(s, p + i) == IsEscaped(d, i)
  {
    if i > 0 {
      assert s[p + i - 1] == s[p..p + |d|][i - 1];
      EmbeddedEscapes(s, p, d, i - 1);
    }
  }

  lemma {:induction false} EmbeddedNesting(s: string, p: nat, d: string, i: nat, j: nat, open: char, close: char)
    requires Embeds(s, p, d) && i <= j <= |d|
    ensures Nesting(s, p + i, p + j, open, close) == Nesting(d, i, j, open, close)
    decreases j - i
  {
    if i < j {
      assert s[p + i] == s[p..p + |d|][i];
      EmbeddedEscapes(s, p, d, i);
      EmbeddedNesting(s, p, d, i + 1, j, open, close);
    }
  }

  /** `s` ends with `(<d>)`, the parenthesis being at `m`. */
  ghost predicate EndsWithTarget(s: string, m: nat, d: string) {
    && m + |d| + 4 == |s| && Embeds(s, m + 2, d)
    && s[m] == '(' && s[m + 1] == '<' && s[m + 2 + |d|] == '>' && s[m + 3 + |d|] == ')'
    && !IsEscaped(s, m)
  }

  lemma TargetNesting(s: string, m: nat, d: string, j: nat)
    requires EndsWithTarget(s, m, d) && j <= |d|
    ensures Nesting(s, m, m + 2 + j, '(', ')') == 1 + Nesting(d, 0, j, '(', ')')
    ensures j < |d| ==> Active(s, m + 2 + j, ')') == Active(d, j, ')')
  {
    NestingSplit(s, m, m + 2, m + 2 + j, '(', ')');
    EmbeddedNesting(s, m + 2, d, 0, j, '(', ')');
    assert Nesting(s, m, m + 2, '(', ')') == 1 + Nesting(s, m + 1, m + 2, '(', ')');
    assert Nesting(s, m + 1, m + 2, '(', ')') == Nesting(s, m + 2, m + 2, '(', ')');
    if j < |d| {
      EmbeddedEscapes(s, m + 2, d, j);
      assert s[m + 2 + j] == s[m + 2..m + 2 + |d|][j];
    }
  }

  /** The parenthesis group spans the whole target exactly when the destination is balanced. */
  lemma TargetGroup(s: string, m: nat, d: string)
    requires EndsWithTarget(s, m, d)
    ensures GroupEnd(s, m, 0, '(', ')') == Some(|s| - 1) <==> BalancedParentheses(d)
  {
    var e := |s| - 1;
    GroupEndMeaning(s, m, 0, e, '(', ')');
    TargetNesting(s, m, d, |d|);
    NestingSplit(s, m, e - 1, e, '(', ')');
    assert Nesting(s, e - 1, e, '(', ')') == Nesting(s, e, e, '(', ')');
    assert Nesting(s, m, e, '(', ')') == 1 + Nesting(d, 0, |d|, '(', ')');
    if ClosesGroup(s, m, 0, e, '(', ')') {
      forall j | 0 <= j < |d| && Active(d, j, ')')
        ensures Nesting(d, 0, j, '(', ')') >= 1
      {
        TargetNesting(s, m, d, j);
        assert Active(s, m + 2 + j, ')');
      }
    }
    if BalancedParentheses(d) {
      forall k | m <= k < e && Active(s, k, ')')
        ensures Nesting(s, m, k, '(', ')') >= 2
      {
        assert m + 2 <= k < m + 2 + |d|;
        TargetNesting(s, m, d, k - m - 2);
      }
    }
  }

  lemma OneSpanIff(s: string)
    requires s != "" && Active(s, 0, '[')
    ensures Spans(s, 0) == [Span(0, |s|)] <==> LinkEnd(s, 0) == Some(|s|)
  {
    if LinkEnd(s, 0).Some? {
      var end := LinkEnd(s, 0).value;
      assert Spans(s, 0) == [Span(0, end)] + Spans(s, end);
      assert Spans(s, 0)[0].end == end;
    } else {
      SpansShape(s, 1);
      assert Spans(s, 0) == Spans(s, 1);
    }
  }

  /** The escaped label does not disturb the brackets around it. */
  lemma LabelGroup(s: string, line: string, after: string)
    requires s == "[" + EscapeChars(line) + "]" + after
    ensures var n := |EscapeChars(line)|;
      GroupEnd(s, 0, 0, '[', ']') == Some(1 + n) && !IsEscaped(s, 1 + n)
  {
    hide EscapeChars;
    var n := |EscapeChars(line)|;
    assert line[0..] == line;
    EscapedTextHolds("[", line, 0, "]" + after);
    assert "[" + EscapeChars(line) + ("]" + after) == s;
    EscapedTextIsInert(s, 1, 1 + n, line, 0);
    GroupEndSkipsInert(s, 1, 1 + n, 1);
    assert s[1 + n] == ']';
    assert GroupEnd(s, 1 + n, 1, '[', ']') == Some(1 + n);
  }

  /**
   A built link is scanned as one link covering the whole string exactly when the unescaped
   parentheses of its destination are balanced.
   */
  lemma LinkIsOneSpanIff(text: string, destination: string)
    requires SanitizeLinkDestination(destination).Some?
    ensures var s := Link(text, destination);
      Spans(s, 0) == [Span(0, |s|)] <==> BalancedParentheses(SanitizeLinkDestination(destination).value)
  {
    hide EscapeChars, SanitizeLinkDestination, GroupEnd, Spans, BalancedParentheses, IsEscaped;
    var d := SanitizeLinkDestination(destination).value;
    var s := Link(text, destination);
    LinkLayout(s, EscapeChars(SingleLine(text)), d);
    LabelGroup(s, SingleLine(text), "(<" + d + ">)");
    TargetGroup(s, 2 + |EscapeChars(SingleLine(text))|, d);
    OneSpanIff(s);
  }

  /** A closing parenthesis in the destination: whatever its text, the link is not scanned as one. */
  lemma UnbalancedDestinationBreaksTheLink(text: string)
    ensures var s := Link(text, "http://a)"); Spans(s, 0) != [Span(0, |s|)]
  {
    hide Spans, Link, GroupEnd;
    var d := "http://a)";
    PlainDestination();
    LinkIsOneSpanIff(text, d);
    NothingOpened();
  }

  lemma PlainDestination()
    ensures SanitizeLinkDestination("http://a)") == Some("http://a)")
  {
    var d := "http://a)";
    PrintableIsNotWhitespace('h');
    PrintableIsNotWhitespace(')');
    assert Trim(d) == d;
    assert StartsWithIgnoringCase(d, "http://");
  }

  lemma NothingOpened()
    ensures !BalancedParentheses("http://a)")
  {
    var d := "http://a)";
    assert Active(d, 8, ')');
    NoParenthesisBefore(d, 0, 8);
  }

  lemma {:induction false} NoParenthesisBefore(d: string, i: nat, e: nat)
    requires i <= e <= |d| && forall k :: i <= k < e ==> d[k] !in {'(', ')'}
    ensures Nesting(d, i, e, '(', ')') == 0
    decreases e - i
  {
    if i < e {
      NoParenthesisBefore(d, i + 1, e);
    }
  }

  lemma LinkLayout(s: string, shown: string, d: string)
    requires s == "[" + shown + "](<" + d + ">)"
    ensures s == "[" + shown + "]" + ("(<" + d + ">)") && Active(s, 0, '[')
    ensures EndsWithTarget(s, 2 + |shown|, d)
  {
    var m := 2 + |shown|;
    assert s == ("[" + shown + "]" + "(<") + d + ">)";
    assert s[m + 2..m + 2 + |d|] == d;
  }

  /** Without an HTTP(S) destination only the inert text is left. */
  lemma LinkWithoutDestinationIsInert(text: string, destination: string)
    requires SanitizeLinkDestination(destination).None?
    ensures Spans(Link(text, destination), 0) == [] && Unescape(Link(text, destination)) == SingleLine(text)
  {
    EscapedInlineIsInert(text);
  }
}
