/**
 The Markdown inline-link scanner and the truncation that must not cut a link.
 Text is a sequence of Unicode scalar values, as in the program's character vector.
 */
module LinkScan {
  import opened Wrappers
  import opened Characters
  import opened Positions

  datatype Span = Span(start: nat, end: nat)

  // ----- Delimiter groups -----

  /** An unescaped occurrence of `c` at `i`. */
  predicate Active(s: string, i: nat, c: char)
    requires i < |s|
  {
    s[i] == c && !IsEscaped(s, i)
  }

  /**
   The position of the closing delimiter that brings the nesting back to zero, scanning
   from `i` with `depth` groups already open. None when the text ends first or a closing
   delimiter has nothing to close.
   */
  function GroupEnd(s: string, i: nat, depth: nat, open: char, close: char): (r: Option<nat>)
    requires i <= |s|
    ensures r.Some? ==> i <= r.value < |s| && s[r.value] == close
    ensures r.Some? && depth == 0 ==> i < r.value
    decreases |s| - i
  {
    if i == |s| then None
    else if Active(s, i, open) then GroupEnd(s, i + 1, depth + 1, open, close)
    else if Active(s, i, close) then
      if depth == 0 then None
      else if depth == 1 then Some(i)
      else GroupEnd(s, i + 1, depth - 1, open, close)
    else GroupEnd(s, i + 1, depth, open, close)
  }

  /** Unescaped openers minus unescaped closers in `s[i..j]`. */
  ghost function Nesting(s: string, i: nat, j: nat, open: char, close: char): int
    requires i <= j <= |s|
    decreases j - i
  {
    if i == j then 0
    else (if Active(s, i, open) then 1 else if Active(s, i, close) then -1 else 0) + Nesting(s, i + 1, j, open, close)
  }

  /** `e` is the first active closer that meets exactly one open group. */
  ghost predicate ClosesGroup(s: string, i: nat, depth: nat, e: nat, open: char, close: char)
    requires i <= |s|
  {
    && i <= e < |s|
    && Active(s, e, close)
    && depth + Nesting(s, i, e, open, close) == 1
    && forall k :: i <= k < e && Active(s, k, close) ==> depth + Nesting(s, i, k, open, close) >= 2
  }

  /** The scanner finds a closer exactly where the nesting says the group closes. */
  lemma {:induction false} GroupEndMeaning(s: string, i: nat, depth: nat, e: nat, open: char, close: char)
    requires i <= |s| && open != close
    ensures GroupEnd(s, i, depth, open, close) == Some(e) <==> ClosesGroup(s, i, depth, e, open, close)
    decreases |s| - i
  {
    if i < |s| {
      var next := if Active(s, i, open) then depth + 1 else if Active(s, i, close) then depth - 1 else depth;
      if Active(s, i, close) && depth <= 1 {
        assert Nesting(s, i, i, open, close) == 0;
      } else {
        GroupEndMeaning(s, i + 1, next, e, open, close);
        assert ClosesGroup(s, i, depth, e, open, close) <==> ClosesGroup(s, i + 1, next, e, open, close) by {
          assert Nesting(s, i, i, open, close) == 0;
          forall k | i + 1 <= k <= |s|
            ensures depth + Nesting(s, i, k, open, close) == next + Nesting(s, i + 1, k, open, close)
          {
          }
        }
      }
    }
  }

  lemma {:induction false} GroupEndPrefix(s: string, k: nat, i: nat, depth: nat, open: char, close: char)
    requires i <= k <= |s|
    ensures GroupEnd(s[..k], i, depth, open, close)
         == match GroupEnd(s, i, depth, open, close)
            case Some(e) => if e < k then Some(e) else None
            case None => None
    decreases k - i
  {
    if i < k {
      IsEscapedPrefix(s, k, i);
      if Active(s, i, open) {
        GroupEndPrefix(s, k, i + 1, depth + 1, open, close);
      } else if !Active(s, i, close) {
        GroupEndPrefix(s, k, i + 1, depth, open, close);
      } else if depth > 1 {
        GroupEndPrefix(s, k, i + 1, depth - 1, open, close);
      }
    }
  }

  // ----- Links -----

  /** The end (exclusive) of the link `[label](destination)` whose bracket is at `open`. */
  function LinkEnd(s: string, open: nat): (r: Option<nat>)
    requires open <= |s|
    ensures r.Some? ==> open + 4 <= r.value <= |s| && s[r.value - 1] == ')'
  {
    match GroupEnd(s, open, 0, '[', ']')
    case None => None
    case Some(labelEnd) =>
      if labelEnd + 1 < |s| && s[labelEnd + 1] == '(' then
        match GroupEnd(s, labelEnd + 1, 0, '(', ')')
        case None => None
        case Some(close) => Some(close + 1)
      else None
  }

  /** `s[a..b]` is a bracket group followed at once by a parenthesis group. */
  ghost predicate IsLink(s: string, a: nat, m: nat, b: nat)
    requires a <= |s|
  {
    && ClosesGroup(s, a, 0, m, '[', ']')
    && m + 1 < |s| && s[m + 1] == '('
    && b > 0 && ClosesGroup(s, m + 1, 0, b - 1, '(', ')')
  }

  /** The scanner accepts exactly the links, and the end it reports is the only one possible. */
  lemma LinkEndMeaning(s: string, a: nat, b: nat)
    requires a <= |s|
    ensures LinkEnd(s, a) == Some(b) <==> exists m: nat :: IsLink(s, a, m, b)
  {
    var bracket := GroupEnd(s, a, 0, '[', ']');
    if bracket.Some? {
      GroupEndMeaning(s, a, 0, bracket.value, '[', ']');
      if b > 0 && bracket.value + 1 < |s| {
        GroupEndMeaning(s, bracket.value + 1, 0, b - 1, '(', ')');
      }
    }
    forall m: nat | IsLink(s, a, m, b)
      ensures bracket == Some(m)
    {
      GroupEndMeaning(s, a, 0, m, '[', ']');
    }
    if bracket.Some? && LinkEnd(s, a) == Some(b) {
      assert IsLink(s, a, bracket.value, b);
    }
  }

  lemma LinkEndPrefix(s: string, k: nat, a: nat)
    requires a <= k <= |s|
    ensures LinkEnd(s[..k], a)
         == match LinkEnd(s, a)
            case Some(e) => if e <= k then Some(e) else None
            case None => None
  {
    GroupEndPrefix(s, k, a, 0, '[', ']');
    var bracket := GroupEnd(s, a, 0, '[', ']');
    if bracket.Some? && bracket.value + 1 < k {
      GroupEndPrefix(s, k, bracket.value + 1, 0, '(', ')');
    }
  }

  /** A link starts at `i`. */
  predicate LinkStartsAt(s: string, i: nat)
    requires i < |s|
  {
    Active(s, i, '[') && LinkEnd(s, i).Some?
  }

  /** The links found by the left-to-right scan from `i`, which resumes after each link. */
  function Spans(s: string, i: nat): seq<Span>
    requires i <= |s|
    decreases |s| - i
  {
    if i == |s| then []
    else if LinkStartsAt(s, i) then
      var end := LinkEnd(s, i).value;
      [Span(i, end)] + Spans(s, end)
    else Spans(s, i + 1)
  }

  /** Position `k` lies strictly inside one of the spans. */
  ghost predicate InsideOne(spans: seq<Span>, k: nat) {
    exists j :: 0 <= j < |spans| && spans[j].start < k < spans[j].end
  }

  lemma InsideOneOfRest(first: Span, rest: seq<Span>, k: nat)
    ensures InsideOne([first] + rest, k) <==> first.start < k < first.end || InsideOne(rest, k)
  {
    var all := [first] + rest;
    if InsideOne(rest, k) {
      var j :| 0 <= j < |rest| && rest[j].start < k < rest[j].end;
      assert all[j + 1] == rest[j];
    }
    if first.start < k < first.end {
      assert all[0] == first;
    }
  }

  /** The spans are in order, do not overlap and lie in the text from `i` on, between `[` and `)`. */
  ghost predicate WellPlaced(s: string, spans: seq<Span>, i: nat) {
    && (forall k :: 0 <= k < |spans| ==> i <= spans[k].start && spans[k].start + 4 <= spans[k].end <= |s|)
    && (forall k :: 0 <= k < |spans| ==> s[spans[k].start] == '[' && s[spans[k].end - 1] == ')')
    && (forall j, k :: 0 <= j < k < |spans| ==> spans[j].end <= spans[k].start)
  }

  lemma WellPlacedCons(s: string, spans: seq<Span>, i: nat)
    requires spans != [] && i <= spans[0].start && spans[0].start + 4 <= spans[0].end <= |s|
    requires s[spans[0].start] == '[' && s[spans[0].end - 1] == ')'
    requires WellPlaced(s, spans[1..], spans[0].end)
    ensures WellPlaced(s, spans, i)
  {
    assert forall k :: 0 < k < |spans| ==> spans[k] == spans[1..][k - 1];
  }

  /** The same fact as `WellPlaced`, one span at a time. */
  ghost predicate Laid(s: string, spans: seq<Span>, i: nat) {
    spans == []
    || (&& i <= spans[0].start && spans[0].start + 4 <= spans[0].end <= |s|
        && s[spans[0].start] == '[' && s[spans[0].end - 1] == ')'
        && Laid(s, spans[1..], spans[0].end))
  }

  lemma {:induction false} LaidIsWellPlaced(s: string, spans: seq<Span>, i: nat)
    requires Laid(s, spans, i)
    ensures WellPlaced(s, spans, i)
  {
    if spans != [] {
      LaidIsWellPlaced(s, spans[1..], spans[0].end);
      WellPlacedCons(s, spans, i);
    }
  }

  lemma {:induction false} SpansAreLaid(s: string, i: nat, j: nat)
    requires j <= i <= |s|
    ensures Laid(s, Spans(s, i), j)
    decreases |s| - i
  {
    if i < |s| {
      if LinkStartsAt(s, i) {
        SpansAreLaid(s, LinkEnd(s, i).value, LinkEnd(s, i).value);
        assert Spans(s, i)[1..] == Spans(s, LinkEnd(s, i).value);
      } else {
        SpansAreLaid(s, i + 1, j);
      }
    }
  }

  lemma SpansShape(s: string, i: nat)
    requires i <= |s|
    ensures WellPlaced(s, Spans(s, i), i)
  {
    SpansAreLaid(s, i, i);
    LaidIsWellPlaced(s, Spans(s, i), i);
  }

  /** Every link of the text is listed, unless it starts inside a listed one. */
  lemma {:induction false} SpansAreExactlyTheOuterLinks(s: string, i: nat, a: nat, b: nat)
    requires i <= a < |s|
    ensures Span(a, b) in Spans(s, i)
       <==> && Active(s, a, '[') && LinkEnd(s, a) == Some(b)
            && !InsideOne(Spans(s, i), a)
    decreases |s| - i
  {
    SpansShape(s, i);
    if LinkStartsAt(s, i) {
      var end := LinkEnd(s, i).value;
      var rest := Spans(s, end);
      assert Spans(s, i) == [Span(i, end)] + rest;
      if end <= a {
        SpansAreExactlyTheOuterLinks(s, end, a, b);
        InsideOneOfRest(Span(i, end), rest, a);
      } else {
        SpansShape(s, end);
        assert Spans(s, i)[0] == Span(i, end);
      }
    } else if i < a {
      SpansAreExactlyTheOuterLinks(s, i + 1, a, b);
    } else {
      SpansShape(s, i + 1);
      assert Spans(s, i) == Spans(s, i + 1);
    }
  }

  /** The loop that finds a group's closing delimiter. */
  method FindGroupEnd(s: string, start: nat, open: char, close: char) returns (r: Option<nat>)
    requires start <= |s|
    ensures r == GroupEnd(s, start, 0, open, close)
  {
    var depth: nat := 0;
    var cursor: nat := start;
    while cursor < |s|
      invariant cursor <= |s|
      invariant GroupEnd(s, start, 0, open, close) == GroupEnd(s, cursor, depth, open, close)
    {
      var escaped := ComputeIsEscaped(s, cursor);
      if !escaped {
        if s[cursor] == open {
          depth := depth + 1;
        } else if s[cursor] == close {
          if depth == 0 {
            return None;
          }
          depth := depth - 1;
          if depth == 0 {
            return Some(cursor);
          }
        }
      }
      cursor := cursor + 1;
    }
    return None;
  }

  method MarkdownLinkEnd(s: string, open: nat) returns (r: Option<nat>)
    requires open <= |s|
    ensures r == LinkEnd(s, open)
  {
    var labelEnd := FindGroupEnd(s, open, '[', ']');
    if labelEnd.None? || labelEnd.value + 1 >= |s| || s[labelEnd.value + 1] != '(' {
      return None;
    }
    var close := FindGroupEnd(s, labelEnd.value + 1, '(', ')');
    if close.None? {
      return None;
    }
    return Some(close.value + 1);
  }

  method MarkdownLinkSpans(s: string) returns (spans: seq<Span>)
    ensures spans == Spans(s, 0)
  {
    spans := [];
    var index := 0;
    while index < |s|
      invariant index <= |s|
      invariant Spans(s, 0) == spans + Spans(s, index)
      decreases |s| - index
    {
      if s[index] == '[' {
        var escaped := ComputeIsEscaped(s, index);
        if !escaped {
          var end := MarkdownLinkEnd(s, index);
          if end.Some? {
            spans := spans + [Span(index, end.value)];
            index := end.value;
            continue;
          }
        }
      }
      index := index + 1;
    }
  }

  // ----- Truncation -----

  predicate IsListMarkerChar(c: char) {
    c in {'-', '*', '+', '.', ')', ' ', '\t'} || IsAsciiDigit(c)
  }

  /** Only list-marker characters stand between the start of the line and `i`. */
  predicate FollowsListMarker(s: string, i: nat)
    requires i <= |s|
  {
    forall k :: LineStart(s, i) <= k < i ==> IsListMarkerChar(s[k])
  }

  function SafeRewind(s: string, linkStart: nat): (r: nat)
    requires linkStart <= |s|
    ensures r <= linkStart
  {
    if FollowsListMarker(s, linkStart) then LineStart(s, linkStart) else linkStart
  }

  /** The first listed span that `kept` would cut (its start counts as cut). */
  function CutSpan(spans: seq<Span>, kept: nat): (r: Option<Span>)
    ensures r.Some? ==> r.value in spans && r.value.start <= kept < r.value.end
    ensures r.None? ==> forall p :: p in spans ==> !(p.start <= kept < p.end)
  {
    if spans == [] then None
    else if spans[0].start <= kept < spans[0].end then Some(spans[0])
    else CutSpan(spans[1..], kept)
  }

  /** The cut before any link is looked at: room is left for the caller's ellipsis. */
  function InitialCut(limit: nat): nat {
    if limit == 0 then 0 else limit - 1
  }

  /** The number of characters kept. */
  function KeptChars(s: string, limit: nat): (kept: nat)
    ensures kept <= |s|
    ensures kept <= limit
  {
    if |s| <= limit then |s|
    else
      match CutSpan(Spans(s, 0), InitialCut(limit))
      case None => InitialCut(limit)
      case Some(span) => SafeRewind(s, span.start)
  }

  method TruncateMarkdownPrefix(s: string, limit: nat) returns (text: string, kept: nat)
    ensures kept == KeptChars(s, limit)
    ensures text == if |s| <= limit then Trim(s) else TrimEnd(s[..kept])
  {
    if |s| <= limit {
      return Trim(s), |s|;
    }
    kept := InitialCut(limit);
    var spans := MarkdownLinkSpans(s);
    SpansShape(s, 0);
    var next := 0;
    while next < |spans|
      invariant next <= |spans|
      invariant kept <= |s|
      invariant
        || (kept == InitialCut(limit) && CutSpan(spans, kept) == CutSpan(spans[next..], kept))
        || (kept == KeptChars(s, limit) && forall k :: next <= k < |spans| ==> kept < spans[k].start)
    {
      if spans[next].start <= kept < spans[next].end {
        kept := SafeRewind(s, spans[next].start);
      }
      next := next + 1;
    }
    text := TrimEnd(s[..kept]);
  }

  /** The links that end at or before `k`. */
  function EndingBy(spans: seq<Span>, k: nat): seq<Span> {
    if spans == [] then []
    else (if spans[0].end <= k then [spans[0]] else []) + EndingBy(spans[1..], k)
  }

  /** Position `k` lies strictly inside no link of the text. */
  ghost predicate CutsNoLink(s: string, k: nat) {
    !InsideOne(Spans(s, 0), k)
  }

  /**
   What a caller can check beforehand: when the link to be dropped opens a list item, the
   newline before that item is not part of another link.
   */
  ghost predicate ListLineStartsOutsideLinks(s: string, limit: nat)
    requires limit < |s|
  {
    var cut := CutSpan(Spans(s, 0), InitialCut(limit));
    cut.Some? && FollowsListMarker(s, cut.value.start) && LineStart(s, cut.value.start) > 0 ==>
      var newline := LineStart(s, cut.value.start) - 1;
      forall j :: 0 <= j < |Spans(s, 0)| ==> !(Spans(s, 0)[j].start <= newline < Spans(s, 0)[j].end)
  }

  lemma {:induction false} EndingByNone(spans: seq<Span>, k: nat)
    requires forall j :: 0 <= j < |spans| ==> k < spans[j].end
    ensures EndingBy(spans, k) == []
  {
    if spans != [] {
      EndingByNone(spans[1..], k);
    }
  }

  /** Scanning a prefix that cuts no link finds the links that fit in it, and no others. */
  lemma {:induction false} SpansOfPrefix(s: string, k: nat, i: nat)
    requires i <= k <= |s|
    requires !InsideOne(Spans(s, i), k)
    ensures Spans(s[..k], i) == EndingBy(Spans(s, i), k)
    decreases k - i
  {
    if i == k {
      SpansShape(s, i);
      EndingByNone(Spans(s, i), k);
    } else {
      IsEscapedPrefix(s, k, i);
      LinkEndPrefix(s, k, i);
      if LinkStartsAt(s, i) {
        var end := LinkEnd(s, i).value;
        assert Spans(s, i)[0] == Span(i, end);
        assert Spans(s, i)[1..] == Spans(s, end);
        SpansOfPrefix(s, k, end);
      } else {
        SpansOfPrefix(s, k, i + 1);
      }
    }
  }

  /** The cut splits no link exactly when the list line it may fall back to starts outside every link. */
  lemma TruncationCutsNoLinkIff(s: string, limit: nat)
    requires limit < |s|
    ensures CutsNoLink(s, KeptChars(s, limit)) <==> ListLineStartsOutsideLinks(s, limit)
  {
    SpansShape(s, 0);
    var spans := Spans(s, 0);
    var cut := CutSpan(spans, InitialCut(limit));
    var kept := KeptChars(s, limit);
    if cut.Some? {
      var start := cut.value.start;
      if kept == start {
        SpanStartIsOutside(s, spans, cut.value);
      }
      if FollowsListMarker(s, start) && LineStart(s, start) > 0 {
        forall j | 0 <= j < |spans|
          ensures spans[j].start <= kept - 1 < spans[j].end <==> spans[j].start < kept < spans[j].end
        {
          assert s[spans[j].end - 1] == ')';
        }
      }
    }
  }

  lemma SpanStartIsOutside(s: string, spans: seq<Span>, span: Span)
    requires WellPlaced(s, spans, 0) && span in spans
    ensures !InsideOne(spans, span.start)
  {
    var j :| 0 <= j < |spans| && spans[j] == span;
    forall k | 0 <= k < |spans|
      ensures !(spans[k].start < span.start < spans[k].end)
    {
      if k > j {
        assert spans[j].end <= spans[k].start;
      }
    }
  }

  lemma {:induction false} EndingByAll(spans: seq<Span>, k: nat)
    requires forall j :: 0 <= j < |spans| ==> spans[j].end <= k
    ensures EndingBy(spans, k) == spans
  {
    if spans != [] {
      EndingByAll(spans[1..], k);
    }
  }

  lemma TrimmingDropsNoLink(s: string)
    ensures Spans(TrimEnd(s), 0) == Spans(s, 0)
  {
    TrimEndShape(s);
    PrintableIsNotWhitespace(')');
    var t := |TrimEnd(s)|;
    assert TrimEnd(s) == s[..t];
    SpansShape(s, 0);
    var spans := Spans(s, 0);
    forall j | 0 <= j < |spans|
      ensures spans[j].end <= t
    {
      assert s[spans[j].end - 1] == ')';
    }
    SpansOfPrefix(s, t, 0);
    EndingByAll(spans, t);
  }

  /**
   The returned text holds exactly the links of the full text that end by the cut: none is
   cut and none appears that the full text did not have.
   */
  lemma TruncationKeepsWholeLinks(s: string, limit: nat)
    requires limit < |s|
    requires ListLineStartsOutsideLinks(s, limit)
    ensures Spans(TrimEnd(s[..KeptChars(s, limit)]), 0) == EndingBy(Spans(s, 0), KeptChars(s, limit))
  {
    TruncationCutsNoLinkIff(s, limit);
    SpansOfPrefix(s, KeptChars(s, limit), 0);
    TrimmingDropsNoLink(s[..KeptChars(s, limit)]);
  }

  /** No link of the text contains a line break. */
  ghost predicate LinksAreSingleLine(s: string) {
    forall j, k :: 0 <= j < |Spans(s, 0)| && Spans(s, 0)[j].start <= k < Spans(s, 0)[j].end && k < |s| ==> s[k] != '\n'
  }

  /** On text whose links are single-line the truncation never cuts a link, at any limit. */
  lemma SingleLineLinksAreNeverCut(s: string, limit: nat)
    requires limit < |s|
    ensures LinksAreSingleLine(s) ==>
              && CutsNoLink(s, KeptChars(s, limit))
              && Spans(TrimEnd(s[..KeptChars(s, limit)]), 0) == EndingBy(Spans(s, 0), KeptChars(s, limit))
  {
    if LinksAreSingleLine(s) {
      assert ListLineStartsOutsideLinks(s, limit);
      TruncationCutsNoLinkIff(s, limit);
      TruncationKeepsWholeLinks(s, limit);
    }
  }

  /** `l` is the start of the line that holds position `start`. */
  ghost predicate StartsLineOf(s: string, l: nat, start: nat)
    requires start <= |s|
  {
    l <= start && (l == 0 || s[l - 1] == '\n') && forall k :: l <= k < start ==> s[k] != '\n'
  }

  /** What may stand before a link in a list item that is dropped with it: dashes, stars, pluses, numbers and blanks. */
  ghost predicate MarkersOnly(s: string, l: nat, start: nat)
    requires l <= start <= |s|
  {
    forall k :: l <= k < start ==> s[k] in {'-', '*', '+', '.', ')', ' ', '\t'} || '0' <= s[k] <= '9'
  }

  /** `kept` is the start of the line when only list-marker characters stand before `start`, and `start` otherwise. */
  ghost predicate FallsBackTo(s: string, start: nat, kept: nat) {
    && start <= |s|
    && exists l: nat :: StartsLineOf(s, l, start) && kept == if MarkersOnly(s, l, start) then l else start
  }

  /**
   Where the cut falls: at `limit - 1` when no link holds that position, otherwise at the start
   of the one link that does, or at the start of its line when only a list marker precedes it.
   */
  lemma CutPosition(s: string, limit: nat)
    requires 0 < limit < |s|
    ensures (forall p :: p in Spans(s, 0) ==> !(p.start <= limit - 1 < p.end)) ==> KeptChars(s, limit) == limit - 1
    ensures forall p | p in Spans(s, 0) && p.start <= limit - 1 < p.end :: FallsBackTo(s, p.start, KeptChars(s, limit))
    ensures KeptChars(s, 0) == 0
  {
    SpansShape(s, 0);
    forall p | p in Spans(s, 0) && p.start <= InitialCut(limit) < p.end
      ensures FallsBackTo(s, p.start, KeptChars(s, limit))
    {
      OnlyOneSpanHolds(s, Spans(s, 0), p, InitialCut(limit));
      LineStartShape(s, p.start);
      assert StartsLineOf(s, LineStart(s, p.start), p.start);
    }
  }

  lemma {:induction false} OnlyOneSpanHolds(s: string, spans: seq<Span>, p: Span, cut: nat)
    requires WellPlaced(s, spans, 0) && p in spans && p.start <= cut < p.end
    ensures CutSpan(spans, cut) == Some(p)
  {
    if spans[0] != p {
      var j :| 0 <= j < |spans| && spans[j] == p;
      assert spans[0].end <= spans[j].start;
      assert spans[1..][j - 1] == p;
      OnlyOneSpanHolds(s, spans[1..], p, cut);
    }
  }

  /**
   A link that contains a newline can be cut: the second link is dropped together with what
   looks like its list marker, but that marker is the tail of the first link.
   */
  lemma LinkWithNewlineIsCut()
    ensures var s := "[a](b\n)[c](dddd)";
      && Spans(s, 0) == [Span(0, 7), Span(7, 16)]
      && KeptChars(s, 10) == 6
      && !CutsNoLink(s, KeptChars(s, 10))
      && !LinksAreSingleLine(s)
  {
    var s := "[a](b\n)[c](dddd)";
    NewlineExampleSpans();
    assert s[5] == '\n' && s[6] == ')';
    assert Spans(s, 0)[0].start < 6 < Spans(s, 0)[0].end;
  }

  lemma NewlineExampleFirstLink()
    ensures LinkEnd("[a](b\n)[c](dddd)", 0) == Some(7)
  {
    assert GroupEnd("[a](b\n)[c](dddd)", 0, 0, '[', ']') == Some(2);
    assert GroupEnd("[a](b\n)[c](dddd)", 3, 0, '(', ')') == Some(6);
  }

  lemma NewlineExampleSecondLink()
    ensures LinkEnd("[a](b\n)[c](dddd)", 7) == Some(16)
  {
    assert GroupEnd("[a](b\n)[c](dddd)", 7, 0, '[', ']') == Some(9);
    assert GroupEnd("[a](b\n)[c](dddd)", 10, 0, '(', ')') == Some(15);
  }

  lemma NewlineExampleSpans()
    ensures Spans("[a](b\n)[c](dddd)", 0) == [Span(0, 7), Span(7, 16)]
    ensures LineStart("[a](b\n)[c](dddd)", 7) == 6
  {
    NewlineExampleFirstLink();
    NewlineExampleSecondLink();
    assert Spans("[a](b\n)[c](dddd)", 7) == [Span(7, 16)];
  }

  // ----- Text within the limit is only trimmed -----

  function Shifted(spans: seq<Span>, w: nat): seq<Span> {
    if spans == [] then []
    else [Span(spans[0].start + w, spans[0].end + w)] + Shifted(spans[1..], w)
  }

  function PlusOffset(r: Option<nat>, w: nat): Option<nat> {
    match r
    case None => None
    case Some(v) => Some(v + w)
  }

  lemma {:induction false} GroupEndDrop(s: string, w: nat, i: nat, depth: nat, open: char, close: char)
    requires w + i <= |s| && (w > 0 ==> s[w - 1] != '\\')
    ensures GroupEnd(s, w + i, depth, open, close) == PlusOffset(GroupEnd(s[w..], i, depth, open, close), w)
    decreases |s| - i
  {
    if w + i < |s| {
      IsEscapedDrop(s, w, i);
      if Active(s, w + i, open) {
        GroupEndDrop(s, w, i + 1, depth + 1, open, close);
      } else if !Active(s, w + i, close) {
        GroupEndDrop(s, w, i + 1, depth, open, close);
      } else if depth > 1 {
        GroupEndDrop(s, w, i + 1, depth - 1, open, close);
      }
    }
  }

  lemma LinkEndDrop(s: string, w: nat, i: nat)
    requires w + i <= |s| && (w > 0 ==> s[w - 1] != '\\')
    ensures LinkEnd(s, w + i) == PlusOffset(LinkEnd(s[w..], i), w)
  {
    GroupEndDrop(s, w, i, 0, '[', ']');
    var bracket := GroupEnd(s[w..], i, 0, '[', ']');
    if bracket.Some? && bracket.value + 1 <= |s[w..]| {
      GroupEndDrop(s, w, bracket.value + 1, 0, '(', ')');
    }
  }

  lemma {:induction false} SpansDrop(s: string, w: nat, i: nat)
    requires w + i <= |s| && (w > 0 ==> s[w - 1] != '\\')
    ensures Spans(s, w + i) == Shifted(Spans(s[w..], i), w)
    decreases |s| - i
  {
    if w + i < |s| {
      IsEscapedDrop(s, w, i);
      LinkEndDrop(s, w, i);
      if LinkStartsAt(s, w + i) {
        var end := LinkEnd(s[w..], i).value;
        SpansDrop(s, w, end);
        assert Spans(s, w + i) == [Span(w + i, w + end)] + Spans(s, w + end);
        assert Spans(s[w..], i)[1..] == Spans(s[w..], end);
      } else {
        SpansDrop(s, w, i + 1);
        assert Spans(s[w..], i) == Spans(s[w..], i + 1);
      }
    }
  }

  lemma {:induction false} SpansSkipWhitespace(s: string, i: nat, w: nat)
    requires i <= w <= |s|
    requires forall k :: i <= k < w ==> IsWhitespace(s[k])
    ensures Spans(s, i) == Spans(s, w)
    decreases w - i
  {
    if i < w {
      SpansSkipWhitespace(s, i + 1, w);
    }
  }

  /** Text that fits the limit is kept whole, and keeps every link: trimming only moves them to the left. */
  lemma UncutTextKeepsAllLinks(s: string, limit: nat)
    requires |s| <= limit
    ensures KeptChars(s, limit) == |s|
    ensures |TrimStart(s)| <= |s|
    ensures Shifted(Spans(Trim(s), 0), |s| - |TrimStart(s)|) == Spans(s, 0)
  {
    TrimStartShape(s);
    PrintableIsNotWhitespace('\\');
    var w := |s| - |TrimStart(s)|;
    assert s[w..] == TrimStart(s);
    SpansSkipWhitespace(s, 0, w);
    SpansDrop(s, w, 0);
    TrimmingDropsNoLink(TrimStart(s));
  }
}
