/**
 The runs and pairs of the backtick pass by position: which run closes which, and why a fenced code
 block that section 4.5 of CommonMark 0.31.2 reads is one pair.
 */
module BacktickPairs {
  import opened Wrappers
  import opened Positions
  import opened Backticks
  import opened CodeMarkup

  // ----- Runs by position -----

  /** `s[a..b]` is a backtick run that nothing prolongs. */
  ghost predicate IsRun(s: string, a: nat, b: nat) {
    && a < b <= |s| && (forall k :: a <= k < b ==> s[k] == '`')
    && (a > 0 ==> s[a - 1] != '`') && (b < |s| ==> s[b] != '`')
  }

  /** At most three spaces stand between the start of the line and `a`. */
  ghost predicate IndentedByThree(s: string, a: nat)
    requires a <= |s|
  {
    exists l: nat :: LineStartsAt(s, l) && a - 3 <= l <= a && forall k :: l <= k < a ==> s[k] == ' '
  }

  ghost predicate LineStartsAt(s: string, l: nat) {
    l == 0 || (l <= |s| && s[l - 1] == '\n')
  }

  /** Nothing but spaces and tabs stands between `b` and a line feed or the end of the text. */
  ghost predicate BlankBehind(s: string, b: nat)
    requires b <= |s|
  {
    exists e: nat :: LineEndsAt(s, e) && b <= e <= |s| && forall k :: b <= k < e ==> s[k] == ' ' || s[k] == '\t'
  }

  ghost predicate LineEndsAt(s: string, e: nat) {
    e == |s| || (e < |s| && s[e] == '\n')
  }

  /** The run with the flags its position gives it. */
  ghost predicate Describes(s: string, r: Run) {
    && IsRun(s, r.start, r.end)
    && (r.escaped <==> IsEscaped(s, r.start))
    && (r.fenceIndented <==> IndentedByThree(s, r.start))
    && (r.suffixBlank <==> BlankBehind(s, r.end))
  }

  lemma IndentWidthIff(s: string, a: nat)
    requires a <= |s|
    ensures 0 <= IndentWidth(s, a) <= 3 <==> IndentedByThree(s, a)
  {
    var start := LineStart(s, a);
    IndentWidthMeaning(s, a);
    LineStartShape(s, a);
    assert LineStartsAt(s, start);
    if l: nat :| LineStartsAt(s, l) && a - 3 <= l <= a && forall k :: l <= k < a ==> s[k] == ' ' {
      var beforeL, beforeStart := if l > 0 then s[l - 1] else ' ', if start > 0 then s[start - 1] else ' ';
      assert l == start;
    }
  }

  lemma {:induction false} SuffixBlankIff(s: string, b: nat)
    requires b <= |s|
    ensures SuffixBlank(s, b) <==> BlankBehind(s, b)
    decreases |s| - b
  {
    if LineEndsAt(s, b) {
      assert BlankBehind(s, b);
    } else {
      SuffixBlankIff(s, b + 1);
      if BlankBehind(s, b + 1) && (s[b] == ' ' || s[b] == '\t') {
        var e: nat :| LineEndsAt(s, e) && b + 1 <= e <= |s| && forall k :: b + 1 <= k < e ==> s[k] == ' ' || s[k] == '\t';
        assert forall k :: b <= k < e ==> s[k] == ' ' || s[k] == '\t';
      }
      if BlankBehind(s, b) {
        var e: nat :| LineEndsAt(s, e) && b <= e <= |s| && forall k :: b <= k < e ==> s[k] == ' ' || s[k] == '\t';
        assert e != b;
        assert BlankBehind(s, b + 1);
      }
    }
  }

  lemma RunAtDescribes(s: string, i: nat)
    requires i < |s| && s[i] == '`' && (i > 0 ==> s[i - 1] != '`')
    ensures Describes(s, RunAt(s, i))
  {
    hide IndentWidth, SuffixBlank;
    RunEndIsMaximal(s, i);
    RunsSplit(s, i);
    IndentWidthIff(s, i);
    SuffixBlankIff(s, RunEnd(s, i));
  }

  /** The collected runs are, from left to right, all the runs of the text with the flags of their positions. */
  lemma {:induction false} RunsAreExactly(s: string, i: nat)
    requires i <= |s| && (i > 0 && i < |s| && s[i] == '`' ==> s[i - 1] != '`')
    ensures forall k :: 0 <= k < |Runs(s, i)| ==> Describes(s, Runs(s, i)[k]) && i <= Runs(s, i)[k].start
    ensures forall j, k :: 0 <= j < k < |Runs(s, i)| ==> Runs(s, i)[j].end < Runs(s, i)[k].start
    ensures forall a: nat, b: nat :: i <= a && IsRun(s, a, b) ==>
              exists k :: 0 <= k < |Runs(s, i)| && Runs(s, i)[k].start == a
    decreases |s| - i
  {
    hide Describes;
    if i < |s| {
      if s[i] != '`' {
        RunsAreExactly(s, i + 1);
        assert Runs(s, i) == Runs(s, i + 1);
        forall a: nat, b: nat | i <= a && IsRun(s, a, b)
          ensures i + 1 <= a
        {
          assert s[a] == '`';
        }
      } else {
        var e := RunEnd(s, i);
        RunsSplit(s, i);
        RunEndIsMaximal(s, i);
        RunAtDescribes(s, i);
        RunsAreExactly(s, e);
        FirstRunLeads(s, i);
      }
    }
  }

  lemma FirstRunLeads(s: string, i: nat)
    requires i < |s| && s[i] == '`' && (i > 0 ==> s[i - 1] != '`')
    requires var rest := Runs(s, RunEnd(s, i));
      && (forall k :: 0 <= k < |rest| ==> Describes(s, rest[k]) && RunEnd(s, i) <= rest[k].start)
      && (forall j, k :: 0 <= j < k < |rest| ==> rest[j].end < rest[k].start)
      && forall a: nat, b: nat :: RunEnd(s, i) <= a && IsRun(s, a, b) ==>
           exists k :: 0 <= k < |rest| && rest[k].start == a
    ensures forall j, k :: 0 <= j < k < |Runs(s, i)| ==> Runs(s, i)[j].end < Runs(s, i)[k].start
    ensures forall a: nat, b: nat :: i <= a && IsRun(s, a, b) ==>
              exists k :: 0 <= k < |Runs(s, i)| && Runs(s, i)[k].start == a
  {
    hide RunEnd, IsEscaped, IndentedByThree, BlankBehind;
    var e, all := RunEnd(s, i), Runs(s, i);
    RunsSplit(s, i);
    RunEndIsMaximal(s, i);
    var rest := Runs(s, e);
    assert all == [RunAt(s, i)] + rest;
    forall k | 0 < k < |all|
      ensures e < all[k].start
    {
      assert all[k] == rest[k - 1] && s[rest[k - 1].start] == '`';
    }
    forall a: nat, b: nat | i <= a && IsRun(s, a, b)
      ensures exists k :: 0 <= k < |all| && all[k].start == a
    {
      var before := if a > 0 then s[a - 1] else ' ';
      if a == i {
        assert all[0].start == a;
      } else {
        assert a >= e;
        var k :| 0 <= k < |rest| && rest[k].start == a;
        assert all[k + 1].start == a;
      }
    }
  }

  // ----- Pairs by position -----

  /** `r` may close the fence of `opening`: both indented at most three, three backticks or more, nothing behind. */
  ghost predicate FenceCloses(opening: Run, r: Run) {
    && opening.end - opening.start >= 3 && opening.fenceIndented
    && !r.escaped && r.end - r.start >= opening.end - opening.start && r.fenceIndented && r.suffixBlank
  }

  /** `r` may close the code span that `opening` opens. */
  ghost predicate SpanCloses(opening: Run, r: Run) {
    !r.escaped && r.end - r.start == opening.end - opening.start
  }

  /**
   Run `j` is the one that closes run `i`: the first later run that closes it as a fence, or, where
   no later run does, the first later run of equal length.
   */
  ghost predicate Closes(runs: seq<Run>, i: nat, j: nat)
    requires i < j < |runs|
  {
    || (FenceCloses(runs[i], runs[j]) && forall k :: i < k < j ==> !FenceCloses(runs[i], runs[k]))
    || (&& (forall k :: i < k < |runs| ==> !FenceCloses(runs[i], runs[k]))
        && SpanCloses(runs[i], runs[j]) && forall k :: i < k < j ==> !SpanCloses(runs[i], runs[k]))
  }

  /** No later run closes run `i`. */
  ghost predicate StaysOpen(runs: seq<Run>, i: nat)
    requires i < |runs|
  {
    forall k :: i < k < |runs| ==> !FenceCloses(runs[i], runs[k]) && !SpanCloses(runs[i], runs[k])
  }

  lemma {:induction false} FenceOffsetIsFirst(opening: Run, rest: seq<Run>)
    requires opening.Len() >= 3 && opening.fenceIndented
    ensures var r := FenceOffset(opening, rest);
      && (r.Some? ==> FenceCloses(opening, rest[r.value])
                      && forall k :: 0 <= k < r.value ==> !FenceCloses(opening, rest[k]))
      && (r.None? ==> forall k :: 0 <= k < |rest| ==> !FenceCloses(opening, rest[k]))
  {
    if rest != [] {
      FenceOffsetIsFirst(opening, rest[1..]);
      assert forall k :: 0 < k < |rest| ==> rest[k] == rest[1..][k - 1];
    }
  }

  lemma {:induction false} InlineOffsetIsFirst(opening: Run, rest: seq<Run>)
    ensures var r := InlineOffset(opening, rest);
      && (r.Some? ==> SpanCloses(opening, rest[r.value])
                      && forall k :: 0 <= k < r.value ==> !SpanCloses(opening, rest[k]))
      && (r.None? ==> forall k :: 0 <= k < |rest| ==> !SpanCloses(opening, rest[k]))
  {
    if rest != [] {
      InlineOffsetIsFirst(opening, rest[1..]);
      assert forall k :: 0 < k < |rest| ==> rest[k] == rest[1..][k - 1];
    }
  }

  /** The search over the later runs finds exactly the closing run. */
  lemma ClosingIsByPosition(runs: seq<Run>, i: nat)
    requires i < |runs|
    ensures var r := ClosingOffset(runs[i], runs[i + 1..]);
      && (r.Some? ==> Closes(runs, i, i + 1 + r.value))
      && (r.None? ==> StaysOpen(runs, i))
  {
    var opening, rest := runs[i], runs[i + 1..];
    if opening.Len() >= 3 && opening.fenceIndented {
      FenceOffsetIsFirst(opening, rest);
    }
    InlineOffsetIsFirst(opening, rest);
    assert forall k :: i < k < |runs| ==> runs[k] == rest[k - i - 1];
  }

  // ----- The whole pairing -----

  /**
   A pairing by index: openers are unescaped and closed by their closing runs, pairs follow each
   other, and every unescaped run outside the pairs stays open.
   */
  ghost predicate PairedBy(runs: seq<Run>, from: nat, ps: seq<(nat, nat)>) {
    && (forall m :: 0 <= m < |ps| ==>
          from <= ps[m].0 < ps[m].1 < |runs| && !runs[ps[m].0].escaped && Closes(runs, ps[m].0, ps[m].1))
    && (forall m, n :: 0 <= m < n < |ps| ==> ps[m].1 < ps[n].0)
    && (forall k :: from <= k < |runs| && !runs[k].escaped && Outside(ps, k) ==> StaysOpen(runs, k))
  }

  /** Index `k` is neither in a pair nor between its ends. */
  ghost predicate Outside(ps: seq<(nat, nat)>, k: nat) {
    forall m :: 0 <= m < |ps| ==> !(ps[m].0 <= k <= ps[m].1)
  }

  /** What the pairing function and the list of unmatched runs are, for a pairing by index. */
  ghost predicate Shows(runs: seq<Run>, from: nat, ps: seq<(nat, nat)>, us: seq<Run>, pairs: seq<(Run, Run)>)
    requires PairedBy(runs, from, ps)
  {
    && |pairs| == |ps| && (forall m :: 0 <= m < |ps| ==> pairs[m] == (runs[ps[m].0], runs[ps[m].1]))
    && (forall r :: r in us <==> exists k :: from <= k < |runs| && runs[k] == r && !r.escaped && Outside(ps, k))
  }

  /** A first run that is escaped, or that stays open, adds no pair. */
  lemma FirstRunIsAlone(runs: seq<Run>, from: nat, ps: seq<(nat, nat)>, us: seq<Run>, pairs: seq<(Run, Run)>)
    requires from < |runs| && PairedBy(runs, from + 1, ps) && Shows(runs, from + 1, ps, us, pairs)
    requires runs[from].escaped || StaysOpen(runs, from)
    ensures PairedBy(runs, from, ps)
    ensures Shows(runs, from, ps, if runs[from].escaped then us else [runs[from]] + us, pairs)
  {
    hide Closes, StaysOpen;
    assert Outside(ps, from);
    var all := if runs[from].escaped then us else [runs[from]] + us;
    forall r
      ensures r in all <==> exists k :: from <= k < |runs| && runs[k] == r && !r.escaped && Outside(ps, k)
    {
      assert r in all <==> r in us || (!runs[from].escaped && r == runs[from]);
    }
  }

  /** A first run that closes with run `j`. */
  lemma FirstRunIsPaired(runs: seq<Run>, from: nat, j: nat, more: seq<(nat, nat)>, us: seq<Run>, pairs: seq<(Run, Run)>)
    requires from < j < |runs| && PairedBy(runs, j + 1, more) && Shows(runs, j + 1, more, us, pairs)
    requires !runs[from].escaped && Closes(runs, from, j)
    ensures var ps := [(from, j)] + more;
      PairedBy(runs, from, ps) && Shows(runs, from, ps, us, [(runs[from], runs[j])] + pairs)
  {
    hide Closes, StaysOpen, Outside;
    var ps := [(from, j)] + more;
    forall k | from <= k < |runs|
      ensures Outside(ps, k) <==> k > j && Outside(more, k)
    {
      OutsideMore(from, j, more, k);
    }
    assert ps[0] == (from, j) && forall m :: 0 < m < |ps| ==> ps[m] == more[m - 1];
    assert PairedBy(runs, from, ps);
  }

  lemma OutsideMore(i: nat, j: nat, more: seq<(nat, nat)>, k: nat)
    requires i <= k && forall m :: 0 <= m < |more| ==> j < more[m].0
    ensures Outside([(i, j)] + more, k) <==> k > j && Outside(more, k)
  {
    var ps := [(i, j)] + more;
    assert ps[0] == (i, j) && forall m :: 0 < m < |ps| ==> ps[m] == more[m - 1];
    assert forall m :: 0 <= m < |more| ==> more[m] == ps[m + 1];
  }

  /** The pass pairs the runs by position, and lists as unmatched exactly the unescaped runs outside all pairs. */
  lemma {:induction false} PairingIsByPosition(runs: seq<Run>, from: nat) returns (ps: seq<(nat, nat)>)
    requires from <= |runs|
    ensures PairedBy(runs, from, ps) && Shows(runs, from, ps, Unmatched(runs[from..]), Pairs(runs[from..]))
    decreases |runs| - from
  {
    hide ClosingOffset, Closes, StaysOpen, PairedBy, Shows;
    if from == |runs| {
      NothingToPair(runs);
      ps := [];
    } else {
      var rest := runs[from..];
      assert rest[1..] == runs[from + 1..];
      if rest[0].escaped {
        ps := PairingIsByPosition(runs, from + 1);
        FirstRunIsAlone(runs, from, ps, Unmatched(rest[1..]), Pairs(rest[1..]));
      } else {
        ClosingIsByPosition(runs, from);
        match ClosingOffset(runs[from], runs[from + 1..])
        case None =>
          ps := PairingIsByPosition(runs, from + 1);
          FirstRunIsAlone(runs, from, ps, Unmatched(rest[1..]), Pairs(rest[1..]));
        case Some(k) =>
          assert rest[k + 2..] == runs[from + k + 2..];
          var more := PairingIsByPosition(runs, from + k + 2);
          ps := [(from, from + k + 1)] + more;
          FirstRunIsPaired(runs, from, from + k + 1, more, Unmatched(rest[k + 2..]), Pairs(rest[k + 2..]));
      }
    }
  }

  lemma NothingToPair(runs: seq<Run>)
    ensures PairedBy(runs, |runs|, []) && Shows(runs, |runs|, [], [], [])
  {
  }

  // ----- Fenced blocks, section 4.5 -----

  /** The start of the line after the opening fence. */
  function ContentStart(s: string): nat
    requires LineEnd(s, RunEnd(s, 0)) < |s|
  {
    NextLine(s, LineEnd(s, RunEnd(s, 0)))
  }

  /** The text is one fenced block: its closing line, at `close`, ends it. */
  ghost predicate WholeBlock(s: string, close: nat) {
    && ReadFencedBlock(s).Some? && FindClosingLine(s, ContentStart(s), RunEnd(s, 0)) == Some(close) && close <= |s|
    && (LineEnd(s, close) == |s| || NextLine(s, LineEnd(s, close)) == |s|)
  }

  /** The closing line is delimited by line feeds, as the backtick pass delimits lines. */
  ghost predicate Visible(s: string, close: nat)
    requires close <= |s|
  {
    && close > 0 && s[close - 1] == '\n'
    && (LineEnd(s, close) == |s| || s[LineEnd(s, close)] == '\n')
  }

  lemma {:induction false} LineEndShape(s: string, i: nat)
    requires i <= |s|
    ensures forall k :: i <= k < LineEnd(s, i) ==> !IsLineEnding(s[k])
    ensures LineEnd(s, i) < |s| ==> IsLineEnding(s[LineEnd(s, i)])
    decreases |s| - i
  {
    if i < |s| && !IsLineEnding(s[i]) {
      LineEndShape(s, i + 1);
    }
  }

  lemma {:induction false} SkipSpacesShape(s: string, i: nat, budget: nat)
    requires i <= |s|
    ensures var j := SkipSpaces(s, i, budget);
      && j - i <= budget && (forall k :: i <= k < j ==> s[k] == ' ')
      && (j < |s| && s[j] == ' ' ==> j - i == budget)
    decreases |s| - i
  {
    if budget > 0 && i < |s| && s[i] == ' ' {
      SkipSpacesShape(s, i + 1, budget - 1);
    }
  }

  lemma {:induction false} SkipSpacesIs(s: string, i: nat, budget: nat, j: nat)
    requires i <= j < |s| && j - i <= budget && s[j] != ' ' && forall k :: i <= k < j ==> s[k] == ' '
    ensures SkipSpaces(s, i, budget) == j
    decreases j - i
  {
    if i < j {
      SkipSpacesIs(s, i + 1, budget - 1, j);
    }
  }

  lemma {:induction false} BlankLineShape(s: string, i: nat)
    requires i <= |s|
    ensures BlankToLineEnd(s, i) <==> forall k :: i <= k < LineEnd(s, i) ==> s[k] == ' ' || s[k] == '\t'
    decreases |s| - i
  {
    if i < |s| && !IsLineEnding(s[i]) {
      BlankLineShape(s, i + 1);
    }
  }

  /** No line that closes the fence comes before the one found. */
  lemma {:induction false} FoundLineIsFirst(s: string, i: nat, l: nat, n: nat)
    requires i <= l <= |s| && (i < l ==> s[l - 1] == '\n') && ClosesFence(s, l, n)
    ensures FindClosingLine(s, i, n).Some? && i <= FindClosingLine(s, i, n).value <= l
    decreases l - i
  {
    hide ClosesFence;
    if !ClosesFence(s, i, n) {
      LineEndsBefore(s, i, l);
      FoundLineIsFirst(s, NextLine(s, LineEnd(s, i)), l, n);
    }
  }

  lemma {:induction false} FoundLineCloses(s: string, i: nat, n: nat)
    requires i <= |s| && FindClosingLine(s, i, n).Some?
    ensures var c := FindClosingLine(s, i, n).value;
      i <= c <= |s| && ClosesFence(s, c, n) && (c == i || IsLineEnding(s[c - 1]))
    decreases |s| - i
  {
    hide ClosesFence;
    if !ClosesFence(s, i, n) {
      LineEndShape(s, i);
      FoundLineCloses(s, NextLine(s, LineEnd(s, i)), n);
    }
  }

  /** The closing fence of the block: where it starts, and that nothing but its line's end follows. */
  lemma ClosingFenceShape(s: string, close: nat)
    requires WholeBlock(s, close)
    ensures var a, n := SkipSpaces(s, close, 3), RunEnd(s, 0); var b := RunEnd(s, a);
      && RunEnd(s, 0) < ContentStart(s) <= close <= a < b <= LineEnd(s, close) && n >= 3 && b - a >= n
      && IsRun(s, 0, n) && IsRun(s, a, b) && !IsEscaped(s, a) && a - close <= 3
      && (forall k :: close <= k < a ==> s[k] == ' ')
      && (forall k :: b <= k < |s| ==> s[k] != '`')
      && (forall k :: b <= k < LineEnd(s, close) ==> s[k] == ' ' || s[k] == '\t')
  {
    hide ClosesFence, LongestBacktickRun, FindClosingLine, IsEscaped, RunEnd, LineEnd, SkipSpaces;
    var n, start := RunEnd(s, 0), ContentStart(s);
    FoundLineCloses(s, start, n);
    RunEndIsMaximal(s, 0);
    LineEndShape(s, n);
    FenceLineShape(s, close, n);
    var a := SkipSpaces(s, close, 3);
    var b, e := RunEnd(s, a), LineEnd(s, close);
    forall k | b <= k < |s|
      ensures s[k] != '`'
    {
    }
    assert IsLineEnding(s[start - 1]);
    NotEscapedAt(s, a);
  }

  lemma NotEscapedAt(s: string, a: nat)
    requires a <= |s| && (a > 0 ==> s[a - 1] != '\\')
    ensures !IsEscaped(s, a)
  {
  }

  /** A line that closes a fence of `n` backticks, in terms of positions. */
  lemma FenceLineShape(s: string, l: nat, n: nat)
    requires l <= |s| && ClosesFence(s, l, n) && n > 0
    ensures var a := SkipSpaces(s, l, 3); var b := RunEnd(s, a);
      && l <= a < b <= LineEnd(s, l) && b - a >= n && a - l <= 3
      && (forall k :: l <= k < a ==> s[k] == ' ') && (forall k :: a <= k < b ==> s[k] == '`')
      && (forall k :: b <= k < LineEnd(s, l) ==> s[k] == ' ' || s[k] == '\t')
      && (LineEnd(s, l) < |s| ==> IsLineEnding(s[LineEnd(s, l)]))
  {
    var a := SkipSpaces(s, l, 3);
    var b := RunEnd(s, a);
    SkipSpacesShape(s, l, 3);
    RunEndIsMaximal(s, a);
    LineEndShape(s, b);
    BlankLineShape(s, b);
    LineEndIs(s, l, LineEnd(s, b));
  }

  /** A run of the text that the pass takes for the closing fence is the closing fence of the block. */
  lemma OnlyClosingFenceCloses(s: string, close: nat, r: Run)
    requires WholeBlock(s, close) && Describes(s, r) && r.start > 0
    requires r.end - r.start >= RunEnd(s, 0) && r.fenceIndented && r.suffixBlank
    ensures r.start == SkipSpaces(s, close, 3)
  {
    hide ClosesFence, FindClosingLine, LongestBacktickRun, IsEscaped;
    var n, start := RunEnd(s, 0), ContentStart(s);
    ClosingFenceShape(s, close);
    var l: nat :| LineStartsAt(s, l) && r.start - 3 <= l <= r.start && forall k :: l <= k < r.start ==> s[k] == ' ';
    assert l > 0 by {
      assert s[0] == '`';
    }
    assert n < l by {
      assert s[l - 1] == '\n' && forall k :: 0 <= k < n ==> s[k] == '`';
    }
    LineEndsBefore(s, n, l);
    CodeFenceLine(s, l, r, n);
    FoundLineIsFirst(s, start, l, n);
    if close < l {
      LineEndsBefore(s, close, l);
    }
  }

  lemma CodeFenceLine(s: string, l: nat, r: Run, n: nat)
    requires Describes(s, r) && r.suffixBlank && r.end - r.start >= n > 0
    requires l <= r.start <= l + 3 && forall k :: l <= k < r.start ==> s[k] == ' '
    ensures ClosesFence(s, l, n) && SkipSpaces(s, l, 3) == r.start
  {
    hide IsEscaped, IndentedByThree;
    SkipSpacesIs(s, l, 3, r.start);
    RunEndIs(s, r.start, r.end);
    var e: nat :| LineEndsAt(s, e) && r.end <= e <= |s| && forall k :: r.end <= k < e ==> s[k] == ' ' || s[k] == '\t';
    LineEndIs(s, r.end, e);
    BlankLineShape(s, r.end);
  }

  /** The closing fence has the flags of a closing fence exactly when line feeds delimit its line. */
  lemma ClosingFenceFlags(s: string, close: nat, r: Run)
    requires WholeBlock(s, close) && Describes(s, r) && r.start == SkipSpaces(s, close, 3)
    ensures r.end == RunEnd(s, r.start) && !r.escaped
    ensures r.fenceIndented && r.suffixBlank <==> Visible(s, close)
  {
    hide ClosesFence, FindClosingLine, LongestBacktickRun, IsEscaped;
    ClosingFenceShape(s, close);
    RunEndIs(s, r.start, r.end);
    LineEndShape(s, close);
    var end := LineEnd(s, close);
    if Visible(s, close) {
      assert LineStartsAt(s, close);
      assert LineEndsAt(s, end);
    }
    if r.fenceIndented {
      var l: nat :| LineStartsAt(s, l) && r.start - 3 <= l <= r.start && forall k :: l <= k < r.start ==> s[k] == ' ';
      FenceLineStart(s, close, l, r.start);
    }
    if r.suffixBlank {
      var e: nat :| LineEndsAt(s, e) && r.end <= e <= |s| && forall k :: r.end <= k < e ==> s[k] == ' ' || s[k] == '\t';
      assert e <= end by {
        assert end < |s| ==> IsLineEnding(s[end]);
      }
      assert e == end by {
        assert e < |s| ==> s[e] == '\n';
      }
    }
  }

  lemma FenceLineStart(s: string, close: nat, l: nat, a: nat)
    requires WholeBlock(s, close) && a == SkipSpaces(s, close, 3) && l <= a && LineStartsAt(s, l)
    requires forall k :: l <= k < a ==> s[k] == ' '
    ensures close > 0 && s[close - 1] == '\n'
  {
    hide ClosesFence, LongestBacktickRun, IsEscaped;
    ClosingFenceShape(s, close);
    var start := ContentStart(s);
    FoundLineCloses(s, start, RunEnd(s, 0));
    LineEndShape(s, RunEnd(s, 0));
    assert IsLineEnding(s[close - 1]);
    assert s[0] == '`';
    var before := if l > 0 then s[l - 1] else '\n';
    assert l == close;
  }

  /** Runs in order, each as its position says. */
  ghost predicate Ordered(s: string, runs: seq<Run>) {
    && (forall k :: 0 <= k < |runs| ==> Describes(s, runs[k]))
    && forall j, k :: 0 <= j < k < |runs| ==> runs[j].end < runs[k].start
  }

  /** A run at the start of the text is the first, and one that no backtick follows is the last. */
  lemma OutermostRuns(s: string, runs: seq<Run>, i: nat, j: nat, n: nat, b: nat)
    requires Ordered(s, runs) && i < |runs| && j < |runs| && runs[i].start == 0 && IsRun(s, 0, n)
    requires IsRun(s, runs[j].start, b) && forall k :: b <= k < |s| ==> s[k] != '`'
    ensures i == 0 && j == |runs| - 1 && runs[0].end == n && runs[j].end == b
    ensures forall k :: 0 < k < |runs| ==> runs[0].start < runs[k].start
    ensures forall k :: 0 <= k < j ==> runs[k].start < runs[j].start
  {
    hide IsEscaped, IndentedByThree, BlankBehind;
    SameRun(s, 0, n, runs[i].end);
    SameRun(s, runs[j].start, b, runs[j].end);
    var last := runs[|runs| - 1];
    assert s[last.start] == '`';
    if 0 < i {
      OrderOf(s, runs, 0, i);
    }
    if j < |runs| - 1 {
      OrderOf(s, runs, j, |runs| - 1);
    }
  }

  lemma OrderOf(s: string, runs: seq<Run>, j: nat, k: int)
    requires Ordered(s, runs) && j < k < |runs|
    ensures runs[j].end < runs[k].start
  {
  }

  lemma SameRun(s: string, a: nat, b: nat, c: nat)
    requires IsRun(s, a, b) && IsRun(s, a, c)
    ensures b == c
  {
    var atB, atC := if b < |s| then s[b] else ' ', if c < |s| then s[c] else ' ';
  }

  /** The first run of a block is its opening fence, the last one its closing fence. */
  lemma BlockRuns(s: string, close: nat)
    requires WholeBlock(s, close)
    ensures var runs := Runs(s, 0); var last := |runs| - 1;
      && |runs| >= 2 && Ordered(s, runs)
      && runs[0].start == 0 && runs[0].end == RunEnd(s, 0) >= 3
      && runs[last].start == SkipSpaces(s, close, 3) > 0
      && (forall k :: 0 < k < |runs| ==> runs[0].start < runs[k].start)
      && forall k :: 0 <= k < last ==> runs[k].start < runs[last].start
  {
    hide ClosesFence, FindClosingLine, LongestBacktickRun, WholeBlock, Runs, Describes, IsRun, RunEnd, SkipSpaces,
      IsEscaped;
    ClosingFenceShape(s, close);
    var runs, n, a := Runs(s, 0), RunEnd(s, 0), SkipSpaces(s, close, 3);
    RunsAreExactly(s, 0);
    var i :| 0 <= i < |runs| && runs[i].start == 0;
    var j :| 0 <= j < |runs| && runs[j].start == a;
    OutermostRuns(s, runs, i, j, n, RunEnd(s, a));
  }

  /** The closing fence is as long as the opening one, and no unescaped run between them is. */
  ghost predicate PairsAsSpan(runs: seq<Run>)
    requires |runs| >= 2
  {
    && runs[|runs| - 1].Len() == runs[0].Len()
    && forall k :: 0 < k < |runs| - 1 ==> runs[k].escaped || runs[k].Len() != runs[0].Len()
  }

  /**
   The pass takes a whole fenced block for one pair exactly when line feeds delimit its closing line,
   or its fences pair as a code span would; it then leaves the block as it is.
   */
  lemma BlockIsOnePairIff(s: string, close: nat)
    requires WholeBlock(s, close)
    ensures var runs := Runs(s, 0);
      && |runs| >= 2
      && (Pairs(runs) == [(runs[0], runs[|runs| - 1])] <==> Visible(s, close) || PairsAsSpan(runs))
      && (Visible(s, close) || PairsAsSpan(runs) ==> EscapeUnclosed(s) == s)
  {
    hide ClosesFence, FindClosingLine, LongestBacktickRun, IsEscaped, IndentedByThree, BlankBehind, WholeBlock, Runs,
      EscapeUnclosed, ClosingOffset, RunEnd, SkipSpaces, Visible;
    var runs := Runs(s, 0);
    var last := |runs| - 1;
    BlockRuns(s, close);
    ClosingFenceFlags(s, close, runs[last]);
    forall k | 0 < k < last
      ensures !FenceCloses(runs[0], runs[k])
    {
      if FenceCloses(runs[0], runs[k]) {
        OnlyClosingFenceCloses(s, close, runs[k]);
      }
    }
    ClosingFenceShape(s, close);
    OpeningFenceIsIndented(s, runs[0]);
    assert FenceCloses(runs[0], runs[last]) <==> Visible(s, close);
    OnePairIff(runs);
    EscapingIsIdempotent(s);
  }

  lemma OpeningFenceIsIndented(s: string, r: Run)
    requires Describes(s, r) && r.start == 0
    ensures r.fenceIndented && !r.escaped
  {
    assert LineStartsAt(s, 0);
  }

  lemma ClosingRunIsUnique(runs: seq<Run>, i: nat, j: nat, k: nat)
    requires i < j < |runs| && i < k < |runs| && Closes(runs, i, j) && Closes(runs, i, k)
    ensures j == k
  {
  }

  /** The runs are one pair exactly when the last one closes the first. */
  lemma OnePairIff(runs: seq<Run>)
    requires |runs| >= 2 && !runs[0].escaped
    requires forall k :: 0 <= k < |runs| - 1 ==> runs[k].start < runs[|runs| - 1].start
    requires forall k :: 0 < k < |runs| ==> runs[0].start < runs[k].start
    ensures Pairs(runs) == [(runs[0], runs[|runs| - 1])] <==> Closes(runs, 0, |runs| - 1)
    ensures Closes(runs, 0, |runs| - 1) ==> Unmatched(runs) == []
  {
    hide ClosingOffset, Closes, Pairs, Unmatched, PairedBy;
    var last := |runs| - 1;
    if Closes(runs, 0, last) {
      LastCloses(runs);
    }
    if Pairs(runs) == [(runs[0], runs[last])] {
      var ps := PairingIsByPosition(runs, 0);
      assert runs[0..] == runs;
      assert |ps| == 1 && Pairs(runs)[0] == (runs[ps[0].0], runs[ps[0].1]) by { OnlyPair(runs, ps); }
      assert ps[0] == (0, last);
      PairedCloses(runs, ps);
    }
  }

  lemma OnlyPair(runs: seq<Run>, ps: seq<(nat, nat)>)
    requires PairedBy(runs, 0, ps) && Shows(runs, 0, ps, Unmatched(runs), Pairs(runs)) && |Pairs(runs)| == 1
    ensures |ps| == 1 && ps[0].0 < ps[0].1 < |runs| && Pairs(runs)[0] == (runs[ps[0].0], runs[ps[0].1])
  {
    hide Pairs, Unmatched, Closes, StaysOpen;
  }

  lemma PairedCloses(runs: seq<Run>, ps: seq<(nat, nat)>)
    requires PairedBy(runs, 0, ps) && ps != []
    ensures ps[0].0 < ps[0].1 < |runs| && Closes(runs, ps[0].0, ps[0].1)
  {
    hide Closes, StaysOpen;
  }

  lemma LastCloses(runs: seq<Run>)
    requires |runs| >= 2 && !runs[0].escaped && Closes(runs, 0, |runs| - 1)
    ensures Pairs(runs) == [(runs[0], runs[|runs| - 1])] && Unmatched(runs) == []
  {
    hide ClosingOffset, Closes, FenceOffset, InlineOffset;
    var last := |runs| - 1;
    ClosingIsByPosition(runs, 0);
    var r := ClosingOffset(runs[0], runs[1..]);
    if r.Some? {
      ClosingRunIsUnique(runs, 0, last, r.value + 1);
    } else {
      StaysOpenMeans(runs, 0, last);
    }
    assert runs[last + 1..] == [];
  }

  lemma StaysOpenMeans(runs: seq<Run>, i: nat, j: nat)
    requires i < j < |runs| && StaysOpen(runs, i)
    ensures !Closes(runs, i, j)
  {
  }

  /** Every whole fenced block without a carriage return is left as it is. */
  lemma FencedBlockStays(s: string, close: nat)
    requires WholeBlock(s, close) && forall k :: 0 <= k < |s| ==> s[k] != '\r'
    ensures EscapeUnclosed(s) == s
  {
    hide EscapeUnclosed, Runs, RunEnd, Pairs, ClosesFence, LongestBacktickRun;
    BlockIsOnePairIff(s, close);
    ClosingFenceShape(s, close);
    FoundLineCloses(s, ContentStart(s), RunEnd(s, 0));
    LineEndShape(s, RunEnd(s, 0));
    LineEndShape(s, close);
    assert IsLineEnding(s[close - 1]);
  }

  const LONGER_CLOSE := "```\n````\r\n"

  lemma LongerCloseRuns()
    ensures var runs := Runs(LONGER_CLOSE, 0);
      && |runs| == 2 && runs[0].Len() == 3 && runs[1].Len() == 4 && !runs[0].escaped && !runs[1].suffixBlank
    ensures RunEnd(LONGER_CLOSE, 0) == 3 && RunEnd(LONGER_CLOSE, 4) == 8
  {
    hide RunEnd, IndentWidth;
    var s := LONGER_CLOSE;
    RunEndIs(s, 0, 3);
    RunEndIs(s, 4, 8);
    RunsSplit(s, 0);
    RunsSplit(s, 4);
    assert Runs(s, 3) == Runs(s, 4);
    assert Runs(s, 8) == Runs(s, 9) == Runs(s, 10) == [];
  }

  lemma LongerCloseIsRead()
    ensures WholeBlock(LONGER_CLOSE, 4)
  {
    hide RunEnd, ClosesFence;
    var s := LONGER_CLOSE;
    LongerCloseRuns();
    assert LineEnd(s, 3) == 3 && LineEnd(s, 4) == 8 by {
      LineEndIs(s, 3, 3);
      LineEndIs(s, 4, 8);
    }
    assert ClosesFence(s, 4, 3) by {
      SkipSpacesIs(s, 4, 3, 4);
      assert BlankToLineEnd(s, 8);
      LongerCloseFence();
    }
    assert s[3..3] == "" && LongestBacktickRun("") == 0;
  }

  lemma LongerCloseFence()
    requires RunEnd(LONGER_CLOSE, 4) == 8 && SkipSpaces(LONGER_CLOSE, 4, 3) == 4 && BlankToLineEnd(LONGER_CLOSE, 8)
    ensures ClosesFence(LONGER_CLOSE, 4, 3)
  {
    hide RunEnd, SkipSpaces, BlankToLineEnd;
  }

  /** With a carriage return behind a longer closing fence the pass finds no pair and escapes the block. */
  lemma CarriageReturnBreaksTheBlock()
    ensures WholeBlock(LONGER_CLOSE, 4) && EscapeUnclosed(LONGER_CLOSE) != LONGER_CLOSE
  {
    hide Runs, EscapeUnclosed, RunEnd, WholeBlock, IsEscaped;
    var runs := Runs(LONGER_CLOSE, 0);
    LongerCloseIsRead();
    LongerCloseRuns();
    assert runs[1..][1..] == [];
    assert ClosingOffset(runs[0], runs[1..]) == None;
    assert Unmatched(runs) != [];
    EscapingIsIdempotent(LONGER_CLOSE);
  }
}
