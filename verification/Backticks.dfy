/**
 Escaping backtick runs that no other run closes. Closed code spans and fenced blocks stay
 as they are, and the runs inside them are not touched.
 */
module Backticks {
  import opened Wrappers
  import opened Positions

  datatype Run = Run(start: nat, end: nat, escaped: bool, fenceIndented: bool, suffixBlank: bool) {
    function Len(): int { end - start }

    /** The same run, `d` positions further right. */
    function Moved(d: nat): Run { this.(start := start + d, end := end + d) }
  }

  // ----- Runs of a text -----

  function RunEnd(s: string, i: nat): (e: nat)
    requires i <= |s|
    ensures i <= e <= |s|
    decreases |s| - i
  {
    if i < |s| && s[i] == '`' then RunEnd(s, i + 1) else i
  }

  /** How many spaces make up the line before `i`, or -1 when it holds anything else. */
  function IndentWidth(s: string, i: nat): int
    requires i <= |s|
  {
    if i == 0 || s[i - 1] == '\n' then 0
    else if s[i - 1] == ' ' && IndentWidth(s, i - 1) >= 0 then IndentWidth(s, i - 1) + 1
    else -1
  }

  /** Only spaces and tabs stand between `i` and the end of the line. */
  predicate SuffixBlank(s: string, i: nat)
    requires i <= |s|
    decreases |s| - i
  {
    i == |s| || s[i] == '\n' || ((s[i] == ' ' || s[i] == '\t') && SuffixBlank(s, i + 1))
  }

  function RunAt(s: string, i: nat): Run
    requires i < |s|
  {
    var e := RunEnd(s, i);
    Run(i, e, IsEscaped(s, i), 0 <= IndentWidth(s, i) <= 3, SuffixBlank(s, e))
  }

  /** The maximal backtick runs from `i` on. */
  function Runs(s: string, i: nat): seq<Run>
    requires i <= |s|
    decreases |s| - i
  {
    if i == |s| then []
    else if s[i] != '`' then Runs(s, i + 1)
    else [RunAt(s, i)] + Runs(s, RunEnd(s, i))
  }

  // ----- Pairing -----

  /** The first run of `rest` that closes a fenced block opened by `opening`. */
  function FenceOffset(opening: Run, rest: seq<Run>): (r: Option<nat>)
    ensures r.Some? ==> r.value < |rest|
  {
    if rest == [] then None
    else if !rest[0].escaped && rest[0].Len() >= opening.Len() && rest[0].fenceIndented && rest[0].suffixBlank then Some(0)
    else
      match FenceOffset(opening, rest[1..])
      case None => None
      case Some(k) => Some(k + 1)
  }

  /** The first run of `rest` that closes a code span opened by `opening`. */
  function InlineOffset(opening: Run, rest: seq<Run>): (r: Option<nat>)
    ensures r.Some? ==> r.value < |rest|
  {
    if rest == [] then None
    else if !rest[0].escaped && rest[0].Len() == opening.Len() then Some(0)
    else
      match InlineOffset(opening, rest[1..])
      case None => None
      case Some(k) => Some(k + 1)
  }

  /** A fence is preferred; a code span is the fallback. */
  function ClosingOffset(opening: Run, rest: seq<Run>): (r: Option<nat>)
    ensures r.Some? ==> r.value < |rest|
  {
    var fence := if opening.Len() >= 3 && opening.fenceIndented then FenceOffset(opening, rest) else None;
    if fence.Some? then fence else InlineOffset(opening, rest)
  }

  /** The unescaped runs that nothing closes. */
  function Unmatched(runs: seq<Run>): seq<Run>
    decreases |runs|
  {
    if runs == [] then []
    else if runs[0].escaped then Unmatched(runs[1..])
    else
      match ClosingOffset(runs[0], runs[1..])
      case Some(k) => Unmatched(runs[k + 2..])
      case None => [runs[0]] + Unmatched(runs[1..])
  }

  /** Opening and closing run of every code span and fenced block, in order. */
  function Pairs(runs: seq<Run>): seq<(Run, Run)>
    decreases |runs|
  {
    if runs == [] then []
    else if runs[0].escaped then Pairs(runs[1..])
    else
      match ClosingOffset(runs[0], runs[1..])
      case Some(k) => [(runs[0], runs[k + 1])] + Pairs(runs[k + 2..])
      case None => Pairs(runs[1..])
  }

  // ----- Rewriting -----

  function EscapedTicks(n: nat): (r: string)
    ensures |r| == 2 * n
  {
    if n == 0 then "" else "\\`" + EscapedTicks(n - 1)
  }

  /** The text from `i` on, with each backtick of the listed runs escaped. */
  function Rewrite(s: string, i: nat, us: seq<Run>): string
    requires i <= |s|
    decreases |s| - i
  {
    if i == |s| then ""
    else if us != [] && us[0].start == i && i < us[0].end <= |s| then
      EscapedTicks(us[0].end - i) + Rewrite(s, us[0].end, us[1..])
    else [s[i]] + Rewrite(s, i + 1, us)
  }

  function EscapeUnclosed(s: string): string {
    Rewrite(s, 0, Unmatched(Runs(s, 0)))
  }

  // ----- What rewriting does to the runs -----

  /** `us` is a subsequence of `runs`. */
  ghost predicate DrawnFrom(us: seq<Run>, runs: seq<Run>) {
    us == []
    || (runs != [] && if us[0] == runs[0] then DrawnFrom(us[1..], runs[1..]) else DrawnFrom(us, runs[1..]))
  }

  /** Escaping `n` backticks at `at` leaves `n` escaped runs of one backtick each. */
  ghost function EscapedRuns(at: nat, n: nat, blank: bool): seq<Run>
    decreases n
  {
    if n == 0 then []
    else [Run(at + 1, at + 2, true, false, n == 1 && blank)] + EscapedRuns(at + 2, n - 1, blank)
  }

  /** The runs of the rewritten text: listed runs fall apart, the others only move. */
  ghost function RewrittenRuns(runs: seq<Run>, us: seq<Run>, d: nat): seq<Run> {
    if runs == [] then []
    else if us != [] && us[0] == runs[0] && runs[0].Len() >= 0 then
      EscapedRuns(runs[0].start + d, runs[0].Len(), runs[0].suffixBlank)
      + RewrittenRuns(runs[1..], us[1..], d + runs[0].Len())
    else [runs[0].Moved(d)] + RewrittenRuns(runs[1..], us, d)
  }

  /** Position `i` of `s` and position `o` of `t` look the same from the right. */
  ghost predicate SameContext(s: string, i: nat, t: string, o: nat)
    requires i <= |s| && o <= |t|
  {
    && IsEscaped(s, i) == IsEscaped(t, o)
    && IndentWidth(s, i) == IndentWidth(t, o)
    && (i == 0 <==> o == 0)
    && (i > 0 ==> s[i - 1] == t[o - 1])
  }

  lemma SameContextStep(s: string, i: nat, t: string, o: nat)
    requires i < |s| && o < |t| && s[i] == t[o] && SameContext(s, i, t, o)
    ensures SameContext(s, i + 1, t, o + 1)
  {
  }

  /** After a backtick nothing is escaped and no line is indented. */
  lemma AfterBacktick(s: string, i: nat, t: string, o: nat)
    requires 0 < i <= |s| && 0 < o <= |t| && s[i - 1] == '`' && t[o - 1] == '`'
    ensures SameContext(s, i, t, o) && !IsEscaped(t, o)
  {
  }

  lemma {:induction false} RunEndIsMaximal(s: string, i: nat)
    requires i <= |s|
    ensures forall k :: i <= k < RunEnd(s, i) ==> s[k] == '`'
    ensures RunEnd(s, i) < |s| ==> s[RunEnd(s, i)] != '`'
    decreases |s| - i
  {
    if i < |s| && s[i] == '`' {
      RunEndIsMaximal(s, i + 1);
    }
  }

  lemma {:induction false} RunEndIs(s: string, i: nat, e: nat)
    requires i <= e <= |s| && (e < |s| ==> s[e] != '`')
    requires forall k :: i <= k < e ==> s[k] == '`'
    ensures RunEnd(s, i) == e
    decreases e - i
  {
    if i < e {
      RunEndIs(s, i + 1, e);
    }
  }

  /** The listed runs are unescaped, in order, and lie at or after `i`. */
  ghost predicate Ahead(s: string, i: nat, us: seq<Run>)
    decreases |us|
  {
    us == []
    || (&& i <= us[0].start < us[0].end <= |s| && s[us[0].start] == '`' && !us[0].escaped
        && Ahead(s, us[0].end, us[1..]))
  }

  /** The text holds `n` escaped backticks at `o`. */
  ghost predicate TicksAt(t: string, o: nat, n: nat)
    decreases n
  {
    n == 0 || (o + 2 <= |t| && t[o] == '\\' && t[o + 1] == '`' && TicksAt(t, o + 2, n - 1))
  }

  /** From `o` on, `t` reads like `s` from `i` on with the listed runs escaped. */
  ghost predicate Follows(s: string, i: nat, us: seq<Run>, t: string, o: nat)
    decreases |s| - i
  {
    && i <= |s| && o <= |t|
    && if i == |s| then o == |t|
       else if us != [] && us[0].start == i && i < us[0].end <= |s| then
         && TicksAt(t, o, us[0].end - i)
         && Follows(s, us[0].end, us[1..], t, o + 2 * (us[0].end - i))
       else o < |t| && t[o] == s[i] && Follows(s, i + 1, us, t, o + 1)
  }

  lemma {:induction false} EscapedTicksAreThere(t: string, o: nat, n: nat, rest: string)
    requires o <= |t| && t[o..] == EscapedTicks(n) + rest
    ensures TicksAt(t, o, n) && o + 2 * n <= |t| && t[o + 2 * n..] == rest
    decreases n
  {
    if n > 0 {
      var tail := EscapedTicks(n - 1) + rest;
      assert t[o..] == "\\`" + tail;
      assert t[o] == t[o..][0] && t[o + 1] == t[o..][1];
      assert t[o + 2..] == t[o..][2..] == tail;
      EscapedTicksAreThere(t, o + 2, n - 1, rest);
    }
  }

  lemma {:induction false} RewriteFollows(s: string, i: nat, us: seq<Run>, t: string, o: nat)
    requires i <= |s| && o <= |t| && t[o..] == Rewrite(s, i, us)
    ensures Follows(s, i, us, t, o)
    decreases |s| - i
  {
    if i < |s| {
      if us != [] && us[0].start == i && i < us[0].end <= |s| {
        EscapedTicksAreThere(t, o, us[0].end - i, Rewrite(s, us[0].end, us[1..]));
        RewriteFollows(s, us[0].end, us[1..], t, o + 2 * (us[0].end - i));
      } else {
        assert t[o] == t[o..][0];
        assert t[o + 1..] == t[o..][1..] == Rewrite(s, i + 1, us);
        RewriteFollows(s, i + 1, us, t, o + 1);
      }
    }
  }

  lemma {:induction false} LastTick(t: string, o: nat, n: nat)
    requires TicksAt(t, o, n) && n > 0
    ensures o + 2 * n <= |t| && t[o + 2 * n - 1] == '`'
    decreases n
  {
    if n > 1 {
      LastTick(t, o + 2, n - 1);
    }
  }

  /** The tail of the text blanks out the line exactly when the rewritten tail does. */
  lemma {:induction false} SuffixBlankRewrite(s: string, i: nat, us: seq<Run>, t: string, o: nat)
    requires Follows(s, i, us, t, o) && Ahead(s, i, us)
    ensures SuffixBlank(s, i) == SuffixBlank(t, o)
    decreases |s| - i
  {
    if i < |s| && !(us != [] && us[0].start == i) {
      SuffixBlankRewrite(s, i + 1, us, t, o + 1);
    }
  }

  /** Text up to the next listed run is copied. */
  lemma {:induction false} CopiedUpTo(s: string, i: nat, j: nat, us: seq<Run>, t: string, o: nat)
    requires i <= j <= |s| && Ahead(s, j, us) && Follows(s, i, us, t, o)
    ensures Follows(s, j, us, t, o + (j - i))
    ensures forall k :: i <= k < j ==> t[k - i + o] == s[k]
    decreases j - i
  {
    if i < j {
      CopiedUpTo(s, i + 1, j, us, t, o + 1);
    }
  }

  ghost predicate NoneEscaped(us: seq<Run>) {
    us == [] || (!us[0].escaped && NoneEscaped(us[1..]))
  }

  lemma {:induction false} RunsAreAhead(s: string, i: nat, us: seq<Run>)
    requires i <= |s| && DrawnFrom(us, Runs(s, i)) && NoneEscaped(us)
    ensures Ahead(s, i, us)
    decreases |s| - i
  {
    if us != [] {
      if s[i] != '`' {
        RunsAreAhead(s, i + 1, us);
      } else {
        var e := RunEnd(s, i);
        assert Runs(s, i)[1..] == Runs(s, e);
        if us[0] == RunAt(s, i) {
          RunsAreAhead(s, e, us[1..]);
        } else {
          RunsAreAhead(s, e, us);
        }
      }
    }
  }

  /** A backslash that is not itself escaped makes the backtick after it an escaped run. */
  lemma EscapedTickRun(t: string, o: nat)
    requires o + 2 <= |t| && t[o] == '\\' && t[o + 1] == '`' && !IsEscaped(t, o)
    requires o + 2 < |t| ==> t[o + 2] != '`'
    ensures Runs(t, o) == [Run(o + 1, o + 2, true, false, SuffixBlank(t, o + 2))] + Runs(t, o + 2)
  {
    RunEndIs(t, o + 1, o + 2);
    assert Runs(t, o) == Runs(t, o + 1);
    assert RunAt(t, o + 1) == Run(o + 1, o + 2, true, false, SuffixBlank(t, o + 2));
  }

  /** The escaped backticks of one run are seen as single escaped runs. */
  lemma {:induction false} RunsOfEscapedTicks(t: string, o: nat, n: nat)
    requires o + 2 * n <= |t| && TicksAt(t, o, n) && !IsEscaped(t, o)
    requires n > 0 && o + 2 * n < |t| ==> t[o + 2 * n] != '`'
    ensures Runs(t, o) == EscapedRuns(o, n, SuffixBlank(t, o + 2 * n)) + Runs(t, o + 2 * n)
    decreases n
  {
    if n > 0 {
      EscapedTickRun(t, o);
      RunsOfEscapedTicks(t, o + 2, n - 1);
    }
  }

  ghost predicate RewriteState(s: string, i: nat, us: seq<Run>, t: string, o: nat) {
    && i <= o && Follows(s, i, us, t, o)
    && DrawnFrom(us, Runs(s, i)) && NoneEscaped(us) && SameContext(s, i, t, o)
  }

  lemma RunsSplit(s: string, i: nat)
    requires i < |s| && s[i] == '`'
    ensures i < RunEnd(s, i) && Runs(s, i) == [RunAt(s, i)] + Runs(s, RunEnd(s, i))
  {
  }

  lemma ListedRunIsAtHand(s: string, i: nat, us: seq<Run>)
    requires i < |s| && s[i] == '`' && us != [] && us[0].start == i
    requires DrawnFrom(us, Runs(s, i)) && NoneEscaped(us)
    ensures us[0] == RunAt(s, i) && DrawnFrom(us[1..], Runs(s, RunEnd(s, i))) && NoneEscaped(us[1..])
    ensures !IsEscaped(s, i)
  {
    RunsSplit(s, i);
    assert Runs(s, i)[1..] == Runs(s, RunEnd(s, i));
    if us[0] != RunAt(s, i) {
      RunsAreAhead(s, RunEnd(s, i), us);
      assert false;
    }
  }

  /** What follows a run does not start with a backtick, rewritten or not. */
  lemma NextAfterRun(s: string, e: nat, us: seq<Run>, t: string, o: nat)
    requires e <= |s| && (e < |s| ==> s[e] != '`') && Ahead(s, e, us) && Follows(s, e, us, t, o)
    ensures o < |t| ==> t[o] != '`'
  {
  }

  /** One listed run: it is the run at hand, and it becomes escaped runs. */
  lemma ListedRunStep(s: string, i: nat, us: seq<Run>, t: string, o: nat)
    requires RewriteState(s, i, us, t, o) && i < |s| && s[i] == '`' && us != [] && us[0].start == i
    ensures us[0] == RunAt(s, i)
    ensures var e := RunEnd(s, i);
      && o + 2 * (e - i) <= |t| && RewriteState(s, e, us[1..], t, o + 2 * (e - i))
      && Runs(t, o) == EscapedRuns(o, e - i, SuffixBlank(s, e)) + Runs(t, o + 2 * (e - i))
  {
    hide Runs, RunEnd, DrawnFrom, NoneEscaped, Ahead, IsEscaped, IndentWidth, SuffixBlank, EscapedRuns;
    var e := RunEnd(s, i);
    var o' := o + 2 * (e - i);
    RunsSplit(s, i);
    RunEndIsMaximal(s, i);
    ListedRunIsAtHand(s, i, us);
    RunsAreAhead(s, e, us[1..]);
    LastTick(t, o, e - i);
    AfterBacktick(s, e, t, o');
    NextAfterRun(s, e, us[1..], t, o');
    RunsOfEscapedTicks(t, o, e - i);
    SuffixBlankRewrite(s, e, us[1..], t, o');
  }

  /** A run that is not listed is not the first of the list. */
  lemma KeptRunIsNotListed(s: string, i: nat, us: seq<Run>)
    requires i < |s| && s[i] == '`' && (us != [] ==> us[0].start != i)
    requires DrawnFrom(us, Runs(s, i)) && NoneEscaped(us)
    ensures DrawnFrom(us, Runs(s, RunEnd(s, i))) && Ahead(s, RunEnd(s, i), us)
  {
    RunsSplit(s, i);
    assert Runs(s, i)[1..] == Runs(s, RunEnd(s, i));
    RunsAreAhead(s, RunEnd(s, i), us);
  }

  lemma {:induction false} CopiedRun(s: string, i: nat, us: seq<Run>, t: string, o: nat)
    requires Follows(s, i, us, t, o) && Ahead(s, RunEnd(s, i), us)
    ensures RunEnd(t, o) == o + (RunEnd(s, i) - i) && Follows(s, RunEnd(s, i), us, t, RunEnd(t, o))
    ensures i < RunEnd(s, i) ==> t[o] == s[RunEnd(s, i) - 1] == t[RunEnd(t, o) - 1] == '`'
    decreases |s| - i
  {
    if i < |s| && s[i] == '`' {
      CopiedRun(s, i + 1, us, t, o + 1);
    }
  }

  /** One run that is not listed: it is copied, flags and all. */
  lemma KeptRunStep(s: string, i: nat, us: seq<Run>, t: string, o: nat)
    requires RewriteState(s, i, us, t, o) && i < |s| && s[i] == '`' && (us != [] ==> us[0].start != i)
    ensures var e := RunEnd(s, i);
      && o + (e - i) <= |t| && RewriteState(s, e, us, t, o + (e - i))
      && Runs(t, o) == [RunAt(s, i).Moved(o - i)] + Runs(t, o + (e - i))
  {
    hide Runs, RunEnd, Follows, DrawnFrom, NoneEscaped, Ahead, IsEscaped, IndentWidth, SuffixBlank;
    var e := RunEnd(s, i);
    RunsSplit(s, i);
    KeptRunIsNotListed(s, i, us);
    CopiedRun(s, i, us, t, o);
    RunsSplit(t, o);
    AfterBacktick(s, e, t, RunEnd(t, o));
    SuffixBlankRewrite(s, e, us, t, RunEnd(t, o));
  }

  /** One character outside every run is copied. */
  lemma PlainStep(s: string, i: nat, us: seq<Run>, t: string, o: nat)
    requires RewriteState(s, i, us, t, o) && i < |s| && s[i] != '`'
    ensures i <= o && o < |t| && RewriteState(s, i + 1, us, t, o + 1)
    ensures Runs(s, i) == Runs(s, i + 1) && Runs(t, o) == Runs(t, o + 1)
  {
    RunsAreAhead(s, i, us);
    SameContextStep(s, i, t, o);
  }

  lemma RewrittenListed(r: Run, rest: seq<Run>, us: seq<Run>, d: nat)
    requires us != [] && us[0] == r && r.Len() >= 0
    ensures RewrittenRuns([r] + rest, us, d)
         == EscapedRuns(r.start + d, r.Len(), r.suffixBlank) + RewrittenRuns(rest, us[1..], d + r.Len())
  {
    assert ([r] + rest)[1..] == rest;
  }

  lemma RewrittenKept(r: Run, rest: seq<Run>, us: seq<Run>, d: nat)
    requires us == [] || us[0] != r
    ensures RewrittenRuns([r] + rest, us, d) == [r.Moved(d)] + RewrittenRuns(rest, us, d)
  {
    assert ([r] + rest)[1..] == rest;
  }

  lemma RewriteAtEnd(s: string, us: seq<Run>, t: string, o: nat)
    requires RewriteState(s, |s|, us, t, o)
    ensures o == |t| && Runs(t, o) == RewrittenRuns(Runs(s, |s|), us, o - |s|)
  {
  }

  /** The runs of the rewritten text are the rewritten runs of the text. */
  lemma {:induction false} RunsOfRewrite(s: string, i: nat, us: seq<Run>, t: string, o: nat)
    requires i <= |s| && o <= |t| && i <= o && RewriteState(s, i, us, t, o)
    ensures Runs(t, o) == RewrittenRuns(Runs(s, i), us, o - i)
    decreases |s| - i
  {
    hide Runs, RunEnd, RewrittenRuns, EscapedRuns, RewriteState, IsEscaped, IndentWidth, SuffixBlank;
    if i == |s| {
      RewriteAtEnd(s, us, t, o);
    } else if s[i] != '`' {
      PlainStep(s, i, us, t, o);
      RunsOfRewrite(s, i + 1, us, t, o + 1);
    } else {
      RunsSplit(s, i);
      var e := RunEnd(s, i);
      if us != [] && us[0].start == i {
        ListedRunStep(s, i, us, t, o);
        RunsOfRewrite(s, e, us[1..], t, o + 2 * (e - i));
        RewrittenListed(RunAt(s, i), Runs(s, e), us, o - i);
      } else {
        KeptRunStep(s, i, us, t, o);
        RunsOfRewrite(s, e, us, t, o + (e - i));
        RewrittenKept(RunAt(s, i), Runs(s, e), us, o - i);
      }
    }
  }

  // ----- What rewriting does to the pairing -----

  /** The runs start at strictly increasing positions. */
  ghost predicate Ordered(runs: seq<Run>) {
    runs == [] || ((forall j :: 0 < j < |runs| ==> runs[0].start < runs[j].start) && Ordered(runs[1..]))
  }

  lemma {:induction false} RunsStartFrom(s: string, i: nat)
    requires i <= |s|
    ensures forall j :: 0 <= j < |Runs(s, i)| ==> i <= Runs(s, i)[j].start
    ensures Ordered(Runs(s, i))
    decreases |s| - i
  {
    if i < |s| {
      if s[i] != '`' {
        RunsStartFrom(s, i + 1);
      } else {
        RunsStartFrom(s, RunEnd(s, i));
        assert Runs(s, i)[1..] == Runs(s, RunEnd(s, i));
      }
    }
  }

  /** Every run of a text is within it, and after it the scan goes on from its end. */
  lemma {:induction false} RunsTail(s: string, i: nat, k: nat)
    requires i <= |s| && k < |Runs(s, i)|
    ensures var r := Runs(s, i)[k];
      i <= r.start < r.end <= |s| && s[r.start] == '`' && Runs(s, i)[k + 1..] == Runs(s, r.end)
    decreases |s| - i
  {
    if s[i] != '`' {
      RunsTail(s, i + 1, k);
    } else {
      RunsSplit(s, i);
      if k > 0 {
        RunsTail(s, RunEnd(s, i), k - 1);
        assert Runs(s, i)[k + 1..] == Runs(s, RunEnd(s, i))[k..];
      }
    }
  }

  lemma {:induction false} DrawnFromMore(us: seq<Run>, first: Run, runs: seq<Run>)
    requires DrawnFrom(us, runs)
    ensures DrawnFrom(us, [first] + runs)
    ensures us != [] ==> DrawnFrom(us[1..], runs)
    decreases |runs|
  {
    assert ([first] + runs)[1..] == runs;
    if us != [] {
      assert runs == [runs[0]] + runs[1..];
      if us[0] == runs[0] {
        DrawnFromMore(us[1..], runs[0], runs[1..]);
      } else {
        DrawnFromMore(us, first, runs[1..]);
        DrawnFromMore(us[1..], runs[0], runs[1..]);
      }
    }
  }

  lemma {:induction false} DrawnFromSuffix(us: seq<Run>, runs: seq<Run>, k: nat)
    requires k <= |runs| && DrawnFrom(us, runs[k..])
    ensures DrawnFrom(us, runs)
    decreases k
  {
    if k == 0 {
      assert runs[0..] == runs;
    } else {
      DrawnFromMore(us, runs[k - 1], runs[k..]);
      assert [runs[k - 1]] + runs[k..] == runs[k - 1..];
      DrawnFromSuffix(us, runs, k - 1);
    }
  }

  lemma {:induction false} UnmatchedAreDrawn(runs: seq<Run>)
    ensures DrawnFrom(Unmatched(runs), runs) && NoneEscaped(Unmatched(runs))
    decreases |runs|
  {
    if runs != [] {
      if runs[0].escaped {
        UnmatchedAreDrawn(runs[1..]);
        DrawnFromSuffix(Unmatched(runs), runs, 1);
      } else {
        var closing := ClosingOffset(runs[0], runs[1..]);
        if closing.Some? {
          UnmatchedAreDrawn(runs[closing.value + 2..]);
          DrawnFromSuffix(Unmatched(runs), runs, closing.value + 2);
        } else {
          UnmatchedAreDrawn(runs[1..]);
        }
      }
    }
  }

  /** A run ahead of those the list is drawn from is not the first of the list. */
  lemma {:induction false} NotListed(us: seq<Run>, first: Run, runs: seq<Run>)
    requires DrawnFrom(us, runs) && forall j :: 0 <= j < |runs| ==> first.start < runs[j].start
    ensures us == [] || us[0] != first
    decreases |runs|
  {
    if us != [] && us[0] != runs[0] {
      NotListed(us, first, runs[1..]);
    }
  }

  lemma {:induction false} FenceSkipsEscaped(opening: Run, at: nat, n: nat, blank: bool, rest: seq<Run>)
    requires FenceOffset(opening, rest) == None
    ensures FenceOffset(opening, EscapedRuns(at, n, blank) + rest) == None
    decreases n
  {
    var all := EscapedRuns(at, n, blank) + rest;
    if n == 0 {
      assert all == rest;
    } else {
      FenceSkipsEscaped(opening, at + 2, n - 1, blank, rest);
      assert all[1..] == EscapedRuns(at + 2, n - 1, blank) + rest;
    }
  }

  lemma {:induction false} UnmatchedSkipsEscaped(at: nat, n: nat, blank: bool, rest: seq<Run>)
    ensures Unmatched(EscapedRuns(at, n, blank) + rest) == Unmatched(rest)
    ensures Pairs(EscapedRuns(at, n, blank) + rest) == Pairs(rest)
    decreases n
  {
    var all := EscapedRuns(at, n, blank) + rest;
    if n == 0 {
      assert all == rest;
    } else {
      UnmatchedSkipsEscaped(at + 2, n - 1, blank, rest);
      assert all[1..] == EscapedRuns(at + 2, n - 1, blank) + rest;
    }
  }

  ghost predicate SameShape(a: Run, b: Run) {
    a.Len() == b.Len() && a.escaped == b.escaped && a.fenceIndented == b.fenceIndented
  }

  /** Where no fence closes, none closes after rewriting. */
  lemma {:induction false} FenceStaysOpen(opening: Run, opening': Run, rest: seq<Run>, us: seq<Run>, d: nat)
    requires SameShape(opening, opening') && FenceOffset(opening, rest) == None
    ensures FenceOffset(opening', RewrittenRuns(rest, us, d)) == None
    decreases |rest|
  {
    hide EscapedRuns;
    if rest != [] {
      if us != [] && us[0] == rest[0] && rest[0].Len() >= 0 {
        FenceStaysOpen(opening, opening', rest[1..], us[1..], d + rest[0].Len());
        FenceSkipsEscaped(opening', rest[0].start + d, rest[0].Len(), rest[0].suffixBlank,
          RewrittenRuns(rest[1..], us[1..], d + rest[0].Len()));
      } else {
        FenceStaysOpen(opening, opening', rest[1..], us, d);
        assert RewrittenRuns(rest, us, d)[1..] == RewrittenRuns(rest[1..], us, d);
      }
    }
  }

  /** Up to a run the list starts after, rewriting only moves the runs. */
  lemma {:induction false} OffsetsStay(opening: Run, opening': Run, rest: seq<Run>, k: nat, us: seq<Run>, d: nat)
    requires SameShape(opening, opening') && Ordered(rest) && k < |rest| && DrawnFrom(us, rest[k + 1..])
    ensures FenceOffset(opening, rest) == Some(k) ==> FenceOffset(opening', RewrittenRuns(rest, us, d)) == Some(k)
    ensures InlineOffset(opening, rest) == Some(k) ==> InlineOffset(opening', RewrittenRuns(rest, us, d)) == Some(k)
    ensures var r := RewrittenRuns(rest, us, d);
      k < |r| && r[k] == rest[k].Moved(d) && r[k + 1..] == RewrittenRuns(rest[k + 1..], us, d)
    decreases k
  {
    hide EscapedRuns, DrawnFrom;
    assert rest[k + 1..] == rest[1..][k..];
    DrawnFromSuffix(us, rest[1..], k);
    NotListed(us, rest[0], rest[1..]);
    var r := RewrittenRuns(rest, us, d);
    assert r[1..] == RewrittenRuns(rest[1..], us, d);
    if k > 0 {
      OffsetsStay(opening, opening', rest[1..], k - 1, us, d);
      assert r[k + 1..] == r[1..][k..];
    }
  }

  lemma ClosingStays(opening: Run, rest: seq<Run>, k: nat, us: seq<Run>, d: nat)
    requires ClosingOffset(opening, rest) == Some(k) && Ordered(rest) && DrawnFrom(us, rest[k + 1..])
    ensures var r := RewrittenRuns(rest, us, d);
      && ClosingOffset(opening.Moved(d), r) == Some(k)
      && k < |r| && r[k] == rest[k].Moved(d) && r[k + 1..] == RewrittenRuns(rest[k + 1..], us, d)
  {
    OffsetsStay(opening, opening.Moved(d), rest, k, us, d);
    if FenceOffset(opening, rest).None? {
      FenceStaysOpen(opening, opening.Moved(d), rest, us, d);
    }
  }

  function Slice(s: string, a: nat, b: nat): (r: string)
    ensures a <= b <= |s| ==> r == s[a..b]
  {
    if a <= b <= |s| then s[a..b] else ""
  }

  /** The code spans and fenced blocks of the text, delimiters included. */
  function MatchedTexts(s: string, pairs: seq<(Run, Run)>): seq<string> {
    if pairs == [] then []
    else [Slice(s, pairs[0].0.start, pairs[0].1.end)] + MatchedTexts(s, pairs[1..])
  }

  /** Nothing is unmatched in `runs'`, and its pairs enclose in `t` what those of `runs` enclose in `s`. */
  ghost predicate ClosedAlike(s: string, runs: seq<Run>, t: string, runs': seq<Run>) {
    Unmatched(runs') == [] && MatchedTexts(t, Pairs(runs')) == MatchedTexts(s, Pairs(runs))
  }

  /**
   Rewriting the unmatched runs of `s` leaves no unmatched run, and every pair still encloses
   the same text.
   */
  lemma {:induction false} RewrittenPairs(s: string, i: nat, runs: seq<Run>, us: seq<Run>, t: string, d: nat)
    requires i <= |s| && runs == Runs(s, i) && us == Unmatched(runs)
    requires Follows(s, i, us, t, i + d)
    ensures ClosedAlike(s, runs, t, RewrittenRuns(runs, us, d))
    decreases |runs|
  {
    hide Runs, RewrittenRuns, Follows, Pairs, Unmatched, ClosingOffset, MatchedTexts;
    if runs == [] {
      NoRunsAreClosedAlike(s, us, t, d);
    } else if runs[0].escaped {
      EscapedRunStays(s, i, runs, us, t, d);
      RewrittenPairs(s, runs[0].end, runs[1..], us, t, d);
    } else if ClosingOffset(runs[0], runs[1..]).Some? {
      var k := ClosingOffset(runs[0], runs[1..]).value;
      PairsOfPair(runs[0], runs[1..], k);
      assert [runs[0]] + runs[1..] == runs && runs[1..][k + 1..] == runs[k + 2..];
      PairKeepsText(s, i, runs, k, us, t, d);
      RewrittenPairs(s, runs[k + 1].end, runs[k + 2..], us, t, d);
      PairIsClosedAlike(s, i, runs, k, us, t, d);
    } else {
      UnmatchedRunFallsApart(s, i, runs, us, t, d);
      RewrittenPairs(s, runs[0].end, runs[1..], us[1..], t, d + runs[0].Len());
    }
  }

  lemma NoRunsAreClosedAlike(s: string, us: seq<Run>, t: string, d: nat)
    ensures ClosedAlike(s, [], t, RewrittenRuns([], us, d))
  {
  }

  lemma PairIsClosedAlike(s: string, i: nat, runs: seq<Run>, k: nat, us: seq<Run>, t: string, d: nat)
    requires i <= |s| && runs == Runs(s, i) && k + 2 <= |runs| && us == Unmatched(runs[k + 2..])
    requires Follows(s, i, us, t, i + d) && !runs[0].escaped && ClosingOffset(runs[0], runs[1..]) == Some(k)
    requires ClosedAlike(s, runs[k + 2..], t, RewrittenRuns(runs[k + 2..], us, d))
    ensures ClosedAlike(s, runs, t, RewrittenRuns(runs, us, d))
  {
    hide Runs, RunEnd, Follows, Unmatched, Pairs, RewrittenRuns, ClosingOffset, MatchedTexts;
    PairKeepsText(s, i, runs, k, us, t, d);
    PairStays(s, i, runs, k, us, d);
    MatchedTextsCons(s, (runs[0], runs[k + 1]), Pairs(runs[k + 2..]));
    MatchedTextsCons(t, (runs[0].Moved(d), runs[k + 1].Moved(d)), Pairs(RewrittenRuns(runs[k + 2..], us, d)));
  }

  lemma MatchedTextsCons(s: string, first: (Run, Run), rest: seq<(Run, Run)>)
    ensures MatchedTexts(s, [first] + rest) == [Slice(s, first.0.start, first.1.end)] + MatchedTexts(s, rest)
  {
    assert ([first] + rest)[1..] == rest;
  }

  lemma EscapedRunStays(s: string, i: nat, runs: seq<Run>, us: seq<Run>, t: string, d: nat)
    requires i <= |s| && runs == Runs(s, i) && us == Unmatched(runs) && runs != []
    requires Follows(s, i, us, t, i + d) && runs[0].escaped
    ensures runs[0].end <= |s| && runs[1..] == Runs(s, runs[0].end) && us == Unmatched(runs[1..])
    ensures Follows(s, runs[0].end, us, t, runs[0].end + d)
    ensures Pairs(runs) == Pairs(runs[1..])
    ensures var r, r' := RewrittenRuns(runs, us, d), RewrittenRuns(runs[1..], us, d);
      Unmatched(r) == Unmatched(r') && Pairs(r) == Pairs(r')
  {
    RunsTail(s, i, 0);
    RunsStartFrom(s, i);
    UnmatchedAreDrawn(runs[1..]);
    RunsAreAhead(s, runs[0].end, us);
    CopiedUpTo(s, i, runs[0].end, us, t, i + d);
    NotListed(us, runs[0], runs[1..]);
    assert RewrittenRuns(runs, us, d)[1..] == RewrittenRuns(runs[1..], us, d);
  }

  /** A pair with everything in it is copied. */
  lemma PairKeepsText(s: string, i: nat, runs: seq<Run>, k: nat, us: seq<Run>, t: string, d: nat)
    requires i <= |s| && runs == Runs(s, i) && k + 2 <= |runs| && us == Unmatched(runs[k + 2..])
    requires Follows(s, i, us, t, i + d)
    ensures runs[k + 1].end <= |s| && runs[k + 2..] == Runs(s, runs[k + 1].end)
    ensures Follows(s, runs[k + 1].end, us, t, runs[k + 1].end + d)
    ensures Slice(t, runs[0].start + d, runs[k + 1].end + d) == Slice(s, runs[0].start, runs[k + 1].end)
  {
    hide Runs, Unmatched, Follows, Ahead, DrawnFrom, NoneEscaped;
    RunsTail(s, i, 0);
    RunsTail(s, i, k + 1);
    UnmatchedAreDrawn(runs[k + 2..]);
    var a, b := runs[0].start, runs[k + 1].end;
    RunsAreAhead(s, b, us);
    CopiedUpTo(s, i, b, us, t, i + d);
    if a <= b {
      assert t[a + d..b + d] == s[a..b] by {
        assert forall j :: a <= j < b ==> t[j - i + (i + d)] == s[j];
      }
    }
  }

  lemma PairStays(s: string, i: nat, runs: seq<Run>, k: nat, us: seq<Run>, d: nat)
    requires i <= |s| && runs == Runs(s, i) && k + 2 <= |runs| && us == Unmatched(runs[k + 2..])
    requires !runs[0].escaped && ClosingOffset(runs[0], runs[1..]) == Some(k)
    ensures Pairs(runs) == [(runs[0], runs[k + 1])] + Pairs(runs[k + 2..])
    ensures var r, r' := RewrittenRuns(runs, us, d), RewrittenRuns(runs[k + 2..], us, d);
      && Unmatched(r) == Unmatched(r')
      && Pairs(r) == [(runs[0].Moved(d), runs[k + 1].Moved(d))] + Pairs(r')
  {
    var rest := runs[1..];
    RunsStartFrom(s, i);
    assert rest[k + 1..] == runs[k + 2..];
    UnmatchedAreDrawn(runs[k + 2..]);
    DrawnFromSuffix(us, rest, k + 1);
    NotListed(us, runs[0], rest);
    ClosingStays(runs[0], rest, k, us, d);
    var r := RewrittenRuns(rest, us, d);
    assert runs == [runs[0]] + rest;
    RewrittenKept(runs[0], rest, us, d);
    PairsOfPair(runs[0], rest, k);
    PairsOfPair(runs[0].Moved(d), r, k);
  }

  lemma PairsOfPair(first: Run, rest: seq<Run>, k: nat)
    requires !first.escaped && ClosingOffset(first, rest) == Some(k)
    ensures Unmatched([first] + rest) == Unmatched(rest[k + 1..])
    ensures Pairs([first] + rest) == [(first, rest[k])] + Pairs(rest[k + 1..])
  {
    hide ClosingOffset, FenceOffset, InlineOffset;
    var all := [first] + rest;
    assert all[1..] == rest;
    assert all[k + 2..] == rest[k + 1..];
  }

  lemma UnmatchedRunFallsApart(s: string, i: nat, runs: seq<Run>, us: seq<Run>, t: string, d: nat)
    requires i <= |s| && runs == Runs(s, i) && us == Unmatched(runs) && runs != []
    requires Follows(s, i, us, t, i + d) && !runs[0].escaped && ClosingOffset(runs[0], runs[1..]) == None
    ensures us != [] && us[1..] == Unmatched(runs[1..])
    ensures runs[0].start < runs[0].end <= |s| && runs[1..] == Runs(s, runs[0].end)
    ensures Follows(s, runs[0].end, us[1..], t, runs[0].end + d + runs[0].Len())
    ensures Pairs(runs) == Pairs(runs[1..])
    ensures var r, r' := RewrittenRuns(runs, us, d), RewrittenRuns(runs[1..], us[1..], d + runs[0].Len());
      Unmatched(r) == Unmatched(r') && Pairs(r) == Pairs(r')
  {
    hide Runs, EscapedRuns, DrawnFrom, NoneEscaped, ClosingOffset;
    var r := runs[0];
    RunsTail(s, i, 0);
    UnmatchedAreDrawn(runs);
    RunsAreAhead(s, i, us);
    CopiedUpTo(s, i, r.start, us, t, i + d);
    UnmatchedSkipsEscaped(r.start + d, r.Len(), r.suffixBlank, RewrittenRuns(runs[1..], us[1..], d + r.Len()));
  }

  lemma EscapedTextFollows(s: string)
    ensures RewriteState(s, 0, Unmatched(Runs(s, 0)), EscapeUnclosed(s), 0)
  {
    var us := Unmatched(Runs(s, 0));
    UnmatchedAreDrawn(Runs(s, 0));
    assert EscapeUnclosed(s)[0..] == Rewrite(s, 0, us);
    RewriteFollows(s, 0, us, EscapeUnclosed(s), 0);
  }

  /** After one pass every unescaped run belongs to a pair, and each pair encloses what it did. */
  lemma EscapedTextIsClosed(s: string)
    ensures Unmatched(Runs(EscapeUnclosed(s), 0)) == []
    ensures MatchedTexts(EscapeUnclosed(s), Pairs(Runs(EscapeUnclosed(s), 0))) == MatchedTexts(s, Pairs(Runs(s, 0)))
  {
    EscapedTextFollows(s);
    RunsOfRewrite(s, 0, Unmatched(Runs(s, 0)), EscapeUnclosed(s), 0);
    RewrittenPairs(s, 0, Runs(s, 0), Unmatched(Runs(s, 0)), EscapeUnclosed(s), 0);
  }

  lemma {:induction false} RewriteNothing(s: string, i: nat)
    requires i <= |s|
    ensures Rewrite(s, i, []) == s[i..]
    decreases |s| - i
  {
    if i < |s| {
      RewriteNothing(s, i + 1);
      assert s[i..] == [s[i]] + s[i + 1..];
    }
  }

  /** A second pass changes nothing; so does the first when every run is closed. */
  lemma EscapingIsIdempotent(s: string)
    ensures EscapeUnclosed(EscapeUnclosed(s)) == EscapeUnclosed(s)
    ensures Unmatched(Runs(s, 0)) == [] <==> EscapeUnclosed(s) == s
  {
    EscapedTextIsClosed(s);
    RewriteNothing(EscapeUnclosed(s), 0);
    RewriteNothing(s, 0);
  }

  /** Deletes the backslash before each backtick of the listed runs, reading `t` as the rewritten tail from `i`. */
  function DropInserted(t: string, i: nat, us: seq<Run>): string
    decreases |t|
  {
    if t == "" then ""
    else if us != [] && us[0].start == i && i < us[0].end then
      if |t| >= 2 * (us[0].end - i) then
        EverySecond(t[..2 * (us[0].end - i)]) + DropInserted(t[2 * (us[0].end - i)..], us[0].end, us[1..])
      else ""
    else [t[0]] + DropInserted(t[1..], i + 1, us)
  }

  function EverySecond(t: string): string {
    if |t| < 2 then "" else [t[1]] + EverySecond(t[2..])
  }

  lemma {:induction false} EverySecondOfTicks(n: nat)
    ensures |EverySecond(EscapedTicks(n))| == n
    ensures forall k :: 0 <= k < n ==> EverySecond(EscapedTicks(n))[k] == '`'
  {
    if n > 0 {
      assert EscapedTicks(n)[2..] == EscapedTicks(n - 1);
      EverySecondOfTicks(n - 1);
    }
  }

  /** The listed runs hold nothing but backticks. */
  ghost predicate OnlyTicks(s: string, us: seq<Run>) {
    us == []
    || ((forall j :: us[0].start <= j < us[0].end && j < |s| ==> s[j] == '`') && OnlyTicks(s, us[1..]))
  }

  lemma {:induction false} RunsAreOnlyTicks(s: string, i: nat, us: seq<Run>)
    requires i <= |s| && DrawnFrom(us, Runs(s, i))
    ensures OnlyTicks(s, us)
    decreases |s| - i
  {
    if us != [] {
      if s[i] != '`' {
        RunsAreOnlyTicks(s, i + 1, us);
      } else {
        RunsSplit(s, i);
        RunEndIsMaximal(s, i);
        var e := RunEnd(s, i);
        assert Runs(s, i)[1..] == Runs(s, e);
        if us[0] == RunAt(s, i) {
          RunsAreOnlyTicks(s, e, us[1..]);
        } else {
          RunsAreOnlyTicks(s, e, us);
        }
      }
    }
  }

  lemma DropInsertedAtListed(rest: string, i: nat, us: seq<Run>)
    requires us != [] && us[0].start == i && i < us[0].end
    ensures DropInserted(EscapedTicks(us[0].end - i) + rest, i, us)
         == EverySecond(EscapedTicks(us[0].end - i)) + DropInserted(rest, us[0].end, us[1..])
  {
    hide EscapedTicks, EverySecond;
    var n := us[0].end - i;
    var t := EscapedTicks(n) + rest;
    assert t[..2 * n] == EscapedTicks(n) && t[2 * n..] == rest;
  }

  lemma DropInsertedListedCase(s: string, i: nat, us: seq<Run>)
    requires us != [] && us[0].start == i && Ahead(s, i, us) && OnlyTicks(s, us)
    requires DropInserted(Rewrite(s, us[0].end, us[1..]), us[0].end, us[1..]) == s[us[0].end..]
    ensures DropInserted(Rewrite(s, i, us), i, us) == s[i..]
  {
    hide EscapedTicks, EverySecond, DropInserted;
    var e := us[0].end;
    EverySecondOfTicks(e - i);
    DropInsertedAtListed(Rewrite(s, e, us[1..]), i, us);
    assert EverySecond(EscapedTicks(e - i)) == s[i..e];
    assert s[i..] == s[i..e] + s[e..];
  }

  lemma {:induction false} DropInsertedInverts(s: string, i: nat, us: seq<Run>)
    requires i <= |s| && Ahead(s, i, us) && OnlyTicks(s, us)
    ensures DropInserted(Rewrite(s, i, us), i, us) == s[i..]
    decreases |s| - i
  {
    if i < |s| {
      if us != [] && us[0].start == i {
        DropInsertedInverts(s, us[0].end, us[1..]);
        DropInsertedListedCase(s, i, us);
      } else {
        DropInsertedInverts(s, i + 1, us);
        assert Rewrite(s, i, us)[1..] == Rewrite(s, i + 1, us);
        assert s[i..] == [s[i]] + s[i + 1..];
      }
    }
  }

  /** Deleting the inserted backslashes gives the text back: nothing else was changed. */
  lemma OnlyBackslashesAreInserted(s: string)
    ensures DropInserted(EscapeUnclosed(s), 0, Unmatched(Runs(s, 0))) == s
  {
    var us := Unmatched(Runs(s, 0));
    UnmatchedAreDrawn(Runs(s, 0));
    RunsAreAhead(s, 0, us);
    RunsAreOnlyTicks(s, 0, us);
    DropInsertedInverts(s, 0, us);
  }

  // ----- The loops -----

  lemma {:induction false} IndentWidthMeaning(s: string, i: nat)
    requires i <= |s|
    ensures var start := LineStart(s, i);
      if forall k :: start <= k < i ==> s[k] == ' ' then IndentWidth(s, i) == i - start else IndentWidth(s, i) == -1
  {
    if i > 0 && s[i - 1] != '\n' {
      IndentWidthMeaning(s, i - 1);
      var start := LineStart(s, i - 1);
      if s[i - 1] == ' ' && IndentWidth(s, i - 1) >= 0 {
        assert forall k :: start <= k < i ==> s[k] == ' ';
      } else if s[i - 1] != ' ' {
        assert start <= i - 1 < i;
      }
    }
  }

  method CollectBacktickRuns(s: string) returns (runs: seq<Run>)
    ensures runs == Runs(s, 0)
  {
    runs := [];
    var index := 0;
    while index < |s|
      invariant index <= |s|
      invariant Runs(s, 0) == runs + Runs(s, index)
      decreases |s| - index
    {
      if s[index] != '`' {
        index := index + 1;
        continue;
      }
      var start := index;
      while index < |s| && s[index] == '`'
        invariant start <= index <= |s|
        invariant RunEnd(s, start) == RunEnd(s, index)
        invariant Runs(s, 0) == runs + Runs(s, start)
      {
        index := index + 1;
      }
      var escaped := ComputeIsEscaped(s, start);
      var lineStart := LineStart(s, start);
      var indented := start - lineStart <= 3 && forall k :: lineStart <= k < start ==> s[k] == ' ';
      IndentWidthMeaning(s, start);
      var blank := ComputeSuffixBlank(s, index);
      runs := runs + [Run(start, index, escaped, indented, blank)];
    }
  }

  method ComputeSuffixBlank(s: string, i: nat) returns (blank: bool)
    requires i <= |s|
    ensures blank == SuffixBlank(s, i)
  {
    var cursor := i;
    while cursor < |s| && s[cursor] != '\n'
      invariant i <= cursor <= |s|
      invariant SuffixBlank(s, i) == SuffixBlank(s, cursor)
    {
      if s[cursor] != ' ' && s[cursor] != '\t' {
        return false;
      }
      cursor := cursor + 1;
    }
    return true;
  }

  method EscapeUnclosedBackticks(text: string) returns (escaped: string)
    ensures escaped == EscapeUnclosed(text)
  {
    hide Runs, ClosingOffset, FenceOffset, InlineOffset, DrawnFrom, NoneEscaped, Ahead, Rewrite;
    var runs := CollectBacktickRuns(text);
    var unmatched: seq<Run> := [];
    var index := 0;
    while index < |runs|
      invariant index <= |runs|
      invariant Unmatched(runs) == unmatched + Unmatched(runs[index..])
      decreases |runs| - index
    {
      assert runs[index..][1..] == runs[index + 1..];
      if runs[index].escaped {
        index := index + 1;
        continue;
      }
      var closing := ClosingOffset(runs[index], runs[index + 1..]);
      if closing.Some? {
        assert runs[index..][closing.value + 2..] == runs[index + closing.value + 2..];
        index := index + 1 + closing.value + 1;
      } else {
        unmatched := unmatched + [runs[index]];
        index := index + 1;
      }
    }
    assert runs[index..] == [] && unmatched + [] == unmatched;
    if unmatched == [] {
      RewriteNothing(text, 0);
      assert text[0..] == text;
      return text;
    }
    UnmatchedAreDrawn(runs);
    RunsAreAhead(text, 0, unmatched);
    escaped := CopyEscaping(text, unmatched);
  }

  /** The copying loop: text up to each listed run, then its escaped backticks. */
  method CopyEscaping(text: string, unmatched: seq<Run>) returns (escaped: string)
    requires Ahead(text, 0, unmatched)
    ensures escaped == Rewrite(text, 0, unmatched)
  {
    hide Rewrite, EscapedTicks;
    escaped := "";
    var cursor: nat := 0;
    var next := 0;
    assert unmatched[0..] == unmatched;
    while next < |unmatched|
      invariant next <= |unmatched| && cursor <= |text|
      invariant Ahead(text, cursor, unmatched[next..])
      invariant Rewrite(text, 0, unmatched) == escaped + Rewrite(text, cursor, unmatched[next..])
    {
      var run := unmatched[next];
      assert unmatched[next..][1..] == unmatched[next + 1..];
      RewriteToNextListed(text, cursor, unmatched[next..]);
      escaped := escaped + text[cursor..run.start] + EscapedTicks(run.end - run.start);
      cursor := run.end;
      next := next + 1;
    }
    RewriteNothing(text, cursor);
    escaped := escaped + text[cursor..];
  }

  lemma RewriteToNextListed(s: string, i: nat, us: seq<Run>)
    requires i <= |s| && us != [] && Ahead(s, i, us)
    ensures Rewrite(s, i, us)
         == (s[i..us[0].start] + EscapedTicks(us[0].end - us[0].start)) + Rewrite(s, us[0].end, us[1..])
  {
    RewriteCopiesUpTo(s, i, us[0].start, us);
  }

  lemma {:induction false} RewriteCopiesUpTo(s: string, i: nat, j: nat, us: seq<Run>)
    requires i <= j <= |s| && Ahead(s, j, us)
    ensures Rewrite(s, i, us) == s[i..j] + Rewrite(s, j, us)
    decreases j - i
  {
    if i < j {
      RewriteCopiesUpTo(s, i + 1, j, us);
      assert s[i..j] == [s[i]] + s[i + 1..j];
    }
  }
}
