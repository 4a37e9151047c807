/** What the classifier of line starts means: which lines are block markers, and when a start is decided. */
module QqDecisions {
  import opened Characters
  import opened QqRenderer
  import opened QqMarkers
  import opened QqContinuations
  import opened QqLinkMarkers
  import opened QqBlocks

  // ----- Lines -----

  /** One to six hashes, and then white space or nothing. */
  ghost predicate IsHeading(s: string) {
    exists n: nat :: 1 <= n <= 6 && AllOf(s, n, '#') && EndsOrBlankAt(s, n)
  }

  ghost predicate AllOf(s: string, n: nat, c: char) {
    n <= |s| && forall k :: 0 <= k < n ==> s[k] == c
  }

  ghost predicate EndsOrBlankAt(s: string, n: nat) {
    n == |s| || (n < |s| && IsWhitespace(s[n]))
  }

  /** A dash and white space, or a plus and white space or nothing. */
  ghost predicate IsBullet(s: string) {
    || (|s| >= 2 && s[0] == '-' && IsWhitespace(s[1]))
    || (|s| >= 1 && s[0] == '+' && EndsOrBlankAt(s, 1))
  }

  /** Up to nine digits, a dot or a parenthesis, and then white space or nothing. */
  ghost predicate IsNumber(s: string) {
    exists n: nat :: 1 <= n <= 9 && DigitsUpTo(s, n) && n < |s| && s[n] in {'.', ')'} && EndsOrBlankAt(s, n + 1)
  }

  ghost predicate DigitsUpTo(s: string, n: nat) {
    n <= |s| && forall k :: 0 <= k < n ==> '0' <= s[k] <= '9'
  }

  /** From a dash on, nothing but white space and at least three dashes. */
  ghost predicate IsRule(s: string) {
    && s != "" && s[0] == '-' && multiset(s)['-'] >= 3
    && forall k :: 0 <= k < |s| ==> s[k] == '-' || IsWhitespace(s[k])
  }

  /** From an equals sign on, nothing but white space and equals signs. */
  ghost predicate IsUnderline(s: string) {
    s != "" && s[0] == '=' && forall k :: 0 <= k < |s| ==> s[k] == '=' || IsWhitespace(s[k])
  }

  lemma {:induction false} LeadingHashesIff(s: string, n: nat)
    requires n <= |s|
    ensures LeadingHashes(s) == n <==> AllOf(s, n, '#') && (n < |s| ==> s[n] != '#')
  {
    if s != "" {
      if n > 0 {
        LeadingHashesIff(s[1..], n - 1);
        assert AllOf(s, n, '#') <==> s[0] == '#' && AllOf(s[1..], n - 1, '#') by {
          assert forall k :: 0 < k < n ==> s[k] == s[1..][k - 1];
          assert forall k :: 0 <= k < n - 1 ==> s[1..][k] == s[k + 1];
        }
      }
    }
  }

  lemma {:induction false} LeadingDigitsIff(s: string, n: nat)
    requires n <= |s|
    ensures LeadingDigits(s) == n <==> DigitsUpTo(s, n) && (n < |s| ==> !('0' <= s[n] <= '9'))
  {
    if s != "" {
      if n > 0 {
        LeadingDigitsIff(s[1..], n - 1);
        assert DigitsUpTo(s, n) <==> '0' <= s[0] <= '9' && DigitsUpTo(s[1..], n - 1) by {
          assert forall k :: 0 < k < n ==> s[k] == s[1..][k - 1];
          assert forall k :: 0 <= k < n - 1 ==> s[1..][k] == s[k + 1];
        }
      }
    }
  }

  lemma {:induction false} OnlyCharIff(s: string, c: char)
    ensures OnlyCharOrSpace(s, c) <==> forall k :: 0 <= k < |s| ==> s[k] == c || IsWhitespace(s[k])
    ensures CountOf(s, c) == multiset(s)[c]
  {
    if s != "" {
      OnlyCharIff(s[1..], c);
      assert s == [s[0]] + s[1..];
      assert forall k :: 0 <= k < |s[1..]| ==> s[1..][k] == s[k + 1];
    }
  }

  lemma HeadingIff(s: string)
    requires s != "" && s[0] == '#'
    ensures Classify(s, true) == MarkdownMarker <==> IsHeading(s)
  {
    hide IsWhitespace, LeadingHashes, LeadingDigits;
    var n := LeadingHashes(s);
    LeadingHashesIff(s, n);
    LeadingHashesIff(s, 0);
    HashIsNoSpace();
    if m: nat :| 1 <= m <= 6 && AllOf(s, m, '#') && EndsOrBlankAt(s, m) {
      LeadingHashesIff(s, m);
    }
  }

  lemma HashIsNoSpace()
    ensures !IsWhitespace('#') && forall c: char :: '0' <= c <= '9' ==> !IsWhitespace(c)
  {
    PrintableIsNotWhitespace('#');
    forall c: char | '0' <= c <= '9'
      ensures !IsWhitespace(c)
    {
      PrintableIsNotWhitespace(c);
    }
  }

  lemma NumberIff(s: string)
    requires s != "" && '0' <= s[0] <= '9'
    ensures Classify(s, true) == MarkdownMarker <==> IsNumber(s)
  {
    hide IsWhitespace, LeadingHashes, LeadingDigits;
    var n := LeadingDigits(s);
    LeadingDigitsIff(s, n);
    LeadingDigitsIff(s, 0);
    if m: nat :| 1 <= m <= 9 && DigitsUpTo(s, m) && m < |s| && s[m] in {'.', ')'} && EndsOrBlankAt(s, m + 1) {
      LeadingDigitsIff(s, m);
    }
  }

  lemma OtherStartsIff(s: string)
    requires s != "" && s[0] != '#' && !('0' <= s[0] <= '9')
    ensures Classify(s, true) == MarkdownMarker <==> IsBullet(s) || IsRule(s) || IsUnderline(s)
  {
    hide IsWhitespace, OnlyCharOrSpace, CountOf;
    OnlyCharIff(s, '-');
    OnlyCharIff(s, '=');
  }

  /** A finished line is classified as a marker exactly when it is one of the five kinds. */
  lemma LineIsMarkerIff(s: string)
    ensures Classify(s, true) == MarkdownMarker
       <==> IsHeading(s) || IsBullet(s) || IsNumber(s) || IsRule(s) || IsUnderline(s)
  {
    hide Classify, IsWhitespace, EndsOrBlankAt;
    KindsByFirst(s);
    if s != "" {
      if s[0] == '#' {
        HeadingIff(s);
      } else if '0' <= s[0] <= '9' {
        NumberIff(s);
      } else {
        OtherStartsIff(s);
      }
    } else {
      EmptyLineIsSafe();
    }
  }

  lemma KindsByFirst(s: string)
    ensures IsHeading(s) ==> s != "" && s[0] == '#'
    ensures IsNumber(s) ==> s != "" && '0' <= s[0] <= '9'
    ensures IsBullet(s) || IsRule(s) ==> s != "" && s[0] in {'-', '+'}
    ensures IsUnderline(s) ==> s != "" && s[0] == '='
  {
    hide IsWhitespace;
  }

  // ----- Decisions -----

  lemma {:induction false} MarkerForGood(s: string, t: string)
    requires Classify(s, false) == MarkdownMarker
    ensures Classify(s + t, false) == MarkdownMarker
    decreases |t|
  {
    hide Classify;
    if t == "" {
      assert s + t == s;
    } else {
      MarkerStaysMarker(s, t[0]);
      MarkerForGood(s + [t[0]], t[1..]);
      assert s + [t[0]] + t[1..] == s + t;
    }
  }

  /**
   A line start is held back exactly while it is undecided: it is safe when no continuation of the
   line is a marker, a marker when every continuation is, and pending when some are and some are not.
   */
  lemma StartIsDecidedIff(s: string)
    requires s != ""
    ensures Classify(s, false) == Safe <==> forall t: string :: Classify(s + t, true) != MarkdownMarker
    ensures Classify(s, false) == MarkdownMarker <==> forall t: string :: Classify(s + t, true) == MarkdownMarker
  {
    hide Classify, Completion;
    match Classify(s, false)
    case Safe =>
      forall t: string
        ensures Classify(s + t, true) != MarkdownMarker
      {
        SafeStaysSafeBy(s, t);
        SafeIsNoMarker(s + t);
      }
      assert Classify(s + "", true) != MarkdownMarker;
    case MarkdownMarker =>
      forall t: string
        ensures Classify(s + t, true) == MarkdownMarker
      {
        MarkerForGood(s, t);
        MarkerAtLineEnd(s + t);
      }
      assert Classify(s + "", true) == MarkdownMarker;
    case Pending =>
      UnsafeLineCanTurn(s);
      assert Classify(s + Completion(s), true) == MarkdownMarker;
      SlashDoesNotMatter();
      PendingThenPlain(s, '/');
      SafeIsNoMarker(s + ['/']);
      assert Classify(s + "/", true) != MarkdownMarker;
  }
}
