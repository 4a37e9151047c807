/** The keys that isolate conversations, actors and their interactions from each other. */
module ScopeKeys {
  import opened Wrappers
  import opened Characters

  const UNKNOWN_ACCOUNT := "-"
  const UNKNOWN := "unknown"

  datatype ParsedScopeKey = ParsedScopeKey(platform: string, account: string, targetType: string, target: string)

  /** What a caller knows about a conversation. */
  datatype Conversation = Conversation(platform: string, account: Option<string>, targetType: string, rawTarget: string)

  function Clean(s: string): Option<string> {
    if Trim(s) == "" then None else Some(Trim(s))
  }

  function OrElse(s: Option<string>, otherwise: string): string {
    if s.Some? then s.value else otherwise
  }

  function CleanOption(s: Option<string>): Option<string> {
    if s.Some? then Clean(s.value) else None
  }

  /** The four segments a key is made of. */
  function Segments(c: Conversation): ParsedScopeKey {
    ParsedScopeKey(OrElse(Clean(c.platform), UNKNOWN), OrElse(CleanOption(c.account), UNKNOWN_ACCOUNT),
                   OrElse(Clean(c.targetType), UNKNOWN), Trim(c.rawTarget))
  }

  function Key(p: ParsedScopeKey): string {
    "platform" + (":" + (p.platform + (":" + ("account" + (":" + (p.account + (":" + (p.targetType + (":" + p.target)))))))))
  }

  function ConversationScopeKey(c: Conversation): string {
    Key(Segments(c))
  }

  function ActorScopeKey(user: Option<string>, scope: string): Option<string> {
    match CleanOption(user)
    case None => None
    case Some(u) => Some(OrElse(Clean(scope), UNKNOWN) + ":actor:" + u)
  }

  function InteractionScopeKey(user: Option<string>, scope: string): string {
    OrElse(ActorScopeKey(user, scope), OrElse(Clean(scope), UNKNOWN))
  }

  // ----- The texts -----

  /** The key of a conversation, with what stands for a missing platform, account or type. */
  lemma KeyText(c: Conversation)
    ensures ConversationScopeKey(c)
         == "platform:" + (if Trim(c.platform) == "" then "unknown" else Trim(c.platform))
            + ":account:" + (if c.account.None? || Trim(c.account.value) == "" then "-" else Trim(c.account.value))
            + ":" + (if Trim(c.targetType) == "" then "unknown" else Trim(c.targetType))
            + ":" + Trim(c.rawTarget)
  {
    hide Trim;
    var p := Segments(c);
    assert Key(p) == "platform:" + p.platform + ":account:" + p.account + ":" + p.targetType + ":" + p.target by {
      KeyIsOneText(p);
    }
  }

  lemma KeyIsOneText(p: ParsedScopeKey)
    ensures Key(p) == "platform:" + p.platform + ":account:" + p.account + ":" + p.targetType + ":" + p.target
  {
    assert p.targetType + (":" + p.target) == p.targetType + ":" + p.target;
    assert p.account + (":" + (p.targetType + (":" + p.target))) == p.account + ":" + p.targetType + ":" + p.target;
    assert "account" + (":" + (p.account + (":" + (p.targetType + (":" + p.target)))))
        == "account:" + p.account + ":" + p.targetType + ":" + p.target;
    assert Key(p) == "platform:" + p.platform
                     + ":" + ("account" + (":" + (p.account + (":" + (p.targetType + (":" + p.target))))));
  }

  /** The interaction key continues the scope by the actor, and is the scope alone without one. */
  lemma InteractionKeyText(user: Option<string>, scope: string)
    ensures var base := if Trim(scope) == "" then "unknown" else Trim(scope);
      InteractionScopeKey(user, scope)
      == if user.None? || Trim(user.value) == "" then base else base + ":actor:" + Trim(user.value)
  {
    hide Trim;
  }

  // ----- Parsing -----

  function FirstColon(s: string): (k: nat)
    ensures k <= |s| && (k < |s| ==> s[k] == ':') && forall i :: 0 <= i < k ==> s[i] != ':'
  {
    if s == "" || s[0] == ':' then 0 else 1 + FirstColon(s[1..])
  }

  /** At most `n` parts; the last one keeps its colons. */
  function SplitN(s: string, n: nat): seq<string>
    requires n > 0
    decreases n
  {
    var k := FirstColon(s);
    if n == 1 || k == |s| then [s] else [s[..k]] + SplitN(s[k + 1..], n - 1)
  }

  function ParseStableScopeKey(value: string): Option<ParsedScopeKey> {
    var parts := SplitN(value, 6);
    if |parts| == 6 && parts[0] == "platform" && parts[2] == "account"
       && Trim(parts[1]) != "" && Trim(parts[3]) != "" && Trim(parts[4]) != "" && Trim(parts[5]) != ""
    then Some(ParsedScopeKey(parts[1], parts[3], parts[4], parts[5]))
    else None
  }

  predicate ColonFree(s: string) { ':' !in s }

  /** No colon in the three segments before the target. */
  predicate ColonFreeHead(p: ParsedScopeKey) {
    ColonFree(p.platform) && ColonFree(p.account) && ColonFree(p.targetType)
  }

  lemma SplitFirst(a: string, rest: string, n: nat)
    requires ColonFree(a) && n > 1
    ensures SplitN(a + (":" + rest), n) == [a] + SplitN(rest, n - 1)
  {
    var s := a + (":" + rest);
    assert s[|a|] == ':';
    assert FirstColon(s) == |a| by {
      assert forall i :: 0 <= i < |a| ==> s[i] == a[i];
    }
    assert s[..|a|] == a && s[|a| + 1..] == rest;
  }

  lemma KeySplits(p: ParsedScopeKey)
    requires ColonFreeHead(p)
    ensures SplitN(Key(p), 6) == ["platform", p.platform, "account", p.account, p.targetType, p.target]
  {
    hide SplitN;
    var r4 := p.targetType + (":" + p.target);
    var r3 := p.account + (":" + r4);
    var r2 := "account" + (":" + r3);
    var r1 := p.platform + (":" + r2);
    SplitFirst("platform", r1, 6);
    SplitFirst(p.platform, r2, 5);
    SplitFirst("account", r3, 4);
    SplitFirst(p.account, r4, 3);
    SplitFirst(p.targetType, p.target, 2);
    LastPart(p.target);
  }

  function JoinColon(parts: seq<string>): string {
    if |parts| == 0 then "" else if |parts| == 1 then parts[0] else parts[0] + (":" + JoinColon(parts[1..]))
  }

  /** The parts, joined by colons, give the text back. */
  lemma {:induction false} PartsJoin(s: string, n: nat)
    requires n > 0
    ensures JoinColon(SplitN(s, n)) == s
    decreases n
  {
    hide FirstColon, JoinColon;
    var k := FirstColon(s);
    if n == 1 || k == |s| {
      OnePart(s);
    } else {
      PartsJoin(s[k + 1..], n - 1);
      PartCount(s[k + 1..], n - 1);
      MoreParts(s[..k], SplitN(s[k + 1..], n - 1));
      assert s == s[..k] + (":" + s[k + 1..]);
    }
  }

  lemma OnePart(s: string)
    ensures JoinColon([s]) == s
  {
  }

  lemma MoreParts(first: string, rest: seq<string>)
    requires rest != []
    ensures JoinColon([first] + rest) == first + (":" + JoinColon(rest))
  {
    assert ([first] + rest)[1..] == rest;
  }

  /**
   A text parses to four segments exactly when it is written as a key is, none of the segments is
   blank, and the first three hold no colon.
   */
  lemma KeyParsesIff(value: string, p: ParsedScopeKey)
    ensures ParseStableScopeKey(value) == Some(p) <==>
              && value == "platform:" + p.platform + ":account:" + p.account + ":" + p.targetType + ":" + p.target
              && ':' !in p.platform && ':' !in p.account && ':' !in p.targetType
              && Trim(p.platform) != "" && Trim(p.account) != "" && Trim(p.targetType) != "" && Trim(p.target) != ""
  {
    hide SplitN, Trim;
    KeyIsOneText(p);
    if ColonFreeHead(p) {
      KeySplits(p);
    }
    if ParseStableScopeKey(value) == Some(p) {
      PartsAreTheKey(value, p);
    }
  }

  lemma PartsAreTheKey(value: string, p: ParsedScopeKey)
    requires SplitN(value, 6) == ["platform", p.platform, "account", p.account, p.targetType, p.target]
    ensures ColonFreeHead(p) && value == Key(p)
  {
    hide SplitN;
    PartsJoin(value, 6);
    SixJoined("platform", p.platform, "account", p.account, p.targetType, p.target);
    EarlyPartsAreColonFree(value, 6, 1);
    EarlyPartsAreColonFree(value, 6, 3);
    EarlyPartsAreColonFree(value, 6, 4);
  }

  lemma SixJoined(a: string, b: string, c: string, d: string, e: string, f: string)
    ensures JoinColon([a, b, c, d, e, f]) == a + (":" + (b + (":" + (c + (":" + (d + (":" + (e + (":" + f)))))))))
  {
    assert [a, b, c, d, e, f][1..] == [b, c, d, e, f] && [b, c, d, e, f][1..] == [c, d, e, f];
    assert [c, d, e, f][1..] == [d, e, f] && [d, e, f][1..] == [e, f] && [e, f][1..] == [f];
    assert JoinColon([e, f]) == e + (":" + f);
    assert JoinColon([d, e, f]) == d + (":" + (e + (":" + f)));
    assert JoinColon([c, d, e, f]) == c + (":" + (d + (":" + (e + (":" + f)))));
    assert JoinColon([b, c, d, e, f]) == b + (":" + (c + (":" + (d + (":" + (e + (":" + f)))))));
  }

  lemma LastPart(s: string)
    ensures SplitN(s, 1) == [s]
  {
  }

  /** All parts but the last are colon-free. */
  lemma {:induction false} EarlyPartsAreColonFree(s: string, n: nat, i: nat)
    requires n > 0 && i < |SplitN(s, n)| - 1
    ensures |SplitN(s, n)| <= n && ColonFree(SplitN(s, n)[i])
    decreases n
  {
    PartCount(s, n);
    if i > 0 {
      EarlyPartsAreColonFree(s[FirstColon(s) + 1..], n - 1, i - 1);
    }
  }

  lemma {:induction false} PartCount(s: string, n: nat)
    requires n > 0
    ensures 1 <= |SplitN(s, n)| <= n
    decreases n
  {
    if n > 1 && FirstColon(s) < |s| {
      PartCount(s[FirstColon(s) + 1..], n - 1);
    }
  }

  // ----- Trimmed text -----

  /** Trimming only drops whitespace, and trims no further the second time. */
  lemma TrimShape(s: string)
    ensures Trim(Trim(s)) == Trim(s)
    ensures Trim(s) != "" ==> !IsWhitespace(Trim(s)[0]) && !IsWhitespace(Trim(s)[|Trim(s)| - 1])
    ensures forall c :: c in s && !IsWhitespace(c) ==> c in Trim(s)
    ensures forall c :: c in Trim(s) ==> c in s
  {
    hide IsWhitespace;
    var t := TrimStart(s);
    TrimStartShape(s);
    TrimEndShape(t);
    TrimmedStays(Trim(s));
    forall c | c in s && !IsWhitespace(c)
      ensures c in Trim(s)
    {
      var k :| 0 <= k < |s| && s[k] == c;
      var j := k - (|s| - |t|);
      assert j >= 0 && t[j] == c;
      assert j < |TrimEnd(t)|;
    }
    forall c | c in Trim(s)
      ensures c in s
    {
      var k :| 0 <= k < |Trim(s)| && Trim(s)[k] == c;
      assert t[k] == c && s[|s| - |t| + k] == c;
    }
  }

  lemma TrimmedStays(s: string)
    requires s != "" ==> !IsWhitespace(s[0]) && !IsWhitespace(s[|s| - 1])
    ensures Trim(s) == s
  {
    hide IsWhitespace;
    assert TrimStart(s) == s;
  }

  lemma ColonSurvivesTrim(s: string)
    ensures ColonFree(s) <==> ColonFree(Trim(s))
  {
    hide IsWhitespace, Trim;
    TrimShape(s);
    PrintableIsNotWhitespace(':');
  }

  lemma LiteralsAreTrimmed()
    ensures Trim(UNKNOWN) == UNKNOWN && Trim(UNKNOWN_ACCOUNT) == UNKNOWN_ACCOUNT
  {
    hide IsWhitespace, Trim;
    PrintableIsNotWhitespace('u');
    PrintableIsNotWhitespace('n');
    PrintableIsNotWhitespace('-');
    TrimmedStays(UNKNOWN);
    TrimmedStays(UNKNOWN_ACCOUNT);
  }

  lemma SegmentsAreClean(c: Conversation)
    ensures var p := Segments(c);
            && Trim(p.platform) == p.platform != "" && Trim(p.account) == p.account != "" && Trim(p.targetType) == p.targetType != ""
            && Trim(p.target) == p.target
  {
    hide Trim;
    LiteralsAreTrimmed();
    TrimShape(c.platform);
    TrimShape(c.targetType);
    TrimShape(c.rawTarget);
    if c.account.Some? {
      TrimShape(c.account.value);
    }
  }

  /** The caller gave no colon before the target. */
  predicate HeadHasNoColon(c: Conversation) {
    ColonFree(c.platform) && (c.account.Some? ==> ColonFree(c.account.value)) && ColonFree(c.targetType)
  }

  lemma StemStaysColonFree(c: Conversation)
    ensures ColonFree(c.platform) <==> ColonFree(Segments(c).platform)
    ensures (c.account.Some? ==> ColonFree(c.account.value)) <==> ColonFree(Segments(c).account)
  {
    hide Trim;
    ColonSurvivesTrim(c.platform);
    if c.account.Some? {
      ColonSurvivesTrim(c.account.value);
    }
  }

  lemma HeadStaysColonFree(c: Conversation)
    ensures HeadHasNoColon(c) <==> ColonFreeHead(Segments(c))
  {
    hide Trim;
    ColonSurvivesTrim(c.platform);
    ColonSurvivesTrim(c.targetType);
    if c.account.Some? {
      ColonSurvivesTrim(c.account.value);
    }
  }

  // ----- Conversation keys -----

  /**
   Parsing a conversation's key returns its four cleaned segments exactly when the first three hold
   no colon and the target is not blank.
   */
  lemma ParsingReturnsTheSegmentsIff(c: Conversation)
    ensures ParseStableScopeKey(ConversationScopeKey(c)) == Some(Segments(c)) <==> HeadHasNoColon(c) && Trim(c.rawTarget) != ""
  {
    hide Trim, SplitN, Key, Segments;
    var p := Segments(c);
    HeadStaysColonFree(c);
    SegmentsAreClean(c);
    assert p.target == Trim(c.rawTarget) by { TargetOf(c); }
    if HeadHasNoColon(c) {
      KeySplits(p);
    }
    var parts := SplitN(Key(p), 6);
    if |parts| == 6 {
      EarlyPartsAreColonFree(Key(p), 6, 1);
      EarlyPartsAreColonFree(Key(p), 6, 3);
      EarlyPartsAreColonFree(Key(p), 6, 4);
    }
  }

  lemma TargetOf(c: Conversation)
    ensures Segments(c).target == Trim(c.rawTarget)
  {
  }

  /** Conversations without a colon before the target share a key exactly when they share all four segments. */
  lemma ConversationKeysAreDistinct(c: Conversation, d: Conversation)
    requires HeadHasNoColon(c) && HeadHasNoColon(d)
    ensures ConversationScopeKey(c) == ConversationScopeKey(d) <==> Segments(c) == Segments(d)
  {
    hide Trim, Key, Segments;
    HeadStaysColonFree(c);
    HeadStaysColonFree(d);
    SameHeadSameSegments(Segments(c), Segments(d));
  }

  // ----- Which conversations share a key -----

  function Colons(s: string): nat {
    if s == "" then 0 else (if s[0] == ':' then 1 else 0) + Colons(s[1..])
  }

  lemma {:induction false} ColonsAdd(a: string, b: string)
    ensures Colons(a + b) == Colons(a) + Colons(b)
  {
    if a == "" {
      assert a + b == b;
    } else {
      ColonsAdd(a[1..], b);
      assert (a + b)[1..] == a[1..] + b;
    }
  }

  lemma {:induction false} NoColonsIff(s: string)
    ensures ColonFree(s) <==> Colons(s) == 0
  {
    if s != "" {
      NoColonsIff(s[1..]);
      assert s == [s[0]] + s[1..];
    }
  }

  /** Everything before the target and its colon. */
  function Head(p: ParsedScopeKey): string {
    "platform" + (":" + (p.platform + (":" + ("account" + (":" + (p.account + (":" + p.targetType)))))))
  }

  lemma KeyIsHeadAndTarget(p: ParsedScopeKey)
    ensures Key(p) == Head(p) + ":" + p.target
  {
    var r3, r3' := p.account + (":" + p.targetType), p.account + (":" + (p.targetType + (":" + p.target)));
    assert r3' == r3 + ":" + p.target;
    assert "account" + (":" + r3') == "account" + (":" + r3) + ":" + p.target;
    assert p.platform + (":" + ("account" + (":" + r3'))) == p.platform + (":" + ("account" + (":" + r3))) + ":" + p.target;
  }

  lemma ColonsOfPart(a: string, rest: string)
    ensures Colons(a + (":" + rest)) == Colons(a) + 1 + Colons(rest)
  {
    ColonsAdd(a, ":" + rest);
    assert (":" + rest)[1..] == rest;
  }

  lemma ColonsOfHead(p: ParsedScopeKey)
    ensures Colons(Head(p)) == 4 + Colons(p.platform) + Colons(p.account) + Colons(p.targetType)
  {
    hide Colons;
    NoColonsIff("platform");
    NoColonsIff("account");
    var r3 := p.account + (":" + p.targetType);
    var r2 := "account" + (":" + r3);
    var r1 := p.platform + (":" + r2);
    ColonsOfPart(p.account, p.targetType);
    ColonsOfPart("account", r3);
    ColonsOfPart(p.platform, r2);
    ColonsOfPart("platform", r1);
  }

  /** A colon of the target where it can be cut into two trimmed parts. */
  ghost predicate CutsAt(target: string, k: nat) {
    && k < |target| && target[k] == ':'
    && (k > 0 ==> !IsWhitespace(target[k - 1])) && (k + 1 < |target| ==> !IsWhitespace(target[k + 1]))
  }

  /** Segments as cleaning leaves them. */
  ghost predicate Cleaned(p: ParsedScopeKey) {
    && Trim(p.platform) == p.platform != "" && Trim(p.account) == p.account != ""
    && Trim(p.targetType) == p.targetType != "" && Trim(p.target) == p.target
  }

  lemma CleanedIsReached(p: ParsedScopeKey)
    requires Cleaned(p)
    ensures Segments(Conversation(p.platform, Some(p.account), p.targetType, p.target)) == p
  {
    hide Trim;
  }

  /** The two parts a cut leaves are trimmed. */
  lemma CutPartsAreTrimmed(before: string, target: string, k: nat)
    requires Trim(before) == before != "" && Trim(target) == target && CutsAt(target, k)
    ensures Trim(before + (":" + target[..k])) == before + (":" + target[..k]) && Trim(target[k + 1..]) == target[k + 1..]
  {
    hide IsWhitespace, Trim;
    var t, g := before + (":" + target[..k]), target[k + 1..];
    TrimShape(before);
    TrimShape(target);
    PrintableIsNotWhitespace(':');
    assert t[0] == before[0];
    assert t[|t| - 1] == if k == 0 then ':' else target[k - 1];
    TrimmedStays(t);
    if g != "" {
      assert g[0] == target[k + 1] && g[|g| - 1] == target[|target| - 1];
    }
    TrimmedStays(g);
  }

  /** A conversation whose type takes up to a colon of the target has the same key. */
  lemma MovedColonCollides(p: ParsedScopeKey, k: nat)
    requires Cleaned(p) && CutsAt(p.target, k)
    ensures var q := p.(targetType := p.targetType + (":" + p.target[..k]), target := p.target[k + 1..]);
      Cleaned(q) && Key(q) == Key(p)
  {
    hide IsWhitespace, Trim, Key, Head;
    CutPartsAreTrimmed(p.targetType, p.target, k);
    var q := p.(targetType := p.targetType + (":" + p.target[..k]), target := p.target[k + 1..]);
    KeyIsHeadAndTarget(p);
    KeyIsHeadAndTarget(q);
    HeadAppends(p, ":" + p.target[..k]);
    HeadIgnoresTarget(p, q);
    assert p.target == p.target[..k] + ":" + q.target;
    assert Head(p) + (":" + p.target[..k]) + ":" + q.target == Head(p) + ":" + (p.target[..k] + ":" + q.target);
  }

  lemma HeadIgnoresTarget(p: ParsedScopeKey, q: ParsedScopeKey)
    ensures Head(q) == Head(q.(target := p.target))
  {
  }

  /** Another conversation with this key must cut the target at a colon. */
  lemma SharedKeyCuts(p: ParsedScopeKey, q: ParsedScopeKey) returns (k: nat)
    requires ColonFreeHead(p) && Cleaned(p) && Cleaned(q) && p != q && Key(p) == Key(q)
    ensures CutsAt(p.target, k)
  {
    hide IsWhitespace, Trim, Key, Head, Colons;
    var h, i := Head(p), Head(q);
    KeyIsHeadAndTarget(p);
    KeyIsHeadAndTarget(q);
    HeadsDiffer(p, q);
    TrimShape(q.targetType);
    TrimShape(q.target);
    var all := Key(p);
    k := |i| - |h| - 1;
    assert all[|i|] == ':' && all[|i|] == p.target[k];
    HeadEndsWithType(q);
    if k > 0 {
      assert all[|i| - 1] == i[|i| - 1] == p.target[k - 1];
    }
    if k + 1 < |p.target| {
      assert all[|i| + 1] == q.target[0] == p.target[k + 1];
    }
  }

  lemma HeadEndsWithType(p: ParsedScopeKey)
    requires p.targetType != ""
    ensures |Head(p)| > 0 && Head(p)[|Head(p)| - 1] == p.targetType[|p.targetType| - 1]
  {
  }

  /** The other conversation's head is longer: it takes in a colon of the target. */
  lemma HeadsDiffer(p: ParsedScopeKey, q: ParsedScopeKey)
    requires ColonFreeHead(p) && p != q && Head(p) + ":" + p.target == Head(q) + ":" + q.target && Key(p) == Key(q)
    ensures |Head(p)| < |Head(q)|
  {
    hide Head, Key, SplitN;
    var h, i := Head(p), Head(q);
    var all := h + ":" + p.target;
    ColonsOfHead(p);
    ColonsOfHead(q);
    NoColonsIff(p.platform);
    NoColonsIff(p.account);
    NoColonsIff(p.targetType);
    NoColonsIff(q.platform);
    NoColonsIff(q.account);
    NoColonsIff(q.targetType);
    if |i| < |h| {
      assert all[..|i|] == i && all[|i|] == ':';
      assert h == i + (":" + h[|i| + 1..]);
      ColonsOfPart(i, h[|i| + 1..]);
    } else if |i| == |h| {
      assert i == all[..|i|] == h;
      SameHeadSameSegments(p, q);
    }
  }

  lemma SameHeadSameSegments(p: ParsedScopeKey, q: ParsedScopeKey)
    requires ColonFreeHead(p) && ColonFreeHead(q)
    ensures Key(p) == Key(q) <==> p == q
  {
    hide Key, SplitN;
    KeySplits(p);
    KeySplits(q);
    if Key(p) == Key(q) {
      var parts := SplitN(Key(p), 6);
      assert parts[1] == q.platform && parts[3] == q.account && parts[4] == q.targetType && parts[5] == q.target;
    }
  }

  /**
   A conversation without a colon before its target shares its key with a different one exactly when
   its target holds a colon with no white space directly before or after it.
   */
  lemma KeyIsSharedIff(c: Conversation)
    requires HeadHasNoColon(c)
    ensures (exists d :: ConversationScopeKey(d) == ConversationScopeKey(c) && Segments(d) != Segments(c))
       <==> exists k: nat :: CutsAt(Trim(c.rawTarget), k)
  {
    hide IsWhitespace, Trim, Key, Segments, CutsAt;
    var p := Segments(c);
    HeadStaysColonFree(c);
    SegmentsAreClean(c);
    TargetOf(c);
    if d :| ConversationScopeKey(d) == ConversationScopeKey(c) && Segments(d) != Segments(c) {
      SegmentsAreClean(d);
      var k := SharedKeyCuts(p, Segments(d));
    }
    if k: nat :| CutsAt(Trim(c.rawTarget), k) {
      CutLengthens(p, k);
      MovedColonCollides(p, k);
      var q := p.(targetType := p.targetType + (":" + p.target[..k]), target := p.target[k + 1..]);
      CleanedIsReached(q);
      var d := Conversation(q.platform, Some(q.account), q.targetType, q.target);
      assert ConversationScopeKey(d) == ConversationScopeKey(c) && Segments(d) != Segments(c);
    }
  }

  lemma CutLengthens(p: ParsedScopeKey, k: nat)
    requires CutsAt(p.target, k)
    ensures k < |p.target| && |p.targetType + (":" + p.target[..k])| > |p.targetType|
  {
  }

  lemma TrimmedAroundColon(a: string, b: string)
    requires Trim(a) == a && Trim(b) == b
    ensures Trim(a + ":" + b) == a + ":" + b && CutsAt(a + ":" + b, |a|)
  {
    hide IsWhitespace, Trim;
    TrimShape(a);
    TrimShape(b);
    PrintableIsNotWhitespace(':');
    TrimmedStays(a + ":" + b);
  }

  // ----- Keys shared through the target type -----

  /** The key up to its account, and what follows the next colon. */
  function Stem(p: ParsedScopeKey): string {
    "platform" + (":" + (p.platform + (":" + ("account" + (":" + p.account)))))
  }

  function Tail(p: ParsedScopeKey): string {
    p.targetType + ":" + p.target
  }

  lemma KeyIsStemAndTail(p: ParsedScopeKey)
    ensures Key(p) == Stem(p) + ":" + Tail(p)
    ensures Head(p) == Stem(p) + ":" + p.targetType
  {
    StemAndMore(p, p.targetType);
    StemAndMore(p, Tail(p));
    assert p.targetType + (":" + p.target) == Tail(p);
  }

  lemma StemAndMore(p: ParsedScopeKey, more: string)
    ensures "platform" + (":" + (p.platform + (":" + ("account" + (":" + (p.account + (":" + more)))))))
         == Stem(p) + ":" + more
  {
    var r3 := p.account + (":" + more);
    assert r3 == p.account + ":" + more;
    assert "account" + (":" + r3) == "account" + (":" + p.account) + ":" + more;
    assert p.platform + (":" + ("account" + (":" + r3))) == p.platform + (":" + ("account" + (":" + p.account))) + ":" + more;
  }

  lemma ColonsOfStem(p: ParsedScopeKey)
    ensures Colons(Stem(p)) == 3 + Colons(p.platform) + Colons(p.account)
  {
    hide Colons;
    NoColonsIff("platform");
    NoColonsIff("account");
    var r2 := "account" + (":" + p.account);
    ColonsOfPart("account", p.account);
    ColonsOfPart(p.platform, r2);
    ColonsOfPart("platform", p.platform + (":" + r2));
  }

  /** A stem with fewer colons is a shorter one. */
  lemma StemsOrder(p: ParsedScopeKey, q: ParsedScopeKey)
    requires ColonFree(p.platform) && ColonFree(p.account) && Key(p) == Key(q)
    ensures |Stem(p)| <= |Stem(q)|
    ensures |Stem(p)| == |Stem(q)| ==> q.platform == p.platform && q.account == p.account && Tail(q) == Tail(p)
  {
    hide Stem, Key, Tail, Colons;
    var a, b, all := Stem(p), Stem(q), Key(p);
    KeyIsStemAndTail(p);
    KeyIsStemAndTail(q);
    ColonsOfStem(p);
    ColonsOfStem(q);
    NoColonsIff(p.platform);
    NoColonsIff(p.account);
    NoColonsIff(q.platform);
    NoColonsIff(q.account);
    if |b| < |a| {
      assert all[..|b|] == b && all[|b|] == ':';
      assert a == b + (":" + a[|b| + 1..]);
      ColonsOfPart(b, a[|b| + 1..]);
    } else if |b| == |a| {
      assert b == all[..|b|] == a;
      assert Tail(p) == all[|a| + 1..] == Tail(q);
      var p0, q0 := p.(targetType := "x", target := ""), q.(targetType := "x", target := "");
      StemIgnoresTail(p, p0);
      StemIgnoresTail(q, q0);
      KeyIsStemAndTail(p0);
      KeyIsStemAndTail(q0);
      assert Tail(p0) == Tail(q0) by { SameTail(p0, q0); }
      SameHeadSameSegments(p0, q0);
    }
  }

  lemma StemIgnoresTail(p: ParsedScopeKey, q: ParsedScopeKey)
    requires p.platform == q.platform && p.account == q.account
    ensures Stem(p) == Stem(q)
  {
  }

  lemma SameTail(p: ParsedScopeKey, q: ParsedScopeKey)
    requires p.targetType == q.targetType && p.target == q.target
    ensures Tail(p) == Tail(q)
  {
  }

  /**
   A colon of the type or of the target, other than the one between them, where the text can be cut
   into two trimmed parts; one at the very start of the type needs more of the type behind it.
   */
  ghost predicate TailCuts(p: ParsedScopeKey, k: nat) {
    k != |p.targetType| && CutsAt(Tail(p), k) && (k == 0 ==> |p.targetType| > 1)
  }

  /** Two ways to cut a text at a colon: the longer left part ends behind a colon of the shorter one's rest. */
  lemma LongerPartCuts(a: string, tail: string, left: string, right: string)
    requires a + ":" + tail == left + ":" + right && |a| < |left|
    requires !IsWhitespace(left[|left| - 1]) && (right != "" ==> !IsWhitespace(right[0]))
    ensures CutsAt(tail, |left| - |a| - 1)
  {
    hide IsWhitespace;
    var n, k, all := |a| + 1, |left| - |a| - 1, a + ":" + tail;
    assert forall i :: 0 <= i < |tail| ==> all[n + i] == tail[i];
    assert all[n + k] == ':';
    assert k > 0 ==> all[n + k - 1] == left[|left| - 1];
    assert right != "" ==> all[n + k + 1] == right[0];
  }

  /** Another conversation with this key cuts the type or the target at a colon. */
  lemma SharedKeyCutsTail(p: ParsedScopeKey, q: ParsedScopeKey) returns (k: nat)
    requires ColonFree(p.platform) && ColonFree(p.account) && Cleaned(p) && Cleaned(q) && p != q && Key(p) == Key(q)
    ensures TailCuts(p, k)
  {
    hide IsWhitespace, Trim, Key, Stem, CutsAt, Head, Tail;
    KeyIsStemAndTail(p);
    KeyIsStemAndTail(q);
    KeyIsHeadAndTarget(q);
    StemsOrder(p, q);
    TrimShape(q.targetType);
    TrimShape(q.target);
    assert Stem(q) + ":" + q.targetType == Head(q);
    LongerPartCuts(Stem(p), Tail(p), Head(q), q.target);
    k := |Head(q)| - |Stem(p)| - 1;
    if k == |p.targetType| {
      if |Stem(q)| == |Stem(p)| {
        SameCutSameTail(p, q);
      }
      StemEndsWithAccount(q);
      TrimShape(q.account);
      assert Tail(q)[0] == q.targetType[0] by { TailStarts(q); }
      LongerPartCuts(Stem(p), Tail(p), Stem(q), Tail(q));
      k := |Stem(q)| - |Stem(p)| - 1;
    }
  }

  lemma TailStarts(p: ParsedScopeKey)
    requires p.targetType != ""
    ensures Tail(p) != "" && Tail(p)[0] == p.targetType[0]
  {
  }

  lemma SameCutSameTail(p: ParsedScopeKey, q: ParsedScopeKey)
    requires Tail(p) == Tail(q) && |p.targetType| == |q.targetType|
    ensures p.targetType == q.targetType && p.target == q.target
  {
    assert p.targetType == Tail(p)[..|p.targetType|] && p.target == Tail(p)[|p.targetType| + 1..];
    assert q.targetType == Tail(q)[..|q.targetType|] && q.target == Tail(q)[|q.targetType| + 1..];
  }

  lemma StemEndsWithAccount(p: ParsedScopeKey)
    requires p.account != ""
    ensures |Stem(p)| > 0 && Stem(p)[|Stem(p)| - 1] == p.account[|p.account| - 1]
  {
  }

  /** A colon within type and target gives another conversation with the key. */
  lemma InnerCutCollides(p: ParsedScopeKey, k: nat)
    requires Cleaned(p) && CutsAt(Tail(p), k) && 0 < k
    ensures var q := p.(targetType := Tail(p)[..k], target := Tail(p)[k + 1..]); Cleaned(q) && Key(q) == Key(p)
  {
    hide IsWhitespace, Trim, Key, Stem;
    var tail := Tail(p);
    var q := p.(targetType := tail[..k], target := tail[k + 1..]);
    TrimShape(p.targetType);
    TrimShape(p.target);
    PrintableIsNotWhitespace(':');
    assert tail[|tail| - 1] == if p.target == "" then ':' else p.target[|p.target| - 1];
    TrimmedStays(q.targetType);
    TrimmedStays(q.target);
    assert tail == Tail(q);
    StemIgnoresTail(p, q);
    KeyIsStemAndTail(p);
    KeyIsStemAndTail(q);
  }

  /** A colon at the start of the type can belong to the account. */
  lemma LeadingColonCollides(p: ParsedScopeKey)
    requires Cleaned(p) && |p.targetType| > 1 && p.targetType[0] == ':' && !IsWhitespace(p.targetType[1])
    ensures var q := p.(account := p.account + ":", targetType := p.targetType[1..]); Cleaned(q) && Key(q) == Key(p)
  {
    hide IsWhitespace, Trim, Key, Stem;
    var q := p.(account := p.account + ":", targetType := p.targetType[1..]);
    TrimShape(p.account);
    TrimShape(p.targetType);
    PrintableIsNotWhitespace(':');
    TrimmedStays(q.account);
    TrimmedStays(q.targetType);
    StemAndColon(p);
    StemIgnoresTail(q, p.(account := p.account + ":"));
    KeyIsStemAndTail(p);
    KeyIsStemAndTail(q);
    assert Tail(p) == ":" + Tail(q);
    assert Stem(p) + ":" + Tail(p) == Stem(q) + ":" + Tail(q);
  }

  /** Each such colon gives another conversation with the key. */
  lemma TailCutCollides(p: ParsedScopeKey, k: nat) returns (q: ParsedScopeKey)
    requires Cleaned(p) && TailCuts(p, k)
    ensures Cleaned(q) && Key(q) == Key(p) && q != p
  {
    hide IsWhitespace, Trim, Key, Stem;
    if k > 0 {
      InnerCutCollides(p, k);
      q := p.(targetType := Tail(p)[..k], target := Tail(p)[k + 1..]);
      assert |q.targetType| == k;
    } else {
      assert Tail(p)[0] == p.targetType[0] && Tail(p)[1] == p.targetType[1];
      LeadingColonCollides(p);
      q := p.(account := p.account + ":", targetType := p.targetType[1..]);
      assert |q.targetType| < |p.targetType|;
    }
  }

  lemma StemAndColon(p: ParsedScopeKey)
    ensures Stem(p.(account := p.account + ":")) == Stem(p) + ":"
  {
    assert "account" + (":" + (p.account + ":")) == "account" + (":" + p.account) + ":";
    assert p.platform + (":" + ("account" + (":" + (p.account + ":"))))
        == p.platform + (":" + ("account" + (":" + p.account))) + ":";
  }

  /**
   A conversation without a colon in platform and account, whatever its type, shares its key with a
   different one exactly when its type or target can be cut at another colon than the one between.
   */
  lemma KeyIsSharedForAnyTypeIff(c: Conversation)
    requires ColonFree(c.platform) && (c.account.Some? ==> ColonFree(c.account.value))
    ensures (exists d :: ConversationScopeKey(d) == ConversationScopeKey(c) && Segments(d) != Segments(c))
       <==> exists k: nat :: TailCuts(Segments(c), k)
  {
    hide IsWhitespace, Trim, Key, Segments, TailCuts;
    var p := Segments(c);
    StemStaysColonFree(c);
    SegmentsAreClean(c);
    if d :| ConversationScopeKey(d) == ConversationScopeKey(c) && Segments(d) != Segments(c) {
      SegmentsAreClean(d);
      var k := SharedKeyCutsTail(p, Segments(d));
    }
    if k: nat :| TailCuts(p, k) {
      var q := TailCutCollides(p, k);
      CleanedIsReached(q);
      var d := Conversation(q.platform, Some(q.account), q.targetType, q.target);
      assert ConversationScopeKey(d) == ConversationScopeKey(c) && Segments(d) != Segments(c);
    }
  }

  /** A colon in the target type gives two conversations with different segments one key. */
  lemma ColonInTypeCollides(c: Conversation, before: string, after: string)
    requires Trim(before) == before != "" && Trim(after) == after
    ensures var target := Trim(c.rawTarget);
      var d, e := c.(targetType := before + ":" + after), c.(targetType := before, rawTarget := after + ":" + target);
      ConversationScopeKey(d) == ConversationScopeKey(e) && Segments(d) != Segments(e)
  {
    hide IsWhitespace, Trim, Key, CutsAt;
    var target := Trim(c.rawTarget);
    var d, e := c.(targetType := before + ":" + after), c.(targetType := before, rawTarget := after + ":" + target);
    TrimShape(c.rawTarget);
    TrimmedAroundColon(before, after);
    TrimmedAroundColon(after, target);
    SegmentsAreClean(e);
    MovedColonCollides(Segments(e), |after|);
    assert (after + ":" + target)[..|after|] == after && (after + ":" + target)[|after| + 1..] == target;
    assert before + (":" + after) == before + ":" + after;
  }

  lemma HeadAppends(p: ParsedScopeKey, tail: string)
    ensures Head(p.(targetType := p.targetType + tail)) == Head(p) + tail
  {
    var r3 := p.account + (":" + p.targetType);
    assert p.account + (":" + (p.targetType + tail)) == r3 + tail;
    var r2 := "account" + (":" + r3);
    assert "account" + (":" + (r3 + tail)) == r2 + tail;
    var r1 := p.platform + (":" + r2);
    assert p.platform + (":" + (r2 + tail)) == r1 + tail;
    assert "platform" + (":" + (r1 + tail)) == "platform" + (":" + r1) + tail;
  }

  // ----- Interaction keys -----

  lemma LastColonSplits(s: string, t: string, a: string, b: string)
    requires ColonFree(a) && ColonFree(b) && s + ":actor:" + a == t + ":actor:" + b
    ensures s == t && a == b
  {
    var x, y := s + ":actor:" + a, t + ":actor:" + b;
    assert x[|s| + 6] == ':' && y[|t| + 6] == ':';
    assert forall i :: |s| + 7 <= i < |x| ==> x[i] == a[i - |s| - 7];
    assert forall i :: |t| + 7 <= i < |y| ==> y[i] == b[i - |t| - 7];
    assert |a| == |b| && |s| == |t|;
    assert s == x[..|s|] && t == y[..|t|] && a == x[|s| + 7..] && b == y[|t| + 7..];
  }

  /** The cleaned scope an interaction key starts from. */
  function Scope(scope: string): string { OrElse(Clean(scope), UNKNOWN) }

  /** The segments of an actorless conversation that read as `p` with this actor. */
  function WithActor(p: ParsedScopeKey, actor: string): ParsedScopeKey {
    p.(target := p.target + (":actor:" + actor))
  }

  lemma KeyIsClean(c: Conversation)
    ensures Scope(ConversationScopeKey(c)) == ConversationScopeKey(c)
  {
    hide Trim, IsWhitespace, Segments;
    var p := Segments(c);
    var k := Key(p);
    SegmentsAreClean(c);
    TrimShape(p.target);
    PrintableIsNotWhitespace('p');
    PrintableIsNotWhitespace(':');
    assert k[0] == 'p';
    assert k[|k| - 1] == if p.target == "" then ':' else p.target[|p.target| - 1];
    TrimmedStays(k);
  }

  lemma InteractionKeyOf(u: Option<string>, c: Conversation)
    ensures InteractionScopeKey(u, ConversationScopeKey(c)) ==
            if CleanOption(u).None? then Key(Segments(c)) else Key(Segments(c)) + ":actor:" + CleanOption(u).value
  {
    hide Trim, Key, Segments;
    KeyIsClean(c);
  }

  /**
   When two interactions share a key, for conversations without a colon before the target and
   actors without a colon: it is the same conversation and the same actor, or one has no actor and
   its target is that of the other continued by the other's actor.
   */
  lemma InteractionKeysCollideIff(c: Conversation, d: Conversation, u: Option<string>, v: Option<string>)
    requires HeadHasNoColon(c) && HeadHasNoColon(d)
    requires (u.Some? ==> ColonFree(u.value)) && (v.Some? ==> ColonFree(v.value))
    ensures InteractionScopeKey(u, ConversationScopeKey(c)) == InteractionScopeKey(v, ConversationScopeKey(d)) <==>
            || (Segments(c) == Segments(d) && CleanOption(u) == CleanOption(v))
            || (CleanOption(u).None? && CleanOption(v).Some? && Segments(c) == WithActor(Segments(d), CleanOption(v).value))
            || (CleanOption(v).None? && CleanOption(u).Some? && Segments(d) == WithActor(Segments(c), CleanOption(u).value))
  {
    hide Trim, Key, Segments;
    var p, q := Segments(c), Segments(d);
    InteractionKeyOf(u, c);
    InteractionKeyOf(v, d);
    HeadStaysColonFree(c);
    HeadStaysColonFree(d);
    SameHeadSameSegments(p, q);
    if CleanOption(u).Some? {
      ColonSurvivesTrim(u.value);
      ActorContinuesTarget(p, CleanOption(u).value);
      SameHeadSameSegments(q, WithActor(p, CleanOption(u).value));
    }
    if CleanOption(v).Some? {
      ColonSurvivesTrim(v.value);
      ActorContinuesTarget(q, CleanOption(v).value);
      SameHeadSameSegments(p, WithActor(q, CleanOption(v).value));
    }
    if CleanOption(u).Some? && CleanOption(v).Some?
       && Key(p) + ":actor:" + CleanOption(u).value == Key(q) + ":actor:" + CleanOption(v).value {
      LastColonSplits(Key(p), Key(q), CleanOption(u).value, CleanOption(v).value);
    }
  }

  lemma ActorContinuesTarget(p: ParsedScopeKey, actor: string)
    ensures Key(WithActor(p, actor)) == Key(p) + ":actor:" + actor
  {
    hide Key;
    KeyAppends(p, ":actor:" + actor);
    assert Key(p) + (":actor:" + actor) == Key(p) + ":actor:" + actor;
  }

  /**
   With no colon in any segment or actor, interaction keys coincide exactly for the same
   conversation and the same actor.
   */
  lemma InteractionKeysAreDistinct(c: Conversation, d: Conversation, u: Option<string>, v: Option<string>)
    requires HeadHasNoColon(c) && ColonFree(c.rawTarget) && HeadHasNoColon(d) && ColonFree(d.rawTarget)
    requires (u.Some? ==> ColonFree(u.value)) && (v.Some? ==> ColonFree(v.value))
    ensures InteractionScopeKey(u, ConversationScopeKey(c)) == InteractionScopeKey(v, ConversationScopeKey(d)) <==>
            Segments(c) == Segments(d) && CleanOption(u) == CleanOption(v)
  {
    hide Trim, Key, Segments, ConversationScopeKey, InteractionScopeKey;
    InteractionKeysCollideIff(c, d, u, v);
    ColonSurvivesTrim(c.rawTarget);
    ColonSurvivesTrim(d.rawTarget);
    TargetOf(c);
    TargetOf(d);
    if CleanOption(u).Some? {
      ActorBringsColon(Segments(c), CleanOption(u).value);
    }
    if CleanOption(v).Some? {
      ActorBringsColon(Segments(d), CleanOption(v).value);
    }
  }

  lemma ActorBringsColon(p: ParsedScopeKey, actor: string)
    ensures !ColonFree(WithActor(p, actor).target)
  {
    assert WithActor(p, actor).target[|p.target|] == ':';
  }

  /**
   A colon in the target loses the isolation: an actorless conversation can share its key with an
   actor in another.
   */
  lemma ColonInTargetCollides(c: Conversation, target: string, actor: string)
    requires Trim(target) == target != "" && Trim(actor) == actor != ""
    ensures InteractionScopeKey(None, ConversationScopeKey(c.(rawTarget := target + ":actor:" + actor))) ==
            InteractionScopeKey(Some(actor), ConversationScopeKey(c.(rawTarget := target)))
  {
    hide Trim, IsWhitespace;
    var joined := target + ":actor:" + actor;
    TrimShape(target);
    TrimShape(actor);
    TrimmedStays(joined);
    KeyIsClean(c.(rawTarget := joined));
    KeyIsClean(c.(rawTarget := target));
    var p := Segments(c.(rawTarget := target));
    KeyAppends(p, ":actor:" + actor);
    assert target + (":actor:" + actor) == joined;
  }

  lemma KeyAppends(p: ParsedScopeKey, tail: string)
    ensures Key(p.(target := p.target + tail)) == Key(p) + tail
  {
    var r4 := p.targetType + (":" + p.target);
    assert p.targetType + (":" + (p.target + tail)) == r4 + tail;
    var r3 := p.account + (":" + r4);
    assert p.account + (":" + (r4 + tail)) == r3 + tail;
    var r2 := "account" + (":" + r3);
    assert "account" + (":" + (r3 + tail)) == r2 + tail;
    var r1 := p.platform + (":" + r2);
    assert p.platform + (":" + (r2 + tail)) == r1 + tail;
    assert "platform" + (":" + (r1 + tail)) == "platform" + (":" + r1) + tail;
  }
}
