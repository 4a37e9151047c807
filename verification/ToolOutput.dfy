/** Bounding a tool's serialized output without ever breaking its JSON. */
module ToolOutput {
  import opened Wrappers
  import opened Characters
  import opened JsonText
  import opened Numbers
  import Decimal

  const TRUNCATED_MARKER := "{\"truncated\":true}"

  /** The smallest limit that leaves room for the marker. */
  const MIN_TOOL_OUTPUT_MAX_CHARS := |TRUNCATED_MARKER|

  function PrintMember(name: string, value: string): string {
    Quote(name) + ":" + value
  }

  /** The wrapper object, its members in key order as serde_json's map prints them. */
  function Wrapper(total: nat, preview: string): string {
    "{" + (PrintMember("original_chars", Decimal.Print(total)) + ","
           + (PrintMember("preview", Quote(preview)) + "," + (PrintMember("truncated", "true") + "}")))
  }

  function WrapperValue(total: nat, preview: string): Json {
    JObject([Member("original_chars", JNumber(Decimal.Print(total))), Member("preview", JString(preview)),
             Member("truncated", JBool(true))])
  }

  // ----- The wrapper reads back -----

  /** `s` holds at `i` a printed value that reads as `value`, whatever separator follows. */
  ghost predicate ReadsAs(s: string, i: nat, text: string, value: Json) {
    i + |text| <= |s| && ReadValue(s, i) == Some((value, i + |text|))
  }

  lemma MemberReads(s: string, i: nat, name: string, text: string, value: Json)
    requires Holds(s, i, PrintMember(name, text)) && ReadsAs(s, i + |Quote(name)| + 1, text, value)
    ensures ReadMember(s, i) == Some((Member(name, value), i + |PrintMember(name, text)|))
  {
    hide ReadValue, ReadString, Quote;
    assert PrintMember(name, text) == Quote(name) + (":" + text);
    HoldsParts(s, i, Quote(name), ":" + text);
    HoldsAt(s, i + |Quote(name)|, ":" + text, 0);
    QuoteIsRead(s, i, name);
  }

  lemma {:induction false} SkipDigitsStopsAt(s: string, i: nat, e: nat)
    requires i <= e < |s| && !IsAsciiDigit(s[e])
    requires forall k :: i <= k < e ==> IsAsciiDigit(s[k])
    ensures SkipDigits(s, i) == e
    decreases e - i
  {
    if i < e {
      SkipDigitsStopsAt(s, i + 1, e);
    }
  }

  /** A printed number followed by a comma reads as that number. */
  lemma NumberReads(s: string, i: nat, n: nat, after: string)
    requires Holds(s, i, Decimal.Print(n) + ("," + after))
    ensures ReadsAs(s, i, Decimal.Print(n), JNumber(Decimal.Print(n)))
  {
    hide ReadValue, NumberEnd, SkipDigits, Holds;
    var t := Decimal.Print(n);
    var e := i + |t|;
    Decimal.PrintedValue(n);
    HoldsParts(s, i, t, "," + after);
    HoldsAt(s, e, "," + after, 0);
    forall k | i <= k < e
      ensures IsAsciiDigit(s[k])
    {
      HoldsAt(s, i, t, k - i);
    }
    HoldsAt(s, i, t, 0);
    if t[0] == '0' {
      assert t == "0";
    } else {
      SkipDigitsStopsAt(s, i + 1, e);
    }
    NumberEndIs(s, i, e);
    DigitStartsNumber(s, i, e);
  }

  lemma DigitStartsNumber(s: string, i: nat, e: nat)
    requires i < e <= |s| && IsAsciiDigit(s[i]) && NumberEnd(s, i) == Some(e)
    ensures ReadValue(s, i) == Some((JNumber(s[i..e]), e))
  {
    hide NumberEnd, HasWord;
    WordsAreNotDigits(s, i);
  }

  lemma NumberEndIs(s: string, i: nat, e: nat)
    requires i < e < |s| && s[e] == ',' && IsAsciiDigit(s[i])
    requires if s[i] == '0' then e == i + 1 else SkipDigits(s, i + 1) == e
    ensures NumberEnd(s, i) == Some(e)
  {
  }

  lemma WordsAreNotDigits(s: string, i: nat)
    requires i < |s| && IsAsciiDigit(s[i])
    ensures !HasWord(s, i, "true") && !HasWord(s, i, "false") && !HasWord(s, i, "null")
  {
  }

  lemma StringReads(s: string, i: nat, t: string)
    requires Holds(s, i, Quote(t))
    ensures ReadsAs(s, i, Quote(t), JString(t))
  {
    hide ReadString, Quote;
    QuoteIsRead(s, i, t);
  }

  lemma TrueReads(s: string, i: nat)
    requires Holds(s, i, "true")
    ensures ReadsAs(s, i, "true", JBool(true))
  {
    HoldsAt(s, i, "true", 0);
  }

  lemma MembersThenMore(s: string, i: nat, name: string, text: string, value: Json, rest: seq<Member>, e: nat)
    requires Holds(s, i, PrintMember(name, text) + ",")
    requires ReadMember(s, i) == Some((Member(name, value), i + |PrintMember(name, text)|))
    requires var d := i + |PrintMember(name, text)|;
      d + 1 < |s| && s[d + 1] == '"' && ReadMembers(s, d + 1) == Some((rest, e))
    ensures ReadMembers(s, i) == Some(([Member(name, value)] + rest, e))
  {
    hide ReadMember, PrintMember;
    var d := i + |PrintMember(name, text)|;
    HoldsParts(s, i, PrintMember(name, text), ",");
    HoldsAt(s, d, ",", 0);
  }

  lemma LastMember(s: string, i: nat)
    requires Holds(s, i, PrintMember("truncated", "true") + "}")
    ensures s[i] == '"'
    ensures ReadMembers(s, i) == Some(([Member("truncated", JBool(true))], i + |PrintMember("truncated", "true")| + 1))
  {
    hide ReadMember, ReadValue, Quote;
    var m := PrintMember("truncated", "true");
    HoldsParts(s, i, m, "}");
    assert m == Quote("truncated") + (":" + "true");
    HoldsParts(s, i, Quote("truncated"), ":" + "true");
    HoldsParts(s, i + |Quote("truncated")|, ":", "true");
    TrueReads(s, i + |Quote("truncated")| + 1);
    MemberReads(s, i, "truncated", "true", JBool(true));
    QuoteIsRead(s, i, "truncated");
    HoldsAt(s, i + |m|, "}", 0);
  }

  lemma MemberParts(s: string, i: nat, name: string, text: string, after: string)
    requires Holds(s, i, PrintMember(name, text) + "," + after)
    ensures Holds(s, i, PrintMember(name, text)) && Holds(s, i, PrintMember(name, text) + ",")
    ensures Holds(s, i, Quote(name)) && Holds(s, i + |Quote(name)| + 1, text + ("," + after))
    ensures Holds(s, i + |PrintMember(name, text)| + 1, after)
    ensures s[i] == '"'
  {
    hide Quote;
    var m := PrintMember(name, text);
    HoldsParts(s, i, m + ",", after);
    HoldsParts(s, i, m, ",");
    assert m + "," + after == Quote(name) + (":" + (text + ("," + after)));
    HoldsParts(s, i, Quote(name), ":" + (text + ("," + after)));
    HoldsParts(s, i + |Quote(name)|, ":", text + ("," + after));
    QuoteIsRead(s, i, name);
  }

  lemma PreviewMember(s: string, i: nat, preview: string, after: string)
    requires Holds(s, i, PrintMember("preview", Quote(preview)) + "," + after)
    ensures s[i] == '"' && Holds(s, i, PrintMember("preview", Quote(preview)) + ",")
    ensures ReadMember(s, i) == Some((Member("preview", JString(preview)), i + |PrintMember("preview", Quote(preview))|))
    ensures Holds(s, i + |PrintMember("preview", Quote(preview))| + 1, after)
  {
    hide ReadMember, ReadValue, Quote, Holds, PrintMember;
    var j := i + |Quote("preview")| + 1;
    MemberParts(s, i, "preview", Quote(preview), after);
    HoldsParts(s, j, Quote(preview), "," + after);
    StringReads(s, j, preview);
    MemberReads(s, i, "preview", Quote(preview), JString(preview));
  }

  lemma CountMember(s: string, i: nat, total: nat, after: string)
    requires Holds(s, i, PrintMember("original_chars", Decimal.Print(total)) + "," + after)
    ensures s[i] == '"' && Holds(s, i, PrintMember("original_chars", Decimal.Print(total)) + ",")
    ensures ReadMember(s, i)
         == Some((Member("original_chars", JNumber(Decimal.Print(total))), i + |PrintMember("original_chars", Decimal.Print(total))|))
    ensures Holds(s, i + |PrintMember("original_chars", Decimal.Print(total))| + 1, after)
  {
    hide ReadMember, ReadValue, Quote, Holds, PrintMember, Decimal.Print;
    var n := Decimal.Print(total);
    MemberParts(s, i, "original_chars", n, after);
    NumberReads(s, i + |Quote("original_chars")| + 1, total, after);
    MemberReads(s, i, "original_chars", n, JNumber(n));
  }

  lemma LastTwoMembers(s: string, p: nat, preview: string)
    requires Holds(s, p, PrintMember("preview", Quote(preview)) + "," + (PrintMember("truncated", "true") + "}"))
    requires |s| == p + |PrintMember("preview", Quote(preview))| + 1 + |PrintMember("truncated", "true")| + 1
    ensures s[p] == '"'
    ensures ReadMembers(s, p) == Some(([Member("preview", JString(preview)), Member("truncated", JBool(true))], |s|))
  {
    hide ReadMember, ReadMembers, PrintMember, Quote, Holds;
    PreviewMember(s, p, preview, PrintMember("truncated", "true") + "}");
    LastMember(s, p + |PrintMember("preview", Quote(preview))| + 1);
    MembersThenMore(s, p, "preview", Quote(preview), JString(preview), [Member("truncated", JBool(true))], |s|);
    assert [Member("preview", JString(preview))] + [Member("truncated", JBool(true))]
        == [Member("preview", JString(preview)), Member("truncated", JBool(true))];
  }

  lemma WrapperParts(total: nat, preview: string)
    ensures var s := Wrapper(total, preview); var count := PrintMember("original_chars", Decimal.Print(total));
            var shown, mark := PrintMember("preview", Quote(preview)), PrintMember("truncated", "true") + "}";
            |s| == 1 + |count| + 1 + |shown| + 1 + |mark| && s[0] == '{' && Holds(s, 1, count + "," + (shown + "," + mark))
  {
    hide PrintMember, Quote, Decimal.Print;
    var s, count := Wrapper(total, preview), PrintMember("original_chars", Decimal.Print(total));
    var tail := PrintMember("preview", Quote(preview)) + "," + (PrintMember("truncated", "true") + "}");
    assert s == "{" + (count + "," + tail);
    assert Holds(s, 0, "{" + (count + "," + tail));
    HoldsParts(s, 0, "{", count + "," + tail);
    HoldsAt(s, 0, "{", 0);
  }

  /** The wrapper is a JSON text whose preview decodes to exactly the text that was put in. */
  lemma WrapperReads(total: nat, preview: string)
    ensures ReadJson(Wrapper(total, preview)) == Some(WrapperValue(total, preview))
  {
    hide ReadMember, ReadMembers, ReadJson, PrintMember, Quote, Decimal.Print, Holds, Wrapper;
    var s := Wrapper(total, preview);
    var n := Decimal.Print(total);
    var count := PrintMember("original_chars", n);
    WrapperParts(total, preview);
    CountMember(s, 1, total, PrintMember("preview", Quote(preview)) + "," + (PrintMember("truncated", "true") + "}"));
    LastTwoMembers(s, 1 + |count| + 1, preview);
    var rest := [Member("preview", JString(preview)), Member("truncated", JBool(true))];
    MembersThenMore(s, 1, "original_chars", n, JNumber(n), rest, |s|);
    assert WrapperValue(total, preview).members == [Member("original_chars", JNumber(n))] + rest;
    ObjectReads(s, WrapperValue(total, preview).members);
  }

  lemma ObjectReads(s: string, members: seq<Member>)
    requires |s| > 1 && s[0] == '{' && s[1] == '"' && ReadMembers(s, 1) == Some((members, |s|))
    ensures ReadJson(s) == Some(JObject(members))
  {
    hide ReadMembers;
  }

  // ----- Lengths -----

  /** The wrapper around the first `k` characters of the output. */
  function WrapPrefix(serialized: string, k: nat): string
    requires k <= |serialized|
  {
    Wrapper(|serialized|, serialized[..k])
  }

  lemma {:induction false} EscapedAppend(s: string, c: char)
    ensures EscapeString(s + [c]) == EscapeString(s) + EscapeChar(c)
  {
    if s == "" {
      assert s + [c] == [c] && [c][1..] == "";
    } else {
      assert (s + [c])[1..] == s[1..] + [c];
      EscapedAppend(s[1..], c);
    }
  }

  lemma {:induction false} EscapedIsNoShorter(s: string)
    ensures |s| <= |EscapeString(s)|
  {
    if s != "" {
      EscapedIsNoShorter(s[1..]);
    }
  }

  lemma WrapperLength(total: nat, preview: string, other: string)
    ensures |Wrapper(total, preview)| - |EscapeString(preview)| == |Wrapper(total, other)| - |EscapeString(other)|
    ensures |EscapeString(preview)| < |Wrapper(total, preview)|
  {
    hide EscapeString, Decimal.Print;
  }

  /** A longer preview makes a longer wrapper, always longer than the preview. */
  lemma {:induction false} WrapperGrows(s: string, j: nat, k: nat)
    requires j <= k <= |s|
    ensures |WrapPrefix(s, j)| + (k - j) <= |WrapPrefix(s, k)|
    ensures k < |WrapPrefix(s, k)|
    decreases k - j
  {
    hide Wrapper, EscapeString;
    EscapedIsNoShorter(s[..k]);
    WrapperLength(|s|, s[..k], s[..k]);
    if j < k {
      WrapperGrows(s, j, k - 1);
      assert s[..k] == s[..k - 1] + [s[k - 1]];
      EscapedAppend(s[..k - 1], s[k - 1]);
      WrapperLength(|s|, s[..k], s[..k - 1]);
    }
  }

  // ----- Truncation -----

  predicate Fits(s: string, k: nat, maxChars: nat)
    requires k <= |s|
  {
    |WrapPrefix(s, k)| <= maxChars
  }

  /** `k` is the longest preview whose wrapper fits. */
  ghost predicate IsLongestPreview(s: string, maxChars: nat, k: nat) {
    k <= |s| && Fits(s, k, maxChars) && forall j :: k < j <= |s| ==> !Fits(s, j, maxChars)
  }

  /** What is sent when not even an empty preview fits. */
  function Fallback(maxChars: nat): string {
    if maxChars >= MIN_TOOL_OUTPUT_MAX_CHARS then TRUNCATED_MARKER
    else if maxChars == 0 then "" else if maxChars == 1 then "0" else "{}"
  }

  /** The output for a limit: everything, the longest preview that fits, or the fallback. */
  ghost predicate IsTruncated(serialized: string, maxChars: nat, out: string) {
    if |serialized| <= maxChars then out == serialized
    else if Fits(serialized, 0, maxChars) then
      exists k: nat :: IsLongestPreview(serialized, maxChars, k) && out == WrapPrefix(serialized, k)
    else out == Fallback(maxChars)
  }

  /** Binary search for the longest preview. */
  method TruncateToolOutput(serialized: string, maxChars: nat) returns (out: string)
    ensures IsTruncated(serialized, maxChars, out)
  {
    hide Wrapper;
    if |serialized| <= maxChars {
      return serialized;
    }
    var lo: nat, hi: nat := 0, Min(|serialized|, maxChars);
    var best := if Fits(serialized, 0, maxChars) then Some(WrapPrefix(serialized, 0)) else None;
    forall j | hi < j <= |serialized|
      ensures !Fits(serialized, j, maxChars)
    {
      WrapperGrows(serialized, j, j);
    }
    while lo < hi
      invariant lo <= hi <= |serialized|
      invariant best == if Fits(serialized, lo, maxChars) then Some(WrapPrefix(serialized, lo)) else None
      invariant lo > 0 ==> Fits(serialized, lo, maxChars)
      invariant forall j :: hi < j <= |serialized| ==> !Fits(serialized, j, maxChars)
    {
      var mid := lo + (hi - lo + 1) / 2;
      if Fits(serialized, mid, maxChars) {
        lo := mid;
        best := Some(WrapPrefix(serialized, mid));
      } else {
        NothingLongerFits(serialized, mid, maxChars);
        hi := mid - 1;
      }
    }
    match best
    case Some(wrapped) =>
      WrapperGrows(serialized, 0, lo);
      out := wrapped;
      assert IsLongestPreview(serialized, maxChars, lo) && out == WrapPrefix(serialized, lo);
    case None =>
      out := Fallback(maxChars);
  }

  lemma NothingLongerFits(s: string, k: nat, maxChars: nat)
    requires k <= |s| && !Fits(s, k, maxChars)
    ensures forall j :: k <= j <= |s| ==> !Fits(s, j, maxChars)
  {
    forall j | k <= j <= |s|
      ensures !Fits(s, j, maxChars)
    {
      WrapperGrows(s, k, j);
    }
  }

  lemma FallbackReads(maxChars: nat)
    ensures |Fallback(maxChars)| <= maxChars
    ensures ReadJson(Fallback(maxChars)).Some? <==> maxChars >= 1
  {
    if maxChars == 0 {
      assert ReadJson("") == None;
    } else if maxChars == 1 {
      ZeroReads();
    } else if maxChars < MIN_TOOL_OUTPUT_MAX_CHARS {
    } else {
      MarkerReads();
    }
  }

  lemma ZeroReads()
    ensures ReadJson("0") == Some(JNumber("0"))
  {
    WordsAreNotDigits("0", 0);
    assert "0"[0..1] == "0";
  }

  lemma {:induction false} LowercaseIsPlain(s: string)
    requires forall k :: 0 <= k < |s| ==> 'a' <= s[k] <= 'z'
    ensures EscapeString(s) == s
  {
    if s != "" {
      LowercaseIsPlain(s[1..]);
      assert s == [s[0]] + s[1..];
    }
  }

  lemma MarkerIsTheMember()
    ensures Holds(TRUNCATED_MARKER, 1, PrintMember("truncated", "true") + "}")
    ensures 1 + |PrintMember("truncated", "true") + "}"| == |TRUNCATED_MARKER|
  {
    hide EscapeString;
    LowercaseIsPlain("truncated");
    assert "\"" + "truncated" + "\"" + ":" + "true" + "}" == "\"truncated\":true}";
  }

  lemma MarkerReads()
    ensures ReadJson(TRUNCATED_MARKER) == Some(JObject([Member("truncated", JBool(true))]))
  {
    hide ReadMembers, ReadJson, Holds, PrintMember;
    var s := TRUNCATED_MARKER;
    MarkerIsTheMember();
    LastMember(s, 1);
    ObjectReads(s, [Member("truncated", JBool(true))]);
  }

  /**
   The output never exceeds the limit; given a JSON text it is a JSON text for every limit of
   at least one (and only then, once anything had to be cut).
   */
  lemma TruncatedOutputIsBoundedJson(serialized: string, maxChars: nat, out: string)
    requires IsTruncated(serialized, maxChars, out)
    ensures |out| <= maxChars
    ensures ReadJson(serialized).Some? && maxChars >= 1 ==> ReadJson(out).Some?
    ensures |serialized| > maxChars ==> (ReadJson(out).Some? <==> maxChars >= 1)
  {
    hide ReadJson, Wrapper, Fallback;
    FallbackReads(maxChars);
    if |serialized| > maxChars && Fits(serialized, 0, maxChars) {
      var k: nat :| IsLongestPreview(serialized, maxChars, k) && out == WrapPrefix(serialized, k);
      WrapperReads(|serialized|, serialized[..k]);
      WrapperGrows(serialized, k, k);
    }
  }

  /** When not even an empty preview fits, the output is the shortest notice that the limit has room for. */
  lemma FallbackIs(serialized: string, maxChars: nat, out: string)
    requires IsTruncated(serialized, maxChars, out) && |serialized| > maxChars && |WrapPrefix(serialized, 0)| > maxChars
    ensures out == if maxChars >= 18 then "{\"truncated\":true}" else if maxChars >= 2 then "{}"
                   else if maxChars == 1 then "0" else ""
  {
  }

  /** The text of the wrapper: its three members by name, the count and the preview printed as JSON. */
  lemma WrapperText(total: nat, preview: string)
    ensures Wrapper(total, preview)
         == "{\"original_chars\":" + Decimal.Print(total) + ",\"preview\":" + Quote(preview) + ",\"truncated\":true}"
  {
    hide Decimal.Print, Quote, PrintMember;
    var n, p := Decimal.Print(total), Quote(preview);
    MemberText("original_chars", n);
    MemberText("preview", p);
    MemberText("truncated", "true");
    NamesInQuotes();
    LastNameInQuotes();
    TextOfParts("\"" + "original_chars" + "\":", n, "\"" + "preview" + "\":", p, "\"" + "truncated" + "\":", "true");
  }

  lemma MemberText(name: string, text: string)
    requires name in {"original_chars", "preview", "truncated"}
    ensures PrintMember(name, text) == "\"" + name + "\":" + text
  {
    hide EscapeString;
    PlainNames();
    assert "\"" + name + "\"" + ":" == "\"" + name + "\":";
  }

  lemma PlainNames()
    ensures EscapeString("original_chars") == "original_chars" && EscapeString("preview") == "preview"
    ensures EscapeString("truncated") == "truncated"
  {
    hide EscapeString;
    LowercaseIsPlain("preview");
    LowercaseIsPlain("truncated");
    LowercaseIsPlain("chars");
    UnderscoreIsPlain("original", "chars");
    assert "original" + "_" + "chars" == "original_chars";
  }

  lemma {:induction false} UnderscoreIsPlain(a: string, b: string)
    requires EscapeString(b) == b && forall k :: 0 <= k < |a| ==> 'a' <= a[k] <= 'z'
    ensures EscapeString(a + "_" + b) == a + "_" + b
  {
    hide EscapeString;
    var s := a + "_" + b;
    if a == "" {
      assert s == "_" + b && s[1..] == b;
      PlainFirst(s);
    } else {
      UnderscoreIsPlain(a[1..], b);
      assert s[1..] == a[1..] + "_" + b;
      PlainFirst(s);
    }
  }

  lemma PlainFirst(s: string)
    requires s != "" && ('a' <= s[0] <= 'z' || s[0] == '_') && EscapeString(s[1..]) == s[1..]
    ensures EscapeString(s) == s
  {
    hide EscapeChar;
    EscapeCharShape(s[0]);
    assert s == [s[0]] + s[1..];
  }

  lemma NamesInQuotes()
    ensures "{" + ("\"" + "original_chars" + "\":") == "{\"original_chars\":"
    ensures "," + ("\"" + "preview" + "\":") == ",\"preview\":"
  {
  }

  lemma LastNameInQuotes()
    ensures "," + ("\"" + "truncated" + "\":") + "true" + "}" == ",\"truncated\":true}"
  {
  }

  lemma TextOfParts(a: string, n: string, b: string, p: string, c: string, t: string)
    ensures "{" + (a + n + "," + (b + p + "," + (c + t + "}"))) == ("{" + a) + n + ("," + b) + p + ("," + c + t + "}")
  {
  }

  lemma PrefixReads(s: string, k: nat)
    requires k <= |s|
    ensures ReadJson(WrapPrefix(s, k)) == Some(WrapperValue(|s|, s[..k]))
  {
    hide ReadJson, Wrapper;
    WrapperReads(|s|, s[..k]);
  }

  /**
   When the wrapper fits at all, the output decodes to the wrapper object whose preview is the
   longest prefix of the original that fits, and whose count is the original length.
   */
  lemma PreviewIsTheLongestPrefix(serialized: string, maxChars: nat, out: string)
    requires IsTruncated(serialized, maxChars, out) && |serialized| > maxChars && |WrapPrefix(serialized, 0)| <= maxChars
    ensures exists k: nat ::
      && k <= |serialized| && out == WrapPrefix(serialized, k) && |out| <= maxChars
      && (forall j :: k < j <= |serialized| ==> |WrapPrefix(serialized, j)| > maxChars)
      && ReadJson(out) == Some(WrapperValue(|serialized|, serialized[..k]))
      && Decimal.Value(Decimal.Print(|serialized|)) == |serialized|
  {
    hide ReadJson, Wrapper, Decimal.Print, Decimal.Value, WrapPrefix;
    assert Fits(serialized, 0, maxChars);
    var k: nat :| IsLongestPreview(serialized, maxChars, k) && out == WrapPrefix(serialized, k);
    PrefixReads(serialized, k);
    Decimal.PrintedValue(|serialized|);
    forall j | k < j <= |serialized|
      ensures |WrapPrefix(serialized, j)| > maxChars
    {
      assert !Fits(serialized, j, maxChars);
    }
  }
}
