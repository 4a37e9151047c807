/** JSON texts (RFC 8259): a reader for the whole grammar, and string printing as serde_json does it. */
module JsonText {
  import opened Wrappers
  import opened Characters

  datatype Json =
    | JNull | JBool(truth: bool) | JNumber(lexeme: string) | JString(text: string)
    | JArray(items: seq<Json>) | JObject(members: seq<Member>)

  datatype Member = Member(name: string, value: Json)

  // ----- Printing strings -----

  function HexDigit(d: nat): char
    requires d < 16
  {
    if d < 10 then '0' + d as char else 'a' + (d - 10) as char
  }

  /** One character inside a printed string. */
  function EscapeChar(c: char): (r: string)
    ensures |r| >= 1
  {
    if c == '"' then "\\\""
    else if c == '\\' then "\\\\"
    else if c == '\U{8}' then "\\b"
    else if c == '\U{C}' then "\\f"
    else if c == '\n' then "\\n"
    else if c == '\r' then "\\r"
    else if c == '\t' then "\\t"
    else if c < ' ' then "\\u00" + [HexDigit(c as int / 16), HexDigit(c as int % 16)]
    else [c]
  }

  /** Nothing is escaped but quotes, backslashes and control characters, seven of these in short form. */
  lemma EscapeCharShape(c: char)
    ensures c in {'"', '\\', '\U{8}', '\U{C}', '\n', '\r', '\t'} ==> |EscapeChar(c)| == 2
    ensures c as int < 0x20 && c !in {'\U{8}', '\U{C}', '\n', '\r', '\t'} ==> |EscapeChar(c)| == 6
    ensures c as int >= 0x20 && c != '"' && c != '\\' ==> EscapeChar(c) == [c]
  {
  }

  function EscapeString(s: string): string {
    if s == "" then "" else EscapeChar(s[0]) + EscapeString(s[1..])
  }

  function Quote(s: string): string {
    "\"" + EscapeString(s) + "\""
  }

  // ----- Reading: tokens -----

  predicate IsJsonSpace(c: char) { c == ' ' || c == '\t' || c == '\n' || c == '\r' }

  function SkipSpace(s: string, i: nat): (j: nat)
    requires i <= |s|
    ensures i <= j <= |s|
    decreases |s| - i
  {
    if i < |s| && IsJsonSpace(s[i]) then SkipSpace(s, i + 1) else i
  }

  function HexValue(c: char): Option<nat> {
    if '0' <= c <= '9' then Some((c - '0') as nat)
    else if 'a' <= c <= 'f' then Some((c - 'a') as nat + 10)
    else if 'A' <= c <= 'F' then Some((c - 'A') as nat + 10)
    else None
  }

  /** The code unit of four hexadecimal digits at `i`. */
  function ReadHex4(s: string, i: nat): (r: Option<nat>)
    ensures r.Some? ==> i + 4 <= |s| && r.value < 0x10000
  {
    if i + 4 > |s| then None
    else
      match (HexValue(s[i]), HexValue(s[i + 1]), HexValue(s[i + 2]), HexValue(s[i + 3]))
      case (Some(a), Some(b), Some(c), Some(d)) =>
        if a < 16 && b < 16 && c < 16 && d < 16 then Some(a * 4096 + b * 256 + c * 16 + d) else None
      case _ => None
  }

  /** The character of the escape sequence whose backslash is at `i - 1`, and the position after it. */
  function ReadEscape(s: string, i: nat): (r: Option<(char, nat)>)
    ensures r.Some? ==> i < r.value.1 <= |s|
  {
    if i >= |s| then None
    else if s[i] == '"' || s[i] == '\\' || s[i] == '/' then Some((s[i], i + 1))
    else if s[i] == 'b' then Some(('\U{8}', i + 1))
    else if s[i] == 'f' then Some(('\U{C}', i + 1))
    else if s[i] == 'n' then Some(('\n', i + 1))
    else if s[i] == 'r' then Some(('\r', i + 1))
    else if s[i] == 't' then Some(('\t', i + 1))
    else if s[i] != 'u' then None
    else
      match ReadHex4(s, i + 1)
      case None => None
      case Some(unit) =>
        if unit < 0xD800 || unit >= 0xE000 then Some((unit as char, i + 5))
        else if unit >= 0xDC00 || i + 7 > |s| || s[i + 5] != '\\' || s[i + 6] != 'u' then None
        else
          match ReadHex4(s, i + 7)
          case None => None
          case Some(low) =>
            if 0xDC00 <= low < 0xE000 then Some(((0x10000 + (unit - 0xD800) * 0x400 + (low - 0xDC00)) as char, i + 11))
            else None
  }

  /** The rest of a string whose opening quote is before `i`, and the position after the closing one. */
  function ReadString(s: string, i: nat): (r: Option<(string, nat)>)
    ensures r.Some? ==> i < r.value.1 <= |s|
    decreases |s| - i
  {
    if i >= |s| || s[i] < ' ' then None
    else if s[i] == '"' then Some(("", i + 1))
    else if s[i] == '\\' then
      match ReadEscape(s, i + 1)
      case None => None
      case Some((c, j)) =>
        match ReadString(s, j)
        case None => None
        case Some((rest, k)) => Some(([c] + rest, k))
    else
      match ReadString(s, i + 1)
      case None => None
      case Some((rest, k)) => Some(([s[i]] + rest, k))
  }

  function SkipDigits(s: string, i: nat): (j: nat)
    requires i <= |s|
    ensures i <= j <= |s|
    decreases |s| - i
  {
    if i < |s| && IsAsciiDigit(s[i]) then SkipDigits(s, i + 1) else i
  }

  /** The end of the integer part: zero alone, or digits that do not start with zero. */
  function IntegerEnd(s: string, i: nat): (r: Option<nat>)
    requires i <= |s|
    ensures r.Some? ==> i < r.value <= |s|
  {
    if i == |s| || !IsAsciiDigit(s[i]) then None
    else if s[i] == '0' then Some(i + 1)
    else Some(SkipDigits(s, i + 1))
  }

  function FractionEnd(s: string, i: nat): (r: Option<nat>)
    requires i <= |s|
    ensures r.Some? ==> i <= r.value <= |s|
  {
    if i == |s| || s[i] != '.' then Some(i)
    else if SkipDigits(s, i + 1) == i + 1 then None
    else Some(SkipDigits(s, i + 1))
  }

  function ExponentEnd(s: string, i: nat): (r: Option<nat>)
    requires i <= |s|
    ensures r.Some? ==> i <= r.value <= |s|
  {
    if i == |s| || (s[i] != 'e' && s[i] != 'E') then Some(i)
    else
      var j := if i + 1 < |s| && (s[i + 1] == '+' || s[i + 1] == '-') then i + 2 else i + 1;
      if SkipDigits(s, j) == j then None else Some(SkipDigits(s, j))
  }

  function NumberEnd(s: string, i: nat): (r: Option<nat>)
    requires i <= |s|
    ensures r.Some? ==> i < r.value <= |s|
  {
    match IntegerEnd(s, if i < |s| && s[i] == '-' then i + 1 else i)
    case None => None
    case Some(a) =>
      match FractionEnd(s, a)
      case None => None
      case Some(b) => ExponentEnd(s, b)
  }

  predicate HasWord(s: string, i: nat, word: string) {
    i + |word| <= |s| && s[i..i + |word|] == word
  }

  // ----- Reading: values -----

  /** The value at `i`, after white space, and the position after it. */
  function ReadValue(s: string, i: nat): (r: Option<(Json, nat)>)
    requires i <= |s|
    ensures r.Some? ==> i < r.value.1 <= |s|
    decreases |s| - i, 1
  {
    var j := SkipSpace(s, i);
    if j == |s| then None
    else if s[j] == '{' then
      var k := SkipSpace(s, j + 1);
      if k < |s| && s[k] == '}' then Some((JObject([]), k + 1))
      else
        match ReadMembers(s, k)
        case None => None
        case Some((members, e)) => Some((JObject(members), e))
    else if s[j] == '[' then
      var k := SkipSpace(s, j + 1);
      if k < |s| && s[k] == ']' then Some((JArray([]), k + 1))
      else
        match ReadItems(s, k)
        case None => None
        case Some((items, e)) => Some((JArray(items), e))
    else if s[j] == '"' then
      match ReadString(s, j + 1)
      case None => None
      case Some((text, e)) => Some((JString(text), e))
    else if HasWord(s, j, "true") then Some((JBool(true), j + 4))
    else if HasWord(s, j, "false") then Some((JBool(false), j + 5))
    else if HasWord(s, j, "null") then Some((JNull, j + 4))
    else
      match NumberEnd(s, j)
      case None => None
      case Some(e) => Some((JNumber(s[j..e]), e))
  }

  /** One member `"name": value`, and the position after it. */
  function ReadMember(s: string, i: nat): (r: Option<(Member, nat)>)
    requires i <= |s|
    ensures r.Some? ==> i < r.value.1 <= |s|
    decreases |s| - i, 0
  {
    if i == |s| || s[i] != '"' then None
    else
      match ReadString(s, i + 1)
      case None => None
      case Some((name, j)) =>
        var colon := SkipSpace(s, j);
        if colon == |s| || s[colon] != ':' then None
        else
          match ReadValue(s, colon + 1)
          case None => None
          case Some((value, e)) => Some((Member(name, value), e))
  }

  /** The members of an object from `i` on, up to and past the closing brace. */
  function ReadMembers(s: string, i: nat): (r: Option<(seq<Member>, nat)>)
    requires i <= |s|
    ensures r.Some? ==> i < r.value.1 <= |s|
    decreases |s| - i, 1
  {
    match ReadMember(s, i)
    case None => None
    case Some((member, e)) =>
      var d := SkipSpace(s, e);
      if d < |s| && s[d] == '}' then Some(([member], d + 1))
      else if d < |s| && s[d] == ',' then
        match ReadMembers(s, SkipSpace(s, d + 1))
        case None => None
        case Some((rest, f)) => Some(([member] + rest, f))
      else None
  }

  /** The items of an array from `i` on, up to and past the closing bracket. */
  function ReadItems(s: string, i: nat): (r: Option<(seq<Json>, nat)>)
    requires i <= |s|
    ensures r.Some? ==> i < r.value.1 <= |s|
    decreases |s| - i, 2
  {
    match ReadValue(s, i)
    case None => None
    case Some((item, e)) =>
      var d := SkipSpace(s, e);
      if d < |s| && s[d] == ']' then Some(([item], d + 1))
      else if d < |s| && s[d] == ',' then
        match ReadItems(s, d + 1)
        case None => None
        case Some((rest, f)) => Some(([item] + rest, f))
      else None
  }

  /** The value of a complete JSON text. */
  function ReadJson(s: string): Option<Json> {
    match ReadValue(s, 0)
    case None => None
    case Some((value, e)) => if SkipSpace(s, e) == |s| then Some(value) else None
  }

  // ----- Printed strings read back -----

  /** `s` holds `t` at `i`. */
  ghost predicate Holds(s: string, i: nat, t: string) {
    i + |t| <= |s| && s[i..i + |t|] == t
  }

  lemma HoldsAt(s: string, i: nat, t: string, k: nat)
    requires Holds(s, i, t) && k < |t|
    ensures s[i + k] == t[k]
  {
    assert s[i..i + |t|][k] == t[k];
  }

  lemma HoldsParts(s: string, i: nat, a: string, b: string)
    requires Holds(s, i, a + b)
    ensures Holds(s, i, a) && Holds(s, i + |a|, b)
  {
    assert s[i..i + |a + b|][..|a|] == a;
    assert s[i..i + |a + b|][|a|..] == b;
  }

  /** An escaped character is read as that character. */
  lemma EscapedCharIsRead(s: string, i: nat, c: char)
    requires Holds(s, i, EscapeChar(c)) && EscapeChar(c) != [c]
    ensures s[i] == '\\' && ReadEscape(s, i + 1) == Some((c, i + |EscapeChar(c)|))
  {
    var t := EscapeChar(c);
    HoldsAt(s, i, t, 0);
    HoldsAt(s, i, t, 1);
    if |t| == 6 {
      HoldsAt(s, i, t, 2);
      HoldsAt(s, i, t, 3);
      HoldsAt(s, i, t, 4);
      HoldsAt(s, i, t, 5);
      assert HexValue('0') == Some(0);
    }
  }

  lemma PlainCharIsAllowed(c: char)
    requires EscapeChar(c) == [c]
    ensures c >= ' ' && c != '"' && c != '\\'
  {
  }

  /** A printed character in front is read and put in front. */
  lemma ReadStringStep(s: string, i: nat, c: char)
    requires Holds(s, i, EscapeChar(c))
    ensures ReadString(s, i)
         == match ReadString(s, i + |EscapeChar(c)|)
            case None => None
            case Some((rest, k)) => Some(([c] + rest, k))
  {
    hide EscapeChar, ReadEscape;
    if EscapeChar(c) == [c] {
      HoldsAt(s, i, EscapeChar(c), 0);
      PlainCharIsAllowed(c);
    } else {
      EscapedCharIsRead(s, i, c);
    }
  }

  /** Reading a printed string gives the string back and stops after its closing quote. */
  lemma {:induction false} QuotedIsRead(s: string, i: nat, t: string)
    requires Holds(s, i, EscapeString(t) + "\"")
    ensures ReadString(s, i) == Some((t, i + |EscapeString(t)| + 1))
    decreases |t|
  {
    hide ReadString, EscapeChar;
    if t == "" {
      HoldsAt(s, i, EscapeString(t) + "\"", 0);
      ClosingQuoteIsRead(s, i);
    } else {
      var head, rest := EscapeChar(t[0]), EscapeString(t[1..]) + "\"";
      assert EscapeString(t) + "\"" == head + rest;
      HoldsParts(s, i, head, rest);
      QuotedIsRead(s, i + |head|, t[1..]);
      ReadStringStep(s, i, t[0]);
      assert [t[0]] + t[1..] == t;
    }
  }

  lemma ClosingQuoteIsRead(s: string, i: nat)
    requires i < |s| && s[i] == '"'
    ensures ReadString(s, i) == Some(("", i + 1))
  {
  }

  lemma QuoteIsRead(s: string, i: nat, t: string)
    requires Holds(s, i, Quote(t))
    ensures s[i] == '"' && ReadString(s, i + 1) == Some((t, i + |Quote(t)|))
  {
    hide ReadString, EscapeString;
    assert Quote(t) == "\"" + (EscapeString(t) + "\"");
    HoldsParts(s, i, "\"", EscapeString(t) + "\"");
    HoldsAt(s, i, "\"", 0);
    QuotedIsRead(s, i + 1, t);
  }
}
