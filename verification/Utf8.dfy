/** UTF-8 by its encoder (section 3.9 of the Unicode Standard): what the byte tests of the stream reader mean. */
module Utf8 {
  import opened Characters
  import opened SseFraming

  function Low(n: int): byte
    requires n >= 0
  {
    (0x80 + n % 64) as byte
  }

  function Encode(c: char): seq<byte> {
    var n := c as int;
    if n < 0x80 then [n as byte]
    else if n < 0x800 then [(0xC0 + n / 64) as byte, Low(n)]
    else if n < 0x10000 then [(0xE0 + n / 4096) as byte, Low(n / 64), Low(n)]
    else [(0xF0 + n / 262144) as byte, Low(n / 4096), Low(n / 64), Low(n)]
  }

  function EncodeAll(s: string): seq<byte> {
    if s == "" then [] else Encode(s[0]) + EncodeAll(s[1..])
  }

  // ----- Validity -----

  lemma EncodedIsValid(c: char, s: seq<byte>, i: nat)
    requires i + |Encode(c)| <= |s| && s[i..i + |Encode(c)|] == Encode(c) && ValidUtf8(s, i + |Encode(c)|)
    ensures ValidUtf8(s, i)
  {
    var n := c as int;
    var e := Encode(c);
    assert forall k :: 0 <= k < |e| ==> s[i + k] == e[k];
  }

  lemma TwoBytes(a: byte, b: byte) returns (c: char)
    requires InByteRange(a, 0xC2, 0xDF) && InByteRange(b, 0x80, 0xBF)
    ensures Encode(c) == [a, b]
  {
    c := ((a as int - 0xC0) * 64 + (b as int - 0x80)) as char;
  }

  lemma ThreeBytes(a: byte, b: byte, d: byte) returns (c: char)
    requires InByteRange(a, 0xE0, 0xEF) && InByteRange(b, 0x80, 0xBF) && InByteRange(d, 0x80, 0xBF)
    requires (a == 0xE0 ==> b >= 0xA0) && (a == 0xED ==> b <= 0x9F)
    ensures Encode(c) == [a, b, d]
  {
    c := ((a as int - 0xE0) * 4096 + (b as int - 0x80) * 64 + (d as int - 0x80)) as char;
  }

  lemma FourBytes(a: byte, b: byte, d: byte, e: byte) returns (c: char)
    requires InByteRange(a, 0xF0, 0xF4) && InByteRange(b, 0x80, 0xBF) && InByteRange(d, 0x80, 0xBF)
             && InByteRange(e, 0x80, 0xBF)
    requires (a == 0xF0 ==> b >= 0x90) && (a == 0xF4 ==> b <= 0x8F)
    ensures Encode(c) == [a, b, d, e]
  {
    var p, q, r, t := a as int - 0xF0, b as int - 0x80, d as int - 0x80, e as int - 0x80;
    Digits(p, q, r, t);
    c := (((p * 64 + q) * 64 + r) * 64 + t) as char;
  }

  lemma Digits(p: int, q: int, r: int, t: int)
    requires 0 <= p && 0 <= q < 64 && 0 <= r < 64 && 0 <= t < 64
    ensures var n := ((p * 64 + q) * 64 + r) * 64 + t;
      n % 64 == t && n / 64 % 64 == r && n / 4096 % 64 == q && n / 262144 == p
  {
    var high := p * 64 + q;
    LastDigit(p, q);
    LastDigit(high, r);
    LastDigit(high * 64 + r, t);
    TwoDigits(high, r, t);
    FirstDigit(p, q, r, t);
  }

  lemma LastDigit(x: int, d: int)
    requires 0 <= d < 64
    ensures (x * 64 + d) / 64 == x && (x * 64 + d) % 64 == d
  {
  }

  lemma TwoDigits(x: int, r: int, t: int)
    requires 0 <= r < 64 && 0 <= t < 64
    ensures ((x * 64 + r) * 64 + t) / 4096 == x
  {
  }

  lemma FirstDigit(p: int, q: int, r: int, t: int)
    requires 0 <= q < 64 && 0 <= r < 64 && 0 <= t < 64
    ensures (((p * 64 + q) * 64 + r) * 64 + t) / 262144 == p
  {
  }

  /** Valid bytes start with a character. */
  lemma ValidIsEncoded(s: seq<byte>, i: nat) returns (c: char)
    requires i < |s| && ValidUtf8(s, i)
    ensures i + |Encode(c)| <= |s| && s[i..i + |Encode(c)|] == Encode(c) && ValidUtf8(s, i + |Encode(c)|)
  {
    hide Encode;
    if InByteRange(s[i], 0, 0x7F) {
      c := s[i] as char;
      OneByte(s[i]);
    } else if InByteRange(s[i], 0xC2, 0xDF) {
      c := TwoBytes(s[i], s[i + 1]);
    } else if InByteRange(s[i], 0xE0, 0xEF) {
      c := ThreeBytes(s[i], s[i + 1], s[i + 2]);
    } else {
      c := FourBytes(s[i], s[i + 1], s[i + 2], s[i + 3]);
    }
  }

  lemma OneByte(a: byte)
    requires InByteRange(a, 0, 0x7F)
    ensures Encode(a as char) == [a]
  {
  }

  lemma {:induction false} ValidBytesAreText(s: seq<byte>, i: nat) returns (t: string)
    requires i <= |s| && ValidUtf8(s, i)
    ensures EncodeAll(t) == s[i..]
    decreases |s| - i
  {
    hide Encode, ValidUtf8;
    if i == |s| {
      t := "";
    } else {
      var c := ValidIsEncoded(s, i);
      EncodedIsSome(c);
      var rest := ValidBytesAreText(s, i + |Encode(c)|);
      t := [c] + rest;
      assert t[1..] == rest && s[i..] == s[i..i + |Encode(c)|] + s[i + |Encode(c)|..];
    }
  }

  lemma EncodedIsSome(c: char)
    ensures 1 <= |Encode(c)| <= 4
  {
  }

  lemma {:induction false} TextIsValidBytes(t: string, s: seq<byte>, i: nat)
    requires i <= |s| && s[i..] == EncodeAll(t)
    ensures ValidUtf8(s, i)
    decreases |t|
  {
    hide Encode, ValidUtf8;
    if t == "" {
      NothingIsValid(s, i);
    } else {
      var n := |Encode(t[0])|;
      assert s[i..][..n] == Encode(t[0]) && s[i..][n..] == EncodeAll(t[1..]);
      assert s[i..][..n] == s[i..i + n] && s[i..][n..] == s[i + n..];
      TextIsValidBytes(t[1..], s, i + n);
      EncodedIsValid(t[0], s, i);
    }
  }

  lemma NothingIsValid(s: seq<byte>, i: nat)
    requires i >= |s|
    ensures ValidUtf8(s, i)
  {
  }

  /** Bytes are accepted exactly when they are the encoding of some text. */
  lemma ValidUtf8Iff(s: seq<byte>)
    ensures ValidUtf8(s, 0) <==> exists t: string :: EncodeAll(t) == s
  {
    hide ValidUtf8, EncodeAll;
    assert s[0..] == s;
    if ValidUtf8(s, 0) {
      var t := ValidBytesAreText(s, 0);
    }
    if t: string :| EncodeAll(t) == s {
      TextIsValidBytes(t, s, 0);
    }
  }

  // ----- White space -----

  /** Bytes that start with the encoding of a character start with white space exactly when it is white space. */
  lemma WhiteSpaceLengthIs(c: char, rest: seq<byte>)
    ensures WhiteSpaceLength(Encode(c) + rest) == if IsWhitespace(c) then |Encode(c)| else 0
  {
    hide IsWhitespace;
    WhiteSpaceIs(c);
    var n := c as int;
    var s := Encode(c) + rest;
    var e := Encode(c);
    assert forall k :: 0 <= k < |e| ==> s[k] == e[k];
    if |s| >= 3 {
      assert s[..3] == [s[0], s[1], s[2]];
    }
  }

  lemma WhiteSpaceIs(c: char)
    ensures var n := c as int;
      IsWhitespace(c) <==> 9 <= n <= 13 || n in {0x20, 0x85, 0xA0, 0x1680, 0x2028, 0x2029, 0x202F, 0x205F, 0x3000}
                           || 0x2000 <= n <= 0x200A
  {
    var n := c as int;
    if k :| 0 <= k < |WHITE_SPACE| && WHITE_SPACE[k].0 <= c <= WHITE_SPACE[k].1 {
      IsInRanges(c, WHITE_SPACE, k);
    } else {
      NotInRanges(c, WHITE_SPACE);
      var w := WHITE_SPACE;
      assert w == [w[0], w[1], w[2], w[3], w[4], w[5], w[6], w[7], w[8], w[9]];
    }
  }
}
