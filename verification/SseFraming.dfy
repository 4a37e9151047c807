/**
 Cutting an event stream into frames: incremental over a growing byte buffer, and parsing one
 frame into an event (section 9.2.6 of the WHATWG HTML Living Standard, for frames delimited
 by LF LF or CRLF CRLF).
 */
module SseFraming {
  import opened Wrappers

  newtype byte = x: int | 0 <= x < 256

  const LF: byte := 10
  const CR: byte := 13
  const COLON: byte := 58

  // ----- Delimiters -----

  predicate LfLfAt(b: seq<byte>, i: nat) {
    i + 2 <= |b| && b[i] == LF && b[i + 1] == LF
  }

  predicate CrlfCrlfAt(b: seq<byte>, i: nat) {
    i + 4 <= |b| && b[i] == CR && b[i + 1] == LF && b[i + 2] == CR && b[i + 3] == LF
  }

  function FirstLfLf(b: seq<byte>, i: nat): (r: Option<nat>)
    ensures r.Some? ==> i <= r.value && LfLfAt(b, r.value) && forall k :: i <= k < r.value ==> !LfLfAt(b, k)
    ensures r.None? ==> forall k :: i <= k ==> !LfLfAt(b, k)
    decreases |b| - i
  {
    if i >= |b| then None else if LfLfAt(b, i) then Some(i) else FirstLfLf(b, i + 1)
  }

  function FirstCrlfCrlf(b: seq<byte>, i: nat): (r: Option<nat>)
    ensures r.Some? ==> i <= r.value && CrlfCrlfAt(b, r.value) && forall k :: i <= k < r.value ==> !CrlfCrlfAt(b, k)
    ensures r.None? ==> forall k :: i <= k ==> !CrlfCrlfAt(b, k)
    decreases |b| - i
  {
    if i >= |b| then None else if CrlfCrlfAt(b, i) then Some(i) else FirstCrlfCrlf(b, i + 1)
  }

  datatype Delimiter = Delimiter(index: nat, length: nat)

  function FindDelimiter(b: seq<byte>): Option<Delimiter> {
    match (FirstLfLf(b, 0), FirstCrlfCrlf(b, 0))
    case (Some(lf), Some(crlf)) => if lf < crlf then Some(Delimiter(lf, 2)) else Some(Delimiter(crlf, 4))
    case (Some(lf), None) => Some(Delimiter(lf, 2))
    case (None, Some(crlf)) => Some(Delimiter(crlf, 4))
    case (None, None) => None
  }

  predicate IsDelimiter(b: seq<byte>, d: Delimiter) {
    (d.length == 2 && LfLfAt(b, d.index)) || (d.length == 4 && CrlfCrlfAt(b, d.index))
  }

  lemma FindDelimiterIsFirst(b: seq<byte>, d: Delimiter)
    ensures FindDelimiter(b) == Some(d)
       <==> IsDelimiter(b, d) && forall k :: 0 <= k < d.index ==> !LfLfAt(b, k) && !CrlfCrlfAt(b, k)
  {
    var lf, crlf := FirstLfLf(b, 0), FirstCrlfCrlf(b, 0);
    if IsDelimiter(b, d) && forall k :: 0 <= k < d.index ==> !LfLfAt(b, k) && !CrlfCrlfAt(b, k) {
      assert lf.Some? || crlf.Some?;
      assert lf.Some? ==> d.index <= lf.value;
      assert crlf.Some? ==> d.index <= crlf.value;
    }
  }

  /** These bytes stand at position `k`. */
  ghost predicate Starts(b: seq<byte>, k: nat, t: seq<byte>) {
    k + |t| <= |b| && b[k..k + |t|] == t
  }

  lemma DelimiterBytes(b: seq<byte>, k: nat)
    ensures LfLfAt(b, k) <==> Starts(b, k, [10, 10])
    ensures CrlfCrlfAt(b, k) <==> Starts(b, k, [13, 10, 13, 10])
  {
    if k + 2 <= |b| {
      var t := b[k..k + 2];
      assert t[0] == b[k] && t[1] == b[k + 1];
    }
    if k + 4 <= |b| {
      var t := b[k..k + 4];
      assert t[0] == b[k] && t[1] == b[k + 1] && t[2] == b[k + 2] && t[3] == b[k + 3];
    }
  }

  /** The delimiter found is LF LF or CRLF CRLF, and neither of them starts before it. */
  lemma FindDelimiterMeaning(b: seq<byte>, d: Delimiter)
    ensures FindDelimiter(b) == Some(d)
       <==> && ((d.length == 2 && Starts(b, d.index, [10, 10])) || (d.length == 4 && Starts(b, d.index, [13, 10, 13, 10])))
            && forall k :: 0 <= k < d.index ==> !Starts(b, k, [10, 10]) && !Starts(b, k, [13, 10, 13, 10])
  {
    hide FindDelimiter, LfLfAt, CrlfCrlfAt, Starts;
    FindDelimiterIsFirst(b, d);
    forall k: nat
      ensures LfLfAt(b, k) <==> Starts(b, k, [10, 10])
      ensures CrlfCrlfAt(b, k) <==> Starts(b, k, [13, 10, 13, 10])
    {
      DelimiterBytes(b, k);
    }
  }

  /** Bytes that arrive later never move a delimiter that was already there. */
  lemma DelimiterIsStable(p: seq<byte>, q: seq<byte>, d: Delimiter)
    requires FindDelimiter(p) == Some(d)
    ensures FindDelimiter(p + q) == Some(d)
  {
    hide FindDelimiter;
    var b := p + q;
    FindDelimiterIsFirst(p, d);
    FindDelimiterIsFirst(b, d);
    forall k | 0 <= k < d.index
      ensures !LfLfAt(b, k) && !CrlfCrlfAt(b, k)
    {
      assert !LfLfAt(p, k) && !CrlfCrlfAt(p, k);
      assert b[k] == p[k] && b[k + 1] == p[k + 1];
      if k + 4 > |p| {
        // a CRLF CRLF that is still incomplete overlaps the delimiter in `p`, byte against byte
        assert d.length == 2 && k + 1 == d.index && k + 2 < |p|;
        assert b[k + 2] == p[k + 2];
      }
    }
  }

  // ----- Draining -----

  datatype Cut = Cut(frame: seq<byte>, delimiter: seq<byte>)

  datatype Drained = Drained(cuts: seq<Cut>, rest: seq<byte>)

  /** All complete frames of the buffer, and the bytes after the last delimiter. */
  function Drain(b: seq<byte>): Drained
    decreases |b|
  {
    match FindDelimiter(b)
    case None => Drained([], b)
    case Some(d) =>
      var more := Drain(b[d.index + d.length..]);
      Drained([Cut(b[..d.index], b[d.index..d.index + d.length])] + more.cuts, more.rest)
  }

  function FirstCut(b: seq<byte>, d: Delimiter): Cut
    requires d.index + d.length <= |b|
  {
    Cut(b[..d.index], b[d.index..d.index + d.length])
  }

  lemma DrainStep(b: seq<byte>)
    ensures match FindDelimiter(b)
            case None => Drain(b) == Drained([], b)
            case Some(d) =>
              d.index + d.length <= |b| && d.length > 0
              && var more := Drain(b[d.index + d.length..]); Drain(b) == Drained([FirstCut(b, d)] + more.cuts, more.rest)
  {
  }

  lemma JoinedStep(first: Cut, cuts: seq<Cut>)
    ensures Joined([first] + cuts) == first.frame + first.delimiter + Joined(cuts)
  {
    assert ([first] + cuts)[1..] == cuts;
  }

  /** The bytes the frames and their delimiters came from. */
  function Joined(cuts: seq<Cut>): seq<byte> {
    if cuts == [] then [] else cuts[0].frame + cuts[0].delimiter + Joined(cuts[1..])
  }

  /** Frames, delimiters and leftover concatenate to the input, and nothing complete is left over. */
  lemma {:induction false} DrainLosesNothing(b: seq<byte>)
    ensures Joined(Drain(b).cuts) + Drain(b).rest == b
    ensures FindDelimiter(Drain(b).rest) == None
    decreases |b|
  {
    hide FindDelimiter, Drain, Joined;
    DrainStep(b);
    match FindDelimiter(b)
    case None => NothingJoined();
    case Some(d) =>
      var tail := b[d.index + d.length..];
      DrainLosesNothing(tail);
      JoinedStep(FirstCut(b, d), Drain(tail).cuts);
      assert b == b[..d.index] + b[d.index..d.index + d.length] + tail;
  }

  lemma NothingJoined()
    ensures Joined([]) == []
  {
  }

  /** No frame contains a delimiter. */
  lemma {:induction false} FramesHoldNoDelimiter(b: seq<byte>, k: nat)
    requires k < |Drain(b).cuts|
    ensures FindDelimiter(Drain(b).cuts[k].frame) == None
    decreases |b|
  {
    var d := FindDelimiter(b).value;
    var tail := b[d.index + d.length..];
    assert Drain(b).cuts[1..] == Drain(tail).cuts;
    if k == 0 {
      NothingBeforeDelimiter(b, d);
    } else {
      FramesHoldNoDelimiter(tail, k - 1);
    }
  }

  lemma NothingBeforeDelimiter(b: seq<byte>, d: Delimiter)
    requires FindDelimiter(b) == Some(d)
    ensures d.index <= |b| && FindDelimiter(b[..d.index]) == None
  {
    FindDelimiterMeaning(b, d);
    var frame := b[..d.index];
    forall k | 0 <= k
      ensures !LfLfAt(frame, k) && !CrlfCrlfAt(frame, k)
    {
      if k < d.index {
        assert !LfLfAt(b, k) && !CrlfCrlfAt(b, k);
      }
    }
  }

  /** Draining what is there and then the rest with more bytes is draining everything at once. */
  lemma {:induction false} DrainInTwoSteps(p: seq<byte>, q: seq<byte>)
    ensures var first := Drain(p); var second := Drain(first.rest + q);
      Drain(p + q) == Drained(first.cuts + second.cuts, second.rest)
    decreases |p|
  {
    hide FindDelimiter, Drain;
    DrainStep(p);
    if FindDelimiter(p).Some? {
      var d := FindDelimiter(p).value;
      var tail := p[d.index + d.length..];
      DelimiterIsStable(p, q, d);
      DrainInTwoSteps(tail, q);
      DrainStep(p + q);
      assert (p + q)[d.index + d.length..] == tail + q;
      assert FirstCut(p + q, d) == FirstCut(p, d);
    }
  }

  function Concat(chunks: seq<seq<byte>>): seq<byte> {
    if chunks == [] then [] else chunks[0] + Concat(chunks[1..])
  }

  /** Each chunk is appended to the buffer, which is then drained. */
  function DrainChunks(buffer: seq<byte>, chunks: seq<seq<byte>>): Drained
    decreases |chunks|
  {
    if chunks == [] then Drained([], buffer)
    else
      var now := Drain(buffer + chunks[0]);
      var later := DrainChunks(now.rest, chunks[1..]);
      Drained(now.cuts + later.cuts, later.rest)
  }

  lemma {:induction false} DrainChunksIsDrain(buffer: seq<byte>, chunks: seq<seq<byte>>)
    requires FindDelimiter(buffer) == None
    ensures DrainChunks(buffer, chunks) == Drain(buffer + Concat(chunks))
    decreases |chunks|
  {
    hide FindDelimiter;
    if chunks == [] {
      assert buffer + [] == buffer;
    } else {
      var now := Drain(buffer + chunks[0]);
      DrainLosesNothing(buffer + chunks[0]);
      DrainChunksIsDrain(now.rest, chunks[1..]);
      DrainInTwoSteps(buffer + chunks[0], Concat(chunks[1..]));
      assert buffer + chunks[0] + Concat(chunks[1..]) == buffer + Concat(chunks);
    }
  }

  /** However the stream is cut into chunks, the frames and the leftover are those of the whole stream. */
  lemma ChunkingDoesNotMatter(chunks: seq<seq<byte>>)
    ensures DrainChunks([], chunks) == Drain(Concat(chunks))
  {
    assert FindDelimiter([]) == None;
    DrainChunksIsDrain([], chunks);
    assert [] + Concat(chunks) == Concat(chunks);
  }

  // ----- The buffer -----

  class FrameBuffer {
    var data: seq<byte>

    constructor ()
      ensures data == []
    {
      data := [];
    }

    /** Takes one complete frame out of the buffer, with its delimiter. */
    method TakeFrame() returns (frame: Option<seq<byte>>)
      modifies this
      ensures FindDelimiter(old(data)).None? ==> frame == None && data == old(data)
      ensures FindDelimiter(old(data)).Some? ==>
                var d := FindDelimiter(old(data)).value;
                && d.index + d.length <= |old(data)|
                && frame == Some(old(data)[..d.index]) && data == old(data)[d.index + d.length..]
    {
      var found := FindDelimiter(data);
      if found.None? {
        return None;
      }
      var d := found.value;
      frame := Some(data[..d.index]);
      data := data[d.index + d.length..];
    }

    /** One chunk arrives; every frame it completes is taken. */
    method Receive(chunk: seq<byte>) returns (frames: seq<seq<byte>>)
      modifies this
      ensures data == Drain(old(data) + chunk).rest
      ensures frames == FramesOf(Drain(old(data) + chunk).cuts)
    {
      hide FindDelimiter, Drain;
      data := data + chunk;
      ghost var all := data;
      frames := [];
      var more := true;
      while more
        invariant Drain(all).rest == Drain(data).rest
        invariant FramesOf(Drain(all).cuts) == frames + FramesOf(Drain(data).cuts)
        invariant !more ==> FindDelimiter(data) == None
        decreases more, |data|
      {
        DrainStep(data);
        ghost var before := Drain(data);
        var frame := TakeFrame();
        if frame.Some? {
          assert before.cuts[1..] == Drain(data).cuts;
          frames := frames + [frame.value];
        } else {
          more := false;
        }
      }
      DrainStep(data);
    }
  }

  function FramesOf(cuts: seq<Cut>): (r: seq<seq<byte>>)
    ensures |r| == |cuts| && forall k :: 0 <= k < |cuts| ==> r[k] == cuts[k].frame
  {
    if cuts == [] then [] else [cuts[0].frame] + FramesOf(cuts[1..])
  }

  // ----- Parsing one frame -----

  datatype SseFrame = SseFrame(event: Option<seq<byte>>, data: seq<byte>)

  datatype SseError = InvalidUtf8

  predicate InByteRange(b: byte, low: int, high: int) { low <= b as int <= high }

  predicate Continues(s: seq<byte>, i: nat) { i < |s| && InByteRange(s[i], 0x80, 0xBF) }

  /** Well-formed UTF-8 from `i` on (table 3-7 of the Unicode Standard). */
  predicate ValidUtf8(s: seq<byte>, i: nat)
    decreases |s| - i
  {
    i >= |s|
    || (InByteRange(s[i], 0, 0x7F) && ValidUtf8(s, i + 1))
    || (InByteRange(s[i], 0xC2, 0xDF) && Continues(s, i + 1) && ValidUtf8(s, i + 2))
    || (&& InByteRange(s[i], 0xE0, 0xEF) && Continues(s, i + 1) && Continues(s, i + 2)
        && (s[i] == 0xE0 ==> InByteRange(s[i + 1], 0xA0, 0xBF))
        && (s[i] == 0xED ==> InByteRange(s[i + 1], 0x80, 0x9F))
        && ValidUtf8(s, i + 3))
    || (&& InByteRange(s[i], 0xF0, 0xF4) && Continues(s, i + 1) && Continues(s, i + 2) && Continues(s, i + 3)
        && (s[i] == 0xF0 ==> InByteRange(s[i + 1], 0x90, 0xBF))
        && (s[i] == 0xF4 ==> InByteRange(s[i + 1], 0x80, 0x8F))
        && ValidUtf8(s, i + 4))
  }

  /** `replace("\r\n", "\n")`. */
  function ReplaceCrlf(s: seq<byte>): seq<byte> {
    if s == [] then []
    else if s[0] == CR && |s| > 1 && s[1] == LF then [LF] + ReplaceCrlf(s[2..])
    else [s[0]] + ReplaceCrlf(s[1..])
  }

  /** The pieces between line feeds; the last may be empty. */
  function SplitLf(s: seq<byte>): (r: seq<seq<byte>>)
    ensures r != []
  {
    if s == [] then [[]]
    else if s[0] == LF then [[]] + SplitLf(s[1..])
    else var r := SplitLf(s[1..]); [[s[0]] + r[0]] + r[1..]
  }

  function TrimCr(s: seq<byte>): seq<byte> {
    if s != [] && s[|s| - 1] == CR then TrimCr(s[..|s| - 1]) else s
  }

  /** The length in bytes of the Unicode white space character at the start of `s`, or 0. */
  function WhiteSpaceLength(s: seq<byte>): (n: nat)
    ensures n <= |s| && n <= 3
  {
    if |s| >= 1 && (9 <= s[0] <= 13 || s[0] == 32) then 1
    else if |s| >= 2 && s[0] == 0xC2 && (s[1] == 0x85 || s[1] == 0xA0) then 2
    else if && |s| >= 3
            && (|| s[..3] == [0xE1, 0x9A, 0x80] || s[..3] == [0xE3, 0x80, 0x80] || s[..3] == [0xE2, 0x81, 0x9F]
                || (s[0] == 0xE2 && s[1] == 0x80
                    && (0x80 <= s[2] <= 0x8A || s[2] == 0xA8 || s[2] == 0xA9 || s[2] == 0xAF)))
    then 3
    else 0
  }

  function TrimStart(s: seq<byte>): seq<byte> {
    if WhiteSpaceLength(s) > 0 then TrimStart(s[WhiteSpaceLength(s)..]) else s
  }

  const EVENT: seq<byte> := [101, 118, 101, 110, 116, 58]
  const DATA: seq<byte> := [100, 97, 116, 97, 58]

  datatype Fields = Fields(event: Option<seq<byte>>, data: seq<seq<byte>>)

  /** One line: comments and unknown fields are skipped, the last event name wins. */
  function ReadLine(fields: Fields, raw: seq<byte>): Fields {
    var line := TrimCr(raw);
    if line == [] || line[0] == COLON then fields
    else if EVENT <= line then fields.(event := Some(TrimStart(line[|EVENT|..])))
    else if DATA <= line then fields.(data := fields.data + [TrimStart(line[|DATA|..])])
    else fields
  }

  function ReadLines(fields: Fields, lines: seq<seq<byte>>): Fields
    decreases |lines|
  {
    if lines == [] then fields else ReadLines(ReadLine(fields, lines[0]), lines[1..])
  }

  function JoinLf(lines: seq<seq<byte>>): seq<byte> {
    if lines == [] then [] else if |lines| == 1 then lines[0] else lines[0] + [LF] + JoinLf(lines[1..])
  }

  function ParseFrame(frame: seq<byte>): Result<Option<SseFrame>, SseError> {
    if !ValidUtf8(frame, 0) then Err(InvalidUtf8)
    else
      var fields := ReadLines(Fields(None, []), SplitLf(ReplaceCrlf(frame)));
      if fields.data == [] then Ok(None) else Ok(Some(SseFrame(fields.event, JoinLf(fields.data))))
  }

  method ParseSseFrame(frame: seq<byte>) returns (r: Result<Option<SseFrame>, SseError>)
    ensures r == ParseFrame(frame)
  {
    if !ValidUtf8(frame, 0) {
      return Err(InvalidUtf8);
    }
    var event: Option<seq<byte>> := None;
    var dataLines: seq<seq<byte>> := [];
    var lines := SplitLf(ReplaceCrlf(frame));
    var i := 0;
    assert lines[0..] == lines;
    while i < |lines|
      invariant i <= |lines|
      invariant ReadLines(Fields(None, []), lines) == ReadLines(Fields(event, dataLines), lines[i..])
    {
      assert lines[i..][1..] == lines[i + 1..];
      var line := TrimCr(lines[i]);
      i := i + 1;
      if line == [] || line[0] == COLON {
        continue;
      }
      if EVENT <= line {
        event := Some(TrimStart(line[|EVENT|..]));
        continue;
      }
      if DATA <= line {
        dataLines := dataLines + [TrimStart(line[|DATA|..])];
      }
    }
    if dataLines == [] {
      return Ok(None);
    }
    return Ok(Some(SseFrame(event, JoinLf(dataLines))));
  }

  // ----- The tail at end of file -----

  predicate IsAsciiWhitespace(b: byte) {
    b == 32 || b == 9 || b == LF || b == 12 || b == CR
  }

  function StripOneCr(line: seq<byte>): seq<byte> {
    if line != [] && line[|line| - 1] == CR then line[..|line| - 1] else line
  }

  predicate IgnorableLine(raw: seq<byte>) {
    var line := StripOneCr(raw);
    (forall k :: 0 <= k < |line| ==> IsAsciiWhitespace(line[k])) || (line != [] && line[0] == COLON)
  }

  predicate IgnorableTail(tail: seq<byte>) {
    forall k :: 0 <= k < |SplitLf(tail)| ==> IgnorableLine(SplitLf(tail)[k])
  }

  /** Splitting at line feeds and joining by them are inverse, and no piece holds a line feed. */
  lemma {:induction false} SplitThenJoin(s: seq<byte>)
    ensures JoinLf(SplitLf(s)) == s
    ensures forall k :: 0 <= k < |SplitLf(s)| ==> LF !in SplitLf(s)[k]
  {
    if s != [] {
      SplitThenJoin(s[1..]);
      var r := SplitLf(s[1..]);
      assert s == [s[0]] + s[1..];
      if s[0] == LF {
        assert SplitLf(s)[1..] == r;
      } else {
        assert SplitLf(s)[1..] == r[1..];
      }
    }
  }

  /**
   What one line adds, its trailing carriage returns aside: the text after `data:` or `event:`
   without leading white space, and nothing for every other line.
   */
  lemma ReadLineMeaning(fields: Fields, raw: seq<byte>)
    ensures var line := TrimCr(raw);
      ReadLine(fields, raw)
      == if Starts(line, 0, [100, 97, 116, 97, 58]) then fields.(data := fields.data + [TrimStart(line[5..])])
         else if Starts(line, 0, [101, 118, 101, 110, 116, 58]) then fields.(event := Some(TrimStart(line[6..])))
         else fields
  {
    hide TrimCr, TrimStart;
    var line := TrimCr(raw);
    assert DATA <= line <==> Starts(line, 0, DATA);
    assert EVENT <= line <==> Starts(line, 0, EVENT);
    assert DATA <= line ==> line[0] == 100;
    assert EVENT <= line ==> line[0] == 101;
  }

  // ----- Lines by position -----

  /** `s[a..b]` is a whole line between line feeds. */
  ghost predicate IsLineAt(s: seq<byte>, a: nat, b: nat) {
    && a <= b <= |s| && (a == 0 || s[a - 1] == 10) && (b == |s| || s[b] == 10)
    && forall k :: a <= k < b ==> s[k] != 10
  }

  /** A line of ASCII white space only, or a comment. */
  ghost predicate BlankOrComment(s: seq<byte>, a: nat, b: nat)
    requires a <= b <= |s|
  {
    (forall k :: a <= k < b ==> s[k] in {9, 12, 13, 32}) || (a < b && s[a] == 58)
  }

  function FirstLf(s: seq<byte>): (f: nat)
    ensures f <= |s| && (f < |s| ==> s[f] == LF) && forall k :: 0 <= k < f ==> s[k] != LF
  {
    if s == [] || s[0] == LF then 0 else 1 + FirstLf(s[1..])
  }

  lemma {:induction false} SplitAtFirstLf(s: seq<byte>)
    ensures var f := FirstLf(s); SplitLf(s) == if f == |s| then [s] else [s[..f]] + SplitLf(s[f + 1..])
  {
    if s != [] && s[0] != LF {
      SplitAtFirstLf(s[1..]);
      var f := FirstLf(s);
      var step := if f == |s| then 0 else 1;
      assert s == [s[0]] + s[1..] && s[..f] == [s[0]] + s[1..][..f - 1];
      assert s[1..][f - 1 + step..] == s[f + step..];
    }
  }

  /** A tail may be ignored exactly when each of its lines is blank or a comment. */
  lemma {:induction false} IgnorableTailIff(tail: seq<byte>)
    ensures IgnorableTail(tail) <==> forall a: nat, b: nat :: IsLineAt(tail, a, b) ==> BlankOrComment(tail, a, b)
    decreases |tail|
  {
    hide SplitLf, IgnorableTail, IgnorableLine, BlankOrComment;
    var f := FirstLf(tail);
    SplitAtFirstLf(tail);
    IgnorableLineIff(tail, f);
    assert IsLineAt(tail, 0, f);
    if f < |tail| {
      var rest := tail[f + 1..];
      IgnorableTailIff(rest);
      forall a: nat, b: nat | IsLineAt(rest, a, b)
        ensures IsLineAt(tail, f + 1 + a, f + 1 + b)
        ensures BlankOrComment(rest, a, b) <==> BlankOrComment(tail, f + 1 + a, f + 1 + b)
      {
        LineMoves(tail, f + 1, a, b);
      }
      forall a: nat, b: nat | IsLineAt(tail, a, b) && a > f
        ensures IsLineAt(rest, a - f - 1, b - f - 1)
        ensures BlankOrComment(rest, a - f - 1, b - f - 1) <==> BlankOrComment(tail, a, b)
      {
        assert forall k :: f + 1 <= k < |tail| ==> tail[k] == rest[k - f - 1];
        LineMoves(tail, f + 1, a - f - 1, b - f - 1);
      }
      forall a: nat, b: nat | IsLineAt(tail, a, b) && a <= f
        ensures a == 0 && b == f
      {
        FirstLineIs(tail, f, a, b);
      }
      PiecesOf(tail, tail[..f], SplitLf(rest));
      TailOf(rest, SplitLf(rest));
    } else {
      assert tail[..f] == tail;
      PiecesOf(tail, tail, []);
      forall a: nat, b: nat | IsLineAt(tail, a, b)
        ensures a == 0 && b == f
      {
        FirstLineIs(tail, f, a, b);
      }
    }
  }

  lemma TailOf(tail: seq<byte>, pieces: seq<seq<byte>>)
    requires pieces == SplitLf(tail)
    ensures IgnorableTail(tail) <==> forall k :: 0 <= k < |pieces| ==> IgnorableLine(pieces[k])
  {
    hide SplitLf, IgnorableLine;
  }

  lemma FirstLineIs(s: seq<byte>, f: nat, a: nat, b: nat)
    requires f <= |s| && (f < |s| ==> s[f] == 10) && (forall k :: 0 <= k < f ==> s[k] != 10)
    requires IsLineAt(s, a, b) && a <= f
    ensures a == 0 && b == f
  {
  }

  lemma PiecesOf(tail: seq<byte>, first: seq<byte>, rest: seq<seq<byte>>)
    requires SplitLf(tail) == [first] + rest
    ensures IgnorableTail(tail) <==> IgnorableLine(first) && forall k :: 0 <= k < |rest| ==> IgnorableLine(rest[k])
  {
    hide SplitLf, IgnorableLine;
    var all := SplitLf(tail);
    assert all[0] == first && forall k :: 0 <= k < |rest| ==> all[k + 1] == rest[k];
    assert forall k :: 0 < k < |all| ==> all[k] == rest[k - 1];
  }

  lemma LineMoves(s: seq<byte>, d: nat, a: nat, b: nat)
    requires 0 < d <= |s| && s[d - 1] == 10 && IsLineAt(s[d..], a, b)
    ensures IsLineAt(s, d + a, d + b) && (BlankOrComment(s[d..], a, b) <==> BlankOrComment(s, d + a, d + b))
  {
    assert forall k :: d <= k < |s| ==> s[k] == s[d..][k - d];
  }

  lemma IgnorableLineIff(s: seq<byte>, f: nat)
    requires f <= |s| && forall k :: 0 <= k < f ==> s[k] != LF
    ensures IgnorableLine(s[..f]) <==> BlankOrComment(s, 0, f)
  {
    var raw := s[..f];
    var line := StripOneCr(raw);
    assert forall k :: 0 <= k < |line| ==> line[k] == s[k];
  }

  function TrimAll(lines: seq<seq<byte>>): seq<seq<byte>> {
    if lines == [] then [] else [TrimCr(lines[0])] + TrimAll(lines[1..])
  }

  lemma {:induction false} TrimCrShape(s: seq<byte>)
    ensures TrimCr(s) <= s && TrimCr(TrimCr(s)) == TrimCr(s)
    ensures TrimCr(s) == [] <==> forall k :: 0 <= k < |s| ==> s[k] == CR
  {
    if s != [] && s[|s| - 1] == CR {
      TrimCrShape(s[..|s| - 1]);
    }
  }

  lemma {:induction false} TrimCrOfCons(b: byte, s: seq<byte>)
    ensures TrimCr([b] + s) == if TrimCr(s) == [] then TrimCr([b]) else [b] + TrimCr(s)
  {
    var t := [b] + s;
    if s == [] {
      assert t == [b];
    } else if s[|s| - 1] == CR {
      assert t[..|t| - 1] == [b] + s[..|s| - 1];
      TrimCrOfCons(b, s[..|s| - 1]);
    }
  }

  lemma TrimAllOfCons(b: byte, r: seq<seq<byte>>, r': seq<seq<byte>>)
    requires r != [] && r' != [] && TrimAll(r) == TrimAll(r')
    ensures TrimAll([[b] + r[0]] + r[1..]) == TrimAll([[b] + r'[0]] + r'[1..])
  {
    TrimCrOfCons(b, r[0]);
    TrimCrOfCons(b, r'[0]);
    assert TrimAll(r)[0] == TrimCr(r[0]) && TrimAll(r)[1..] == TrimAll(r[1..]);
    assert TrimAll(r')[0] == TrimCr(r'[0]) && TrimAll(r')[1..] == TrimAll(r'[1..]);
    assert ([[b] + r[0]] + r[1..])[1..] == r[1..];
    assert ([[b] + r'[0]] + r'[1..])[1..] == r'[1..];
  }

  /** Replacing CRLF first makes no difference to the trimmed lines. */
  lemma {:induction false} ReplacingCrlfIsTrimming(s: seq<byte>)
    ensures TrimAll(SplitLf(ReplaceCrlf(s))) == TrimAll(SplitLf(s))
    decreases |s|
  {
    if s != [] {
      if s[0] == CR && |s| > 1 && s[1] == LF {
        ReplacingCrlfIsTrimming(s[2..]);
        CrBeforeLf(s, SplitLf(s[2..]));
        var t := ReplaceCrlf(s[2..]);
        assert ([LF] + t)[1..] == t;
      } else {
        ReplacingCrlfIsTrimming(s[1..]);
        var t := ReplaceCrlf(s[1..]);
        assert ([s[0]] + t)[1..] == t;
        if s[0] == LF {
        } else {
          TrimAllOfCons(s[0], SplitLf(t), SplitLf(s[1..]));
        }
      }
    }
  }

  lemma CrBeforeLf(s: seq<byte>, r: seq<seq<byte>>)
    requires |s| > 1 && s[0] == CR && s[1] == LF && r == SplitLf(s[2..])
    ensures TrimAll(SplitLf(s)) == [[]] + TrimAll(r)
  {
    assert s[1..][1..] == s[2..];
    assert SplitLf(s[1..]) == [[]] + r;
    assert SplitLf(s) == [[CR] + []] + ([[]] + r)[1..];
    assert ([[]] + r)[1..] == r;
    assert [CR] + [] == [CR];
    assert TrimCr([CR]) == [] by {
      assert [CR][..0] == [];
    }
    assert ([[CR]] + r)[1..] == r;
  }

  lemma {:induction false} ReadLinesTrims(fields: Fields, lines: seq<seq<byte>>)
    ensures ReadLines(fields, lines) == ReadLines(fields, TrimAll(lines))
    decreases |lines|
  {
    if lines != [] {
      TrimCrShape(lines[0]);
      ReadLinesTrims(ReadLine(fields, lines[0]), lines[1..]);
      assert TrimAll(lines)[1..] == TrimAll(lines[1..]);
      assert ReadLine(fields, lines[0]) == ReadLine(fields, TrimCr(lines[0]));
    }
  }

  lemma IgnorableLineIsSkipped(fields: Fields, raw: seq<byte>)
    requires IgnorableLine(raw)
    ensures ReadLine(fields, raw) == fields
  {
    var line := TrimCr(raw);
    TrimCrShape(raw);
    if line != [] {
      assert line[0] == raw[0];
      assert StripOneCr(raw) != [] ==> StripOneCr(raw)[0] == raw[0];
      assert line[0] != EVENT[0] && line[0] != DATA[0];
    }
  }

  lemma {:induction false} IgnorableLinesAreSkipped(fields: Fields, lines: seq<seq<byte>>)
    requires forall k :: 0 <= k < |lines| ==> IgnorableLine(lines[k])
    ensures ReadLines(fields, lines) == fields
  {
    hide IgnorableLine, ReadLine;
    if lines != [] {
      IgnorableLineIsSkipped(fields, lines[0]);
      IgnorableLinesAreSkipped(fields, lines[1..]);
    }
  }

  /** A tail judged ignorable at the end of the stream holds no event, whatever its line ends. */
  lemma IgnorableTailHoldsNoEvent(tail: seq<byte>)
    requires IgnorableTail(tail) && ValidUtf8(tail, 0)
    ensures ParseFrame(tail) == Ok(None)
  {
    hide ValidUtf8, ReadLine, IgnorableLine;
    var none := Fields(None, []);
    ReplacingCrlfIsTrimming(tail);
    ReadLinesTrims(none, SplitLf(ReplaceCrlf(tail)));
    ReadLinesTrims(none, SplitLf(tail));
    IgnorableLinesAreSkipped(none, SplitLf(tail));
  }

  // ----- Reading back a printed event -----

  const SPACE: byte := 32

  function DataLine(value: seq<byte>): seq<byte> { DATA + [SPACE] + value }

  function EventLine(name: seq<byte>): seq<byte> { EVENT + [SPACE] + name }

  function DataLines(values: seq<seq<byte>>): seq<seq<byte>> {
    if values == [] then [] else [DataLine(values[0])] + DataLines(values[1..])
  }

  function PrintLines(lines: seq<seq<byte>>): seq<byte> {
    if lines == [] then [] else lines[0] + [LF] + PrintLines(lines[1..])
  }

  function EventLines(event: Option<seq<byte>>, values: seq<seq<byte>>): seq<seq<byte>> {
    (if event.Some? then [EventLine(event.value)] else []) + DataLines(values)
  }

  /** An event as section 9.2.5 writes it: an optional name and one `data` line per line of data. */
  function PrintEvent(event: Option<seq<byte>>, values: seq<seq<byte>>): seq<byte> {
    PrintLines(EventLines(event, values))
  }

  ghost predicate OneLine(s: seq<byte>) {
    forall k :: 0 <= k < |s| ==> s[k] != LF && s[k] != CR
  }

  lemma {:induction false} SplitOfLine(line: seq<byte>, rest: seq<byte>)
    requires OneLine(line)
    ensures SplitLf(line + [LF] + rest) == [line] + SplitLf(rest)
  {
    var s := line + [LF] + rest;
    if line == [] {
      assert s[1..] == rest;
    } else {
      assert s[1..] == line[1..] + [LF] + rest;
      SplitOfLine(line[1..], rest);
      assert [line[0]] + line[1..] == line;
    }
  }

  lemma {:induction false} SplitOfPrintedLines(lines: seq<seq<byte>>)
    requires forall k :: 0 <= k < |lines| ==> OneLine(lines[k])
    ensures SplitLf(PrintLines(lines)) == lines + [[]]
  {
    hide OneLine;
    if lines != [] {
      SplitOfLine(lines[0], PrintLines(lines[1..]));
      SplitOfPrintedLines(lines[1..]);
      assert lines == [lines[0]] + lines[1..];
    }
  }

  lemma TrimStartAfterSpace(value: seq<byte>)
    ensures TrimStart([SPACE] + value) == TrimStart(value)
  {
    assert ([SPACE] + value)[1..] == value;
  }

  lemma ReadDataLine(fields: Fields, value: seq<byte>)
    requires OneLine(value)
    ensures ReadLine(fields, DataLine(value)) == fields.(data := fields.data + [TrimStart(value)])
  {
    hide TrimStart;
    var line := DataLine(value);
    assert line[0] == 100 && line[0] != EVENT[0];
    assert line[|DATA|..] == [SPACE] + value;
    TrimStartAfterSpace(value);
  }

  lemma ReadEventLine(fields: Fields, name: seq<byte>)
    requires OneLine(name)
    ensures ReadLine(fields, EventLine(name)) == fields.(event := Some(TrimStart(name)))
  {
    hide TrimStart;
    var line := EventLine(name);
    assert line[0] == 101;
    assert line[|EVENT|..] == [SPACE] + name;
    TrimStartAfterSpace(name);
  }

  function TrimEach(values: seq<seq<byte>>): seq<seq<byte>> {
    if values == [] then [] else [TrimStart(values[0])] + TrimEach(values[1..])
  }

  lemma {:induction false} ReadDataLines(fields: Fields, values: seq<seq<byte>>)
    requires forall k :: 0 <= k < |values| ==> OneLine(values[k])
    ensures ReadLines(fields, DataLines(values) + [[]]) == fields.(data := fields.data + TrimEach(values))
    decreases |values|
  {
    hide OneLine, ReadLine, DataLine, TrimStart;
    var lines := DataLines(values) + [[]];
    if values == [] {
      assert lines == [[]] && lines[1..] == [];
      SkipEmptyLine(fields);
      assert fields.data + [] == fields.data;
    } else {
      ReadDataLine(fields, values[0]);
      assert lines[1..] == DataLines(values[1..]) + [[]];
      var next := ReadLine(fields, DataLine(values[0]));
      ReadDataLines(next, values[1..]);
      assert fields.data + [TrimStart(values[0])] + TrimEach(values[1..]) == fields.data + TrimEach(values);
    }
  }

  lemma SkipEmptyLine(fields: Fields)
    ensures ReadLine(fields, []) == fields
  {
  }

  lemma {:induction false} DataLinesAreOneLine(values: seq<seq<byte>>)
    requires forall k :: 0 <= k < |values| ==> OneLine(values[k])
    ensures forall k :: 0 <= k < |DataLines(values)| ==> OneLine(DataLines(values)[k])
  {
    if values != [] {
      DataLinesAreOneLine(values[1..]);
      assert OneLine(DataLine(values[0]));
    }
  }

  /** A valid frame is read line by line, as it is split at line feeds. */
  lemma ParseReadsSplitLines(s: seq<byte>)
    requires ValidUtf8(s, 0)
    ensures var fields := ReadLines(Fields(None, []), SplitLf(s));
      ParseFrame(s) == if fields.data == [] then Ok(None) else Ok(Some(SseFrame(fields.event, JoinLf(fields.data))))
  {
    hide ValidUtf8, ReadLine, JoinLf, SplitLf, ReplaceCrlf, ReadLines;
    ReplacingCrlfIsTrimming(s);
    ReadLinesTrims(Fields(None, []), SplitLf(ReplaceCrlf(s)));
    ReadLinesTrims(Fields(None, []), SplitLf(s));
  }

  lemma ReadEventLines(event: Option<seq<byte>>, values: seq<seq<byte>>)
    requires forall k :: 0 <= k < |values| ==> OneLine(values[k])
    requires event.Some? ==> OneLine(event.value)
    ensures ReadLines(Fields(None, []), EventLines(event, values) + [[]])
         == Fields(if event.Some? then Some(TrimStart(event.value)) else None, TrimEach(values))
  {
    hide ReadLine, OneLine, DataLines, EventLine, TrimStart;
    var all := EventLines(event, values) + [[]];
    var data := DataLines(values) + [[]];
    if event.Some? {
      ReadEventLine(Fields(None, []), event.value);
      assert all == [EventLine(event.value)] + data;
      assert all[1..] == data;
    } else {
      assert all == data;
    }
    ReadDataLines(Fields(if event.Some? then Some(TrimStart(event.value)) else None, []), values);
    assert [] + TrimEach(values) == TrimEach(values);
  }

  /** A printed event is read line by line, without the white space its name and values start with. */
  lemma PrintedEventIsReadTrimmed(event: Option<seq<byte>>, values: seq<seq<byte>>)
    requires values != [] && forall k :: 0 <= k < |values| ==> OneLine(values[k])
    requires event.Some? ==> OneLine(event.value)
    requires ValidUtf8(PrintEvent(event, values), 0)
    ensures ParseFrame(PrintEvent(event, values))
         == Ok(Some(SseFrame(if event.Some? then Some(TrimStart(event.value)) else None, JoinLf(TrimEach(values)))))
  {
    hide ValidUtf8, ReadLines, JoinLf, SplitLf, ParseFrame, OneLine, PrintLines, EventLines, TrimStart;
    EventLinesAreOneLine(event, values);
    SplitOfPrintedLines(EventLines(event, values));
    ParseReadsSplitLines(PrintEvent(event, values));
    ReadEventLines(event, values);
  }

  lemma {:induction false} TrimStartIff(s: seq<byte>)
    ensures |TrimStart(s)| <= |s|
    ensures |TrimStart(s)| == |s| <==> WhiteSpaceLength(s) == 0
    ensures TrimStart(s) == s <==> WhiteSpaceLength(s) == 0
  {
    if WhiteSpaceLength(s) > 0 {
      TrimStartIff(s[WhiteSpaceLength(s)..]);
    }
  }

  lemma {:induction false} TrimEachIff(values: seq<seq<byte>>)
    ensures |TrimEach(values)| == |values| && |JoinLf(TrimEach(values))| <= |JoinLf(values)|
    ensures |JoinLf(TrimEach(values))| == |JoinLf(values)|
       <==> forall k :: 0 <= k < |values| ==> WhiteSpaceLength(values[k]) == 0
    ensures (forall k :: 0 <= k < |values| ==> WhiteSpaceLength(values[k]) == 0) ==> TrimEach(values) == values
  {
    hide TrimStart, WhiteSpaceLength;
    if values != [] {
      TrimStartIff(values[0]);
      TrimEachIff(values[1..]);
      assert TrimEach(values)[1..] == TrimEach(values[1..]);
      assert values == [values[0]] + values[1..];
      assert (forall k :: 0 <= k < |values| ==> WhiteSpaceLength(values[k]) == 0)
        <==> WhiteSpaceLength(values[0]) == 0 && forall k :: 0 <= k < |values[1..]| ==> WhiteSpaceLength(values[1..][k]) == 0 by {
        forall k | 0 < k < |values|
          ensures values[k] == values[1..][k - 1]
        {
        }
      }
    }
  }

  /**
   A printed event is read back with the same name and the same data if and only if neither its name
   nor any of its values starts with white space.
   */
  lemma PrintedEventIsReadIff(event: Option<seq<byte>>, values: seq<seq<byte>>)
    requires values != [] && forall k :: 0 <= k < |values| ==> OneLine(values[k])
    requires event.Some? ==> OneLine(event.value)
    requires ValidUtf8(PrintEvent(event, values), 0)
    ensures ParseFrame(PrintEvent(event, values)) == Ok(Some(SseFrame(event, JoinLf(values))))
       <==> (event.Some? ==> WhiteSpaceLength(event.value) == 0)
            && forall k :: 0 <= k < |values| ==> WhiteSpaceLength(values[k]) == 0
  {
    hide ValidUtf8, JoinLf, ParseFrame, OneLine, PrintEvent, TrimStart, TrimEach, WhiteSpaceLength;
    PrintedEventIsReadTrimmed(event, values);
    TrimEachIff(values);
    if event.Some? {
      TrimStartIff(event.value);
    }
  }

  lemma EventLinesAreOneLine(event: Option<seq<byte>>, values: seq<seq<byte>>)
    requires forall k :: 0 <= k < |values| ==> OneLine(values[k])
    requires event.Some? ==> OneLine(event.value)
    ensures forall k :: 0 <= k < |EventLines(event, values)| ==> OneLine(EventLines(event, values)[k])
  {
    hide DataLine, WhiteSpaceLength;
    DataLinesAreOneLine(values);
  }
}
