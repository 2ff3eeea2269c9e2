/** The Content-Length framing between the desktop and the server: the writer, the stream reader, and the
    extractor that is fed chunk by chunk. */
module Framing {
  import opened Options
  import opened ConfigValues
  import opened Words

  newtype Byte = x: int | 0 <= x < 256

  type Bytes = seq<Byte>

  const CR: Byte := 13
  const LF: Byte := 10
  const COLON: Byte := 58
  const SPACE: Byte := 32
  const PLUS: Byte := 43
  const MINUS: Byte := 45
  const ZERO: Byte := 48
  const CRLF: Bytes := [CR, LF]
  const BLANK: Bytes := [CR, LF, CR, LF]

  /** "Content-Length" */
  const NAME: Bytes := [67, 111, 110, 116, 101, 110, 116, 45, 76, 101, 110, 103, 116, 104]

  // ----- text -----

  function IndexOf(s: Bytes, b: Byte): (i: nat)
    ensures i <= |s| && (i < |s| ==> s[i] == b)
  {
    if s == [] || s[0] == b then 0 else IndexOf(s[1..], b) + 1
  }

  predicate IsSpace(b: Byte) {
    IsSpaceCode(b as int)
  }

  function TrimLeft(s: Bytes): Bytes {
    if s != [] && IsSpace(s[0]) then TrimLeft(s[1..]) else s
  }

  function TrimRight(s: Bytes): Bytes {
    if s != [] && IsSpace(s[|s| - 1]) then TrimRight(s[..|s| - 1]) else s
  }

  function Trim(s: Bytes): Bytes {
    TrimRight(TrimLeft(s))
  }

  function TrimLineEnd(s: Bytes): Bytes {
    if s != [] && (s[|s| - 1] == CR || s[|s| - 1] == LF) then TrimLineEnd(s[..|s| - 1]) else s
  }

  function Lower(b: Byte): Byte {
    if 65 <= b <= 90 then b + 32 else b
  }

  predicate EqualFold(s: Bytes, t: Bytes) {
    |s| == |t| && forall i :: 0 <= i < |s| ==> Lower(s[i]) == Lower(t[i])
  }

  predicate IsDigit(b: Byte) {
    ZERO <= b <= ZERO + 9
  }

  function Digits(s: Bytes): nat {
    if s == [] then 0 else Digits(s[..|s| - 1]) * 10 + (if IsDigit(s[|s| - 1]) then (s[|s| - 1] - ZERO) as int else 0)
  }

  function Decimal(n: nat): (s: Bytes)
    ensures s != [] && forall i :: 0 <= i < |s| ==> IsDigit(s[i])
  {
    var last := ZERO + (n % 10) as Byte;
    if n < 10 then [last] else Decimal(n / 10) + [last]
  }

  lemma {:induction false} DigitsOfDecimal(n: nat)
    ensures Digits(Decimal(n)) == n
  {
    if n >= 10 {
      DigitsOfDecimal(n / 10);
      var front, last := Decimal(n / 10), ZERO + (n % 10) as Byte;
      assert (front + [last])[..|front|] == front;
    } else {
      assert Decimal(n)[..0] == [];
    }
  }

  predicate AllDigits(s: Bytes) {
    s != [] && forall i :: 0 <= i < |s| ==> IsDigit(s[i])
  }

  predicate HasSign(s: Bytes) {
    s != [] && (s[0] == PLUS || s[0] == MINUS)
  }

  /** `strconv.Atoi` on 64 bits. */
  function Atoi(s: Bytes): Option<int> {
    var body := if HasSign(s) then s[1..] else s;
    if !AllDigits(body) then None
    else
      var n: int := if s[0] == MINUS then -(Digits(body) as int) else Digits(body);
      if MIN_INT64 <= n <= MAX_INT64 then Some(n) else None
  }

  /** The digits in front. */
  function LeadingDigits(s: Bytes): Bytes {
    if s != [] && IsDigit(s[0]) then [s[0]] + LeadingDigits(s[1..]) else []
  }

  /** `Number.parseInt` in base 10; None stands for NaN. */
  function ParseInt(s: Bytes): Option<int> {
    var t := TrimLeft(s);
    var digits := LeadingDigits(if HasSign(t) then t[1..] else t);
    if digits == [] then None else Some(if t[0] == MINUS then -(Digits(digits) as int) else Digits(digits))
  }

  // ----- writing -----

  function HeaderOf(payload: Bytes): Bytes {
    NAME + [COLON, SPACE] + Decimal(|payload|)
  }

  /** One frame, as both the server and the bridge write it. */
  function Encode(payload: Bytes): Bytes {
    HeaderOf(payload) + BLANK + payload
  }

  function EncodeAll(payloads: seq<Bytes>): Bytes {
    if payloads == [] then [] else Encode(payloads[0]) + EncodeAll(payloads[1..])
  }

  // ----- reading a stream -----

  /** The largest slice that can be made on a 64-bit desktop; asking for a larger one panics. */
  const MAX_ALLOC := 0x1_0000_0000_0000

  /** `EndOfInput` stands for `io.EOF`, by which the server leaves its loop without an error, and
      `Truncated` for `io.ErrUnexpectedEOF`; both leave nothing to read. */
  datatype FrameRead =
    | Payload(payload: Bytes, rest: Bytes)
    | EndOfInput
    | Truncated
    | Malformed(rest: Bytes)
    | Panics(rest: Bytes)

  datatype Headers = Length(length: int, rest: Bytes) | NoMore | Bad(rest: Bytes)

  /** The header lines up to the blank one; the last Content-Length counts. */
  function ReadHeaders(input: Bytes, length: int): (h: Headers)
    ensures h.Length? ==> |h.rest| < |input|
  {
    var n := IndexOf(input, LF);
    if n == |input| then NoMore
    else
      var line, rest := input[..n + 1], input[n + 1..];
      if line == CRLF || TrimLineEnd(line) == [] then Length(length, rest)
      else
        var next := HeaderLine(TrimLineEnd(line), length);
        if next == None then Bad(rest) else ReadHeaders(rest, next.value)
  }

  /** The length once one header line is read; None stands for an error. */
  function HeaderLine(line: Bytes, length: int): Option<int> {
    var k := IndexOf(line, COLON);
    if k == |line| then None
    else if EqualFold(Trim(line[..k]), NAME) then Atoi(Trim(line[k + 1..]))
    else Some(length)
  }

  function ReadFrom(input: Bytes): FrameRead {
    match ReadHeaders(input, -1)
    case NoMore => EndOfInput
    case Bad(rest) => Malformed(rest)
    case Length(length, rest) =>
      if length < 0 then Malformed(rest)
      else if length > MAX_ALLOC then Panics(rest)
      else if |rest| >= length then Payload(rest[..length], rest[length..])
      else if rest == [] then EndOfInput
      else Truncated
  }

  class FrameReader {
    /** What has not been read from the stream yet. */
    var rest: Bytes

    constructor (input: Bytes)
      ensures rest == input
    {
      rest := input;
    }

    method ReadFrame() returns (r: FrameRead)
      modifies this
      ensures r == ReadFrom(old(rest))
      ensures rest == if r.EndOfInput? || r.Truncated? then [] else r.rest
    {
      var length := -1;
      ghost var input := rest;
      while true
        invariant ReadHeaders(rest, length) == ReadHeaders(input, -1)
        decreases |rest|
      {
        var n := IndexOf(rest, LF);
        if n == |rest| {
          // both returns of the code hand on the reader's own error, which is the end of the input
          rest := [];
          return EndOfInput;
        }
        var line := rest[..n + 1];
        rest := rest[n + 1..];
        if line == CRLF {
          break;
        }
        line := TrimLineEnd(line);
        if line == [] {
          break;
        }
        var next := HeaderLine(line, length);
        if next == None {
          return Malformed(rest);
        }
        length := next.value;
      }
      assert ReadHeaders(input, -1) == Length(length, rest);
      if length < 0 {
        return Malformed(rest);
      }
      if length > MAX_ALLOC {
        return Panics(rest);
      }
      if |rest| < length {
        var none := rest == [];
        rest := [];
        return if none then EndOfInput else Truncated;
      }
      var payload := rest[..length];
      rest := rest[length..];
      return Payload(payload, rest);
    }
  }

  // ----- extracting from chunks -----

  /** Where the first blank line starts. */
  function FindBlank(s: Bytes): (i: Option<nat>)
    ensures i.Some? ==> i.value + 4 <= |s| && s[i.value..i.value + 4] == BLANK
  {
    if |s| < 4 then None
    else if s[..4] == BLANK then Some(0)
    else
      var i := FindBlank(s[1..]);
      if i == None then None else Some(i.value + 1)
  }

  /** The lines of a header, without their ends. */
  function SplitLines(s: Bytes): (lines: seq<Bytes>)
    ensures lines != []
  {
    if |s| < 2 then [s]
    else if s[..2] == CRLF then [[]] + SplitLines(s[2..])
    else
      var lines := SplitLines(s[1..]);
      [[s[0]] + lines[0]] + lines[1..]
  }

  /** The length that the lines give; the outer None stands for an error, the inner for no length. */
  function LengthIn(lines: seq<Bytes>): Option<Option<int>> {
    if lines == [] then Some(None)
    else
      var before := LengthIn(lines[..|lines| - 1]);
      if before == None then None else BridgeLine(lines[|lines| - 1], before.value)
  }

  /** The text between the first two colons. */
  function BridgeValue(line: Bytes): Bytes {
    var k := IndexOf(line, COLON);
    if k == |line| then []
    else
      var value := line[k + 1..];
      value[..IndexOf(value, COLON)]
  }

  function BridgeLine(line: Bytes, length: Option<int>): Option<Option<int>> {
    if !EqualFold(Trim(line[..IndexOf(line, COLON)]), NAME) then Some(length)
    else
      var parsed := ParseInt(Trim(BridgeValue(line)));
      if parsed == None || parsed.value < 0 then None else Some(parsed)
  }

  /** The frames of a buffer; after an error `rest` starts at the offending header. */
  datatype Extraction = Extraction(messages: seq<Bytes>, rest: Bytes, failed: bool)

  lemma {:induction false} LengthIsNat(lines: seq<Bytes>)
    ensures LengthIn(lines).Some? && LengthIn(lines).value.Some? ==> LengthIn(lines).value.value >= 0
  {
    if lines != [] {
      LengthIsNat(lines[..|lines| - 1]);
    }
  }

  /** What a buffer starts with: a frame that is complete, one that is not yet, or a broken header. */
  datatype Start = Wait | Broken | Frame(start: nat, end: nat)

  function StartOf(buffer: Bytes): (f: Start)
    ensures f.Frame? ==> 0 < f.start <= f.end <= |buffer|
  {
    var headerEnd := FindBlank(buffer);
    if headerEnd == None then Wait
    else
      var lines := SplitLines(buffer[..headerEnd.value]);
      var length := LengthIn(lines);
      if length == None || length.value == None then Broken
      else
        LengthIsNat(lines);
        var start := headerEnd.value + 4;
        var end := start + length.value.value;
        if |buffer| < end then Wait else Frame(start, end)
  }

  function Extract(buffer: Bytes): Extraction {
    match StartOf(buffer)
    case Wait => Extraction([], buffer, false)
    case Broken => Extraction([], buffer, true)
    case Frame(start, end) => After(buffer[start..end], Extract(buffer[end..]))
  }

  function After(message: Bytes, x: Extraction): Extraction {
    x.(messages := [message] + x.messages)
  }

  method HeaderLength(header: Bytes) returns (length: Option<Option<int>>)
    ensures length == LengthIn(SplitLines(header))
  {
    var lines := SplitLines(header);
    var contentLength: Option<int> := None;
    for i := 0 to |lines|
      invariant LengthIn(lines[..i]) == Some(contentLength)
    {
      assert lines[..i + 1][..i] == lines[..i];
      var next := BridgeLine(lines[i], contentLength);
      if next == None {
        FailureStays(lines, i + 1);
        return None;
      }
      contentLength := next.value;
    }
    assert lines[..|lines|] == lines;
    return Some(contentLength);
  }

  lemma {:induction false} FailureStays(lines: seq<Bytes>, i: nat)
    requires i <= |lines| && LengthIn(lines[..i]) == None
    ensures LengthIn(lines) == None
    decreases |lines| - i
  {
    if i < |lines| {
      assert lines[..i + 1][..i] == lines[..i];
      FailureStays(lines, i + 1);
    } else {
      assert lines[..i] == lines;
    }
  }

  /** The extraction when `messages` came before. */
  function Behind(messages: seq<Bytes>, x: Extraction): Extraction {
    x.(messages := messages + x.messages)
  }

  lemma ExtractedNext(messages: seq<Bytes>, buffer: Bytes, f: Start)
    requires f == StartOf(buffer) && f.Frame?
    ensures Behind(messages, Extract(buffer)) == Behind(messages + [buffer[f.start..f.end]], Extract(buffer[f.end..]))
  {
    var x := Extract(buffer[f.end..]);
    assert messages + ([buffer[f.start..f.end]] + x.messages) == messages + [buffer[f.start..f.end]] + x.messages;
  }

  method FindStart(buffer: Bytes) returns (f: Start)
    ensures f == StartOf(buffer)
  {
    var headerEnd := FindBlank(buffer);
    if headerEnd == None {
      return Wait;
    }
    var header := buffer[..headerEnd.value];
    var contentLength := HeaderLength(header);
    if contentLength == None || contentLength.value == None {
      return Broken;
    }
    LengthIsNat(SplitLines(header));
    var start := headerEnd.value + 4;
    var end := start + contentLength.value.value;
    if |buffer| < end {
      return Wait;
    }
    return Frame(start, end);
  }

  /** Everything a session has passed on, what it still holds, and whether it is destroyed. */
  datatype Emission = Emission(emitted: seq<Bytes>, rest: Bytes, destroyed: bool)

  /** One more chunk; the messages of the chunk that throws are lost. */
  function Feed(e: Emission, chunk: Bytes): (r: Emission)
    ensures r.destroyed ==> r.emitted == e.emitted
    ensures e.emitted <= r.emitted
  {
    if e.destroyed then e
    else
      var x := Extract(e.rest + chunk);
      Emission(if x.failed then e.emitted else e.emitted + x.messages, x.rest, x.failed)
  }

  /** What a session makes of its chunks. */
  function Emit(chunks: seq<Bytes>): Emission {
    if chunks == [] then Emission([], [], false) else Feed(Emit(chunks[..|chunks| - 1]), chunks[|chunks| - 1])
  }

  lemma {:induction false} EmissionStays(chunks: seq<Bytes>, i: nat)
    requires i <= |chunks| && Emit(chunks[..i]).destroyed
    ensures Emit(chunks) == Emit(chunks[..i])
  {
    if i < |chunks| {
      var front := chunks[..|chunks| - 1];
      assert front[..i] == chunks[..i];
      EmissionStays(front, i);
    } else {
      assert chunks[..i] == chunks;
    }
  }

  class Session {
    var stdoutBuffer: Bytes

    constructor ()
      ensures stdoutBuffer == []
    {
      stdoutBuffer := [];
    }

    /** The frames completed by one more chunk; `ok` is false where the code throws, and then the
        messages found before are not returned. */
    method ExtractFrames(chunk: Bytes) returns (messages: seq<Bytes>, ok: bool)
      modifies this
      ensures var x := Extract(old(stdoutBuffer) + chunk);
              ok == !x.failed && messages == (if ok then x.messages else []) && stdoutBuffer == x.rest
    {
      stdoutBuffer := stdoutBuffer + chunk;
      ghost var all := Extract(stdoutBuffer);
      messages := [];
      while true
        invariant all == Behind(messages, Extract(stdoutBuffer))
        decreases |stdoutBuffer|
      {
        var f := FindStart(stdoutBuffer);
        if f.Wait? {
          return messages, true;
        }
        if f.Broken? {
          return [], false;
        }
        var payload := stdoutBuffer[f.start..f.end];
        ExtractedNext(messages, stdoutBuffer, f);
        stdoutBuffer := stdoutBuffer[f.end..];
        messages := messages + [payload];
      }
    }

    /** The handler of the child's output: each chunk's messages are passed on, and the first chunk that
        throws destroys the session. */
    method HandleOutput(chunks: seq<Bytes>) returns (emitted: seq<Bytes>, destroyed: bool)
      requires stdoutBuffer == []
      modifies this
      ensures Emission(emitted, stdoutBuffer, destroyed) == Emit(chunks)
    {
      emitted, destroyed := [], false;
      for i := 0 to |chunks|
        invariant Emission(emitted, stdoutBuffer, destroyed) == Emit(chunks[..i]) && !destroyed
      {
        assert chunks[..i + 1][..i] == chunks[..i];
        var messages, ok := ExtractFrames(chunks[i]);
        if !ok {
          destroyed := true;
          EmissionStays(chunks, i + 1);
          return;
        }
        emitted := emitted + messages;
      }
      assert chunks[..|chunks|] == chunks;
    }
  }
}
