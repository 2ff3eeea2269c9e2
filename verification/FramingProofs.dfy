/** Frames come back as they were written, from a stream and from chunks cut anywhere. */
module FramingProofs {
  import opened Options
  import opened ConfigValues
  import opened Framing

  // ----- the header -----

  lemma {:induction false} IndexOfAt(s: Bytes, b: Byte, k: nat)
    requires k < |s| && s[k] == b && b !in s[..k]
    ensures IndexOf(s, b) == k
  {
    if k > 0 {
      assert s[..k][0] == s[0];
      assert s[1..][..k - 1] == s[..k][1..];
      IndexOfAt(s[1..], b, k - 1);
    }
  }

  lemma {:induction false} IndexOfNone(s: Bytes, b: Byte)
    requires b !in s
    ensures IndexOf(s, b) == |s|
  {
    if s != [] {
      IndexOfNone(s[1..], b);
    }
  }

  lemma TrimOfNumber(n: nat)
    ensures Trim([SPACE] + Decimal(n)) == Decimal(n)
  {
    var d := Decimal(n);
    assert ([SPACE] + d)[1..] == d;
    assert !IsSpace(d[0]) && !IsSpace(d[|d| - 1]);
    assert TrimLeft([SPACE] + d) == TrimLeft(d) == d;
    assert TrimRight(d) == d;
  }

  lemma {:induction false} LeadingAllDigits(s: Bytes)
    requires forall i :: 0 <= i < |s| ==> IsDigit(s[i])
    ensures LeadingDigits(s) == s
  {
    if s != [] {
      LeadingAllDigits(s[1..]);
    }
  }

  lemma NumberIsRead(n: nat)
    ensures n <= MAX_INT64 ==> Atoi(Decimal(n)) == Some(n)
    ensures ParseInt(Decimal(n)) == Some(n)
  {
    var d := Decimal(n);
    DigitsOfDecimal(n);
    LeadingAllDigits(d);
    assert !HasSign(d) && !IsSpace(d[0]);
  }

  lemma HeaderParts(payload: Bytes)
    ensures var h := HeaderOf(payload);
            && IndexOf(h, COLON) == |NAME| < |h|
            && h[..|NAME|] == NAME
            && Trim(h[|NAME| + 1..]) == Decimal(|payload|)
            && EqualFold(Trim(NAME), NAME)
    ensures CR !in HeaderOf(payload)
    ensures LF !in HeaderOf(payload)
  {
    var h, d := HeaderOf(payload), Decimal(|payload|);
    IndexOfAt(h, COLON, |NAME|);
    assert h[|NAME| + 1..] == [SPACE] + d;
    TrimOfNumber(|payload|);
    assert !IsSpace(NAME[0]) && !IsSpace(NAME[|NAME| - 1]);
  }

  // ----- what is written, and what is understood -----

  /** The bytes of a text in ASCII. */
  function BytesOf(s: string): (b: Bytes)
    requires forall i :: 0 <= i < |s| ==> s[i] < 128 as char
    ensures |b| == |s|
    ensures forall i :: 0 <= i < |s| ==> b[i] as int == s[i] as int
  {
    seq(|s|, i requires 0 <= i < |s| => s[i] as int as Byte)
  }

  lemma NameIsContentLength()
    ensures NAME == BytesOf("Content-Length")
  {
    var b := BytesOf("Content-Length");
    assert b[..7] == NAME[..7] && b[7..] == NAME[7..];
  }

  /** A frame as it stands on the wire. */
  lemma EncodedText()
    ensures Encode(BytesOf("hello, world"))
            == BytesOf("Content-Length") + BytesOf(": ") + BytesOf("12") + BytesOf("\r\n\r\n") + BytesOf("hello, world")
  {
    TwelveInDecimal();
    NameIsContentLength();
    assert BytesOf(": ") == [COLON, SPACE] && BytesOf("12") == [49, 50] && BytesOf("\r\n\r\n") == BLANK;
  }

  lemma TwelveInDecimal()
    ensures Decimal(12) == [49, 50]
  {
    assert Decimal(1) == [49];
  }

  /** The same letter, or the other case of it. */
  predicate SameLetter(a: Byte, b: Byte) {
    a == b || (65 <= b <= 90 && a == b + 32) || (97 <= b <= 122 && a == b - 32)
  }

  predicate IsBlankPad(s: Bytes) {
    forall i :: 0 <= i < |s| ==> s[i] == 32 || 9 <= s[i] <= 13
  }

  lemma {:induction false} TrimFront(pad: Bytes, x: Bytes)
    requires IsBlankPad(pad) && x != [] && !IsSpace(x[0])
    ensures TrimLeft(pad + x) == x
  {
    if pad == [] {
      assert pad + x == x;
    } else {
      assert (pad + x)[1..] == pad[1..] + x;
      TrimFront(pad[1..], x);
    }
  }

  lemma {:induction false} TrimBack(x: Bytes, pad: Bytes)
    requires IsBlankPad(pad) && x != [] && !IsSpace(x[|x| - 1])
    ensures TrimRight(x + pad) == x
  {
    if pad == [] {
      assert x + pad == x;
    } else {
      assert (x + pad)[..|x + pad| - 1] == x + pad[..|pad| - 1];
      TrimBack(x, pad[..|pad| - 1]);
    }
  }

  lemma TrimPadded(pad: Bytes, x: Bytes, more: Bytes)
    requires IsBlankPad(pad) && IsBlankPad(more) && x != [] && !IsSpace(x[0]) && !IsSpace(x[|x| - 1])
    ensures Trim(pad + x + more) == x
  {
    assert pad + x + more == pad + (x + more);
    TrimFront(pad, x + more);
    TrimBack(x, more);
  }

  /** A length line, written with any case of letters and any blanks around its name and its number. */
  ghost predicate IsLengthLine(line: Bytes, n: nat) {
    exists a, name, b, c, d :: LengthParts(line, n, a, name, b, c, d)
  }

  predicate LengthParts(line: Bytes, n: nat, a: Bytes, name: Bytes, b: Bytes, c: Bytes, d: Bytes) {
    && line == (a + name + b) + [COLON] + (c + Decimal(n) + d)
    && |name| == 14
    && (forall i :: 0 <= i < 14 ==> SameLetter(name[i], "Content-Length"[i] as int as Byte))
    && IsBlankPad(a) && IsBlankPad(b) && IsBlankPad(c) && IsBlankPad(d)
  }

  lemma NameUnderstood(name: Bytes, a: Bytes, b: Bytes)
    requires |name| == 14 && forall i :: 0 <= i < 14 ==> SameLetter(name[i], "Content-Length"[i] as int as Byte)
    requires IsBlankPad(a) && IsBlankPad(b)
    ensures EqualFold(Trim(a + name + b), NAME) && COLON !in a + name + b
  {
    NameIsContentLength();
    assert forall i :: 0 <= i < 14 ==> NAME[i] == "Content-Length"[i] as int as Byte;
    assert forall i :: 0 <= i < 14 ==> SameLetter(name[i], NAME[i]);
    assert SameLetter(name[0], 67) && SameLetter(name[13], 104);
    TrimPadded(a, name, b);
    forall i | 0 <= i < 14
      ensures Lower(name[i]) == Lower(NAME[i]) && name[i] != COLON
    {
      assert NAME[i] != COLON;
    }
  }

  lemma NumberUnderstood(n: nat, c: Bytes, d: Bytes)
    requires IsBlankPad(c) && IsBlankPad(d)
    ensures Trim(c + Decimal(n) + d) == Decimal(n) && COLON !in c + Decimal(n) + d
  {
    TrimPadded(c, Decimal(n), d);
  }

  lemma LineParts(left: Bytes, right: Bytes)
    requires COLON !in left
    ensures var line := left + [COLON] + right;
            IndexOf(line, COLON) == |left| < |line| && line[..|left|] == left && line[|left| + 1..] == right
  {
    var line := left + [COLON] + right;
    assert line[..|left|] == left;
    IndexOfAt(line, COLON, |left|);
  }

  /** Such a line sets the length for the server and for the bridge, whatever lines came before. */
  lemma LengthLineCounts(line: Bytes, n: nat, length: int, other: Option<int>)
    requires IsLengthLine(line, n) && n <= MAX_INT64
    ensures HeaderLine(line, length) == Some(n)
    ensures BridgeLine(line, other) == Some(Some(n))
  {
    var a, name, b, c, d :| LengthParts(line, n, a, name, b, c, d);
    var left, right := a + name + b, c + Decimal(n) + d;
    NameUnderstood(name, a, b);
    NumberUnderstood(n, c, d);
    LineParts(left, right);
    IndexOfNone(right, COLON);
    assert right[..|right|] == right;
    NumberIsRead(n);
  }

  /** A line of another name is ignored by both, and one without a colon is an error for the server. */
  lemma OtherLines(left: Bytes, right: Bytes, length: int, other: Option<int>)
    requires COLON !in left && !EqualFold(Trim(left), NAME)
    ensures HeaderLine(left + [COLON] + right, length) == Some(length)
    ensures BridgeLine(left + [COLON] + right, other) == Some(other)
    ensures HeaderLine(left, length) == None
  {
    LineParts(left, right);
    IndexOfNone(left, COLON);
  }

  /** Header lines may end in a line feed alone. */
  lemma LineFeedEnds(line: Bytes, rest: Bytes, length: int)
    requires line != [] && CR !in line && LF !in line
    ensures ReadHeaders(line + [LF] + rest, length)
            == match HeaderLine(line, length)
               case None => Bad(rest)
               case Some(next) => ReadHeaders(rest, next)
  {
    var input := line + [LF] + rest;
    assert input[..|line|] == line;
    IndexOfAt(input, LF, |line|);
    assert input[..|line| + 1] == line + [LF] && input[|line| + 1..] == rest;
    assert line[|line| - 1] in line;
    assert TrimLineEnd(line) == line;
    assert (line + [LF])[..|line|] == line;
    assert line + [LF] != CRLF by {
      assert line[0] in line;
    }
  }

  lemma {:induction false} CarriageReturnEnds(line: Bytes, rest: Bytes, length: int)
    requires CR !in line && LF !in line
    ensures ReadHeaders(line + CRLF + rest, length)
            == if line == [] then Length(length, rest)
               else match HeaderLine(line, length)
                 case None => Bad(rest)
                 case Some(next) => ReadHeaders(rest, next)
  {
    var input := line + CRLF + rest;
    assert input[..|line| + 1] == line + [CR];
    assert forall i :: 0 <= i < |line| ==> line[i] in line;
    IndexOfAt(input, LF, |line| + 1);
    assert input[..|line| + 2] == line + CRLF && input[|line| + 2..] == rest;
    assert (line + CRLF)[..|line| + 1] == line + [CR] && (line + [CR])[..|line|] == line;
    if line != [] {
      assert line[|line| - 1] in line;
      assert TrimLineEnd(line) == line;
      assert TrimLineEnd(line + [CR]) == line;
      assert TrimLineEnd(line + CRLF) == line;
      assert (line + CRLF)[0] == line[0] && line[0] in line;
    }
  }

  lemma {:induction false} OneLineHeader(line: Bytes, n: int, rest: Bytes)
    requires line != [] && CR !in line && LF !in line && HeaderLine(line, -1) == Some(n)
    ensures ReadHeaders(line + CRLF + CRLF + rest, -1) == Length(n, rest)
  {
    var input, more := line + CRLF + CRLF + rest, CRLF + rest;
    assert input == line + CRLF + more;
    CarriageReturnEnds(line, more, -1);
    assert more == [] + CRLF + rest;
    CarriageReturnEnds([], rest, n);
  }

  lemma {:induction false} BodyByLength(input: Bytes, n: int, rest: Bytes)
    requires ReadHeaders(input, -1) == Length(n, rest)
    ensures var r := ReadFrom(input);
            if n < 0 then r == Malformed(rest)
            else if n > 0x1_0000_0000_0000 then r == Panics(rest)
            else if n <= |rest| then r.Payload? && |r.payload| == n && r.payload + r.rest == rest
            else if rest == [] then r == EndOfInput
            else r == Truncated
  {
  }

  /** What the server reads behind a header of one line that gives the length `n`: a missing or negative length is
      an error, one of more than 2^48 a panic, and otherwise as many bytes are read, if there are. */
  lemma {:induction false} ReadByLength(line: Bytes, n: int, rest: Bytes)
    requires line != [] && CR !in line && LF !in line && HeaderLine(line, -1) == Some(n)
    ensures var r := ReadFrom(line + CRLF + CRLF + rest);
            if n < 0 then r == Malformed(rest)
            else if n > 0x1_0000_0000_0000 then r == Panics(rest)
            else if n <= |rest| then r.Payload? && |r.payload| == n && r.payload + r.rest == rest
            else if rest == [] then r == EndOfInput
            else r == Truncated
  {
    OneLineHeader(line, n, rest);
    BodyByLength(line + CRLF + CRLF + rest, n, rest);
  }

  lemma {:induction false} SignThen(sign: Byte, n: nat)
    requires sign == PLUS || sign == MINUS
    ensures var s := [sign] + Decimal(n);
            && HasSign(s) && !IsSpace(s[0]) && s[1..] == Decimal(n)
            && AllDigits(s[1..]) && Digits(s[1..]) == n && LeadingDigits(s[1..]) == s[1..]
  {
    DigitsOfDecimal(n);
    LeadingAllDigits(Decimal(n));
    assert ([sign] + Decimal(n))[1..] == Decimal(n);
  }

  /** A number with a sign, and one that 64 bits do not hold, which the server refuses. */
  lemma {:induction false} SignedNumber(sign: Byte, n: nat)
    requires sign == PLUS || sign == MINUS
    ensures var k := if sign == MINUS then -(n as int) else n as int;
            && ParseInt([sign] + Decimal(n)) == Some(k)
            && Atoi([sign] + Decimal(n))
               == if -0x8000_0000_0000_0000 <= k <= 0x7fff_ffff_ffff_ffff then Some(k) else None
  {
    SignThen(sign, n);
  }

  lemma {:induction false} TooLarge(n: nat)
    requires n > 0x7fff_ffff_ffff_ffff
    ensures Atoi(Decimal(n)) == None && ParseInt(Decimal(n)) == Some(n)
  {
    var d := Decimal(n);
    DigitsOfDecimal(n);
    LeadingAllDigits(d);
    assert !HasSign(d) && !IsSpace(d[0]);
  }

  /** The server takes a number only as a whole; the bridge takes the digits in front. */
  lemma NumbersAreReadDifferently(n: nat, x: Byte, more: Bytes)
    requires !IsDigit(x)
    ensures Atoi(Decimal(n) + [x] + more) == None
    ensures ParseInt(Decimal(n) + [x] + more) == Some(n)
  {
    var d, s := Decimal(n), Decimal(n) + [x] + more;
    DigitsOfDecimal(n);
    assert s[0] == d[0] && IsDigit(s[0]) && s[|d|] == x;
    assert !HasSign(s) && !AllDigits(s);
    LeadingStops(d, x, more);
  }

  lemma {:induction false} LeadingStops(d: Bytes, x: Byte, more: Bytes)
    requires (forall i :: 0 <= i < |d| ==> IsDigit(d[i])) && !IsDigit(x)
    ensures LeadingDigits(d + [x] + more) == d
  {
    var s := d + [x] + more;
    if d == [] {
      assert s[0] == x;
    } else {
      assert s[1..] == d[1..] + [x] + more;
      LeadingStops(d[1..], x, more);
      assert s[0] == d[0] && d == [d[0]] + d[1..];
    }
  }

  // ----- from a stream -----

  lemma HeaderLineRead(payload: Bytes)
    requires |payload| <= MAX_ALLOC
    ensures HeaderLine(HeaderOf(payload), -1) == Some(|payload|)
  {
    HeaderParts(payload);
    NumberIsRead(|payload|);
  }

  lemma LineEndTrimmed(h: Bytes)
    requires h != [] && CR !in h && LF !in h
    ensures TrimLineEnd(h + CRLF) == h
  {
    assert h[|h| - 1] in h;
    assert TrimLineEnd(h) == h;
    assert (h + [CR])[..|h|] == h;
    assert TrimLineEnd(h + [CR]) == h;
    assert (h + CRLF)[..|h| + 1] == h + [CR];
  }

  lemma FrameHeadersRead(payload: Bytes, more: Bytes)
    requires |payload| <= MAX_ALLOC
    ensures ReadHeaders(Encode(payload) + more, -1) == Length(|payload|, payload + more)
  {
    EncodedThen(payload, more);
    HeaderLineThen(payload, CRLF + (payload + more));
    BlankLineRead(payload + more, |payload|);
  }

  lemma EncodedThen(payload: Bytes, more: Bytes)
    ensures Encode(payload) + more == (HeaderOf(payload) + CRLF) + (CRLF + (payload + more))
  {
    assert BLANK == CRLF + CRLF;
  }

  lemma FrameRead(payload: Bytes, more: Bytes)
    requires |payload| <= MAX_ALLOC
    ensures ReadFrom(Encode(payload) + more) == Payload(payload, more)
  {
    FrameHeadersRead(payload, more);
    assert (payload + more)[..|payload|] == payload && (payload + more)[|payload|..] == more;
  }

  /** All frames of a stream, and what follows them: its end, or an error. */
  function ReadAll(input: Bytes): (seq<Bytes>, FrameRead)
    decreases |input|
  {
    match ReadFrom(input)
    case Payload(payload, rest) => var (more, end) := ReadAll(rest); ([payload] + more, end)
    case end => ([], end)
  }

  lemma {:induction false} ReadAllEncoded(payloads: seq<Bytes>, more: Bytes, all: seq<Bytes>, end: FrameRead)
    requires Allocatable(payloads) && ReadAll(more) == (all, end)
    ensures ReadAll(EncodeAll(payloads) + more) == (payloads + all, end)
  {
    if payloads == [] {
      assert EncodeAll(payloads) + more == more;
      assert payloads + all == all;
    } else {
      ReadAllEncoded(payloads[1..], more, all, end);
      ReadAllNext(payloads, more, all, end);
    }
  }

  lemma ReadAllNext(payloads: seq<Bytes>, more: Bytes, all: seq<Bytes>, end: FrameRead)
    requires payloads != [] && Allocatable(payloads)
    requires ReadAll(EncodeAll(payloads[1..]) + more) == (payloads[1..] + all, end)
    ensures ReadAll(EncodeAll(payloads) + more) == (payloads + all, end)
  {
    FirstOfAll(payloads, more, all);
    ReadAllStep(payloads[0], EncodeAll(payloads[1..]) + more, payloads[1..] + all, end);
  }

  lemma FirstOfAll(payloads: seq<Bytes>, more: Bytes, all: seq<Bytes>)
    requires payloads != []
    ensures EncodeAll(payloads) + more == Encode(payloads[0]) + (EncodeAll(payloads[1..]) + more)
    ensures payloads + all == [payloads[0]] + (payloads[1..] + all)
  {
    Associates(Encode(payloads[0]), EncodeAll(payloads[1..]), more);
    assert payloads == [payloads[0]] + payloads[1..];
    Associates([payloads[0]], payloads[1..], all);
  }

  lemma Associates<T>(a: seq<T>, b: seq<T>, c: seq<T>)
    ensures (a + b) + c == a + (b + c)
  {
  }

  lemma ReadAllStep(payload: Bytes, rest: Bytes, all: seq<Bytes>, end: FrameRead)
    requires |payload| <= MAX_ALLOC && ReadAll(rest) == (all, end)
    ensures ReadAll(Encode(payload) + rest) == ([payload] + all, end)
  {
    FrameRead(payload, rest);
  }

  predicate Allocatable(payloads: seq<Bytes>) {
    forall i :: 0 <= i < |payloads| ==> |payloads[i]| <= MAX_ALLOC
  }

  lemma NothingReads()
    ensures ReadAll([]) == ([], EndOfInput)
  {
    NoLineLeft([], -1);
  }

  /** Repeated reading returns exactly the payloads written, in order, and then the end of the stream. */
  lemma StreamRoundTrip(payloads: seq<Bytes>)
    requires Allocatable(payloads)
    ensures ReadAll(EncodeAll(payloads)) == (payloads, EndOfInput)
  {
    NothingReads();
    ReadAllEncoded(payloads, [], [], EndOfInput);
    assert EncodeAll(payloads) + [] == EncodeAll(payloads);
    assert payloads + [] == payloads;
  }

  lemma NoLineLeft(rest: Bytes, length: int)
    requires LF !in rest
    ensures ReadHeaders(rest, length) == NoMore
  {
    IndexOfNone(rest, LF);
  }

  lemma BlankLineRead(body: Bytes, length: int)
    ensures ReadHeaders(CRLF + body, length) == Length(length, body)
  {
    var rest := CRLF + body;
    assert rest[..1] == [CR];
    IndexOfAt(rest, LF, 1);
    assert rest[..2] == CRLF && rest[2..] == body;
  }

  /** A frame that breaks off in its header, or before the first byte of its payload, reads like the end
      of the stream; only a payload of which some bytes came is reported.  It never reads as a payload. */
  lemma BrokenOffFrame(payload: Bytes, cut: nat)
    requires |payload| <= MAX_ALLOC && 0 < cut < |Encode(payload)|
    ensures ReadFrom(Encode(payload)[..cut]) == if cut <= |HeaderOf(payload)| + 4 then EndOfInput else Truncated
  {
    var h, input := HeaderOf(payload), Encode(payload)[..cut];
    HeaderParts(payload);
    assert Encode(payload) == (h + CRLF) + (CRLF + payload);
    if cut <= |h| + 1 {
      assert input == (h + [CR])[..cut];
      NoLineLeft(input, -1);
    } else {
      var rest := input[|h| + 2..];
      assert input == (h + CRLF) + rest;
      HeaderLineThen(payload, rest);
      if cut < |h| + 4 {
        assert rest == (if cut == |h| + 2 then [] else [CR]);
        NoLineLeft(rest, |payload|);
      } else {
        assert rest == CRLF + payload[..cut - |h| - 4];
        BlankLineRead(payload[..cut - |h| - 4], |payload|);
      }
    }
  }

  lemma HeaderLineThen(payload: Bytes, rest: Bytes)
    requires |payload| <= MAX_ALLOC
    ensures ReadHeaders((HeaderOf(payload) + CRLF) + rest, -1) == ReadHeaders(rest, |payload|)
  {
    var h := HeaderOf(payload);
    HeaderParts(payload);
    HeaderLineRead(payload);
    FirstLine(h, rest);
    LineEndTrimmed(h);
  }

  /** One byte of a frame, and then nothing: the reader reports the same as for an empty stream. */
  lemma OneByteReadsAsTheEnd()
    ensures Encode([])[..1] == [67] && ReadFrom([67]) == EndOfInput == ReadFrom([])
  {
    BrokenOffFrame([], 1);
    assert Encode([])[..1] == [67];
  }

  /** A stream whose last frame breaks off: all frames before it are read, and then it ends as if that
      frame had never begun, unless some of its payload came. */
  lemma StreamBrokenOff(payloads: seq<Bytes>, last: Bytes, cut: nat)
    requires Allocatable(payloads) && |last| <= MAX_ALLOC && cut < |Encode(last)|
    ensures ReadAll(EncodeAll(payloads) + Encode(last)[..cut])
            == (payloads, if cut <= |HeaderOf(last)| + 4 then EndOfInput else Truncated)
  {
    var more, end := Encode(last)[..cut], if cut <= |HeaderOf(last)| + 4 then EndOfInput else Truncated;
    if cut == 0 {
      assert more == [];
      NothingReads();
    } else {
      BrokenOffFrame(last, cut);
    }
    ReadAllEncoded(payloads, more, [], end);
    assert payloads + [] == payloads;
  }

  lemma FirstLine(h: Bytes, rest: Bytes)
    requires h != [] && CR !in h && LF !in h
    ensures var input := (h + CRLF) + rest;
            IndexOf(input, LF) == |h| + 1 && input[..|h| + 2] == h + CRLF && input[|h| + 2..] == rest
    ensures h + CRLF != CRLF
  {
    var input := (h + CRLF) + rest;
    assert input[..|h| + 1] == h + [CR];
    IndexOfAt(input, LF, |h| + 1);
  }

  // ----- from chunks -----

  lemma {:induction false} BlankStays(s: Bytes, more: Bytes)
    requires FindBlank(s).Some?
    ensures FindBlank(s + more) == FindBlank(s)
  {
    assert (s + more)[..4] == s[..4];
    if s[..4] != BLANK {
      assert (s + more)[1..] == s[1..] + more;
      BlankStays(s[1..], more);
    }
  }

  lemma StartStays(buffer: Bytes, more: Bytes)
    requires !StartOf(buffer).Wait?
    ensures StartOf(buffer + more) == StartOf(buffer)
  {
    BlankStays(buffer, more);
    var k := FindBlank(buffer).value;
    assert (buffer + more)[..k] == buffer[..k];
  }

  /** What more bytes make of an extraction: after an error they are only kept. */
  function Continue(x: Extraction, more: Bytes): Extraction {
    if x.failed then x.(rest := x.rest + more) else Behind(x.messages, Extract(x.rest + more))
  }

  lemma ContinueAfter(message: Bytes, x: Extraction, more: Bytes)
    ensures Continue(After(message, x), more) == After(message, Continue(x, more))
  {
    assert [message] + (x.messages + Extract(x.rest + more).messages)
        == [message] + x.messages + Extract(x.rest + more).messages;
  }

  /** Bytes that come later only continue what was extracted before. */
  lemma {:induction false} ExtractAppend(buffer: Bytes, more: Bytes)
    ensures Extract(buffer + more) == Continue(Extract(buffer), more)
    decreases |buffer|
  {
    var f := StartOf(buffer);
    if f.Frame? {
      StartStays(buffer, more);
      var message, rest := buffer[f.start..f.end], buffer[f.end..];
      assert (buffer + more)[f.start..f.end] == message;
      assert (buffer + more)[f.end..] == rest + more;
      ExtractAppend(rest, more);
      ContinueAfter(message, Extract(rest), more);
    } else if f.Broken? {
      StartStays(buffer, more);
    }
  }

  function Concat(chunks: seq<Bytes>): Bytes {
    if chunks == [] then [] else Concat(chunks[..|chunks| - 1]) + chunks[|chunks| - 1]
  }

  /** A session that is not destroyed has emitted and holds what one extraction of all its bytes gives;
      it is destroyed exactly if that extraction fails. */
  lemma {:induction false} EmitIsExtract(chunks: seq<Bytes>)
    ensures var e, x := Emit(chunks), Extract(Concat(chunks));
            && e.destroyed == x.failed
            && (!e.destroyed ==> e.emitted == x.messages && e.rest == x.rest)
  {
    if chunks != [] {
      var front, last := chunks[..|chunks| - 1], chunks[|chunks| - 1];
      EmitIsExtract(front);
      ExtractAppend(Concat(front), last);
    }
  }

  /** The chunk that completes a broken header destroys the session: what was emitted are the frames
      complete before that chunk, so the frames it completes itself are lost. */
  lemma DestroyedEmits(chunks: seq<Bytes>, k: nat)
    requires k < |chunks| && !Extract(Concat(chunks[..k])).failed && Extract(Concat(chunks[..k + 1])).failed
    ensures Emit(chunks).destroyed && Emit(chunks).emitted == Extract(Concat(chunks[..k])).messages
  {
    EmitIsExtract(chunks[..k]);
    EmitIsExtract(chunks[..k + 1]);
    DestroyedBy(chunks, k);
  }

  lemma DestroyedBy(chunks: seq<Bytes>, k: nat)
    requires k < |chunks| && !Emit(chunks[..k]).destroyed && Emit(chunks[..k + 1]).destroyed
    ensures Emit(chunks).destroyed && Emit(chunks).emitted == Emit(chunks[..k]).emitted
  {
    EmissionStays(chunks, k + 1);
    EmitStep(chunks, k);
  }

  lemma EmitStep(chunks: seq<Bytes>, k: nat)
    requires k < |chunks|
    ensures Emit(chunks[..k + 1]) == Feed(Emit(chunks[..k]), chunks[k])
  {
    assert chunks[..k + 1][..k] == chunks[..k];
  }

  /** Every destroyed session has such a chunk. */
  lemma {:induction false} DestroyingChunk(chunks: seq<Bytes>)
    requires Emit(chunks).destroyed
    ensures exists k: nat :: Destroys(chunks, k)
  {
    var n := |chunks| - 1;
    var front := chunks[..n];
    assert chunks[..n + 1] == chunks;
    EmitIsExtract(chunks);
    EmitIsExtract(front);
    if Emit(front).destroyed {
      DestroyingChunk(front);
      var k: nat :| Destroys(front, k);
      assert front[..k] == chunks[..k] && front[..k + 1] == chunks[..k + 1];
      assert Destroys(chunks, k);
    } else {
      assert Destroys(chunks, n);
    }
  }

  predicate Destroys(chunks: seq<Bytes>, k: nat) {
    k < |chunks| && !Extract(Concat(chunks[..k])).failed && Extract(Concat(chunks[..k + 1])).failed
  }

  lemma {:induction false} RestIsSuffix(buffer: Bytes)
    ensures var rest := Extract(buffer).rest; |rest| <= |buffer| && buffer[|buffer| - |rest|..] == rest
    decreases |buffer|
  {
    var f := StartOf(buffer);
    if f.Frame? {
      RestIsSuffix(buffer[f.end..]);
      SuffixOfSuffix(buffer, f.end, |Extract(buffer[f.end..]).rest|);
    }
  }

  lemma SuffixOfSuffix(s: Bytes, from: nat, n: nat)
    requires from <= |s| && n <= |s| - from
    ensures s[from..][|s| - from - n..] == s[|s| - n..]
  {
  }

  function BeforeRest(buffer: Bytes): Bytes {
    RestIsSuffix(buffer);
    buffer[..|buffer| - |Extract(buffer).rest|]
  }

  /** Before the rest there are whole frames only. */
  lemma {:induction false} ExtractBeforeRest(buffer: Bytes)
    ensures Extract(BeforeRest(buffer)) == Extraction(Extract(buffer).messages, [], false)
    decreases |buffer|
  {
    var f := StartOf(buffer);
    if f.Frame? {
      var rest := buffer[f.end..];
      ExtractBeforeRest(rest);
      BeforeRestStep(buffer);
      FrameThenWhole(buffer, BeforeRest(rest));
    } else {
      assert BeforeRest(buffer) == [];
      NothingExtracted();
    }
  }

  lemma BeforeRestStep(buffer: Bytes)
    requires StartOf(buffer).Frame?
    ensures var f := StartOf(buffer); BeforeRest(buffer) == buffer[..f.end] + BeforeRest(buffer[f.end..])
  {
    RestIsSuffix(buffer[StartOf(buffer).end..]);
  }

  lemma NothingExtracted()
    ensures Extract([]) == Extraction([], [], false)
  {
    assert StartOf([]) == Wait;
  }

  /** The first frame of a buffer, with other bytes behind it. */
  lemma FrameThenWhole(buffer: Bytes, whole: Bytes)
    requires StartOf(buffer).Frame?
    ensures var f := StartOf(buffer); Extract(buffer[..f.end] + whole) == After(buffer[f.start..f.end], Extract(whole))
  {
    var f := StartOf(buffer);
    var all := buffer[..f.end] + whole;
    FrameStands(buffer, f.end);
    StartStays(buffer[..f.end], whole);
    assert all[f.start..f.end] == buffer[f.start..f.end] && all[f.end..] == whole;
  }

  /** A complete frame is one without the bytes behind it. */
  lemma FrameStands(buffer: Bytes, end: nat)
    requires StartOf(buffer).Frame? && StartOf(buffer).end == end
    ensures StartOf(buffer[..end]) == StartOf(buffer)
  {
    var k := FindBlank(buffer).value;
    BlankIn(buffer, end);
    assert buffer[..end][..k] == buffer[..k];
  }

  lemma {:induction false} BlankFound(s: Bytes, k: nat)
    requires k + 4 <= |s| && s[k..k + 4] == BLANK
    ensures FindBlank(s).Some?
  {
    if k > 0 && s[..4] != BLANK {
      assert s[1..][k - 1..k + 3] == s[k..k + 4];
      BlankFound(s[1..], k - 1);
    }
  }

  lemma BlankInFront(front: Bytes, more: Bytes, k: nat)
    requires FindBlank(front + more) == Some(k) && k + 4 <= |front|
    ensures FindBlank(front) == Some(k)
  {
    assert front[k..k + 4] == (front + more)[k..k + 4];
    BlankFound(front, k);
    BlankStays(front, more);
  }

  lemma BlankIn(s: Bytes, end: nat)
    requires FindBlank(s).Some? && FindBlank(s).value + 4 <= end <= |s|
    ensures FindBlank(s[..end]) == FindBlank(s)
  {
    var front, more := s[..end], s[end..];
    assert s == front + more;
    BlankInFront(front, more, FindBlank(s).value);
  }

  /** When the cut matters: what is emitted depends on the bytes alone, however they are cut into chunks,
      if and only if no header is broken, or no frame is complete before the broken one. */
  lemma CutsDoNotMatterIff(bytes: Bytes)
    ensures EmitsAlike(bytes) <==> !Extract(bytes).failed || Extract(bytes).messages == []
  {
    var x := Extract(bytes);
    if !x.failed || x.messages == [] {
      forall chunks | Concat(chunks) == bytes
        ensures Emit(chunks).emitted == x.messages
      {
        EmittedOf(chunks);
      }
    } else {
      InOneChunk(bytes);
      InTwoChunks(bytes);
    }
  }

  /** In one chunk, everything before the broken header is lost. */
  lemma InOneChunk(bytes: Bytes)
    requires Extract(bytes).failed
    ensures Concat([bytes]) == bytes && Emit([bytes]).emitted == []
  {
    OneChunk(bytes);
    NothingExtracted();
    DestroyedEmits([bytes], 0);
  }

  /** Cut before the broken header, nothing is. */
  lemma InTwoChunks(bytes: Bytes)
    requires Extract(bytes).failed
    ensures var two := [BeforeRest(bytes), Extract(bytes).rest];
            Concat(two) == bytes && Emit(two).emitted == Extract(bytes).messages
  {
    WholeAndRest(bytes);
    ExtractBeforeRest(bytes);
    BrokenInTheSecond(BeforeRest(bytes), Extract(bytes).rest);
  }

  lemma WholeAndRest(bytes: Bytes)
    ensures BeforeRest(bytes) + Extract(bytes).rest == bytes
  {
    RestIsSuffix(bytes);
  }

  lemma BrokenInTheSecond(a: Bytes, b: Bytes)
    requires !Extract(a).failed && Extract(a + b).failed
    ensures Concat([a, b]) == a + b && Emit([a, b]).emitted == Extract(a).messages
  {
    TwoChunks(a, b);
    DestroyedEmits([a, b], 1);
  }

  /** All ways to cut the bytes into chunks emit the same. */
  ghost predicate EmitsAlike(bytes: Bytes) {
    forall chunks, other :: Concat(chunks) == bytes && Concat(other) == bytes ==>
      Emit(chunks).emitted == Emit(other).emitted
  }

  /** Whatever the cut, a session emits no more than its bytes hold. */
  lemma EmittedOf(chunks: seq<Bytes>)
    ensures Emit(chunks).emitted <= Extract(Concat(chunks)).messages
    ensures !Extract(Concat(chunks)).failed ==> Emit(chunks).emitted == Extract(Concat(chunks)).messages
  {
    EmitIsExtract(chunks);
    if Emit(chunks).destroyed {
      DestroyingChunk(chunks);
      var k: nat :| Destroys(chunks, k);
      DestroyedEmits(chunks, k);
      ConcatSplits(chunks, k);
      ExtractAppend(Concat(chunks[..k]), Concat(chunks[k..]));
    }
  }

  lemma {:induction false} ConcatSplits(chunks: seq<Bytes>, k: nat)
    requires k <= |chunks|
    ensures Concat(chunks) == Concat(chunks[..k]) + Concat(chunks[k..])
  {
    if k == |chunks| {
      assert chunks[..k] == chunks && chunks[k..] == [];
    } else {
      var n := |chunks| - 1;
      ConcatSplits(chunks[..n], k);
      assert chunks[..n][..k] == chunks[..k] && chunks[..n][k..] == chunks[k..][..n - k];
    }
  }

  lemma OneChunk(a: Bytes)
    ensures Concat([a]) == a && Concat([a][..0]) == [] && Concat([a][..1]) == a
  {
    assert [a][..0] == [] && [a][..1] == [a];
    assert Concat([a]) == Concat([a][..0]) + a;
  }

  lemma TwoChunks(a: Bytes, b: Bytes)
    ensures Concat([a, b]) == a + b && Concat([a, b][..1]) == a && Concat([a, b][..2]) == a + b
  {
    assert [a, b][..1] == [a] && [a, b][..2] == [a, b];
    OneChunk(a);
  }

  /** A whole frame and a broken header: in one chunk the frame is lost, in two it gets through. */
  lemma FrameLostOrNot(payload: Bytes, bad: Bytes)
    requires StartOf(bad) == Broken
    ensures Emit([Encode(payload) + bad]).emitted == []
    ensures Emit([Encode(payload), bad]).emitted == [payload]
    ensures StartOf(BLANK) == Broken
  {
    var frame := Encode(payload);
    FrameThen(payload, bad);
    FrameThen(payload, []);
    assert frame + [] == frame;
    NothingExtracted();
    InOneChunk(frame + bad);
    BrokenInTheSecond(frame, bad);
    BlankIsBroken();
  }

  lemma BlankIsBroken()
    ensures StartOf(BLANK) == Broken
  {
    assert BLANK[..4] == BLANK;
    assert BLANK[..0] == [];
    assert SplitLines([]) == [[]];
    var lines: seq<Bytes> := [[]];
    assert lines[..0] == [];
    assert LengthIn(lines) == Some(None);
  }

  lemma FrameThen(payload: Bytes, more: Bytes)
    ensures Extract(Encode(payload) + more) == After(payload, Extract(more))
  {
    var all, h := Encode(payload) + more, |HeaderOf(payload)|;
    FrameStart(payload, more);
    assert all[h + 4..h + 4 + |payload|] == payload && all[h + 4 + |payload|..] == more;
  }

  lemma {:induction false} BlankAfter(h: Bytes, more: Bytes)
    requires CR !in h
    ensures FindBlank(h + BLANK + more) == Some(|h|)
  {
    var s := h + BLANK + more;
    if h == [] {
      assert s[..4] == BLANK;
    } else {
      assert s[0] == h[0] && h[0] in h;
      assert s[..4][0] != BLANK[0];
      assert s[1..] == h[1..] + BLANK + more;
      BlankAfter(h[1..], more);
    }
  }

  lemma {:induction false} OneLine(h: Bytes)
    requires CR !in h
    ensures SplitLines(h) == [h]
  {
    if |h| >= 2 {
      assert h[0] in h;
      assert h[..2][0] != CRLF[0];
      OneLine(h[1..]);
      assert [h[0]] + h[1..] == h;
    }
  }

  lemma BridgeHeaderRead(payload: Bytes)
    ensures LengthIn([HeaderOf(payload)]) == Some(Some(|payload|))
  {
    var h := HeaderOf(payload);
    HeaderParts(payload);
    NumberIsRead(|payload|);
    var value := h[|NAME| + 1..];
    assert value == [SPACE] + Decimal(|payload|);
    IndexOfNone(value, COLON);
    assert value[..|value|] == value;
    assert [h][..0] == [];
    assert LengthIn([]) == Some(None);
  }

  lemma HeaderFound(h: Bytes, body: Bytes)
    requires CR !in h
    ensures var s := h + BLANK + body;
            FindBlank(s) == Some(|h|) && SplitLines(s[..|h|]) == [h]
  {
    BlankAfter(h, body);
    assert (h + BLANK + body)[..|h|] == h;
    OneLine(h);
  }

  lemma FrameStart(payload: Bytes, more: Bytes)
    ensures var h := |HeaderOf(payload)|;
            StartOf(Encode(payload) + more) == Frame(h + 4, h + 4 + |payload|)
  {
    var h := HeaderOf(payload);
    HeaderParts(payload);
    HeaderFound(h, payload + more);
    BridgeHeaderRead(payload);
    assert Encode(payload) + more == h + BLANK + (payload + more);
  }

  lemma {:induction false} ExtractEncoded(payloads: seq<Bytes>)
    ensures Extract(EncodeAll(payloads)) == Extraction(payloads, [], false)
  {
    if payloads != [] {
      FrameThen(payloads[0], EncodeAll(payloads[1..]));
      ExtractEncoded(payloads[1..]);
      assert payloads == [payloads[0]] + payloads[1..];
    }
  }

  /** However a stream of frames is cut into chunks, the session emits exactly the payloads and keeps
      nothing back. */
  lemma ChunkedRoundTrip(payloads: seq<Bytes>, chunks: seq<Bytes>)
    requires Concat(chunks) == EncodeAll(payloads)
    ensures Emit(chunks) == Emission(payloads, [], false)
  {
    EmitIsExtract(chunks);
    ExtractEncoded(payloads);
  }
}
