/** What is framed is read back: any mix of line and header framing, with blank lines in between. */
module FramingRoundTrip {
  import opened Prelude
  import opened Numerals
  import opened Framing

  /** A line with its line end: any number of carriage returns, then a newline. */
  function Eol(crs: nat): string {
    seq(crs, _ => '\r') + "\n"
  }

  datatype Line = Line(text: string, crs: nat) {
    function Raw(): string {
      text + Eol(crs)
    }

    /** Text of one line that does not run into its line end. */
    ghost predicate Clean() {
      (forall i :: 0 <= i < |text| ==> text[i] != '\n') && (text != "" ==> text[|text| - 1] != '\r')
    }
  }

  function RawLines(lines: seq<Line>): string {
    if |lines| == 0 then "" else lines[0].Raw() + RawLines(lines[1..])
  }

  /** A message as a client may send it, after some blank lines. */
  datatype Frame =
    | OneLine(blanks: seq<nat>, line: Line)
    | HeaderBlock(blanks: seq<nat>, header: seq<Line>, gap: nat, content: string)
  {
    function Body(): string {
      if OneLine? then line.text else content
    }

    function Blanks(): string {
      RawLines(seq(|blanks|, i requires 0 <= i < |blanks| => Line("", blanks[i])))
    }

    function Raw(): string {
      Blanks() + if OneLine? then line.Raw() else RawLines(header) + Eol(gap) + content
    }

    /** What a client may send: one line, or header lines of which any number declare a length, and a body. */
    ghost predicate Ok() {
      Body() != "" &&
      match this
      case OneLine(_, line) => line.Clean()
      case HeaderBlock(_, header, _, _) => |header| > 0 && HeaderOk(header)
    }

    /** The line is not a length header; the block starts with one, and the last declared length is right. */
    predicate Readable()
      requires HeaderBlock? ==> |header| > 0
    {
      match this
      case OneLine(_, line) => !IsLengthHeader(line.text)
      case HeaderBlock(_, header, _, content) => IsLengthHeader(header[0].text) && Declared(header, 0) == |content|
    }
  }

  /** Non-empty header lines whose lengths, where they are length headers, all parse. */
  ghost predicate HeaderOk(header: seq<Line>) {
    forall line <- header ::
      line.Clean() && line.text != "" && (IsLengthHeader(line.text) ==> ParseContentLength(line.text).Some?)
  }

  /** The last declared length. */
  function Declared(header: seq<Line>, length: int): int {
    if |header| == 0 then length
    else
      var text := header[0].text;
      var parsed := ParseContentLength(text);
      Declared(header[1..], if IsLengthHeader(text) && parsed.Some? then parsed.value else length)
  }

  function RawFrames(frames: seq<Frame>): string {
    if |frames| == 0 then "" else frames[0].Raw() + RawFrames(frames[1..])
  }

  function Bodies(frames: seq<Frame>): seq<string> {
    seq(|frames|, i requires 0 <= i < |frames| => frames[i].Body())
  }

  // ---------------------------------------------------------------- one line

  lemma LineLengthIs(s: string, n: nat)
    requires n < |s| && s[n] == '\n' && forall i :: 0 <= i < n ==> s[i] != '\n'
    ensures LineLength(s) == n
  {}

  lemma FirstLineIs(line: Line, rest: string)
    requires line.Clean()
    ensures HasLine(line.Raw() + rest)
    ensures FirstLine(line.Raw() + rest) == line.Raw() && AfterLine(line.Raw() + rest) == rest
  {
    var s, n := line.Raw() + rest, |line.text| + line.crs;
    assert |line.Raw()| == n + 1;
    forall i | 0 <= i < n
      ensures s[i] != '\n'
    {
      assert s[i] == if i < |line.text| then line.text[i] else '\r';
    }
    LineLengthIs(s, n);
  }

  lemma {:induction false} TrimReturns(text: string, crs: nat)
    requires text != "" ==> text[|text| - 1] != '\r' && text[|text| - 1] != '\n'
    ensures TrimEol(text + seq(crs, _ => '\r')) == text
    decreases crs
  {
    var s := text + seq(crs, _ => '\r');
    if crs == 0 {
      assert s == text;
    } else {
      assert s[..|s| - 1] == text + seq(crs - 1, _ => '\r');
      TrimReturns(text, crs - 1);
    }
  }

  lemma TrimRaw(line: Line)
    requires line.Clean()
    ensures TrimEol(line.Raw()) == line.text
  {
    var s := line.Raw();
    assert s[..|s| - 1] == line.text + seq(line.crs, _ => '\r');
    TrimReturns(line.text, line.crs);
  }

  lemma BlankSkipped(crs: nat, rest: string)
    ensures ReadMessage(Line("", crs).Raw() + rest) == ReadMessage(rest)
  {
    FirstLineIs(Line("", crs), rest);
    TrimRaw(Line("", crs));
  }

  lemma {:induction false} BlanksSkipped(blanks: seq<Line>, rest: string)
    requires forall b <- blanks :: b.text == ""
    ensures ReadMessage(RawLines(blanks) + rest) == ReadMessage(rest)
  {
    if |blanks| == 0 {
      assert RawLines(blanks) + rest == rest;
    } else {
      assert RawLines(blanks) + rest == Line("", blanks[0].crs).Raw() + (RawLines(blanks[1..]) + rest);
      BlankSkipped(blanks[0].crs, RawLines(blanks[1..]) + rest);
      BlanksSkipped(blanks[1..], rest);
    }
  }

  /** A line is returned as it was sent exactly when it is not empty, not a header and does not end in a return. */
  lemma LineReadBackIff(text: string, rest: string)
    requires forall i :: 0 <= i < |text| ==> text[i] != '\n'
    ensures ReadMessage(text + "\n" + rest) == Message(text, rest) <==>
            text != "" && text[|text| - 1] != '\r' && !IsLengthHeader(text)
  {
    var s := text + "\n" + rest;
    LineLengthIs(s, |text|);
    assert FirstLine(s) == text + "\n" && AfterLine(s) == rest;
    assert (text + "\n")[..|text|] == text;
    assert TrimEol(text + "\n") == TrimEol(text);
  }

  // ---------------------------------------------------------------- header blocks

  lemma {:induction false} HeadersRead(header: seq<Line>, gap: nat, tail: string, length: int)
    requires HeaderOk(header)
    ensures ReadHeaders(RawLines(header) + Eol(gap) + tail, length) == ReadBody(tail, Declared(header, length))
  {
    if |header| == 0 {
      assert RawLines(header) + Eol(gap) + tail == Line("", gap).Raw() + tail;
      FirstLineIs(Line("", gap), tail);
      TrimRaw(Line("", gap));
    } else {
      var line, rest := header[0], RawLines(header[1..]) + Eol(gap) + tail;
      assert RawLines(header) + Eol(gap) + tail == line.Raw() + rest;
      assert line in header;
      FirstLineIs(line, rest);
      TrimRaw(line);
      var parsed := ParseContentLength(line.text);
      HeadersRead(header[1..], gap, tail, if IsLengthHeader(line.text) then parsed.value else length);
    }
  }

  lemma HeaderStarts(line: Line, tail: string)
    requires line.Clean() && IsLengthHeader(line.text) && ParseContentLength(line.text).Some?
    ensures ReadMessage(line.Raw() + tail) == ReadHeaders(tail, ParseContentLength(line.text).value)
  {
    FirstLineIs(line, tail);
    TrimRaw(line);
  }

  /** A body is read back exactly when its length is the declared one. */
  lemma BodyReadIff(content: string, rest: string, length: int)
    requires content != ""
    ensures ReadBody(content + rest, length) == Message(content, rest) <==> length == |content|
  {
    if 0 < length <= |content + rest| {
      assert |(content + rest)[..length]| == length;
    }
    assert (content + rest)[..|content|] == content && (content + rest)[|content|..] == rest;
  }

  /** A first line that is no length header is delivered as a message, and the block is not skipped. */
  lemma FirstHeaderDelivered(line: Line, tail: string)
    requires line.Clean() && line.text != "" && !IsLengthHeader(line.text)
    ensures ReadMessage(line.Raw() + tail) == Message(line.text, tail)
  {
    FirstLineIs(line, tail);
    TrimRaw(line);
  }

  lemma BlockSplit(header: seq<Line>, gap: nat, content: string, rest: string)
    requires |header| > 0
    ensures RawLines(header) + Eol(gap) + content + rest ==
            header[0].Raw() + (RawLines(header[1..]) + Eol(gap) + (content + rest))
  {
    Regroup(header[0].Raw(), RawLines(header[1..]), Eol(gap), content, rest);
  }

  lemma Regroup(a: string, b: string, c: string, d: string, e: string)
    ensures a + b + c + d + e == a + (b + c + (d + e))
  {}

  /**
    A header block is read as its content exactly when its first line is a length header and the last length
    declared anywhere in it is that of the content.
   */
  lemma HeaderBlockReadIff(header: seq<Line>, gap: nat, content: string, rest: string)
    requires |header| > 0 && HeaderOk(header) && content != ""
    ensures ReadMessage(RawLines(header) + Eol(gap) + content + rest) == Message(content, rest) <==>
            IsLengthHeader(header[0].text) && Declared(header, 0) == |content|
  {
    var line, more := header[0], header[1..];
    assert line in header;
    BlockSplit(header, gap, content, rest);
    var tail := RawLines(more) + Eol(gap) + (content + rest);
    if IsLengthHeader(line.text) {
      HeaderStarts(line, tail);
      HeadersRead(more, gap, content + rest, ParseContentLength(line.text).value);
      BodyReadIff(content, rest, Declared(header, 0));
    } else {
      FirstHeaderDelivered(line, tail);
      assert |tail| > |rest|;
    }
  }

  const CONTENT_TYPE := "Content-Type: application/json"

  lemma ContentTypeIsNoLength()
    ensures Line(CONTENT_TYPE, 1).Clean() && CONTENT_TYPE != "" && !IsLengthHeader(CONTENT_TYPE)
  {
    assert ToLower(CONTENT_TYPE)[8] == 't' && LENGTH_HEADER[8] == 'l';
    assert ToLower(CONTENT_TYPE)[..15][8] == ToLower(CONTENT_TYPE)[8];
  }

  /** The usual other order: with Content-Type first, the reader delivers that header line. */
  lemma ContentTypeFirst(content: string, rest: string)
    requires 0 < |content| < INT64_LIMIT
    ensures var header := [Line(CONTENT_TYPE, 1), Line(CANONICAL + Decimal(|content|), 1)];
            HeaderBlock([], header, 1, content).Ok() &&
            ReadMessage(RawLines(header) + Eol(1) + content + rest) ==
            Message(CONTENT_TYPE, RawLines(header[1..]) + Eol(1) + (content + rest))
  {
    ContentTypeIsNoLength();
    CanonicalParses(|content|);
    CanonicalClean(|content|, 1);
    FirstOfTwo(Line(CONTENT_TYPE, 1), Line(CANONICAL + Decimal(|content|), 1), content, rest);
  }

  lemma FirstOfTwo(first: Line, second: Line, content: string, rest: string)
    requires first.Clean() && first.text != "" && !IsLengthHeader(first.text)
    ensures ReadMessage(RawLines([first, second]) + Eol(1) + content + rest) ==
            Message(first.text, RawLines([first, second][1..]) + Eol(1) + (content + rest))
  {
    BlockSplit([first, second], 1, content, rest);
    FirstHeaderDelivered(first, RawLines([first, second][1..]) + Eol(1) + (content + rest));
  }

  // ---------------------------------------------------------------- streams

  /** A line is read back unless it is a length header. */
  lemma LineFrameIff(line: Line, rest: string)
    requires line.Clean() && line.text != ""
    ensures ReadMessage(line.Raw() + rest) == Message(line.text, rest) <==> !IsLengthHeader(line.text)
  {
    FirstLineIs(line, rest);
    TrimRaw(line);
  }

  /** One frame after any blank lines is read as its body, and leaves the rest, exactly when it is readable. */
  lemma FrameReadIff(frame: Frame, rest: string)
    requires frame.Ok()
    ensures ReadMessage(frame.Raw() + rest) == Message(frame.Body(), rest) <==> frame.Readable()
  {
    var blanks := seq(|frame.blanks|, i requires 0 <= i < |frame.blanks| => Line("", frame.blanks[i]));
    match frame
    case OneLine(_, line) =>
      assert frame.Raw() + rest == RawLines(blanks) + (line.Raw() + rest);
      BlanksSkipped(blanks, line.Raw() + rest);
      LineFrameIff(line, rest);
    case HeaderBlock(_, header, gap, content) =>
      var block := RawLines(header) + Eol(gap) + content;
      assert frame.Raw() + rest == RawLines(blanks) + (block + rest);
      BlanksSkipped(blanks, block + rest);
      HeaderBlockReadIff(header, gap, content, rest);
  }

  /**
    The round trip: reading the concatenated frames until the first error gives exactly the messages, then end
    of input. What follows the last frame without a newline is never delivered.
   */
  lemma {:induction false} FramesReadBack(frames: seq<Frame>, cutOff: string)
    requires forall frame <- frames :: frame.Ok() && frame.Readable()
    requires forall i :: 0 <= i < |cutOff| ==> cutOff[i] != '\n'
    ensures ReadAll(RawFrames(frames) + cutOff) == Bodies(frames)
    ensures Ending(RawFrames(frames) + cutOff) == EndOfInput
  {
    if |frames| == 0 {
      assert RawFrames(frames) + cutOff == cutOff;
    } else {
      assert frames[0] in frames;
      FramesReadBack(frames[1..], cutOff);
      FrameReadIff(frames[0], RawFrames(frames[1..]) + cutOff);
      RawFramesCons(frames, cutOff);
      BodiesCons(frames);
    }
  }

  lemma RawFramesCons(frames: seq<Frame>, cutOff: string)
    requires |frames| > 0
    ensures RawFrames(frames) + cutOff == frames[0].Raw() + (RawFrames(frames[1..]) + cutOff)
  {}

  lemma BodiesCons(frames: seq<Frame>)
    requires |frames| > 0
    ensures Bodies(frames) == [frames[0].Body()] + Bodies(frames[1..])
  {}

  // ---------------------------------------------------------------- the forms in use

  /** A JSON object or array on a line of its own is a valid frame: it cannot be taken for a header. */
  lemma JsonLineOk(text: string, crs: nat)
    requires |text| > 0 && (text[0] == '{' || text[0] == '[') && text[|text| - 1] != '\r'
    requires forall i :: 0 <= i < |text| ==> text[i] != '\n'
    ensures OneLine([], Line(text, crs)).Ok() && OneLine([], Line(text, crs)).Readable()
    ensures OneLine([], Line(text, crs)).Body() == text
  {
    if |LENGTH_HEADER| <= |text| {
      assert ToLower(text)[..|LENGTH_HEADER|][0] == text[0];
    }
  }

  const CANONICAL := "Content-Length: "

  /** A header block with the exact length, and other headers behind it, is a valid frame. */
  lemma LengthBlockOk(content: string, others: seq<Line>, gap: nat)
    requires 0 < |content| < INT64_LIMIT
    requires HeaderOk(others) && forall line <- others :: !IsLengthHeader(line.text)
    ensures var frame := HeaderBlock([], [Line(CANONICAL + Decimal(|content|), 1)] + others, gap, content);
            frame.Ok() && frame.Readable()
  {
    CanonicalParses(|content|);
    CanonicalClean(|content|, 1);
    LengthFirst(Line(CANONICAL + Decimal(|content|), 1), others, |content|);
  }

  lemma CanonicalClean(n: nat, crs: nat)
    ensures Line(CANONICAL + Decimal(n), crs).Clean()
  {
    var text := CANONICAL + Decimal(n);
    forall i | 0 <= i < |text|
      ensures text[i] != '\n' && text[i] != '\r'
    {
      assert text[i] == if i < 16 then CANONICAL[i] else Decimal(n)[i - 16];
      assert i >= 16 ==> text[i] in Decimal(n);
    }
  }

  lemma LengthFirst(line: Line, others: seq<Line>, length: nat)
    requires line.Clean() && IsLengthHeader(line.text) && ParseContentLength(line.text) == Some(length)
    requires HeaderOk(others) && forall other <- others :: !IsLengthHeader(other.text)
    ensures HeaderOk([line] + others) && Declared([line] + others, 0) == length
  {
    assert ([line] + others)[1..] == others;
    OthersDeclareNothing(others, length);
  }

  lemma {:induction false} OthersDeclareNothing(others: seq<Line>, length: int)
    requires forall line <- others :: !IsLengthHeader(line.text)
    ensures Declared(others, length) == length
  {
    if |others| > 0 {
      OthersDeclareNothing(others[1..], length);
    }
  }

  lemma CanonicalParses(n: nat)
    requires n < INT64_LIMIT
    ensures IsLengthHeader(CANONICAL + Decimal(n))
    ensures ParseContentLength(CANONICAL + Decimal(n)) == Some(n)
  {
    var line, digits := CANONICAL + Decimal(n), Decimal(n);
    assert ToLower(line)[..15] == LENGTH_HEADER;
    ColonAt(line, 14);
    assert line[15..] == " " + digits;
    TrimDigits(digits);
    AtoiOfDecimal(n);
  }

  lemma {:induction false} ColonAt(s: string, k: nat)
    requires k < |s| && s[k] == ':' && forall i :: 0 <= i < k ==> s[i] != ':'
    ensures AfterColon(s) == Some(s[k + 1..])
  {
    if k > 0 {
      ColonAt(s[1..], k - 1);
      assert s[1..][k..] == s[k + 1..];
    }
  }

  lemma TrimDigits(digits: string)
    requires |digits| > 0 && forall c <- digits :: IsDigit(c)
    ensures TrimSpace(" " + digits) == digits
  {
    assert (" " + digits)[1..] == digits;
    assert digits[0] in digits && digits[|digits| - 1] in digits;
    assert TrimLeft(digits) == digits;
  }

  // ---------------------------------------------------------------- errors

  /** A line declares a length when it starts with the header name, in any case. */
  lemma LengthHeaderIff(text: string)
    ensures IsLengthHeader(text) <==> |text| >= 15 && ToLower(text[..15]) == "content-length:"
  {
    if |text| >= 15 {
      assert ToLower(text[..15]) == ToLower(text)[..15];
    }
  }

  /** The length is the number behind the first colon, spaces around it or not. */
  lemma {:induction false} LengthDeclared(name: string, value: string)
    requires forall i :: 0 <= i < |name| ==> name[i] != ':'
    ensures ParseContentLength(name + ":" + value) == Atoi(TrimSpace(value))
  {
    ColonFound(name, value);
  }

  lemma {:induction false} ColonFound(name: string, value: string)
    requires forall i :: 0 <= i < |name| ==> name[i] != ':'
    ensures AfterColon(name + ":" + value) == Some(value)
  {
    var s := name + ":" + value;
    if |name| == 0 {
      assert s[1..] == value;
    } else {
      ColonFound(name[1..], value);
      assert s[1..] == name[1..] + ":" + value;
    }
  }

  /** A length header without a number is an error at that line, first or later. */
  lemma BadLengthFails(line: Line, tail: string, length: int)
    requires line.Clean() && IsLengthHeader(line.text) && ParseContentLength(line.text).None?
    ensures ReadMessage(line.Raw() + tail) == Failed(BadLength, tail)
    ensures ReadHeaders(line.Raw() + tail, length) == Failed(BadLength, tail)
  {
    FirstLineIs(line, tail);
    TrimRaw(line);
  }

  /**
    A header block whose declared length cannot be met: no length, zero or less ends the input and leaves the
    stream; a body cut short is an unexpected end, or the end of input if nothing is left.
   */
  lemma ShortBodyFails(header: seq<Line>, gap: nat, tail: string)
    requires |header| > 0 && HeaderOk(header) && IsLengthHeader(header[0].text)
    ensures var length, r := Declared(header, 0), ReadMessage(RawLines(header) + Eol(gap) + tail);
            (length < 1 ==> r == Failed(EndOfInput, tail)) &&
            (length > |tail| && tail == "" ==> r == Failed(EndOfInput, "")) &&
            (length > |tail| > 0 ==> r == Failed(UnexpectedEnd, "")) &&
            (1 <= length <= |tail| ==> r == Message(tail[..length], tail[length..]))
  {
    BlockRead(header, gap, tail);
  }

  lemma BlockRead(header: seq<Line>, gap: nat, tail: string)
    requires |header| > 0 && HeaderOk(header) && IsLengthHeader(header[0].text)
    ensures ReadMessage(RawLines(header) + Eol(gap) + tail) == ReadBody(tail, Declared(header, 0))
  {
    var line, more := header[0], header[1..];
    assert line in header;
    FirstApart(line.Raw(), RawLines(more), Eol(gap), tail);
    HeaderStarts(line, RawLines(more) + Eol(gap) + tail);
    HeadersRead(more, gap, tail, ParseContentLength(line.text).value);
  }

  lemma FirstApart(a: string, b: string, c: string, d: string)
    ensures a + b + c + d == a + (b + c + d)
  {}

  /** A stream that ends within a line or a header block ends the input. */
  lemma CutOffFails(tail: string, length: int)
    requires forall i :: 0 <= i < |tail| ==> tail[i] != '\n'
    ensures ReadMessage(tail) == Failed(EndOfInput, "") && ReadHeaders(tail, length) == Failed(EndOfInput, "")
  {
    assert !HasLine(tail);
  }
}
