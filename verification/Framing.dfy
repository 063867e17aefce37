/**
  Message framing on standard input: one message per line, or a Content-Length header block before a body.
  The reader is a loop over a buffered stream; every mix of the two framings is read back message by message.
 */
module Framing {
  import opened Prelude
  import opened Numerals

  datatype ReadError = EndOfInput | UnexpectedEnd | BadLength

  /** One call: a message or an error, and what is left of the stream. */
  datatype Reading =
    | Message(body: string, rest: string)
    | Failed(error: ReadError, rest: string)

  const LENGTH_HEADER := "content-length:"

  // ---------------------------------------------------------------- lines

  /** The length of the first line without its line end. */
  function LineLength(s: string): (n: nat)
    ensures n <= |s| && (n < |s| ==> s[n] == '\n')
    ensures forall i :: 0 <= i < n ==> s[i] != '\n'
  {
    if |s| == 0 || s[0] == '\n' then 0 else 1 + LineLength(s[1..])
  }

  predicate HasLine(s: string) {
    LineLength(s) < |s|
  }

  /** The first line, with its line end. */
  function FirstLine(s: string): string
    requires HasLine(s)
  {
    s[..LineLength(s) + 1]
  }

  function AfterLine(s: string): (r: string)
    requires HasLine(s)
    ensures |r| < |s|
  {
    s[LineLength(s) + 1..]
  }

  /** Strips any carriage returns and newlines at the end. */
  function TrimEol(s: string): (r: string)
    ensures |r| <= |s| && r == s[..|r|]
    ensures r != "" ==> r[|r| - 1] != '\r' && r[|r| - 1] != '\n'
  {
    if |s| > 0 && (s[|s| - 1] == '\r' || s[|s| - 1] == '\n') then TrimEol(s[..|s| - 1]) else s
  }

  predicate IsLengthHeader(line: string) {
    |LENGTH_HEADER| <= |line| && ToLower(line)[..|LENGTH_HEADER|] == LENGTH_HEADER
  }

  /** What follows the first colon. */
  function AfterColon(s: string): Option<string> {
    if |s| == 0 then None else if s[0] == ':' then Some(s[1..]) else AfterColon(s[1..])
  }

  function ParseContentLength(line: string): Option<int> {
    match AfterColon(line)
    case None => None
    case Some(value) => Atoi(TrimSpace(value))
  }

  // ---------------------------------------------------------------- reading, as functions of the stream

  function ReadMessage(s: string): (r: Reading)
    ensures |r.rest| <= |s|
    ensures r.Message? ==> |r.rest| < |s| && r.body != ""
  {
    if !HasLine(s) then Failed(EndOfInput, "")
    else
      var line := TrimEol(FirstLine(s));
      if line == "" then ReadMessage(AfterLine(s))
      else if !IsLengthHeader(line) then Message(line, AfterLine(s))
      else
        match ParseContentLength(line)
        case None => Failed(BadLength, AfterLine(s))
        case Some(length) => ReadHeaders(AfterLine(s), length)
  }

  /** The rest of a header block: a later length replaces an earlier one, other headers are skipped. */
  function ReadHeaders(s: string, length: int): (r: Reading)
    ensures |r.rest| <= |s|
    ensures r.Message? ==> |r.rest| < |s| && r.body != ""
  {
    if !HasLine(s) then Failed(EndOfInput, "")
    else
      var line := TrimEol(FirstLine(s));
      if line == "" then ReadBody(AfterLine(s), length)
      else if !IsLengthHeader(line) then ReadHeaders(AfterLine(s), length)
      else
        match ParseContentLength(line)
        case None => Failed(BadLength, AfterLine(s))
        case Some(later) => ReadHeaders(AfterLine(s), later)
  }

  function ReadBody(s: string, length: int): (r: Reading)
    ensures |r.rest| <= |s|
    ensures r.Message? ==> r.body + r.rest == s && |r.body| == length > 0
  {
    if length <= 0 then Failed(EndOfInput, s)
    else if length <= |s| then Message(s[..length], s[length..])
    else Failed(if s == "" then EndOfInput else UnexpectedEnd, "")
  }

  /** Reading until the first error. */
  function ReadAll(s: string): seq<string>
    decreases |s|
  {
    match ReadMessage(s)
    case Message(body, rest) => [body] + ReadAll(rest)
    case Failed(_, _) => []
  }

  function Ending(s: string): ReadError
    decreases |s|
  {
    match ReadMessage(s)
    case Message(_, rest) => Ending(rest)
    case Failed(error, _) => error
  }

  // ---------------------------------------------------------------- the reader

  class Reader {
    const stream: string
    var pos: nat

    constructor (stream: string)
      ensures this.stream == stream && Valid() && Rest() == stream
    {
      this.stream := stream;
      pos := 0;
    }

    ghost predicate Valid()
      reads this
    {
      pos <= |stream|
    }

    ghost function Rest(): string
      reads this
      requires Valid()
    {
      stream[pos..]
    }

    /** Up to and including the next newline; without one, the rest of the stream and an error. */
    method ReadString() returns (ok: bool, line: string)
      requires Valid()
      modifies this
      ensures Valid()
      ensures ok == old(HasLine(Rest()))
      ensures if ok then line == old(FirstLine(Rest())) && Rest() == old(AfterLine(Rest()))
              else line == old(Rest()) && Rest() == ""
    {
      ghost var s := Rest();
      var start := pos;
      while pos < |stream| && stream[pos] != '\n'
        invariant start <= pos <= |stream|
        invariant pos - start <= LineLength(s)
        invariant forall i :: start <= i < pos ==> stream[i] != '\n'
      {
        assert s[pos - start] == stream[pos];
        pos := pos + 1;
      }
      assert pos < |stream| ==> s[pos - start] == '\n';
      ok := pos < |stream|;
      if ok {
        pos := pos + 1;
      }
      line := stream[start..pos];
    }

    /** Exactly `length` characters, or an error. */
    method ReadFull(length: int) returns (ok: bool, body: string)
      requires Valid() && length > 0
      modifies this
      ensures Valid()
      ensures ok == (length <= |old(Rest())|)
      ensures if ok then body == old(Rest())[..length] && Rest() == old(Rest())[length..]
              else body == old(Rest()) && Rest() == ""
    {
      ok := length <= |stream| - pos;
      var end := if ok then pos + length else |stream|;
      body := stream[pos..end];
      pos := end;
    }

    method Next() returns (r: Reading)
      requires Valid()
      modifies this
      ensures Valid()
      ensures r == ReadMessage(old(Rest())) && Rest() == r.rest
    {
      ghost var s := Rest();
      while true
        invariant Valid() && ReadMessage(s) == ReadMessage(Rest())
        decreases |stream| - pos
      {
        var ok, line := ReadString();
        if !ok {
          return Failed(EndOfInput, "");
        }
        line := TrimEol(line);
        if line == "" {
          continue;
        }
        if !IsLengthHeader(line) {
          return Message(line, stream[pos..]);
        }
        var length := ParseContentLength(line);
        if length.None? {
          return Failed(BadLength, stream[pos..]);
        }
        r := AfterLengthHeader(length.value);
        return;
      }
    }

    method AfterLengthHeader(first: int) returns (r: Reading)
      requires Valid()
      modifies this
      ensures Valid()
      ensures r == ReadHeaders(old(Rest()), first) && Rest() == r.rest
    {
      ghost var s := Rest();
      var length := first;
      while true
        invariant Valid() && ReadHeaders(s, first) == ReadHeaders(Rest(), length)
        decreases |stream| - pos
      {
        var ok, line := ReadString();
        if !ok {
          return Failed(EndOfInput, "");
        }
        line := TrimEol(line);
        if line == "" {
          break;
        }
        if IsLengthHeader(line) {
          var value := ParseContentLength(line);
          if value.None? {
            return Failed(BadLength, stream[pos..]);
          }
          length := value.value;
        }
      }
      if length <= 0 {
        return Failed(EndOfInput, stream[pos..]);
      }
      var ok, body := ReadFull(length);
      r := if ok then Message(body, stream[pos..])
           else Failed(if body == "" then EndOfInput else UnexpectedEnd, "");
    }

    /** The serving loop: messages until the first error. */
    method Serve() returns (messages: seq<string>, error: ReadError)
      requires Valid()
      modifies this
      ensures Valid()
      ensures messages == ReadAll(old(Rest())) && error == Ending(old(Rest()))
    {
      ghost var s := Rest();
      messages := [];
      while true
        invariant Valid() && ReadAll(s) == messages + ReadAll(Rest()) && Ending(s) == Ending(Rest())
        decreases |stream| - pos
      {
        var r := Next();
        if r.Failed? {
          return messages, r.error;
        }
        messages := messages + [r.body];
      }
    }
  }
}
