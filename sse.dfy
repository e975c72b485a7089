/**
 * The line-buffered decoder of the chat completion stream: a body of
 * `data: <payload>` lines, `:` comments and blank lines, ended by a
 * `data: [DONE]` sentinel, delivered in chunks with arbitrary boundaries.
 *
 * The functions here are the specification of the loops in `ChatView`
 * (chat.dfy): `Step` is one pass of the inner line loop, `Drain` the whole
 * inner loop, `Feed` one chunk of the outer read loop and `FeedAll` the
 * outer loop over every chunk the reader delivers.
 */
module Sse {
  import opened Wrappers
  import opened Text

  /** What `JSON.parse(payload)` followed by `parsed.choices?.[0]?.delta?.content` yields. */
  datatype Parsed = Malformed | NoContent | Content(text: string)

  /** The JSON parser and field lookup, left abstract. */
  type ParseFn = string -> Parsed

  /** What a line of the body means once its carriage return is stripped. */
  datatype Frame = Ignored | Sentinel | Data(payload: string)

  const DataPrefix: string := "data: "
  const DoneSentinel: string := "[DONE]"

  /** Splits off the text before the first newline; None when the buffer holds no complete line. */
  function SplitLine(buffer: string): (r: Option<(string, string)>)
    ensures r.None? <==> '\n' !in buffer
    ensures r.Some? ==> '\n' !in r.value.0 && buffer == r.value.0 + "\n" + r.value.1
  {
    var i := IndexOf(buffer, '\n');
    if i == -1 then None
    else
      assert buffer == buffer[..i] + "\n" + buffer[i + 1..];
      Some((buffer[..i], buffer[i + 1..]))
  }

  /** Splitting a line joined to the rest by a newline gives back the two parts. */
  lemma SplitJoin(line: string, rest: string)
    requires '\n' !in line
    ensures SplitLine(line + "\n" + rest) == Some((line, rest))
  {
    IndexOfFirst(line, '\n', rest);
    var b := line + "\n" + rest;
    assert b[..|line|] == line && b[|line| + 1..] == rest;
  }

  /** Removes one trailing carriage return, if there is one, and nothing else. */
  function StripCR(line: string): (r: string)
    ensures EndsWith(line, "\r") ==> r + "\r" == line
    ensures !EndsWith(line, "\r") ==> r == line
    ensures '\n' !in line ==> '\n' !in r
  {
    if EndsWith(line, "\r") then
      assert line == line[..|line| - 1] + "\r";
      line[..|line| - 1]
    else line
  }

  /**
   * The line filter. The tests for a leading `:` and for a blank line are
   * subsumed by the `data: ` test: only a line with that prefix is a frame,
   * and its payload is the rest of the line, trimmed.
   */
  function Classify(line: string): (f: Frame)
    ensures !StartsWith(line, DataPrefix) ==> f == Ignored
    ensures StartsWith(line, DataPrefix) ==>
      f == (if Trim(line[|DataPrefix|..]) == DoneSentinel then Sentinel else Data(Trim(line[|DataPrefix|..])))
  {
    assert StartsWith(line, DataPrefix) ==> !StartsWith(line, ":") && Trim(line) != "" by {
      if StartsWith(line, DataPrefix) {
        assert line[0] == 'd' && !IsWhitespace(line[0]);
        TrimSpec(line);
      }
    }
    if StartsWith(line, ":") || Trim(line) == "" then Ignored
    else if !StartsWith(line, DataPrefix) then Ignored
    else
      var payload := Trim(line[6..]);
      if payload == DoneSentinel then Sentinel else Data(payload)
  }

  /** A data line keeps its payload when a second carriage return is stripped from it. */
  lemma ClassifyStripCR(line: string)
    requires Classify(line).Data?
    ensures Classify(StripCR(line)) == Classify(line)
  {
    if EndsWith(line, "\r") {
      var r := StripCR(line);
      StripCRKeepsPrefix(line);
      TrimIgnoresTrailingWhitespace(r[6..], '\r');
    }
  }

  /** Helper: stripping the carriage return of a data line leaves a data line with the same payload text, less the `\r`. */
  lemma StripCRKeepsPrefix(line: string)
    requires StartsWith(line, DataPrefix) && EndsWith(line, "\r")
    ensures StartsWith(StripCR(line), DataPrefix)
    ensures line[6..] == StripCR(line)[6..] + ['\r']
  {
    var r := StripCR(line);
    assert line[5] == ' ' && line[|line| - 1] == '\r';
    assert r == line[..|line| - 1];
    assert r[..6] == line[..6];
  }

  /** Why the inner line loop ended. */
  datatype Stop = Exhausted | SentinelSeen | ParseFailed

  /** One pass of the inner loop: go on with the next line, or leave the loop. */
  datatype StepResult =
    | Next(buffer: string, content: string)
    | Halt(buffer: string, content: string, stop: Stop)

  /**
   * The body of the inner loop once the line `raw` has been taken out and
   * the buffer set to `rest`: strip the carriage return, skip the line, stop
   * at the sentinel, push the line back on a parse failure, or append its content.
   */
  function LineStep(parse: ParseFn, raw: string, rest: string, content: string): (s: StepResult)
    ensures s.Halt? ==> s.content == content && s.stop != Exhausted
    ensures s.Next? || s.stop == SentinelSeen ==> s.buffer == rest
    ensures s.Halt? && s.stop == ParseFailed ==> s.buffer == StripCR(raw) + "\n" + rest
  {
    var line := StripCR(raw);
    match Classify(line)
    case Ignored => Next(rest, content)
    case Sentinel => Halt(rest, content, SentinelSeen)
    case Data(payload) =>
      match parse(payload)
      case Malformed => Halt(line + "\n" + rest, content, ParseFailed)
      case NoContent => Next(rest, content)
      case Content(text) => Next(rest, if text != "" then content + text else content)
  }

  /** A pass of the loop body only appends to the content. */
  lemma LineStepExtends(parse: ParseFn, raw: string, rest: string, content: string)
    ensures StartsWith(LineStep(parse, raw, rest, content).content, content)
  {
    var line := StripCR(raw);
    if Classify(line).Data? && parse(Classify(line).payload).Content? {
      var text := parse(Classify(line).payload).text;
      assert (content + text)[..|content|] == content;
    }
  }

  /** One pass of the inner loop over a buffer that holds a complete line. */
  function Step(parse: ParseFn, buffer: string, content: string): (s: StepResult)
    requires '\n' in buffer
    ensures s.Next? ==> |s.buffer| < |buffer|
  {
    var split := SplitLine(buffer).value;
    LineStep(parse, split.0, split.1, content)
  }

  /** Where the inner loop leaves the buffer and the accumulated assistant content. */
  datatype Drained = Drained(buffer: string, content: string, stop: Stop)

  /** The inner loop: passes of `Step` until no newline is left or a pass leaves the loop. */
  function Drain(parse: ParseFn, buffer: string, content: string): (d: Drained)
    ensures d.stop == Exhausted ==> '\n' !in d.buffer
    ensures |d.buffer| <= |buffer|
    decreases |buffer|
  {
    if '\n' !in buffer then Drained(buffer, content, Exhausted)
    else
      var s := Step(parse, buffer, content);
      if s.Next? then Drain(parse, s.buffer, s.content)
      else Drained(s.buffer, s.content, s.stop)
  }

  /** The inner loop only appends to the content. */
  lemma {:induction false} DrainExtends(parse: ParseFn, buffer: string, content: string)
    ensures StartsWith(Drain(parse, buffer, content).content, content)
    decreases |buffer|
  {
    if '\n' in buffer {
      var split := SplitLine(buffer).value;
      var s := Step(parse, buffer, content);
      LineStepExtends(parse, split.0, split.1, content);
      if s.Next? {
        DrainExtends(parse, s.buffer, s.content);
        StartsWithTransitive(Drain(parse, s.buffer, s.content).content, s.content, content);
      }
    }
  }

  /** One unfolding of the inner loop over a buffer that holds a complete line. */
  lemma DrainUnfold(parse: ParseFn, buffer: string, content: string)
    requires '\n' in buffer
    ensures var s := Step(parse, buffer, content);
      Drain(parse, buffer, content) ==
        if s.Next? then Drain(parse, s.buffer, s.content) else Drained(s.buffer, s.content, s.stop)
  {
  }

  /** The decoder's state between chunks: the partial line it carries and the assistant content so far. */
  datatype Decoder = Decoder(buffer: string, content: string)

  const Fresh: Decoder := Decoder("", "")

  /** One chunk of the outer read loop: append it to the buffer, then run the inner loop. */
  function Feed(parse: ParseFn, st: Decoder, chunk: string): (r: Decoder)
    ensures |r.buffer| <= |st.buffer| + |chunk|
  {
    var d := Drain(parse, st.buffer + chunk, st.content);
    Decoder(d.buffer, d.content)
  }

  /** The outer read loop over every chunk the reader delivers before it reports `done`. */
  function FeedAll(parse: ParseFn, st: Decoder, chunks: seq<string>): Decoder
    decreases |chunks|
  {
    if chunks == [] then st
    else FeedAll(parse, Feed(parse, st, chunks[0]), chunks[1..])
  }

  /** The outer loop only appends to the content: the streamed reply never loses text. */
  lemma {:induction false} FeedAllExtends(parse: ParseFn, st: Decoder, chunks: seq<string>)
    ensures StartsWith(FeedAll(parse, st, chunks).content, st.content)
    decreases |chunks|
  {
    if chunks == [] {
      assert st.content[..|st.content|] == st.content;
    } else {
      var next := Feed(parse, st, chunks[0]);
      DrainExtends(parse, st.buffer + chunks[0], st.content);
      FeedAllExtends(parse, next, chunks[1..]);
      StartsWithTransitive(FeedAll(parse, next, chunks[1..]).content, next.content, st.content);
    }
  }

  /** One unfolding of the outer loop over a non-empty list of chunks. */
  lemma FeedAllUnfold(parse: ParseFn, st: Decoder, chunks: seq<string>)
    requires chunks != []
    ensures FeedAll(parse, st, chunks) == FeedAll(parse, Feed(parse, st, chunks[0]), chunks[1..])
  {
  }

  /** The body the chunks make up. */
  function Concat(chunks: seq<string>): string
    decreases |chunks|
  {
    if chunks == [] then "" else chunks[0] + Concat(chunks[1..])
  }
}
