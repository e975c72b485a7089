/**
 * What the frame decoder promises, line by line and over whole streams:
 * how one line is filtered, what the sentinel and a parse failure leave in
 * the buffer, and that the assistant content does not depend on where the
 * transport cuts the body into chunks.
 */
module SseProperties {
  import opened Text
  import opened Sse

  // ---------------------------------------------------------------- one line

  /** Comment lines, blank lines and any line without the `data: ` prefix are consumed and emit nothing. */
  lemma IgnoredLineEmitsNothing(parse: ParseFn, line: string, rest: string, content: string)
    requires '\n' !in line
    requires StartsWith(StripCR(line), ":") || AllWhitespace(StripCR(line)) || !StartsWith(StripCR(line), DataPrefix)
    ensures Step(parse, line + "\n" + rest, content) == Next(rest, content)
  {
    SplitJoin(line, rest);
    var l := StripCR(line);
    if StartsWith(l, DataPrefix) {
      assert l[0] == 'd' && !IsWhitespace(l[0]);
    }
  }

  /**
   * A `data: [DONE]` line emits nothing and ends the inner loop: the lines
   * after it stay in the buffer, unprocessed.
   */
  lemma SentinelStopsInnerLoop(parse: ParseFn, line: string, rest: string, content: string)
    requires '\n' !in line
    requires StartsWith(StripCR(line), DataPrefix) && Trim(StripCR(line)[6..]) == DoneSentinel
    ensures Drain(parse, line + "\n" + rest, content) == Drained(rest, content, SentinelSeen)
  {
    SplitJoin(line, rest);
  }

  /**
   * A data line whose payload does not parse emits nothing, ends the inner
   * loop and is pushed back: the buffer is what it was before the line was
   * taken out, less the one carriage return that was stripped, if any.
   */
  lemma ParseFailurePushesLineBack(parse: ParseFn, line: string, rest: string, content: string)
    requires '\n' !in line
    requires Classify(StripCR(line)).Data? && parse(Classify(StripCR(line)).payload) == Malformed
    ensures var before := line + "\n" + rest;
            var d := Drain(parse, before, content);
            && d.stop == ParseFailed && d.content == content
            && (if EndsWith(line, "\r") then d.buffer == before[..|line| - 1] + before[|line|..] else d.buffer == before)
  {
    PushedBack(parse, line, rest, content);
    PushBackRestores(line, rest);
  }

  /** Helper: the inner loop over a buffer headed by an unparsable line stops at once with that line put back, stripped. */
  lemma PushedBack(parse: ParseFn, line: string, rest: string, content: string)
    requires '\n' !in line
    requires Classify(StripCR(line)).Data? && parse(Classify(StripCR(line)).payload) == Malformed
    ensures Drain(parse, line + "\n" + rest, content) == Drained(StripCR(line) + "\n" + rest, content, ParseFailed)
  {
    SplitJoin(line, rest);
  }

  /** Helper: the stripped line put back in front of the rest is the buffer before the take, less its `\r`. */
  lemma PushBackRestores(line: string, rest: string)
    ensures var before := line + "\n" + rest;
      if EndsWith(line, "\r") then StripCR(line) + "\n" + rest == before[..|line| - 1] + before[|line|..]
      else StripCR(line) + "\n" + rest == before
  {
    if EndsWith(line, "\r") {
      var head := line + "\n";
      SliceAppend(head, rest, |line| - 1);
      SliceAppend(line, "\n", |line| - 1);
      SliceAppend(head, rest, |line|);
      assert head[|line|..] == "\n";
    }
  }

  /** A data line whose payload carries content appends that content, and the loop goes on with the next line. */
  lemma ContentLineAppends(parse: ParseFn, line: string, rest: string, content: string)
    requires '\n' !in line
    requires Classify(StripCR(line)).Data? && parse(Classify(StripCR(line)).payload).Content?
    ensures Drain(parse, line + "\n" + rest, content)
         == Drain(parse, rest, content + parse(Classify(StripCR(line)).payload).text)
  {
    SplitJoin(line, rest);
    var b := line + "\n" + rest;
    var text := parse(Classify(StripCR(line)).payload).text;
    assert Step(parse, b, content) == LineStep(parse, line, rest, content);
    assert LineStep(parse, line, rest, content) == Next(rest, content + text) by {
      if text == "" {
        assert content + text == content;
      }
    }
  }

  // ------------------------------------------------------- the accumulator

  /** Helper: a pass of the inner loop does not look at the content accumulated so far. */
  lemma LineStepContent(parse: ParseFn, raw: string, rest: string, acc: string)
    ensures var s0 := LineStep(parse, raw, rest, "");
            var s := LineStep(parse, raw, rest, acc);
            && s.Next? == s0.Next? && s.buffer == s0.buffer && s.content == acc + s0.content
            && (s.Halt? ==> s.stop == s0.stop)
  {
    var f := Classify(StripCR(raw));
    if f.Data? && parse(f.payload).Content? {
      assert "" + parse(f.payload).text == parse(f.payload).text;
    }
  }

  lemma StepContent(parse: ParseFn, buffer: string, acc: string)
    requires '\n' in buffer
    ensures var s0 := Step(parse, buffer, "");
            var s := Step(parse, buffer, acc);
            && s.Next? == s0.Next? && s.buffer == s0.buffer && s.content == acc + s0.content
            && (s.Halt? ==> s.stop == s0.stop)
  {
    var split := SplitLine(buffer).value;
    LineStepContent(parse, split.0, split.1, acc);
  }

  /**
   * The inner loop appends the same fragments, in the same order, whatever
   * was accumulated before it: its buffer and its exit do not depend on the content.
   */
  lemma {:induction false} DrainContent(parse: ParseFn, buffer: string, acc: string)
    ensures var d0 := Drain(parse, buffer, "");
            Drain(parse, buffer, acc) == Drained(d0.buffer, acc + d0.content, d0.stop)
    decreases |buffer|, 1
  {
    if '\n' in buffer {
      StepContent(parse, buffer, acc);
      var s0 := Step(parse, buffer, "");
      if s0.Next? {
        DrainContentNext(parse, buffer, acc);
      }
    } else {
      assert acc + "" == acc;
    }
  }

  /** Helper for `DrainContent`: the case where the first pass goes on. */
  lemma {:induction false} DrainContentNext(parse: ParseFn, buffer: string, acc: string)
    requires '\n' in buffer && Step(parse, buffer, "").Next?
    ensures var d0 := Drain(parse, buffer, "");
            Drain(parse, buffer, acc) == Drained(d0.buffer, acc + d0.content, d0.stop)
    decreases |buffer|, 0
  {
    StepContent(parse, buffer, acc);
    var s0 := Step(parse, buffer, "");
    var rest, c0 := s0.buffer, s0.content;
    assert Drain(parse, buffer, acc) == Drain(parse, rest, acc + c0);
    assert Drain(parse, buffer, "") == Drain(parse, rest, c0);
    DrainContent(parse, rest, acc + c0);
    DrainContent(parse, rest, c0);
    AppendAssoc(acc, c0, Drain(parse, rest, "").content);
  }

  // ------------------------------------------------------ chunk boundaries

  /** Helper: text appended after a complete line does not change how that line is processed. */
  lemma LineStepAppend(parse: ParseFn, raw: string, rest: string, more: string, acc: string)
    ensures var s := LineStep(parse, raw, rest, acc);
            var s' := LineStep(parse, raw, rest + more, acc);
            && s'.Next? == s.Next? && s'.buffer == s.buffer + more && s'.content == s.content
            && (s.Halt? ==> s'.stop == s.stop)
  {
    AppendAssoc(StripCR(raw) + "\n", rest, more);
  }

  lemma StepAppend(parse: ParseFn, buffer: string, more: string, acc: string)
    requires '\n' in buffer
    ensures '\n' in buffer + more
    ensures var s := Step(parse, buffer, acc);
            var s' := Step(parse, buffer + more, acc);
            && s'.Next? == s.Next? && s'.buffer == s.buffer + more && s'.content == s.content
            && (s.Halt? ==> s'.stop == s.stop)
  {
    var (raw, rest) := SplitLine(buffer).value;
    AppendAssoc(raw + "\n", rest, more);
    SplitJoin(raw, rest + more);
    LineStepAppend(parse, raw, rest, more, acc);
  }

  /**
   * Running the inner loop on `buffer + more` is running it on `buffer` and
   * then, if it ran out of complete lines, on what is left followed by `more`;
   * if it stopped early, `more` just waits behind the buffer it left.
   */
  lemma {:induction false} DrainAppend(parse: ParseFn, buffer: string, more: string, acc: string)
    ensures var d := Drain(parse, buffer, acc);
            if d.stop == Exhausted then Drain(parse, buffer + more, acc) == Drain(parse, d.buffer + more, d.content)
            else Drain(parse, buffer + more, acc) == Drained(d.buffer + more, d.content, d.stop)
    decreases |buffer|
  {
    if '\n' in buffer {
      StepAppend(parse, buffer, more, acc);
      var s := Step(parse, buffer, acc);
      if s.Next? {
        DrainAppend(parse, s.buffer, more, s.content);
      }
    }
  }

  /** The buffer starts with a complete data line whose payload does not parse. */
  predicate Blocked(parse: ParseFn, buffer: string) {
    match SplitLine(buffer)
    case None => false
    case Some((raw, _)) =>
      var f := Classify(StripCR(raw));
      f.Data? && parse(f.payload).Malformed?
  }

  /** Helper: an inner loop that stopped on a parse failure leaves a blocked buffer. */
  lemma {:induction false} DrainFailedBlocked(parse: ParseFn, buffer: string, acc: string)
    requires Drain(parse, buffer, acc).stop == ParseFailed
    ensures Blocked(parse, Drain(parse, buffer, acc).buffer)
    decreases |buffer|
  {
    var s := Step(parse, buffer, acc);
    if s.Next? {
      DrainFailedBlocked(parse, s.buffer, s.content);
    } else {
      var (raw, rest) := SplitLine(buffer).value;
      SplitJoin(StripCR(raw), rest);
      ClassifyStripCR(StripCR(raw));
    }
  }

  /** Helper: a blocked buffer stays blocked, whatever arrives behind it, and emits nothing. */
  lemma BlockedStays(parse: ParseFn, buffer: string, more: string, acc: string)
    requires Blocked(parse, buffer)
    ensures var d := Drain(parse, buffer + more, acc);
            d.stop == ParseFailed && d.content == acc && Blocked(parse, d.buffer)
  {
    BlockedAppend(parse, buffer, more);
    BlockedHalts(parse, buffer + more, acc);
  }

  /** Helper: text behind a blocked buffer leaves the failing line at its head. */
  lemma BlockedAppend(parse: ParseFn, buffer: string, more: string)
    requires Blocked(parse, buffer)
    ensures Blocked(parse, buffer + more)
  {
    var (raw, rest) := SplitLine(buffer).value;
    AppendAssoc(raw + "\n", rest, more);
    SplitJoin(raw, rest + more);
  }

  /** Helper: the inner loop on a blocked buffer puts the failing line back and stops at once. */
  lemma BlockedHalts(parse: ParseFn, buffer: string, acc: string)
    requires Blocked(parse, buffer)
    ensures var d := Drain(parse, buffer, acc);
            d.stop == ParseFailed && d.content == acc && Blocked(parse, d.buffer)
  {
    var (raw, rest) := SplitLine(buffer).value;
    var line := StripCR(raw);
    assert Step(parse, buffer, acc) == LineStep(parse, raw, rest, acc);
    assert LineStep(parse, raw, rest, acc) == Halt(line + "\n" + rest, acc, ParseFailed);
    PushedBackBlocks(parse, line, rest);
  }

  /** Helper: a pushed-back line that failed to parse blocks the buffer it heads. */
  lemma PushedBackBlocks(parse: ParseFn, line: string, rest: string)
    requires '\n' !in line
    requires Classify(line).Data? && parse(Classify(line).payload).Malformed?
    ensures Blocked(parse, line + "\n" + rest)
  {
    SplitJoin(line, rest);
    ClassifyStripCR(line);
  }

  /**
   * A complete line that can never parse is retried first on every later
   * chunk and blocks every line after it: no further content is emitted.
   */
  lemma {:induction false} MalformedLineBlocksStream(parse: ParseFn, buffer: string, acc: string, chunks: seq<string>)
    requires Blocked(parse, buffer)
    ensures FeedAll(parse, Decoder(buffer, acc), chunks).content == acc
    decreases |chunks|
  {
    if chunks != [] {
      BlockedStays(parse, buffer, chunks[0], acc);
      var next := Feed(parse, Decoder(buffer, acc), chunks[0]);
      MalformedLineBlocksStream(parse, next.buffer, acc, chunks[1..]);
    }
  }

  /** Helper: chunks that complete no line only grow the buffer. */
  lemma {:induction false} PartialLineWaits(parse: ParseFn, buffer: string, acc: string, chunks: seq<string>)
    requires '\n' !in buffer + Concat(chunks)
    ensures FeedAll(parse, Decoder(buffer, acc), chunks) == Decoder(buffer + Concat(chunks), acc)
    decreases |chunks|
  {
    if chunks == [] {
      assert buffer + Concat(chunks) == buffer;
    } else {
      assert buffer + Concat(chunks) == (buffer + chunks[0]) + Concat(chunks[1..]);
      PartialLineWaits(parse, buffer + chunks[0], acc, chunks[1..]);
    }
  }

  /**
   * Nothing after the sentinel adds to the reply: when the inner loop, run on
   * the whole body, stops at `[DONE]`, every complete line it leaves behind
   * has an empty fragment. Blank lines, comments, `[DONE]` again and
   * unparsable lines all qualify.
   */
  predicate NothingAfterSentinel(parse: ParseFn, body: string) {
    var d := Drain(parse, body, "");
    d.stop == SentinelSeen ==> Silent(parse, d.buffer)
  }

  /** Every complete line of the buffer has an empty fragment; a partial last line does not matter. */
  predicate Silent(parse: ParseFn, buffer: string)
    decreases |buffer|
  {
    match SplitLine(buffer)
    case None => true
    case Some((line, rest)) => Fragment(parse, line) == "" && Silent(parse, rest)
  }

  /**
   * The inner loop over a silent buffer emits nothing, and what it leaves is
   * still silent, whatever follows it: an unparsable line it pushes back
   * keeps its frame.
   */
  lemma {:induction false} SilentDrain(parse: ParseFn, buffer: string, more: string, acc: string)
    requires Silent(parse, buffer + more)
    ensures var d := Drain(parse, buffer, acc);
      d.content == acc && Silent(parse, d.buffer + more)
    decreases |buffer|
  {
    if '\n' in buffer {
      var (line, rest) := SplitLine(buffer).value;
      AppendAssoc(line + "\n", rest, more);
      SplitJoin(line, rest + more);
      var s := Step(parse, buffer, acc);
      assert s == LineStep(parse, line, rest, acc);
      if s.Next? {
        SilentDrain(parse, rest, more, acc);
      } else if s.stop == ParseFailed {
        var stripped := StripCR(line);
        ClassifyStripCR(stripped);
        AppendAssoc(stripped + "\n", rest, more);
        SplitJoin(stripped, rest + more);
      }
    }
  }

  /**
   * Reading chunks that, together with the buffer, hold only lines with empty
   * fragments adds nothing to the content, however they are cut.
   */
  lemma {:induction false} SilentFeedAll(parse: ParseFn, buffer: string, acc: string, chunks: seq<string>)
    requires Silent(parse, buffer + Concat(chunks))
    ensures FeedAll(parse, Decoder(buffer, acc), chunks).content == acc
    decreases |chunks|
  {
    if chunks != [] {
      var t, rest := chunks[0], chunks[1..];
      AppendAssoc(buffer, t, Concat(rest));
      SilentDrain(parse, buffer + t, Concat(rest), acc);
      SilentFeedAll(parse, Drain(parse, buffer + t, acc).buffer, acc, rest);
      FeedAllUnfold(parse, Decoder(buffer, acc), chunks);
    }
  }

  /** Helper: from a state with no complete line buffered, reading the chunks yields the content of draining them all at once. */
  lemma {:induction false} FeedAllMatchesDrain(parse: ParseFn, buffer: string, acc: string, chunks: seq<string>)
    requires '\n' !in buffer
    requires NothingAfterSentinel(parse, buffer + Concat(chunks))
    ensures FeedAll(parse, Decoder(buffer, acc), chunks).content == Drain(parse, buffer + Concat(chunks), acc).content
    decreases |chunks|
  {
    if chunks == [] {
      assert buffer + Concat(chunks) == buffer;
    } else {
      var t, rest := chunks[0], chunks[1..];
      var m := Concat(rest);
      var whole := buffer + Concat(chunks);
      assert whole == (buffer + t) + m;
      var d := Drain(parse, buffer + t, acc);
      DrainAppend(parse, buffer + t, m, acc);
      DrainContent(parse, whole, acc);
      match d.stop
      case Exhausted =>
        DrainContent(parse, d.buffer + m, d.content);
        FeedAllMatchesDrain(parse, d.buffer, d.content, rest);
      case SentinelSeen =>
        SilentFeedAll(parse, d.buffer, d.content, rest);
      case ParseFailed =>
        DrainFailedBlocked(parse, buffer + t, acc);
        MalformedLineBlocksStream(parse, d.buffer, d.content, rest);
    }
  }

  /**
   * Chunk-boundary independence, first form: the assistant content read from
   * any split of a body equals the content of the same body delivered as one chunk.
   */
  lemma WholeBodyDecoding(parse: ParseFn, chunks: seq<string>)
    requires NothingAfterSentinel(parse, Concat(chunks))
    ensures FeedAll(parse, Fresh, chunks).content == FeedAll(parse, Fresh, [Concat(chunks)]).content
  {
    var body := Concat(chunks);
    assert "" + body == body;
    FeedAllMatchesDrain(parse, "", "", chunks);
    SingleChunk(parse, body);
  }

  /** Chunk-boundary independence, second form: two splits of the same body give the same assistant content. */
  lemma ChunkBoundaryIndependence(parse: ParseFn, chunks1: seq<string>, chunks2: seq<string>)
    requires Concat(chunks1) == Concat(chunks2)
    requires NothingAfterSentinel(parse, Concat(chunks1))
    ensures FeedAll(parse, Fresh, chunks1).content == FeedAll(parse, Fresh, chunks2).content
  {
    WholeBodyDecoding(parse, chunks1);
    WholeBodyDecoding(parse, chunks2);
  }

  // ------------------------------------------------- reference: the reply text

  /** Complete lines, each followed by its newline. */
  function Lines(lines: seq<string>): string
    decreases |lines|
  {
    if lines == [] then "" else lines[0] + "\n" + Lines(lines[1..])
  }

  /** The content one line contributes to the reply: the text of a data frame that carries some, else nothing. */
  function Fragment(parse: ParseFn, raw: string): string
  {
    match Classify(StripCR(raw))
    case Data(payload) => (match parse(payload) case Content(text) => text case _ => "")
    case _ => ""
  }

  /** The fragments of the lines, in the order the lines arrive. */
  function Fragments(parse: ParseFn, lines: seq<string>): string
    decreases |lines|
  {
    if lines == [] then "" else Fragment(parse, lines[0]) + Fragments(parse, lines[1..])
  }

  /** A line the inner loop goes on after: neither the sentinel nor a payload that fails to parse. */
  predicate Passes(parse: ParseFn, raw: string)
  {
    var f := Classify(StripCR(raw));
    f != Sentinel && !(f.Data? && parse(f.payload).Malformed?)
  }

  /** Every line is a complete line (no newline inside) that passes. */
  predicate AllPass(parse: ParseFn, lines: seq<string>)
    decreases |lines|
  {
    lines == [] || ('\n' !in lines[0] && Passes(parse, lines[0]) && AllPass(parse, lines[1..]))
  }

  /** Helper: a passing line appends its fragment and the loop goes on with the rest. */
  lemma DrainPassingLine(parse: ParseFn, line: string, more: string, acc: string)
    requires '\n' !in line && Passes(parse, line)
    ensures Drain(parse, line + "\n" + more, acc) == Drain(parse, more, acc + Fragment(parse, line))
  {
    SplitJoin(line, more);
    assert acc + "" == acc;
  }

  /**
   * The reply grows by the lines' fragments, in order: the inner loop over
   * passing complete lines appends each line's fragment and then carries on
   * with whatever follows them.
   */
  lemma {:induction false} DrainLines(parse: ParseFn, lines: seq<string>, rest: string, acc: string)
    requires AllPass(parse, lines)
    ensures Drain(parse, Lines(lines) + rest, acc) == Drain(parse, rest, acc + Fragments(parse, lines))
    decreases |lines|
  {
    if lines == [] {
      assert Lines(lines) + rest == rest && acc + Fragments(parse, lines) == acc;
    } else {
      var frag := Fragment(parse, lines[0]);
      LinesCons(lines, rest);
      FragmentsCons(parse, lines, acc);
      DrainPassingLine(parse, lines[0], Lines(lines[1..]) + rest, acc);
      DrainLines(parse, lines[1..], rest, acc + frag);
    }
  }

  /** Helper: a body of lines is its first line, a newline and the rest. */
  lemma LinesCons(lines: seq<string>, rest: string)
    requires lines != []
    ensures Lines(lines) + rest == lines[0] + "\n" + (Lines(lines[1..]) + rest)
  {
  }

  /** Helper: the fragments of lines are the first line's fragment followed by the rest's. */
  lemma FragmentsCons(parse: ParseFn, lines: seq<string>, acc: string)
    requires lines != []
    ensures (acc + Fragment(parse, lines[0])) + Fragments(parse, lines[1..]) == acc + Fragments(parse, lines)
  {
    AppendAssoc(acc, Fragment(parse, lines[0]), Fragments(parse, lines[1..]));
  }

  /** Complete lines each of which has an empty fragment. */
  predicate AllSilent(parse: ParseFn, lines: seq<string>)
    decreases |lines|
  {
    lines == [] || ('\n' !in lines[0] && Fragment(parse, lines[0]) == "" && AllSilent(parse, lines[1..]))
  }

  /** Helper: such lines followed by a partial line make a silent buffer. */
  lemma {:induction false} SilentLines(parse: ParseFn, trailer: seq<string>, tail: string)
    requires AllSilent(parse, trailer) && '\n' !in tail
    ensures Silent(parse, Lines(trailer) + tail)
    decreases |trailer|
  {
    if trailer == [] {
      assert Lines(trailer) + tail == tail;
    } else {
      LinesCons(trailer, tail);
      SplitJoin(trailer[0], Lines(trailer[1..]) + tail);
      SilentLines(parse, trailer[1..], tail);
    }
  }

  /**
   * What may follow a body of passing lines: either just a partial line, or
   * the sentinel line, then lines that add nothing (the blank line that ends
   * an event, comments), then a partial line.
   */
  function Closing(close: string, trailer: seq<string>, tail: string): string
  {
    if close == "" then tail else close + "\n" + (Lines(trailer) + tail)
  }

  /** Helper: the closing part of a body emits nothing, and leaves a silent buffer if it stops at the sentinel. */
  lemma CloseDrain(parse: ParseFn, close: string, trailer: seq<string>, tail: string, acc: string)
    requires '\n' !in tail && AllSilent(parse, trailer)
    requires close == "" || ('\n' !in close && Classify(StripCR(close)) == Sentinel)
    ensures var d := Drain(parse, Closing(close, trailer, tail), acc);
      d.content == acc && (d.stop == SentinelSeen ==> Silent(parse, d.buffer))
  {
    if close != "" {
      SplitJoin(close, Lines(trailer) + tail);
      SilentLines(parse, trailer, tail);
    }
  }

  /**
   * End to end: a body of passing lines, optionally closed by the sentinel
   * line and lines that add nothing, and ending in a partial line, yields
   * the concatenation of the lines' fragments as the reply, however the
   * transport cuts it into chunks.
   */
  lemma StreamedReply(parse: ParseFn, chunks: seq<string>, lines: seq<string>, close: string, trailer: seq<string>, tail: string)
    requires AllPass(parse, lines) && AllSilent(parse, trailer)
    requires '\n' !in tail
    requires close == "" || ('\n' !in close && Classify(StripCR(close)) == Sentinel)
    requires Concat(chunks) == Lines(lines) + Closing(close, trailer, tail)
    ensures FeedAll(parse, Fresh, chunks).content == Fragments(parse, lines)
  {
    var body := Concat(chunks);
    ClosedBodyDrain(parse, lines, close, trailer, tail);
    assert NothingAfterSentinel(parse, body);
    WholeBodyDecoding(parse, chunks);
    SingleChunk(parse, body);
  }

  /** Helper: the inner loop over such a body emits the fragments and stops, if at the sentinel, before a silent buffer. */
  lemma ClosedBodyDrain(parse: ParseFn, lines: seq<string>, close: string, trailer: seq<string>, tail: string)
    requires AllPass(parse, lines) && AllSilent(parse, trailer)
    requires '\n' !in tail
    requires close == "" || ('\n' !in close && Classify(StripCR(close)) == Sentinel)
    ensures var d := Drain(parse, Lines(lines) + Closing(close, trailer, tail), "");
      d.content == Fragments(parse, lines) && (d.stop == SentinelSeen ==> Silent(parse, d.buffer))
  {
    DrainLines(parse, lines, Closing(close, trailer, tail), "");
    assert "" + Fragments(parse, lines) == Fragments(parse, lines);
    CloseDrain(parse, close, trailer, tail, Fragments(parse, lines));
  }

  /**
   * The usual ending of an event stream, `data: [DONE]` and the blank line
   * that ends its event: the reply is the lines' fragments for any chunking.
   */
  lemma BlankLineEnding(parse: ParseFn, chunks: seq<string>, lines: seq<string>)
    requires AllPass(parse, lines)
    requires Concat(chunks) == Lines(lines) + "data: [DONE]\n\n"
    ensures FeedAll(parse, Fresh, chunks).content == Fragments(parse, lines)
  {
    var done := "data: [DONE]";
    DoneLine(done);
    assert Lines([""]) == "\n" by {
      assert [""][1..] == [];
    }
    assert Closing(done, [""], "") == "data: [DONE]\n\n";
    assert Fragment(parse, "") == "";
    assert AllSilent(parse, [""]) by {
      assert [""][1..] == [];
    }
    StreamedReply(parse, chunks, lines, done, [""], "");
  }

  /** Helper: the whole body as one chunk is one run of the inner loop. */
  lemma SingleChunk(parse: ParseFn, body: string)
    ensures FeedAll(parse, Fresh, [body]).content == Drain(parse, body, "").content
  {
    FeedAllUnfold(parse, Fresh, [body]);
    assert [body][1..] == [] && Fresh.buffer + body == body;
  }

  // ------------------------------------------------------------- scenarios

  /** The literal sentinel line is classified as the sentinel. */
  lemma DoneLine(line: string)
    requires line == "data: [DONE]"
    ensures '\n' !in line && StartsWith(StripCR(line), DataPrefix) && Trim(StripCR(line)[6..]) == DoneSentinel
  {
    assert StripCR(line) == line;
    assert line[..6] == DataPrefix;
    assert line[6..] == DoneSentinel;
    assert TrimStart(DoneSentinel) == DoneSentinel;
    assert TrimEnd(DoneSentinel) == DoneSentinel;
  }

  /** A data line holding a trimmed payload other than the sentinel is that payload's frame. */
  lemma PayloadLine(json: string)
    requires '\n' !in json && Trim(json) == json && json != DoneSentinel
    ensures '\n' !in DataPrefix + json
    ensures StripCR(DataPrefix + json) == DataPrefix + json
    ensures Classify(DataPrefix + json) == Data(json)
  {
    var line := DataPrefix + json;
    assert '\n' !in DataPrefix;
    assert line[|line| - 1] != '\r' by {
      if json == [] {
        assert line[|line| - 1] == ' ';
      } else {
        TrimSpec(json);
        assert line[|line| - 1] == json[|json| - 1];
      }
    }
    assert line[..6] == DataPrefix && line[6..] == json;
  }

  /** The chunk that completes a buffered partial content line emits its content. */
  lemma CompletingChunk(parse: ParseFn, json: string, c1: string, c2: string)
    requires '\n' !in json && Trim(json) == json && json != DoneSentinel && parse(json).Content?
    requires c1 + c2 == DataPrefix + json + "\n"
    ensures Feed(parse, Decoder(c1, ""), c2) == Decoder("", parse(json).text)
  {
    var line := DataPrefix + json;
    PayloadLine(json);
    assert c1 + c2 == line + "\n" + "";
    ContentLineAppends(parse, line, "", "");
    assert "" + parse(json).text == parse(json).text;
  }

  /** The literal sentinel chunk, fed to an empty buffer, changes nothing. */
  lemma SentinelChunk(parse: ParseFn, c3: string, content: string)
    requires c3 == "data: [DONE]\n"
    ensures Feed(parse, Decoder("", content), c3) == Decoder("", content)
  {
    var done := "data: [DONE]";
    DoneLine(done);
    assert "" + c3 == done + "\n" + "";
    SentinelStopsInnerLoop(parse, done, "", content);
  }

  /**
   * A content frame cut anywhere before its newline, followed by the sentinel
   * in a third chunk: the partial line waits in the buffer and the assistant
   * content is the frame's content. One instance is the chunks `data: {…"Hel`
   * and `lo"…}\n`, then `data: [DONE]\n`.
   */
  lemma SplitFrameThenSentinel(parse: ParseFn, json: string, c1: string, c2: string, c3: string)
    requires '\n' !in json && Trim(json) == json && json != DoneSentinel && parse(json).Content?
    requires c1 + c2 == DataPrefix + json + "\n" && '\n' !in c1
    requires c3 == "data: [DONE]\n"
    ensures FeedAll(parse, Fresh, [c1, c2, c3]) == Decoder("", parse(json).text)
  {
    var text := parse(json).text;
    assert "" + c1 == c1;
    var s1 := Feed(parse, Fresh, c1);
    assert s1 == Decoder(c1, "");
    CompletingChunk(parse, json, c1, c2);
    var s2 := Feed(parse, s1, c2);
    SentinelChunk(parse, c3, text);
    FeedAllCons(parse, s2, c3, []);
    FeedAllCons(parse, s1, c2, [c3]);
    FeedAllCons(parse, Fresh, c1, [c2, c3]);
  }

  /** One step of the outer read loop. */
  lemma FeedAllCons(parse: ParseFn, st: Decoder, c: string, cs: seq<string>)
    ensures FeedAll(parse, st, [c] + cs) == FeedAll(parse, Feed(parse, st, c), cs)
  {
    assert ([c] + cs)[0] == c && ([c] + cs)[1..] == cs;
  }

  /**
   * The sentinel leaves only the inner loop. Lines behind `[DONE]` in the same
   * chunk stay buffered; they emit nothing if the reader then reports `done`,
   * but any further read, even of an empty chunk, processes them.
   */
  lemma LinesAfterSentinelResume(parse: ParseFn, json: string, chunk: string)
    requires '\n' !in json && Trim(json) == json && json != DoneSentinel && json != []
    requires parse(json).Content? && parse(json).text != ""
    requires chunk == "data: [DONE]\n" + DataPrefix + json + "\n"
    ensures FeedAll(parse, Fresh, [chunk]).content == ""
    ensures FeedAll(parse, Fresh, [chunk, ""]).content == parse(json).text
  {
    SentinelFirst(parse, json, chunk);
    LateLine(parse, json);
    FeedAllUnfold(parse, Fresh, [chunk]);
    FeedAllUnfold(parse, Fresh, [chunk, ""]);
    FeedAllUnfold(parse, Feed(parse, Fresh, chunk), [""]);
    assert [chunk][1..] == [] && [chunk, ""][1..] == [""] && [""][1..] == [];
  }

  /** Helper: the sentinel chunk on a fresh decoder leaves the line behind it buffered. */
  lemma SentinelFirst(parse: ParseFn, json: string, chunk: string)
    requires '\n' !in json
    requires chunk == "data: [DONE]\n" + DataPrefix + json + "\n"
    ensures Feed(parse, Fresh, chunk) == Decoder(DataPrefix + json + "\n", "")
  {
    var done, late := "data: [DONE]", DataPrefix + json;
    DoneLine(done);
    assert "data: [DONE]\n" == done + "\n";
    AppendAssoc(done + "\n", DataPrefix, json);
    AppendAssoc(done + "\n", late, "\n");
    assert Fresh.buffer + chunk == chunk;
    SentinelStopsInnerLoop(parse, done, late + "\n", "");
  }

  /** Helper: an empty chunk decodes the complete content line left in the buffer. */
  lemma LateLine(parse: ParseFn, json: string)
    requires '\n' !in json && Trim(json) == json && json != DoneSentinel
    requires parse(json).Content? && parse(json).text != ""
    ensures Feed(parse, Decoder(DataPrefix + json + "\n", ""), "") == Decoder("", parse(json).text)
  {
    var late := DataPrefix + json;
    PayloadLine(json);
    ContentLineAppends(parse, late, "", "");
    assert "" + parse(json).text == parse(json).text;
  }
}
