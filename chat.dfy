/**
 * The chat page's send handler: the send guard, the user message, the
 * branching on the response status and the streamed assistant reply, which
 * grows the last message of the conversation as content arrives.
 *
 * The handler is `async`. Its awaits split it into phases, each a method of
 * `ChatView`: `BeginSend` up to the request, `ReceiveResponse` for the status
 * checks, `FeedChunk` for one chunk the reader delivers (inside the outer
 * read loop `ReadStream`), and `EndStream` / `FailRequest` for the exits.
 * `HandleSend` runs them in order for one transport answer.
 */
module Chat {
  import opened Wrappers
  import opened Text
  import opened Sse

  datatype Role = User | Assistant

  datatype Message = Message(role: Role, content: string)

  /** The destructive toasts the handler can show. */
  datatype Notice = RateLimited | CreditsNeeded | SomethingWentWrong

  /** Where the send handler is: not running, awaiting the response, or reading the body. */
  datatype Phase = Idle | Awaiting | Streaming

  /** `response.ok`. */
  predicate IsOk(status: int)
  {
    200 <= status <= 299
  }

  /** The chunks the body reader delivers, and whether a read then rejects instead of reporting `done`. */
  datatype Body = Body(chunks: seq<string>, readFails: bool)

  /** What `fetch` settles to: a rejection, or a response with a status and possibly a body. */
  datatype Transport = NetworkError | Answer(status: int, body: Option<Body>)

  /** The state of the chat page that the send handler reads and writes. */
  class ChatView {
    /** `JSON.parse` followed by `choices?.[0]?.delta?.content`. */
    const parse: ParseFn
    var messages: seq<Message>
    var input: string
    var isLoading: bool
    var phase: Phase
    var textBuffer: string
    var assistantContent: string

    /** The loading flag is set exactly while a send runs; while streaming, the last message is the reply so far. */
    ghost predicate Valid()
      reads this
    {
      (isLoading <==> phase != Idle) &&
      (phase == Streaming ==> |messages| > 0 && messages[|messages| - 1] == Message(Assistant, assistantContent))
    }

    /** The decoder state the body loop carries. */
    function Decoding(): Decoder
      reads this
    {
      Decoder(textBuffer, assistantContent)
    }

    constructor(parse: ParseFn)
      ensures Valid()
      ensures this.parse == parse && messages == [] && input == "" && !isLoading && phase == Idle
    {
      this.parse := parse;
      messages := [];
      input := "";
      isLoading := false;
      phase := Idle;
      textBuffer := "";
      assistantContent := "";
    }

    /** Typing into the text area. */
    method SetInput(text: string)
      requires Valid()
      modifies this`input
      ensures Valid() && input == text
    {
      input := text;
    }

    /**
     * From the start of the handler to the `fetch`: the guard, the user
     * message and the request it sends. A blank input or a send already in
     * progress changes nothing and sends nothing.
     */
    method BeginSend() returns (request: Option<seq<Message>>)
      requires Valid()
      modifies this
      ensures Valid()
      ensures Trim(old(input)) == "" || old(isLoading) ==>
        request.None? && messages == old(messages) && input == old(input) &&
        isLoading == old(isLoading) && phase == old(phase) &&
        textBuffer == old(textBuffer) && assistantContent == old(assistantContent)
      ensures Trim(old(input)) != "" && !old(isLoading) ==>
        request == Some(old(messages) + [Message(User, Trim(old(input)))]) &&
        messages == request.value && input == "" && isLoading && phase == Awaiting &&
        assistantContent == ""
    {
      if Trim(input) == "" || isLoading {
        return None;
      }
      var userMessage := Message(User, Trim(input));
      var newMessages := messages + [userMessage];
      messages := newMessages;
      input := "";
      isLoading := true;
      phase := Awaiting;
      assistantContent := "";
      request := Some(newMessages);
    }

    /**
     * The status checks once `fetch` resolves. 429 and 402 end the send with
     * their own notices, a non-ok status or a missing body with the generic
     * one; otherwise the empty assistant message is appended and reading starts.
     */
    method ReceiveResponse(status: int, hasBody: bool) returns (notice: Option<Notice>)
      requires Valid() && phase == Awaiting
      modifies this
      ensures Valid() && input == old(input)
      ensures status == 429 ==> notice == Some(RateLimited)
      ensures status == 402 ==> notice == Some(CreditsNeeded)
      ensures status != 429 && status != 402 && (!IsOk(status) || !hasBody) ==> notice == Some(SomethingWentWrong)
      ensures notice.Some? ==> messages == old(messages) && !isLoading && phase == Idle
      ensures notice.None? <==> IsOk(status) && hasBody
      ensures notice.None? ==>
        messages == old(messages) + [Message(Assistant, "")] && phase == Streaming &&
        Decoding() == Fresh
    {
      if status == 429 {
        isLoading := false;
        phase := Idle;
        return Some(RateLimited);
      }
      if status == 402 {
        isLoading := false;
        phase := Idle;
        return Some(CreditsNeeded);
      }
      if !IsOk(status) || !hasBody {
        notice := FailRequest();
        return;
      }
      textBuffer := "";
      assistantContent := "";
      messages := messages + [Message(Assistant, "")];
      phase := Streaming;
      notice := None;
    }

    /** The `catch` and `finally` of the handler: the generic notice, and loading off. */
    method FailRequest() returns (notice: Option<Notice>)
      requires Valid() && phase != Idle
      modifies this`isLoading, this`phase
      ensures Valid() && notice == Some(SomethingWentWrong) && !isLoading && phase == Idle
    {
      isLoading := false;
      phase := Idle;
      notice := Some(SomethingWentWrong);
    }

    /** The reader reports `done`: the outer loop ends and `finally` clears the loading flag. */
    method EndStream()
      requires Valid() && phase == Streaming
      modifies this`isLoading, this`phase
      ensures Valid() && !isLoading && phase == Idle
    {
      isLoading := false;
      phase := Idle;
    }

    /**
     * One chunk of the outer read loop: append it to the buffer and run the
     * inner line loop. Only the last message changes, to the reply so far; it
     * is rewritten each time a line appends content.
     */
    method FeedChunk(chunk: string)
      requires Valid() && phase == Streaming
      modifies this`textBuffer, this`assistantContent, this`messages
      ensures Valid()
      ensures Decoding() == Feed(parse, old(Decoding()), chunk)
      ensures |messages| == |old(messages)|
      ensures messages == old(messages)[|old(messages)| - 1 := Message(Assistant, assistantContent)]
    {
      var last := |messages| - 1;
      UpdateSame(messages, last, Message(Assistant, assistantContent));
      var buffer := textBuffer + chunk;
      var content := assistantContent;
      ghost var target := Drain(parse, buffer, content);
      while true
        invariant messages == old(messages)[last := Message(Assistant, content)]
        invariant Drain(parse, buffer, content) == target
        decreases |buffer|
      {
        if IndexOf(buffer, '\n') == -1 {
          break;
        }
        DrainUnfold(parse, buffer, content);
        var grown, stop;
        buffer, grown, stop := TakeLine(parse, buffer, content);
        if grown != content {
          UpdateTwice(old(messages), last, Message(Assistant, content), Message(Assistant, grown));
          messages := messages[last := Message(Assistant, grown)];
        }
        content := grown;
        if stop.Some? {
          break;
        }
      }
      textBuffer := buffer;
      assistantContent := content;
    }

    /** The outer read loop over the chunks the reader delivers before it reports `done` or fails. */
    method ReadStream(chunks: seq<string>)
      requires Valid() && phase == Streaming
      modifies this`textBuffer, this`assistantContent, this`messages
      ensures Valid()
      ensures Decoding() == FeedAll(parse, old(Decoding()), chunks)
      ensures |messages| == |old(messages)|
      ensures messages == old(messages)[|old(messages)| - 1 := Message(Assistant, assistantContent)]
    {
      ghost var start := Decoding();
      ghost var last := |messages| - 1;
      for k := 0 to |chunks|
        invariant Valid()
        invariant FeedAll(parse, Decoding(), chunks[k..]) == FeedAll(parse, start, chunks)
        invariant |messages| == |old(messages)|
        invariant messages == old(messages)[last := Message(Assistant, assistantContent)]
      {
        FeedAllUnfold(parse, Decoding(), chunks[k..]);
        assert chunks[k..][0] == chunks[k] && chunks[k..][1..] == chunks[k + 1..];
        ghost var before := assistantContent;
        FeedChunk(chunks[k]);
        UpdateTwice(old(messages), last, Message(Assistant, before), Message(Assistant, assistantContent));
      }
      assert |chunks[|chunks|..]| == 0;
    }

    /**
     * The whole handler for one transport answer, its awaits not interleaved
     * with other events of the page.
     */
    method HandleSend(transport: Transport) returns (request: Option<seq<Message>>, notice: Option<Notice>)
      requires Valid()
      modifies this
      ensures Valid()
      ensures Trim(old(input)) == "" || old(isLoading) ==>
        request.None? && notice.None? && messages == old(messages) && input == old(input) &&
        isLoading == old(isLoading) && phase == old(phase) && Decoding() == old(Decoding())
      ensures Trim(old(input)) != "" && !old(isLoading) ==>
        request == Some(old(messages) + [Message(User, Trim(old(input)))]) &&
        input == "" && !isLoading && phase == Idle
      ensures request.Some? && !Streamed(transport) ==>
        messages == request.value && notice == Some(NoticeFor(transport))
      ensures request.Some? && Streamed(transport) ==>
        messages == request.value + [Message(Assistant, FeedAll(parse, Fresh, transport.body.value.chunks).content)] &&
        (notice.Some? <==> transport.body.value.readFails) &&
        (notice.Some? ==> notice.value == SomethingWentWrong)
    {
      request := BeginSend();
      notice := None;
      if request.None? {
        return;
      }
      match transport {
        case NetworkError =>
          notice := FailRequest();
        case Answer(status, body) =>
          notice := ReceiveResponse(status, body.Some?);
          if notice.None? {
            ReadStream(body.value.chunks);
            if body.value.readFails {
              notice := FailRequest();
            } else {
              EndStream();
            }
          }
      }
    }
  }

  /**
   * One pass of the inner line loop over a buffer holding a complete line:
   * take the line out, then skip it, stop at the sentinel, push it back on a
   * parse failure, or append its content to the reply.
   */
  method TakeLine(parse: ParseFn, buffer: string, content: string)
    returns (rest: string, grown: string, stop: Option<Stop>)
    requires '\n' in buffer
    ensures var s := Step(parse, buffer, content);
      (stop.None? <==> s.Next?) && rest == s.buffer && grown == s.content &&
      (stop.Some? ==> stop.value == s.stop)
  {
    var newlineIndex := IndexOf(buffer, '\n');
    var line := buffer[..newlineIndex];
    rest := buffer[newlineIndex + 1..];
    assert SplitLine(buffer) == Some((line, rest));
    if EndsWith(line, "\r") {
      line := line[..|line| - 1];
    }
    assert line == StripCR(buffer[..newlineIndex]);
    grown := content;
    if StartsWith(line, ":") || Trim(line) == "" {
      return rest, grown, None;
    }
    if !StartsWith(line, DataPrefix) {
      return rest, grown, None;
    }
    var jsonStr := Trim(line[6..]);
    if jsonStr == DoneSentinel {
      return rest, grown, Some(SentinelSeen);
    }
    match parse(jsonStr) {
      case Malformed =>
        rest := line + "\n" + rest;
        return rest, grown, Some(ParseFailed);
      case NoContent =>
        return rest, grown, None;
      case Content(text) =>
        if text != "" {
          grown := content + text;
        }
        return rest, grown, None;
    }
  }

  /** Writing back the element a slot already holds leaves the sequence as it was. */
  lemma UpdateSame<T>(m: seq<T>, i: nat, x: T)
    requires i < |m| && m[i] == x
    ensures m[i := x] == m
  {
  }

  /** A second write to the same slot overrides the first. */
  lemma UpdateTwice<T>(m: seq<T>, i: nat, x: T, y: T)
    requires i < |m|
    ensures m[i := x][i := y] == m[i := y]
  {
  }

  /** The answer has an ok status and a body, so the reply is streamed. */
  predicate Streamed(transport: Transport)
  {
    transport.Answer? && transport.status != 429 && transport.status != 402 &&
    IsOk(transport.status) && transport.body.Some?
  }

  /** The notice an answer that is not streamed ends with. */
  function NoticeFor(transport: Transport): (n: Notice)
    requires !Streamed(transport)
    ensures n == RateLimited <==> transport.Answer? && transport.status == 429
    ensures n == CreditsNeeded <==> transport.Answer? && transport.status == 402
  {
    match transport
    case NetworkError => SomethingWentWrong
    case Answer(status, _) =>
      if status == 429 then RateLimited
      else if status == 402 then CreditsNeeded
      else SomethingWentWrong
  }
}
