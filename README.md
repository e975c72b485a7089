# Zenalyze core logic, modelled in Dafny

Zenalyze is a mental-health web app. This project models the three pieces of
it that hold logic rather than markup, and proves what they promise.

- **The chat send handler** (`handleSend` in `src/pages/Chat.tsx`). It does four things:
  - It guards the send against blank input and against a send already in progress.
  - It appends the trimmed user message and posts the whole conversation.
  - It branches on the response status: 429, 402, not ok, or no body.
  - It streams the reply. The body is a server-sent-events style stream of `data: <payload>` lines, with `:` comments, blank lines and a `data: [DONE]` sentinel, arriving in chunks with arbitrary boundaries. A line buffer carries partial lines from one chunk to the next, and the last message of the conversation grows with each content fragment.
- **The exercise library** (`src/pages/Exercises.tsx`): the category filter with its `"all"` case, the minutes-to-seconds conversion of a logged session, and the icon and gradient lookups with their defaults.
- **The crisis page's call button** (`src/pages/Emergency.tsx`): `phone_number.replace(/\D/g, "")`, then a dial of `tel:<digits>` only when digits remain.

## Files

- `wrappers.dfy`: `Option`.
- `text.dfy`: the JavaScript string operations the handler uses: `trim` with the ECMAScript white-space and line-terminator set, `indexOf`, `startsWith` and `endsWith`.
- `sequences.dfy`: order-preserving filtering and the subsequence relation. `Array.prototype.filter` and the `\D` deletion are both instances.
- `sse.dfy`: the frame decoder as functions.
  - `Step` is one pass of the inner line loop and `Drain` the whole inner loop.
  - `Feed` is one chunk of the outer read loop and `FeedAll` all of it.
  - These functions are the specification that the loops of `ChatView` are proved against.
- `sse_properties.dfy`: what the decoder promises, line by line and over whole streams.
- `chat.dfy`: `ChatView`, a class holding the page state the handler mutates: `messages`, `input` and `isLoading`.
  - The handler's locals `textBuffer` and `assistantContent` are fields too, because they live across the awaits between phases.
  - Its methods are the phases between the handler's awaits.
  - `FeedChunk` holds the inner `while` loop and `ReadStream` the outer read loop.
  - `TakeLine` is the body of the inner loop, a method on the buffer and content values. `FeedChunk` runs the loop on local copies and writes the last message each time a line appends content.
  - `HandleSend` runs all the phases in order for one transport answer.
- `exercises.dfy`, `emergency.dfy`: the two pure pages.

## Modelling choices

- **JSON parsing.** `JSON.parse(jsonStr)` followed by `parsed.choices?.[0]?.delta?.content` is a parameter `parse: string -> Parsed`. `Parsed` has three cases:
  - `Malformed`: the parse throws and the `catch` runs. This includes payloads such as `null`, where the property access itself throws.
  - `NoContent`: the field is missing, or present but falsy (`null`, `false`, `0`, `""`), so `if (content)` skips it.
  - `Content(text)`.
  
  `if (content)` is modelled as `text != ""`.
- **Transport.**
  - `fetch` settles to a `Transport`: either `NetworkError`, or `Answer(status, body)`.
  - A body is the sequence of already-decoded chunks the reader delivers, plus a flag saying whether a later `read()` rejects instead of reporting `done`.
- **The `async` handler.**
  - It is split at its awaits into `BeginSend`, `ReceiveResponse`, `FeedChunk`/`ReadStream`, and `EndStream`/`FailRequest`.
  - A `phase` field (`Idle`, `Awaiting`, `Streaming`) records where it is. `isLoading` is true exactly when the phase is not `Idle`.
  - So a second `BeginSend` during a running send is observably a no-op.
- **`[DONE]`, as written.**
  - The `break` on `[DONE]` (src/pages/Chat.tsx:104) leaves only the inner line loop. The outer read loop goes on until the reader reports `done`.
  - So lines buffered behind the sentinel stay in the buffer. They are decoded only if another chunk arrives, even an empty one. If the reader reports `done` next, they are never decoded (`LinesAfterSentinelResume` shows both cases).
  - A design that ends decoding at the sentinel would always drop them. The model follows the code.
- **Chunk-boundary independence.**
  - This needs less than "every payload parses". A complete line that fails to parse is pushed back and blocks the stream for good, whatever the chunking.
  - A sufficient condition is `NothingAfterSentinel`: every complete line left behind the sentinel has an empty fragment. Blank lines, comments, a second `[DONE]` and unparsable lines all qualify. So the usual ending `data: [DONE]` plus a blank line is covered (`BlankLineEnding`).
  - The condition is not necessary. For example, a line with content that comes after an unparsable line behind the sentinel is never decoded, whatever the chunking, since the unparsable line blocks the stream first.
- **Strings.** Strings are sequences of Unicode scalar values and chunks are already decoded. The `\D` test is the ASCII class `[0-9]`, as in the source's regular expression.

## Model

| member | source | states |
|---|---|---|
| Text.Trim | src/pages/Chat.tsx:34-36 | `String.prototype.trim`, as the leading strip then the trailing strip; the result is never longer than the input, and `Text.TrimSpec` states its whole meaning. The same function models the trims at src/pages/Chat.tsx:100 and 103 |
| Text.TrimStart | src/pages/Chat.tsx:103 | the leading half of `trim`; never longer than the input, with its meaning in `Text.TrimStartSpec` |
| Text.TrimEnd | src/pages/Chat.tsx:103 | the trailing half of `trim`; never longer than the input, with its meaning in `Text.TrimEndSpec` |
| Text.StartsWith | src/pages/Chat.tsx:100-101 | `startsWith`: the prefix is no longer than the string and equals its first characters (a predicate, no contract of its own) |
| Text.EndsWith | src/pages/Chat.tsx:99 | `endsWith`: the suffix is no longer than the string and equals its last characters (a predicate, no contract of its own) |
| Text.TrimSpec | src/pages/Chat.tsx:100-103 | `trim` is empty exactly for all-white-space input; otherwise it is the contiguous middle of the input, with white space only around it and none at its ends |
| Text.TrimStartSpec | src/pages/Chat.tsx:103 | the leading-white-space strip removes a white-space prefix and stops at the first other character |
| Text.TrimEndSpec | src/pages/Chat.tsx:103 | the trailing strip removes a white-space suffix and stops at the last other character |
| Text.TrimIgnoresTrailingWhitespace | src/pages/Chat.tsx:99-103 | one more trailing white-space character (such as a second `\r`) does not change the trimmed payload |
| Text.IndexOf | src/pages/Chat.tsx:95 | `-1` exactly when the character is absent; otherwise the index of its first occurrence |
| Text.TrimStartAppend | src/pages/Chat.tsx:103 | the leading strip of `s` plus one character is the strip of `s` plus that character, unless `s` is all white space |
| Text.IndexOfFirst | src/pages/Chat.tsx:95 | in `x + "\n" + y` with no newline in `x`, the first newline is at `|x|` |
| Sse.SplitLine | src/pages/Chat.tsx:95-97 | no line is taken exactly when the buffer has no `\n`; a taken line has no `\n`, and `line + "\n" + rest` is the old buffer |
| Sse.SplitJoin | src/pages/Chat.tsx:95-97 | splitting `line + "\n" + rest` gives back `line` and `rest` (the round trip) |
| Sse.StripCR | src/pages/Chat.tsx:99 | exactly one trailing `\r` is removed when present, and nothing otherwise |
| Sse.Classify | src/pages/Chat.tsx:100-104 | a line without the 6-character `data: ` prefix is ignored (this covers `:` comments and blank lines); otherwise the trimmed rest is the sentinel or the payload |
| Sse.ClassifyStripCR | src/pages/Chat.tsx:121 | a data line keeps its frame when a pushed-back copy loses another trailing `\r` |
| Sse.StripCRKeepsPrefix | src/pages/Chat.tsx:99-102 | stripping the `\r` of a `data: ` line keeps the prefix and removes only the last payload character |
| Sse.LineStep | src/pages/Chat.tsx:99-123 | a stop leaves the content unchanged; going on and the sentinel both drop the line; a parse failure puts the stripped line back in front of the rest |
| Sse.LineStepExtends | src/pages/Chat.tsx:106-110 | a pass of the loop body only appends to the content |
| Sse.Step | src/pages/Chat.tsx:95-123 | a pass that goes on shortens the buffer |
| Sse.Drain | src/pages/Chat.tsx:95-124 | the inner loop ends with no `\n` left in the buffer unless a `break` fired, and the buffer never grows |
| Sse.DrainExtends | src/pages/Chat.tsx:95-124 | the inner loop only appends to the content |
| Sse.Feed | src/pages/Chat.tsx:92-124 | after one chunk the buffer is at most the old buffer plus the chunk |
| Sse.FeedAll | src/pages/Chat.tsx:88-125 | the outer read loop, one `Feed` per chunk; it has no contract of its own: `Sse.FeedAllExtends`, `SseProperties.WholeBodyDecoding` and `SseProperties.StreamedReply` state what it promises |
| Sse.FeedAllExtends | src/pages/Chat.tsx:88-125 | over all chunks the content only grows: the reply shown never loses text |
| SseProperties.IgnoredLineEmitsNothing | src/pages/Chat.tsx:100-101 | a comment, blank or non-`data:` line is consumed and emits nothing |
| SseProperties.SentinelStopsInnerLoop | src/pages/Chat.tsx:104 | a `[DONE]` line emits nothing and stops the inner loop with the following lines still buffered |
| SseProperties.ParseFailurePushesLineBack | src/pages/Chat.tsx:120-122 | a parse failure emits nothing, stops the loop, and restores the buffer to its value before the line was taken, less the one stripped `\r` |
| SseProperties.PushedBack | src/pages/Chat.tsx:120-122 | the inner loop over a buffer headed by an unparsable line stops at once, with the stripped line put back in front of the rest |
| SseProperties.PushBackRestores | src/pages/Chat.tsx:96-121 | the stripped line put back in front of the rest is the buffer from before the take, less its one `\r` |
| SseProperties.ContentLineAppends | src/pages/Chat.tsx:106-110 | a data line with content appends that content and the loop goes on with the next line |
| SseProperties.LineStepContent | src/pages/Chat.tsx:99-123 | a pass of the loop body does not look at the content accumulated so far, which it only extends |
| SseProperties.StepContent | src/pages/Chat.tsx:95-123 | the same for a pass that first takes the line out |
| SseProperties.DrainContent | src/pages/Chat.tsx:110 | the inner loop's result does not depend on the content accumulated before it, which it only extends |
| SseProperties.DrainContentNext | src/pages/Chat.tsx:95-110 | the same, for a buffer whose first pass goes on |
| SseProperties.LineStepAppend | src/pages/Chat.tsx:96-123 | text behind the rest of the buffer does not change a pass of the loop body, and stays behind what it leaves |
| SseProperties.StepAppend | src/pages/Chat.tsx:95-123 | the same for a pass that first takes the line out |
| SseProperties.DrainAppend | src/pages/Chat.tsx:92-97 | text arriving behind the buffer does not change how the complete lines already buffered are processed |
| SseProperties.DrainFailedBlocked | src/pages/Chat.tsx:120-122 | an inner loop stopped by a parse failure leaves the failing line at the head of the buffer |
| SseProperties.BlockedStays | src/pages/Chat.tsx:120-122 | a buffer headed by an unparsable line stays so, whatever arrives, and emits nothing |
| SseProperties.BlockedAppend | src/pages/Chat.tsx:92 | text arriving behind an unparsable head line leaves it at the head |
| SseProperties.BlockedHalts | src/pages/Chat.tsx:120-122 | the inner loop over such a buffer stops with a parse failure, emits nothing, and leaves the buffer headed by the same line |
| SseProperties.PushedBackBlocks | src/pages/Chat.tsx:121 | the pushed-back line still heads the buffer and still fails to parse |
| SseProperties.MalformedLineBlocksStream | src/pages/Chat.tsx:120-122 | once such a line is at the head, no later chunk adds any content |
| SseProperties.PartialLineWaits | src/pages/Chat.tsx:92-97 | chunks that complete no line only grow the buffer and emit nothing |
| SseProperties.FeedAllMatchesDrain | src/pages/Chat.tsx:88-97 | from a buffer with no complete line, reading chunk by chunk yields the content of draining their concatenation at once, provided every complete line behind a sentinel has an empty fragment |
| SseProperties.SilentDrain | src/pages/Chat.tsx:95-123 | the inner loop over a buffer whose complete lines all have empty fragments emits nothing; what it leaves, including a pushed-back unparsable line, still has only such lines |
| SseProperties.SilentFeedAll | src/pages/Chat.tsx:88-125 | reading chunks that, together with the buffer, hold only lines with empty fragments leaves the content unchanged, however they are cut |
| SseProperties.SilentLines | src/pages/Chat.tsx:95-104 | complete lines with empty fragments followed by a partial line form such a buffer |
| SseProperties.WholeBodyDecoding | src/pages/Chat.tsx:88-97 | any split of a body whose complete lines behind its sentinel all have empty fragments gives the same reply as the body in one chunk |
| SseProperties.ChunkBoundaryIndependence | src/pages/Chat.tsx:88-97 | two splits of the same such body give the same reply |
| SseProperties.DrainLines | src/pages/Chat.tsx:106-118 | over passing lines, the content grows by each line's fragment, in arrival order |
| SseProperties.LinesCons | src/pages/Chat.tsx:95-97 | a body of lines is its first line, a newline and the rest |
| SseProperties.FragmentsCons | src/pages/Chat.tsx:110 | appending the first line's fragment, then the others', appends all the fragments |
| SseProperties.DrainPassingLine | src/pages/Chat.tsx:106-110 | a passing line appends its fragment and the loop continues |
| SseProperties.CloseDrain | src/pages/Chat.tsx:95-104 | a partial line alone, or a sentinel line followed by lines with empty fragments and a partial line, emits nothing; if it stops at the sentinel, every complete line left has an empty fragment |
| SseProperties.ClosedBodyDrain | src/pages/Chat.tsx:95-118 | the inner loop over passing lines, then such a closing part, yields the lines' fragments; if it stops at the sentinel, every complete line left has an empty fragment |
| SseProperties.SingleChunk | src/pages/Chat.tsx:88-92 | a body read as one chunk has the content of one run of the inner loop |
| SseProperties.StreamedReply | src/pages/Chat.tsx:88-125 | for any chunking, the reply to a body of passing lines, optionally closed by `[DONE]` and lines with empty fragments, is the concatenation of the lines' fragments |
| SseProperties.BlankLineEnding | src/pages/Chat.tsx:88-125 | for any chunking, a body of passing lines ended by `data: [DONE]` and a blank line replies with the lines' fragments |
| SseProperties.DoneLine | src/pages/Chat.tsx:104 | `data: [DONE]` is classified as the sentinel |
| SseProperties.PayloadLine | src/pages/Chat.tsx:101-103 | `data: ` followed by a trimmed payload is that payload's frame |
| SseProperties.CompletingChunk | src/pages/Chat.tsx:92-110 | the chunk that completes a buffered partial content line emits its content |
| SseProperties.SentinelChunk | src/pages/Chat.tsx:104 | the sentinel chunk on an empty buffer changes nothing |
| SseProperties.FeedAllCons | src/pages/Chat.tsx:88-92 | one pass of the outer loop feeds the first chunk, then the rest |
| SseProperties.SplitFrameThenSentinel | src/pages/Chat.tsx:92-104 | a frame cut anywhere before its newline, then `[DONE]`, yields exactly that frame's content with an empty buffer |
| SseProperties.LinesAfterSentinelResume | src/pages/Chat.tsx:88-104 | a line behind `[DONE]` in the same chunk emits nothing if the reader then reports `done`, but is decoded if another chunk, even an empty one, arrives |
| SseProperties.SentinelFirst | src/pages/Chat.tsx:104 | the chunk `data: [DONE]` plus a data line leaves that data line buffered and the content empty |
| SseProperties.LateLine | src/pages/Chat.tsx:92-110 | an empty chunk still runs the inner loop, which decodes the complete line left in the buffer |
| Sequences.Filter | src/pages/Exercises.tsx:86 | the result is no longer than the input, all of it passes, it is a subsequence, and each passing element keeps its count |
| Sequences.FilterUnique | src/pages/Exercises.tsx:86 | any subsequence that passes throughout and is as long as the filter is the filter |
| Sequences.KeptSubsequenceBound | src/pages/Exercises.tsx:86 | no subsequence that passes throughout is longer than the filter |
| Sequences.FilterIdempotent | src/pages/Exercises.tsx:86 | filtering twice equals filtering once |
| Sequences.FilterAllKept | src/pages/Exercises.tsx:86 | a sequence that passes throughout is its own filter |
| Sequences.FilterConcat | src/pages/Emergency.tsx:123 | filtering distributes over concatenation |
| Sequences.SubsequenceRefl | src/pages/Exercises.tsx:84-85 | every sequence is a subsequence of itself, the `"all"` case of the filter |
| Sequences.SubsequenceSkip | src/pages/Exercises.tsx:86 | a subsequence of the tail is a subsequence of the whole |
| Sequences.SubsequenceTail | src/pages/Exercises.tsx:86 | dropping the head of a subsequence keeps it a subsequence |
| Chat.ChatView.constructor | src/pages/Chat.tsx:18-20 | the page starts with no messages, empty input and loading off |
| Chat.ChatView.SetInput | src/pages/Chat.tsx:233 | typing replaces the input and nothing else |
| Chat.ChatView.BeginSend | src/pages/Chat.tsx:34-42 | a blank input or a running send changes nothing and sends nothing; otherwise exactly one user message with the trimmed input is appended, the request is the new conversation, the input is cleared and loading is on |
| Chat.ChatView.ReceiveResponse | src/pages/Chat.tsx:57-86 | 429 and 402 get their own notices; a non-ok status or missing body gets the generic one; each of these leaves the conversation unchanged with loading off; streaming starts exactly for an ok status with a body, with one empty assistant message appended |
| Chat.ChatView.FailRequest | src/pages/Chat.tsx:126-134 | the generic notice, and loading off |
| Chat.ChatView.EndStream | src/pages/Chat.tsx:89-134 | the reader's `done` (the `break` at lines 89-90) ends the send, and the `finally` at lines 132-134 turns loading off |
| Chat.TakeLine | src/pages/Chat.tsx:95-123 | one pass of the inner loop leaves the buffer and content that `Step` specifies, and stops the loop exactly when `Step` halts, for the reason `Step` gives |
| Chat.ChatView.FeedChunk | src/pages/Chat.tsx:92-124 | the buffer and content become `Feed` of the old ones; the conversation keeps its length and only its last message changes, to the reply so far |
| Chat.ChatView.ReadStream | src/pages/Chat.tsx:88-125 | after all chunks the buffer and content are `FeedAll` of the old ones, and only the last message has changed |
| Chat.ChatView.HandleSend | src/pages/Chat.tsx:33-135 | an ignored send changes nothing and sends nothing: the conversation, input, loading flag, phase, and a running stream's buffer and content all stay as they were. Otherwise: the request is the old conversation plus the trimmed user message; loading is off on every exit; error answers end with the user's message last and the matching notice; a streamed answer ends with one assistant message holding `FeedAll` of the chunks, and with the generic notice exactly when a read failed |
| Chat.IsOk | src/pages/Chat.tsx:77 | `response.ok`: a status from 200 to 299 (a predicate, no contract of its own) |
| Chat.NoticeFor | src/pages/Chat.tsx:57-78 | `Rate limited` exactly for 429, `Credits needed` exactly for 402, the generic notice otherwise |
| Exercises.Visible | src/pages/Exercises.tsx:84-86 | `"all"` shows the list unchanged; another filter shows only exercises of that category, each as often as in the list, in list order |
| Exercises.InCategory | src/pages/Exercises.tsx:86 | the test `e.category === filter`; no contract of its own, and `Exercises.Visible` states what filtering by it gives |
| Exercises.VisibleExactly | src/pages/Exercises.tsx:86 | under a category filter the grid is the only in-order selection of that category's exercises that is as long as the grid |
| Exercises.VisibleIdempotent | src/pages/Exercises.tsx:84-86 | filtering the grid again with the same filter changes nothing |
| Exercises.DistinctCategoriesDisjoint | src/pages/Exercises.tsx:86 | no exercise is shown under two different category filters |
| Exercises.CompletionRow | src/pages/Exercises.tsx:57-65 | nothing is logged exactly when no user is signed in; the row names the user and exercise, and its seconds are a whole number of minutes equal to the exercise's duration |
| Exercises.IconFor | src/pages/Exercises.tsx:168 | a known category gets its table icon and any other category gets `Wind`; the icon is `Wind` exactly for breathing or an unknown category |
| Exercises.GradientFor | src/pages/Exercises.tsx:169 | the table gradient, or `from-zen-sage to-zen-sky` when the lookup is missing or empty; no contract of its own, and `Exercises.GradientLookup` states its meaning |
| Exercises.GradientLookup | src/pages/Exercises.tsx:169 | a known category gets its table gradient, any other gets `from-zen-sage to-zen-sky`, and the default is returned exactly for categories missing from the table |
| Exercises.FilterButtonsMatchTables | src/pages/Exercises.tsx:88 | the filter buttons other than `all` name exactly the keys of both tables, and `all` is not a table key |
| Emergency.NormalizePhone | src/pages/Emergency.tsx:123 | the result holds only `0`–`9`, is a subsequence of the input, keeps every digit's count, and is no longer than the input |
| Emergency.NormalizeExactly | src/pages/Emergency.tsx:123 | the result is the only in-order selection of the input's digits that is as long as it |
| Emergency.NormalizeIdempotent | src/pages/Emergency.tsx:123 | normalising twice equals normalising once |
| Emergency.NormalizeConcat | src/pages/Emergency.tsx:123 | normalisation works part by part over a concatenation |
| Emergency.NormalizeEmpty | src/pages/Emergency.tsx:123-124 | the result is empty exactly when the input has no digit |
| Emergency.DialUri | src/pages/Emergency.tsx:123-124 | a dial happens exactly when the input has a digit, and the URI is `tel:` followed by the digits; it reads back as `tel:` followed by a number that is already normalised |
| Emergency.CallButtonFor | src/pages/Emergency.tsx:118-129 | a button exists exactly when the number is present and non-empty; its caption is the number as stored, and a click dials exactly when the number normalises to something non-empty, opening `tel:` plus the digits |

## Left out

- Network, transport and decoding:
  - `fetch`, the request URL, headers and body serialisation (src/pages/Chat.tsx:45-55): network I/O. The request is returned as the message list it serialises.
  - The `ReadableStream` reader and `TextDecoder` (src/pages/Chat.tsx:81-92): byte-level I/O. Chunks are already-decoded strings, so a multi-byte character split across byte chunks is not modelled.
  - JavaScript strings are UTF-16 code units, and Dafny strings are Unicode scalar values. Text outside the Basic Multilingual Plane is not modelled at code-unit level.
  - The internals of `JSON.parse` and optional chaining (src/pages/Chat.tsx:107-108): they are a parameter. A non-string `content` is folded into `NoContent` when it is falsy and into `Content` with its string form when it is truthy.
- React and UI:
  - The toasts' wording, scrolling, `ReactMarkdown` and the Enter-key handler (src/pages/Chat.tsx:25-31, 137-142): UI.
  - React's asynchronous state updates, re-rendering and closure capture. Two sends dispatched within one render would both see the old `isLoading`; the model applies each state update at once.
  - The interleaving of other page events between the handler's awaits. `HandleSend` runs the phases back to back; the phase methods can be called in any order their preconditions allow.
- `HandleSend`: does not model a stream that never ends (no timeout exists in the source). The reader is a finite chunk sequence.
- Other fields:
  - The exercise fields `description`, `difficulty` and `instructions`, and the player UI.
  - The crisis resource fields `description`, `available_24_7` and `website_url`.
  - These are displayed only.
- Supabase:
  - Loading the lists, the insert call and its error toast (src/pages/Exercises.tsx:37-55, 61-81; src/pages/Emergency.tsx:20-38): remote I/O. `CompletionRow` is the row the insert receives.
  - Server-side ordering: the lists are taken as delivered.
- Arithmetic: `duration_minutes` is a JavaScript number. It is modelled as an integer, so fractional minutes and floating-point rounding of the product are not modelled.
- `Exercises.IconFor`: does not model keys inherited from `Object.prototype`. Looking up a category named like `constructor` in the source's plain object finds an inherited function, which is truthy. The model treats such a key as unknown, so it returns the default icon.
- `Exercises.GradientFor` and `Exercises.GradientLookup`: do not model prototype keys either. In the source, a category named like `constructor` yields that inherited value instead of the default gradient.
- The category button captions (`cbt` shown as `CBT`, src/pages/Exercises.tsx:113): display text.
