# smart-rag frontend core in Dafny

This project models the logic at the core of the smart-rag web frontend:

- **The chat completion dispatcher** (`fetchChatResponse`). It POSTs the conversation to an OpenAI-compatible endpoint and makes at most three attempts (at most two retries).
  - A status in {408, 429, 500, 502, 503, 504} and a "Failed to fetch" network error both wait and retry. The wait honours a `Retry-After` header, or else uses exponential backoff with jitter.
  - A status in {400, 401, 403, 404} throws a `ClientError`. Any other non-ok status throws a `ServerError`. Both stop the retries.
  - Any other exception is retried, except on the last attempt.
  - When the retries run out, the call resolves to `null`.
- **The error taxonomy** (`NetworkError`, `ClientError`, `ServerError`).
- **The chat page's `handleSendMessage`**:
  - the send guard;
  - the line-buffered decoding of the `data: …` event stream, chunk by chunk;
  - the `setMessages` updater that coalesces content deltas into one trailing assistant message;
  - the mapping of a caught error to one assistant message.
- **The page navigation of the PDF/JSONL viewer**:
  - the page count derived from the data;
  - the Previous/Next clamps and their disabled conditions;
  - the go-to-page form;
  - bounding-box selection.

## Modules

- `Wrappers`: the `Option` type, for JavaScript `null`/`undefined`.
- `JsText`: the JavaScript string built-ins the core relies on, with their properties proved. These are `trim`, `parseInt(s, 10)`, `includes`, `split` on one character and `String(n)`.
- `Errors`: the three error classes as one tagged datatype, plus the other exceptions a call can see (`TypeError`, plain `Error`).
- `OpenAIService`: the constants, `calculateDelay`, `isNetworkError`, the retry loop as a method, and its specification.
  - The network is an oracle: `outcomes[i]` is what `fetch` does on attempt `i`. It either resolves to a response (status, text, `Retry-After` header, body) or rejects with an exception.
  - `Math.random()` jitter is `jitters[i]`, an integer in [0, 250).
  - A call produces a result and a trace of fetches and waits.
  - The method is proved equal to `Dispatched`, a recursive definition of the same loop. The properties are lemmas about `Dispatched`.
- `ChatPage`:
  - The stream decoder and the message accumulator, as functions.
  - The `ChatSession` class, whose `messages`, `input` and `isLoading` fields are the page's state. Its `HandleSendMessage` method is written with the source's read loop and line loop.
  - `JSON.parse` plus `choices?.[0]?.delta?.content` is the `extract` parameter.
- `PdfJsonlViewer`: the page computations, as functions, and the `Viewer` class with `numPages`, `selectedBbox` and `goToPage`. A handler's call to the parent's `onPageChange` is the handler's result.

Two consequences of the code stand out in the proofs:

- `fetchChatResponse` never throws a `NetworkError` (`ChatPage.DispatchErrorShown`). It retries network failures and then resolves to `null`, and the page shows "An error occurred" for a missing stream (`ChatPage.SendFailureOneReply`). The model assumes that reading a body fails only with a platform error, never with one of the application's error classes: `HandleSendMessage` requires this as `OpenAIService.PlatformStreams`. Under that assumption a send never shows the chat page's "Network error" text (`ChatPage.NetworkTextNeverShown`).
- A `[DONE]` line only ends the lines of its own chunk, and the read loop goes on. Text after `[DONE]` in a later chunk is still decoded (`ChatPage.DoneKeepsNextChunk`).

## Model

| member | source | states |
|---|---|---|
| Errors.NewNetworkError | frontend/src/types/error.ts:1-6 | a NetworkError carries exactly the given message, is named 'NetworkError' and has no status code |
| Errors.NewClientError | frontend/src/types/error.ts:8-16 | a ClientError keeps the given status code and message and is named 'ClientError' |
| Errors.NewServerError | frontend/src/types/error.ts:18-26 | a ServerError keeps the given status code and message and is named 'ServerError' |
| Errors.KindsDisjoint | frontend/src/types/error.ts:1-26 | the three error classes never coincide: a client and a server error with the same status and message differ by value and by name, and each name differs from NetworkError's |
| OpenAIService.CalculateDelay | frontend/src/services/openaiService.ts:16-24 | `calculateDelay`: its behaviour with and without a Retry-After hint is stated by the Delay lemmas below |
| JsText.TrimSlice | frontend/src/app/playground/chat/page.tsx:25 | the trimmed text is the slice of the input left after removing leading and trailing whitespace; everything removed is whitespace, and the result neither starts nor ends with whitespace |
| JsText.TrimEmptyIff | frontend/src/app/playground/chat/page.tsx:25 | `input.trim() === ''` exactly when the input is all whitespace (including empty) |
| JsText.Trim | frontend/src/app/playground/chat/page.tsx:25 | `trim`: leading then trailing ECMAScript whitespace removed; what it keeps and cuts is stated by TrimSlice and TrimEmptyIff |
| JsText.ParseInt | frontend/src/services/openaiService.ts:18 | `parseInt(s, 10)`: skip whitespace, an optional sign, then the longest run of digits; NaN (None) exactly when there is no digit there |
| JsText.DigitPrefix | frontend/src/services/openaiService.ts:18 | the digits parseInt reads are all decimal digits |
| JsText.DigitPrefixLongest | frontend/src/services/openaiService.ts:18 | those digits are a prefix of the text and the longest one: the next character, if any, is not a digit |
| JsText.IntToString | frontend/src/components/PDFJSONLViewer.tsx:41 | `String(page)` for an integer: never empty; parseInt reads it back (ParseIntOfIntToString) |
| JsText.ParseIntOfIntToString | frontend/src/components/PDFJSONLViewer.tsx:37-41 | parseInt reads back the decimal text of any integer, whatever non-digit text follows it |
| JsText.ParseIntRejectsNonNumeric | frontend/src/services/openaiService.ts:18-19 | text whose first character is neither whitespace, a sign nor a digit (an HTTP-date, say) parses to NaN |
| JsText.Includes | frontend/src/services/openaiService.ts:28 | `message.includes(sub)`: tied both ways to an occurrence at some position by IncludesIff |
| JsText.StartsWith | frontend/src/app/playground/chat/page.tsx:49 | `line.startsWith(prefix)`: the prefix is the line's first characters |
| JsText.Truthy | frontend/src/app/playground/chat/page.tsx:55 | JavaScript truthiness of a string that may be missing: present and non-empty |
| JsText.IncludesIff | frontend/src/services/openaiService.ts:28 | `includes` holds exactly when the substring occurs at some position |
| JsText.Split | frontend/src/app/playground/chat/page.tsx:45 | `split('\n')` always yields at least one piece, so `lines.pop()` always has one to take |
| JsText.SplitPiecesFree | frontend/src/app/playground/chat/page.tsx:45 | no piece that split yields contains the separator |
| JsText.JoinSplit | frontend/src/app/playground/chat/page.tsx:45 | the pieces of split, joined with the separator, give back the original text |
| JsText.SplitAppend | frontend/src/app/playground/chat/page.tsx:44-46 | the pieces of a concatenation are those of each part, with the last piece of the first glued to the first piece of the second |
| OpenAIService.DelayFromHint | frontend/src/services/openaiService.ts:16-20 | a non-empty Retry-After that parseInt reads as n gives n*1000 ms, uncapped; one it cannot read gives 500 ms |
| OpenAIService.DelayFromSeconds | frontend/src/services/openaiService.ts:17-19 | a Retry-After holding a decimal number of seconds n, with any non-digit text after it, gives exactly n*1000 ms |
| OpenAIService.DelayFromHttpDate | frontend/src/services/openaiService.ts:17-19 | a Retry-After in HTTP-date form (starting with a letter) gives 500 ms, not the time until that date |
| OpenAIService.DelayBounds | frontend/src/services/openaiService.ts:21-23 | without a usable hint the delay is at least min(500·2^attempt, 5000), at most 5000, and below 500·2^attempt + 250 |
| OpenAIService.DelayWithinBudget | frontend/src/services/openaiService.ts:21-23 | on every attempt the loop makes, the uncapped backoff is exactly 500·2^attempt + jitter |
| OpenAIService.DelayCapped | frontend/src/services/openaiService.ts:21-23 | from attempt 4 on the backoff is exactly the 5000 ms cap |
| OpenAIService.DelayMonotone | frontend/src/services/openaiService.ts:21-23 | for the same jitter the backoff never decreases as the attempt grows |
| OpenAIService.Pow2Monotone | frontend/src/services/openaiService.ts:22 | 2^a ≤ 2^b whenever a ≤ b |
| OpenAIService.NetworkErrorIff | frontend/src/services/openaiService.ts:27-29 | true exactly for a TypeError whose message contains 'Failed to fetch' at some position |
| OpenAIService.IsNetworkError | frontend/src/services/openaiService.ts:27-29 | `isNetworkError`: characterised both ways by NetworkErrorIff |
| OpenAIService.IsTerminal | frontend/src/services/openaiService.ts:81 | the test that an error is a ClientError or a ServerError, which rethrows it; used by CatchStep and RaisedIsTerminal |
| OpenAIService.IsOk | frontend/src/services/openaiService.ts:50 | `response.ok`: a status from 200 to 299; AttemptClassification states that exactly these return the body |
| OpenAIService.CatchStep | frontend/src/services/openaiService.ts:73-90 | the catch block: a network error retries, a client or server error is rethrown, any other error breaks on the last attempt and retries before it; stated by AttemptClassification |
| OpenAIService.AttemptStep | frontend/src/services/openaiService.ts:36-90 | one loop iteration, try and catch together; stated outcome by outcome by AttemptClassification |
| OpenAIService.AttemptClassification | frontend/src/services/openaiService.ts:50-89 | one attempt:<br>• returns the body exactly for a 2xx status;<br>• throws exactly for a non-ok status outside the retryable set (ClientError for 400/401/403/404, ServerError otherwise), or for a rejection with a client or server error;<br>• breaks exactly for an unknown error on the last attempt;<br>• otherwise waits calculateDelay(attempt, Retry-After), or calculateDelay(attempt) after an exception |
| OpenAIService.TryAttempt | frontend/src/services/openaiService.ts:36-90 | the try/catch body of one attempt yields exactly the step that the attempt's classification defines |
| OpenAIService.Dispatched | frontend/src/services/openaiService.ts:35-95 | the retry loop as a recursive definition; FetchChatResponse is proved equal to it, and FetchCount, RaisedIsTerminal, ExhaustedReturnsNull and RetryableStatusesWaitEach state its behaviour |
| OpenAIService.FetchChatResponse | frontend/src/services/openaiService.ts:32-97 | the loop returns the same result and fetch/wait trace as the recursive definition; fetch runs 1 to 3 times, each wait follows a fetch, only client/server errors escape, and a first ok response returns its body after a single fetch |
| OpenAIService.FetchCount | frontend/src/services/openaiService.ts:35-91 | from any attempt on, fetch runs at least once and at most once per remaining attempt, and there are no more waits than fetches |
| OpenAIService.RaisedIsTerminal | frontend/src/services/openaiService.ts:73-84 | a thrown result is always a ClientError or a ServerError, and the call ends with the fetch that caused it: no later fetch or wait |
| OpenAIService.ExhaustedReturnsNull | frontend/src/services/openaiService.ts:35-95 | if every remaining attempt fails with a retryable status or a non-client/server exception, the call resolves to null after one fetch per attempt |
| OpenAIService.RetryableStatusesWaitEach | frontend/src/services/openaiService.ts:63-95 | when every remaining attempt gets a retryable status, each fetch is followed by the wait its Retry-After asks for, the last attempt included, and the call then resolves to null: as many waits as fetches |
| OpenAIService.UnknownErrorLastAttempt | frontend/src/services/openaiService.ts:87-89 | any error that is neither a network error nor a client or server error, on the last attempt, breaks without waiting and resolves to null |
| OpenAIService.ServiceUnavailableThenOk | frontend/src/services/openaiService.ts:50-70 | 503 then 200 gives exactly two fetches and one wait, and returns the second body |
| OpenAIService.UnauthorizedNoRetry | frontend/src/services/openaiService.ts:54-57 | a 401 throws ClientError(401, response text) after one fetch and no wait |
| OpenAIService.ReturnedStreamIsBody | frontend/src/services/openaiService.ts:50-51 | a stream the call resolves to is the body of one of the responses it fetched |
| OpenAIService.ReturnedStreamPlatform | frontend/src/services/openaiService.ts:50-51 | when every body fails only with platform errors, so does the stream the call resolves to |
| ChatPage.ApplyDelta | frontend/src/app/playground/chat/page.tsx:56-64 | the list grows by at most one and ends with an assistant message; earlier messages are unchanged; a trailing assistant message gets the delta appended, and otherwise one new assistant message holds the delta |
| ChatPage.Coalesce | frontend/src/app/playground/chat/page.tsx:56-64 | deltas t1..tn after a non-assistant message add one assistant message t1+…+tn; after an assistant message they extend it by t1+…+tn |
| ChatPage.ApplyDeltas | frontend/src/app/playground/chat/page.tsx:55-64 | the updaters of successive deltas applied in order; stated by Coalesce and ApplyDeltasAppend |
| ChatPage.ApplyDeltasAppend | frontend/src/app/playground/chat/page.tsx:55-64 | applying two runs of deltas one after the other is applying their concatenation |
| ChatPage.HandleLines | frontend/src/app/playground/chat/page.tsx:48-70 | the inner line loop; HandleLinesApplies states it as the in-order application of the deltas up to [DONE] |
| ChatPage.Payload | frontend/src/app/playground/chat/page.tsx:50 | `line.slice(6)`: the data line without its `data: ` prefix |
| ChatPage.IsDoneLine | frontend/src/app/playground/chat/page.tsx:49-51 | a data line whose payload is exactly [DONE]; DoneLineFacts states it is only `data: [DONE]` |
| ChatPage.HasDelta | frontend/src/app/playground/chat/page.tsx:49-55 | a data line other than [DONE] whose payload yields truthy content; SkippedLineIgnored states that any other line changes nothing |
| ChatPage.HandleLinesApplies | frontend/src/app/playground/chat/page.tsx:48-70 | handling a chunk's lines applies exactly the deltas of its data lines with truthy content, in order, up to the first [DONE] |
| ChatPage.SkippedLineIgnored | frontend/src/app/playground/chat/page.tsx:49-68 | a line without the `data: ` prefix, or a payload that fails to parse or has no truthy content, can be removed without changing the result; it does not end the loop |
| ChatPage.DoneEndsLines | frontend/src/app/playground/chat/page.tsx:50-51 | a [DONE] payload ends the lines of its chunk: nothing after it is handled |
| ChatPage.DoneLineFacts | frontend/src/app/playground/chat/page.tsx:49-51 | a line ends its chunk exactly when it is `data: [DONE]`: the payload is compared exactly, so `data:[DONE]` or a trailing space is no sentinel; that line holds no newline |
| ChatPage.HandleLinesAppend | frontend/src/app/playground/chat/page.tsx:48-70 | without [DONE], handling two runs of lines one after the other is handling their concatenation |
| ChatPage.HandleLinesBeforeDone | frontend/src/app/playground/chat/page.tsx:48-51 | of lines with a [DONE], those before the first one are handled and nothing after it |
| ChatPage.CompleteLines | frontend/src/app/playground/chat/page.tsx:45-46 | the lines a chunk hands to the line loop: every piece of the split but the last; stated over any chunking by LinesFedComplete |
| ChatPage.FeedChunk | frontend/src/app/playground/chat/page.tsx:44-70 | one turn of the read loop: append the chunk, handle the complete lines, keep the rest |
| ChatPage.DecodeChunks | frontend/src/app/playground/chat/page.tsx:40-71 | the read loop over every chunk; LinesFedComplete, BufferIsRemainder and DecodeWithoutDone state what it does for any chunking |
| ChatPage.Remainder | frontend/src/app/playground/chat/page.tsx:45-46 | the buffer carried to the next chunk never holds a newline |
| ChatPage.SplitAfterRemainder | frontend/src/app/playground/chat/page.tsx:44-46 | appended text leaves the complete lines complete and continues the partial last line |
| ChatPage.LinesFedComplete | frontend/src/app/playground/chat/page.tsx:40-46 | over any chunking, the lines handed to the line loop are exactly the complete lines of the buffer followed by the whole text |
| ChatPage.BufferIsRemainder | frontend/src/app/playground/chat/page.tsx:40-46 | over any chunking, the buffer ends as the text after the last newline of the old buffer followed by the whole text |
| ChatPage.CompleteLinesAppend | frontend/src/app/playground/chat/page.tsx:44-46 | the complete lines of a concatenation are those of the first part, then those of its partial last line continued by the second part |
| ChatPage.SameTextSameLines | frontend/src/app/playground/chat/page.tsx:40-46 | two chunkings of the same text hand the same lines to the line loop and leave the same buffer |
| ChatPage.UnterminatedTailIgnored | frontend/src/app/playground/chat/page.tsx:45-46 | a final line without its newline is never handled |
| ChatPage.DecodeFollowsLines | frontend/src/app/playground/chat/page.tsx:40-70 | without [DONE], decoding the chunks handles the fed lines in order |
| ChatPage.DecodeWithoutDone | frontend/src/app/playground/chat/page.tsx:40-70 | without [DONE], the messages do not depend on the chunking: they are the complete lines of the whole text, handled in order |
| ChatPage.ChunkDeltas | frontend/src/app/playground/chat/page.tsx:40-70 | the deltas the read loop applies: each chunk's complete lines up to their first [DONE], the buffer carried forward; stated by DecodeApplies |
| ChatPage.DecodeApplies | frontend/src/app/playground/chat/page.tsx:40-70 | decoding any stream, [DONE] lines included, applies exactly its chunk deltas in order |
| ChatPage.TerminatedSplits | frontend/src/app/playground/chat/page.tsx:44-46 | text made of whole lines splits into exactly those lines and leaves an empty buffer |
| ChatPage.DoneDropsRestOfChunk | frontend/src/app/playground/chat/page.tsx:44-51 | of the lines a chunk completes (carried-over buffer in front), those before the first [DONE] are handled and those after it in the same chunk are dropped; the rest after the last newline is still carried over |
| ChatPage.DoneKeepsNextChunk | frontend/src/app/playground/chat/page.tsx:40-51 | [DONE] in its own chunk does not stop the read loop: the next chunk's lines are still handled |
| ChatPage.ApplyDeltaKeeps | frontend/src/app/playground/chat/page.tsx:56-64 | a delta never rewrites a prefix that the list has already moved past |
| ChatPage.HandleLinesKeeps | frontend/src/app/playground/chat/page.tsx:48-70 | handling lines never rewrites such a prefix |
| ChatPage.DecodeKeeps | frontend/src/app/playground/chat/page.tsx:40-70 | decoding never rewrites such a prefix |
| ChatPage.ErrorText | frontend/src/app/playground/chat/page.tsx:72-82 | the network text exactly for a NetworkError; 'Client error: ' followed by the message exactly for a ClientError; the server text exactly for a ServerError; the generic text exactly for anything else |
| ChatPage.ErrorReply | frontend/src/app/playground/chat/page.tsx:81 | the one assistant message holding the error's text; stated by SendFailureOneReply and ReadErrorOneReply |
| ChatPage.DispatchErrorShown | frontend/src/app/playground/chat/page.tsx:33-82 | an error thrown by the dispatcher is shown as a client or server error, never as a network error |
| ChatPage.Caught | frontend/src/app/playground/chat/page.tsx:33-41 | the error the catch sees: the dispatcher's, the plain Error for a missing stream, or the reader's |
| ChatPage.Received | frontend/src/app/playground/chat/page.tsx:33-71 | the message list once the stream, if any, has been read |
| ChatPage.SendResult | frontend/src/app/playground/chat/page.tsx:32-84 | the list a send ends with: what was received plus one error reply when an error was caught; stated by SendFailureOneReply, ReadErrorOneReply, SendKeepsHistory and SendStreamsOneReply |
| ChatPage.SendFailureOneReply | frontend/src/app/playground/chat/page.tsx:33-84 | a thrown error or a null stream appends exactly one assistant message with that error's text (the generic text for a null stream) |
| ChatPage.ReadErrorOneReply | frontend/src/app/playground/chat/page.tsx:40-81 | a read that fails after some chunks keeps what they decoded and appends exactly one assistant message with the error's text |
| ChatPage.NetworkTextNeverShown | frontend/src/app/playground/chat/page.tsx:32-81 | with bodies that fail only with platform errors, a caught error is shown in one appended message as a client error, a server error or the generic text, never as the network text |
| ChatPage.SendKeepsHistory | frontend/src/app/playground/chat/page.tsx:27-84 | a send never rewrites the history it sent, which ends with the user's message |
| ChatPage.SendStreamsOneReply | frontend/src/app/playground/chat/page.tsx:33-70 | for a clean stream without [DONE] that carries deltas t1..tn, the history plus one assistant message t1+…+tn, however the text was chunked (CleanSendOneReply covers streams with [DONE]) |
| ChatPage.CleanSendOneReply | frontend/src/app/playground/chat/page.tsx:33-71 | any stream read to its end without a read error, [DONE] lines included, leaves the history plus one assistant message holding every delta the read loop applied, in order, or the history alone when there was none |
| ChatPage.ChatSession.HandleChunkLines | frontend/src/app/playground/chat/page.tsx:48-70 | the line loop leaves the messages as the line handling defines them |
| ChatPage.ChatSession.ReadStream | frontend/src/app/playground/chat/page.tsx:36-71 | the read loop leaves the messages as decoding all the chunks from an empty buffer defines them |
| ChatPage.ChatSession.HandleSendMessage | frontend/src/app/playground/chat/page.tsx:24-85 | nothing changes when the trimmed input is empty or a request is loading; otherwise the request is the prior list plus one user message with the trimmed text, the input is cleared, isLoading ends false, the messages are the send's result, and a caught error is never shown as the network text |
| ChatPage.ChatSession.constructor | frontend/src/app/playground/chat/page.tsx:9-11 | the page starts with no messages, empty input and no request loading |
| ChatPage.ChatSession.SetInput | frontend/src/app/playground/chat/page.tsx:142 | the textarea's change sets the input to the typed text |
| PdfJsonlViewer.OrElse | frontend/src/components/PDFJSONLViewer.tsx:38 | the count falls back to d (JavaScript's logical or) when it is null or 0, and is itself otherwise |
| PdfJsonlViewer.MaxPage | frontend/src/components/PDFJSONLViewer.tsx:23 | the derived count is a page some item has, and no item has a later page |
| PdfJsonlViewer.Viewer.SyncNumPages | frontend/src/components/PDFJSONLViewer.tsx:20-26 | with data, the count becomes the maximum page; with no data, it keeps its previous value (unset at first) |
| PdfJsonlViewer.PreviousTarget | frontend/src/components/PDFJSONLViewer.tsx:53 | `Math.max(pageNumber - 1, 1)`; stated by PreviousClamped |
| PdfJsonlViewer.PreviousDisabled | frontend/src/components/PDFJSONLViewer.tsx:54 | `pageNumber <= 1`; related to the target by PreviousClamped |
| PdfJsonlViewer.NextTarget | frontend/src/components/PDFJSONLViewer.tsx:80 | the page after the current one, capped at the count (the current page when the count is unset or 0); stated by NextClamped and NextEnabledStep |
| PdfJsonlViewer.NextDisabled | frontend/src/components/PDFJSONLViewer.tsx:81 | the current page is at or past the count (0 when unset); stated by NextDisabledWhen and NextEnabledStep |
| PdfJsonlViewer.PreviousClamped | frontend/src/components/PDFJSONLViewer.tsx:53-54 | Previous never asks for a page below 1; it is enabled exactly when it would move back one page |
| PdfJsonlViewer.NextClamped | frontend/src/components/PDFJSONLViewer.tsx:80 | Next never asks for a page past a set count, and with the count unset it asks for the current page |
| PdfJsonlViewer.NextEnabledStep | frontend/src/components/PDFJSONLViewer.tsx:80-81 | an enabled Next asks for exactly the next page, which is within the count |
| PdfJsonlViewer.NextDisabledWhen | frontend/src/components/PDFJSONLViewer.tsx:81 | Next is disabled whenever the count is unset, and otherwise exactly from the last page on |
| PdfJsonlViewer.GoToTarget | frontend/src/components/PDFJSONLViewer.tsx:37-38 | go-to moves to a page exactly when parseInt reads a number from 1 to the count (1 if unset), and that page is the one it read |
| PdfJsonlViewer.GoToWrittenPage | frontend/src/components/PDFJSONLViewer.tsx:37-38 | the decimal text of p is accepted exactly when 1 ≤ p ≤ the count, and then moves to p |
| PdfJsonlViewer.GoToRejectsNonNumeric | frontend/src/components/PDFJSONLViewer.tsx:37-38 | text parseInt cannot read never moves the page |
| PdfJsonlViewer.GoToReachesDataPages | frontend/src/components/PDFJSONLViewer.tsx:20-43 | every page from 1 on that the data mentions can be reached through the form once the count comes from that data |
| PdfJsonlViewer.Viewer.HandleGoToPage | frontend/src/components/PDFJSONLViewer.tsx:35-43 | asks for the go-to target; on success it rewrites the input to the page's decimal text, and otherwise it changes nothing |
| PdfJsonlViewer.GoToIdempotent | frontend/src/components/PDFJSONLViewer.tsx:37-41 | submitting the rewritten input again asks for the same page |
| PdfJsonlViewer.Viewer.HandleSelectBbox | frontend/src/components/PDFJSONLViewer.tsx:29-33 | the box becomes the selection, and exactly its page is asked for |
| PdfJsonlViewer.Viewer.constructor | frontend/src/components/PDFJSONLViewer.tsx:14-16 | the viewer starts with the count unset, no selection and an empty go-to input |
| PdfJsonlViewer.Viewer.SetGoToPage | frontend/src/components/PDFJSONLViewer.tsx:66 | the go-to input's change sets it to the typed text |

## Left out

- HTTP itself is left out: the request headers and JSON body, `response.text()`, the API key, base URL and model name from the environment.
- Network behaviour: `fetch` is an oracle sequence of outcomes, and `wait`/`setTimeout` are recorded as trace events.
- `lastError` and every `console` call only feed log output, so neither is modelled.
- OpenAIService.CalculateDelay: the jitter `Math.random() * 250` is a real number in the source. Here it is an integer in [0, 250), because floating point is not modelled.
- OpenAIService.CalculateDelay: a negative `Retry-After` gives a negative delay here, as in the source. Its effect under `setTimeout` (treated as 0) is not modelled.
- JsText.ParseInt: JavaScript numbers lose precision above 2^53. Here the parsed value is exact.
- `TextDecoder` UTF-8 streaming and `reader.read()`: a stream is its chunks as already-decoded text, plus an optional error that the reader raises after them. That error is a platform error (`TypeError` or plain `Error`), never an application error class (`OpenAIService.PlatformStreams`, required by `HandleSendMessage`).
- `JSON.parse` and `json.choices?.[0]?.delta?.content` are the `extract` parameter: it gives `None` when parsing throws or the content is missing.
- React machinery: `useState` batching, effects and async scheduling are not modelled. Each `setMessages(prev => …)` is applied in order, at once.
- Chat UI: scrolling, clipboard copy and the JSX.
- Viewer UI: `pdfPageHeight`, the JSX, and the input's displayed value (`goToPage || String(pageNumber)`), which the handler does not read.
- `frontend/src/components/pdf/PDFFileViewer.tsx` is not part of this model: it holds floating-point coordinate transforms, react-pdf and DOM resize listeners.
- `frontend/src/components/JSONLViewer.tsx` and `frontend/src/components/pdf/JSONLDataViewer.tsx` are presentation only.
- `frontend/src/app/playground/pdf-viewer/page.tsx` is file-upload I/O.
- The login pages and `App.tsx` are routing and UI.
- PdfJsonlViewer.MaxPage: page numbers are integers here. A non-integer or NaN page in the data is not modelled.
- PdfJsonlViewer.MaxPage: `Math.max(...array)` throws a RangeError once the spread passes the engine's argument limit. That limit is engine-specific, so the model returns the maximum for data of any length.
- SendStreamsOneReply: states chunking independence only for streams without [DONE], because a [DONE] line ends only its own chunk, so the lines handled depend on where chunks begin and end. CleanSendOneReply states the one-reply result for every stream, [DONE] included, in terms of the deltas the read loop applies.
