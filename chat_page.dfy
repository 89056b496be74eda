/** `handleSendMessage` of the chat page (frontend/src/app/playground/chat/page.tsx):
    the send guard, the line-buffered decoding of the `text/event-stream`
    body, the folding of each content delta into the message list, and the
    mapping of a caught error to one assistant message.

    Chunks arrive already decoded to text. `JSON.parse(data)` followed by
    `json.choices?.[0]?.delta?.content` is the parameter `extract`: it yields
    `None` when parsing throws or the field is missing. */
module ChatPage {
  import opened Wrappers
  import opened JsText
  import opened Errors
  import opened OpenAIService

  datatype Role = User | Assistant

  datatype Message = Message(role: Role, content: string)

  const DATA_PREFIX: string := "data: "
  const DONE_SENTINEL: string := "[DONE]"
  const STREAM_MISSING: string := "Failed to get stream"
  const GENERIC_ERROR_TEXT: string := "An error occurred. Please try again."
  const NETWORK_ERROR_TEXT: string := "Network error. Check your connection."
  const CLIENT_ERROR_PREFIX: string := "Client error: "
  const SERVER_ERROR_TEXT: string := "Server error. Please try later."

  predicate EndsWithAssistant(msgs: seq<Message>) {
    msgs != [] && msgs[|msgs| - 1].role == Assistant
  }

  // ------------------------------------------------------ accumulating

  /** The `setMessages` updater for one delta: grow the trailing assistant
      message, or start a new one after anything else. */
  function ApplyDelta(prev: seq<Message>, delta: string): (next: seq<Message>)
    ensures |prev| <= |next| <= |prev| + 1
    ensures EndsWithAssistant(next)
    ensures prev != [] ==> next[..|prev| - 1] == prev[..|prev| - 1]
    ensures EndsWithAssistant(prev) ==>
              |next| == |prev| && next[|next| - 1].content == prev[|prev| - 1].content + delta
    ensures !EndsWithAssistant(prev) ==> next == prev + [Message(Assistant, delta)]
  {
    if EndsWithAssistant(prev) then
      var last := prev[|prev| - 1];
      prev[..|prev| - 1] + [last.(content := last.content + delta)]
    else
      prev + [Message(Assistant, delta)]
  }

  /** Applying deltas in order. */
  function ApplyDeltas(msgs: seq<Message>, deltas: seq<string>): seq<Message>
    decreases |deltas|
  {
    if deltas == [] then msgs else ApplyDeltas(ApplyDelta(msgs, deltas[0]), deltas[1..])
  }

  function Concat(parts: seq<string>): string {
    if parts == [] then [] else parts[0] + Concat(parts[1..])
  }

  lemma {:induction false} ApplyDeltasToAssistant(prefix: seq<Message>, content: string, deltas: seq<string>)
    ensures ApplyDeltas(prefix + [Message(Assistant, content)], deltas) ==
            prefix + [Message(Assistant, content + Concat(deltas))]
    decreases |deltas|
  {
    if deltas == [] {
      assert content + [] == content;
    } else {
      var msgs := prefix + [Message(Assistant, content)];
      assert msgs[..|msgs| - 1] == prefix;
      assert msgs[|msgs| - 1] == Message(Assistant, content);
      var next := prefix + [Message(Assistant, content + deltas[0])];
      assert ApplyDelta(msgs, deltas[0]) == next;
      assert ApplyDeltas(msgs, deltas) == ApplyDeltas(next, deltas[1..]);
      ApplyDeltasToAssistant(prefix, content + deltas[0], deltas[1..]);
      assert Concat(deltas) == deltas[0] + Concat(deltas[1..]);
      assert (content + deltas[0]) + Concat(deltas[1..]) == content + Concat(deltas);
    }
  }

  /** Deltas t1..tn coalesce into one assistant message t1+...+tn: appended
      after a message of another role, or grown onto a trailing assistant
      message; nothing before it changes. */
  lemma Coalesce(msgs: seq<Message>, deltas: seq<string>)
    requires deltas != []
    ensures !EndsWithAssistant(msgs) ==>
              ApplyDeltas(msgs, deltas) == msgs + [Message(Assistant, Concat(deltas))]
    ensures EndsWithAssistant(msgs) ==>
              ApplyDeltas(msgs, deltas) ==
              msgs[..|msgs| - 1] + [Message(Assistant, msgs[|msgs| - 1].content + Concat(deltas))]
  {
    if EndsWithAssistant(msgs) {
      var prefix := msgs[..|msgs| - 1];
      assert msgs == prefix + [Message(Assistant, msgs[|msgs| - 1].content)];
      ApplyDeltasToAssistant(prefix, msgs[|msgs| - 1].content, deltas);
    } else {
      ApplyDeltasToAssistant(msgs, deltas[0], deltas[1..]);
      assert deltas[0] + Concat(deltas[1..]) == Concat(deltas);
    }
  }

  /** Applying `a + b` is applying `a`, then `b`. */
  lemma {:induction false} ApplyDeltasAppend(msgs: seq<Message>, a: seq<string>, b: seq<string>)
    ensures ApplyDeltas(msgs, a + b) == ApplyDeltas(ApplyDeltas(msgs, a), b)
    decreases |a|
  {
    if a == [] {
      assert a + b == b;
    } else {
      assert (a + b)[0] == a[0] && (a + b)[1..] == a[1..] + b;
      ApplyDeltasAppend(ApplyDelta(msgs, a[0]), a[1..], b);
    }
  }

  // ---------------------------------------------------------- one line

  predicate IsDataLine(line: string) {
    StartsWith(line, DATA_PREFIX)
  }

  /** `line.slice(6)`. */
  function Payload(line: string): string
    requires IsDataLine(line)
  {
    line[|DATA_PREFIX|..]
  }

  predicate IsDoneLine(line: string) {
    IsDataLine(line) && Payload(line) == DONE_SENTINEL
  }

  /** The delta a line carries: a data line whose payload yields truthy
      content. */
  predicate HasDelta(line: string, extract: string -> Option<string>) {
    IsDataLine(line) && !IsDoneLine(line) && Truthy(extract(Payload(line)))
  }

  /** The inner `for` over the complete lines of one chunk: a `[DONE]`
      payload ends it; any other data line with content applies its delta;
      everything else is skipped. */
  function HandleLines(msgs: seq<Message>, lines: seq<string>, extract: string -> Option<string>): seq<Message>
    decreases |lines|
  {
    if lines == [] then msgs
    else if IsDoneLine(lines[0]) then msgs
    else
      var next := if HasDelta(lines[0], extract) then ApplyDelta(msgs, extract(Payload(lines[0])).value) else msgs;
      HandleLines(next, lines[1..], extract)
  }

  /** The deltas that lines carry, up to the first `[DONE]`. */
  function Deltas(lines: seq<string>, extract: string -> Option<string>): seq<string>
    decreases |lines|
  {
    if lines == [] then []
    else if IsDoneLine(lines[0]) then []
    else (if HasDelta(lines[0], extract) then [extract(Payload(lines[0])).value] else [])
         + Deltas(lines[1..], extract)
  }

  /** Handling lines is applying their deltas in order. */
  lemma {:induction false} HandleLinesApplies(msgs: seq<Message>, lines: seq<string>, extract: string -> Option<string>)
    ensures HandleLines(msgs, lines, extract) == ApplyDeltas(msgs, Deltas(lines, extract))
    decreases |lines|
  {
    if lines != [] && !IsDoneLine(lines[0]) {
      HandleLinesApplies(if HasDelta(lines[0], extract) then ApplyDelta(msgs, extract(Payload(lines[0])).value) else msgs,
                         lines[1..], extract);
      if HasDelta(lines[0], extract) {
        var d := extract(Payload(lines[0])).value;
        assert ([d] + Deltas(lines[1..], extract))[1..] == Deltas(lines[1..], extract);
      } else {
        assert Deltas(lines, extract) == Deltas(lines[1..], extract);
      }
    }
  }

  /** A line that is not a data line, or a data line other than `[DONE]`
      whose payload does not parse or has no truthy content, changes
      nothing and does not stop the lines after it. */
  lemma {:induction false} SkippedLineIgnored(msgs: seq<Message>, before: seq<string>, line: string,
                                              after: seq<string>, extract: string -> Option<string>)
    requires !IsDoneLine(line) && !HasDelta(line, extract)
    ensures HandleLines(msgs, before + [line] + after, extract) == HandleLines(msgs, before + after, extract)
    decreases |before|
  {
    if before == [] {
      assert before + [line] + after == [line] + after;
      assert before + after == after;
      assert ([line] + after)[0] == line;
      assert ([line] + after)[1..] == after;
    } else {
      assert (before + [line] + after)[0] == before[0] && (before + after)[0] == before[0];
      assert (before + [line] + after)[1..] == before[1..] + [line] + after;
      assert (before + after)[1..] == before[1..] + after;
      if !IsDoneLine(before[0]) {
        var next := if HasDelta(before[0], extract) then ApplyDelta(msgs, extract(Payload(before[0])).value) else msgs;
        SkippedLineIgnored(next, before[1..], line, after, extract);
      }
    }
  }

  function DoneLine(): string {
    DATA_PREFIX + DONE_SENTINEL
  }

  /** A `[DONE]` line ends the lines of its chunk: nothing after it is
      handled. */
  lemma DoneEndsLines(msgs: seq<Message>, done: string, after: seq<string>, extract: string -> Option<string>)
    requires IsDoneLine(done)
    ensures HandleLines(msgs, [done] + after, extract) == msgs
  {
    assert ([done] + after)[0] == done;
  }

  /** `data: [DONE]` is the one `[DONE]` line: the payload is compared
      exactly, so `data:[DONE]` or `data: [DONE] ` are not. */
  lemma DoneLineFacts()
    ensures '\n' !in DoneLine() && IsDoneLine(DoneLine())
    ensures forall l :: IsDoneLine(l) <==> l == DoneLine()
  {
    var l := DoneLine();
    assert l == "data: [DONE]";
    assert l[..|DATA_PREFIX|] == DATA_PREFIX;
    assert Payload(l) == DONE_SENTINEL;
    forall l | IsDoneLine(l)
      ensures l == DoneLine()
    {
      assert l == l[..|DATA_PREFIX|] + l[|DATA_PREFIX|..];
    }
  }

  /** Handling `a + b` is handling `a`, then `b`, unless `a` holds `[DONE]`. */
  lemma {:induction false} HandleLinesAppend(msgs: seq<Message>, a: seq<string>, b: seq<string>,
                                             extract: string -> Option<string>)
    requires forall k :: 0 <= k < |a| ==> !IsDoneLine(a[k])
    ensures HandleLines(msgs, a + b, extract) == HandleLines(HandleLines(msgs, a, extract), b, extract)
    decreases |a|
  {
    if a == [] {
      assert a + b == b;
    } else {
      assert (a + b)[0] == a[0];
      assert (a + b)[1..] == a[1..] + b;
      var next := if HasDelta(a[0], extract) then ApplyDelta(msgs, extract(Payload(a[0])).value) else msgs;
      HandleLinesAppend(next, a[1..], b, extract);
    }
  }
  /** The lines before the first `[DONE]` are handled, and nothing after it. */
  lemma HandleLinesBeforeDone(msgs: seq<Message>, before: seq<string>, done: string, after: seq<string>,
                              extract: string -> Option<string>)
    requires forall k :: 0 <= k < |before| ==> !IsDoneLine(before[k])
    requires IsDoneLine(done)
    ensures HandleLines(msgs, before + [done] + after, extract) == HandleLines(msgs, before, extract)
  {
    assert before + [done] + after == before + ([done] + after);
    HandleLinesAppend(msgs, before, [done] + after, extract);
    DoneEndsLines(HandleLines(msgs, before, extract), done, after, extract);
  }


  // ------------------------------------------------------------ chunks

  /** The lines of `text` that a `\n` completes. */
  function CompleteLines(text: string): seq<string> {
    var parts := Split(text, '\n');
    parts[..|parts| - 1]
  }

  /** What follows the last `\n` of `text`: the carried-over buffer. */
  function Remainder(text: string): (r: string)
    ensures '\n' !in r
  {
    var parts := Split(text, '\n');
    SplitPiecesFree(text, '\n');
    parts[|parts| - 1]
  }

  /** The decoding state carried across chunks. */
  datatype Decoder = Decoder(messages: seq<Message>, buffer: string)

  /** One turn of the read loop: append the chunk to the buffer, handle the
      complete lines, keep the rest. */
  function FeedChunk(d: Decoder, chunk: string, extract: string -> Option<string>): Decoder {
    var text := d.buffer + chunk;
    Decoder(HandleLines(d.messages, CompleteLines(text), extract), Remainder(text))
  }

  /** The read loop over every chunk, until the reader reports done. */
  function DecodeChunks(d: Decoder, chunks: seq<string>, extract: string -> Option<string>): Decoder
    decreases |chunks|
  {
    if chunks == [] then d else DecodeChunks(FeedChunk(d, chunks[0], extract), chunks[1..], extract)
  }

  /** The text of all chunks. */
  function Flatten(chunks: seq<string>): string {
    if chunks == [] then [] else chunks[0] + Flatten(chunks[1..])
  }

  /** The complete lines handed to the inner loop, chunk after chunk. */
  function LinesFed(buffer: string, chunks: seq<string>): seq<string>
    decreases |chunks|
  {
    if chunks == [] then []
    else
      var text := buffer + chunks[0];
      CompleteLines(text) + LinesFed(Remainder(text), chunks[1..])
  }

  /** Text appended after a partial line continues it: the complete lines
      of `text` stay complete, and the remainder is split with what follows. */
  lemma SplitAfterRemainder(text: string, more: string)
    ensures Split(text + more, '\n') == CompleteLines(text) + Split(Remainder(text) + more, '\n')
  {
    var pa := Split(text, '\n');
    var pm := Split(more, '\n');
    SplitAppend(text, more, '\n');
    SplitPiecesFree(text, '\n');
    SplitWithout(pa[|pa| - 1], '\n');
    SplitAppend(pa[|pa| - 1], more, '\n');
    GlueLast(pa, pm);
  }

  lemma GlueLast(pa: seq<string>, pb: seq<string>)
    requires |pa| >= 1 && |pb| >= 1
    ensures Glue(pa, pb) == pa[..|pa| - 1] + Glue([pa[|pa| - 1]], pb)
  {
    assert [pa[|pa| - 1]][..0] == [];
  }

  /** Chunk-boundary invariance: whatever the chunking, the lines handed to
      the inner loop are exactly the complete lines of the whole text. */
  lemma {:induction false} LinesFedComplete(buffer: string, chunks: seq<string>)
    requires '\n' !in buffer
    ensures LinesFed(buffer, chunks) == CompleteLines(buffer + Flatten(chunks))
    decreases |chunks|
  {
    if chunks == [] {
      assert buffer + [] == buffer;
      SplitWithout(buffer, '\n');
    } else {
      var text := buffer + chunks[0];
      LinesFedComplete(Remainder(text), chunks[1..]);
      FlattenCons(buffer, chunks);
      CompleteLinesAppend(text, Flatten(chunks[1..]));
    }
  }

  lemma FlattenCons(buffer: string, chunks: seq<string>)
    requires chunks != []
    ensures buffer + Flatten(chunks) == (buffer + chunks[0]) + Flatten(chunks[1..])
  {
  }

  /** The complete lines of `text + more`: those of `text`, then those of
      its remainder continued by `more`. */
  lemma CompleteLinesAppend(text: string, more: string)
    ensures CompleteLines(text + more) == CompleteLines(text) + CompleteLines(Remainder(text) + more)
  {
    SplitAfterRemainder(text, more);
    DropLastAppend(CompleteLines(text), Split(Remainder(text) + more, '\n'));
  }

  /** The remainder after `text + more` is the remainder after the
      remainder of `text` followed by `more`. */
  lemma RemainderAppend(text: string, more: string)
    ensures Remainder(text + more) == Remainder(Remainder(text) + more)
  {
    SplitAfterRemainder(text, more);
  }

  lemma DropLastAppend<T>(a: seq<T>, b: seq<T>)
    requires b != []
    ensures (a + b)[..|a + b| - 1] == a + b[..|b| - 1]
  {
  }

  /** Whatever the chunking, the buffer ends as the text after the last
      `\n` of the whole text. */
  lemma {:induction false} BufferIsRemainder(d: Decoder, chunks: seq<string>, extract: string -> Option<string>)
    requires '\n' !in d.buffer
    ensures DecodeChunks(d, chunks, extract).buffer == Remainder(d.buffer + Flatten(chunks))
    decreases |chunks|
  {
    if chunks == [] {
      assert d.buffer + [] == d.buffer;
      SplitWithout(d.buffer, '\n');
    } else {
      var text := d.buffer + chunks[0];
      var rest := Flatten(chunks[1..]);
      var next := FeedChunk(d, chunks[0], extract);
      assert next.buffer == Remainder(text);
      BufferIsRemainder(next, chunks[1..], extract);
      assert d.buffer + Flatten(chunks) == text + rest;
      SplitAfterRemainder(text, rest);
      var tail := Split(Remainder(text) + rest, '\n');
      assert Remainder(text + rest) == tail[|tail| - 1];
    }
  }

  /** Two chunkings of the same text feed the same lines and leave the same
      buffer. */
  lemma SameTextSameLines(c1: seq<string>, c2: seq<string>, extract: string -> Option<string>)
    requires Flatten(c1) == Flatten(c2)
    ensures LinesFed("", c1) == LinesFed("", c2)
    ensures DecodeChunks(Decoder([], ""), c1, extract).buffer == DecodeChunks(Decoder([], ""), c2, extract).buffer
  {
    LinesFedComplete("", c1);
    LinesFedComplete("", c2);
    BufferIsRemainder(Decoder([], ""), c1, extract);
    BufferIsRemainder(Decoder([], ""), c2, extract);
  }

  /** Text without a `\n` at the end of the stream completes no line: a final
      line without its newline is never handled. */
  lemma UnterminatedTailIgnored(text: string, tail: string)
    requires '\n' !in tail
    ensures CompleteLines(text + tail) == CompleteLines(text)
  {
    SplitAfterRemainder(text, tail);
    assert '\n' !in Remainder(text) + tail;
    SplitWithout(Remainder(text) + tail, '\n');
  }

  /** Decoding follows the lines fed, as long as none of them is `[DONE]`. */
  lemma {:induction false} DecodeFollowsLines(d: Decoder, chunks: seq<string>, extract: string -> Option<string>)
    requires forall l :: l in LinesFed(d.buffer, chunks) ==> !IsDoneLine(l)
    ensures DecodeChunks(d, chunks, extract).messages == HandleLines(d.messages, LinesFed(d.buffer, chunks), extract)
    decreases |chunks|
  {
    if chunks == [] {
    } else {
      var text := d.buffer + chunks[0];
      var lines := CompleteLines(text);
      var restLines := LinesFed(Remainder(text), chunks[1..]);
      assert LinesFed(d.buffer, chunks) == lines + restLines;
      assert forall k :: 0 <= k < |lines| ==> lines[k] in lines + restLines;
      assert forall l :: l in restLines ==> l in lines + restLines;
      HandleLinesAppend(d.messages, lines, restLines, extract);
      DecodeFollowsLines(FeedChunk(d, chunks[0], extract), chunks[1..], extract);
    }
  }

  /** Without `[DONE]` the messages do not depend on the chunking: they are
      the complete lines of the whole text, handled in order. */
  lemma DecodeWithoutDone(msgs: seq<Message>, chunks: seq<string>, extract: string -> Option<string>)
    requires forall l :: l in CompleteLines(Flatten(chunks)) ==> !IsDoneLine(l)
    ensures DecodeChunks(Decoder(msgs, ""), chunks, extract).messages ==
            HandleLines(msgs, CompleteLines(Flatten(chunks)), extract)
  {
    LinesFedComplete("", chunks);
    assert "" + Flatten(chunks) == Flatten(chunks);
    DecodeFollowsLines(Decoder(msgs, ""), chunks, extract);
  }

  /** The deltas a read loop applies, chunk after chunk: those of each
      chunk's complete lines up to its first `[DONE]`, the buffer carried
      forward. */
  function ChunkDeltas(buffer: string, chunks: seq<string>, extract: string -> Option<string>): seq<string>
    decreases |chunks|
  {
    if chunks == [] then []
    else
      var text := buffer + chunks[0];
      Deltas(CompleteLines(text), extract) + ChunkDeltas(Remainder(text), chunks[1..], extract)
  }

  /** Decoding any stream, `[DONE]` lines included, applies exactly its
      chunk deltas in order. */
  lemma {:induction false} DecodeApplies(d: Decoder, chunks: seq<string>, extract: string -> Option<string>)
    ensures DecodeChunks(d, chunks, extract).messages == ApplyDeltas(d.messages, ChunkDeltas(d.buffer, chunks, extract))
    decreases |chunks|
  {
    if chunks != [] {
      var text := d.buffer + chunks[0];
      var next := FeedChunk(d, chunks[0], extract);
      HandleLinesApplies(d.messages, CompleteLines(text), extract);
      DecodeApplies(next, chunks[1..], extract);
      ApplyDeltasAppend(d.messages, Deltas(CompleteLines(text), extract), ChunkDeltas(next.buffer, chunks[1..], extract));
    }
  }

  /** Lines each followed by `\n`. */
  function Terminated(lines: seq<string>): string {
    if lines == [] then [] else lines[0] + "\n" + Terminated(lines[1..])
  }

  lemma {:induction false} TerminatedSplits(lines: seq<string>)
    requires forall k :: 0 <= k < |lines| ==> '\n' !in lines[k]
    ensures CompleteLines(Terminated(lines)) == lines && Remainder(Terminated(lines)) == []
    decreases |lines|
  {
    if lines != [] {
      var rest := Terminated(lines[1..]);
      assert forall k :: 0 <= k < |lines[1..]| ==> lines[1..][k] == lines[k + 1];
      TerminatedSplits(lines[1..]);
      var head := lines[0] + "\n";
      LineSplit(lines[0]);
      assert head + rest == Terminated(lines);
      assert [] + rest == rest;
      CompleteLinesAppend(head, rest);
      RemainderAppend(head, rest);
      assert [lines[0]] + lines[1..] == lines;
    }
  }

  /** One line and its `\n`: a complete line and an empty remainder. */
  lemma LineSplit(line: string)
    requires '\n' !in line
    ensures Split(line + "\n", '\n') == [line, []]
    ensures CompleteLines(line + "\n") == [line] && Remainder(line + "\n") == []
  {
    SplitAppend(line, "\n", '\n');
    SplitWithout(line, '\n');
    assert "\n"[0] == '\n' && "\n"[1..] == [];
    assert Split("\n", '\n') == [[], []];
    assert line + [] == line;
  }


  /** A chunk of whole lines, fed to an empty buffer, handles exactly those
      lines and leaves the buffer empty. */
  lemma FeedTerminated(msgs: seq<Message>, lines: seq<string>, extract: string -> Option<string>)
    requires forall k :: 0 <= k < |lines| ==> '\n' !in lines[k]
    ensures FeedChunk(Decoder(msgs, ""), Terminated(lines), extract) == Decoder(HandleLines(msgs, lines, extract), "")
  {
    TerminatedSplits(lines);
    assert "" + Terminated(lines) == Terminated(lines);
  }

  /** `[DONE]` skips the rest of its own chunk: of the lines the chunk
      completes (with the carried-over buffer in front), those before the
      first `[DONE]` are handled and those after it are dropped. */
  lemma DoneDropsRestOfChunk(d: Decoder, chunk: string, before: seq<string>, done: string, after: seq<string>,
                             extract: string -> Option<string>)
    requires CompleteLines(d.buffer + chunk) == before + [done] + after
    requires forall k :: 0 <= k < |before| ==> !IsDoneLine(before[k])
    requires IsDoneLine(done)
    ensures FeedChunk(d, chunk, extract).messages == HandleLines(d.messages, before, extract)
    ensures FeedChunk(d, chunk, extract).buffer == Remainder(d.buffer + chunk)
  {
    HandleLinesBeforeDone(d.messages, before, done, after, extract);
  }

  /** `[DONE]` ends only its own chunk: a later chunk is still decoded. */
  lemma DoneKeepsNextChunk(msgs: seq<Message>, done: string, after: seq<string>, extract: string -> Option<string>)
    requires IsDoneLine(done) && '\n' !in done
    requires forall k :: 0 <= k < |after| ==> '\n' !in after[k]
    ensures DecodeChunks(Decoder(msgs, ""), [Terminated([done]), Terminated(after)], extract).messages ==
            HandleLines(msgs, after, extract)
  {
    FeedTerminated(msgs, [done], extract);
    DoneEndsLines(msgs, done, [], extract);
    assert [done] + [] == [done];
    FeedTerminated(msgs, after, extract);
    var c2 := [Terminated([done]), Terminated(after)];
    assert c2[1..] == [Terminated(after)];
    DecodeOne(Decoder(msgs, ""), Terminated(after), extract);
  }

  lemma DecodeOne(d: Decoder, chunk: string, extract: string -> Option<string>)
    ensures DecodeChunks(d, [chunk], extract) == FeedChunk(d, chunk, extract)
  {
    assert [chunk][1..] == [];
  }

  // ------------------------------------------------- prefix preservation

  /** `r` keeps `m` as its prefix, and has moved past it whenever `m` ends
      with an assistant message (which a delta would otherwise grow). */
  predicate Keeps(m: seq<Message>, r: seq<Message>) {
    |m| <= |r| && r[..|m|] == m && (|r| == |m| ==> !EndsWithAssistant(r))
  }

  lemma ApplyDeltaKeeps(m: seq<Message>, r: seq<Message>, delta: string)
    requires Keeps(m, r)
    ensures Keeps(m, ApplyDelta(r, delta))
  {
    var next := ApplyDelta(r, delta);
    if EndsWithAssistant(r) {
      assert |r| > |m|;
      assert next[..|m|] == next[..|r| - 1][..|m|];
      assert r[..|m|] == r[..|r| - 1][..|m|];
    } else {
      assert next[..|m|] == (r + [Message(Assistant, delta)])[..|m|];
    }
  }

  lemma {:induction false} HandleLinesKeeps(m: seq<Message>, r: seq<Message>, lines: seq<string>,
                                            extract: string -> Option<string>)
    requires Keeps(m, r)
    ensures Keeps(m, HandleLines(r, lines, extract))
    decreases |lines|
  {
    if lines != [] && !IsDoneLine(lines[0]) {
      var next := if HasDelta(lines[0], extract) then ApplyDelta(r, extract(Payload(lines[0])).value) else r;
      if HasDelta(lines[0], extract) {
        ApplyDeltaKeeps(m, r, extract(Payload(lines[0])).value);
      }
      HandleLinesKeeps(m, next, lines[1..], extract);
    }
  }

  /** Decoding never rewrites the history it started from: every message
      of `m` stays in place when `m` does not end with an assistant message. */
  lemma {:induction false} DecodeKeeps(m: seq<Message>, d: Decoder, chunks: seq<string>,
                                       extract: string -> Option<string>)
    requires Keeps(m, d.messages)
    ensures Keeps(m, DecodeChunks(d, chunks, extract).messages)
    decreases |chunks|
  {
    if chunks != [] {
      var text := d.buffer + chunks[0];
      HandleLinesKeeps(m, d.messages, CompleteLines(text), extract);
      DecodeKeeps(m, FeedChunk(d, chunks[0], extract), chunks[1..], extract);
    }
  }

  // ------------------------------------------------------------ errors

  /** The text shown for a caught error. Each text names one kind: the
      network text only for a NetworkError, the client prefix (followed by
      the error's message) only for a ClientError, the server text only for
      a ServerError, and the generic text for everything else. */
  function ErrorText(e: Exception): (text: string)
    ensures text == NETWORK_ERROR_TEXT <==> e.App? && e.error.NetworkError?
    ensures StartsWith(text, CLIENT_ERROR_PREFIX) <==> e.App? && e.error.ClientError?
    ensures e.App? && e.error.ClientError? ==> text[|CLIENT_ERROR_PREFIX|..] == e.error.message
    ensures text == SERVER_ERROR_TEXT <==> e.App? && e.error.ServerError?
    ensures text == GENERIC_ERROR_TEXT <==> !e.App?
  {
    var text :=
      if e.App? && e.error.NetworkError? then NETWORK_ERROR_TEXT
      else if e.App? && e.error.ClientError? then CLIENT_ERROR_PREFIX + e.error.message
      else if e.App? && e.error.ServerError? then SERVER_ERROR_TEXT
      else GENERIC_ERROR_TEXT;
    assert text[0] == (if e.App? && e.error.NetworkError? then 'N'
                       else if e.App? && e.error.ClientError? then 'C'
                       else if e.App? && e.error.ServerError? then 'S'
                       else 'A');
    assert (text[..|CLIENT_ERROR_PREFIX|] == CLIENT_ERROR_PREFIX) ==> text[0] == 'C';
    text
  }

  function ErrorReply(e: Exception): Message {
    Message(Assistant, ErrorText(e))
  }

  /** An error raised by the dispatcher is shown as a client or a server
      error, never as a network error: the dispatcher never raises one. */
  lemma DispatchErrorShown(outcomes: seq<FetchOutcome>, jitters: seq<nat>)
    requires Oracle(outcomes, jitters)
    requires Dispatched(outcomes, jitters, 0).result.Raised?
    ensures var text := ErrorText(Dispatched(outcomes, jitters, 0).result.error);
      (StartsWith(text, CLIENT_ERROR_PREFIX) || text == SERVER_ERROR_TEXT) && text != NETWORK_ERROR_TEXT
  {
    RaisedIsTerminal(outcomes, jitters, 0);
  }

  // -------------------------------------------------------------- send

  /** The error the page's `catch` sees: the one the dispatcher threw, a
      plain `Error` for a missing stream, or the reader's. */
  function Caught(result: CallResult): Option<Exception> {
    match result
    case Raised(e) => Some(e)
    case Returned(None) => Some(PlainError(STREAM_MISSING))
    case Returned(Some(stream)) => stream.readError
  }

  /** The message list once the stream, if there is one, has been read. */
  function Received(history: seq<Message>, result: CallResult, extract: string -> Option<string>): seq<Message> {
    if result.Returned? && result.stream.Some? then
      DecodeChunks(Decoder(history, ""), result.stream.value.chunks, extract).messages
    else history
  }

  /** The message list a send ends with, from the history sent (the prior
      messages plus the user's) and what the dispatcher settled to. */
  function SendResult(history: seq<Message>, result: CallResult, extract: string -> Option<string>): seq<Message> {
    var received := Received(history, result, extract);
    if Caught(result).Some? then received + [ErrorReply(Caught(result).value)] else received
  }

  /** A thrown error or a missing stream appends exactly one assistant
      message, with the error's text (the generic text for a missing stream). */
  lemma SendFailureOneReply(history: seq<Message>, result: CallResult, extract: string -> Option<string>)
    requires result.Raised? || result == Returned(None)
    ensures var r := SendResult(history, result, extract);
      && |r| == |history| + 1 && r[..|history|] == history
      && r[|history|].role == Assistant
      && r[|history|].content ==
           (if result.Raised? then ErrorText(result.error) else GENERIC_ERROR_TEXT)
  {
  }

  /** A read that fails after some chunks keeps what those chunks decoded
      and appends exactly one assistant message with the error's text. */
  lemma ReadErrorOneReply(history: seq<Message>, stream: Stream, extract: string -> Option<string>)
    requires stream.readError.Some?
    ensures var decoded := DecodeChunks(Decoder(history, ""), stream.chunks, extract).messages;
      var r := SendResult(history, Returned(Some(stream)), extract);
      && |r| == |decoded| + 1 && r[..|decoded|] == decoded
      && r[|decoded|] == Message(Assistant, ErrorText(stream.readError.value))
  {
  }

  /** When response bodies fail only with platform errors, a send never
      shows the network text: a caught error is shown as a client error, a
      server error or the generic text, in the one message it appends. */
  lemma NetworkTextNeverShown(history: seq<Message>, outcomes: seq<FetchOutcome>, jitters: seq<nat>,
                              extract: string -> Option<string>)
    requires Oracle(outcomes, jitters) && PlatformStreams(outcomes)
    ensures var result := Dispatched(outcomes, jitters, 0).result;
      var r := SendResult(history, result, extract);
      Caught(result).Some? ==>
        && r == Received(history, result, extract) + [ErrorReply(Caught(result).value)]
        && var text := ErrorText(Caught(result).value);
           && text != NETWORK_ERROR_TEXT
           && (StartsWith(text, CLIENT_ERROR_PREFIX) || text == SERVER_ERROR_TEXT || text == GENERIC_ERROR_TEXT)
  {
    var result := Dispatched(outcomes, jitters, 0).result;
    if result.Raised? {
      DispatchErrorShown(outcomes, jitters);
    } else if result.stream.Some? {
      ReturnedStreamPlatform(outcomes, jitters, result.stream.value);
    }
  }

  /** A send never rewrites the history it sent when that ends with the
      user's message: everything else is appended after it. */
  lemma SendKeepsHistory(history: seq<Message>, result: CallResult, extract: string -> Option<string>)
    requires history != [] && history[|history| - 1].role == User
    ensures |history| <= |SendResult(history, result, extract)|
    ensures SendResult(history, result, extract)[..|history|] == history
  {
    if result.Returned? && result.stream.Some? {
      var stream := result.stream.value;
      DecodeKeeps(history, Decoder(history, ""), stream.chunks, extract);
      var decoded := DecodeChunks(Decoder(history, ""), stream.chunks, extract).messages;
      if stream.readError.Some? {
        assert (decoded + [ErrorReply(stream.readError.value)])[..|history|] == decoded[..|history|];
      }
    }
  }

  /** A stream that ends cleanly without `[DONE]` and carries deltas
      t1..tn leaves the history plus one assistant message t1+...+tn,
      however its text was split into chunks. */
  lemma SendStreamsOneReply(history: seq<Message>, stream: Stream, extract: string -> Option<string>)
    requires history != [] && history[|history| - 1].role == User
    requires stream.readError == None
    requires forall l :: l in CompleteLines(Flatten(stream.chunks)) ==> !IsDoneLine(l)
    requires Deltas(CompleteLines(Flatten(stream.chunks)), extract) != []
    ensures SendResult(history, Returned(Some(stream)), extract) ==
            history + [Message(Assistant, Concat(Deltas(CompleteLines(Flatten(stream.chunks)), extract)))]
  {
    var lines := CompleteLines(Flatten(stream.chunks));
    DecodeWithoutDone(history, stream.chunks, extract);
    HandleLinesApplies(history, lines, extract);
    Coalesce(history, Deltas(lines, extract));
  }

  /** A stream read to its end, `[DONE]` lines or not, leaves the history
      plus at most one assistant message: the concatenation of every delta
      the read loop applied, or nothing when there was none. */
  lemma CleanSendOneReply(history: seq<Message>, stream: Stream, extract: string -> Option<string>)
    requires history != [] && history[|history| - 1].role == User
    requires stream.readError == None
    ensures var ds := ChunkDeltas("", stream.chunks, extract);
      SendResult(history, Returned(Some(stream)), extract) ==
        if ds == [] then history else history + [Message(Assistant, Concat(ds))]
  {
    var ds := ChunkDeltas("", stream.chunks, extract);
    DecodeApplies(Decoder(history, ""), stream.chunks, extract);
    if ds != [] {
      Coalesce(history, ds);
    }
  }

  /** The chat page's state that a send reads and writes. */
  class ChatSession {
    var messages: seq<Message>
    var input: string
    var isLoading: bool

    constructor ()
      ensures messages == [] && input == [] && !isLoading
    {
      messages := [];
      input := [];
      isLoading := false;
    }

    /** The textarea's `onChange`. */
    method SetInput(text: string)
      modifies this`input
      ensures input == text
    {
      input := text;
    }

    /** The inner `for` over the complete lines of one chunk; `[DONE]`
        breaks out of it. */
    method HandleChunkLines(lines: seq<string>, extract: string -> Option<string>)
      modifies this`messages
      ensures messages == HandleLines(old(messages), lines, extract)
    {
      var j := 0;
      while j < |lines|
        invariant 0 <= j <= |lines|
        invariant HandleLines(messages, lines[j..], extract) == HandleLines(old(messages), lines, extract)
      {
        var line := lines[j];
        if StartsWith(line, DATA_PREFIX) {
          var data := line[|DATA_PREFIX|..];
          if data == DONE_SENTINEL {
            return;
          }
          var content := extract(data);
          if Truthy(content) {
            messages := ApplyDelta(messages, content.value);
          }
        }
        assert lines[j..][1..] == lines[j + 1..];
        j := j + 1;
      }
    }

    /** The `while (true)` read loop: append each chunk to the buffer, split
        off the complete lines, keep the last piece for the next chunk. */
    method ReadStream(chunks: seq<string>, extract: string -> Option<string>)
      modifies this`messages
      ensures messages == DecodeChunks(Decoder(old(messages), []), chunks, extract).messages
    {
      var buffer := [];
      var i := 0;
      while i < |chunks|
        invariant 0 <= i <= |chunks|
        invariant DecodeChunks(Decoder(messages, buffer), chunks[i..], extract) ==
                  DecodeChunks(Decoder(old(messages), []), chunks, extract)
      {
        ghost var start := Decoder(messages, buffer);
        buffer := buffer + chunks[i];
        var lines := Split(buffer, '\n');
        buffer := lines[|lines| - 1];
        HandleChunkLines(lines[..|lines| - 1], extract);
        assert FeedChunk(start, chunks[i], extract) == Decoder(messages, buffer);
        assert chunks[i..][1..] == chunks[i + 1..];
        i := i + 1;
      }
    }

    /** `handleSendMessage`. Returns the history handed to the dispatcher,
        or `None` when the guard returns early. */
    method HandleSendMessage(outcomes: seq<FetchOutcome>, jitters: seq<nat>, extract: string -> Option<string>)
        returns (request: Option<seq<Message>>)
      requires Oracle(outcomes, jitters) && PlatformStreams(outcomes)
      modifies this
      ensures Trim(old(input)) == [] || old(isLoading) ==>
                && request == None
                && messages == old(messages) && input == old(input) && isLoading == old(isLoading)
      ensures Trim(old(input)) != [] && !old(isLoading) ==>
                && request == Some(old(messages) + [Message(User, Trim(old(input)))])
                && input == [] && !isLoading
                && messages == SendResult(request.value, Dispatched(outcomes, jitters, 0).result, extract)
      ensures Trim(old(input)) != [] && !old(isLoading) && Caught(Dispatched(outcomes, jitters, 0).result).Some? ==>
                messages != [] && messages[|messages| - 1].content != NETWORK_ERROR_TEXT
    {
      if Trim(input) == [] || isLoading {
        return None;
      }
      var newMessage := Message(User, Trim(input));
      var history := messages + [newMessage];
      messages := history;
      input := [];
      isLoading := true;

      var dispatched, _ := FetchChatResponse(outcomes, jitters);
      var caught: Option<Exception> := None;
      match dispatched {
        case Raised(e) =>
          caught := Some(e);
        case Returned(None) =>
          caught := Some(PlainError(STREAM_MISSING));
        case Returned(Some(stream)) =>
          ReadStream(stream.chunks, extract);
          caught := stream.readError;
      }
      if caught.Some? {
        messages := messages + [ErrorReply(caught.value)];
      }
      isLoading := false;
      request := Some(history);
      NetworkTextNeverShown(history, outcomes, jitters, extract);
    }
  }
}
