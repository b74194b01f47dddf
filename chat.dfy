/**
 * The assistant chat panel (src/components/AIChatbot.tsx): the `send` handler,
 * its reading of the streamed reply as `data: ` lines, and the merge of the
 * reply into the message list.
 *
 * Decoding a payload (`JSON.parse` and `choices?.[0]?.delta?.content`) is not
 * modelled; it is a parameter `parse` that says whether the text parsed and,
 * if so, what content it carried.
 */
module Chat {
  import opened Wrappers
  import opened JsStrings
  import opened Types

  /** What one payload decodes to: a parse failure, or the delta content, if the payload has a string there. */
  datatype Delta = Unparsable | Parsed(content: Option<string>)

  /** `if (content)`: only a non-empty string is merged. */
  predicate Emits(d: Delta) {
    d.Parsed? && d.content.Some? && d.content.value != ""
  }

  /** `upsert`'s state updater: the reply so far replaces a trailing assistant message or is appended. */
  function Upsert(messages: seq<ChatMessage>, soFar: string): (r: seq<ChatMessage>)
    ensures |r| >= 1 && r[|r| - 1] == ChatMessage(Assistant, soFar)
    ensures var replaced := messages != [] && messages[|messages| - 1].role == Assistant;
      |r| == (if replaced then |messages| else |messages| + 1)
    ensures r[..|r| - 1] == messages[..|r| - 1]
  {
    if messages != [] && messages[|messages| - 1].role == Assistant then
      messages[..|messages| - 1] + [ChatMessage(Assistant, soFar)]
    else
      messages + [ChatMessage(Assistant, soFar)]
  }

  /** Merging twice is merging the second text once: the reply occupies one message. */
  lemma UpsertReplaces(messages: seq<ChatMessage>, first: string, second: string)
    ensures Upsert(Upsert(messages, first), second) == Upsert(messages, second)
  {
    var once := Upsert(messages, first);
    assert once[..|once| - 1] == Upsert(messages, second)[..|once| - 1];
  }

  /** `line.endsWith('\r')` then `line.slice(0, -1)`. */
  function StripCR(line: string): (r: string)
    ensures r == line || r + "\r" == line
    ensures r == line <==> line == [] || line[|line| - 1] != '\r'
  {
    if line != [] && line[|line| - 1] == '\r' then line[..|line| - 1] else line
  }

  /** How a line of the stream is treated. */
  datatype Line = Skip | End | Payload(json: string)

  const DataPrefix: string := "data: "

  /**
   * Lines 82-85: a comment (`:`), a blank line or any line without the `data: `
   * prefix is skipped; `[DONE]` ends the stream; anything else is a payload.
   * The first two tests are subsumed by the third.
   */
  function Classify(line: string): (r: Line)
    ensures r.Skip? <==> !(DataPrefix <= line)
    ensures r.End? <==> DataPrefix <= line && Trim(line[6..]) == "[DONE]"
    ensures r.Payload? ==> DataPrefix <= line && r.json == Trim(line[6..]) && r.json != "[DONE]"
  {
    TrimEmptyIff(line);
    assert DataPrefix <= line ==> line[0] == 'd';
    if (line != [] && line[0] == ':') || Trim(line) == "" then Skip
    else if !(DataPrefix <= line) then Skip
    else
      var json := Trim(line[6..]);
      if json == "[DONE]" then End else Payload(json)
  }

  /** Removing one `\r` from the end of a line does not change how it is treated. */
  lemma ClassifyStripCR(line: string)
    ensures Classify(StripCR(line)) == Classify(line)
  {
    var m := StripCR(line);
    if m != line {
      assert line == m + ['\r'];
      if |m| >= 6 {
        assert line[..6] == m[..6];
        assert line[6..] == m[6..] + ['\r'];
        TrimIgnoresTrailingWhitespace(m[6..], '\r');
      } else {
        assert !(DataPrefix <= line) by {
          if |line| >= 6 { assert line[5] == '\r'; }
        }
      }
    }
  }

  /**
   * The reader's state within one response: `textBuffer`, `streamDone`,
   * `assistantSoFar` and the message list.
   */
  datatype Assembly = Assembly(buffer: string, done: bool, soFar: string, messages: seq<ChatMessage>)

  /** The state before the first chunk, over the history that was sent. */
  function Start(history: seq<ChatMessage>): Assembly {
    Assembly("", false, "", history)
  }

  /** `textBuffer += chunk`. */
  function Append(a: Assembly, chunk: string): Assembly {
    a.(buffer := a.buffer + chunk)
  }

  /** One pass of the inner loop: no complete line; a line handled and the loop goes on; or the loop breaks. */
  datatype Advance = Waiting | Moved(next: Assembly) | Stopped(last: Assembly)

  /** Lines 81-90 for one complete line (its `\r` already stripped) and the text behind it. */
  function Handle(parse: string -> Delta, a: Assembly, line: string, rest: string): (r: Advance)
    ensures r.Moved? ==> r.next.buffer == rest && r.next.done == a.done
    ensures r.Stopped? ==> r.last.soFar == a.soFar && r.last.messages == a.messages
  {
    match Classify(line)
    case Skip => Moved(a.(buffer := rest))
    case End => Stopped(a.(buffer := rest, done := true))
    case Payload(json) =>
      var d := parse(json);
      if d.Unparsable? then Stopped(a.(buffer := line + "\n" + rest))
      else if Emits(d) then
        var soFar := a.soFar + d.content.value;
        Moved(a.(buffer := rest, soFar := soFar, messages := Upsert(a.messages, soFar)))
      else Moved(a.(buffer := rest))
  }

  /** What `Handle` does depends on the line and the rest, not on the buffer they came from. */
  lemma HandleIgnoresBuffer(parse: string -> Delta, a: Assembly, b: Assembly, line: string, rest: string)
    requires a.done == b.done && a.soFar == b.soFar && a.messages == b.messages
    ensures Handle(parse, a, line, rest) == Handle(parse, b, line, rest)
  {
  }

  /** One pass of the inner `while` over the first complete line of the buffer. */
  function Step(parse: string -> Delta, a: Assembly): (r: Advance)
    ensures r.Waiting? <==> '\n' !in a.buffer
    ensures r.Moved? ==> |r.next.buffer| < |a.buffer| && r.next.done == a.done
    ensures r.Stopped? ==> r.last.soFar == a.soFar && r.last.messages == a.messages
  {
    var i := IndexOf(a.buffer, '\n');
    if i < 0 then Waiting
    else Handle(parse, a, StripCR(a.buffer[..i]), a.buffer[i + 1..])
  }

  /** The inner `while`: lines are handled until none is complete or the loop breaks. */
  function Drain(parse: string -> Delta, a: Assembly): Assembly
    decreases |a.buffer|
  {
    match Step(parse, a)
    case Waiting => a
    case Moved(next) => Drain(parse, next)
    case Stopped(last) => last
  }

  /** The outer `while`: chunks are appended and drained until `[DONE]` or the end of the chunks. */
  function Run(parse: string -> Delta, a: Assembly, chunks: seq<string>): Assembly
    decreases |chunks|
  {
    if chunks == [] || a.done then a
    else Run(parse, Drain(parse, Append(a, chunks[0])), chunks[1..])
  }

  function Concat(chunks: seq<string>): string {
    if chunks == [] then "" else chunks[0] + Concat(chunks[1..])
  }

  // ---------------------------------------------------------------------------
  // The message list during a reply

  /** The history sent ends without an assistant message (it ends with the user's message). */
  predicate AwaitsReply(history: seq<ChatMessage>) {
    history == [] || history[|history| - 1].role != Assistant
  }

  /** The list shows the history followed by one assistant message with the reply so far, once there is any. */
  predicate Shows(history: seq<ChatMessage>, a: Assembly) {
    a.messages == history + (if a.soFar == "" then [] else [ChatMessage(Assistant, a.soFar)])
  }

  /** A line that moves the reader on either leaves the reply alone or extends it and upserts the message. */
  lemma StepGrows(parse: string -> Delta, a: Assembly)
    requires Step(parse, a).Moved?
    ensures a.soFar <= Step(parse, a).next.soFar
    ensures Step(parse, a).next.messages ==
      if Step(parse, a).next.soFar == a.soFar then a.messages else Upsert(a.messages, Step(parse, a).next.soFar)
  {
    var i := IndexOf(a.buffer, '\n');
    var line := StripCR(a.buffer[..i]);
    var rest := a.buffer[i + 1..];
    assert Step(parse, a) == Handle(parse, a, line, rest);
    if Classify(line).Payload? {
      var d := parse(Classify(line).json);
      if Emits(d) {
        assert a.soFar + d.content.value != a.soFar;
      }
    }
  }

  /** A reply that only grows, with the message upserted when it does, keeps the list showing it. */
  lemma GrowShows(history: seq<ChatMessage>, a: Assembly, next: Assembly)
    requires AwaitsReply(history) && Shows(history, a) && a.soFar <= next.soFar
    requires next.messages == if next.soFar == a.soFar then a.messages else Upsert(a.messages, next.soFar)
    ensures Shows(history, next)
  {
    if next.soFar != a.soFar {
      assert |next.soFar| > |a.soFar|;
      var m := a.messages;
      if a.soFar == "" {
        assert m == history;
        assert Upsert(m, next.soFar) == history + [ChatMessage(Assistant, next.soFar)];
      } else {
        assert m == history + [ChatMessage(Assistant, a.soFar)];
        assert m[..|m| - 1] == history;
        assert Upsert(m, next.soFar) == history + [ChatMessage(Assistant, next.soFar)];
      }
    }
  }

  /**
   * While lines are handled, at most one assistant message follows the history,
   * it holds every fragment so far, the history is untouched, and the reply only
   * grows.
   */
  lemma {:induction false} DrainShows(parse: string -> Delta, history: seq<ChatMessage>, a: Assembly)
    requires AwaitsReply(history) && Shows(history, a)
    ensures Shows(history, Drain(parse, a))
    ensures a.soFar <= Drain(parse, a).soFar
    decreases |a.buffer|
  {
    var adv := Step(parse, a);
    if adv.Moved? {
      StepGrows(parse, a);
      GrowShows(history, a, adv.next);
      DrainShows(parse, history, adv.next);
      assert Drain(parse, a) == Drain(parse, adv.next);
    } else if adv.Stopped? {
      assert Drain(parse, a) == adv.last;
    } else {
      assert Drain(parse, a) == a;
    }
  }

  // ---------------------------------------------------------------------------
  // Chunk boundaries do not matter

  /** What the panel shows: done flag, reply and message list. */
  predicate Same(x: Assembly, y: Assembly) {
    x.done == y.done && x.soFar == y.soFar && x.messages == y.messages
  }

  /** The first complete line is a payload that does not parse: the reader is stuck on it. */
  predicate Stalled(parse: string -> Delta, a: Assembly) {
    var i := IndexOf(a.buffer, '\n');
    i >= 0 &&
    var c := Classify(StripCR(a.buffer[..i]));
    c.Payload? && parse(c.json).Unparsable?
  }

  /** Equal, or both stuck on a bad line and showing the same (their buffers may differ by a `\r`). */
  predicate Alike(parse: string -> Delta, x: Assembly, y: Assembly) {
    x == y || (Same(x, y) && Stalled(parse, x) && Stalled(parse, y))
  }

  /** The same step with `c` appended to the resulting buffer. */
  function Lift(adv: Advance, c: string): Advance {
    match adv
    case Waiting => Waiting
    case Moved(next) => Moved(Append(next, c))
    case Stopped(last) => Stopped(Append(last, c))
  }

  lemma HandleAppend(parse: string -> Delta, a: Assembly, line: string, rest: string, c: string)
    ensures Handle(parse, Append(a, c), line, rest + c) == Lift(Handle(parse, a, line, rest), c)
  {
    assert line + "\n" + (rest + c) == (line + "\n" + rest) + c;
  }

  /** Appending text behind a complete line does not change how that line is handled. */
  lemma StepAppend(parse: string -> Delta, a: Assembly, c: string)
    requires '\n' in a.buffer
    ensures Step(parse, Append(a, c)) == Lift(Step(parse, a), c)
  {
    var i := IndexOf(a.buffer, '\n');
    IndexOfPrefix(a.buffer, c, '\n');
    assert (a.buffer + c)[..i] == a.buffer[..i];
    assert (a.buffer + c)[i + 1..] == a.buffer[i + 1..] + c;
    HandleAppend(parse, a, StripCR(a.buffer[..i]), a.buffer[i + 1..], c);
  }

  lemma StalledAppend(parse: string -> Delta, a: Assembly, c: string)
    requires Stalled(parse, a)
    ensures Stalled(parse, Append(a, c))
  {
    var i := IndexOf(a.buffer, '\n');
    IndexOfPrefix(a.buffer, c, '\n');
    assert (a.buffer + c)[..i] == a.buffer[..i];
  }

  /** A step stops for one of two reasons: `[DONE]`, or a payload that does not parse. */
  lemma StoppedWhy(parse: string -> Delta, a: Assembly)
    requires Step(parse, a).Stopped?
    ensures Step(parse, a).last.done || Stalled(parse, a)
  {
  }

  /** A line put back after a parse failure is the first line again, and fails again. */
  lemma RestoredStalls(parse: string -> Delta, a: Assembly)
    requires Stalled(parse, a)
    ensures Step(parse, a).Stopped?
    ensures Same(Step(parse, a).last, a)
    ensures Stalled(parse, Step(parse, a).last)
  {
    var i := IndexOf(a.buffer, '\n');
    var line := StripCR(a.buffer[..i]);
    var rest := a.buffer[i + 1..];
    assert '\n' !in line by {
      assert line <= a.buffer[..i];
    }
    IndexOfAfter(line, "\n" + rest, '\n');
    assert (line + ("\n" + rest))[..|line|] == line;
    assert line + "\n" + rest == line + ("\n" + rest);
    ClassifyStripCR(line);
  }

  /**
   * A payload that does not parse is put back in front of the buffer and blocks
   * every later line: whatever text arrives, the panel shows the same and the
   * reader stays stuck.
   */
  lemma StalledBlocks(parse: string -> Delta, a: Assembly, c: string)
    requires Stalled(parse, a)
    ensures Same(Drain(parse, Append(a, c)), a)
    ensures Stalled(parse, Drain(parse, Append(a, c)))
  {
    StalledAppend(parse, a, c);
    RestoredStalls(parse, Append(a, c));
  }

  /** After draining, the reader is done, waiting for a line to complete, or stuck on a bad line. */
  lemma {:induction false} DrainSettles(parse: string -> Delta, a: Assembly)
    ensures var r := Drain(parse, a);
      r.done || '\n' !in r.buffer || Stalled(parse, r)
    decreases |a.buffer|
  {
    match Step(parse, a)
    case Waiting =>
    case Moved(next) => DrainSettles(parse, next);
    case Stopped(last) =>
      if !last.done {
        StoppedWhy(parse, a);
        RestoredStalls(parse, a);
      }
  }

  /** Draining twice shows what draining once shows. */
  lemma DrainIdle(parse: string -> Delta, a: Assembly)
    requires !Drain(parse, a).done
    ensures Alike(parse, Drain(parse, Drain(parse, a)), Drain(parse, a))
  {
    var r := Drain(parse, a);
    DrainSettles(parse, a);
    if Stalled(parse, r) {
      StalledBlocks(parse, r, "");
      assert Append(r, "") == r;
    }
  }

  /**
   * Text that arrives later is handled as if it had come with the earlier text:
   * after `[DONE]` it is only buffered, otherwise draining in two goes shows
   * what draining once shows.
   */
  lemma {:induction false} DrainAppend(parse: string -> Delta, a: Assembly, c: string)
    requires !a.done
    ensures Drain(parse, a).done ==> Drain(parse, Append(a, c)) == Append(Drain(parse, a), c)
    ensures !Drain(parse, a).done ==>
      Alike(parse, Drain(parse, Append(a, c)), Drain(parse, Append(Drain(parse, a), c)))
    decreases |a.buffer|
  {
    match Step(parse, a)
    case Waiting =>
    case Moved(next) =>
      StepAppend(parse, a, c);
      DrainAppend(parse, next, c);
    case Stopped(last) =>
      StepAppend(parse, a, c);
      if !last.done {
        StoppedWhy(parse, a);
        RestoredStalls(parse, a);
        StalledAppend(parse, last, c);
        StalledBlocks(parse, last, c);
      }
  }

  lemma AppendTwice(a: Assembly, c: string, d: string)
    ensures Append(Append(a, c), d) == Append(a, c + d)
  {
    assert (a.buffer + c) + d == a.buffer + (c + d);
  }

  lemma ConcatCons(c: string, cs: seq<string>)
    ensures Concat([c] + cs) == c + Concat(cs)
  {
    assert ([c] + cs)[1..] == cs;
  }

  /**
   * Reading the chunks one by one shows what draining their concatenation at
   * once shows: where the chunk boundaries fall does not matter.
   */
  lemma {:induction false} RunIsDrainOfConcat(parse: string -> Delta, a: Assembly, chunks: seq<string>)
    requires !a.done && Alike(parse, Drain(parse, a), a)
    ensures Same(Run(parse, a, chunks), Drain(parse, Append(a, Concat(chunks))))
    decreases |chunks|
  {
    if chunks == [] {
      assert Append(a, "") == a;
    } else {
      var c, cs := chunks[0], chunks[1..];
      assert chunks == [c] + cs;
      ConcatCons(c, cs);
      var b := Append(a, c);
      var d := Drain(parse, b);
      var rest := Concat(cs);
      AppendTwice(a, c, rest);
      DrainAppend(parse, b, rest);
      if !d.done {
        DrainIdle(parse, b);
        RunIsDrainOfConcat(parse, d, cs);
      }
    }
  }

  /** Two ways of cutting the same stream into chunks end with the same panel. */
  lemma ChunkingIrrelevant(parse: string -> Delta, history: seq<ChatMessage>, chunks1: seq<string>, chunks2: seq<string>)
    requires Concat(chunks1) == Concat(chunks2)
    ensures Same(Run(parse, Start(history), chunks1), Run(parse, Start(history), chunks2))
  {
    RunIsDrainOfConcat(parse, Start(history), chunks1);
    RunIsDrainOfConcat(parse, Start(history), chunks2);
  }

  // ---------------------------------------------------------------------------
  // What the reply consists of

  /** The complete lines of a text: its pieces between `\n`s, without the unterminated tail. */
  function CompleteLines(s: string): seq<string> {
    var pieces := Split(s, '\n');
    pieces[..|pieces| - 1]
  }

  lemma CompleteLinesCons(s: string)
    requires '\n' in s
    ensures var i := IndexOf(s, '\n');
      CompleteLines(s) == [s[..i]] + CompleteLines(s[i + 1..])
  {
    var i := IndexOf(s, '\n');
    var tail := Split(s[i + 1..], '\n');
    SplitFound(s, '\n');
    assert ([s[..i]] + tail)[..|tail|] == [s[..i]] + tail[..|tail| - 1];
  }

  /** The reply text a list of complete lines carries, and whether a `[DONE]` ends it. */
  datatype Reading = Reading(text: string, ended: bool)

  /**
   * An independent reading of a stream's lines: the non-empty contents of the
   * payloads, in order, up to the first `[DONE]` or the first payload that does
   * not parse.
   */
  function Read(parse: string -> Delta, lines: seq<string>): Reading
    decreases |lines|
  {
    if lines == [] then Reading("", false)
    else ReadLine(parse, StripCR(lines[0]), Read(parse, lines[1..]))
  }

  /** One line read in front of the reading `more` of the lines after it. */
  function ReadLine(parse: string -> Delta, line: string, more: Reading): Reading {
    match Classify(line)
    case Skip => more
    case End => Reading("", true)
    case Payload(json) =>
      var d := parse(json);
      if d.Unparsable? then Reading("", false)
      else Reading((if Emits(d) then d.content.value else "") + more.text, more.ended)
  }

  /** Handling a line agrees with reading it. */
  lemma HandleReads(parse: string -> Delta, a: Assembly, line: string, rest: string, more: Reading)
    ensures var adv := Handle(parse, a, line, rest);
      var reading := ReadLine(parse, line, more);
      && !adv.Waiting?
      && (adv.Moved? ==>
            adv.next.soFar + more.text == a.soFar + reading.text
            && (adv.next.done || more.ended) == (a.done || reading.ended))
      && (adv.Stopped? ==>
            adv.last.soFar == a.soFar + reading.text && adv.last.done == (a.done || reading.ended))
  {
    match Classify(line)
    case Skip =>
    case End =>
      assert a.soFar + "" == a.soFar;
    case Payload(json) =>
      var d := parse(json);
      if d.Unparsable? {
        assert a.soFar + "" == a.soFar;
      } else if Emits(d) {
        assert (a.soFar + d.content.value) + more.text == a.soFar + (d.content.value + more.text);
      } else {
        assert "" + more.text == more.text;
      }
  }

  /** Draining adds to the reply exactly what the buffer's complete lines carry. */
  predicate DrainsAsRead(parse: string -> Delta, a: Assembly) {
    var r := Drain(parse, a);
    var reading := Read(parse, CompleteLines(a.buffer));
    r.soFar == a.soFar + reading.text && r.done == (a.done || reading.ended)
  }

  lemma DrainsAsReadIdle(parse: string -> Delta, a: Assembly)
    requires '\n' !in a.buffer
    ensures DrainsAsRead(parse, a)
  {
    assert IndexOf(a.buffer, '\n') == -1;
    SplitNone(a.buffer, '\n');
    assert a.soFar + "" == a.soFar;
  }

  /** The first complete line of a buffer, ending at `i`, read in front of the lines after it. */
  lemma ReadFirstLine(parse: string -> Delta, buffer: string, i: int)
    requires '\n' in buffer && i == IndexOf(buffer, '\n')
    ensures Read(parse, CompleteLines(buffer))
      == ReadLine(parse, StripCR(buffer[..i]), Read(parse, CompleteLines(buffer[i + 1..])))
  {
    var lines := CompleteLines(buffer[i + 1..]);
    CompleteLinesCons(buffer);
    assert ([buffer[..i]] + lines)[0] == buffer[..i] && ([buffer[..i]] + lines)[1..] == lines;
  }

  /** One step of the reader adds to the reply what reading its line adds. */
  lemma StepReads(parse: string -> Delta, a: Assembly)
    requires '\n' in a.buffer
    ensures var adv := Step(parse, a);
      var reading := Read(parse, CompleteLines(a.buffer));
      && !adv.Waiting?
      && (adv.Moved? ==>
            var more := Read(parse, CompleteLines(adv.next.buffer));
            adv.next.soFar + more.text == a.soFar + reading.text
            && (adv.next.done || more.ended) == (a.done || reading.ended))
      && (adv.Stopped? ==>
            adv.last.soFar == a.soFar + reading.text && adv.last.done == (a.done || reading.ended))
  {
    var i := IndexOf(a.buffer, '\n');
    var line := StripCR(a.buffer[..i]);
    var rest := a.buffer[i + 1..];
    var more := Read(parse, CompleteLines(rest));
    var adv := Handle(parse, a, line, rest);
    var reading := ReadLine(parse, line, more);
    HandleReads(parse, a, line, rest, more);
    assert Step(parse, a) == adv;
    ReadFirstLine(parse, a.buffer, i);
  }

  lemma {:induction false} DrainReads(parse: string -> Delta, a: Assembly)
    ensures DrainsAsRead(parse, a)
    decreases |a.buffer|
  {
    if '\n' !in a.buffer {
      DrainsAsReadIdle(parse, a);
    } else {
      var adv := Step(parse, a);
      StepReads(parse, a);
      if adv.Moved? {
        DrainReads(parse, adv.next);
        assert Drain(parse, a) == Drain(parse, adv.next);
        var more := Read(parse, CompleteLines(adv.next.buffer));
        assert Drain(parse, adv.next).soFar == adv.next.soFar + more.text;
        assert (adv.next.soFar + more.text) == a.soFar + Read(parse, CompleteLines(a.buffer)).text;
      } else {
        assert Drain(parse, a) == adv.last;
      }
    }
  }

  /**
   * The whole of one reply, however the stream was cut into chunks: the list
   * ends with the history sent and one assistant message holding the text of
   * the payloads read before `[DONE]` or a bad payload (none if that text is
   * empty); the reader is done exactly when a `[DONE]` came.
   */
  lemma StreamReply(parse: string -> Delta, history: seq<ChatMessage>, chunks: seq<string>)
    requires AwaitsReply(history)
    ensures var fin := Run(parse, Start(history), chunks);
      var reading := Read(parse, CompleteLines(Concat(chunks)));
      && fin.soFar == reading.text
      && fin.done == reading.ended
      && fin.messages == history + (if reading.text == "" then [] else [ChatMessage(Assistant, reading.text)])
  {
    assert Drain(parse, Start(history)) == Start(history);
    RunIsDrainOfConcat(parse, Start(history), chunks);
    var text := Concat(chunks);
    var all := Append(Start(history), text);
    assert all == Assembly(text, false, "", history) by {
      assert "" + text == text;
    }
    var reading := Read(parse, CompleteLines(text));
    DrainReads(parse, all);
    assert Drain(parse, all).soFar == reading.text by {
      assert "" + reading.text == reading.text;
    }
    DrainShows(parse, history, all);
  }

  // ---------------------------------------------------------------------------
  // The reader and the panel

  /** Reads one streamed reply: the state the loops of `send` keep in local variables. */
  class StreamAssembler {
    var buffer: string
    var done: bool
    var soFar: string
    var messages: seq<ChatMessage>
    const parse: string -> Delta

    function State(): Assembly
      reads this
    {
      Assembly(buffer, done, soFar, messages)
    }

    /** Lines 58, 32 and 71: an empty buffer and reply over the history sent. */
    constructor(parse: string -> Delta, history: seq<ChatMessage>)
      ensures State() == Start(history) && this.parse == parse
    {
      this.parse := parse;
      buffer := "";
      done := false;
      soFar := "";
      messages := history;
    }

    /** Lines 80-81: the line ending at `nl` is cut off the buffer, without a final `\r`. */
    method TakeLine(nl: int) returns (line: string)
      requires 0 <= nl < |buffer|
      modifies this
      ensures line == StripCR(old(buffer)[..nl]) && buffer == old(buffer)[nl + 1..]
      ensures done == old(done) && soFar == old(soFar) && messages == old(messages)
    {
      line := buffer[..nl];
      buffer := buffer[nl + 1..];
      if line != [] && line[|line| - 1] == '\r' {
        line := line[..|line| - 1];
      }
    }

    /** Lines 82-90: one line taken off the buffer is handled as `Handle` says. */
    method HandleLine(line: string) returns (stop: bool)
      modifies this
      ensures Handle(parse, old(State()), line, old(buffer)) == if stop then Stopped(State()) else Moved(State())
    {
      var kind := Classify(line);
      if kind.Skip? {
        return false;
      }
      if kind.End? {
        done := true;
        return true;
      }
      var delta := parse(kind.json);
      if delta.Unparsable? {
        buffer := line + "\n" + buffer;
        return true;
      }
      if Emits(delta) {
        soFar := soFar + delta.content.value;
        messages := Upsert(messages, soFar);
      }
      stop := false;
    }

    /**
     * One pass of the inner loop (lines 79-90) over the line ending at `nl`:
     * whether the loop breaks, and the state as `Step` gives it.
     */
    method NextLine(nl: int) returns (stop: bool)
      requires nl >= 0 && nl == IndexOf(buffer, '\n')
      modifies this
      ensures Step(parse, old(State())) == if stop then Stopped(State()) else Moved(State())
    {
      ghost var a := State();
      var line := TakeLine(nl);
      ghost var taken := State();
      assert Step(parse, a) == Handle(parse, a, line, buffer);
      HandleIgnoresBuffer(parse, a, taken, line, buffer);
      stop := HandleLine(line);
    }

    /** One turn of the outer loop: the chunk is appended and every complete line handled (lines 75-91). */
    method Feed(chunk: string)
      requires !done
      modifies this
      ensures State() == Drain(parse, Append(old(State()), chunk))
    {
      buffer := buffer + chunk;
      ghost var goal := Drain(parse, State());
      var nl := IndexOf(buffer, '\n');
      while nl != -1
        invariant nl == IndexOf(buffer, '\n')
        invariant !done && Drain(parse, State()) == goal
        decreases |buffer|
      {
        var stop := NextLine(nl);
        if stop {
          break;
        }
        nl := IndexOf(buffer, '\n');
      }
    }
  }

  /** How `send` ends: a toast for 429, for 402 or for any other failure, or a reply read to its end. */
  datatype Outcome = RateLimited | CreditsNeeded | Failed | Replied

  /**
   * What `fetch` gives back, as far as `send` looks at it: the status, whether
   * there is a body, the decoded chunks the reader yields, and whether reading
   * after the last chunk fails instead of reporting the end.
   */
  datatype Response = Response(status: int, hasBody: bool, chunks: seq<string>, failsAtEnd: bool)

  /** Lines 44-54: the outcome decided before any reading, or `None` when the body is read. */
  function Opening(status: int, hasBody: bool): (r: Option<Outcome>)
    ensures r == Some(RateLimited) <==> status == 429
    ensures r == Some(CreditsNeeded) <==> status == 402
    ensures r.None? <==> 200 <= status <= 299 && hasBody
    ensures r.Some? ==> r.value != Replied
  {
    if status == 429 then Some(RateLimited)
    else if status == 402 then Some(CreditsNeeded)
    else if !(200 <= status <= 299) || !hasBody then Some(Failed)
    else None
  }

  /** The chat panel's state: the conversation, the text box and the loading flag. */
  class ChatPanel {
    var messages: seq<ChatMessage>
    var input: string
    var loading: bool

    constructor()
      ensures messages == [] && input == "" && !loading
    {
      messages := [];
      input := "";
      loading := false;
    }

    /** The text box's `onChange`; the box is disabled while a reply loads. */
    method Type(text: string)
      requires !loading
      modifies this
      ensures input == text && messages == old(messages) && loading == old(loading)
    {
      input := text;
    }

    /**
     * Lines 25-30: nothing happens for a blank input or while a reply is
     * loading; otherwise the trimmed input is appended as a user message, the
     * box is cleared, loading starts, and the whole list is what is sent.
     */
    method Submit() returns (sent: Option<seq<ChatMessage>>)
      modifies this
      ensures old(Trim(input) == "" || loading) ==>
        sent.None? && messages == old(messages) && input == old(input) && loading == old(loading)
      ensures !old(Trim(input) == "" || loading) ==>
        && sent == Some(old(messages) + [ChatMessage(User, Trim(old(input)))])
        && messages == sent.value && input == "" && loading
    {
      if Trim(input) == "" || loading {
        return None;
      }
      var userMsg := ChatMessage(User, Trim(input));
      var all := messages + [userMsg];
      messages := all;
      input := "";
      loading := true;
      sent := Some(all);
    }

    /**
     * Lines 44-97: the response is classified; a streamed body is read chunk by
     * chunk until `[DONE]` or its end, the reply merged into the list as it
     * grows; loading stops in every case.
     */
    method Receive(parse: string -> Delta, resp: Response) returns (outcome: Outcome)
      modifies this
      ensures !loading && input == old(input)
      ensures Opening(resp.status, resp.hasBody).Some? ==>
        outcome == Opening(resp.status, resp.hasBody).value && messages == old(messages)
      ensures Opening(resp.status, resp.hasBody).None? ==>
        var fin := Run(parse, Start(old(messages)), resp.chunks);
        && messages == fin.messages
        && outcome == (if !fin.done && resp.failsAtEnd then Failed else Replied)
    {
      var early := Opening(resp.status, resp.hasBody);
      if early.Some? {
        loading := false;
        return early.value;
      }
      var reader := new StreamAssembler(parse, messages);
      ghost var fin := Run(parse, reader.State(), resp.chunks);
      outcome := Replied;
      var k := 0;
      while !reader.done
        invariant 0 <= k <= |resp.chunks|
        invariant reader.parse == parse
        invariant Run(parse, reader.State(), resp.chunks[k..]) == fin
        invariant messages == reader.messages && input == old(input)
        decreases |resp.chunks| - k
      {
        if k == |resp.chunks| {
          if resp.failsAtEnd {
            outcome := Failed;
          }
          break;
        }
        assert resp.chunks[k..][0] == resp.chunks[k] && resp.chunks[k..][1..] == resp.chunks[k + 1..];
        reader.Feed(resp.chunks[k]);
        messages := reader.messages;
        k := k + 1;
      }
      loading := false;
    }

    /**
     * `send` as a whole: when the guard lets it through, the list becomes the
     * previous messages, the user's trimmed input and, for a streamed reply with
     * any text, one assistant message holding that text.
     */
    method Send(parse: string -> Delta, resp: Response) returns (outcome: Option<Outcome>)
      modifies this
      ensures old(Trim(input) == "" || loading) ==>
        outcome.None? && messages == old(messages) && input == old(input) && loading == old(loading)
      ensures !old(Trim(input) == "" || loading) ==>
        var history := old(messages) + [ChatMessage(User, Trim(old(input)))];
        var reply := Read(parse, CompleteLines(Concat(resp.chunks))).text;
        var streamed := Opening(resp.status, resp.hasBody).None?;
        && outcome.Some? && input == "" && !loading
        && messages == history + (if streamed && reply != "" then [ChatMessage(Assistant, reply)] else [])
    {
      var sent := Submit();
      if sent.None? {
        return None;
      }
      StreamReply(parse, sent.value, resp.chunks);
      var o := Receive(parse, resp);
      outcome := Some(o);
    }
  }
}
