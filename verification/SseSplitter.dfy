/** The browser's reader of server-sent events: a buffer split on blank lines, chunk by chunk. */
module SseSplitter {
  import opened Prelude
  import opened Text

  predicate AtSeparator(s: string) { |s| >= 2 && s[0] == '\n' && s[1] == '\n' }

  /** s.split("\n\n"): leftmost separators, without overlaps. */
  function SplitBlank(s: string): (parts: seq<string>)
    ensures parts != []
  {
    if AtSeparator(s) then [""] + SplitBlank(s[2..])
    else if s == [] then [""]
    else Extended(s[0], SplitBlank(s[1..]))
  }

  /** The first part grows at the front. */
  function Extended(c: char, parts: seq<string>): (r: seq<string>)
    requires parts != []
    ensures |r| == |parts|
  {
    [[c] + parts[0]] + parts[1..]
  }

  ghost predicate NoSeparator(s: string) {
    forall i :: 0 <= i < |s| - 1 ==> !(s[i] == '\n' && s[i + 1] == '\n')
  }

  lemma {:induction false} OnePart(s: string)
    requires |SplitBlank(s)| == 1
    ensures SplitBlank(s) == [s] && NoSeparator(s)
  {
    if s != [] && !AtSeparator(s) {
      OnePart(s[1..]);
      assert s == [s[0]] + s[1..];
      forall i | 0 <= i < |s| - 1 ensures !(s[i] == '\n' && s[i + 1] == '\n') {
        if i > 0 {
          assert s[i] == s[1..][i - 1] && s[i + 1] == s[1..][i];
        }
      }
    }
  }

  /** What stays in the buffer holds no separator. */
  lemma {:induction false} RemainderHasNoSeparator(s: string)
    ensures NoSeparator(Last(SplitBlank(s)))
    decreases |s|
  {
    if |SplitBlank(s)| == 1 {
      OnePart(s);
    } else if AtSeparator(s) {
      RemainderHasNoSeparator(s[2..]);
    } else {
      RemainderHasNoSeparator(s[1..]);
    }
  }

  /** The parts, joined again, are the text; and each ends at the first blank line behind it. */
  lemma {:induction false} SplitIsLeftmost(s: string)
    ensures Joined(SplitBlank(s), "\n\n") == s
    ensures forall i :: 0 <= i < |SplitBlank(s)| - 1 ==> NoSeparator(SplitBlank(s)[i] + "\n")
    decreases |s|
  {
    var parts := SplitBlank(s);
    if AtSeparator(s) {
      SplitIsLeftmost(s[2..]);
      assert parts[1..] == SplitBlank(s[2..]);
      assert s == "" + "\n\n" + s[2..];
    } else if s != [] {
      var rest := SplitBlank(s[1..]);
      SplitIsLeftmost(s[1..]);
      assert parts[1..] == rest[1..] && parts[0] == [s[0]] + rest[0];
      assert s == [s[0]] + s[1..];
      if |parts| > 1 {
        assert Joined(rest, "\n\n") == rest[0] + "\n\n" + Joined(rest[1..], "\n\n");
        FirstPart(s);
      }
    }
  }

  lemma FirstPart(s: string)
    requires s != [] && !AtSeparator(s) && |SplitBlank(s)| > 1
    requires NoSeparator(SplitBlank(s[1..])[0] + "\n")
    requires Joined(SplitBlank(s[1..]), "\n\n") == s[1..]
    ensures NoSeparator(SplitBlank(s)[0] + "\n")
  {
    var rest := SplitBlank(s[1..]);
    var line, shorter := SplitBlank(s)[0] + "\n", rest[0] + "\n";
    assert shorter <= s[1..];
    assert line == [s[0]] + shorter;
    forall i | 0 <= i < |line| - 1 ensures !(line[i] == '\n' && line[i + 1] == '\n') {
      if i > 0 {
        assert line[i] == shorter[i - 1] && line[i + 1] == shorter[i];
      } else {
        assert line[1] == shorter[0] == s[1..][0];
      }
    }
  }

  /** Splitting the remainder together with what comes next continues the split of the whole. */
  lemma {:induction false} SplitContinues(a: string, b: string)
    ensures SplitBlank(a + b) == Init(SplitBlank(a)) + SplitBlank(Last(SplitBlank(a)) + b)
    decreases |a|
  {
    if |SplitBlank(a)| == 1 {
      OnePart(a);
    } else if AtSeparator(a) {
      SplitContinues(a[2..], b);
      assert (a + b)[2..] == a[2..] + b;
      assert Init(SplitBlank(a)) == [""] + Init(SplitBlank(a[2..]));
    } else {
      SplitContinues(a[1..], b);
      ExtendFirst(a, b);
    }
  }

  lemma ExtendFirst(a: string, b: string)
    requires |SplitBlank(a)| > 1 && !AtSeparator(a) && a != []
    requires SplitBlank(a[1..] + b) == Init(SplitBlank(a[1..])) + SplitBlank(Last(SplitBlank(a[1..])) + b)
    ensures SplitBlank(a + b) == Init(SplitBlank(a)) + SplitBlank(Last(SplitBlank(a)) + b)
  {
    var rest := SplitBlank(a[1..]);
    assert (a + b)[1..] == a[1..] + b && !AtSeparator(a + b) && (a + b)[0] == a[0];
    assert SplitBlank(a + b) == Extended(a[0], SplitBlank(a[1..] + b));
    ExtendedParts(a[0], rest, SplitBlank(Last(rest) + b));
  }

  lemma ExtendedParts(c: char, parts: seq<string>, more: seq<string>)
    requires |parts| > 1 && more != []
    ensures Extended(c, Init(parts) + more) == Init(Extended(c, parts)) + more
    ensures Last(Extended(c, parts)) == Last(parts)
  {
    assert (Init(parts) + more)[1..] == Init(parts)[1..] + more;
    assert Init(Extended(c, parts)) == [[c] + parts[0]] + Init(parts)[1..];
  }

  // ----- Handling the blocks -----

  datatype Call<E> = OnEvent(event: E) | OnError

  type Parser<!E> = string -> Option<E>

  /** The first line that starts with "data: ", without that prefix. */
  function DataLine(lines: seq<string>): Option<string> {
    if lines == [] then None
    else if "data: " <= lines[0] then Some(lines[0][6..])
    else DataLine(lines[1..])
  }

  function Handle<E>(parse: Parser<E>, block: string): seq<Call<E>> {
    var line := DataLine(Split(block, '\n'));
    if line.None? then []
    else
      var event := parse(line.value);
      [if event.Some? then OnEvent(event.value) else OnError]
  }

  function HandleAll<E>(parse: Parser<E>, blocks: seq<string>): seq<Call<E>> {
    if blocks == [] then [] else HandleAll(parse, Init(blocks)) + Handle(parse, Last(blocks))
  }

  lemma {:induction false} HandleAppend<E>(parse: Parser<E>, a: seq<string>, b: seq<string>)
    ensures HandleAll(parse, a + b) == HandleAll(parse, a) + HandleAll(parse, b)
  {
    if b == [] {
      assert a + b == a;
    } else {
      assert Init(a + b) == a + Init(b) && Last(a + b) == Last(b);
      HandleAppend(parse, a, Init(b));
    }
  }

  lemma HandleAfter<E>(parse: Parser<E>, done: seq<string>, events: seq<string>)
    requires events != []
    ensures HandleAll(parse, Init(done + events)) == HandleAll(parse, done) + HandleAll(parse, Init(events))
    ensures Last(done + events) == Last(events)
  {
    assert Init(done + events) == done + Init(events);
    HandleAppend(parse, done, Init(events));
  }

  /** However the network cuts the text, the handlers are called for the blocks of the whole text, in order, and
      the buffer holds what follows its last separator. */
  method Stream<E>(parse: Parser<E>, chunks: seq<string>) returns (calls: seq<Call<E>>, buffer: string)
    ensures calls == HandleAll(parse, Init(SplitBlank(Flatten(chunks))))
    ensures buffer == Last(SplitBlank(Flatten(chunks))) && NoSeparator(buffer)
  {
    calls, buffer := [], "";
    var i := 0;
    while i < |chunks|
      invariant 0 <= i <= |chunks|
      invariant calls == HandleAll(parse, Init(SplitBlank(Flatten(chunks[..i]))))
      invariant buffer == Last(SplitBlank(Flatten(chunks[..i])))
    {
      assert Init(chunks[..i + 1]) == chunks[..i];
      ghost var before := Flatten(chunks[..i]);
      SplitContinues(before, chunks[i]);
      buffer := buffer + chunks[i];
      var events := SplitBlank(buffer);
      ghost var done := Init(SplitBlank(before));
      HandleAfter(parse, done, events);
      var more := HandleBlocks(parse, Init(events));
      calls := calls + more;
      buffer := Last(events);
      i := i + 1;
    }
    assert chunks[..i] == chunks;
    RemainderHasNoSeparator(Flatten(chunks));
  }

  method HandleBlocks<E>(parse: Parser<E>, blocks: seq<string>) returns (calls: seq<Call<E>>)
    ensures calls == HandleAll(parse, blocks)
  {
    calls := [];
    var i := 0;
    while i < |blocks|
      invariant 0 <= i <= |blocks| && calls == HandleAll(parse, blocks[..i])
    {
      assert Init(blocks[..i + 1]) == blocks[..i];
      calls := calls + Handle(parse, blocks[i]);
      i := i + 1;
    }
    assert blocks[..i] == blocks;
  }

  // ----- The server's frames -----

  function Frame(payload: string): string { "data: " + payload + "\n\n" }

  function ReplyTo<E>(parse: Parser<E>, payload: string): Call<E> {
    var event := parse(payload);
    if event.Some? then OnEvent(event.value) else OnError
  }

  lemma {:induction false} SplitLine(line: string, rest: string)
    requires '\n' !in line
    ensures SplitBlank(line + "\n\n" + rest) == [line] + SplitBlank(rest)
  {
    var s := line + "\n\n" + rest;
    if line == [] {
      assert s[2..] == rest;
    } else {
      SplitLine(line[1..], rest);
      assert s[1..] == line[1..] + "\n\n" + rest;
      assert s[0] == line[0] && line[0] in line;
      assert line == [line[0]] + line[1..];
    }
  }

  lemma FrameHandled<E>(parse: Parser<E>, payload: string)
    requires '\n' !in payload
    ensures Handle(parse, "data: " + payload) == [ReplyTo(parse, payload)]
  {
    var line := "data: " + payload;
    SplitTail([], line, '\n');
    assert [] + line == line;
    assert Split(line, '\n') == [line];
    assert line[6..] == payload;
  }

  lemma FrameSplit(payload: string)
    requires '\n' !in payload
    ensures SplitBlank(Frame(payload)) == ["data: " + payload] + [""]
  {
    var line := "data: " + payload;
    SplitLine(line, "");
    assert SplitBlank("") == [""];
    assert Frame(payload) == line + "\n\n" + "";
  }

  function LineOf(payload: string): string { "data: " + payload }

  lemma LinesGrow(payloads: seq<string>)
    requires payloads != []
    ensures Map(Init(payloads), LineOf) + ([LineOf(Last(payloads))] + [""]) == Map(payloads, LineOf) + [""]
  {
  }

  /** The blocks of a sequence of frames are their lines, and nothing is left over. */
  lemma {:induction false} FramesSplit(payloads: seq<string>)
    requires forall i :: 0 <= i < |payloads| ==> '\n' !in payloads[i]
    ensures SplitBlank(Flatten(Map(payloads, Frame))) == Map(payloads, LineOf) + [""]
  {
    if payloads == [] {
      assert Map(payloads, Frame) == [];
    } else {
      var front, last := Init(payloads), Last(payloads);
      FramesSplit(front);
      assert Init(Map(payloads, Frame)) == Map(front, Frame);
      var before := Flatten(Map(front, Frame));
      SplitContinues(before, Frame(last));
      var lines := Map(front, LineOf);
      assert Init(lines + [""]) == lines && Last(lines + [""]) == "";
      FrameSplit(last);
      assert "" + Frame(last) == Frame(last);
      LinesGrow(payloads);
    }
  }

  /** However they are cut in transit, frames with one-line payloads arrive as exactly their events. */
  lemma {:induction false} FramesArrive<E>(parse: Parser<E>, payloads: seq<string>)
    requires forall i :: 0 <= i < |payloads| ==> '\n' !in payloads[i]
    ensures var parts := SplitBlank(Flatten(Map(payloads, Frame)));
      HandleAll(parse, Init(parts)) == Map(payloads, p => ReplyTo(parse, p)) && Last(parts) == ""
  {
    FramesSplit(payloads);
    var lines := Map(payloads, LineOf);
    assert Init(lines + [""]) == lines;
    LinesHandled(parse, payloads);
  }

  lemma {:induction false} LinesHandled<E>(parse: Parser<E>, payloads: seq<string>)
    requires forall i :: 0 <= i < |payloads| ==> '\n' !in payloads[i]
    ensures HandleAll(parse, Map(payloads, LineOf)) == Map(payloads, p => ReplyTo(parse, p))
  {
    if payloads == [] {
      assert Map(payloads, LineOf) == [];
    } else {
      LinesHandled(parse, Init(payloads));
      var lines := Map(payloads, LineOf);
      assert Init(lines) == Map(Init(payloads), LineOf);
      FrameHandled(parse, Last(payloads));
    }
  }
}
