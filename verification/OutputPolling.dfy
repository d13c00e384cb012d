/** Streaming a job's output by polling with a byte offset. */
module OutputPolling {
  import opened Prelude
  import opened Utf8

  /** What a poll meets: the file as it was when it was read, and the done flag, which the server tests after
      reading; a request that failed; or a job that is gone. */
  datatype Poll = Read(file: seq<Byte>, done: bool) | Failed | Missing

  datatype Event = Chunk(text: seq<Scalar>) | Done | Error | Orphaned

  datatype Stream = Stream(offset: nat, events: seq<Event>, open: bool)

  const BEGIN := Stream(0, [], true)

  /** f.seek(offset); f.read(). */
  function Suffix(file: seq<Byte>, offset: nat): seq<Byte> {
    if offset <= |file| then file[offset..] else []
  }

  function OnPoll(s: Stream, p: Poll): Stream {
    if !s.open then s
    else
      match p
      case Failed => s.(events := s.events + [Error])
      case Missing => s.(events := s.events + [Orphaned], open := false)
      case Read(file, done) =>
        var chunk := Decode(Suffix(file, s.offset));
        var grown := if chunk == [] then s else Stream(s.offset + |Encode(chunk)|, s.events + [Chunk(chunk)], true);
        if done then grown.(events := grown.events + [Done], open := false) else grown
  }

  function AfterPolls(polls: seq<Poll>): Stream {
    if polls == [] then BEGIN else OnPoll(AfterPolls(Init(polls)), Last(polls))
  }

  /** The client's loop, against whatever its polls meet. */
  method StreamOutput(polls: seq<Poll>) returns (offset: nat, events: seq<Event>, open: bool)
    ensures Stream(offset, events, open) == AfterPolls(polls)
  {
    offset, events, open := 0, [], true;
    var i := 0;
    while i < |polls|
      invariant 0 <= i <= |polls|
      invariant Stream(offset, events, open) == AfterPolls(polls[..i])
    {
      assert Init(polls[..i + 1]) == polls[..i];
      if open {
        match polls[i]
        case Failed => events := events + [Error];
        case Missing =>
          events := events + [Orphaned];
          open := false;
        case Read(file, done) =>
          var chunk := Decode(Suffix(file, offset));
          if chunk != [] {
            offset := offset + |Encode(chunk)|;
            events := events + [Chunk(chunk)];
          }
          if done {
            events := events + [Done];
            open := false;
          }
      }
      i := i + 1;
    }
    assert polls[..i] == polls;
  }

  ghost predicate Closing(p: Poll) { p.Missing? || (p.Read? && p.done) }

  /** What the client is told besides text, up to the first poll that ends the stream. */
  function ToldBy(polls: seq<Poll>): seq<Event> {
    if polls == [] then []
    else
      match polls[0]
      case Failed => [Error] + ToldBy(polls[1..])
      case Missing => [Orphaned]
      case Read(_, done) => if done then [Done] else ToldBy(polls[1..])
  }

  function NoText(e: Event): bool { !e.Chunk? }

  lemma {:induction false} ToldSnoc(polls: seq<Poll>, p: Poll)
    ensures ToldBy(polls + [p])
         == if exists q :: q in polls && Closing(q) then ToldBy(polls) else ToldBy(polls) + ToldBy([p])
  {
    if polls == [] {
      assert polls + [p] == [p] && ToldBy([p]) == [] + ToldBy([p]);
    } else {
      assert (polls + [p])[1..] == polls[1..] + [p] && polls[0] in polls;
      ToldSnoc(polls[1..], p);
      assert forall q :: q in polls <==> q == polls[0] || q in polls[1..];
      if polls[0].Failed? {
        assert ([Error] + ToldBy(polls[1..])) + ToldBy([p]) == [Error] + (ToldBy(polls[1..]) + ToldBy([p]));
      }
    }
  }

  lemma EventKept(events: seq<Event>, e: Event)
    ensures Filter(events + [e], NoText) == Filter(events, NoText) + if e.Chunk? then [] else [e]
  {
    assert Init(events + [e]) == events;
  }

  /** An error for every failed poll, until the first poll that finds the job gone or done: the stream says so once,
      as its last event, and stays closed. */
  lemma {:induction false} EventsTold(polls: seq<Poll>)
    ensures var s := AfterPolls(polls);
      && Filter(s.events, NoText) == ToldBy(polls)
      && (s.open <==> forall p :: p in polls ==> !Closing(p))
      && (!s.open ==> s.events != [] && (Last(s.events) == Done || Last(s.events) == Orphaned))
  {
    if polls != [] {
      var s, p := AfterPolls(Init(polls)), Last(polls);
      EventsTold(Init(polls));
      ToldSnoc(Init(polls), p);
      assert polls == Init(polls) + [p] && forall q :: q in polls <==> q in Init(polls) || q == p;
      if s.open {
        PollTold(s, p);
      }
    }
  }

  lemma PollTold(s: Stream, p: Poll)
    requires s.open
    ensures var t := OnPoll(s, p);
      && Filter(t.events, NoText) == Filter(s.events, NoText) + ToldBy([p])
      && (t.open <==> !Closing(p))
      && (!t.open ==> t.events != [] && (Last(t.events) == Done || Last(t.events) == Orphaned))
  {
    assert [p][1..] == [] && ToldBy([]) == [];
    match p
    case Failed => EventKept(s.events, Error);
    case Missing => EventKept(s.events, Orphaned);
    case Read(file, done) =>
      var chunk := Decode(Suffix(file, s.offset));
      var grown := if chunk == [] then s.events else s.events + [Chunk(chunk)];
      EventKept(s.events, Chunk(chunk));
      EventKept(grown, Done);
  }

  /** All text yielded so far. */
  function Text(events: seq<Event>): seq<Scalar> {
    if events == [] then []
    else if Last(events).Chunk? then Text(Init(events)) + Last(events).text
    else Text(Init(events))
  }

  /** The file as the latest poll that was carried out read it. */
  function LastRead(polls: seq<Poll>): seq<Byte> {
    if polls == [] then []
    else if Last(polls).Read? && AfterPolls(Init(polls)).open then Last(polls).file
    else LastRead(Init(polls))
  }

  /** The file only grows. */
  ghost predicate AppendOnly(polls: seq<Poll>) {
    polls == [] ||
    (AppendOnly(Init(polls)) && (Last(polls).Read? ==> LastRead(Init(polls)) <= Last(polls).file))
  }

  /** Every suffix that was polled is well-formed UTF-8. */
  ghost predicate Clean(polls: seq<Poll>) {
    polls == [] ||
    (Clean(Init(polls)) && (Last(polls).Read? && AfterPolls(Init(polls)).open ==>
       WellFormed(Suffix(Last(polls).file, AfterPolls(Init(polls)).offset))))
  }

  /** After every poll the text yielded encodes exactly the file as it was read. */
  ghost predicate ExactSoFar(polls: seq<Poll>) {
    && (polls == [] || ExactSoFar(Init(polls)))
    && Encode(Text(AfterPolls(polls).events)) == LastRead(polls)
    && AfterPolls(polls).offset == |LastRead(polls)|
  }

  lemma TextStep(events: seq<Event>, e: Event)
    ensures Text(events + [e]) == if e.Chunk? then Text(events) + e.text else Text(events)
  {
    assert Init(events + [e]) == events;
  }

  lemma PollText(s: Stream, p: Poll)
    requires s.open
    ensures Text(OnPoll(s, p).events)
         == Text(s.events) + (if p.Read? then Decode(Suffix(p.file, s.offset)) else [])
    ensures OnPoll(s, p).offset == s.offset + (if p.Read? then |Encode(Decode(Suffix(p.file, s.offset)))| else 0)
  {
    match p
    case Failed => TextStep(s.events, Error);
    case Missing => TextStep(s.events, Orphaned);
    case Read(file, done) =>
      var chunk := Decode(Suffix(file, s.offset));
      var grown := if chunk == [] then s.events else s.events + [Chunk(chunk)];
      TextStep(s.events, Chunk(chunk));
      TextStep(grown, Done);
  }

  lemma {:induction false} ExactExactlyWhenClean(polls: seq<Poll>)
    requires AppendOnly(polls)
    ensures ExactSoFar(polls) <==> Clean(polls)
  {
    if polls != [] {
      var front, p := Init(polls), Last(polls);
      ExactExactlyWhenClean(front);
      var s := AfterPolls(front);
      if ExactSoFar(front) && s.open {
        PollText(s, p);
        if p.Read? {
          ReadExact(Text(s.events), LastRead(front), p.file);
        }
      }
    }
  }

  lemma ReadExact(text: seq<Scalar>, before: seq<Byte>, file: seq<Byte>)
    requires Encode(text) == before && before <= file
    ensures var raw := Suffix(file, |before|);
      && (Encode(text + Decode(raw)) == file <==> WellFormed(raw))
      && (WellFormed(raw) ==> |before| + |Encode(Decode(raw))| == |file|)
  {
    var raw := Suffix(file, |before|);
    EncodeAppend(text, Decode(raw));
    DecodeFaithful(raw);
    assert file == before + raw;
    if Encode(text + Decode(raw)) == file {
      assert (before + Encode(Decode(raw)))[|before|..] == Encode(Decode(raw));
    }
  }

  /** Exactly once: when no poll cuts a character, the chunks so far are the decoding of the first offset bytes of
      the file, with no gap and no repeat. */
  lemma ExactlyOnce(polls: seq<Poll>, whole: seq<Byte>)
    requires AppendOnly(polls) && Clean(polls) && LastRead(polls) <= whole
    ensures var s := AfterPolls(polls);
      && s.offset <= |whole|
      && Text(s.events) == Decode(whole[..s.offset])
      && (Text(s.events) == Decode(whole) <==> LastRead(polls) == whole)
  {
    ExactExactlyWhenClean(polls);
    var s := AfterPolls(polls);
    assert whole[..s.offset] == LastRead(polls);
    EncodedIsWellFormed(Text(s.events));
    if Text(s.events) == Decode(whole) {
      CleanPrefixSameText(LastRead(polls), whole);
    }
  }

  /** A well-formed prefix that decodes to the same text is the whole. */
  lemma {:induction false} CleanPrefixSameText(a: seq<Byte>, b: seq<Byte>)
    requires WellFormed(a) && a <= b && Decode(a) == Decode(b)
    ensures a == b
  {
    if a == [] {
      DecodeEmpty(b);
    } else {
      var step := DecodeOne(a);
      EncodedOfStep(a);
      assert a == EncodeOne(step.c) + a[step.taken..];
      assert b == EncodeOne(step.c) + b[step.taken..];
      StepOfEncoded(step.c, a[step.taken..]);
      StepOfEncoded(step.c, b[step.taken..]);
      assert Decode(a)[1..] == Decode(a[step.taken..]) && Decode(b)[1..] == Decode(b[step.taken..]);
      CleanPrefixSameText(a[step.taken..], b[step.taken..]);
    }
  }

  lemma OneRead(file: seq<Byte>, done: bool)
    ensures var polls := [Read(file, done)];
      && AppendOnly(polls) && (Clean(polls) <==> WellFormed(file))
      && AfterPolls(polls) == OnPoll(BEGIN, Read(file, done))
      && Text(AfterPolls(polls).events) == Decode(file) && (AfterPolls(polls).open <==> !done)
  {
    var polls := [Read(file, done)];
    assert Init(polls) == [] && Last(polls) == Read(file, done);
    assert LastRead([]) == [] && AfterPolls([]) == BEGIN && AppendOnly([]) && Clean([]);
    assert Suffix(file, 0) == file;
    PollText(BEGIN, Read(file, done));
  }

  lemma {:induction false} Closed(polls: seq<Poll>, more: seq<Poll>)
    requires !AfterPolls(polls).open
    ensures AfterPolls(polls + more) == AfterPolls(polls)
  {
    if more == [] {
      assert polls + more == polls;
    } else {
      assert Init(polls + more) == polls + Init(more) && Last(polls + more) == Last(more);
      Closed(polls, Init(more));
    }
  }

  /** Because the server reads the file before it tests whether the process has ended, any schedule whose "done" poll
      read less than the whole output ends for good without the tail. */
  lemma TailCanBeLost(polls: seq<Poll>, whole: seq<Byte>, more: seq<Poll>)
    requires polls != [] && AppendOnly(polls) && Clean(polls)
    requires AfterPolls(Init(polls)).open && Last(polls).Read? && Last(polls).done
    requires Last(polls).file <= whole && Last(polls).file != whole
    ensures !AfterPolls(polls).open && AfterPolls(polls + more) == AfterPolls(polls)
    ensures Text(AfterPolls(polls).events) == Decode(Last(polls).file) != Decode(whole)
  {
    ExactlyOnce(polls, whole);
    ExactExactlyWhenClean(polls);
    assert LastRead(polls) == Last(polls).file;
    assert whole[..AfterPolls(polls).offset] == Last(polls).file;
    Closed(polls, more);
  }

  /** Such a schedule exists wherever the output can be cut between two characters. */
  lemma OnePollLosesTail(whole: seq<Byte>, seen: nat)
    requires seen < |whole| && WellFormed(whole[..seen])
    ensures var polls := [Read(whole[..seen], true)];
      AppendOnly(polls) && Clean(polls) && Text(AfterPolls(polls).events) != Decode(whole)
  {
    var polls := [Read(whole[..seen], true)];
    OneRead(whole[..seen], true);
    assert Init(polls) == [];
    TailCanBeLost(polls, whole, []);
  }

  /** A poll that cuts a two-byte character yields a replacement, counts three bytes for the one it read, and so
      never delivers the character. */
  lemma CutCharacterIsLost()
    ensures var polls := [Read([0xC3], false), Read([0xC3, 0xA9, 0x41], true)];
      && AppendOnly(polls) && !Clean(polls)
      && Text(AfterPolls(polls).events) == [REPLACEMENT]
      && Decode([0xC3, 0xA9, 0x41]) == [0xE9, 0x41]
  {
    var first, second := Read([0xC3], false), Read([0xC3, 0xA9, 0x41], true);
    var polls := [first, second];
    assert Init(polls) == [first] && Last(polls) == second;
    OneRead([0xC3], false);
    CutFacts();
    assert AfterPolls([first]).offset == 3 by {
      assert Suffix([0xC3], 0) == [0xC3];
      PollText(BEGIN, first);
    }
    PollText(AfterPolls([first]), second);
    assert Suffix(second.file, 3) == [];
    assert LastRead([first]) == [0xC3] <= second.file;
  }

  lemma CutFacts()
    ensures !WellFormed([0xC3]) && Decode([0xC3]) == [REPLACEMENT] && |Encode([REPLACEMENT])| == 3
    ensures Decode([0xC3, 0xA9, 0x41]) == [0xE9, 0x41]
  {
    assert DecodeOne([0xC3]) == Bad(1) && Decode([0xC3][1..]) == [];
    assert Encode([REPLACEMENT][1..]) == [];
    assert [0xC3, 0xA9, 0x41][2..] == [0x41] && [0x41][1..] == [];
    assert Decode([0x41]) == [0x41];
    assert DecodeOne([0xC3, 0xA9, 0x41]) == Step(true, 0xE9, 2);
  }
}
