/** Where a line of a file ends up after a staged change, computed from the zero-context diff, and the check of
    suppression entries built on it. */
module DiffShift {
  import opened Prelude
  import opened Text
  import opened Slug

  type Line = string

  /** One hunk of `git diff -U0` with the lines it brings in. */
  datatype Hunk = Hunk(oldStart: nat, oldCount: nat, added: seq<Line>)

  /** The first old line (counted from 1) at or after the change: git names the line before a pure insertion. */
  function Cut(h: Hunk): nat { if h.oldCount == 0 then h.oldStart + 1 else h.oldStart }

  /** The hunks follow each other without overlap, from line p on, within a file of n lines. */
  ghost predicate Ordered(hunks: seq<Hunk>, p: nat, n: nat) {
    hunks == [] ||
    (p <= Cut(hunks[0]) && Cut(hunks[0]) + hunks[0].oldCount <= n + 1
     && Ordered(hunks[1..], Cut(hunks[0]) + hunks[0].oldCount, n))
  }

  /** The patched file from old line p on. */
  function Patch(old_: seq<Line>, p: nat, hunks: seq<Hunk>): seq<Line>
    requires 1 <= p <= |old_| + 1 && Ordered(hunks, p, |old_|)
    decreases |hunks|
  {
    if hunks == [] then old_[p - 1..]
    else
      var h := hunks[0];
      old_[p - 1..Cut(h) - 1] + h.added + Patch(old_, Cut(h) + h.oldCount, hunks[1..])
  }

  /** A hunk replaces its old lines, or inserts behind the line it names. */
  lemma OneHunk(old_: seq<Line>, h: Hunk)
    requires Ordered([h], 1, |old_|)
    ensures Patch(old_, 1, [h])
         == if h.oldCount == 0 then old_[..h.oldStart] + h.added + old_[h.oldStart..]
            else old_[..h.oldStart - 1] + h.added + old_[h.oldStart - 1 + h.oldCount..]
  {
    var end := Cut(h) + h.oldCount;
    assert [h][1..] == [] && Patch(old_, end, []) == old_[end - 1..];
    assert Patch(old_, 1, [h]) == old_[0..Cut(h) - 1] + h.added + Patch(old_, end, []);
    assert old_[0..Cut(h) - 1] == old_[..Cut(h) - 1];
  }

  ghost predicate Replaced(hunks: seq<Hunk>, line: nat) {
    exists h :: h in hunks && Cut(h) <= line < Cut(h) + h.oldCount
  }

  /** What a hunk's header says. */
  datatype Counts = Counts(oldStart: nat, oldCount: nat, newCount: nat)

  function CountsOf(h: Hunk): Counts { Counts(h.oldStart, h.oldCount, |h.added|) }

  function HeaderShift(counts: Counts, target: int): int {
    if counts.oldStart < target then counts.newCount - counts.oldCount else 0
  }

  function ShiftBy(h: Hunk, target: int): int { HeaderShift(CountsOf(h), target) }

  function Shift(hunks: seq<Hunk>, target: int): int {
    if hunks == [] then 0 else Shift(Init(hunks), target) + ShiftBy(Last(hunks), target)
  }

  lemma {:induction false} ShiftCons(h: Hunk, rest: seq<Hunk>, target: int)
    ensures Shift([h] + rest, target) == ShiftBy(h, target) + Shift(rest, target)
  {
    if rest == [] {
      assert [h] + rest == [h] && Init([h]) == [];
    } else {
      assert Init([h] + rest) == [h] + Init(rest) && Last([h] + rest) == Last(rest);
      ShiftCons(h, Init(rest), target);
    }
  }

  lemma {:induction false} NothingBefore(hunks: seq<Hunk>, p: nat, n: nat, line: nat)
    requires Ordered(hunks, p, n) && line < p
    ensures Shift(hunks, line) == 0
  {
    if hunks != [] {
      NothingBefore(hunks[1..], Cut(hunks[0]) + hunks[0].oldCount, n, line);
      assert hunks == [hunks[0]] + hunks[1..];
      ShiftCons(hunks[0], hunks[1..], line);
    }
  }

  lemma KeptBeforeFirst(old_: seq<Line>, p: nat, hunks: seq<Hunk>, line: nat)
    requires 1 <= p <= line <= |old_| && Ordered(hunks, p, |old_|) && hunks != [] && line < Cut(hunks[0])
    ensures Shift(hunks, line) == 0 && line - p < |Patch(old_, p, hunks)|
    ensures Patch(old_, p, hunks)[line - p] == old_[line - 1]
  {
    var h, rest := hunks[0], hunks[1..];
    assert hunks == [h] + rest;
    ShiftCons(h, rest, line);
    NothingBefore(rest, Cut(h) + h.oldCount, |old_|, line);
  }

  /** The line stands in the patched rest of the file where the shift says. */
  ghost predicate Kept(old_: seq<Line>, p: nat, hunks: seq<Hunk>, line: nat)
    requires 1 <= p <= |old_| + 1 && Ordered(hunks, p, |old_|) && 1 <= line <= |old_|
  {
    var i := line - p + Shift(hunks, line);
    0 <= i < |Patch(old_, p, hunks)| && Patch(old_, p, hunks)[i] == old_[line - 1]
  }

  lemma KeptLater(old_: seq<Line>, p: nat, hunks: seq<Hunk>, line: nat)
    requires 1 <= p <= line <= |old_| && Ordered(hunks, p, |old_|) && hunks != []
    requires Cut(hunks[0]) + hunks[0].oldCount <= line
    requires Kept(old_, Cut(hunks[0]) + hunks[0].oldCount, hunks[1..], line)
    ensures Kept(old_, p, hunks, line)
  {
    var h, rest := hunks[0], hunks[1..];
    assert hunks == [h] + rest;
    ShiftCons(h, rest, line);
  }

  lemma {:induction false} PatchKeepsLine(old_: seq<Line>, p: nat, hunks: seq<Hunk>, line: nat)
    requires 1 <= p <= line <= |old_| && Ordered(hunks, p, |old_|) && !Replaced(hunks, line)
    ensures Kept(old_, p, hunks, line)
    decreases |hunks|
  {
    if hunks == [] {
    } else if line < Cut(hunks[0]) {
      KeptBeforeFirst(old_, p, hunks, line);
    } else {
      PatchKeepsLine(old_, Cut(hunks[0]) + hunks[0].oldCount, hunks[1..], line);
      KeptLater(old_, p, hunks, line);
    }
  }

  /** Every old line that no hunk replaces is found, unchanged, at its old number plus the shift: insertions,
      deletions, replacements and insertions before the first line alike. */
  lemma ShiftIsRight(old_: seq<Line>, hunks: seq<Hunk>, line: nat)
    requires Ordered(hunks, 1, |old_|) && 1 <= line <= |old_| && !Replaced(hunks, line)
    ensures 1 <= line + Shift(hunks, line) <= |Patch(old_, 1, hunks)|
    ensures Patch(old_, 1, hunks)[line + Shift(hunks, line) - 1] == old_[line - 1]
  {
    PatchKeepsLine(old_, 1, hunks, line);
  }

  // ----- Reading the diff's text -----

  /** start[,count], the count left out when it is 1. */
  function Range(start: nat, count: nat): string {
    if count == 1 then Decimal(start) else Decimal(start) + "," + Decimal(count)
  }

  function Header(h: Hunk, newStart: nat, context: string): Line {
    "@@ -" + Range(h.oldStart, h.oldCount) + " +" + Range(newStart, |h.added|) + " @@" + context
  }

  predicate IsHeader(line: Line) { "@@" <= line }

  predicate IsNumeral(s: string) { s != [] && forall c :: c in s ==> IsDigit(c) }

  /** The count after the first comma, 1 without a comma; None where int() would raise. */
  function CountOf(range: string): Option<nat> {
    var parts := Split(range, ',');
    if |parts| == 1 then Some(1) else if IsNumeral(parts[1]) then Some(ParseDecimal(parts[1])) else None
  }

  function StartOf(range: string): Option<nat> {
    var parts := Split(range, ',');
    if IsNumeral(parts[0]) then Some(ParseDecimal(parts[0])) else None
  }

  function ParseHeader(line: Line): Option<Counts> {
    var parts := Split(line, ' ');
    if |parts| < 3 || parts[1] == [] then None
    else
      var start, oldCount, newCount := StartOf(parts[1][1..]), CountOf(parts[1]), CountOf(parts[2]);
      if start.None? || oldCount.None? || newCount.None? then None
      else Some(Counts(start.value, oldCount.value, newCount.value))
  }

  lemma SplitRange(prefix: string, start: nat, count: nat)
    requires ',' !in prefix
    ensures Split(prefix + Range(start, count), ',')
         == if count == 1 then [prefix + Decimal(start)] else [prefix + Decimal(start), Decimal(count)]
  {
    if count == 1 {
      SplitNone(prefix + Decimal(start), ',');
    } else {
      SplitPair(prefix + Decimal(start), Decimal(count), ',');
      Regroup(prefix, Decimal(start), Decimal(count));
    }
  }

  lemma Regroup(a: string, b: string, c: string)
    ensures a + (b + "," + c) == a + b + [','] + c
  {
  }

  lemma SplitPair(first: string, second: string, sep: char)
    requires sep !in first && sep !in second
    ensures Split(first + [sep] + second, sep) == [first, second]
  {
    SplitAt(first, second, sep);
    SplitNone(second, sep);
  }

  lemma StartRead(start: nat, count: nat)
    ensures StartOf(Range(start, count)) == Some(start)
  {
    SplitRange([], start, count);
    assert [] + Range(start, count) == Range(start, count) && [] + Decimal(start) == Decimal(start);
    DecimalRoundTrip(start);
  }

  lemma RangeRead(sign: char, start: nat, count: nat)
    requires sign == '-' || sign == '+'
    ensures CountOf([sign] + Range(start, count)) == Some(count)
    ensures ([sign] + Range(start, count))[1..] == Range(start, count)
    ensures StartOf(Range(start, count)) == Some(start)
  {
    SplitRange([sign], start, count);
    DecimalRoundTrip(count);
    StartRead(start, count);
  }

  lemma SplitHeader(a: string, b: string, c: string, tail: string)
    requires ' ' !in a && ' ' !in b && ' ' !in c
    ensures Split(a + [' '] + (b + [' '] + (c + [' '] + tail)), ' ') == [a] + ([b] + ([c] + Split(tail, ' ')))
  {
    SplitAt(a, b + [' '] + (c + [' '] + tail), ' ');
    SplitAt(b, c + [' '] + tail, ' ');
    SplitAt(c, tail, ' ');
  }

  lemma HeaderParts(h: Hunk, newStart: nat, context: string)
    ensures IsHeader(Header(h, newStart, context))
    ensures var parts := Split(Header(h, newStart, context), ' ');
      && |parts| >= 3
      && parts[1] == ['-'] + Range(h.oldStart, h.oldCount)
      && parts[2] == ['+'] + Range(newStart, |h.added|)
  {
    SplitHeader("@@", ['-'] + Range(h.oldStart, h.oldCount), ['+'] + Range(newStart, |h.added|), "@@" + context);
    HeaderShape(h, newStart, context);
  }

  /** Git's hunk header is read back, whatever follows it on the line. */
  lemma HeaderRead(h: Hunk, newStart: nat, context: string)
    ensures IsHeader(Header(h, newStart, context))
    ensures ParseHeader(Header(h, newStart, context)) == Some(CountsOf(h))
  {
    HeaderParts(h, newStart, context);
    RangeRead('-', h.oldStart, h.oldCount);
    RangeRead('+', newStart, |h.added|);
  }

  lemma HeaderShape(h: Hunk, newStart: nat, context: string)
    ensures IsHeader(Header(h, newStart, context))
    ensures Header(h, newStart, context)
         == "@@" + [' '] + ((['-'] + Range(h.oldStart, h.oldCount)) + [' ']
            + ((['+'] + Range(newStart, |h.added|)) + [' '] + ("@@" + context)))
  {
  }

  /** The headers among the lines of a diff, read; None if one cannot be read. */
  function ReadHunks(lines: seq<Line>): Option<seq<Counts>> {
    if lines == [] then Some([])
    else
      var front := ReadHunks(Init(lines));
      if !IsHeader(Last(lines)) then front
      else
        var counts := ParseHeader(Last(lines));
        if front.None? || counts.None? then None else Some(front.value + [counts.value])
  }

  function CountsShift(counts: seq<Counts>, target: int): int {
    if counts == [] then 0
    else
      CountsShift(Init(counts), target) + HeaderShift(Last(counts), target)
  }

  ghost predicate Marked(line: Line) { |line| >= 2 && line[0] == '@' && line[1] == '@' }

  /** Reading fails exactly on a line that begins with "@@" and is no header. */
  lemma {:induction false} ReadFails(lines: seq<Line>)
    ensures ReadHunks(lines).None? <==> exists line :: line in lines && Marked(line) && ParseHeader(line).None?
  {
    if lines != [] {
      ReadFails(Init(lines));
      assert forall x :: x in lines <==> x in Init(lines) || x == Last(lines);
      assert IsHeader(Last(lines)) <==> Marked(Last(lines));
    }
  }

  lemma ReadStep(lines: seq<Line>, i: nat, target: int)
    requires i < |lines| && ReadHunks(lines[..i]).Some?
    ensures var before, after := ReadHunks(lines[..i]).value, ReadHunks(lines[..i + 1]);
      if !IsHeader(lines[i]) then after == Some(before)
      else if ParseHeader(lines[i]).None? then after.None?
      else after.Some? && CountsShift(after.value, target)
                          == CountsShift(before, target) + HeaderShift(ParseHeader(lines[i]).value, target)
  {
    assert Init(lines[..i + 1]) == lines[..i];
    var before, counts := ReadHunks(lines[..i]).value, ParseHeader(lines[i]);
    assert counts.Some? ==> Init(before + [counts.value]) == before;
  }

  method LinesAddedBefore(lines: seq<Line>, target: int) returns (delta: Option<int>)
    ensures delta == if ReadHunks(lines).None? then None else Some(CountsShift(ReadHunks(lines).value, target))
  {
    var sum := 0;
    var i := 0;
    while i < |lines|
      invariant 0 <= i <= |lines| && ReadHunks(lines[..i]).Some?
      invariant sum == CountsShift(ReadHunks(lines[..i]).value, target)
    {
      ReadStep(lines, i, target);
      var line := lines[i];
      if IsHeader(line) {
        var counts := ParseHeader(line);
        if counts.None? {
          NoneStays(lines, i + 1);
          return None;
        }
        if counts.value.oldStart < target {
          sum := sum + counts.value.newCount - counts.value.oldCount;
        }
      }
      i := i + 1;
    }
    assert lines[..i] == lines;
    delta := Some(sum);
  }

  lemma {:induction false} NoneStays(lines: seq<Line>, i: nat)
    requires i <= |lines| && ReadHunks(lines[..i]).None?
    ensures ReadHunks(lines).None?
  {
    if i == |lines| {
      assert lines[..i] == lines;
    } else {
      assert Init(lines)[..i] == lines[..i];
      NoneStays(Init(lines), i);
    }
  }

  /** The text of a diff: lines before the first hunk, then each hunk's header and body. */
  datatype Section = Section(hunk: Hunk, newStart: nat, context: string, body: seq<Line>)

  function SectionCounts(s: Section): Counts { CountsOf(s.hunk) }

  function SectionHunk(s: Section): Hunk { s.hunk }

  function Render(preamble: seq<Line>, sections: seq<Section>): seq<Line> {
    if sections == [] then preamble
    else
      var last := Last(sections);
      Render(preamble, Init(sections)) + [Header(last.hunk, last.newStart, last.context)] + last.body
  }

  /** Body lines start with a sign and the preamble with a word, so none looks like a hunk header. */
  ghost predicate NoHeaders(lines: seq<Line>) {
    forall i :: 0 <= i < |lines| ==> !Marked(lines[i])
  }

  lemma {:induction false} BodySkipped(lines: seq<Line>, body: seq<Line>)
    requires NoHeaders(body)
    ensures ReadHunks(lines + body) == ReadHunks(lines)
  {
    if body == [] {
      assert lines + body == lines;
    } else {
      assert Init(lines + body) == lines + Init(body) && Last(lines + body) == Last(body);
      BodySkipped(lines, Init(body));
    }
  }

  lemma {:induction false} RenderedRead(preamble: seq<Line>, sections: seq<Section>)
    requires NoHeaders(preamble) && forall i :: 0 <= i < |sections| ==> NoHeaders(sections[i].body)
    ensures ReadHunks(Render(preamble, sections)) == Some(Map(sections, SectionCounts))
  {
    if sections == [] {
      BodySkipped([], preamble);
      assert [] + preamble == preamble;
      assert Map(sections, SectionCounts) == [];
    } else {
      var front, last := Init(sections), Last(sections);
      assert NoHeaders(sections[|sections| - 1].body);
      RenderedRead(preamble, front);
      var counts, before := Map(front, SectionCounts), Render(preamble, front);
      ReadSection(before, counts, last);
      assert Render(preamble, sections) == before + [Header(last.hunk, last.newStart, last.context)] + last.body;
      MapSnoc(sections);
    }
  }

  lemma MapSnoc(sections: seq<Section>)
    requires sections != []
    ensures Map(sections, SectionCounts) == Map(Init(sections), SectionCounts) + [SectionCounts(Last(sections))]
  {
  }

  lemma ReadSection(before: seq<Line>, counts: seq<Counts>, s: Section)
    requires ReadHunks(before) == Some(counts) && NoHeaders(s.body)
    ensures ReadHunks(before + [Header(s.hunk, s.newStart, s.context)] + s.body) == Some(counts + [SectionCounts(s)])
  {
    var header := Header(s.hunk, s.newStart, s.context);
    HeaderRead(s.hunk, s.newStart, s.context);
    BodySkipped(before + [header], s.body);
  }

  lemma {:induction false} RenderedSum(sections: seq<Section>, target: int)
    ensures CountsShift(Map(sections, SectionCounts), target) == Shift(Map(sections, SectionHunk), target)
  {
    if sections != [] {
      RenderedSum(Init(sections), target);
      assert Init(Map(sections, SectionCounts)) == Map(Init(sections), SectionCounts);
      assert Init(Map(sections, SectionHunk)) == Map(Init(sections), SectionHunk);
    }
  }

  /** The loop over a rendered diff computes the shift of its hunks. */
  lemma RenderedShift(preamble: seq<Line>, sections: seq<Section>, target: int)
    requires NoHeaders(preamble) && forall i :: 0 <= i < |sections| ==> NoHeaders(sections[i].body)
    ensures ReadHunks(Render(preamble, sections)).Some?
    ensures CountsShift(ReadHunks(Render(preamble, sections)).value, target) == Shift(Map(sections, SectionHunk), target)
  {
    RenderedRead(preamble, sections);
    RenderedSum(sections, target);
  }

  // ----- The check of one suppression entry -----

  datatype Entry = Entry(rule: string, file: string, line: int, reason: string)

  /** The old line of an entry: of its only counterpart, or of its only counterpart with the same reason. */
  function FindOldLine(olds: seq<Entry>, rule: string, file: string, reason: string): Option<int> {
    var candidates := Filter(olds, SameKey(rule, file));
    if |candidates| == 1 then Some(candidates[0].line)
    else if candidates == [] || reason == "" then None
    else
      var matches := Filter(candidates, SameReason(reason));
      if |matches| == 1 then Some(matches[0].line) else None
  }

  function SameKey(rule: string, file: string): Entry -> bool { (e: Entry) => e.rule == rule && e.file == file }

  function SameReason(reason: string): Entry -> bool { (e: Entry) => e.reason == reason }

  function Both(p: Entry -> bool, q: Entry -> bool): Entry -> bool { (e: Entry) => p(e) && q(e) }

  ghost predicate OnlyAt(s: seq<Entry>, p: Entry -> bool, i: nat) {
    i < |s| && p(s[i]) && forall j :: 0 <= j < |s| && j != i ==> !p(s[j])
  }

  /** The entry stands in the list, and no other place in the list has the property. */
  ghost predicate Sole(s: seq<Entry>, p: Entry -> bool, e: Entry) {
    exists i: nat :: OnlyAt(s, p, i) && s[i] == e
  }

  lemma {:induction false} FilterTwice(s: seq<Entry>, p: Entry -> bool, q: Entry -> bool)
    ensures Filter(Filter(s, p), q) == Filter(s, Both(p, q))
  {
    if s != [] {
      FilterTwice(Init(s), p, q);
      assert p(Last(s)) ==> Init(Filter(s, p)) == Filter(Init(s), p);
    }
  }

  lemma {:induction false} FilterNone(s: seq<Entry>, p: Entry -> bool)
    ensures Filter(s, p) == [] <==> forall j :: 0 <= j < |s| ==> !p(s[j])
  {
    if s != [] {
      FilterNone(Init(s), p);
      assert forall j :: 0 <= j < |Init(s)| ==> Init(s)[j] == s[j];
    }
  }

  lemma SoleLast(s: seq<Entry>, p: Entry -> bool, e: Entry)
    requires s != [] && p(Last(s))
    ensures Sole(s, p, e) <==> e == Last(s) && Filter(Init(s), p) == []
  {
    FilterNone(Init(s), p);
    var n := |s| - 1;
    assert forall j :: 0 <= j < n ==> Init(s)[j] == s[j];
    if e == Last(s) && Filter(Init(s), p) == [] {
      assert OnlyAt(s, p, n);
    }
  }

  lemma SoleEarlier(s: seq<Entry>, p: Entry -> bool, e: Entry)
    requires s != [] && !p(Last(s))
    ensures Sole(s, p, e) <==> Sole(Init(s), p, e)
  {
    var front := Init(s);
    assert forall j :: 0 <= j < |front| ==> front[j] == s[j];
    forall i: nat ensures OnlyAt(s, p, i) <==> OnlyAt(front, p, i) {
    }
  }

  lemma {:induction false} FilterOne(s: seq<Entry>, p: Entry -> bool, e: Entry)
    ensures Filter(s, p) == [e] <==> Sole(s, p, e)
  {
    if s != [] {
      if p(Last(s)) {
        SoleLast(s, p, e);
        assert Init(Filter(s, p)) == Filter(Init(s), p);
      } else {
        SoleEarlier(s, p, e);
        FilterOne(Init(s), p, e);
      }
    }
  }

  /** The only entry of the list for this rule and file. */
  ghost predicate OneFor(olds: seq<Entry>, rule: string, file: string, e: Entry) {
    exists i :: 0 <= i < |olds| && olds[i] == e && e.rule == rule && e.file == file
      && forall j :: 0 <= j < |olds| && j != i ==> olds[j].rule != rule || olds[j].file != file
  }

  /** The only one that has this reason too. */
  ghost predicate OneForReason(olds: seq<Entry>, rule: string, file: string, reason: string, e: Entry) {
    exists i :: 0 <= i < |olds| && olds[i] == e && e.rule == rule && e.file == file && e.reason == reason
      && forall j :: 0 <= j < |olds| && j != i ==> olds[j].rule != rule || olds[j].file != file || olds[j].reason != reason
  }

  lemma SoleFor(olds: seq<Entry>, rule: string, file: string, reason: string, e: Entry)
    ensures Sole(olds, SameKey(rule, file), e) <==> OneFor(olds, rule, file, e)
    ensures Sole(olds, Both(SameKey(rule, file), SameReason(reason)), e) <==> OneForReason(olds, rule, file, reason, e)
  {
    SoleKey(olds, rule, file, e);
    SoleReason(olds, rule, file, reason, e);
  }

  lemma SoleKey(olds: seq<Entry>, rule: string, file: string, e: Entry)
    ensures Sole(olds, SameKey(rule, file), e) <==> OneFor(olds, rule, file, e)
  {
    if OneFor(olds, rule, file, e) {
      var i :| 0 <= i < |olds| && olds[i] == e && e.rule == rule && e.file == file
        && (forall j :: 0 <= j < |olds| && j != i ==> olds[j].rule != rule || olds[j].file != file);
      assert OnlyAt(olds, SameKey(rule, file), i);
    }
  }

  lemma SoleReason(olds: seq<Entry>, rule: string, file: string, reason: string, e: Entry)
    ensures Sole(olds, Both(SameKey(rule, file), SameReason(reason)), e) <==> OneForReason(olds, rule, file, reason, e)
  {
    if OneForReason(olds, rule, file, reason, e) {
      var i :| 0 <= i < |olds| && olds[i] == e && e.rule == rule && e.file == file && e.reason == reason
        && (forall j :: 0 <= j < |olds| && j != i ==> olds[j].rule != rule || olds[j].file != file || olds[j].reason != reason);
      assert OnlyAt(olds, Both(SameKey(rule, file), SameReason(reason)), i);
    }
  }

  /** The pairing is used exactly when it is unambiguous: with the one entry for the rule and file, or with the one
      among several that also has the same reason. */
  lemma OldLineIsUnambiguous(olds: seq<Entry>, rule: string, file: string, reason: string, e: Entry)
    ensures var f := FindOldLine(olds, rule, file, reason);
      && (OneFor(olds, rule, file, e) || (reason != "" && OneForReason(olds, rule, file, reason, e)) ==> f == Some(e.line))
      && (f.Some? ==> exists x: Entry :: f == Some(x.line)
                        && (OneFor(olds, rule, file, x) || (reason != "" && OneForReason(olds, rule, file, reason, x))))
  {
    SoleFor(olds, rule, file, reason, e);
    var known, same := SameKey(rule, file), SameReason(reason);
    var candidates := Filter(olds, known);
    var matches := Filter(candidates, same);
    FilterTwice(olds, known, same);
    FilterOne(olds, known, e);
    FilterOne(olds, Both(known, same), e);
    if |candidates| == 1 {
      assert candidates == [candidates[0]];
      FilterOne(olds, known, candidates[0]);
      SoleFor(olds, rule, file, reason, candidates[0]);
    } else if |matches| == 1 {
      assert matches == [matches[0]];
      FilterOne(olds, Both(known, same), matches[0]);
      SoleFor(olds, rule, file, reason, matches[0]);
    }
  }

  datatype Verdict = Fine | PastEnd | Blank | Moved(expected: int) | Crash

  /** Python's lines[i]: negative indices count from the end. */
  function At(lines: seq<Line>, i: int): Option<Line> {
    if 0 <= i < |lines| then Some(lines[i])
    else if -|lines| <= i < 0 then Some(lines[|lines| + i])
    else None
  }

  function CheckEntry(lines: seq<Line>, current: int, oldLine: Option<int>, shift: int): Verdict {
    var expected := if oldLine.Some? then oldLine.value + shift else current;
    if current > |lines| then PastEnd
    else
      var text := At(lines, current - 1);
      if text.None? then Crash
      else if Strip(text.value, IsSpace) == "" then Blank
      else if current != expected then Moved(expected)
      else Fine
  }

  /** Every verdict: an entry beyond the end, one so far in front that Python's index fails (a line number of 0 or less
      counts from the end), one at a blank line, one that is not where its old line went, or a good one. */
  lemma CheckVerdicts(lines: seq<Line>, current: int, oldLine: Option<int>, shift: int)
    ensures var v := CheckEntry(lines, current, oldLine, shift);
      && (v == PastEnd <==> current > |lines|)
      && (v == Crash <==> current <= -|lines|)
      && (-|lines| < current <= |lines| ==>
            var text := if current >= 1 then lines[current - 1] else lines[|lines| + current - 1];
            var there := oldLine.None? || current == oldLine.value + shift;
            if forall c :: c in text ==> IsSpace(c) then v == Blank
            else if there then v == Fine
            else v == Moved(oldLine.value + shift))
  {
    if -|lines| < current <= |lines| {
      StripsToNothing(if current >= 1 then lines[current - 1] else lines[|lines| + current - 1], IsSpace);
    }
  }

  /** For an entry whose old line survives the change and is not blank, the check passes exactly when the entry
      points at where that line is now. */
  lemma CheckIsExact(old_: seq<Line>, hunks: seq<Hunk>, oldLine: nat, current: int)
    requires Ordered(hunks, 1, |old_|) && 1 <= oldLine <= |old_| && !Replaced(hunks, oldLine)
    requires Strip(old_[oldLine - 1], IsSpace) != ""
    ensures var patched := Patch(old_, 1, hunks);
      var shift := Shift(hunks, oldLine);
      && (CheckEntry(patched, current, Some(oldLine), shift) == Fine <==> current == oldLine + shift)
      && 1 <= oldLine + shift <= |patched| && patched[oldLine + shift - 1] == old_[oldLine - 1]
  {
    ShiftIsRight(old_, hunks, oldLine);
  }
}
