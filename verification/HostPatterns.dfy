/** What a host pattern selects, in the terms of the names written in it. */
module HostPatterns {
  import opened Prelude
  import opened Text
  import opened Slug
  import opened HostMatching

  // ----- Stripping -----

  /** What str.strip() takes off: the blank, tab, newline, vertical tab, form feed, carriage return and the four
      separators. */
  ghost predicate IsBlank(c: char) {
    c in [' ', '\t', '\n', '\U{0B}', '\U{0C}', '\r', '\U{1C}', '\U{1D}', '\U{1E}', '\U{1F}']
  }

  lemma SpacesAreBlanks(c: char)
    ensures IsSpace(c) <==> IsBlank(c)
  {
  }

  ghost predicate Blank(s: string) { forall c :: c in s ==> IsBlank(c) }

  /** No space at either end. */
  ghost predicate Trimmed(s: string) { s == "" || (!IsBlank(s[0]) && !IsBlank(s[|s| - 1])) }

  lemma TrimPadded(before: string, name: string, after: string)
    requires Blank(before) && Blank(after) && Trimmed(name)
    ensures Trim(before + name + after) == name
  {
    forall c ensures IsSpace(c) <==> IsBlank(c) {
      SpacesAreBlanks(c);
    }
    StripPadded(before, name, after, IsSpace);
  }

  /** Trimming takes blanks off the two ends. */
  lemma TrimEnds(s: string) returns (before: string, after: string)
    ensures s == before + Trim(s) + after && Blank(before) && Blank(after) && Trimmed(Trim(s))
  {
    forall c ensures IsSpace(c) <==> IsBlank(c) {
      SpacesAreBlanks(c);
    }
    before, after := StripEnds(s, IsSpace);
  }

  // ----- The names of a pattern -----

  /** A name with the blanks around it. */
  datatype Piece = Piece(before: string, name: string, after: string)

  function TextOf(p: Piece): string { p.before + p.name + p.after }

  /** The pieces, each but the first preceded by its separator. */
  function Written(first: Piece, more: seq<(char, Piece)>): string {
    if more == [] then TextOf(first)
    else Written(first, Init(more)) + [Last(more).0] + TextOf(Last(more).1)
  }

  /** The names written, in order; two separators may stand next to each other. */
  function NamesIn(first: Piece, more: seq<(char, Piece)>): seq<string> {
    if more == [] then if first.name == "" then [] else [first.name]
    else NamesIn(first, Init(more)) + if Last(more).1.name == "" then [] else [Last(more).1.name]
  }

  ghost predicate Clean(p: Piece) {
    Blank(p.before) && Blank(p.after) && Trimmed(p.name) && ',' !in p.name && ':' !in p.name
  }

  ghost predicate WellWritten(first: Piece, more: seq<(char, Piece)>) {
    Clean(first) && forall m :: m in more ==> m.0 in ",:" && Clean(m.1)
  }

  lemma ColonsGone(p: Piece)
    requires Clean(p)
    ensures Map(TextOf(p), Colon) == TextOf(p) && ':' !in TextOf(p)
  {
    forall i | 0 <= i < |TextOf(p)| ensures TextOf(p)[i] != ',' && TextOf(p)[i] != ':' {
      var c := TextOf(p)[i];
      assert c in p.before || c in p.name || c in p.after;
    }
  }

  lemma MapAppend<T, U>(a: seq<T>, b: seq<T>, f: T -> U)
    ensures Map(a + b, f) == Map(a, f) + Map(b, f)
  {
  }

  lemma SplitMore(s: string, text: string)
    requires ':' !in text
    ensures Split(s + [':'] + text, ':') == Split(s, ':') + [text]
  {
    assert Init(s + [':']) == s;
    assert Split(s + [':'], ':') == Split(s, ':') + [[]];
    SplitTail(s + [':'], text, ':');
    var parts := Split(s, ':');
    assert Init(parts + [[]]) == parts && Last(parts + [[]]) + text == text;
  }

  lemma ColonsMore(s: string, sep: char, text: string)
    requires sep in ",:" && Map(text, Colon) == text
    ensures Map(s + [sep] + text, Colon) == Map(s, Colon) + [':'] + text
  {
  }

  /** One more part, behind a separator. */
  lemma PartsStep(s: string, sep: char, p: Piece)
    requires sep in ",:" && Clean(p)
    ensures Parts(s + [sep] + TextOf(p)) == Parts(s) + if p.name == "" then [] else [p.name]
  {
    var parts := Split(Map(s, Colon), ':');
    ColonsGone(p);
    ColonsMore(s, sep, TextOf(p));
    SplitMore(Map(s, Colon), TextOf(p));
    MapAppend(parts, [TextOf(p)], Trim);
    TrimPadded(p.before, p.name, p.after);
    assert Map([TextOf(p)], Trim) == [p.name];
    OneMorePart(Map(parts, Trim), p.name);
  }

  lemma OneMorePart(parts: seq<string>, name: string)
    ensures Filter(parts + [name], Filled) == Filter(parts, Filled) + if name == "" then [] else [name]
  {
    assert Init(parts + [name]) == parts;
  }

  lemma {:induction false} PartsOf(first: Piece, more: seq<(char, Piece)>)
    requires WellWritten(first, more)
    ensures Parts(Written(first, more)) == NamesIn(first, more)
  {
    if more == [] {
      ColonsGone(first);
      SplitNone(TextOf(first), ':');
      TrimPadded(first.before, first.name, first.after);
      assert Map([TextOf(first)], Trim) == [first.name];
      OneMorePart([], first.name);
      assert [] + [first.name] == [first.name];
    } else {
      assert Last(more) in more && forall m :: m in Init(more) ==> m in more;
      PartsOf(first, Init(more));
      PartsStep(Written(first, Init(more)), Last(more).0, Last(more).1);
    }
  }

  // ----- Blanks around the whole pattern -----

  lemma TrimAround(before: string, s: string, after: string)
    requires Blank(before) && Blank(after)
    ensures Trim(before + s + after) == Trim(s)
  {
    var b, a := TrimEnds(s);
    TrimPadded(before + b, Trim(s), a + after);
    assert before + s + after == before + b + Trim(s) + (a + after);
  }

  function Headed(before: string, parts: seq<string>): seq<string>
    requires parts != []
  {
    [before + parts[0]] + parts[1..]
  }

  lemma HeadedGrows(before: string, parts: seq<string>, c: char)
    requires parts != []
    ensures Headed(before, parts) + [[]] == Headed(before, parts + [[]])
    ensures var h := Headed(before, parts);
      Init(h) + [Last(h) + [c]] == Headed(before, Init(parts) + [Last(parts) + [c]])
  {
    var h, g := Headed(before, parts), Init(parts) + [Last(parts) + [c]];
    if |parts| == 1 {
      assert before + parts[0] + [c] == before + (parts[0] + [c]);
      assert Init(h) + [Last(h) + [c]] == [before + parts[0] + [c]];
      assert g == [parts[0] + [c]];
    } else {
      assert Last(h) == Last(parts) && g[0] == parts[0];
    }
  }

  lemma {:induction false} SplitHead(before: string, s: string, sep: char)
    requires sep !in before
    ensures Split(before + s, sep) == Headed(before, Split(s, sep))
  {
    if s == [] {
      assert before + s == before;
      SplitNone(before, sep);
    } else {
      assert Init(before + s) == before + Init(s) && Last(before + s) == Last(s);
      SplitHead(before, Init(s), sep);
      HeadedGrows(before, Split(Init(s), sep), Last(s));
    }
  }

  lemma ColonsAround(before: string, s: string, after: string)
    requires Blank(before) && Blank(after)
    ensures Map(before + s + after, Colon) == before + Map(s, Colon) + after && ':' !in before && ':' !in after
  {
    assert forall i :: 0 <= i < |before| ==> before[i] in before;
    assert forall i :: 0 <= i < |after| ==> after[i] in after;
  }

  lemma TrimFirst(before: string, parts: seq<string>)
    requires Blank(before) && parts != []
    ensures Map(Headed(before, parts), Trim) == Map(parts, Trim)
  {
    TrimAround(before, parts[0], "");
    assert before + parts[0] + "" == before + parts[0];
  }

  lemma TrimLast(parts: seq<string>, after: string)
    requires Blank(after) && parts != []
    ensures Map(Init(parts) + [Last(parts) + after], Trim) == Map(parts, Trim)
  {
    TrimAround("", Last(parts), after);
    assert "" + Last(parts) + after == Last(parts) + after;
  }

  lemma PartsAround(before: string, s: string, after: string)
    requires Blank(before) && Blank(after)
    ensures Parts(before + s + after) == Parts(s)
  {
    ColonsAround(before, s, after);
    var colons := Map(s, Colon);
    SplitTail(before + colons, after, ':');
    SplitHead(before, colons, ':');
    TrimLast(Split(before + colons, ':'), after);
    TrimFirst(before, Split(colons, ':'));
  }

  /** A pattern made of names joined by commas and colons, with any blanks between, has exactly those names as its
      tokens, in order. */
  lemma TokensAreNames(first: Piece, more: seq<(char, Piece)>)
    requires WellWritten(first, more) && Written(first, more) != ""
    ensures Tokens(Written(first, more)) == NamesIn(first, more)
  {
    var pattern := Written(first, more);
    var before, after := TrimEnds(pattern);
    PartsAround(before, Trim(pattern), after);
    PartsOf(first, more);
  }

  lemma PieceOf(s: string) returns (p: Piece)
    requires ',' !in s && ':' !in s
    ensures Clean(p) && TextOf(p) == s
  {
    var before, after := TrimEnds(s);
    p := Piece(before, Trim(s), after);
  }

  /** Every pattern is written like that. */
  lemma {:induction false} EveryPattern(s: string) returns (first: Piece, more: seq<(char, Piece)>)
    ensures WellWritten(first, more) && Written(first, more) == s
  {
    if i :| 0 <= i < |s| && s[i] in ",:" && ',' !in s[i + 1..] && ':' !in s[i + 1..] {
      var front;
      first, front := EveryPattern(s[..i]);
      var last := PieceOf(s[i + 1..]);
      more := front + [(s[i], last)];
      assert Init(more) == front;
      assert s == s[..i] + [s[i]] + s[i + 1..];
    } else {
      NoSeparator(s);
      first := PieceOf(s);
      more := [];
    }
  }

  lemma {:induction false} NoSeparator(s: string)
    requires forall i :: 0 <= i < |s| && s[i] in ",:" ==> ',' in s[i + 1..] || ':' in s[i + 1..]
    ensures ',' !in s && ':' !in s
  {
    if s != [] {
      assert s[1..][0..] == s[1..];
      forall i | 0 <= i < |s[1..]| && s[1..][i] in ",:" ensures ',' in s[1..][i + 1..] || ':' in s[1..][i + 1..] {
        assert s[1..][i + 1..] == s[i + 2..] && s[i + 1] in ",:";
      }
      NoSeparator(s[1..]);
    }
  }

  // ----- Patterns that are no list of names -----

  ghost predicate Twice(s: string, c: char) { exists i :: 0 <= i < |s| - 1 && s[i] == c && s[i + 1] == c }

  /** A template, an intersection or an exclusion, which cannot be resolved statically. */
  ghost predicate Unresolved(pattern: string) {
    '&' in pattern || '!' in pattern || Twice(pattern, '{') || Twice(pattern, '}')
  }

  ghost predicate Padded(pattern: string, name: string) {
    exists before, after :: Blank(before) && Blank(after) && pattern == before + name + after
  }

  /** No pattern, "all" or "*". */
  ghost predicate Everything(pattern: string) { pattern == "" || Padded(pattern, "all") || Padded(pattern, "*") }

  lemma PaddedTrims(pattern: string, name: string)
    requires Trimmed(name)
    ensures Padded(pattern, name) <==> Trim(pattern) == name
  {
    var before, after := TrimEnds(pattern);
    if before, after :| Blank(before) && Blank(after) && pattern == before + name + after {
      TrimPadded(before, name, after);
    }
  }

  lemma EverythingExactly(pattern: string)
    ensures IsAll(pattern) <==> Everything(pattern)
  {
    PaddedTrims(pattern, "all");
    PaddedTrims(pattern, "*");
    PaddedTrims("all", "all");
    assert "" + "all" + "" == "all";
    assert Padded("all", "all") by {
      assert Blank("");
    }
  }

  lemma {:induction false} ContainsTwice(s: string, c: char)
    ensures Contains(s, [c, c]) <==> Twice(s, c)
  {
    if s != [] {
      ContainsTwice(s[1..], c);
      assert [c, c] <= s <==> |s| > 1 && s[0] == c && s[1] == c;
      assert forall i :: 0 <= i < |s[1..]| ==> s[1..][i] == s[i + 1];
      if Twice(s, c) {
        var i :| 0 <= i < |s| - 1 && s[i] == c && s[i + 1] == c;
        assert i > 0 ==> s[1..][i - 1] == c && s[1..][i] == c;
      }
      if Twice(s[1..], c) {
        var i :| 0 <= i < |s[1..]| - 1 && s[1..][i] == c && s[1..][i + 1] == c;
        assert s[i + 1] == c && s[i + 2] == c;
      }
    }
  }

  lemma TwiceAround(before: string, s: string, after: string, c: char)
    requires Blank(before) && Blank(after) && !IsBlank(c)
    ensures c in before + s + after <==> c in s
    ensures Twice(before + s + after, c) <==> Twice(s, c)
  {
    var t := before + s + after;
    assert forall i :: 0 <= i < |s| ==> t[|before| + i] == s[i];
    assert forall i :: 0 <= i < |before| ==> t[i] == before[i] && before[i] in before;
    assert forall i :: 0 <= i < |after| ==> t[|before| + |s| + i] == after[i] && after[i] in after;
    if Twice(t, c) {
      var i :| 0 <= i < |t| - 1 && t[i] == c && t[i + 1] == c;
      assert s[i - |before|] == c && s[i - |before| + 1] == c;
    }
    if Twice(s, c) {
      var i :| 0 <= i < |s| - 1 && s[i] == c && s[i + 1] == c;
      assert t[|before| + i] == c && t[|before| + i + 1] == c;
    }
  }

  lemma UnresolvedExactly(pattern: string)
    ensures IsDynamic(pattern) <==> !Everything(pattern) && Unresolved(pattern)
  {
    EverythingExactly(pattern);
    if pattern != "" {
      var before, after := TrimEnds(pattern);
      TwiceAround(before, Trim(pattern), after, '&');
      TwiceAround(before, Trim(pattern), after, '!');
      TwiceAround(before, Trim(pattern), after, '{');
      TwiceAround(before, Trim(pattern), after, '}');
      ContainsTwice(Trim(pattern), '{');
      ContainsTwice(Trim(pattern), '}');
    }
  }

  // ----- What a pattern selects -----

  /** The name is the host's or one of its groups', or a glob that matches one of them. */
  ghost predicate Covers(glob: Glob, name: string, h: Host) {
    name == h.name || glob(h.name, name) || exists g :: g in h.groups && (name == g || glob(g, name))
  }

  /** Every pattern: it selects every host when it asks for all, none when it cannot be resolved, and otherwise exactly
      the hosts that some name in it covers, by host name or by group. */
  lemma SelectionExact(glob: Glob, first: Piece, more: seq<(char, Piece)>, hosts: seq<Host>, h: Host)
    requires WellWritten(first, more)
    ensures var pattern := Written(first, more);
      Selected(PatternMatches(glob, pattern, hosts), h)
      <==> h in hosts && (Everything(pattern)
                          || (!Unresolved(pattern) && exists n :: n in NamesIn(first, more) && Covers(glob, n, h)))
  {
    var pattern := Written(first, more);
    EverythingExactly(pattern);
    UnresolvedExactly(pattern);
    if IsAll(pattern) {
      AllSelected(glob, pattern, hosts, h);
    } else if !IsDynamic(pattern) {
      TokensAreNames(first, more);
      SelectedExactly(glob, pattern, hosts, h);
      assert forall n :: Hits(glob, n, h) <==> Covers(glob, n, h);
    }
  }

  lemma AllSelected(glob: Glob, pattern: string, hosts: seq<Host>, h: Host)
    requires IsAll(pattern)
    ensures Selected(PatternMatches(glob, pattern, hosts), h) <==> h in hosts
  {
    var r := PatternMatches(glob, pattern, hosts);
    assert forall i :: 0 <= i < |hosts| ==> r[i].host == hosts[i];
    if h in hosts {
      var i :| 0 <= i < |hosts| && hosts[i] == h;
      assert r[i] in r;
    }
  }
}
