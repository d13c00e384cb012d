/** Slugs as lists of words: a slug is the words of its text, lower-cased and joined by one mark. */
module Words {
  import opened Prelude
  import opened Text
  import opened Slug

  // ----- The words of a text -----

  /** The maximal runs of the characters to keep. */
  function WordsOf(s: string, keep: char -> bool): seq<string> {
    if s == [] then []
    else if !keep(s[0]) then WordsOf(s[1..], keep)
    else if |s| > 1 && keep(s[1]) then Longer(s[0], WordsOf(s[1..], keep))
    else [[s[0]]] + WordsOf(s[1..], keep)
  }

  function Longer(c: char, words: seq<string>): seq<string> {
    if words == [] then [[c]] else [[c] + words[0]] + words[1..]
  }

  ghost predicate All(s: string, keep: char -> bool) { forall c :: c in s ==> keep(c) }

  ghost predicate NoneOf(s: string, keep: char -> bool) { forall c :: c in s ==> !keep(c) }

  /** Each word with the gap behind it. */
  function Spelled(parts: seq<(string, string)>): string {
    if parts == [] then [] else parts[0].0 + parts[0].1 + Spelled(parts[1..])
  }

  /** The words hold only what is kept, the gaps nothing of it; only the last gap may be empty. */
  ghost predicate Separated(parts: seq<(string, string)>, keep: char -> bool) {
    && (forall p :: p in parts ==> p.0 != "" && All(p.0, keep) && NoneOf(p.1, keep))
    && forall i :: 0 <= i < |parts| - 1 ==> parts[i].1 != ""
  }

  lemma {:induction false} GapBefore(gap: string, s: string, keep: char -> bool)
    requires NoneOf(gap, keep)
    ensures WordsOf(gap + s, keep) == WordsOf(s, keep)
  {
    if gap == [] {
      assert gap + s == s;
    } else {
      assert gap[0] in gap && forall c :: c in gap[1..] ==> c in gap;
      assert (gap + s)[1..] == gap[1..] + s;
      GapBefore(gap[1..], s, keep);
    }
  }

  lemma {:induction false} GapBehind(s: string, gap: string, keep: char -> bool)
    requires NoneOf(gap, keep)
    ensures WordsOf(s + gap, keep) == WordsOf(s, keep)
  {
    if s == [] {
      GapBefore(gap, [], keep);
      assert s + gap == gap + [];
    } else {
      assert (s + gap)[1..] == s[1..] + gap;
      assert |s| == 1 && gap != [] ==> (s + gap)[1] == gap[0] && gap[0] in gap;
      GapBehind(s[1..], gap, keep);
    }
  }

  lemma {:induction false} WordBefore(word: string, s: string, keep: char -> bool)
    requires word != "" && All(word, keep) && (s == "" || !keep(s[0]))
    ensures WordsOf(word + s, keep) == [word] + WordsOf(s, keep)
  {
    assert word[0] in word && (word + s)[1..] == word[1..] + s;
    if |word| == 1 {
      assert word == [word[0]] && (word + s)[1..] == s;
    } else {
      assert word[1] in word && forall c :: c in word[1..] ==> c in word;
      WordBefore(word[1..], s, keep);
      assert [word[0]] + word[1..] == word;
    }
  }

  /** They are the words between the gaps. */
  lemma {:induction false} WordsSpelled(gap: string, parts: seq<(string, string)>, keep: char -> bool)
    requires NoneOf(gap, keep) && Separated(parts, keep)
    ensures WordsOf(gap + Spelled(parts), keep) == Map(parts, (p: (string, string)) => p.0)
    decreases |parts|
  {
    GapBefore(gap, Spelled(parts), keep);
    if parts != [] {
      var word, behind, rest := parts[0].0, parts[0].1, Spelled(parts[1..]);
      assert parts[0] in parts && forall p :: p in parts[1..] ==> p in parts;
      assert forall i :: 0 <= i < |parts[1..]| ==> parts[1..][i] == parts[i + 1];
      WordsSpelled(behind, parts[1..], keep);
      assert behind != [] ==> behind[0] in behind;
      assert behind == [] ==> parts[1..] == [];
      WordBefore(word, behind + rest, keep);
      assert word + behind + rest == word + (behind + rest);
    }
  }

  function Each(words: seq<string>, f: char -> char): seq<string> { Map(words, (w: string) => Map(w, f)) }

  lemma {:induction false} WordsMap(s: string, f: char -> char, kept: char -> bool, keep: char -> bool)
    requires forall c :: kept(f(c)) <==> keep(c)
    ensures WordsOf(Map(s, f), kept) == Each(WordsOf(s, keep), f)
  {
    if s != [] {
      assert Map(s, f)[1..] == Map(s[1..], f);
      WordsMap(s[1..], f, kept, keep);
      EachMore([s[0]], WordsOf(s[1..], keep), f);
      assert Map([s[0]], f) == [f(s[0])];
      LongerEach(s[0], WordsOf(s[1..], keep), f);
    }
  }

  lemma EachMore(word: string, words: seq<string>, f: char -> char)
    ensures Each([word] + words, f) == [Map(word, f)] + Each(words, f)
  {
  }

  lemma LongerEach(c: char, words: seq<string>, f: char -> char)
    ensures Longer(f(c), Each(words, f)) == Each(Longer(c, words), f)
  {
    if words == [] {
      EachMore([c], [], f);
      assert Map([c], f) == [f(c)];
    } else {
      EachMore([c] + words[0], words[1..], f);
      EachMore(words[0], words[1..], f);
      assert [words[0]] + words[1..] == words;
      assert Map([c] + words[0], f) == [f(c)] + Map(words[0], f);
    }
  }

  // ----- Squeezing the gaps -----

  /** Each run of other characters becomes one mark. */
  function Squeezed(s: string, keep: char -> bool, mark: char): string {
    if s == [] then []
    else if keep(s[0]) then [s[0]] + Squeezed(s[1..], keep, mark)
    else if |s| > 1 && !keep(s[1]) then Squeezed(s[1..], keep, mark)
    else [mark] + Squeezed(s[1..], keep, mark)
  }

  function Lead(s: string, keep: char -> bool, mark: char): string {
    if s == [] || keep(s[0]) then [] else [mark]
  }

  lemma {:induction false} FirstWord(s: string, keep: char -> bool)
    requires s != [] && keep(s[0])
    ensures WordsOf(s, keep) != []
  {
  }

  lemma JoinedLonger(c: char, words: seq<string>, sep: string)
    requires words != []
    ensures Joined(Longer(c, words), sep) == [c] + Joined(words, sep)
  {
    if |words| > 1 {
      assert Longer(c, words)[1..] == words[1..];
    }
  }

  lemma JoinedMore(word: string, words: seq<string>, sep: string)
    requires words != []
    ensures Joined([word] + words, sep) == word + sep + Joined(words, sep)
  {
    assert ([word] + words)[1..] == words;
  }

  /** The squeezed text is its words, joined, perhaps with a mark at either end. */
  ghost predicate IsSqueezed(s: string, keep: char -> bool, mark: char, end: string) {
    && Squeezed(s, keep, mark) == Lead(s, keep, mark) + Joined(WordsOf(s, keep), [mark]) + end
    && (end == "" || end == [mark])
  }

  lemma SqueezedLetter(s: string, keep: char -> bool, mark: char, end: string) returns (end': string)
    requires s != [] && keep(s[0]) && IsSqueezed(s[1..], keep, mark, end)
    ensures IsSqueezed(s, keep, mark, end')
  {
    var rest, words := s[1..], WordsOf(s[1..], keep);
    end' := end;
    if rest != [] && keep(rest[0]) {
      FirstWord(rest, keep);
      JoinedLonger(s[0], words, [mark]);
      assert [s[0]] + ([] + Joined(words, [mark]) + end) == [] + ([s[0]] + Joined(words, [mark])) + end;
    } else if words == [] {
      NoWords(rest, keep, mark);
      end' := Lead(rest, keep, mark);
      assert Joined([[s[0]]], [mark]) == [s[0]];
      assert [[s[0]]] + words == [[s[0]]];
    } else {
      JoinedMore([s[0]], words, [mark]);
      assert [s[0]] + ([mark] + Joined(words, [mark]) + end) == [] + ([s[0]] + [mark] + Joined(words, [mark])) + end;
    }
  }

  lemma SqueezedGap(s: string, keep: char -> bool, mark: char, end: string)
    requires s != [] && !keep(s[0]) && IsSqueezed(s[1..], keep, mark, end)
    ensures IsSqueezed(s, keep, mark, end)
  {
    var words := WordsOf(s[1..], keep);
    if |s| == 1 || keep(s[1]) {
      assert [mark] + ([] + Joined(words, [mark]) + end) == [mark] + Joined(words, [mark]) + end;
    }
  }

  lemma {:induction false} SqueezedWords(s: string, keep: char -> bool, mark: char) returns (end: string)
    ensures IsSqueezed(s, keep, mark, end)
  {
    end := "";
    if s != [] {
      end := SqueezedWords(s[1..], keep, mark);
      if keep(s[0]) {
        end := SqueezedLetter(s, keep, mark, end);
      } else {
        SqueezedGap(s, keep, mark, end);
      }
    }
  }

  lemma {:induction false} NoWords(s: string, keep: char -> bool, mark: char)
    requires WordsOf(s, keep) == []
    ensures Squeezed(s, keep, mark) == Lead(s, keep, mark)
  {
    if s != [] {
      NoWords(s[1..], keep, mark);
    }
  }

  lemma {:induction false} WordsKept(s: string, keep: char -> bool)
    ensures forall w :: w in WordsOf(s, keep) ==> w != "" && All(w, keep)
  {
    if s != [] {
      WordsKept(s[1..], keep);
      if keep(s[0]) {
        LongerKept(s[0], WordsOf(s[1..], keep), keep);
      }
    }
  }

  lemma LongerKept(c: char, words: seq<string>, keep: char -> bool)
    requires keep(c) && forall w :: w in words ==> w != "" && All(w, keep)
    ensures forall w :: w in Longer(c, words) ==> w != "" && All(w, keep)
    ensures forall w :: w in [[c]] + words ==> w != "" && All(w, keep)
  {
    if words != [] {
      assert words[0] in words && All([c] + words[0], keep);
      assert forall w :: w in words[1..] ==> w in words;
    }
    assert All([c], keep);
  }

  lemma {:induction false} JoinedEnds(words: seq<string>, mark: char, drop: char -> bool)
    requires forall w :: w in words ==> w != "" && NoneOf(w, drop)
    ensures var j := Joined(words, [mark]); words != [] ==> j != "" && !drop(j[0]) && !drop(Last(j))
  {
    if words != [] {
      assert words[0] in words && words[0][0] in words[0] && Last(words[0]) in words[0];
      if |words| > 1 {
        assert forall w :: w in words[1..] ==> w in words;
        JoinedEnds(words[1..], mark, drop);
      }
    }
  }

  /** Stripped of marks, the squeezed text is its words, joined. */
  lemma StrippedWords(s: string, keep: char -> bool, mark: char, drop: char -> bool)
    requires forall c :: drop(c) <==> c == mark
    requires !keep(mark)
    ensures Strip(Squeezed(s, keep, mark), drop) == Joined(WordsOf(s, keep), [mark])
  {
    var end := SqueezedWords(s, keep, mark);
    WordsKept(s, keep);
    JoinedEnds(WordsOf(s, keep), mark, drop);
    StripPadded(Lead(s, keep, mark), Joined(WordsOf(s, keep), [mark]), end, drop);
  }

  // ----- The slugs -----

  lemma {:induction false} CollapseSqueezes(s: string)
    ensures Collapse(Map(s, Cleaned)) == Squeezed(s, IsAlnum, '_')
  {
    if s != [] {
      CollapseSqueezes(s[1..]);
      assert Map(s, Cleaned)[1..] == Map(s[1..], Cleaned);
    }
  }

  predicate LetterOrDigit(c: char) { '0' <= c <= '9' || 'A' <= c <= 'Z' || 'a' <= c <= 'z' }

  /** Blanks at the ends belong to no word. */
  lemma WordsStripped(s: string)
    ensures WordsOf(Strip(s, IsSpace), LetterOrDigit) == WordsOf(s, LetterOrDigit)
  {
    var before, after := StripEnds(s, IsSpace);
    assert forall c :: IsSpace(c) ==> !LetterOrDigit(c);
    GapBehind(before + Strip(s, IsSpace), after, LetterOrDigit);
    GapBefore(before, Strip(s, IsSpace), LetterOrDigit);
  }

  /** The runs of letters and digits in a value, lower-cased. */
  function SlugWords(raw: string): seq<string> { Each(WordsOf(raw, LetterOrDigit), Lower) }

  lemma SlugWordsKept(raw: string)
    ensures forall w :: w in SlugWords(raw) ==> w != "" && forall c :: c in w ==> IsDigit(c) || 'a' <= c <= 'z'
  {
    WordsKept(raw, LetterOrDigit);
    var words := WordsOf(raw, LetterOrDigit);
    forall w | w in SlugWords(raw) ensures w != "" && forall c :: c in w ==> IsDigit(c) || 'a' <= c <= 'z' {
      var i :| 0 <= i < |words| && Map(words[i], Lower) == w;
      assert words[i] in words && forall j :: 0 <= j < |w| ==> words[i][j] in words[i];
    }
  }

  lemma SquashedSlug(raw: string)
    ensures Strip(Collapse(Map(Map(Strip(raw, IsSpace), Lower), Cleaned)), IsUnderscore) == Joined(SlugWords(raw), "_")
    ensures Joined(SlugWords(raw), "_") == "" <==> SlugWords(raw) == []
  {
    var lowered := Map(Strip(raw, IsSpace), Lower);
    CollapseSqueezes(lowered);
    StrippedWords(lowered, IsAlnum, '_', IsUnderscore);
    WordsMap(Strip(raw, IsSpace), Lower, IsAlnum, LetterOrDigit);
    WordsStripped(raw);
    SlugWordsKept(raw);
    JoinedEnds(SlugWords(raw), '_', IsUnderscore);
  }

  /** The preview's slug is the value's words, lower-cased and joined by one underscore. */
  lemma PreviewSlugIsWords(raw: string)
    ensures PreviewSlug(raw) == if SlugWords(raw) == [] then "unknown" else Joined(SlugWords(raw), "_")
  {
    SquashedSlug(raw);
  }

  predicate Numbered(word: string) { word != "" && IsDigit(word[0]) }

  /** So is the inventory's, guarded by one more underscore before a digit. */
  lemma InventoryGroupIsWords(prefix: string, raw: string)
    ensures var words := SlugWords(raw);
      InventoryGroup(prefix, raw)
      == prefix + "_" + if words == [] then "unknown" else (if Numbered(words[0]) then "_" else "") + Joined(words, "_")
  {
    CleanThenLower(Strip(raw, IsSpace));
    SquashedSlug(raw);
    var words := SlugWords(raw);
    SlugWordsKept(raw);
    if words != [] {
      assert words[0] in words;
      assert Joined(words, "_")[0] == words[0][0];
      assert "" + Joined(words, "_") == Joined(words, "_");
    }
  }
}
