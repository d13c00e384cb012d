/** Finding a free key for an agent: base, base-2, base-3, and so on. */
module AgentKeys {
  import opened Prelude
  import opened Text
  import opened Slug
  import opened Words

  predicate KeyChar(c: char) { IsDigit(c) || 'a' <= c <= 'z' }

  predicate IsDash(c: char) { c == '-' }

  /** Each run of other characters becomes one dash. */
  function Dashed(s: string): string {
    if s == [] then []
    else if KeyChar(s[0]) then [s[0]] + Dashed(s[1..])
    else if |s| > 1 && !KeyChar(s[1]) then Dashed(s[1..])
    else ['-'] + Dashed(s[1..])
  }

  function Normalize(raw: string): string {
    var key := Strip(Dashed(Map(Strip(raw, IsSpace), Lower)), IsDash);
    if key == [] then "agent" else key
  }

  /** Lower-case letters, digits and single dashes between them. */
  ghost predicate Normal(key: string) {
    && key != [] && key[0] != '-' && Last(key) != '-'
    && (forall c :: c in key ==> KeyChar(c) || c == '-')
    && NoDoubleDash(key)
  }

  ghost predicate NoDoubleDash(s: string) {
    forall i :: 0 <= i < |s| - 1 ==> !(s[i] == '-' && s[i + 1] == '-')
  }

  lemma {:induction false} DashedShape(s: string)
    ensures (forall c :: c in Dashed(s) ==> KeyChar(c) || c == '-') && NoDoubleDash(Dashed(s))
    ensures s != [] && KeyChar(s[0]) ==> Dashed(s) != [] && Dashed(s)[0] == s[0]
  {
    if s != [] {
      DashedShape(s[1..]);
    }
  }

  lemma {:induction false} StripShape(s: string)
    requires (forall c :: c in s ==> KeyChar(c) || c == '-') && NoDoubleDash(s)
    ensures var t := Strip(s, IsDash);
      && (forall c :: c in t ==> KeyChar(c) || c == '-') && NoDoubleDash(t)
      && (t != [] ==> t[0] != '-' && Last(t) != '-')
  {
    StripLeftShape(s);
    StripRightShape(StripLeft(s, IsDash));
  }

  lemma {:induction false} StripLeftShape(s: string)
    requires NoDoubleDash(s)
    ensures var t := StripLeft(s, IsDash); NoDoubleDash(t) && (t != [] ==> t[0] != '-')
  {
    if s != [] && IsDash(s[0]) {
      assert forall i :: 0 <= i < |s[1..]| ==> s[1..][i] == s[i + 1];
      StripLeftShape(s[1..]);
    }
  }

  lemma {:induction false} StripRightShape(s: string)
    requires NoDoubleDash(s) && (s != [] ==> s[0] != '-')
    ensures var t := StripRight(s, IsDash); NoDoubleDash(t) && (t != [] ==> t[0] != '-' && Last(t) != '-')
  {
    if s != [] && IsDash(Last(s)) {
      assert forall i :: 0 <= i < |Init(s)| ==> Init(s)[i] == s[i];
      StripRightShape(Init(s));
    }
  }

  lemma NormalizeIsNormal(raw: string)
    ensures Normal(Normalize(raw))
  {
    var lowered := Map(Strip(raw, IsSpace), Lower);
    DashedShape(lowered);
    StripShape(Dashed(lowered));
  }

  lemma {:induction false} DashedSqueezes(s: string)
    ensures Dashed(s) == Squeezed(s, KeyChar, '-')
  {
    if s != [] {
      DashedSqueezes(s[1..]);
    }
  }

  /** A key is the words of the raw text, lower-cased and joined by one dash. */
  lemma NormalizeIsWords(raw: string)
    ensures Normalize(raw) == if SlugWords(raw) == [] then "agent" else Joined(SlugWords(raw), "-")
  {
    var lowered := Map(Strip(raw, IsSpace), Lower);
    DashedSqueezes(lowered);
    StrippedWords(lowered, KeyChar, '-', IsDash);
    WordsMap(Strip(raw, IsSpace), Lower, KeyChar, LetterOrDigit);
    WordsStripped(raw);
    SlugWordsKept(raw);
    JoinedEnds(SlugWords(raw), '-', IsDash);
  }

  function Candidate(base: string, n: nat): string {
    if n == 1 then base else base + "-" + Decimal(n)
  }

  lemma CandidateNormal(base: string, n: nat)
    requires Normal(base)
    ensures Normal(Candidate(base, n))
  {
    if n != 1 {
      var key := base + "-" + Decimal(n);
      assert key[|base|] == '-' && key[|key| - 1] == Last(Decimal(n));
      forall i | 0 <= i < |key| - 1 ensures !(key[i] == '-' && key[i + 1] == '-') {
        if i + 1 < |base| {
          assert key[i] == base[i] && key[i + 1] == base[i + 1];
        } else if i + 1 == |base| {
          assert key[i] == Last(base);
        } else {
          assert key[i + 1] == Decimal(n)[i - |base|] && key[i + 1] in Decimal(n);
        }
      }
      assert Last(Decimal(n)) in Decimal(n);
    }
  }

  lemma CandidatesDistinct(base: string, m: nat, n: nat)
    requires m >= 1 && n >= 1 && Candidate(base, m) == Candidate(base, n)
    ensures m == n
  {
    assert m != 1 ==> |Candidate(base, m)| > |base|;
    assert n != 1 ==> |Candidate(base, n)| > |base|;
    if m != 1 && n != 1 {
      assert Candidate(base, m)[|base| + 1..] == Decimal(m);
      assert Candidate(base, n)[|base| + 1..] == Decimal(n);
      DecimalInjective(m, n);
    }
  }

  function LowerAll(s: string): string { Map(s, Lower) }

  datatype Agent = Agent(id: int, key: string)

  /** The keys in use, without case, by agents other than the ignored one. */
  function Taken(agents: seq<Agent>, ignored: Option<int>): set<string> {
    set a | a in agents && Some(a.id) != ignored :: LowerAll(a.key)
  }

  /** The candidates 1 to n. */
  ghost function FirstKeys(base: string, n: nat): (r: seq<string>)
    ensures |r| == n && forall i :: 0 <= i < n ==> r[i] == Candidate(base, i + 1)
  {
    seq(n, i requires 0 <= i < n => Candidate(base, i + 1))
  }

  /** Pigeonhole: n candidates that are all taken need n keys. */
  lemma FirstKeysCount(base: string, n: nat, taken: set<string>)
    requires forall i :: 1 <= i <= n ==> Candidate(base, i) in taken
    ensures n <= |taken|
  {
    var keys := FirstKeys(base, n);
    forall i, j | 0 <= i < j < n ensures keys[i] != keys[j] {
      if keys[i] == keys[j] {
        CandidatesDistinct(base, i + 1, j + 1);
      }
    }
    DistinctCount(keys);
    SubsetSize(Elements(keys), taken);
  }

  lemma NormalIsLower(key: string)
    requires Normal(key)
    ensures LowerAll(key) == key
  {
    forall i | 0 <= i < |key| ensures Lower(key[i]) == key[i] {
      assert key[i] in key;
    }
  }

  /** The search ends, at the first candidate nobody else holds, after at most one try more than there are keys. */
  method EnsureUniqueKey(agents: seq<Agent>, candidate: string, ignored: Option<int>)
    returns (key: string, ghost suffix: nat)
    ensures 1 <= suffix <= |Taken(agents, ignored)| + 1
    ensures key == Candidate(Normalize(candidate), suffix) && Normal(key)
    ensures LowerAll(key) == key && key !in Taken(agents, ignored)
    ensures forall a :: a in agents && LowerAll(a.key) == key ==> ignored == Some(a.id)
    ensures forall n :: 1 <= n < suffix ==> Candidate(Normalize(candidate), n) in Taken(agents, ignored)
  {
    var base := Normalize(candidate);
    NormalizeIsNormal(candidate);
    var taken := Taken(agents, ignored);
    var n := 1;
    key := base;
    while LowerAll(key) in taken
      invariant 1 <= n <= |taken| + 1 && key == Candidate(base, n)
      invariant forall i :: 1 <= i < n ==> Candidate(base, i) in taken
      decreases |taken| + 1 - n
    {
      CandidateNormal(base, n);
      NormalIsLower(key);
      FirstKeysCount(base, n, taken);
      n := n + 1;
      key := Candidate(base, n);
    }
    CandidateNormal(base, n);
    NormalIsLower(key);
    suffix := n;
  }
}
