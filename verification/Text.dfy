/** Decimal numerals and splitting on a separator character, as Python's str() and str.split(sep) do them. */
module Text {
  import opened Prelude

  predicate IsDigit(c: char) { '0' <= c <= '9' }

  function DigitChar(d: nat): (c: char)
    requires d < 10
    ensures IsDigit(c) && c as int - '0' as int == d
  {
    ('0' as int + d) as char
  }

  function Decimal(n: nat): (s: string)
    ensures s != [] && forall c :: c in s ==> IsDigit(c)
  {
    if n < 10 then [DigitChar(n)] else Decimal(n / 10) + [DigitChar(n % 10)]
  }

  /** int() on a numeral. */
  function ParseDecimal(s: string): nat
    requires forall c :: c in s ==> IsDigit(c)
  {
    if s == [] then 0
    else
      assert forall c :: c in Init(s) ==> c in s;
      assert s[|s| - 1] in s && IsDigit(Last(s));
      10 * ParseDecimal(Init(s)) + (Last(s) as int - '0' as int)
  }

  lemma {:induction false} DecimalRoundTrip(n: nat)
    ensures ParseDecimal(Decimal(n)) == n
  {
    if n >= 10 {
      DecimalRoundTrip(n / 10);
      assert Init(Decimal(n)) == Decimal(n / 10);
    } else {
      assert Init(Decimal(n)) == [];
    }
  }

  lemma DecimalInjective(m: nat, n: nat)
    requires Decimal(m) == Decimal(n)
    ensures m == n
  {
    DecimalRoundTrip(m);
    DecimalRoundTrip(n);
  }

  function Split(s: string, sep: char): (parts: seq<string>)
    ensures parts != []
    ensures forall p, i :: p in parts && 0 <= i < |p| ==> p[i] != sep
  {
    if s == [] then [[]]
    else
      var front := Split(Init(s), sep);
      if Last(s) == sep then front + [[]]
      else Init(front) + [Last(front) + [Last(s)]]
  }

  lemma {:induction false} SplitTail(s: string, t: string, sep: char)
    requires sep !in t
    ensures Split(s + t, sep) == Init(Split(s, sep)) + [Last(Split(s, sep)) + t]
  {
    if t == [] {
      assert s + t == s && Last(Split(s, sep)) + t == Last(Split(s, sep));
    } else {
      assert Init(s + t) == s + Init(t) && Last(s + t) == Last(t);
      SplitTail(s, Init(t), sep);
      assert Last(Split(s, sep)) + Init(t) + [Last(t)] == Last(Split(s, sep)) + t;
    }
  }

  lemma SplitNone(s: string, sep: char)
    requires sep !in s
    ensures Split(s, sep) == [s]
  {
    SplitTail([], s, sep);
    assert [] + s == s;
  }

  /** sep.join(names). */
  function Joined(names: seq<string>, sep: string): string {
    if names == [] then []
    else if |names| == 1 then names[0]
    else names[0] + sep + Joined(names[1..], sep)
  }

  /** Splitting at the first separator. */
  lemma {:induction false} SplitAt(first: string, rest: string, sep: char)
    requires sep !in first
    ensures Split(first + [sep] + rest, sep) == [first] + Split(rest, sep)
  {
    if rest == [] {
      assert first + [sep] + rest == first + [sep];
      assert Init(first + [sep]) == first;
      SplitNone(first, sep);
    } else {
      var s := first + [sep] + rest;
      assert Init(s) == first + [sep] + Init(rest) && Last(s) == Last(rest);
      SplitAt(first, Init(rest), sep);
      SplitGrows(first, Split(Init(rest), sep), Last(rest), sep);
    }
  }

  lemma SplitGrows(first: string, parts: seq<string>, c: char, sep: char)
    requires parts != []
    ensures ([first] + parts) + [[]] == [first] + (parts + [[]])
    ensures Init([first] + parts) + [Last([first] + parts) + [c]] == [first] + (Init(parts) + [Last(parts) + [c]])
  {
  }
}
