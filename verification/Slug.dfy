/** Group-name slugs: the loop of the job-template preview and the regular expressions of the inventory. */
module Slug {
  import opened Prelude
  import opened Text

  predicate Ascii(s: string) { forall c :: c in s ==> c as int < 128 }

  predicate IsUpper(c: char) { 'A' <= c <= 'Z' }

  predicate IsAlnum(c: char) { IsDigit(c) || IsUpper(c) || 'a' <= c <= 'z' }

  function Lower(c: char): char {
    if IsUpper(c) then (c as int + 32) as char else c
  }

  function Cleaned(c: char): char { if IsAlnum(c) || c == '_' then c else '_' }

  predicate IsSpace(c: char) { c == ' ' || 9 <= c as int <= 13 || 28 <= c as int <= 31 }

  function StripLeft(s: string, drop: char -> bool): (r: string)
    ensures forall c :: c in r ==> c in s
  {
    if s != [] && drop(s[0]) then StripLeft(s[1..], drop) else s
  }

  function StripRight(s: string, drop: char -> bool): (r: string)
    ensures forall c :: c in r ==> c in s
  {
    if s != [] && drop(Last(s)) then StripRight(Init(s), drop) else s
  }

  function Strip(s: string, drop: char -> bool): (r: string)
    ensures forall c :: c in r ==> c in s
  {
    StripRight(StripLeft(s, drop), drop)
  }

  lemma {:induction false} StripLeftPad(pad: string, s: string, drop: char -> bool)
    requires (forall c :: c in pad ==> drop(c)) && (s == "" || !drop(s[0]))
    ensures StripLeft(pad + s, drop) == s
  {
    if pad == [] {
      assert pad + s == s;
    } else {
      assert pad[0] in pad && forall c :: c in pad[1..] ==> c in pad;
      assert (pad + s)[1..] == pad[1..] + s;
      StripLeftPad(pad[1..], s, drop);
    }
  }

  lemma {:induction false} StripRightPad(s: string, pad: string, drop: char -> bool)
    requires (forall c :: c in pad ==> drop(c)) && (s == "" || !drop(Last(s)))
    ensures StripRight(s + pad, drop) == s
  {
    if pad == [] {
      assert s + pad == s;
    } else {
      assert Last(pad) in pad && forall c :: c in Init(pad) ==> c in pad;
      assert Init(s + pad) == s + Init(pad) && Last(s + pad) == Last(pad);
      StripRightPad(s, Init(pad), drop);
    }
  }

  /** Stripping takes off exactly what is to be dropped at the two ends. */
  lemma StripPadded(before: string, s: string, after: string, drop: char -> bool)
    requires (forall c :: c in before ==> drop(c)) && (forall c :: c in after ==> drop(c))
    requires s == "" || (!drop(s[0]) && !drop(Last(s)))
    ensures Strip(before + s + after, drop) == s
  {
    if s == "" {
      StripLeftPad(before + s + after, "", drop);
      assert before + s + after + "" == before + s + after;
    } else {
      assert before + s + after == before + (s + after);
      StripLeftPad(before, s + after, drop);
      StripRightPad(s, after, drop);
    }
  }

  lemma {:induction false} LeftEnd(s: string, drop: char -> bool) returns (before: string)
    ensures s == before + StripLeft(s, drop) && forall c :: c in before ==> drop(c)
    ensures StripLeft(s, drop) == "" || !drop(StripLeft(s, drop)[0])
  {
    before := "";
    if s != [] && drop(s[0]) {
      var rest := LeftEnd(s[1..], drop);
      before := [s[0]] + rest;
      assert s == [s[0]] + s[1..];
    }
  }

  lemma {:induction false} RightEnd(s: string, drop: char -> bool) returns (after: string)
    ensures s == StripRight(s, drop) + after && forall c :: c in after ==> drop(c)
    ensures StripRight(s, drop) == "" || !drop(Last(StripRight(s, drop)))
  {
    after := "";
    if s != [] && drop(Last(s)) {
      var rest := RightEnd(Init(s), drop);
      after := rest + [Last(s)];
      assert s == Init(s) + [Last(s)];
    }
  }

  lemma StripEnds(s: string, drop: char -> bool) returns (before: string, after: string)
    ensures s == before + Strip(s, drop) + after
    ensures (forall c :: c in before ==> drop(c)) && forall c :: c in after ==> drop(c)
    ensures var t := Strip(s, drop); t == "" || (!drop(t[0]) && !drop(Last(t)))
  {
    before := LeftEnd(s, drop);
    after := RightEnd(StripLeft(s, drop), drop);
    assert s == before + (Strip(s, drop) + after);
    if Strip(s, drop) != "" {
      assert StripLeft(s, drop)[0] == Strip(s, drop)[0];
    }
  }

  /** Stripping leaves nothing exactly of a text that is all to be dropped. */
  lemma StripsToNothing(s: string, drop: char -> bool)
    ensures Strip(s, drop) == "" <==> forall c :: c in s ==> drop(c)
  {
    var before, after := StripEnds(s, drop);
    if forall c :: c in s ==> drop(c) {
      assert s == s + "" + "";
      StripPadded(s, "", "", drop);
    }
  }

  predicate IsUnderscore(c: char) { c == '_' }

  // ----- Collapsing runs of underscores -----

  /** The inventory's one-pass substitution: each maximal run of underscores becomes one. */
  function Collapse(s: string): string {
    if s == [] then []
    else if |s| > 1 && s[0] == '_' && s[1] == '_' then Collapse(s[1..])
    else [s[0]] + Collapse(s[1..])
  }

  /** One call of str.replace("__", "_"): left to right, without overlaps. */
  function ReplaceDouble(s: string): string {
    if |s| > 1 && s[0] == '_' && s[1] == '_' then "_" + ReplaceDouble(s[2..])
    else if s == [] then []
    else [s[0]] + ReplaceDouble(s[1..])
  }

  predicate HasDouble(s: string) {
    exists i :: 0 <= i < |s| - 1 && s[i] == '_' && s[i + 1] == '_'
  }

  lemma ReplaceHead(s: string)
    ensures |ReplaceDouble(s)| <= |s|
    ensures s != [] ==> ReplaceDouble(s) != [] && ReplaceDouble(s)[0] == s[0]
  {
  }

  lemma {:induction false} ReplaceShrinks(s: string)
    requires HasDouble(s)
    ensures |ReplaceDouble(s)| < |s|
  {
    var i :| 0 <= i < |s| - 1 && s[i] == '_' && s[i + 1] == '_';
    if s[0] == '_' && s[1] == '_' {
      ReplaceHead(s[2..]);
    } else {
      assert s[1..][i - 1] == '_' && s[1..][i] == '_';
      ReplaceShrinks(s[1..]);
    }
  }

  lemma {:induction false} ReplaceKeepsCollapse(s: string)
    ensures Collapse(ReplaceDouble(s)) == Collapse(s)
    decreases |s|
  {
    if |s| > 1 && s[0] == '_' && s[1] == '_' {
      var rest := s[2..];
      ReplaceKeepsCollapse(rest);
      ReplaceHead(rest);
      assert s[1..][1..] == rest;
      assert ("_" + ReplaceDouble(rest))[1..] == ReplaceDouble(rest);
      if rest == [] {
        assert ReplaceDouble(rest) == [];
      } else {
        assert s[1..][1] == rest[0];
      }
    } else if s != [] {
      var rest := s[1..];
      ReplaceKeepsCollapse(rest);
      ReplaceHead(rest);
      assert ([s[0]] + ReplaceDouble(rest))[1..] == ReplaceDouble(rest);
      if rest != [] {
        assert s[1] == rest[0];
      } else {
        assert ReplaceDouble(rest) == [];
      }
    }
  }

  lemma {:induction false} CollapseFixpoint(s: string)
    requires !HasDouble(s)
    ensures Collapse(s) == s
  {
    if s != [] {
      assert !HasDouble(s[1..]) by {
        forall i | 0 <= i < |s[1..]| - 1 ensures !(s[1..][i] == '_' && s[1..][i + 1] == '_') {
          assert s[1..][i] == s[i + 1] && s[1..][i + 1] == s[i + 2];
        }
      }
      CollapseFixpoint(s[1..]);
    }
  }

  /** The preview's loop terminates and computes the one-pass collapse. */
  method CollapseByReplacing(s: string) returns (cleaned: string)
    ensures cleaned == Collapse(s)
  {
    cleaned := s;
    while HasDouble(cleaned)
      invariant Collapse(cleaned) == Collapse(s)
      decreases |cleaned|
    {
      ReplaceShrinks(cleaned);
      ReplaceKeepsCollapse(cleaned);
      cleaned := ReplaceDouble(cleaned);
    }
    CollapseFixpoint(cleaned);
  }

  // ----- The two slugs -----

  function PreviewSlug(raw: string): (r: string)
    ensures r != []
  {
    var lowered := Map(Strip(raw, IsSpace), Lower);
    var slug := Strip(Collapse(Map(lowered, Cleaned)), IsUnderscore);
    if slug == [] then "unknown" else slug
  }

  method ComputePreviewSlug(raw: string) returns (slug: string)
    ensures slug == PreviewSlug(raw)
  {
    var cleaned := CollapseByReplacing(Map(Map(Strip(raw, IsSpace), Lower), Cleaned));
    cleaned := Strip(cleaned, IsUnderscore);
    slug := if cleaned == [] then "unknown" else cleaned;
  }

  function PreviewGroup(prefix: string, raw: string): string {
    prefix + "_" + PreviewSlug(raw)
  }

  function InventoryGroup(prefix: string, raw: string): string {
    var substituted := Map(Map(Strip(raw, IsSpace), Cleaned), Lower);
    var slug := Strip(Collapse(substituted), IsUnderscore);
    var guarded := if slug != [] && IsDigit(slug[0]) then "_" + slug else slug;
    prefix + "_" + (if guarded == [] then "unknown" else guarded)
  }

  lemma CleanThenLower(s: string)
    ensures Map(Map(s, Cleaned), Lower) == Map(Map(s, Lower), Cleaned)
  {
    assert forall i :: 0 <= i < |s| ==> Lower(Cleaned(s[i])) == Cleaned(Lower(s[i]));
  }

  /** The two names differ by at most one underscore, put before a leading digit. */
  lemma GroupNamesDiffer(prefix: string, raw: string)
    requires Ascii(raw)
    ensures InventoryGroup(prefix, raw)
         == prefix + "_" + (if IsDigit(PreviewSlug(raw)[0]) then "_" else "") + PreviewSlug(raw)
  {
    CleanThenLower(Strip(raw, IsSpace));
    var slug := PreviewSlug(raw);
    if IsDigit(slug[0]) {
      assert prefix + "_" + ("_" + slug) == prefix + "_" + "_" + slug;
    } else {
      assert prefix + "_" + "" + slug == prefix + "_" + slug;
    }
  }

  /** The preview matches the inventory's group name exactly for slugs that do not begin with a digit. */
  lemma GroupNamesAgree(prefix: string, raw: string)
    requires Ascii(raw)
    ensures PreviewGroup(prefix, raw) == InventoryGroup(prefix, raw) <==> !IsDigit(PreviewSlug(raw)[0])
  {
    GroupNamesDiffer(prefix, raw);
    assert |PreviewGroup(prefix, raw)| == |prefix| + 1 + |PreviewSlug(raw)|;
  }

  lemma {:induction false} CollapseNumeral(s: string)
    requires forall c :: c in s ==> IsDigit(c)
    ensures Collapse(s) == s
  {
    if s != [] {
      assert s[0] in s;
      CollapseNumeral(s[1..]);
    }
  }

  lemma NumeralSlug(n: nat)
    ensures PreviewSlug(Decimal(n)) == Decimal(n) && Ascii(Decimal(n)) && IsDigit(Decimal(n)[0])
  {
    var raw := Decimal(n);
    forall i | 0 <= i < |raw| ensures Cleaned(Lower(raw[i])) == raw[i] {
      assert raw[i] in raw;
    }
    assert Map(Map(raw, Lower), Cleaned) == raw;
    CollapseNumeral(raw);
    assert raw[0] in raw;
  }

  /** So every VLAN group is named differently on the two sides. */
  lemma VlanGroupsNeverAgree(vlan: nat)
    ensures PreviewGroup("vlan", Decimal(vlan)) == "vlan_" + Decimal(vlan)
    ensures InventoryGroup("vlan", Decimal(vlan)) == "vlan__" + Decimal(vlan)
  {
    var raw := Decimal(vlan);
    NumeralSlug(vlan);
    GroupNamesDiffer("vlan", raw);
    assert "vlan" + "_" + "_" + raw == "vlan__" + raw;
    assert "vlan" + "_" + raw == "vlan_" + raw;
  }
}
