/** Shared values and list operations.  Lists are consumed from the back, as the loops that build them
    grow them at the back. */
module Prelude {

  datatype Option<+T> = None | Some(value: T)

  type Byte = b: int | 0 <= b < 256

  function Lookup<K, V>(m: map<K, V>, k: K): Option<V> {
    if k in m then Some(m[k]) else None
  }

  function Init<T>(s: seq<T>): seq<T>
    requires s != []
  {
    s[..|s| - 1]
  }

  function Last<T>(s: seq<T>): T
    requires s != []
  {
    s[|s| - 1]
  }

  function Map<T, U>(s: seq<T>, f: T -> U): (r: seq<U>)
    ensures |r| == |s|
    ensures forall i :: 0 <= i < |s| ==> r[i] == f(s[i])
  {
    seq(|s|, i requires 0 <= i < |s| => f(s[i]))
  }

  lemma MapHas<T, U>(s: seq<T>, f: T -> U, u: U)
    ensures u in Map(s, f) <==> exists x :: x in s && f(x) == u
  {
    if u in Map(s, f) {
      var i :| 0 <= i < |s| && Map(s, f)[i] == u;
      assert s[i] in s && f(s[i]) == u;
    }
    forall x | x in s && f(x) == u ensures u in Map(s, f) {
      var i :| 0 <= i < |s| && s[i] == x;
      assert Map(s, f)[i] == u;
    }
  }

  function Flatten<T>(parts: seq<seq<T>>): seq<T> {
    if parts == [] then [] else Flatten(Init(parts)) + Last(parts)
  }

  lemma {:induction false} FlattenAppend<T>(a: seq<seq<T>>, b: seq<seq<T>>)
    ensures Flatten(a + b) == Flatten(a) + Flatten(b)
  {
    if b == [] {
      assert a + b == a;
    } else {
      assert Init(a + b) == a + Init(b) && Last(a + b) == Last(b);
      FlattenAppend(a, Init(b));
      assert (Flatten(a) + Flatten(Init(b))) + Last(b) == Flatten(a) + (Flatten(Init(b)) + Last(b));
    }
  }

  function Filter<T(!new)>(s: seq<T>, p: T -> bool): (r: seq<T>)
    ensures forall x :: x in r <==> x in s && p(x)
  {
    if s == [] then []
    else
      assert forall x :: x in s <==> x in Init(s) || x == Last(s);
      if p(Last(s)) then Filter(Init(s), p) + [Last(s)] else Filter(Init(s), p)
  }

  ghost predicate Distinct<T>(s: seq<T>) {
    forall i, j :: 0 <= i < j < |s| ==> s[i] != s[j]
  }

  /** The elements of a list as a set. */
  function Elements<T(!new)>(s: seq<T>): (r: set<T>)
    ensures forall x :: x in r <==> x in s
  {
    set x | x in s
  }

  lemma {:induction false} DistinctCount<T(!new)>(s: seq<T>)
    requires Distinct(s)
    ensures |Elements(s)| == |s|
  {
    if s != [] {
      DistinctCount(Init(s));
      assert Elements(s) == Elements(Init(s)) + {Last(s)};
      assert Last(s) !in Init(s);
    }
  }

  lemma SomeMember(s: set<int>)
    requires s != {}
    ensures exists x :: x in s
  {
    assert (forall x :: x !in s) ==> s == {};
  }

  lemma SubsetSize<T>(a: set<T>, b: set<T>)
    requires a <= b
    ensures |a| <= |b|
    ensures |a| == |b| ==> a == b
  {
    assert b == a + (b - a);
    assert |b| == |a| + |b - a|;
  }

  lemma {:induction false} FilterCount<T(!new)>(s: seq<T>, p: T -> bool, x: T)
    ensures multiset(Filter(s, p))[x] == if p(x) then multiset(s)[x] else 0
  {
    if s != [] {
      FilterCount(Init(s), p, x);
      assert s == Init(s) + [Last(s)];
    }
  }

  lemma {:induction false} FilterAll<T(!new)>(s: seq<T>, p: T -> bool)
    requires forall x :: x in s ==> p(x)
    ensures Filter(s, p) == s
  {
    if s != [] {
      assert s[|s| - 1] in s && p(Last(s));
      assert forall x :: x in Init(s) ==> x in s;
      FilterAll(Init(s), p);
      assert s == Init(s) + [Last(s)];
    }
  }

  lemma SameElements<T>(a: seq<T>, b: seq<T>)
    requires multiset(a) == multiset(b)
    ensures forall x :: x in a <==> x in b
    ensures |a| == |b|
  {
    assert |a| == |multiset(a)| == |b|;
    forall x ensures x in a <==> x in b {
      assert x in a <==> x in multiset(a);
      assert x in b <==> x in multiset(b);
    }
  }

  lemma AtMostOne<T>(a: seq<T>, b: seq<T>)
    requires multiset(a) == multiset(b) && |b| <= 1
    ensures a == b
  {
    SameElements(a, b);
    if |b| == 1 {
      assert a[0] in a;
    }
  }

  // ----- Stable sorting, the order Python's sorted() guarantees -----

  ghost predicate TotalPreorder<T(!new)>(le: (T, T) -> bool) {
    && (forall a, b :: le(a, b) || le(b, a))
    && (forall a, b, c :: le(a, b) && le(b, c) ==> le(a, c))
  }

  ghost predicate Sorted<T>(s: seq<T>, le: (T, T) -> bool) {
    forall i, j :: 0 <= i < j < |s| ==> le(s[i], s[j])
  }

  function Insert<T>(s: seq<T>, x: T, le: (T, T) -> bool): seq<T> {
    if s == [] || le(Last(s), x) then s + [x]
    else Insert(Init(s), x, le) + [Last(s)]
  }

  function StableSort<T>(s: seq<T>, le: (T, T) -> bool): seq<T> {
    if s == [] then [] else Insert(StableSort(Init(s), le), Last(s), le)
  }

  lemma {:induction false} InsertKeeps<T>(s: seq<T>, x: T, le: (T, T) -> bool)
    ensures multiset(Insert(s, x, le)) == multiset(s) + multiset{x}
    ensures forall y :: y in Insert(s, x, le) <==> y in s || y == x
  {
    if s == [] || le(Last(s), x) {
    } else {
      InsertKeeps(Init(s), x, le);
      assert s == Init(s) + [Last(s)];
    }
  }

  lemma {:induction false} InsertSorted<T(!new)>(s: seq<T>, x: T, le: (T, T) -> bool)
    requires TotalPreorder(le) && Sorted(s, le)
    ensures Sorted(Insert(s, x, le), le)
  {
    if s == [] || le(Last(s), x) {
      forall i | 0 <= i < |s| ensures le(s[i], x) {
        assert i == |s| - 1 || le(s[i], Last(s));
      }
    } else {
      InsertSorted(Init(s), x, le);
      InsertKeeps(Init(s), x, le);
      var t := Insert(Init(s), x, le);
      assert le(x, Last(s));
      forall i | 0 <= i < |t| ensures le(t[i], Last(s)) {
        assert t[i] in t;
      }
    }
  }

  /** The sort orders the list and keeps every element as often as it occurred. */
  lemma {:induction false} SortCorrect<T(!new)>(s: seq<T>, le: (T, T) -> bool)
    requires TotalPreorder(le)
    ensures Sorted(StableSort(s, le), le)
    ensures multiset(StableSort(s, le)) == multiset(s)
    ensures forall x :: x in StableSort(s, le) <==> x in s
  {
    if s != [] {
      SortCorrect(Init(s), le);
      InsertSorted(StableSort(Init(s), le), Last(s), le);
      InsertKeeps(StableSort(Init(s), le), Last(s), le);
      assert s == Init(s) + [Last(s)];
    }
  }

  lemma {:induction false} InsertFilter<T(!new)>(s: seq<T>, x: T, le: (T, T) -> bool, p: T -> bool)
    requires TotalPreorder(le) && Sorted(s, le)
    ensures Filter(Insert(s, x, le), p) == if p(x) then Insert(Filter(s, p), x, le) else Filter(s, p)
  {
    if s == [] || le(Last(s), x) {
      assert Init(s + [x]) == s;
      if Filter(s, p) != [] {
        assert Last(Filter(s, p)) in s;
        SortedLast(s, Last(Filter(s, p)), le);
      }
    } else {
      InsertFilter(Init(s), x, le, p);
      var t := Insert(Init(s), x, le);
      assert Init(t + [Last(s)]) == t;
      if p(Last(s)) {
        assert Init(Filter(s, p)) == Filter(Init(s), p);
      }
    }
  }

  lemma SortedLast<T(!new)>(s: seq<T>, y: T, le: (T, T) -> bool)
    requires TotalPreorder(le) && Sorted(s, le) && y in s
    ensures le(y, Last(s))
  {
    var i :| 0 <= i < |s| && s[i] == y;
    assert i == |s| - 1 || le(s[i], s[|s| - 1]);
  }

  /** Stability: dropping elements before or after sorting gives the same list, for any predicate. */
  lemma {:induction false} SortFilter<T(!new)>(s: seq<T>, le: (T, T) -> bool, p: T -> bool)
    requires TotalPreorder(le)
    ensures Filter(StableSort(s, le), p) == StableSort(Filter(s, p), le)
  {
    if s != [] {
      SortFilter(Init(s), le, p);
      SortCorrect(Init(s), le);
      InsertFilter(StableSort(Init(s), le), Last(s), le, p);
    }
  }

  lemma SingleSorted<T>(s: seq<T>, le: (T, T) -> bool)
    requires |s| == 1
    ensures StableSort(s, le) == s
  {
    assert StableSort(Init(s), le) == [];
  }

  /** The last element of the sorted list is a greatest element, the latest such one in the input. */
  lemma {:induction false} SortLast<T(!new)>(s: seq<T>, le: (T, T) -> bool) returns (i: nat)
    requires TotalPreorder(le) && s != []
    ensures i < |s| && StableSort(s, le) != [] && Last(StableSort(s, le)) == s[i]
    ensures forall j :: 0 <= j < |s| ==> le(s[j], s[i])
    ensures forall j :: i < j < |s| ==> !le(s[i], s[j])
  {
    var n := |s| - 1;
    if |s| == 1 {
      SingleSorted(s, le);
      i := n;
    } else {
      i := SortLast(Init(s), le);
      LastInserted(s, le);
      if le(s[i], Last(s)) {
        GreatestMoves(s, i, le);
        i := n;
      }
    }
  }

  lemma LastInserted<T(!new)>(s: seq<T>, le: (T, T) -> bool)
    requires s != [] && StableSort(Init(s), le) != []
    ensures var last := Last(StableSort(Init(s), le));
      StableSort(s, le) != [] && Last(StableSort(s, le)) == if le(last, Last(s)) then Last(s) else last
  {
  }

  lemma GreatestMoves<T(!new)>(s: seq<T>, i: nat, le: (T, T) -> bool)
    requires TotalPreorder(le) && i < |s| - 1 && le(s[i], Last(s))
    requires forall j :: 0 <= j < |s| - 1 ==> le(s[j], s[i])
    ensures forall j :: 0 <= j < |s| ==> le(s[j], Last(s))
  {
  }

  /** The first element of the sorted list is a least element, the earliest such one in the input. */
  lemma {:induction false} SortFirst<T(!new)>(s: seq<T>, le: (T, T) -> bool) returns (i: nat)
    requires TotalPreorder(le) && s != []
    ensures i < |s| && StableSort(s, le) != [] && StableSort(s, le)[0] == s[i]
    ensures forall j :: 0 <= j < |s| ==> le(s[i], s[j])
    ensures forall j :: 0 <= j < i ==> !le(s[j], s[i])
  {
    var n := |s| - 1;
    if |s| == 1 {
      SingleSorted(s, le);
      i := n;
    } else {
      var m := SortFirst(Init(s), le);
      FirstInserted(s, le);
      i := if le(s[m], Last(s)) then m else n;
      FirstStays(s, m, le);
    }
  }

  lemma FirstInserted<T(!new)>(s: seq<T>, le: (T, T) -> bool)
    requires TotalPreorder(le) && s != [] && StableSort(Init(s), le) != []
    ensures var first := StableSort(Init(s), le)[0];
      StableSort(s, le) != [] && StableSort(s, le)[0] == if le(first, Last(s)) then first else Last(s)
  {
    SortCorrect(Init(s), le);
    InsertFirst(StableSort(Init(s), le), Last(s), le);
  }

  /** The earliest least element of all but the last stays so, or the last takes its place. */
  lemma FirstStays<T(!new)>(s: seq<T>, m: nat, le: (T, T) -> bool)
    requires TotalPreorder(le) && m < |s| - 1
    requires forall j :: 0 <= j < |s| - 1 ==> le(s[m], s[j])
    requires forall j :: 0 <= j < m ==> !le(s[j], s[m])
    ensures var i := if le(s[m], Last(s)) then m else |s| - 1;
      (forall j :: 0 <= j < |s| ==> le(s[i], s[j])) && forall j :: 0 <= j < i ==> !le(s[j], s[i])
  {
  }

  lemma {:induction false} InsertFirst<T(!new)>(s: seq<T>, x: T, le: (T, T) -> bool)
    requires TotalPreorder(le) && Sorted(s, le) && s != []
    ensures Insert(s, x, le) != []
    ensures Insert(s, x, le)[0] == if le(s[0], x) then s[0] else x
  {
    if le(Last(s), x) {
      SortedFirst(s, le);
    } else if Init(s) == [] {
      assert Insert(Init(s), x, le) == [x];
    } else {
      InsertFirst(Init(s), x, le);
    }
  }

  lemma SortedFirst<T(!new)>(s: seq<T>, le: (T, T) -> bool)
    requires TotalPreorder(le) && Sorted(s, le) && s != []
    ensures le(s[0], Last(s))
  {
    assert |s| == 1 || le(s[0], s[|s| - 1]);
  }
}
