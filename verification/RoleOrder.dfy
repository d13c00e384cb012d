/** The ordered roles of a host, stored as priorities, and what the order means for the inventory. */
module RoleOrder {
  import opened Prelude
  import opened Precedence
  import opened InventoryBuilders

  /** (host, role) to priority; the pair is the primary key. */
  type RoleRows = map<(int, int), int>

  predicate HasRole(rows: RoleRows, host: int, role: int) { (host, role) in rows }

  function Prio(rows: RoleRows, host: int, role: int): int {
    if (host, role) in rows then rows[(host, role)] else 0
  }

  ghost predicate SameRoles(rows: RoleRows, host: int, list: seq<int>) {
    forall r :: HasRole(rows, host, r) <==> r in list
  }

  ghost predicate Positive(rows: RoleRows, host: int, list: seq<int>) {
    forall i :: 0 <= i < |list| ==> Prio(rows, host, list[i]) > 0
  }

  ghost predicate Increasing(rows: RoleRows, host: int, list: seq<int>) {
    forall i, j :: 0 <= i < j < |list| ==> Prio(rows, host, list[i]) < Prio(rows, host, list[j])
  }

  /** list is the roles of the host, in order: their priorities are positive and strictly increasing. */
  ghost predicate InOrder(rows: RoleRows, host: int, list: seq<int>) {
    SameRoles(rows, host, list) && Positive(rows, host, list) && Increasing(rows, host, list)
  }

  /** The query ordered by priority returns the roles of the host, each once, by non-decreasing priority. */
  ghost predicate ReadBack(rows: RoleRows, host: int, list: seq<int>) {
    && SameRoles(rows, host, list)
    && Distinct(list)
    && NonDecreasing(rows, host, list)
  }

  ghost predicate NonDecreasing(rows: RoleRows, host: int, list: seq<int>) {
    forall i, j :: 0 <= i < j < |list| ==> Prio(rows, host, list[i]) <= Prio(rows, host, list[j])
  }

  /** Whatever the database returns for a host in order is the abstract list. */
  lemma {:induction false} ReadBackIsOrder(rows: RoleRows, host: int, list: seq<int>, read: seq<int>)
    requires InOrder(rows, host, list) && ReadBack(rows, host, read)
    ensures read == list
  {
    DistinctCount(list);
    DistinctCount(read);
    forall r ensures r in list <==> r in read {
      assert HasRole(rows, host, r) <==> r in list;
    }
    assert Elements(list) == Elements(read);
    forall k | 0 <= k < |list| ensures read[k] == list[k] {
      SamePlace(rows, host, list, read, k);
    }
  }

  lemma {:induction false} SamePlace(rows: RoleRows, host: int, list: seq<int>, read: seq<int>, k: nat)
    requires InOrder(rows, host, list) && ReadBack(rows, host, read) && |read| == |list| && k < |list|
    ensures read[k] == list[k]
  {
    forall i | 0 <= i < k ensures read[i] == list[i] {
      SamePlace(rows, host, list, read, i);
    }
    assert list[k] in list && read[k] in read;
    assert HasRole(rows, host, list[k]) && HasRole(rows, host, read[k]);
    var a :| 0 <= a < |read| && read[a] == list[k];
    var b :| 0 <= b < |list| && list[b] == read[k];
    assert a < |list| && b < |read|;
  }

  // ----- The operations on the abstract list -----

  function Appended(list: seq<int>, roles: seq<int>): seq<int> {
    list + Filter(roles, r => r !in list)
  }

  function Toggled(list: seq<int>, role: int): seq<int> {
    if role in list then Filter(list, r => r != role) else list + [role]
  }

  /** Every host but this one keeps its rows. */
  ghost predicate OthersKept(before: RoleRows, after: RoleRows, host: int) {
    forall h, r :: h != host ==> HasRole(after, h, r) == HasRole(before, h, r) && Prio(after, h, r) == Prio(before, h, r)
  }

  lemma Repeated(kept: RoleRows, host: int, roles: seq<int>, i: nat)
    requires i < |roles| && SameRoles(kept, host, roles[..i]) && HasRole(kept, host, roles[i])
    ensures !Distinct(roles)
  {
    var j :| 0 <= j < i && roles[..i][j] == roles[i];
    assert roles[j] == roles[i];
  }

  /** One more role of the new list, with the next priority. */
  lemma Stored(kept: RoleRows, host: int, roles: seq<int>, i: nat)
    requires i < |roles| && SameRoles(kept, host, roles[..i]) && !HasRole(kept, host, roles[i]) && Distinct(roles[..i])
    requires forall j :: 0 <= j < i ==> Prio(kept, host, roles[j]) == j + 1
    ensures var after := kept[(host, roles[i]) := i + 1];
      && SameRoles(after, host, roles[..i + 1]) && Distinct(roles[..i + 1])
      && (forall j :: 0 <= j < i + 1 ==> Prio(after, host, roles[j]) == j + 1)
      && OthersKept(kept, after, host)
  {
    AddRow(kept, host, roles[..i], roles[i], i + 1);
    assert roles[..i + 1] == roles[..i] + [roles[i]];
    forall j | 0 <= j < i ensures roles[j] != roles[i] {
      assert roles[j] == roles[..i][j] && roles[j] in roles[..i];
    }
  }

  class HostRoles {
    var rows: RoleRows

    constructor ()
      ensures rows == map[]
    {
      rows := map[];
    }

    /** Replaces the roles of the host.  A role listed twice violates the primary key: nothing is changed. */
    method SyncRoles(host: int, roles: seq<int>) returns (ok: bool)
      modifies this
      ensures ok <==> Distinct(roles)
      ensures ok ==> InOrder(rows, host, roles)
      ensures ok ==> forall i :: 0 <= i < |roles| ==> Prio(rows, host, roles[i]) == i + 1
      ensures !ok ==> rows == old(rows)
      ensures OthersKept(old(rows), rows, host)
    {
      var kept := map key | key in rows && key.0 != host :: rows[key];
      var i := 0;
      while i < |roles|
        invariant 0 <= i <= |roles| && Distinct(roles[..i])
        invariant rows == old(rows)
        invariant SameRoles(kept, host, roles[..i])
        invariant forall j :: 0 <= j < i ==> Prio(kept, host, roles[j]) == j + 1
        invariant OthersKept(rows, kept, host)
      {
        if (host, roles[i]) in kept {
          Repeated(kept, host, roles, i);
          return false;
        }
        Stored(kept, host, roles, i);
        kept := kept[(host, roles[i]) := i + 1];
        i := i + 1;
      }
      assert roles[..i] == roles;
      rows := kept;
      ok := true;
    }

    method LeastOf(host: int, todo: set<int>) returns (least: int)
      requires todo != {}
      ensures least in todo && forall r :: r in todo ==> Prio(rows, host, least) <= Prio(rows, host, r)
    {
      SomeMember(todo);
      least :| least in todo;
      var rest := todo - {least};
      while rest != {}
        invariant rest < todo && least in todo
        invariant forall r :: r in todo ==> r in rest || Prio(rows, host, least) <= Prio(rows, host, r)
        decreases |rest|
      {
        SomeMember(rest);
        var r :| r in rest;
        if Prio(rows, host, r) < Prio(rows, host, least) {
          least := r;
        }
        rest := rest - {r};
      }
    }

    /** The roles of the host, ordered by priority. */
    method RoleIds(host: int) returns (read: seq<int>)
      ensures ReadBack(rows, host, read)
    {
      var todo := set key | key in rows && key.0 == host :: key.1;
      read := [];
      assert forall r :: HasRole(rows, host, r) ==> (host, r) in rows && r in todo;
      while todo != {}
        invariant forall r :: HasRole(rows, host, r) <==> r in todo || r in read
        invariant Distinct(read) && forall r :: r in todo ==> r !in read
        invariant NonDecreasing(rows, host, read)
        invariant forall i, r :: 0 <= i < |read| && r in todo ==> Prio(rows, host, read[i]) <= Prio(rows, host, r)
        decreases |todo|
      {
        var r := LeastOf(host, todo);
        read := read + [r];
        todo := todo - {r};
      }
    }

    /** Adds roles behind the existing ones.  Repeats the caller has left in violate the primary key.  Whatever
        priorities were stored before, a successful call leaves the host in order. */
    method AppendRoles(host: int, roles: seq<int>) returns (merged: seq<int>, ok: bool, ghost existing: seq<int>)
      modifies this
      ensures ReadBack(old(rows), host, existing) && merged == Appended(existing, roles)
      ensures ok <==> Distinct(merged)
      ensures Distinct(roles) ==> ok
      ensures ok ==> InOrder(rows, host, merged)
      ensures !ok ==> rows == old(rows)
      ensures OthersKept(old(rows), rows, host)
    {
      var read := RoleIds(host);
      existing := read;
      merged := read;
      for i := 0 to |roles|
        invariant merged == Appended(read, roles[..i])
      {
        assert Init(roles[..i + 1]) == roles[..i];
        if roles[i] !in read {
          merged := merged + [roles[i]];
        }
      }
      assert roles[..|roles|] == roles;
      if Distinct(roles) {
        AppendedDistinct(read, roles);
      }
      ok := SyncRoles(host, merged);
    }

    /** The highest priority of the host, if it has a role. */
    method MaxPriority(host: int) returns (most: Option<int>)
      ensures most.None? <==> forall r :: !HasRole(rows, host, r)
      ensures most.Some? ==> exists r :: HasRole(rows, host, r) && Prio(rows, host, r) == most.value
      ensures most.Some? ==> forall r :: HasRole(rows, host, r) ==> Prio(rows, host, r) <= most.value
    {
      most := None;
      var todo := rows.Keys;
      while todo != {}
        invariant todo <= rows.Keys
        invariant most.None? ==> forall r :: HasRole(rows, host, r) ==> (host, r) in todo
        invariant most.Some? ==> exists r :: HasRole(rows, host, r) && Prio(rows, host, r) == most.value
        invariant most.Some? ==>
          forall r :: HasRole(rows, host, r) ==> (host, r) in todo || Prio(rows, host, r) <= most.value
        decreases |todo|
      {
        var key :| key in todo;
        if key.0 == host && (most.None? || rows[key] > most.value) {
          most := Some(rows[key]);
          assert HasRole(rows, host, key.1) && Prio(rows, host, key.1) == most.value;
        }
        todo := todo - {key};
      }
    }

    /** Toggles a role: removed if present; else put last, or stored with the caller's priority.  Without such a
        priority it is removed from, or put behind, every order in which the roles can be read back. */
    method Toggle(host: int, role: int, priority: Option<int>) returns (removed: bool)
      modifies this
      ensures removed == HasRole(old(rows), host, role)
      ensures !removed && priority.Some? ==> rows == old(rows)[(host, role) := priority.value]
      ensures removed || priority.None? ==>
        && (forall list :: ReadBack(old(rows), host, list) ==> ReadBack(rows, host, Toggled(list, role)))
        && (forall list :: InOrder(old(rows), host, list) ==> InOrder(rows, host, Toggled(list, role)))
      ensures OthersKept(old(rows), rows, host)
    {
      if (host, role) in rows {
        forall list | ReadBack(rows, host, list) ensures ReadBack(rows - {(host, role)}, host, Toggled(list, role)) {
          RemovalReadBack(rows, host, list, role);
        }
        forall list | InOrder(rows, host, list) ensures InOrder(rows - {(host, role)}, host, Toggled(list, role)) {
          RemovalInOrder(rows, host, list, role);
        }
        rows := rows - {(host, role)};
        return true;
      }
      if priority.Some? {
        rows := rows[(host, role) := priority.value];
      } else {
        PutLast(host, role);
      }
      removed := false;
    }

    method PutLast(host: int, role: int)
      requires !HasRole(rows, host, role)
      modifies this
      ensures forall list :: ReadBack(old(rows), host, list) ==> ReadBack(rows, host, Toggled(list, role))
      ensures forall list :: InOrder(old(rows), host, list) ==> InOrder(rows, host, Toggled(list, role))
      ensures OthersKept(old(rows), rows, host)
    {
      var most := MaxPriority(host);
      var chosen := (if most.None? then 0 else most.value) + 1;
      forall list | ReadBack(rows, host, list) ensures ReadBack(rows[(host, role) := chosen], host, Toggled(list, role)) {
        AdditionReadBack(rows, host, list, role, chosen);
      }
      forall list | InOrder(rows, host, list) ensures InOrder(rows[(host, role) := chosen], host, Toggled(list, role)) {
        MostIsPositive(rows, host, list, most);
        assert role !in list;
        AddRow(rows, host, list, role, chosen);
      }
      rows := rows[(host, role) := chosen];
    }
  }

  lemma MostIsPositive(rows: RoleRows, host: int, list: seq<int>, most: Option<int>)
    requires InOrder(rows, host, list)
    requires most.Some? ==> exists r :: HasRole(rows, host, r) && Prio(rows, host, r) == most.value
    ensures most.Some? ==> most.value > 0
  {
    if most.Some? {
      var r :| HasRole(rows, host, r) && Prio(rows, host, r) == most.value;
      var i :| 0 <= i < |list| && list[i] == r;
    }
  }

  datatype Change = Replace(roles: seq<int>) | Add(roles: seq<int>) | ToggleRole(role: int)

  /** What a list of changes means for the abstract list; changes that list a role twice are refused. */
  ghost function Changed(list: seq<int>, changes: seq<Change>): seq<int> {
    if changes == [] then list
    else
      var before := Changed(list, Init(changes));
      match Last(changes)
      case Replace(roles) => if Distinct(roles) then roles else before
      case Add(roles) => if Distinct(Appended(before, roles)) then Appended(before, roles) else before
      case ToggleRole(role) => Toggled(before, role)
  }

  /** Any sequence of changes without an explicit priority keeps the host in the order of the abstract list. */
  method ChangeAll(table: HostRoles, host: int, changes: seq<Change>, ghost list: seq<int>) returns (read: seq<int>)
    requires InOrder(table.rows, host, list)
    modifies table
    ensures InOrder(table.rows, host, Changed(list, changes)) && read == Changed(list, changes)
    ensures OthersKept(old(table.rows), table.rows, host)
  {
    for i := 0 to |changes|
      invariant InOrder(table.rows, host, Changed(list, changes[..i]))
      invariant OthersKept(old(table.rows), table.rows, host)
    {
      assert Init(changes[..i + 1]) == changes[..i];
      match changes[i] {
        case Replace(roles) =>
          var ok := table.SyncRoles(host, roles);
        case Add(roles) =>
          ghost var before := table.rows;
          ghost var current := Changed(list, changes[..i]);
          var merged, ok, existing := table.AppendRoles(host, roles);
          ReadBackIsOrder(before, host, current, existing);
        case ToggleRole(role) =>
          var removed := table.Toggle(host, role, None);
      }
    }
    assert changes[..|changes|] == changes;
    read := table.RoleIds(host);
    ReadBackIsOrder(table.rows, host, Changed(list, changes), read);
  }

  /** A new role above all others goes last. */
  lemma AddRow(rows: RoleRows, host: int, list: seq<int>, role: int, priority: int)
    requires SameRoles(rows, host, list) && !HasRole(rows, host, role)
    ensures var after := rows[(host, role) := priority];
      && SameRoles(after, host, list + [role])
      && (forall i :: 0 <= i < |list| ==> Prio(after, host, list[i]) == Prio(rows, host, list[i]))
      && Prio(after, host, role) == priority
    ensures Positive(rows, host, list) && Increasing(rows, host, list) && priority > 0
            && (forall r :: HasRole(rows, host, r) ==> Prio(rows, host, r) < priority)
            ==> InOrder(rows[(host, role) := priority], host, list + [role])
  {
    var after, longer := rows[(host, role) := priority], list + [role];
    forall i | 0 <= i < |list|
      ensures HasRole(rows, host, list[i]) && Prio(after, host, list[i]) == Prio(rows, host, list[i])
    {
      assert list[i] in list;
    }
    forall r ensures HasRole(after, host, r) <==> r in longer {
      assert HasRole(rows, host, r) <==> r in list;
    }
  }

  lemma {:induction false} FilterKeepsDistinct(s: seq<int>, p: int -> bool)
    requires Distinct(s)
    ensures Distinct(Filter(s, p))
  {
    if s != [] {
      FilterKeepsDistinct(Init(s), p);
      assert Last(s) !in Init(s);
    }
  }

  lemma AppendedDistinct(list: seq<int>, roles: seq<int>)
    requires Distinct(list) && Distinct(roles)
    ensures Distinct(Appended(list, roles))
  {
    var added := Filter(roles, r => r !in list);
    FilterKeepsDistinct(roles, r => r !in list);
    var all := list + added;
    forall i, j | 0 <= i < j < |all| ensures all[i] != all[j] {
      if i < |list| <= j {
        assert all[i] in list && all[j] in added;
      }
    }
  }

  /** Appending keeps the old order, adds each new role once, and does nothing the second time. */
  lemma AppendIsIdempotent(list: seq<int>, roles: seq<int>)
    ensures list <= Appended(list, roles)
    ensures forall r :: r in Appended(list, roles) <==> r in list || r in roles
    ensures Appended(Appended(list, roles), roles) == Appended(list, roles)
  {
    var all := Appended(list, roles);
    assert forall r :: r in roles ==> r in list || r in Filter(roles, r => r !in list);
    FilterNone(roles, r => r !in all);
  }

  lemma {:induction false} FilterNone(s: seq<int>, p: int -> bool)
    requires forall i :: 0 <= i < |s| ==> !p(s[i])
    ensures Filter(s, p) == []
  {
    if s != [] {
      FilterNone(Init(s), p);
    }
  }

  /** The kept part of a list stays in order. */
  lemma {:induction false} FilterInOrder(rows: RoleRows, host: int, list: seq<int>, p: int -> bool)
    requires Positive(rows, host, list) && Increasing(rows, host, list)
    ensures Positive(rows, host, Filter(list, p)) && Increasing(rows, host, Filter(list, p))
  {
    if list != [] {
      var front := Init(list);
      FilterInOrder(rows, host, front, p);
      var kept := Filter(front, p);
      forall i | 0 <= i < |kept| ensures Prio(rows, host, kept[i]) < Prio(rows, host, Last(list)) {
        assert kept[i] in front;
        var k :| 0 <= k < |front| && front[k] == kept[i];
        assert Prio(rows, host, list[k]) < Prio(rows, host, list[|list| - 1]);
      }
      assert Prio(rows, host, list[|list| - 1]) > 0;
    }
  }

  lemma RemovalInOrder(rows: RoleRows, host: int, list: seq<int>, role: int)
    requires InOrder(rows, host, list) && HasRole(rows, host, role)
    ensures InOrder(rows - {(host, role)}, host, Toggled(list, role))
  {
    assert role in list;
    var after, kept := rows - {(host, role)}, Filter(list, r => r != role);
    FilterInOrder(rows, host, list, r => r != role);
    forall r ensures HasRole(after, host, r) <==> r in kept {
      assert HasRole(rows, host, r) <==> r in list;
    }
    forall i | 0 <= i < |kept| ensures Prio(after, host, kept[i]) == Prio(rows, host, kept[i]) {
      assert kept[i] in kept;
    }
  }

  /** The kept part of a list is read back in the same order. */
  lemma {:induction false} FilterReadBack(rows: RoleRows, host: int, list: seq<int>, p: int -> bool)
    requires NonDecreasing(rows, host, list)
    ensures NonDecreasing(rows, host, Filter(list, p))
  {
    if list != [] {
      var front := Init(list);
      FilterReadBack(rows, host, front, p);
      var kept := Filter(front, p);
      forall i | 0 <= i < |kept| ensures Prio(rows, host, kept[i]) <= Prio(rows, host, Last(list)) {
        assert kept[i] in front;
        var k :| 0 <= k < |front| && front[k] == kept[i];
        assert Prio(rows, host, list[k]) <= Prio(rows, host, list[|list| - 1]);
      }
    }
  }

  lemma RemovalReadBack(rows: RoleRows, host: int, list: seq<int>, role: int)
    requires ReadBack(rows, host, list) && HasRole(rows, host, role)
    ensures ReadBack(rows - {(host, role)}, host, Toggled(list, role))
  {
    assert role in list;
    var after, kept := rows - {(host, role)}, Filter(list, r => r != role);
    FilterReadBack(rows, host, list, r => r != role);
    FilterKeepsDistinct(list, r => r != role);
    forall r ensures HasRole(after, host, r) <==> r in kept {
      assert HasRole(rows, host, r) <==> r in list;
    }
    forall i | 0 <= i < |kept| ensures Prio(after, host, kept[i]) == Prio(rows, host, kept[i]) {
      assert kept[i] in kept;
    }
  }

  lemma AdditionReadBack(rows: RoleRows, host: int, list: seq<int>, role: int, priority: int)
    requires ReadBack(rows, host, list) && !HasRole(rows, host, role)
    requires forall r :: HasRole(rows, host, r) ==> Prio(rows, host, r) < priority
    ensures ReadBack(rows[(host, role) := priority], host, Toggled(list, role))
  {
    assert role !in list;
    AddRow(rows, host, list, role, priority);
    forall i | 0 <= i < |list| ensures list[i] != role && Prio(rows, host, list[i]) < priority {
      assert list[i] in list && HasRole(rows, host, list[i]);
    }
  }

  ghost predicate HasOrder(rows: RoleRows, host: int) { exists list :: InOrder(rows, host, list) }

  /** A priority chosen by the caller leaves the host in some order exactly when it is positive and unused. */
  lemma ExplicitPriority(rows: RoleRows, host: int, list: seq<int>, role: int, priority: int)
    requires InOrder(rows, host, list) && !HasRole(rows, host, role)
    ensures HasOrder(rows[(host, role) := priority], host)
            <==> priority > 0 && forall r :: HasRole(rows, host, r) ==> Prio(rows, host, r) != priority
  {
    var after := rows[(host, role) := priority];
    if HasOrder(after, host) {
      var l :| InOrder(after, host, l);
      InOrderSeparates(after, host, l, role);
      forall r | HasRole(rows, host, r) ensures Prio(rows, host, r) != priority {
        assert HasRole(after, host, r);
        InOrderSeparates(after, host, l, r);
      }
    }
    if priority > 0 && forall r :: HasRole(rows, host, r) ==> Prio(rows, host, r) != priority {
      var n := PlaceFor(rows, host, list, priority);
      Inserted(rows, host, list, role, priority, n);
      assert InOrder(after, host, list[..n] + [role] + list[n..]);
    }
  }

  /** A priority that is in use, and one that is not positive. */
  lemma PriorityRefused() returns (rows: RoleRows)
    ensures InOrder(rows, 1, [10]) && !HasRole(rows, 1, 20)
    ensures !HasOrder(rows[(1, 20) := 1], 1) && !HasOrder(rows[(1, 20) := 0], 1)
  {
    rows := map[(1, 10) := 1];
    assert InOrder(rows, 1, [10]);
    assert HasRole(rows, 1, 10) && Prio(rows, 1, 10) == 1;
    ExplicitPriority(rows, 1, [10], 20, 1);
    ExplicitPriority(rows, 1, [10], 20, 0);
  }

  lemma InOrderSeparates(rows: RoleRows, host: int, list: seq<int>, role: int)
    requires InOrder(rows, host, list) && HasRole(rows, host, role)
    ensures Prio(rows, host, role) > 0
    ensures forall r :: HasRole(rows, host, r) && r != role ==> Prio(rows, host, r) != Prio(rows, host, role)
  {
    var i :| 0 <= i < |list| && list[i] == role;
    forall r | HasRole(rows, host, r) && r != role ensures Prio(rows, host, r) != Prio(rows, host, role) {
      var j :| 0 <= j < |list| && list[j] == r;
      assert i < j ==> Prio(rows, host, list[i]) < Prio(rows, host, list[j]);
    }
  }

  /** The number of roles with a smaller priority. */
  function PlaceFor(rows: RoleRows, host: int, list: seq<int>, priority: int): (n: nat)
    ensures n <= |list|
    ensures forall i :: 0 <= i < n ==> Prio(rows, host, list[i]) < priority
    ensures n < |list| ==> Prio(rows, host, list[n]) >= priority
  {
    if list == [] || Prio(rows, host, list[0]) >= priority then 0
    else 1 + PlaceFor(rows, host, list[1..], priority)
  }

  lemma Inserted(rows: RoleRows, host: int, list: seq<int>, role: int, priority: int, n: nat)
    requires InOrder(rows, host, list) && !HasRole(rows, host, role) && priority > 0
    requires forall r :: HasRole(rows, host, r) ==> Prio(rows, host, r) != priority
    requires n == PlaceFor(rows, host, list, priority)
    ensures InOrder(rows[(host, role) := priority], host, list[..n] + [role] + list[n..])
  {
    var after, longer := rows[(host, role) := priority], list[..n] + [role] + list[n..];
    AddRow(rows, host, list, role, priority);
    forall i | n <= i < |list| ensures Prio(rows, host, list[i]) > priority {
      assert list[n] in list && HasRole(rows, host, list[n]);
      assert n < i ==> Prio(rows, host, list[n]) < Prio(rows, host, list[i]);
    }
    assert SameRoles(after, host, longer);
    InsertedIncreasing(rows, after, host, list, role, n);
  }

  lemma InsertedIncreasing(rows: RoleRows, after: RoleRows, host: int, list: seq<int>, role: int, n: nat)
    requires n <= |list| && Positive(rows, host, list) && Increasing(rows, host, list)
    requires forall i :: 0 <= i < |list| ==> Prio(after, host, list[i]) == Prio(rows, host, list[i])
    requires Prio(after, host, role) > 0
    requires forall i :: 0 <= i < n ==> Prio(rows, host, list[i]) < Prio(after, host, role)
    requires forall i :: n <= i < |list| ==> Prio(after, host, role) < Prio(rows, host, list[i])
    ensures var longer := list[..n] + [role] + list[n..];
      Positive(after, host, longer) && Increasing(after, host, longer)
  {
    var longer := list[..n] + [role] + list[n..];
    assert forall i :: 0 <= i < n ==> longer[i] == list[i];
    assert longer[n] == role;
    forall i, j | 0 <= i < j < |longer| ensures Prio(after, host, longer[i]) < Prio(after, host, longer[j]) {
      var a, b := if i < n then i else i - 1, if j < n then j else j - 1;
      assert i > n ==> longer[i] == list[i - 1];
      assert j > n ==> longer[j] == list[j - 1];
      assert a < b && i != n && j != n ==> Prio(rows, host, list[a]) < Prio(rows, host, list[b]);
    }
    forall i | 0 <= i < |longer| ensures Prio(after, host, longer[i]) > 0 {
      assert i > n ==> longer[i] == list[i - 1];
    }
  }

  // ----- What the order means -----

  /** The first role of the list with a default for the field. */
  function FirstWith(list: seq<int>, defaults: map<(int, string), string>, field: string): (f: Option<nat>)
    ensures f.None? ==> forall i :: 0 <= i < |list| ==> (list[i], field) !in defaults
    ensures f.Some? ==> f.value < |list| && (list[f.value], field) in defaults
                        && forall i :: 0 <= i < f.value ==> (list[i], field) !in defaults
  {
    if list == [] then None
    else if (list[0], field) in defaults then Some(0)
    else
      var f := FirstWith(list[1..], defaults, field);
      if f.None? then
        assert forall i :: 0 < i < |list| ==> list[i] == list[1..][i - 1];
        None
      else
        assert forall i :: 0 < i < |list| ==> list[i] == list[1..][i - 1];
        Some(f.value + 1)
  }

  function DefaultRow(rows: RoleRows, host: int, name: string, role: int, field: string,
                      defaults: map<(int, string), string>): Row
    requires (role, field) in defaults
  {
    Row(name, field, defaults[(role, field)], Prio(rows, host, role))
  }

  /** The joined query's rows for the host and field, in any order. */
  ghost predicate JoinedRows(c: seq<Row>, rows: RoleRows, host: int, name: string, list: seq<int>, field: string,
                             defaults: map<(int, string), string>) {
    && (forall i :: 0 <= i < |c| ==> FromSomeRole(c[i], rows, host, name, list, field, defaults))
    && (forall a :: 0 <= a < |list| && (list[a], field) in defaults
          ==> DefaultRow(rows, host, name, list[a], field, defaults) in c)
  }

  ghost predicate FromSomeRole(row: Row, rows: RoleRows, host: int, name: string, list: seq<int>, field: string,
                               defaults: map<(int, string), string>) {
    exists a :: 0 <= a < |list| && (list[a], field) in defaults
                && row == DefaultRow(rows, host, name, list[a], field, defaults)
  }

  /** Among the joined rows the first role in the list that has a default for the field is picked. */
  lemma FirstRolePicked(c: seq<Row>, rows: RoleRows, host: int, name: string, list: seq<int>, field: string,
                        defaults: map<(int, string), string>)
    requires InOrder(rows, host, list) && JoinedRows(c, rows, host, name, list, field, defaults)
    ensures var f := FirstWith(list, defaults, field);
      Pick(HostRoleDefaults, c)
      == if f.None? then None
         else Some(FromRow(HostRoleDefaults, DefaultRow(rows, host, name, list[f.value], field, defaults)))
  {
    var f := FirstWith(list, defaults, field);
    assert f.Some? ==> DefaultRow(rows, host, name, list[f.value], field, defaults) in c;
    if c != [] {
      var i := LeastIndex(c);
      assert FromSomeRole(c[i], rows, host, name, list, field, defaults);
      var b :| 0 <= b < |list| && (list[b], field) in defaults
               && c[i] == DefaultRow(rows, host, name, list[b], field, defaults);
      var first := DefaultRow(rows, host, name, list[f.value], field, defaults);
      var k :| 0 <= k < |c| && c[k] == first;
      EarlierIsSmaller(rows, host, list, f.value, b);
      assert Effective(c[i].priority) <= Effective(c[k].priority);
    }
  }

  lemma EarlierIsSmaller(rows: RoleRows, host: int, list: seq<int>, a: nat, b: nat)
    requires InOrder(rows, host, list) && a <= b < |list|
    ensures 0 < Prio(rows, host, list[a]) <= Prio(rows, host, list[b])
    ensures Prio(rows, host, list[a]) == Prio(rows, host, list[b]) ==> a == b
  {
  }

  /** No layer above the host's roles has a row for the variable. */
  ghost predicate NothingAbove(t: Tables, name: string, field: string) {
    forall l :: Rank(l) > Rank(HostRoleDefaults) && ModeOf(l).Overwrite? ==> Candidates(t, l, name, field) == []
  }

  lemma HostRolesWin(t: Tables, name: string, field: string, base: Option<Source>)
    requires base.Some? ==> base.value.Base?
    ensures var picks := InventoryPicks(t, name, field);
      && (picks(HostRoleDefaults).Some? ==>
            (Winner(picks, base) == picks(HostRoleDefaults) <==> NothingAbove(t, name, field)))
      && (picks(HostRoleDefaults).None? ==> forall r :: Winner(picks, base) != Some(FromRow(HostRoleDefaults, r)))
  {
    var picks := InventoryPicks(t, name, field);
    forall l
      ensures picks(l).Some? <==> Candidates(t, l, name, field) != []
      ensures picks(l).Some? ==> picks(l).value.FromRow? && picks(l).value.layer == l
    {
      PickIsRow(t, l, name, field);
    }
    DecidingDecides(picks, base.Some?);
    DecidingExact(picks, base.Some?, HostRoleDefaults);
    if picks(HostRoleDefaults).Some? && NothingAbove(t, name, field) {
      assert Decides(picks, base.Some?, HostRoleDefaults);
    }
  }

  /** In the inventory built for all hosts, the first role in the list that has a default for a field supplies the
      host's variable exactly when no override does; and if no role has one, no role supplies it. */
  lemma FirstRoleDecides(hosts: seq<HostRow>, t: Tables, rows: RoleRows, host: int, name: string, list: seq<int>,
                         field: string, defaults: map<(int, string), string>)
    requires name in NamesOf(hosts) && field != "" && InOrder(rows, host, list)
    requires JoinedRows(Candidates(t, HostRoleDefaults, name, field), rows, host, name, list, field, defaults)
    ensures name in FullHostvars(hosts, t)
    ensures var f := FirstWith(list, defaults, field);
      var v := Lookup(FullHostvars(hosts, t)[name], field);
      && (f.Some? ==>
            (v == Some(FromRow(HostRoleDefaults, DefaultRow(rows, host, name, list[f.value], field, defaults)))
             <==> NothingAbove(t, name, field)))
      && (f.None? ==> forall r :: v != Some(FromRow(HostRoleDefaults, r)))
  {
    FullVariable(hosts, t, name, field);
    FirstRolePicked(Candidates(t, HostRoleDefaults, name, field), rows, host, name, list, field, defaults);
    HostRolesWin(t, name, field, Lookup(BaseVars(LastNamed(hosts, name).value), field));
  }
}
