/** The two builders of the Ansible inventory: every host for the inventory endpoint, and the selected hosts
    for a job run; and exactly when the second is a projection of the first.  The two run queries of their own,
    so their rows may come in different orders. */
module InventoryBuilders {
  import opened Prelude
  import opened Precedence
  import opened Slug

  function FullHostvars(rows: seq<HostRow>, t: Tables): Hostvars {
    PutTables(BaseHostvars(rows), t, true)
  }

  function ForHosts(t: Tables, names: set<string>): Tables {
    (l: Layer) => if l.AnsibleDefaults? then t(l) else Filter(t(l), (r: Row) => r.host in names)
  }

  function NamesOf(rows: seq<HostRow>): set<string> {
    set r | r in rows && r.name != "" :: r.name
  }

  function JobHostvars(selected: seq<HostRow>, t: Tables): Hostvars {
    PutTables(BaseHostvars(selected), ForHosts(t, NamesOf(selected)), false)
  }

  // ----- The builders -----

  class Inventory {
    var hostvars: Hostvars
    var groups: Groups

    constructor ()
      ensures hostvars == map[] && groups == map[]
    {
      hostvars, groups := map[], map[];
    }

    method JoinAll(names: seq<string>, host: string)
      modifies this`groups
      ensures groups == JoinGroups(old(groups), names, host)
    {
      var i := 0;
      while i < |names|
        invariant 0 <= i <= |names|
        invariant groups == JoinGroups(old(groups), names[..i], host)
      {
        assert Init(names[..i + 1]) == names[..i];
        var members := Members(groups, names[i]);
        if host !in members {
          members := members + [host];
        }
        groups := groups[names[i] := members];
        i := i + 1;
      }
      assert names[..i] == names;
    }

    method AddHost(r: HostRow)
      modifies this
      ensures hostvars == if r.name == "" then old(hostvars) else old(hostvars)[r.name := BaseVars(r)]
      ensures groups == if r.name == "" then old(groups) else JoinGroups(old(groups), GroupsOf(r), r.name)
    {
      if r.name != "" {
        hostvars := hostvars[r.name := BaseVars(r)];
        JoinRow(r);
      }
    }

    method JoinRow(r: HostRow)
      modifies this`groups
      ensures groups == JoinGroups(old(groups), GroupsOf(r), r.name)
    {
      var names := GroupsOf(r);
      JoinAll(names, r.name);
    }

    method AddHosts(rows: seq<HostRow>)
      requires hostvars == map[] && groups == map[]
      modifies this
      ensures hostvars == BaseHostvars(rows) && groups == BaseGroups(rows)
    {
      var i := 0;
      while i < |rows|
        invariant 0 <= i <= |rows|
        invariant hostvars == BaseHostvars(rows[..i]) && groups == BaseGroups(rows[..i])
      {
        assert Init(rows[..i + 1]) == rows[..i];
        AddHost(rows[i]);
        i := i + 1;
      }
      assert rows[..i] == rows;
    }

    /** for hv in hostvars.values(): hv.setdefault(...), in any order of the hosts. */
    method ApplyGlobal(row: Row)
      modifies this`hostvars
      ensures forall skipBlank :: hostvars == PutRow(old(hostvars), row, AnsibleDefaults, skipBlank)
    {
      if row.field == "" {
        return;
      }
      ghost var before := hostvars;
      var todo := hostvars.Keys;
      while todo != {}
        invariant todo <= before.Keys && hostvars.Keys == before.Keys
        invariant forall h :: h in before ==>
          hostvars[h] == if h in todo then before[h] else PutVar(before[h], row.field, FromRow(AnsibleDefaults, row), Fill)
        decreases |todo|
      {
        var h :| h in todo;
        if row.field !in hostvars[h] {
          hostvars := hostvars[h := hostvars[h][row.field := FromRow(AnsibleDefaults, row)]];
        }
        todo := todo - {h};
      }
    }

    method ApplyGlobals(rows: seq<Row>, ghost skipBlank: bool)
      modifies this`hostvars
      ensures hostvars == PutRows(old(hostvars), rows, AnsibleDefaults, skipBlank)
    {
      var i := 0;
      while i < |rows|
        invariant 0 <= i <= |rows|
        invariant hostvars == PutRows(old(hostvars), rows[..i], AnsibleDefaults, skipBlank)
      {
        assert Init(rows[..i + 1]) == rows[..i];
        ApplyGlobal(rows[i]);
        i := i + 1;
      }
      assert rows[..i] == rows;
    }

    method ApplyRow(r: Row, l: Layer, ghost skipBlank: bool)
      requires !l.AnsibleDefaults? && r.host in hostvars && !(skipBlank && r.field == "")
      modifies this`hostvars
      ensures hostvars == PutRow(old(hostvars), r, l, skipBlank) && hostvars.Keys == old(hostvars).Keys
    {
      if ModeOf(l).Overwrite? || r.field !in hostvars[r.host] {
        hostvars := hostvars[r.host := hostvars[r.host][r.field := FromRow(l, r)]];
      }
    }

    /** One layer of the endpoint: rows of unknown hosts or with a blank field name are skipped. */
    method ApplyLayer(rows: seq<Row>, l: Layer)
      requires !l.AnsibleDefaults?
      modifies this`hostvars
      ensures hostvars == PutRows(old(hostvars), rows, l, true)
    {
      var i := 0;
      while i < |rows|
        invariant 0 <= i <= |rows|
        invariant hostvars == PutRows(old(hostvars), rows[..i], l, true)
      {
        assert Init(rows[..i + 1]) == rows[..i];
        if rows[i].host in hostvars && rows[i].field != "" {
          ApplyRow(rows[i], l, true);
        }
        i := i + 1;
      }
      assert rows[..i] == rows;
    }

    /** One layer of a job run: the rows are filtered to the known hosts, and every one is used. */
    method ApplyJobLayer(rows: seq<Row>, l: Layer)
      requires !l.AnsibleDefaults? && forall r :: r in rows ==> r.host in hostvars
      modifies this`hostvars
      ensures hostvars == PutRows(old(hostvars), rows, l, false) && hostvars.Keys == old(hostvars).Keys
    {
      var i := 0;
      while i < |rows|
        invariant 0 <= i <= |rows| && hostvars.Keys == old(hostvars).Keys
        invariant hostvars == PutRows(old(hostvars), rows[..i], l, false)
      {
        assert Init(rows[..i + 1]) == rows[..i];
        assert rows[i] in rows && rows[i].host in hostvars.Keys;
        ApplyRow(rows[i], l, false);
        i := i + 1;
      }
      assert rows[..i] == rows;
    }

    /** The endpoint's turn of one layer. */
    method Turn(t: Tables, l: Layer)
      modifies this`hostvars
      ensures hostvars == PutRows(old(hostvars), InTurn(t, l), l, true)
    {
      if l.AnsibleDefaults? {
        ApplyGlobals(t(l), true);
      } else {
        ApplyLayer(InTurn(t, l), l);
      }
    }

    /** The job builder's, with the rows of its hosts. */
    method JobTurn(t: Tables, names: set<string>, l: Layer)
      requires hostvars.Keys == names
      modifies this`hostvars
      ensures hostvars == PutRows(old(hostvars), InTurn(ForHosts(t, names), l), l, false) && hostvars.Keys == names
    {
      if l.AnsibleDefaults? {
        RowsKeys(hostvars, t(l), l, false);
        ApplyGlobals(t(l), false);
      } else {
        JobRowsKnown(t, names, l);
        ApplyJobLayer(InTurn(ForHosts(t, names), l), l);
      }
    }
  }

  method BuildFullInventory(rows: seq<HostRow>, t: Tables) returns (inv: Inventory)
    ensures fresh(inv) && inv.hostvars == FullHostvars(rows, t) && inv.groups == BaseGroups(rows)
  {
    inv := new Inventory();
    inv.AddHosts(rows);
    for i := 0 to |LAYERS|
      invariant inv.hostvars == PutLayers(BaseHostvars(rows), t, LAYERS[..i], true) && inv.groups == BaseGroups(rows)
    {
      assert Init(LAYERS[..i + 1]) == LAYERS[..i];
      inv.Turn(t, LAYERS[i]);
    }
    assert LAYERS[..|LAYERS|] == LAYERS;
  }

  method BuildJobInventory(selected: seq<HostRow>, t: Tables) returns (inv: Inventory)
    ensures fresh(inv) && inv.hostvars == JobHostvars(selected, t) && inv.groups == BaseGroups(selected)
  {
    inv := new Inventory();
    inv.AddHosts(selected);
    BaseKeys(selected);
    var u := ForHosts(t, NamesOf(selected));
    for i := 0 to |LAYERS|
      invariant inv.hostvars == PutLayers(BaseHostvars(selected), u, LAYERS[..i], false)
      invariant inv.hostvars.Keys == NamesOf(selected) && inv.groups == BaseGroups(selected)
    {
      assert Init(LAYERS[..i + 1]) == LAYERS[..i];
      inv.JobTurn(t, NamesOf(selected), LAYERS[i]);
    }
    assert LAYERS[..|LAYERS|] == LAYERS;
  }

  lemma {:induction false} BaseKeys(rows: seq<HostRow>)
    ensures BaseHostvars(rows).Keys == NamesOf(rows)
  {
    if rows != [] {
      BaseKeys(Init(rows));
      assert forall r :: r in rows <==> r in Init(rows) || r == Last(rows);
    }
  }

  lemma InTurnMembers(t: Tables, l: Layer)
    ensures forall r :: r in InTurn(t, l) <==> r in t(l)
  {
    HigherFirstIsPreorder();
    SortCorrect(t(l), HigherFirst);
  }

  lemma JobRowsKnown(t: Tables, names: set<string>, l: Layer)
    requires !l.AnsibleDefaults?
    ensures forall r :: r in InTurn(ForHosts(t, names), l) ==> r.host in names
  {
    InTurnMembers(ForHosts(t, names), l);
    assert ForHosts(t, names)(l) == Filter(t(l), (r: Row) => r.host in names);
  }

  // ----- The variables of a host -----

  /** The row whose columns a host name ends up with: the last one that carries the name. */
  function LastNamed(rows: seq<HostRow>, h: string): Option<HostRow> {
    if rows == [] then None else if Last(rows).name == h then Some(Last(rows)) else LastNamed(Init(rows), h)
  }

  lemma {:induction false} BaseOfName(rows: seq<HostRow>, h: string)
    requires h != ""
    ensures Lookup(BaseHostvars(rows), h)
         == if LastNamed(rows, h).None? then None else Some(BaseVars(LastNamed(rows, h).value))
  {
    if rows != [] {
      BaseOfName(Init(rows), h);
    }
  }

  lemma {:induction false} LastNamedExists(rows: seq<HostRow>, h: string)
    ensures LastNamed(rows, h).Some? ==> LastNamed(rows, h).value in rows && LastNamed(rows, h).value.name == h
    ensures LastNamed(rows, h).None? ==> forall r :: r in rows ==> r.name != h
  {
    if rows != [] {
      LastNamedExists(Init(rows), h);
      assert forall r :: r in rows <==> r in Init(rows) || r == Last(rows);
    }
  }

  /** The endpoint's value of a variable is the declared winner over the columns of the last row of that name. */
  lemma FullVariable(rows: seq<HostRow>, t: Tables, h: string, k: string)
    requires h in NamesOf(rows) && k != ""
    ensures LastNamed(rows, h).Some? && h in FullHostvars(rows, t)
    ensures Lookup(FullHostvars(rows, t)[h], k)
         == Winner(InventoryPicks(t, h, k), Lookup(BaseVars(LastNamed(rows, h).value), k))
  {
    LastNamedExists(rows, h);
    BaseOfName(rows, h);
    ClosedForm(BaseHostvars(rows), t, true, h, k);
  }

  lemma {:induction false} WritersAlike(p: Picks, q: Picks, layers: seq<Layer>)
    requires forall l :: p(l) == q(l)
    ensures Writer(p, layers) == Writer(q, layers) && Filler(p, layers) == Filler(q, layers)
  {
    if layers != [] {
      WritersAlike(p, q, Init(layers));
    }
  }

  lemma WinnersAlike(p: Picks, q: Picks, base: Option<Source>)
    requires forall l :: p(l) == q(l)
    ensures Winner(p, base) == Winner(q, base) && Deciding(p, base.Some?) == Deciding(q, base.Some?)
  {
    WritersAlike(p, q, LAYERS);
  }

  lemma {:induction false} FilterForHost(rows: seq<Row>, names: set<string>, l: Layer, h: string, k: string)
    requires h in names && !l.AnsibleDefaults?
    ensures Filter(Filter(rows, (r: Row) => r.host in names), About(l, h, k)) == Filter(rows, About(l, h, k))
  {
    if rows != [] {
      FilterForHost(Init(rows), names, l, h, k);
      var kept := Filter(rows, (r: Row) => r.host in names);
      assert Last(rows).host in names ==> Init(kept) == Filter(Init(rows), (r: Row) => r.host in names);
    }
  }

  lemma ForHostsCandidates(t: Tables, names: set<string>, l: Layer, h: string, k: string)
    requires h in names
    ensures Candidates(ForHosts(t, names), l, h, k) == Candidates(t, l, h, k)
  {
    if !l.AnsibleDefaults? {
      FilterForHost(t(l), names, l, h, k);
    }
  }

  /** So is the job run's, over the selected rows, although it filters before it sorts. */
  lemma JobVariable(selected: seq<HostRow>, t: Tables, h: string, k: string)
    requires h in NamesOf(selected) && k != ""
    ensures LastNamed(selected, h).Some? && h in JobHostvars(selected, t)
    ensures Lookup(JobHostvars(selected, t)[h], k)
         == Winner(InventoryPicks(t, h, k), Lookup(BaseVars(LastNamed(selected, h).value), k))
  {
    LastNamedExists(selected, h);
    BaseOfName(selected, h);
    var base, u := BaseHostvars(selected), ForHosts(t, NamesOf(selected));
    ClosedForm(base, u, false, h, k);
    forall l ensures InventoryPicks(u, h, k)(l) == InventoryPicks(t, h, k)(l) {
      ForHostsCandidates(t, NamesOf(selected), l, h, k);
    }
    WinnersAlike(InventoryPicks(u, h, k), InventoryPicks(t, h, k), Lookup(base[h], k));
  }

  // ----- A blank field name -----

  ghost predicate BlankIn(t: Tables, l: Layer, h: string) { !l.AnsibleDefaults? && Candidates(t, l, h, "") != [] }

  /** Some layer has a row for this host whose field name is empty. */
  ghost predicate HasBlank(t: Tables, h: string) { exists l :: BlankIn(t, l, h) }

  lemma EndOfNothing(t: Tables, l: Layer, h: string, k: string)
    ensures Filter(InTurn(t, l), About(l, h, k)) == [] <==> Candidates(t, l, h, k) == []
  {
    InTurnMembers(t, l);
    var a, b := Filter(InTurn(t, l), About(l, h, k)), Candidates(t, l, h, k);
    assert forall r :: r in a <==> r in b;
    assert a != [] ==> a[0] in a;
    assert b != [] ==> b[0] in b;
  }

  lemma {:induction false} BlankLayers(hv: Hostvars, t: Tables, layers: seq<Layer>, skipBlank: bool, h: string)
    requires h in hv
    ensures h in PutLayers(hv, t, layers, skipBlank)
    ensures "" in PutLayers(hv, t, layers, skipBlank)[h]
       <==> "" in hv[h] || (!skipBlank && BlankAmong(t, layers, h))
  {
    if layers != [] {
      var l := Last(layers);
      BlankLayers(hv, t, Init(layers), skipBlank, h);
      LayerResult(PutLayers(hv, t, Init(layers), skipBlank), InTurn(t, l), l, skipBlank, h, "");
      EndOfNothing(t, l, h, "");
      OneMoreLayer(t, layers, h);
    }
  }

  ghost predicate BlankAmong(t: Tables, layers: seq<Layer>, h: string) { exists l :: l in layers && BlankIn(t, l, h) }

  lemma OneMoreLayer(t: Tables, layers: seq<Layer>, h: string)
    requires layers != []
    ensures BlankAmong(t, layers, h) <==> BlankAmong(t, Init(layers), h) || BlankIn(t, Last(layers), h)
  {
    assert forall m :: m in layers <==> m in Init(layers) || m == Last(layers);
  }

  lemma BaseHasNoBlank(rows: seq<HostRow>, h: string)
    requires h in NamesOf(rows)
    ensures h in BaseHostvars(rows) && "" !in BaseHostvars(rows)[h]
  {
    LastNamedExists(rows, h);
    BaseOfName(rows, h);
    ShortIsNoColumn("");
  }

  lemma BlankInFull(rows: seq<HostRow>, t: Tables, h: string)
    requires h in NamesOf(rows)
    ensures h in FullHostvars(rows, t) && "" !in FullHostvars(rows, t)[h]
  {
    BaseHasNoBlank(rows, h);
    BlankLayers(BaseHostvars(rows), t, LAYERS, true, h);
  }

  lemma BlankInJob(selected: seq<HostRow>, u: Tables, h: string)
    requires h in NamesOf(selected)
    ensures h in JobHostvars(selected, u) && ("" in JobHostvars(selected, u)[h] <==> HasBlank(u, h))
  {
    BaseHasNoBlank(selected, h);
    BlankLayers(BaseHostvars(selected), ForHosts(u, NamesOf(selected)), LAYERS, false, h);
    BlankAnywhere(u, NamesOf(selected), h);
  }

  lemma BlankAnywhere(u: Tables, names: set<string>, h: string)
    requires h in names
    ensures BlankAmong(ForHosts(u, names), LAYERS, h) <==> HasBlank(u, h)
  {
    forall l ensures l in LAYERS && (BlankIn(ForHosts(u, names), l, h) <==> BlankIn(u, l, h)) {
      SameBlankIn(u, names, l, h);
    }
  }

  lemma SameBlankIn(u: Tables, names: set<string>, l: Layer, h: string)
    requires h in names
    ensures l in LAYERS && (BlankIn(ForHosts(u, names), l, h) <==> BlankIn(u, l, h))
  {
    ForHostsCandidates(u, names, l, h, "");
    EveryLayer(l);
  }

  lemma BlankVariable(rows: seq<HostRow>, selected: seq<HostRow>, t: Tables, u: Tables, h: string)
    requires h in NamesOf(rows) && h in NamesOf(selected)
    ensures h in FullHostvars(rows, t) && "" !in FullHostvars(rows, t)[h]
    ensures h in JobHostvars(selected, u) && ("" in JobHostvars(selected, u)[h] <==> HasBlank(u, h))
  {
    BlankInFull(rows, t, h);
    BlankInJob(selected, u, h);
  }

  // ----- The order of the rows -----

  ghost predicate DistinctPriorities(rows: seq<Row>) {
    forall i, j :: 0 <= i < j < |rows| ==> Effective(rows[i].priority) != Effective(rows[j].priority)
  }

  /** No two of these rows compete with equal right. */
  ghost predicate NoTie(l: Layer, rows: seq<Row>) { if ByRole(l) then DistinctPriorities(rows) else |rows| <= 1 }

  lemma PickOrderFree(l: Layer, a: seq<Row>, b: seq<Row>)
    requires multiset(a) == multiset(b) && NoTie(l, a)
    ensures Pick(l, a) == Pick(l, b)
  {
    SameElements(a, b);
    if !ByRole(l) {
      AtMostOne(b, a);
    } else if a != [] {
      SameExtremes(a, b);
    }
  }

  lemma SameExtremes(a: seq<Row>, b: seq<Row>)
    requires multiset(a) == multiset(b) && DistinctPriorities(a) && a != [] && b != []
    ensures a[LeastIndex(a)] == b[LeastIndex(b)] && a[GreatestIndex(a)] == b[GreatestIndex(b)]
  {
    SameElements(a, b);
    SameRow(a, b, LeastIndex(a), LeastIndex(b));
    SameRow(a, b, GreatestIndex(a), GreatestIndex(b));
  }

  ghost predicate IsLeast(rows: seq<Row>, i: nat) {
    i < |rows| && forall m :: 0 <= m < |rows| ==> Effective(rows[i].priority) <= Effective(rows[m].priority)
  }

  ghost predicate IsGreatest(rows: seq<Row>, i: nat) {
    i < |rows| && forall m :: 0 <= m < |rows| ==> Effective(rows[i].priority) >= Effective(rows[m].priority)
  }

  lemma SameRow(a: seq<Row>, b: seq<Row>, i: nat, j: nat)
    requires multiset(a) == multiset(b) && DistinctPriorities(a)
    requires (IsLeast(a, i) && IsLeast(b, j)) || (IsGreatest(a, i) && IsGreatest(b, j))
    ensures a[i] == b[j]
  {
    SameElements(a, b);
    assert a[i] in b && b[j] in a;
    var m :| 0 <= m < |a| && a[m] == b[j];
    var n :| 0 <= n < |b| && b[n] == a[i];
    assert Effective(a[i].priority) == Effective(a[m].priority);
  }

  /** The two builders' queries return the same rows. */
  ghost predicate SameRows(t: Tables, u: Tables) { forall l :: multiset(t(l)) == multiset(u(l)) }

  ghost predicate OrderSettled(t: Tables, u: Tables, l: Layer, h: string, k: string) {
    t(l) == u(l) || NoTie(l, Candidates(t, l, h, k))
  }

  /** They return them in the same order, or the order cannot matter for this host. */
  ghost predicate OrderFree(t: Tables, u: Tables, h: string) { forall l, k :: OrderSettled(t, u, l, h, k) }

  lemma SameCandidates(t: Tables, u: Tables, l: Layer, h: string, k: string)
    requires SameRows(t, u)
    ensures multiset(Candidates(t, l, h, k)) == multiset(Candidates(u, l, h, k))
  {
    assert multiset(t(l)) == multiset(u(l));
    forall x ensures multiset(Candidates(t, l, h, k))[x] == multiset(Candidates(u, l, h, k))[x] {
      FilterCount(t(l), About(l, h, k), x);
      FilterCount(u(l), About(l, h, k), x);
    }
  }

  lemma PicksOrderFree(t: Tables, u: Tables, base: Option<Source>, h: string, k: string)
    requires SameRows(t, u) && OrderFree(t, u, h)
    ensures Winner(InventoryPicks(t, h, k), base) == Winner(InventoryPicks(u, h, k), base)
  {
    forall l ensures InventoryPicks(t, h, k)(l) == InventoryPicks(u, h, k)(l) {
      assert OrderSettled(t, u, l, h, k);
      SameCandidates(t, u, l, h, k);
      if NoTie(l, Candidates(t, l, h, k)) {
        PickOrderFree(l, Candidates(t, l, h, k), Candidates(u, l, h, k));
      }
    }
    WinnersAlike(InventoryPicks(t, h, k), InventoryPicks(u, h, k), base);
  }

  lemma SameBlank(t: Tables, u: Tables, h: string)
    requires SameRows(t, u)
    ensures HasBlank(t, h) <==> HasBlank(u, h)
  {
    forall l ensures BlankIn(t, l, h) <==> BlankIn(u, l, h) {
      SameCandidates(t, u, l, h, "");
      SameElements(Candidates(t, l, h, ""), Candidates(u, l, h, ""));
    }
  }

  // ----- The projection -----

  /** Some layer that overwrites has a row for the host and variable. */
  ghost predicate Overwritten(t: Tables, h: string, k: string) {
    exists l :: ModeOf(l).Overwrite? && Candidates(t, l, h, k) != []
  }

  /** A layer overwrites every column that tells the two rows apart. */
  ghost predicate SameColumns(t: Tables, h: string, a: HostRow, b: HostRow) {
    forall k :: k in BASE_KEYS ==> Column(a, k) == Column(b, k) || Overwritten(t, h, k)
  }

  lemma BaseMatters(t: Tables, h: string, k: string, a: Source, b: Source)
    requires a != b && a.Base? && b.Base?
    ensures Winner(InventoryPicks(t, h, k), Some(a)) == Winner(InventoryPicks(t, h, k), Some(b))
       <==> Overwritten(t, h, k)
  {
    OverwrittenDecides(t, h, k);
  }

  lemma PickIsRow(t: Tables, l: Layer, h: string, k: string)
    ensures var p := InventoryPicks(t, h, k)(l);
      (p.Some? <==> Candidates(t, l, h, k) != []) && (p.Some? ==> p.value.FromRow? && p.value.layer == l)
  {
  }

  lemma OverwrittenDecides(t: Tables, h: string, k: string)
    ensures var picks := InventoryPicks(t, h, k);
      var d := Deciding(picks, true);
      (d.Some? <==> Overwritten(t, h, k)) && (d.Some? ==> picks(d.value).Some?)
  {
    var picks := InventoryPicks(t, h, k);
    DecidingDecides(picks, true);
    forall l ensures picks(l).Some? <==> Candidates(t, l, h, k) != [] {
      PickIsRow(t, l, h, k);
    }
  }

  lemma SameVariable(t: Tables, h: string, k: string, a: HostRow, b: HostRow)
    ensures Winner(InventoryPicks(t, h, k), Lookup(BaseVars(a), k)) == Winner(InventoryPicks(t, h, k), Lookup(BaseVars(b), k))
       <==> k !in BASE_KEYS || Column(a, k) == Column(b, k) || Overwritten(t, h, k)
  {
    if k in BASE_KEYS && Column(a, k) != Column(b, k) {
      BaseMatters(t, h, k, Base(k, Column(a, k)), Base(k, Column(b, k)));
    }
  }

  lemma ShortIsNoColumn(k: string)
    requires |k| <= 1
    ensures k !in BASE_KEYS
  {
  }

  lemma SameLookups(a: Vars, b: Vars)
    requires forall k :: Lookup(a, k) == Lookup(b, k)
    ensures a == b
  {
    forall k ensures k in a <==> k in b {
      assert Lookup(a, k) == Lookup(b, k);
    }
    forall k | k in a ensures a[k] == b[k] {
      assert Lookup(a, k) == Lookup(b, k);
    }
  }

  /** Whatever rows the two builders start from, a host they share has the same variables exactly when no layer
      has a row for it with an empty field name (which the endpoint drops and the job builder keeps), and a layer
      overwrites every column that tells the two last rows of that name apart. */
  lemma SameVarsExactly(rows: seq<HostRow>, selected: seq<HostRow>, t: Tables, u: Tables, h: string)
    requires h in NamesOf(rows) && h in NamesOf(selected) && SameRows(t, u) && OrderFree(t, u, h)
    ensures LastNamed(rows, h).Some? && LastNamed(selected, h).Some?
    ensures h in JobHostvars(selected, u) && h in FullHostvars(rows, t)
    ensures JobHostvars(selected, u)[h] == FullHostvars(rows, t)[h]
       <==> !HasBlank(t, h) && SameColumns(t, h, LastNamed(rows, h).value, LastNamed(selected, h).value)
  {
    LastNamedExists(rows, h);
    LastNamedExists(selected, h);
    BlankVariable(rows, selected, t, u, h);
    SameBlank(t, u, h);
    ShortIsNoColumn("");
    var a, b := LastNamed(rows, h).value, LastNamed(selected, h).value;
    var job, full := JobHostvars(selected, u)[h], FullHostvars(rows, t)[h];
    forall k | k != ""
      ensures Lookup(job, k) == Lookup(full, k)
         <==> k !in BASE_KEYS || Column(a, k) == Column(b, k) || Overwritten(t, h, k)
    {
      JobVariable(selected, u, h, k);
      FullVariable(rows, t, h, k);
      PicksOrderFree(t, u, Lookup(BaseVars(b), k), h, k);
      SameVariable(t, h, k, a, b);
    }
    if !HasBlank(t, h) && SameColumns(t, h, a, b) {
      SameLookups(job, full);
    }
  }

  /** The projection.  The job's rows are the selected ones of the endpoint's rows, in an order of their own. */
  lemma HostProjection(rows: seq<HostRow>, selects: HostRow -> bool, selected: seq<HostRow>, t: Tables, u: Tables, h: string)
    requires multiset(selected) == multiset(Filter(rows, selects)) && h in NamesOf(selected)
    requires SameRows(t, u) && OrderFree(t, u, h)
    ensures LastNamed(rows, h).Some? && LastNamed(selected, h).Some?
    ensures h in JobHostvars(selected, u) && h in FullHostvars(rows, t)
    ensures JobHostvars(selected, u)[h] == FullHostvars(rows, t)[h]
       <==> !HasBlank(t, h) && SameColumns(t, h, LastNamed(rows, h).value, LastNamed(selected, h).value)
    ensures (forall r, s :: r in rows && s in rows && r.name == h && s.name == h ==> r == s)
            ==> (JobHostvars(selected, u)[h] == FullHostvars(rows, t)[h] <==> !HasBlank(t, h))
  {
    SameElements(selected, Filter(rows, selects));
    LastNamedExists(rows, h);
    LastNamedExists(selected, h);
    SameVarsExactly(rows, selected, t, u, h);
  }

  // ----- The groups -----

  lemma {:induction false} JoinMembers(groups: Groups, joins: seq<string>, host: string, g: string, n: string)
    ensures n in Members(JoinGroups(groups, joins, host), g) <==> n in Members(groups, g) || (n == host && g in joins)
  {
    if joins != [] {
      JoinMembers(groups, Init(joins), host, g, n);
      assert g in joins <==> g in Init(joins) || g == Last(joins);
    }
  }

  ghost predicate RowIn(rows: seq<HostRow>, n: string, g: string) {
    exists r :: r in rows && r.name == n && n != "" && g in GroupsOf(r)
  }

  /** The members of a group are the names of the rows that ask for it. */
  lemma {:induction false} GroupMembers(rows: seq<HostRow>, g: string, n: string)
    ensures n in Members(BaseGroups(rows), g) <==> RowIn(rows, n, g)
  {
    if rows != [] {
      GroupMembers(Init(rows), g, n);
      assert forall r :: r in rows <==> r in Init(rows) || r == Last(rows);
      if Last(rows).name != "" {
        JoinMembers(BaseGroups(Init(rows)), GroupsOf(Last(rows)), Last(rows).name, g, n);
      }
    }
  }

  lemma {:induction false} JoinDistinct(groups: Groups, joins: seq<string>, host: string)
    requires forall g :: Distinct(Members(groups, g))
    ensures forall g :: Distinct(Members(JoinGroups(groups, joins, host), g))
  {
    if joins != [] {
      JoinDistinct(groups, Init(joins), host);
      var before := JoinGroups(groups, Init(joins), host);
      forall g ensures Distinct(Members(AddMember(before, Last(joins), host), g)) {
        assert Distinct(Members(before, g));
      }
    }
  }

  lemma {:induction false} NoRepeatedMember(rows: seq<HostRow>)
    ensures forall g :: Distinct(Members(BaseGroups(rows), g))
  {
    if rows != [] {
      NoRepeatedMember(Init(rows));
      JoinDistinct(BaseGroups(Init(rows)), GroupsOf(Last(rows)), Last(rows).name);
    }
  }

  /** One group is the other cut down to these names. */
  ghost predicate CutTo(small: seq<string>, large: seq<string>, names: set<string>) {
    forall n :: n in small <==> n in large && n in names
  }

  /** Every selected name that stands in the group through an unselected row also does through a selected one. */
  ghost predicate Covered(rows: seq<HostRow>, selects: HostRow -> bool, names: set<string>, g: string) {
    forall r :: r in rows && !selects(r) && r.name in names && g in GroupsOf(r)
      ==> exists s :: s in rows && selects(s) && s.name == r.name && g in GroupsOf(s)
  }

  /** The hosts of a job run are the selected names; no group lists a host twice; and a group is the endpoint's
      group cut down to those names exactly when every name that stands in the endpoint's group through an
      unselected row also stands in it through a selected one. */
  lemma GroupProjection(rows: seq<HostRow>, selects: HostRow -> bool, selected: seq<HostRow>, u: Tables, g: string)
    requires multiset(selected) == multiset(Filter(rows, selects))
    ensures JobHostvars(selected, u).Keys == NamesOf(selected)
    ensures Distinct(Members(BaseGroups(selected), g)) && Distinct(Members(BaseGroups(rows), g))
    ensures CutTo(Members(BaseGroups(selected), g), Members(BaseGroups(rows), g), NamesOf(selected))
       <==> Covered(rows, selects, NamesOf(selected), g)
  {
    BaseKeys(selected);
    LayersKeys(BaseHostvars(selected), ForHosts(u, NamesOf(selected)), LAYERS, false);
    NoRepeatedMember(rows);
    NoRepeatedMember(selected);
    SameElements(selected, Filter(rows, selects));
    CutDown(rows, selects, selected, g);
  }

  lemma CutDown(rows: seq<HostRow>, selects: HostRow -> bool, selected: seq<HostRow>, g: string)
    requires forall r :: r in selected <==> r in rows && selects(r)
    ensures CutTo(Members(BaseGroups(selected), g), Members(BaseGroups(rows), g), NamesOf(selected))
       <==> Covered(rows, selects, NamesOf(selected), g)
  {
    forall n
      ensures n in Members(BaseGroups(selected), g) <==> RowIn(selected, n, g)
      ensures n in Members(BaseGroups(rows), g) <==> RowIn(rows, n, g)
    {
      GroupMembers(selected, g, n);
      GroupMembers(rows, g, n);
    }
    RowsCutDown(rows, selects, selected, g);
  }

  lemma RowsCutDown(rows: seq<HostRow>, selects: HostRow -> bool, selected: seq<HostRow>, g: string)
    requires forall r :: r in selected <==> r in rows && selects(r)
    ensures (forall n :: RowIn(selected, n, g) <==> RowIn(rows, n, g) && n in NamesOf(selected))
       <==> Covered(rows, selects, NamesOf(selected), g)
  {
    if forall n :: RowIn(selected, n, g) <==> RowIn(rows, n, g) && n in NamesOf(selected) {
      forall r | r in rows && !selects(r) && r.name in NamesOf(selected) && g in GroupsOf(r)
        ensures exists s :: s in rows && selects(s) && s.name == r.name && g in GroupsOf(s)
      {
        assert RowIn(rows, r.name, g);
        assert RowIn(selected, r.name, g);
      }
    } else {
      var n :| !(RowIn(selected, n, g) <==> RowIn(rows, n, g) && n in NamesOf(selected));
      var r :| r in rows && r.name == n && n != "" && g in GroupsOf(r);
      assert !selects(r) && r.name in NamesOf(selected);
    }
  }

  // ----- Where the two differ -----

  const NO_ROWS: Tables := (l: Layer) => []

  function Named(id: nat, name: string): HostRow { HostRow(id, name, map[]) }

  lemma NoRowsOrderFree(h: string)
    ensures SameRows(NO_ROWS, NO_ROWS) && OrderFree(NO_ROWS, NO_ROWS, h)
    ensures !HasBlank(NO_ROWS, h) && forall k :: !Overwritten(NO_ROWS, h, k)
  {
    forall l, k ensures Candidates(NO_ROWS, l, h, k) == [] {
    }
  }

  /** A row with an empty field name: the job run has one variable more. */
  lemma BlankFieldDiffers() returns (rows: seq<HostRow>, t: Tables)
    ensures var h := "web";
      && h in JobHostvars(rows, t) && h in FullHostvars(rows, t) && JobHostvars(rows, t)[h] != FullHostvars(rows, t)[h]
  {
    rows := [Named(1, "web")];
    t := (l: Layer) => if l.AppDefaults? then [Row("web", "", "x", 0)] else [];
    assert rows[0] in rows;
    BlankVariable(rows, rows, t, t, "web");
    assert Row("web", "", "x", 0) in t(AppDefaults);
    assert Row("web", "", "x", 0) in Candidates(t, AppDefaults, "web", "");
    assert BlankIn(t, AppDefaults, "web");
  }

  /** Two hosts of one name, of which the endpoint's last is not selected. */
  lemma UnselectedLastRowDiffers() returns (rows: seq<HostRow>, selects: HostRow -> bool)
    ensures var h, job := "web", Filter(rows, selects);
      && h in JobHostvars(job, NO_ROWS) && h in FullHostvars(rows, NO_ROWS)
      && JobHostvars(job, NO_ROWS)[h] != FullHostvars(rows, NO_ROWS)[h]
  {
    var a, b := Named(1, "web"), Named(2, "web");
    rows, selects := [a, b], (r: HostRow) => r.id == 1;
    assert Init(rows) == [a] && Init([a]) == [] && Filter([], selects) == [];
    assert Filter([a], selects) == [a];
    TwoRowsDiffer(rows, [a]);
  }

  /** Two hosts of one name, both selected: the endpoint's query has no order, the job's sorts by name and id. */
  lemma RowOrderDiffers() returns (rows: seq<HostRow>, selected: seq<HostRow>)
    ensures var h := "web";
      && multiset(selected) == multiset(rows) && h in JobHostvars(selected, NO_ROWS) && h in FullHostvars(rows, NO_ROWS)
      && JobHostvars(selected, NO_ROWS)[h] != FullHostvars(rows, NO_ROWS)[h]
  {
    rows, selected := [Named(5, "web"), Named(2, "web")], [Named(2, "web"), Named(5, "web")];
    TwoRowsDiffer(rows, selected);
  }

  lemma TwoRowsDiffer(rows: seq<HostRow>, selected: seq<HostRow>)
    requires rows != [] && selected != [] && Last(rows).name == "web" && Last(selected).name == "web"
    requires Last(rows).id != Last(selected).id
    ensures "web" in JobHostvars(selected, NO_ROWS) && "web" in FullHostvars(rows, NO_ROWS)
    ensures JobHostvars(selected, NO_ROWS)["web"] != FullHostvars(rows, NO_ROWS)["web"]
  {
    assert Last(rows) in rows && Last(selected) in selected;
    NoRowsOrderFree("web");
    SameVarsExactly(rows, selected, NO_ROWS, NO_ROWS, "web");
    IdIsColumn();
    assert Column(Last(rows), "inventory_id") != Column(Last(selected), "inventory_id");
  }

  lemma IdIsColumn()
    ensures "inventory_id" in BASE_KEYS
  {
    assert BASE_KEYS[1] == "inventory_id";
  }

  /** The members of a group can come in another order. */
  lemma GroupOrderDiffers() returns (rows: seq<HostRow>, selected: seq<HostRow>, g: string)
    ensures multiset(selected) == multiset(rows)
    ensures Members(BaseGroups(rows), g) == ["b", "a"] && Members(BaseGroups(selected), g) == ["a", "b"]
  {
    var a := Typed(2, "a", "vm");
    var b := Typed(1, "b", "vm");
    rows, selected, g := [b, a], [a, b], InventoryGroup("type", "vm");
    OneGroup(b, a, g);
    OneGroup(a, b, g);
  }

  lemma Typed(id: nat, name: string, raw: string) returns (r: HostRow)
    ensures r.id == id && r.name == name && GroupsOf(r) == [InventoryGroup("type", raw)]
  {
    r := HostRow(id, name, map["type" := Str(raw)]);
    OnlyType(r, raw);
  }

  lemma OnlyType(r: HostRow, raw: string)
    requires r.columns == map["type" := Str(raw)]
    ensures GroupsOf(r) == [InventoryGroup("type", raw)]
  {
    assert Cell(r, "type") == Str(raw);
    assert Cell(r, "env") == Null && Cell(r, "role") == Null && Cell(r, "vlan_id") == Null && Cell(r, "k3s_cluster") == Null;
    assert Cell(r, "status") == Null && Cell(r, "vm_storage_os_datastore") == Null;
    assert Cell(r, "vm_storage_hdd01_datastore") == Null && Cell(r, "apps") == Null;
  }

  lemma OneGroup(first: HostRow, second: HostRow, g: string)
    requires GroupsOf(first) == [g] && GroupsOf(second) == [g] && first.name != second.name
    requires first.name != "" && second.name != ""
    ensures Members(BaseGroups([first, second]), g) == [first.name, second.name]
  {
    assert Init([first, second]) == [first] && Init([first]) == [] && Init([g]) == [];
    assert BaseGroups([]) == map[];
    assert JoinGroups(map[], [g], first.name) == AddMember(map[], g, first.name);
    var one := BaseGroups([first]);
    assert Members(one, g) == [first.name];
    assert JoinGroups(one, [g], second.name) == AddMember(one, g, second.name);
  }
}
