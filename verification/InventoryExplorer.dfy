/** The inventory explorer: the lineage of every variable of one host, and exactly when it agrees with the
    inventory. */
module InventoryExplorer {
  import opened Prelude
  import opened Precedence
  import opened InventoryBuilders

  datatype Entry = Entry(src: Source, applied: bool)

  datatype View = View(entries: map<string, seq<Entry>>, current: map<string, Entry>)

  const EMPTY := View(map[], map[])

  function EntriesOf(v: View, k: string): seq<Entry> {
    if k in v.entries then v.entries[k] else []
  }

  function CurrentSource(v: View, k: string): Option<Source> {
    if k in v.current then Some(v.current[k].src) else None
  }

  function Append(v: View, key: string, src: Source, mode: Mode): View {
    var applied := mode.Overwrite? || key !in v.current;
    var entry := Entry(src, applied);
    View(v.entries[key := EntriesOf(v, key) + [entry]], if applied then v.current[key := entry] else v.current)
  }

  function AppendBase(v: View, host: HostRow, keys: seq<string>): View {
    if keys == [] then v
    else Append(AppendBase(v, host, Init(keys)), Last(keys), Base(Last(keys), Column(host, Last(keys))), Overwrite)
  }

  function AppendRows(v: View, rows: seq<Row>, l: Layer): View {
    if rows == [] then v
    else Append(AppendRows(v, Init(rows), l), Last(rows).field, FromRow(l, Last(rows)), ModeOf(l))
  }

  function AppendLayers(v: View, e: Tables, layers: seq<Layer>): View {
    if layers == [] then v
    else AppendRows(AppendLayers(v, e, Init(layers)), e(Last(layers)), Last(layers))
  }

  /** The explorer of one host; e holds that host's rows of every layer, in the order the queries return them. */
  function Explore(host: HostRow, e: Tables): View {
    AppendLayers(AppendBase(EMPTY, host, BASE_KEYS), e, LAYERS)
  }

  class Lineage {
    var entries: map<string, seq<Entry>>
    var current: map<string, Entry>

    ghost function State(): View reads this { View(entries, current) }

    constructor ()
      ensures State() == EMPTY
    {
      entries, current := map[], map[];
    }

    method AppendLineage(key: string, src: Source, mode: Mode)
      modifies this
      ensures State() == Append(old(State()), key, src, mode)
      ensures Faithful(old(State())) ==> Faithful(State())
    {
      if Faithful(State()) {
        AppendFaithful(State(), key, src, mode);
      }
      var entry := Entry(src, mode.Overwrite? || key !in current);
      var known := if key in entries then entries[key] else [];
      entries := entries[key := known + [entry]];
      if entry.applied {
        current := current[key := entry];
      }
    }

    method AppendLayer(rows: seq<Row>, l: Layer)
      modifies this
      ensures State() == AppendRows(old(State()), rows, l)
    {
      var i := 0;
      while i < |rows|
        invariant 0 <= i <= |rows|
        invariant State() == AppendRows(old(State()), rows[..i], l)
      {
        assert Init(rows[..i + 1]) == rows[..i];
        AppendLineage(rows[i].field, FromRow(l, rows[i]), ModeOf(l));
        i := i + 1;
      }
      assert rows[..i] == rows;
    }

    method AppendColumns(host: HostRow, keys: seq<string>)
      modifies this
      ensures State() == AppendBase(old(State()), host, keys)
    {
      var i := 0;
      while i < |keys|
        invariant 0 <= i <= |keys|
        invariant State() == AppendBase(old(State()), host, keys[..i])
      {
        assert Init(keys[..i + 1]) == keys[..i];
        AppendLineage(keys[i], Base(keys[i], Column(host, keys[i])), Overwrite);
        i := i + 1;
      }
      assert keys[..i] == keys;
    }
  }

  method BuildExplorer(host: HostRow, e: Tables) returns (lineage: Lineage)
    ensures fresh(lineage) && lineage.State() == Explore(host, e)
  {
    lineage := new Lineage();
    lineage.AppendColumns(host, BASE_KEYS);
    for i := 0 to |LAYERS|
      invariant lineage.State() == AppendLayers(AppendBase(EMPTY, host, BASE_KEYS), e, LAYERS[..i])
    {
      assert Init(LAYERS[..i + 1]) == LAYERS[..i];
      lineage.AppendLayer(e(LAYERS[i]), LAYERS[i]);
    }
    assert LAYERS[..|LAYERS|] == LAYERS;
  }

  // ----- The lineage names its current entry and lists everything -----

  function LastApplied(entries: seq<Entry>): Option<Entry> {
    if entries == [] then None else if Last(entries).applied then Some(Last(entries)) else LastApplied(Init(entries))
  }

  /** Every variable with a lineage has a current entry, and it is the last one marked applied. */
  ghost predicate Faithful(v: View) {
    && v.current.Keys == v.entries.Keys
    && forall k :: k in v.entries ==> LastApplied(v.entries[k]) == Some(v.current[k])
  }

  lemma AppendFaithful(v: View, key: string, src: Source, mode: Mode)
    requires Faithful(v)
    ensures Faithful(Append(v, key, src, mode))
  {
    var w, known := Append(v, key, src, mode), EntriesOf(v, key);
    assert Init(w.entries[key]) == known;
    assert known != [] ==> key in v.entries;
    assert w.current.Keys == w.entries.Keys;
  }

  lemma {:induction false} RowsFaithful(v: View, rows: seq<Row>, l: Layer)
    requires Faithful(v)
    ensures Faithful(AppendRows(v, rows, l))
  {
    if rows != [] {
      RowsFaithful(v, Init(rows), l);
      AppendFaithful(AppendRows(v, Init(rows), l), Last(rows).field, FromRow(l, Last(rows)), ModeOf(l));
    }
  }

  lemma {:induction false} BaseFaithful(v: View, host: HostRow, keys: seq<string>)
    requires Faithful(v)
    ensures Faithful(AppendBase(v, host, keys))
  {
    if keys != [] {
      BaseFaithful(v, host, Init(keys));
      AppendFaithful(AppendBase(v, host, Init(keys)), Last(keys), Base(Last(keys), Column(host, Last(keys))), Overwrite);
    }
  }

  lemma {:induction false} LayersFaithful(v: View, e: Tables, layers: seq<Layer>)
    requires Faithful(v)
    ensures Faithful(AppendLayers(v, e, layers))
  {
    if layers != [] {
      LayersFaithful(v, e, Init(layers));
      RowsFaithful(AppendLayers(v, e, Init(layers)), e(Last(layers)), Last(layers));
    }
  }

  lemma ExplorerFaithful(host: HostRow, e: Tables)
    ensures Faithful(Explore(host, e))
  {
    BaseFaithful(EMPTY, host, BASE_KEYS);
    LayersFaithful(AppendBase(EMPTY, host, BASE_KEYS), e, LAYERS);
  }

  function Sources(v: View, k: string): seq<Source> { Map(EntriesOf(v, k), (x: Entry) => x.src) }

  function HasField(k: string): Row -> bool { (r: Row) => r.field == k }

  function Taken(l: Layer): Row -> Source { (r: Row) => FromRow(l, r) }

  /** The rows about a variable, layer by layer. */
  function Supply(e: Tables, layers: seq<Layer>, k: string): seq<Source> {
    if layers == [] then []
    else Supply(e, Init(layers), k) + Map(Filter(e(Last(layers)), HasField(k)), Taken(Last(layers)))
  }

  lemma AppendSources(v: View, key: string, src: Source, mode: Mode, k: string)
    ensures Sources(Append(v, key, src, mode), k) == Sources(v, k) + if k == key then [src] else []
  {
  }

  lemma {:induction false} RowsSources(v: View, rows: seq<Row>, l: Layer, k: string)
    ensures Sources(AppendRows(v, rows, l), k) == Sources(v, k) + Map(Filter(rows, HasField(k)), Taken(l))
  {
    if rows != [] {
      RowsSources(v, Init(rows), l, k);
      AppendSources(AppendRows(v, Init(rows), l), Last(rows).field, FromRow(l, Last(rows)), ModeOf(l), k);
      var front := Map(Filter(Init(rows), HasField(k)), Taken(l));
      var more := if Last(rows).field == k then [FromRow(l, Last(rows))] else [];
      assert Map(Filter(rows, HasField(k)), Taken(l)) == front + more;
      Regroup(Sources(v, k), front, more);
    }
  }

  lemma Regroup(a: seq<Source>, b: seq<Source>, c: seq<Source>)
    ensures (a + b) + c == a + (b + c)
  {
  }

  lemma {:induction false} LayersSources(v: View, e: Tables, layers: seq<Layer>, k: string)
    ensures Sources(AppendLayers(v, e, layers), k) == Sources(v, k) + Supply(e, layers, k)
  {
    if layers != [] {
      LayersSources(v, e, Init(layers), k);
      RowsSources(AppendLayers(v, e, Init(layers)), e(Last(layers)), Last(layers), k);
      Regroup(Sources(v, k), Supply(e, Init(layers), k), Map(Filter(e(Last(layers)), HasField(k)), Taken(Last(layers))));
    }
  }

  /** The columns of that name; no two are named alike. */
  function OwnColumns(host: HostRow, keys: seq<string>, k: string): seq<Source> {
    Map(Filter(keys, (x: string) => x == k), (x: string) => Base(x, Column(host, x)))
  }

  lemma {:induction false} BaseSources(host: HostRow, keys: seq<string>, k: string)
    ensures Sources(AppendBase(EMPTY, host, keys), k) == OwnColumns(host, keys, k)
  {
    if keys != [] {
      var last := Base(Last(keys), Column(host, Last(keys)));
      BaseSources(host, Init(keys), k);
      AppendSources(AppendBase(EMPTY, host, Init(keys)), Last(keys), last, Overwrite, k);
      assert OwnColumns(host, keys, k) == OwnColumns(host, Init(keys), k) + if Last(keys) == k then [last] else [];
    }
  }

  /** The lineage of a variable is complete and in order: the host's own column, then every row about the variable,
      layer after layer, in query order. */
  lemma LineageComplete(host: HostRow, e: Tables, k: string)
    ensures Sources(Explore(host, e), k) == OwnColumns(host, BASE_KEYS, k) + Supply(e, LAYERS, k)
  {
    BaseSources(host, BASE_KEYS, k);
    LayersSources(AppendBase(EMPTY, host, BASE_KEYS), e, LAYERS, k);
  }

  // ----- The closed form -----

  lemma {:induction false} ExploreRows(v: View, rows: seq<Row>, l: Layer, k: string)
    ensures CurrentSource(AppendRows(v, rows, l), k)
         == Over(CurrentSource(v, k), EndOf(l, Filter(rows, HasField(k))), ModeOf(l))
  {
    if rows != [] {
      ExploreRows(v, Init(rows), l, k);
      EndStep(CurrentSource(v, k), l, Filter(Init(rows), HasField(k)), Last(rows));
    }
  }

  /** What each layer offers the explorer: the rows decide in query order. */
  function QueryPicks(e: Tables, k: string): Picks {
    (l: Layer) => EndOf(l, Filter(e(l), HasField(k)))
  }

  lemma {:induction false} ExploreLayers(v: View, e: Tables, layers: seq<Layer>, k: string)
    ensures CurrentSource(AppendLayers(v, e, layers), k) == Folded(CurrentSource(v, k), QueryPicks(e, k), layers)
  {
    if layers != [] {
      ExploreLayers(v, e, Init(layers), k);
      ExploreRows(AppendLayers(v, e, Init(layers)), e(Last(layers)), Last(layers), k);
    }
  }

  lemma {:induction false} ExploreBase(host: HostRow, keys: seq<string>, k: string)
    ensures CurrentSource(AppendBase(EMPTY, host, keys), k) == if k in keys then Some(Base(k, Column(host, k))) else None
  {
    if keys != [] {
      ExploreBase(host, Init(keys), k);
      assert k in keys <==> k in Init(keys) || k == Last(keys);
    }
  }

  /** The explorer follows the same rule, in the order its queries return the rows. */
  lemma ExplorerClosedForm(host: HostRow, e: Tables, k: string)
    ensures CurrentSource(Explore(host, e), k) == Winner(QueryPicks(e, k), Lookup(BaseVars(host), k))
  {
    ExploreBase(host, BASE_KEYS, k);
    ExploreLayers(AppendBase(EMPTY, host, BASE_KEYS), e, LAYERS, k);
    FoldedWinner(Lookup(BaseVars(host), k), QueryPicks(e, k));
  }

  // ----- Agreement with the inventory -----

  /** ORDER BY priority DESC, on the stored number. */
  ghost predicate RawDescending(rows: seq<Row>) {
    forall i, j :: 0 <= i < j < |rows| ==> rows[i].priority >= rows[j].priority
  }

  function OfHost(l: Layer, h: string): Row -> bool { (r: Row) => l.AnsibleDefaults? || r.host == h }

  /** e holds the same rows as the inventory's queries hold for this host, role layers by stored priority. */
  ghost predicate QueriesOf(t: Tables, e: Tables, h: string) {
    && (forall l :: multiset(e(l)) == multiset(Filter(t(l), OfHost(l, h))))
    && (forall l :: ByRole(l) ==> RawDescending(e(l)))
  }

  /** No two rows of a layer compete for this variable with equal right. */
  ghost predicate NoTies(t: Tables, h: string, k: string) { forall l :: NoTie(l, Candidates(t, l, h, k)) }

  /** A row stored with priority 0 sorts last in SQL, but counts as 100 in the inventory.  In a layer that
      overwrites, a row between 0 and 100 then wins there and loses here; in one that fills, such a row loses
      there and wins here. */
  ghost predicate Misordered(l: Layer, rows: seq<Row>) {
    && ByRole(l)
    && (exists r :: r in rows && r.priority == 0)
    && if ModeOf(l).Overwrite?
       then (forall r :: r in rows ==> r.priority >= 0) && exists r :: r in rows && 0 < r.priority < 100
       else (forall r :: r in rows ==> r.priority < 100) && exists r :: r in rows && 0 < r.priority
  }

  lemma SameFields(t: Tables, e: Tables, l: Layer, h: string, k: string)
    requires QueriesOf(t, e, h)
    ensures multiset(Filter(e(l), HasField(k))) == multiset(Candidates(t, l, h, k))
  {
    assert multiset(e(l)) == multiset(Filter(t(l), OfHost(l, h)));
    forall x ensures multiset(Filter(e(l), HasField(k)))[x] == multiset(Candidates(t, l, h, k))[x] {
      FilterCount(e(l), HasField(k), x);
      FilterCount(t(l), OfHost(l, h), x);
      FilterCount(t(l), About(l, h, k), x);
    }
  }

  lemma {:induction false} FilterDescending(rows: seq<Row>, k: string)
    requires RawDescending(rows)
    ensures RawDescending(Filter(rows, HasField(k)))
  {
    if rows != [] {
      FilterDescending(Init(rows), k);
      var front := Filter(Init(rows), HasField(k));
      forall i | 0 <= i < |front| ensures front[i].priority >= Last(rows).priority {
        assert front[i] in Init(rows);
      }
    }
  }

  lemma LastIsLeast(rows: seq<Row>)
    requires RawDescending(rows) && rows != []
    ensures forall r :: r in rows ==> rows[0].priority >= r.priority >= Last(rows).priority
  {
    forall r | r in rows ensures rows[0].priority >= r.priority >= Last(rows).priority {
      var j :| 0 <= j < |rows| && rows[j] == r;
      assert j == 0 || rows[0].priority >= rows[j].priority;
      assert j == |rows| - 1 || rows[j].priority >= rows[|rows| - 1].priority;
    }
  }

  lemma OnlyOneLeast(rows: seq<Row>, r: Row)
    requires DistinctPriorities(rows) && r in rows
    ensures r == rows[LeastIndex(rows)] <==> forall x :: x in rows ==> Effective(r.priority) <= Effective(x.priority)
  {
    var j :| 0 <= j < |rows| && rows[j] == r;
    var i := LeastIndex(rows);
    assert rows[i] in rows;
    assert i != j ==> Effective(rows[i].priority) != Effective(rows[j].priority);
  }

  lemma OnlyOneGreatest(rows: seq<Row>, r: Row)
    requires DistinctPriorities(rows) && r in rows
    ensures r == rows[GreatestIndex(rows)] <==> forall x :: x in rows ==> Effective(r.priority) >= Effective(x.priority)
  {
    var j :| 0 <= j < |rows| && rows[j] == r;
    var i := GreatestIndex(rows);
    assert rows[i] in rows;
    assert i != j ==> Effective(rows[i].priority) != Effective(rows[j].priority);
  }

  /** The least stored priority is the least effective one exactly when no 0 shadows a row below 100. */
  lemma LeastStored(l: Layer, rows: seq<Row>, x: Row)
    requires ByRole(l) && ModeOf(l).Overwrite? && x in rows && forall y :: y in rows ==> x.priority <= y.priority
    ensures (forall y :: y in rows ==> Effective(x.priority) <= Effective(y.priority)) <==> !Misordered(l, rows)
  {
  }

  lemma GreatestStored(l: Layer, rows: seq<Row>, x: Row)
    requires ByRole(l) && ModeOf(l).Fill? && x in rows && forall y :: y in rows ==> x.priority >= y.priority
    ensures (forall y :: y in rows ==> Effective(x.priority) >= Effective(y.priority)) <==> !Misordered(l, rows)
  {
  }

  /** In a role layer that overwrites, the explorer and the inventory pick the same row exactly when no row stored
      with priority 0 hides one between 0 and 100. */
  lemma LeastAgrees(l: Layer, rows: seq<Row>, ordered: seq<Row>)
    requires ByRole(l) && ModeOf(l).Overwrite?
    requires multiset(ordered) == multiset(rows) && RawDescending(ordered) && DistinctPriorities(rows)
    ensures EndOf(l, ordered) == Pick(l, rows) <==> !Misordered(l, rows)
  {
    SameElements(ordered, rows);
    if rows != [] {
      var x := Last(ordered);
      LastIsLeast(ordered);
      assert x in ordered;
      OnlyOneLeast(rows, x);
      LeastStored(l, rows, x);
      assert Pick(l, rows) == Some(FromRow(l, rows[LeastIndex(rows)]));
    }
  }

  /** In the role layer that fills, exactly when none is hidden by one between 0 and 100. */
  lemma GreatestAgrees(l: Layer, rows: seq<Row>, ordered: seq<Row>)
    requires ByRole(l) && ModeOf(l).Fill?
    requires multiset(ordered) == multiset(rows) && RawDescending(ordered) && DistinctPriorities(rows)
    ensures EndOf(l, ordered) == Pick(l, rows) <==> !Misordered(l, rows)
  {
    SameElements(ordered, rows);
    if rows != [] {
      var x := ordered[0];
      LastIsLeast(ordered);
      assert x in ordered;
      OnlyOneGreatest(rows, x);
      GreatestStored(l, rows, x);
      assert Pick(l, rows) == Some(FromRow(l, rows[GreatestIndex(rows)]));
    }
  }

  lemma RowsAgree(l: Layer, rows: seq<Row>, ordered: seq<Row>)
    requires multiset(ordered) == multiset(rows) && (ByRole(l) ==> RawDescending(ordered)) && NoTie(l, rows)
    ensures EndOf(l, ordered) == Pick(l, rows) <==> !Misordered(l, rows)
    ensures EndOf(l, ordered).Some? <==> Pick(l, rows).Some?
  {
    SameElements(ordered, rows);
    if !ByRole(l) {
      AtMostOne(ordered, rows);
    } else if ModeOf(l).Fill? {
      GreatestAgrees(l, rows, ordered);
    } else {
      LeastAgrees(l, rows, ordered);
    }
  }

  lemma LayerAgrees(t: Tables, e: Tables, l: Layer, h: string, k: string)
    requires QueriesOf(t, e, h) && NoTies(t, h, k)
    ensures QueryPicks(e, k)(l) == InventoryPicks(t, h, k)(l) <==> !Misordered(l, Candidates(t, l, h, k))
    ensures QueryPicks(e, k)(l).Some? <==> InventoryPicks(t, h, k)(l).Some?
  {
    SameFields(t, e, l, h, k);
    if ByRole(l) {
      FilterDescending(e(l), k);
    }
    assert NoTie(l, Candidates(t, l, h, k));
    RowsAgree(l, Candidates(t, l, h, k), Filter(e(l), HasField(k)));
  }

  lemma {:induction false} SameDeciding(p: Picks, q: Picks, layers: seq<Layer>)
    requires forall l :: p(l).Some? <==> q(l).Some?
    ensures Writer(p, layers) == Writer(q, layers) && Filler(p, layers) == Filler(q, layers)
  {
    if layers != [] {
      SameDeciding(p, q, Init(layers));
    }
  }

  /** Three-way agreement: without ties, the explorer's current entry is the row both inventories use exactly when
      the layer that decides the variable, if one does, has no misordered priority 0 for it. */
  lemma ExplorerAgrees(rows: seq<HostRow>, t: Tables, e: Tables, h: string, k: string)
    requires h in NamesOf(rows) && k != ""
    requires QueriesOf(t, e, h) && NoTies(t, h, k)
    ensures LastNamed(rows, h).Some? && h in FullHostvars(rows, t)
    ensures var d := Deciding(InventoryPicks(t, h, k), k in BASE_KEYS);
      CurrentSource(Explore(LastNamed(rows, h).value, e), k) == Lookup(FullHostvars(rows, t)[h], k)
      <==> d.None? || !Misordered(d.value, Candidates(t, d.value, h, k))
  {
    FullVariable(rows, t, h, k);
    ExplorerClosedForm(LastNamed(rows, h).value, e, k);
    forall l
      ensures QueryPicks(e, k)(l).Some? <==> InventoryPicks(t, h, k)(l).Some?
      ensures QueryPicks(e, k)(l) == InventoryPicks(t, h, k)(l) <==> !Misordered(l, Candidates(t, l, h, k))
    {
      LayerAgrees(t, e, l, h, k);
    }
    SameDeciding(QueryPicks(e, k), InventoryPicks(t, h, k), LAYERS);
  }

  // ----- Two stored priorities of 0 -----

  function OneLayer(l: Layer, rows: seq<Row>): Tables { (m: Layer) => if m == l then rows else [] }

  lemma AllCandidates(rows: seq<Row>, m: Layer, h: string, k: string)
    requires forall i :: 0 <= i < |rows| ==> rows[i].host == h && rows[i].field == k
    ensures Filter(rows, About(m, h, k)) == rows && Filter(rows, OfHost(m, h)) == rows
  {
    FilterAll(rows, About(m, h, k));
    FilterAll(rows, OfHost(m, h));
  }

  lemma OneLayerCandidates(l: Layer, rows: seq<Row>, m: Layer, h: string, k: string)
    requires forall i :: 0 <= i < |rows| ==> rows[i].host == h && rows[i].field == k
    ensures var t := OneLayer(l, rows); Candidates(t, m, h, k) == t(m) && Filter(t(m), OfHost(m, h)) == t(m)
  {
    AllCandidates(if m == l then rows else [], m, h, k);
  }

  lemma OneLayerQueries(l: Layer, rows: seq<Row>, h: string, k: string)
    requires ByRole(l) && RawDescending(rows)
    requires forall i :: 0 <= i < |rows| ==> rows[i].host == h && rows[i].field == k
    ensures QueriesOf(OneLayer(l, rows), OneLayer(l, rows), h)
  {
    var t := OneLayer(l, rows);
    forall m ensures multiset(t(m)) == multiset(Filter(t(m), OfHost(m, h))) {
      OneLayerCandidates(l, rows, m, h, k);
    }
  }

  lemma OneLayerNoTies(l: Layer, rows: seq<Row>, h: string, k: string)
    requires ByRole(l) && DistinctPriorities(rows)
    requires forall i :: 0 <= i < |rows| ==> rows[i].host == h && rows[i].field == k
    ensures NoTies(OneLayer(l, rows), h, k)
  {
    forall m ensures NoTie(m, Candidates(OneLayer(l, rows), m, h, k)) {
      OneLayerCandidates(l, rows, m, h, k);
    }
  }

  /** With misordered rows for one variable in one role layer the explorer and the inventory disagree. */
  lemma MisorderedDisagrees(l: Layer, host: HostRow, rows: seq<Row>, k: string)
    requires ByRole(l) && RawDescending(rows) && DistinctPriorities(rows) && Misordered(l, rows)
    requires forall i :: 0 <= i < |rows| ==> rows[i].host == host.name && rows[i].field == k
    requires host.name != "" && k != "" && k !in BASE_KEYS
    ensures var t, h := OneLayer(l, rows), host.name;
      h in FullHostvars([host], t) && CurrentSource(Explore(host, t), k) != Lookup(FullHostvars([host], t)[h], k)
  {
    var t, h := OneLayer(l, rows), host.name;
    assert host in [host] && LastNamed([host], h) == Some(host);
    OneLayerQueries(l, rows, h, k);
    OneLayerNoTies(l, rows, h, k);
    OneLayerCandidates(l, rows, l, h, k);
    var picks := InventoryPicks(t, h, k);
    forall m ensures picks(m).Some? ==> m == l {
      OneLayerCandidates(l, rows, m, h, k);
    }
    assert Decides(picks, false, l);
    DecidingExact(picks, false, l);
    ExplorerAgrees([host], t, t, h, k);
  }

  lemma TwoRoles(l: Layer, a: Row, b: Row)
    requires ByRole(l) && a.priority == 50 && b.priority == 0
    ensures RawDescending([a, b]) && DistinctPriorities([a, b]) && Misordered(l, [a, b])
  {
    assert a in [a, b] && b in [a, b];
  }

  lemma ZeroPriority(l: Layer, host: HostRow) returns (t: Tables)
    requires ByRole(l) && host.name != ""
    ensures var h, k := host.name, "k";
      h in FullHostvars([host], t) && CurrentSource(Explore(host, t), k) != Lookup(FullHostvars([host], t)[h], k)
  {
    var a, b := Row(host.name, "k", "a", 50), Row(host.name, "k", "b", 0);
    t := OneLayer(l, [a, b]);
    TwoRoles(l, a, b);
    ShortIsNoColumn("k");
    MisorderedDisagrees(l, host, [a, b], "k");
  }

  /** Priority 0 counts as 100 in the inventory, where 50 then wins; the explorer shows the row stored as 0. */
  lemma ZeroPriorityShadowed() returns (host: HostRow, t: Tables)
    ensures var h, k := host.name, "k";
      h in FullHostvars([host], t) && CurrentSource(Explore(host, t), k) != Lookup(FullHostvars([host], t)[h], k)
  {
    host := Named(1, "web");
    t := ZeroPriority(HostRoleDefaults, host);
  }

  /** Among global role defaults 0 counts as 100 and wins in the inventory; the explorer shows the row stored as 50. */
  lemma ZeroPriorityLifted() returns (host: HostRow, t: Tables)
    ensures var h, k := host.name, "k";
      h in FullHostvars([host], t) && CurrentSource(Explore(host, t), k) != Lookup(FullHostvars([host], t)[h], k)
  {
    host := Named(1, "web");
    t := ZeroPriority(GlobalRoleDefaults, host);
  }
}
