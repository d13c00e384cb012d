/** Host-variable precedence: what the twelve query layers put on top of the inventory row of a host.

    A variable holds the Source it was taken from; decrypting and coercing the stored text is one function
    applied to that source, the same in every copy, so it is left out. */
module Precedence {
  import opened Prelude
  import opened Text
  import opened Slug

  // ----- Rows -----

  datatype Value = Null | Str(text: string) | Num(number: nat)

  /** A row of the inventory view; a column that is not in the map is NULL. */
  datatype HostRow = HostRow(id: nat, name: string, columns: map<string, Value>)

  /** A row of a layer query; layers without a priority column leave it 0, the global defaults name no host. */
  datatype Row = Row(host: string, field: string, raw: string, priority: int)

  datatype Layer =
    | AnsibleDefaults | StatusDefaults | GlobalRoleDefaults | HostTypeDefaults
    | HostTypeRoleDefaults | HostRoleDefaults | AppDefaults
    | HostTypeOverrides | StatusOverrides | RoleOverrides | AppOverrides | AnsibleOverrides

  /** What the query of each layer returns. */
  type Tables = Layer -> seq<Row>

  datatype Source = Base(column: string, value: Value) | FromRow(layer: Layer, entry: Row)

  type Vars = map<string, Source>
  type Hostvars = map<string, Vars>

  // ----- Base variables and groups -----

  const BASE_KEYS: seq<string> := [
    "ansible_host", "inventory_id", "env", "type", "vlan_id", "ipv4", "mac", "role", "k3s_cluster", "apps",
    "proxmox_host", "vm_cpu_socket", "vm_cpu_core", "vm_ram", "vm_storage_os_datastore", "vm_storage_os_size",
    "vm_storage_hdd01_datastore", "vm_storage_hdd01_size", "domain_internal", "external_domain", "notes", "status"]

  function Cell(r: HostRow, column: string): Value {
    if column in r.columns then r.columns[column] else Null
  }

  predicate Falsy(v: Value) { v == Null || v == Str("") || v == Num(0) }

  function Column(r: HostRow, key: string): Value {
    if key == "ansible_host" then if Falsy(Cell(r, "ipv4")) then Str(r.name) else Cell(r, "ipv4")
    else if key == "inventory_id" then Num(r.id)
    else Cell(r, key)
  }

  function BaseVars(r: HostRow): Vars {
    map k | k in BASE_KEYS :: Base(k, Column(r, k))
  }

  function SplitCommaSpace(s: string): (parts: seq<string>)
    ensures parts != []
  {
    if |s| < 2 then [s]
    else if s[0] == ',' && s[1] == ' ' then [[]] + SplitCommaSpace(s[2..])
    else
      var rest := SplitCommaSpace(s[1..]);
      [[s[0]] + rest[0]] + rest[1..]
  }

  /** str(value). */
  function Shown(v: Value): string
    requires v != Null
  {
    if v.Str? then v.text else Decimal(v.number)
  }

  /** A group a row asks for, before the name is cleaned up. */
  datatype Tag = Tag(prefix: string, text: string)

  function Tagged(prefix: string, v: Value): seq<Tag> {
    if v == Null then [] else [Tag(prefix, Shown(v))]
  }

  function TaggedAll(prefix: string, values: seq<string>): seq<Tag> {
    Map(values, (v: string) => Tag(prefix, Strip(v, IsSpace)))
  }

  /** The groups a row asks for, in the order the builder asks for them. */
  function TagsOf(r: HostRow): seq<Tag> {
    Tagged("env", Cell(r, "env"))
    + (if Falsy(Cell(r, "role")) then [] else TaggedAll("role", SplitCommaSpace(Shown(Cell(r, "role")))))
    + Tagged("type", Cell(r, "type")) + Tagged("vlan", Cell(r, "vlan_id"))
    + Tagged("k3s", Cell(r, "k3s_cluster")) + Tagged("status", Cell(r, "status"))
    + Tagged("ds_os", Cell(r, "vm_storage_os_datastore")) + Tagged("ds_hdd01", Cell(r, "vm_storage_hdd01_datastore"))
    + (if Falsy(Cell(r, "apps")) then [] else TaggedAll("app", Split(Shown(Cell(r, "apps")), ',')))
  }

  function GroupName(tag: Tag): string { InventoryGroup(tag.prefix, tag.text) }

  function GroupsOf(r: HostRow): seq<string> { Map(TagsOf(r), GroupName) }

  type Groups = map<string, seq<string>>

  function Members(groups: Groups, g: string): seq<string> {
    if g in groups then groups[g] else []
  }

  function AddMember(groups: Groups, g: string, host: string): Groups {
    groups[g := if host in Members(groups, g) then Members(groups, g) else Members(groups, g) + [host]]
  }

  function JoinGroups(groups: Groups, names: seq<string>, host: string): Groups {
    if names == [] then groups else AddMember(JoinGroups(groups, Init(names), host), Last(names), host)
  }

  function BaseHostvars(rows: seq<HostRow>): Hostvars {
    if rows == [] then map[]
    else if Last(rows).name == "" then BaseHostvars(Init(rows))
    else BaseHostvars(Init(rows))[Last(rows).name := BaseVars(Last(rows))]
  }

  function BaseGroups(rows: seq<HostRow>): Groups {
    if rows == [] then map[]
    else if Last(rows).name == "" then BaseGroups(Init(rows))
    else JoinGroups(BaseGroups(Init(rows)), GroupsOf(Last(rows)), Last(rows).name)
  }

  // ----- Layers -----

  datatype Mode = Fill | Overwrite

  /** The order in which the layers are applied; the program spells them out one after the other. */
  const LAYERS: seq<Layer> := [
    AnsibleDefaults, StatusDefaults, GlobalRoleDefaults, HostTypeDefaults, HostTypeRoleDefaults, HostRoleDefaults,
    AppDefaults, HostTypeOverrides, StatusOverrides, RoleOverrides, AppOverrides, AnsibleOverrides]

  /** setdefault, or a direct assignment. */
  function ModeOf(l: Layer): Mode {
    match l
    case AnsibleDefaults | StatusDefaults | GlobalRoleDefaults | HostTypeDefaults | AppDefaults => Fill
    case _ => Overwrite
  }

  /** The layers sorted by role priority. */
  predicate ByRole(l: Layer) { l.GlobalRoleDefaults? || l.HostTypeRoleDefaults? || l.HostRoleDefaults? }

  /** The precedence number the explorer shows for a layer; 1 is the host's own columns. */
  function Rank(l: Layer): nat {
    match l
    case AnsibleDefaults => 2
    case StatusDefaults => 3
    case GlobalRoleDefaults => 4
    case HostTypeDefaults => 5
    case HostTypeRoleDefaults => 6
    case HostRoleDefaults => 7
    case AppDefaults => 8
    case HostTypeOverrides => 9
    case StatusOverrides => 10
    case RoleOverrides => 11
    case AppOverrides => 12
    case AnsibleOverrides => 13
  }

  /** The layers are applied in the order of their numbers, and none is left out. */
  lemma AppliedByRank()
    ensures forall i :: 0 <= i < |LAYERS| ==> Rank(LAYERS[i]) == i + 2
    ensures forall l :: 2 <= Rank(l) < |LAYERS| + 2 && LAYERS[Rank(l) - 2] == l
  {
    forall l ensures 2 <= Rank(l) < |LAYERS| + 2 && LAYERS[Rank(l) - 2] == l {
      assert LAYERS[0] == AnsibleDefaults && LAYERS[1] == StatusDefaults && LAYERS[2] == GlobalRoleDefaults
        && LAYERS[3] == HostTypeDefaults && LAYERS[4] == HostTypeRoleDefaults && LAYERS[5] == HostRoleDefaults
        && LAYERS[6] == AppDefaults && LAYERS[7] == HostTypeOverrides && LAYERS[8] == StatusOverrides
        && LAYERS[9] == RoleOverrides && LAYERS[10] == AppOverrides && LAYERS[11] == AnsibleOverrides;
    }
  }

  function PutVar(vars: Vars, key: string, src: Source, mode: Mode): Vars {
    if mode.Fill? && key in vars then vars else vars[key := src]
  }

  /** One row of a layer.  A global Ansible default goes to every host.  Blank field names are skipped there and,
      by the endpoint but not by the job builder, in the other layers. */
  function PutRow(hv: Hostvars, row: Row, l: Layer, skipBlank: bool): Hostvars {
    if row.field == "" && (skipBlank || l.AnsibleDefaults?) then hv
    else if l.AnsibleDefaults? then map h | h in hv :: PutVar(hv[h], row.field, FromRow(l, row), ModeOf(l))
    else if row.host !in hv then hv
    else hv[row.host := PutVar(hv[row.host], row.field, FromRow(l, row), ModeOf(l))]
  }

  function PutRows(hv: Hostvars, rows: seq<Row>, l: Layer, skipBlank: bool): Hostvars {
    if rows == [] then hv else PutRow(PutRows(hv, Init(rows), l, skipBlank), Last(rows), l, skipBlank)
  }

  /** `priority or 100`. */
  function Effective(priority: int): int {
    if priority == 0 then 100 else priority
  }

  /** Highest number first, as in sorted(rows, key=lambda r: -(priority or 100)). */
  predicate HigherFirst(a: Row, b: Row) { Effective(a.priority) >= Effective(b.priority) }

  function ByPriority(rows: seq<Row>): seq<Row> { StableSort(rows, HigherFirst) }

  /** The rows of a layer in the order they are applied. */
  function InTurn(t: Tables, l: Layer): seq<Row> { if ByRole(l) then ByPriority(t(l)) else t(l) }

  function PutLayers(hv: Hostvars, t: Tables, layers: seq<Layer>, skipBlank: bool): Hostvars {
    if layers == [] then hv
    else PutRows(PutLayers(hv, t, Init(layers), skipBlank), InTurn(t, Last(layers)), Last(layers), skipBlank)
  }

  function PutTables(hv: Hostvars, t: Tables, skipBlank: bool): Hostvars {
    PutLayers(hv, t, LAYERS, skipBlank)
  }

  // ----- Which row of a layer counts for a host and a variable -----

  predicate Concerns(l: Layer, row: Row, host: string, key: string) {
    (l.AnsibleDefaults? || row.host == host) && row.field == key
  }

  function About(l: Layer, host: string, key: string): Row -> bool { (r: Row) => Concerns(l, r, host, key) }

  function Candidates(t: Tables, l: Layer, host: string, key: string): seq<Row> {
    Filter(t(l), About(l, host, key))
  }

  /** Of rows applied in this order, the first one stays in a layer that fills, the last one in a layer that
      overwrites. */
  function EndOf(l: Layer, rows: seq<Row>): Option<Source> {
    if rows == [] then None
    else if ModeOf(l).Fill? then Some(FromRow(l, rows[0]))
    else Some(FromRow(l, Last(rows)))
  }

  /** Of rows in query order: in a role layer the row of least effective priority overwrites (the last such one),
      the row of greatest fills (the first such one); in any other layer the order decides. */
  function Pick(l: Layer, rows: seq<Row>): Option<Source> {
    if rows == [] || !ByRole(l) then EndOf(l, rows)
    else
      var i := if ModeOf(l).Fill? then GreatestIndex(rows) else LeastIndex(rows);
      Some(FromRow(l, rows[i]))
  }

  function LeastIndex(rows: seq<Row>): (i: nat)
    requires rows != []
    ensures i < |rows|
    ensures forall j :: 0 <= j < |rows| ==> Effective(rows[i].priority) <= Effective(rows[j].priority)
    ensures forall j :: i < j < |rows| ==> Effective(rows[i].priority) < Effective(rows[j].priority)
  {
    if |rows| == 1 then 0
    else
      var i := LeastIndex(Init(rows));
      if Effective(Last(rows).priority) <= Effective(rows[i].priority) then |rows| - 1 else i
  }

  function GreatestIndex(rows: seq<Row>): (i: nat)
    requires rows != []
    ensures i < |rows|
    ensures forall j :: 0 <= j < |rows| ==> Effective(rows[i].priority) >= Effective(rows[j].priority)
    ensures forall j :: 0 <= j < i ==> Effective(rows[i].priority) > Effective(rows[j].priority)
  {
    if |rows| == 1 then 0
    else
      var i := GreatestIndex(Init(rows));
      if Effective(Last(rows).priority) > Effective(rows[i].priority) then |rows| - 1 else i
  }

  // ----- The rule: which layer decides -----

  /** What each layer offers for one variable of one host. */
  type Picks = Layer -> Option<Source>

  function OrElse<T>(a: Option<T>, b: Option<T>): Option<T> { if a.Some? then a else b }

  /** The last layer that overwrites and offers something. */
  function Writer(picks: Picks, layers: seq<Layer>): Option<Layer> {
    if layers == [] then None
    else if ModeOf(Last(layers)).Overwrite? && picks(Last(layers)).Some? then Some(Last(layers))
    else Writer(picks, Init(layers))
  }

  /** The first layer that fills and offers something. */
  function Filler(picks: Picks, layers: seq<Layer>): Option<Layer> {
    if layers == [] then None
    else
      OrElse(Filler(picks, Init(layers)),
             if ModeOf(Last(layers)).Fill? && picks(Last(layers)).Some? then Some(Last(layers)) else None)
  }

  /** The layer that supplies the variable; None when the host's own column does, or nothing. */
  function Deciding(picks: Picks, based: bool): Option<Layer> {
    OrElse(Writer(picks, LAYERS), if based then None else Filler(picks, LAYERS))
  }

  function Winner(picks: Picks, base: Option<Source>): Option<Source> {
    var l := Deciding(picks, base.Some?);
    if l.Some? then picks(l.value) else base
  }

  function InventoryPicks(t: Tables, host: string, key: string): Picks {
    (l: Layer) => Pick(l, Candidates(t, l, host, key))
  }

  /** The declared precedence: the overriding layer of highest number; else the host's own column; else the
      defaulting layer of lowest number. */
  ghost predicate Decides(picks: Picks, based: bool, l: Layer) {
    && picks(l).Some?
    && if ModeOf(l).Overwrite? then forall m :: picks(m).Some? && ModeOf(m).Overwrite? ==> Rank(m) <= Rank(l)
       else !based && forall m :: picks(m).Some? ==> ModeOf(m).Fill? && Rank(l) <= Rank(m)
  }

  ghost predicate InRankOrder(layers: seq<Layer>) {
    forall i, j :: 0 <= i < j < |layers| ==> Rank(layers[i]) < Rank(layers[j])
  }

  lemma {:induction false} WriterIsHighest(picks: Picks, layers: seq<Layer>)
    requires InRankOrder(layers)
    ensures var w := Writer(picks, layers);
      && (w.Some? ==> w.value in layers && picks(w.value).Some? && ModeOf(w.value).Overwrite?)
      && forall m :: m in layers && picks(m).Some? && ModeOf(m).Overwrite? ==> w.Some? && Rank(m) <= Rank(w.value)
  {
    if layers != [] {
      WriterIsHighest(picks, Init(layers));
      assert forall m :: m in layers <==> m in Init(layers) || m == Last(layers);
      forall m | m in layers ensures Rank(m) <= Rank(Last(layers)) {
        var i :| 0 <= i < |layers| && layers[i] == m;
        assert i == |layers| - 1 || Rank(layers[i]) < Rank(layers[|layers| - 1]);
      }
    }
  }

  lemma {:induction false} FillerIsLowest(picks: Picks, layers: seq<Layer>)
    requires InRankOrder(layers)
    ensures var f := Filler(picks, layers);
      && (f.Some? ==> f.value in layers && picks(f.value).Some? && ModeOf(f.value).Fill?)
      && forall m :: m in layers && picks(m).Some? && ModeOf(m).Fill? ==> f.Some? && Rank(f.value) <= Rank(m)
  {
    if layers != [] {
      FillerIsLowest(picks, Init(layers));
      assert forall m :: m in layers <==> m in Init(layers) || m == Last(layers);
      forall m | m in layers ensures Rank(m) <= Rank(Last(layers)) {
        var i :| 0 <= i < |layers| && layers[i] == m;
        assert i == |layers| - 1 || Rank(layers[i]) < Rank(layers[|layers| - 1]);
      }
    }
  }

  lemma RankDetermines(l: Layer, m: Layer)
    requires Rank(l) == Rank(m)
    ensures l == m
  {
    AppliedByRank();
  }

  lemma EveryLayer(l: Layer)
    ensures l in LAYERS
  {
    AppliedByRank();
    assert LAYERS[Rank(l) - 2] == l;
  }

  lemma LayersInRankOrder()
    ensures InRankOrder(LAYERS)
  {
    AppliedByRank();
  }

  lemma HighestWriter(picks: Picks, l: Layer)
    requires picks(l).Some? && ModeOf(l).Overwrite?
    requires forall m :: picks(m).Some? && ModeOf(m).Overwrite? ==> Rank(m) <= Rank(l)
    ensures Writer(picks, LAYERS) == Some(l)
  {
    LayersInRankOrder();
    WriterIsHighest(picks, LAYERS);
    EveryLayer(l);
    RankDetermines(Writer(picks, LAYERS).value, l);
  }

  lemma LowestFiller(picks: Picks, l: Layer)
    requires picks(l).Some? && forall m :: picks(m).Some? ==> ModeOf(m).Fill? && Rank(l) <= Rank(m)
    ensures Writer(picks, LAYERS).None? && Filler(picks, LAYERS) == Some(l)
  {
    LayersInRankOrder();
    WriterIsHighest(picks, LAYERS);
    FillerIsLowest(picks, LAYERS);
    EveryLayer(l);
    RankDetermines(Filler(picks, LAYERS).value, l);
  }

  lemma DecidingDecides(picks: Picks, based: bool)
    ensures var d := Deciding(picks, based);
      && (d.Some? ==> Decides(picks, based, d.value))
      && (d.None? ==> forall m :: picks(m).Some? ==> based && ModeOf(m).Fill?)
  {
    LayersInRankOrder();
    WriterIsHighest(picks, LAYERS);
    FillerIsLowest(picks, LAYERS);
    forall m ensures m in LAYERS {
      EveryLayer(m);
    }
  }

  /** The layer found by going through the list is the one the declared precedence names. */
  lemma DecidingExact(picks: Picks, based: bool, l: Layer)
    ensures Deciding(picks, based) == Some(l) <==> Decides(picks, based, l)
  {
    DecidingDecides(picks, based);
    if Decides(picks, based, l) {
      if ModeOf(l).Overwrite? {
        HighestWriter(picks, l);
      } else {
        LowestFiller(picks, l);
      }
    }
  }

  // ----- The fold over the layers, seen from one host and one variable -----

  function Over(before: Option<Source>, pick: Option<Source>, mode: Mode): Option<Source> {
    match mode
    case Fill => OrElse(before, pick)
    case Overwrite => OrElse(pick, before)
  }

  function Folded(before: Option<Source>, picks: Picks, layers: seq<Layer>): Option<Source> {
    if layers == [] then before
    else Over(Folded(before, picks, Init(layers)), picks(Last(layers)), ModeOf(Last(layers)))
  }

  lemma {:induction false} FoldedIs(before: Option<Source>, picks: Picks, layers: seq<Layer>)
    ensures Folded(before, picks, layers)
         == if Writer(picks, layers).Some? then picks(Writer(picks, layers).value)
            else if before.Some? then before
            else if Filler(picks, layers).Some? then picks(Filler(picks, layers).value)
            else None
    ensures Writer(picks, layers).Some? ==> picks(Writer(picks, layers).value).Some?
    ensures Filler(picks, layers).Some? ==> picks(Filler(picks, layers).value).Some?
  {
    if layers != [] {
      FoldedIs(before, picks, Init(layers));
    }
  }

  lemma FoldedWinner(before: Option<Source>, picks: Picks)
    ensures Folded(before, picks, LAYERS) == Winner(picks, before)
  {
    FoldedIs(before, picks, LAYERS);
  }

  lemma RowResult(hv: Hostvars, row: Row, l: Layer, skipBlank: bool, h: string, k: string)
    requires h in hv
    ensures PutRow(hv, row, l, skipBlank).Keys == hv.Keys
    ensures Lookup(PutRow(hv, row, l, skipBlank)[h], k)
         == Over(Lookup(hv[h], k),
                 if Concerns(l, row, h, k) && !(k == "" && (skipBlank || l.AnsibleDefaults?)) then Some(FromRow(l, row))
                 else None,
                 ModeOf(l))
  {
  }

  lemma EndStep(before: Option<Source>, l: Layer, rows: seq<Row>, row: Row)
    ensures Over(Over(before, EndOf(l, rows), ModeOf(l)), Some(FromRow(l, row)), ModeOf(l))
         == Over(before, EndOf(l, rows + [row]), ModeOf(l))
  {
  }

  /** After a layer a variable is what it was, or comes from the first or the last row about it. */
  lemma {:induction false} LayerResult(hv: Hostvars, rows: seq<Row>, l: Layer, skipBlank: bool, h: string, k: string)
    requires h in hv
    ensures PutRows(hv, rows, l, skipBlank).Keys == hv.Keys
    ensures Lookup(PutRows(hv, rows, l, skipBlank)[h], k)
         == if k == "" && (skipBlank || l.AnsibleDefaults?) then Lookup(hv[h], k)
            else Over(Lookup(hv[h], k), EndOf(l, Filter(rows, About(l, h, k))), ModeOf(l))
  {
    if rows != [] {
      LayerResult(hv, Init(rows), l, skipBlank, h, k);
      RowResult(PutRows(hv, Init(rows), l, skipBlank), Last(rows), l, skipBlank, h, k);
      EndStep(Lookup(hv[h], k), l, Filter(Init(rows), About(l, h, k)), Last(rows));
    }
  }

  lemma HigherFirstIsPreorder()
    ensures TotalPreorder(HigherFirst)
  {
  }

  lemma SortedEnds(rows: seq<Row>)
    ensures ByPriority(rows) == [] <==> rows == []
    ensures rows != [] ==> Last(ByPriority(rows)) == rows[LeastIndex(rows)] && ByPriority(rows)[0] == rows[GreatestIndex(rows)]
  {
    HigherFirstIsPreorder();
    if rows != [] {
      var last := SortLast(rows, HigherFirst);
      var first := SortFirst(rows, HigherFirst);
      assert last == LeastIndex(rows);
      assert first == GreatestIndex(rows);
    }
  }

  /** Sorting by priority and keeping the last row written picks the least priority; keeping the first row
      written, as the global-role layer does, picks the greatest. */
  lemma PriorityPick(rows: seq<Row>, l: Layer, h: string, k: string)
    requires ByRole(l)
    ensures EndOf(l, Filter(ByPriority(rows), About(l, h, k))) == Pick(l, Filter(rows, About(l, h, k)))
  {
    HigherFirstIsPreorder();
    SortFilter(rows, HigherFirst, About(l, h, k));
    SortedEnds(Filter(rows, About(l, h, k)));
  }

  lemma {:induction false} LayersResult(hv: Hostvars, t: Tables, layers: seq<Layer>, skipBlank: bool, h: string, k: string)
    requires h in hv && k != ""
    ensures h in PutLayers(hv, t, layers, skipBlank)
    ensures Lookup(PutLayers(hv, t, layers, skipBlank)[h], k)
         == Folded(Lookup(hv[h], k), InventoryPicks(t, h, k), layers)
  {
    if layers != [] {
      LayersResult(hv, t, Init(layers), skipBlank, h, k);
      var mid, l := PutLayers(hv, t, Init(layers), skipBlank), Last(layers);
      LayerResult(mid, InTurn(t, l), l, skipBlank, h, k);
      if ByRole(l) {
        PriorityPick(t(l), l, h, k);
      }
    }
  }

  /** The closed form: the twelve folds leave exactly the declared winner in every variable. */
  lemma ClosedForm(hv: Hostvars, t: Tables, skipBlank: bool, h: string, k: string)
    requires h in hv && k != ""
    ensures h in PutTables(hv, t, skipBlank)
    ensures Lookup(PutTables(hv, t, skipBlank)[h], k) == Winner(InventoryPicks(t, h, k), Lookup(hv[h], k))
  {
    LayersResult(hv, t, LAYERS, skipBlank, h, k);
    FoldedWinner(Lookup(hv[h], k), InventoryPicks(t, h, k));
  }

  lemma {:induction false} RowsKeys(hv: Hostvars, rows: seq<Row>, l: Layer, skipBlank: bool)
    ensures PutRows(hv, rows, l, skipBlank).Keys == hv.Keys
  {
    if rows != [] {
      RowsKeys(hv, Init(rows), l, skipBlank);
    }
  }

  lemma {:induction false} LayersKeys(hv: Hostvars, t: Tables, layers: seq<Layer>, skipBlank: bool)
    ensures PutLayers(hv, t, layers, skipBlank).Keys == hv.Keys
  {
    if layers != [] {
      LayersKeys(hv, t, Init(layers), skipBlank);
      RowsKeys(PutLayers(hv, t, Init(layers), skipBlank), InTurn(t, Last(layers)), Last(layers), skipBlank);
    }
  }
}
