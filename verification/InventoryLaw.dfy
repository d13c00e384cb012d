/** The precedence of host variables and the groups of hosts, spelled out table by table: what the inventory
    endpoint, a job run and the explorer must show, whatever way they build it. */
module InventoryLaw {
  import opened Prelude
  import opened Text
  import opened Slug
  import opened Precedence
  import opened InventoryBuilders
  import opened InventoryExplorer

  // ----- The law of precedence -----

  /** The rows of each layer about one variable of one host; a global Ansible default concerns every host. */
  function RowsOn(t: Tables, host: string, key: string): Tables {
    (l: Layer) => Filter(t(l), (r: Row) => (l == AnsibleDefaults || r.host == host) && r.field == key)
  }

  /** The rows the explorer reads for its host. */
  function RowsNamed(e: Tables, key: string): Tables {
    (l: Layer) => Filter(e(l), (r: Row) => r.field == key)
  }

  function Weight(r: Row): int { if r.priority == 0 then 100 else r.priority }

  ghost predicate IsFirst(rows: seq<Row>, l: Layer, v: Option<Source>) {
    rows != [] && v == Some(FromRow(l, rows[0]))
  }

  ghost predicate IsLast(rows: seq<Row>, l: Layer, v: Option<Source>) {
    rows != [] && v == Some(FromRow(l, rows[|rows| - 1]))
  }

  /** The row of least weight, the last such one. */
  ghost predicate IsLightest(rows: seq<Row>, l: Layer, v: Option<Source>) {
    exists i :: 0 <= i < |rows| && v == Some(FromRow(l, rows[i]))
      && (forall j :: 0 <= j < |rows| ==> Weight(rows[i]) <= Weight(rows[j]))
      && (forall j :: i < j < |rows| ==> Weight(rows[i]) < Weight(rows[j]))
  }

  /** The row of greatest weight, the first such one. */
  ghost predicate IsHeaviest(rows: seq<Row>, l: Layer, v: Option<Source>) {
    exists i :: 0 <= i < |rows| && v == Some(FromRow(l, rows[i]))
      && (forall j :: 0 <= j < |rows| ==> Weight(rows[i]) >= Weight(rows[j]))
      && (forall j :: 0 <= j < i ==> Weight(rows[i]) > Weight(rows[j]))
  }

  /** The value a variable must have: own is the host's column of that name; weighed tells whether the role layers
      go by weight, as in the inventories, or by the order of the rows, as in the explorer. */
  ghost predicate Supplied(on: Tables, own: Option<Source>, weighed: bool, v: Option<Source>) {
    if on(AnsibleOverrides) != [] then IsLast(on(AnsibleOverrides), AnsibleOverrides, v)
    else if on(AppOverrides) != [] then IsLast(on(AppOverrides), AppOverrides, v)
    else if on(RoleOverrides) != [] then IsLast(on(RoleOverrides), RoleOverrides, v)
    else if on(StatusOverrides) != [] then IsLast(on(StatusOverrides), StatusOverrides, v)
    else if on(HostTypeOverrides) != [] then IsLast(on(HostTypeOverrides), HostTypeOverrides, v)
    else if on(HostRoleDefaults) != [] then
      if weighed then IsLightest(on(HostRoleDefaults), HostRoleDefaults, v)
      else IsLast(on(HostRoleDefaults), HostRoleDefaults, v)
    else if on(HostTypeRoleDefaults) != [] then
      if weighed then IsLightest(on(HostTypeRoleDefaults), HostTypeRoleDefaults, v)
      else IsLast(on(HostTypeRoleDefaults), HostTypeRoleDefaults, v)
    else if own.Some? then v == own
    else if on(AnsibleDefaults) != [] then IsFirst(on(AnsibleDefaults), AnsibleDefaults, v)
    else if on(StatusDefaults) != [] then IsFirst(on(StatusDefaults), StatusDefaults, v)
    else if on(GlobalRoleDefaults) != [] then
      if weighed then IsHeaviest(on(GlobalRoleDefaults), GlobalRoleDefaults, v)
      else IsFirst(on(GlobalRoleDefaults), GlobalRoleDefaults, v)
    else if on(HostTypeDefaults) != [] then IsFirst(on(HostTypeDefaults), HostTypeDefaults, v)
    else if on(AppDefaults) != [] then IsFirst(on(AppDefaults), AppDefaults, v)
    else v == None
  }

  /** The address, or the name of a host that has none. */
  function Address(r: HostRow): Value {
    if "ipv4" !in r.columns then Str(r.name)
    else
      match r.columns["ipv4"]
      case Null => Str(r.name)
      case Str(text) => if text == "" then Str(r.name) else Str(text)
      case Num(number) => if number == 0 then Str(r.name) else Num(number)
  }

  /** The host's own column of that name. */
  function Own(r: HostRow, key: string): Option<Source> {
    if key == "ansible_host" then Some(Base(key, Address(r)))
    else if key == "inventory_id" then Some(Base(key, Num(r.id)))
    else if key in ["env", "type", "vlan_id", "ipv4", "mac", "role", "k3s_cluster", "apps", "proxmox_host",
                    "vm_cpu_socket", "vm_cpu_core", "vm_ram", "vm_storage_os_datastore", "vm_storage_os_size",
                    "vm_storage_hdd01_datastore", "vm_storage_hdd01_size", "domain_internal", "external_domain",
                    "notes", "status"]
    then Some(Base(key, if key in r.columns then r.columns[key] else Null))
    else None
  }

  lemma OwnIsColumn(r: HostRow, key: string)
    ensures Lookup(BaseVars(r), key) == Own(r, key)
  {
    assert BASE_KEYS == ["ansible_host", "inventory_id"] + BASE_KEYS[2..];
    if key != "ansible_host" && key != "inventory_id" {
      assert key in BASE_KEYS <==> key in BASE_KEYS[2..];
    }
  }

  // ----- Every copy obeys it -----

  /** What a layer offers is the row that the law names. */
  ghost predicate Offers(rows: seq<Row>, l: Layer, weighed: bool, v: Option<Source>) {
    if rows == [] then v == None
    else
      match l
      case AnsibleDefaults | StatusDefaults | HostTypeDefaults | AppDefaults => IsFirst(rows, l, v)
      case GlobalRoleDefaults => if weighed then IsHeaviest(rows, l, v) else IsFirst(rows, l, v)
      case HostRoleDefaults | HostTypeRoleDefaults => if weighed then IsLightest(rows, l, v) else IsLast(rows, l, v)
      case _ => IsLast(rows, l, v)
  }

  function Overriding(picks: Picks): Option<Layer> {
    if picks(AnsibleOverrides).Some? then Some(AnsibleOverrides)
    else if picks(AppOverrides).Some? then Some(AppOverrides)
    else if picks(RoleOverrides).Some? then Some(RoleOverrides)
    else if picks(StatusOverrides).Some? then Some(StatusOverrides)
    else if picks(HostTypeOverrides).Some? then Some(HostTypeOverrides)
    else if picks(HostRoleDefaults).Some? then Some(HostRoleDefaults)
    else if picks(HostTypeRoleDefaults).Some? then Some(HostTypeRoleDefaults)
    else None
  }

  function Defaulting(picks: Picks): Option<Layer> {
    if picks(AnsibleDefaults).Some? then Some(AnsibleDefaults)
    else if picks(StatusDefaults).Some? then Some(StatusDefaults)
    else if picks(GlobalRoleDefaults).Some? then Some(GlobalRoleDefaults)
    else if picks(HostTypeDefaults).Some? then Some(HostTypeDefaults)
    else if picks(AppDefaults).Some? then Some(AppDefaults)
    else None
  }

  lemma OverridingIsHighest(picks: Picks, l: Layer)
    requires picks(l).Some? && ModeOf(l).Overwrite?
    ensures var o := Overriding(picks); o.Some? && Rank(l) <= Rank(o.value)
  {
  }

  lemma OverridingWrites(picks: Picks)
    ensures var o := Overriding(picks); o.Some? ==> picks(o.value).Some? && ModeOf(o.value).Overwrite?
  {
  }

  lemma OverridingIsWriter(picks: Picks)
    ensures Writer(picks, LAYERS) == Overriding(picks)
  {
    LayersInRankOrder();
    WriterIsHighest(picks, LAYERS);
    OverridingWrites(picks);
    var w, o := Writer(picks, LAYERS), Overriding(picks);
    if w.Some? {
      OverridingIsHighest(picks, w.value);
    }
    if o.Some? {
      EveryLayer(o.value);
      RankDetermines(w.value, o.value);
    }
  }

  lemma DefaultingIsLowest(picks: Picks, l: Layer)
    requires picks(l).Some? && ModeOf(l).Fill?
    ensures var d := Defaulting(picks); d.Some? && Rank(d.value) <= Rank(l)
  {
  }

  lemma DefaultingFills(picks: Picks)
    ensures var d := Defaulting(picks); d.Some? ==> picks(d.value).Some? && ModeOf(d.value).Fill?
  {
  }

  lemma DefaultingIsFiller(picks: Picks)
    ensures Filler(picks, LAYERS) == Defaulting(picks)
  {
    LayersInRankOrder();
    FillerIsLowest(picks, LAYERS);
    DefaultingFills(picks);
    var f, d := Filler(picks, LAYERS), Defaulting(picks);
    if f.Some? {
      DefaultingIsLowest(picks, f.value);
    }
    if d.Some? {
      EveryLayer(d.value);
      RankDetermines(f.value, d.value);
    }
  }

  lemma Cascade(picks: Picks, own: Option<Source>)
    ensures Winner(picks, own)
         == var o, d := Overriding(picks), Defaulting(picks);
            if o.Some? then picks(o.value) else if own.Some? then own else if d.Some? then picks(d.value) else None
  {
    OverridingIsWriter(picks);
    DefaultingIsFiller(picks);
  }

  ghost predicate OffersAll(on: Tables, weighed: bool, picks: Picks) {
    forall l :: Offers(on(l), l, weighed, picks(l))
  }

  lemma Offered(on: Tables, weighed: bool, picks: Picks, l: Layer)
    requires OffersAll(on, weighed, picks)
    ensures Offers(on(l), l, weighed, picks(l)) && (picks(l).Some? <==> on(l) != [])
  {
  }

  lemma OverridingObeys(on: Tables, picks: Picks, own: Option<Source>, weighed: bool, l: Layer)
    requires OffersAll(on, weighed, picks) && Overriding(picks) == Some(l)
    ensures Supplied(on, own, weighed, picks(l))
  {
    forall m ensures picks(m).Some? <==> on(m) != [] {
      Offered(on, weighed, picks, m);
    }
    Offered(on, weighed, picks, l);
  }

  lemma DefaultingObeys(on: Tables, picks: Picks, own: Option<Source>, weighed: bool)
    requires OffersAll(on, weighed, picks) && Overriding(picks) == None
    ensures var d := Defaulting(picks);
      Supplied(on, own, weighed, if own.Some? then own else if d.Some? then picks(d.value) else None)
  {
    forall m ensures picks(m).Some? <==> on(m) != [] {
      Offered(on, weighed, picks, m);
    }
    if Defaulting(picks).Some? {
      Offered(on, weighed, picks, Defaulting(picks).value);
    }
  }

  lemma WinnerObeys(on: Tables, picks: Picks, own: Option<Source>, weighed: bool)
    requires OffersAll(on, weighed, picks)
    ensures Supplied(on, own, weighed, Winner(picks, own))
  {
    Cascade(picks, own);
    if Overriding(picks).Some? {
      OverridingObeys(on, picks, own, weighed, Overriding(picks).value);
    } else {
      DefaultingObeys(on, picks, own, weighed);
    }
  }

  lemma {:induction false} SameFilter<T(!new)>(s: seq<T>, p: T -> bool, q: T -> bool)
    requires forall x :: p(x) == q(x)
    ensures Filter(s, p) == Filter(s, q)
  {
    if s != [] {
      SameFilter(Init(s), p, q);
    }
  }

  lemma PickOffers(rows: seq<Row>, l: Layer)
    ensures Offers(rows, l, true, Pick(l, rows))
  {
  }

  lemma InventoryOffers(t: Tables, host: string, key: string, l: Layer)
    ensures Offers(RowsOn(t, host, key)(l), l, true, InventoryPicks(t, host, key)(l))
  {
    SameFilter(t(l), About(l, host, key), (r: Row) => (l == AnsibleDefaults || r.host == host) && r.field == key);
    PickOffers(Candidates(t, l, host, key), l);
  }

  lemma ExplorerOffers(e: Tables, key: string, l: Layer)
    ensures Offers(RowsNamed(e, key)(l), l, false, QueryPicks(e, key)(l))
  {
    SameFilter(e(l), HasField(key), (r: Row) => r.field == key);
  }

  /** The inventory endpoint: the first table of the law that has a row about the variable supplies it. */
  lemma EndpointObeys(rows: seq<HostRow>, t: Tables, h: string, k: string)
    requires h in NamesOf(rows) && k != ""
    ensures LastNamed(rows, h).Some? && h in FullHostvars(rows, t)
    ensures Supplied(RowsOn(t, h, k), Own(LastNamed(rows, h).value, k), true, Lookup(FullHostvars(rows, t)[h], k))
  {
    FullVariable(rows, t, h, k);
    OwnIsColumn(LastNamed(rows, h).value, k);
    forall l ensures Offers(RowsOn(t, h, k)(l), l, true, InventoryPicks(t, h, k)(l)) {
      InventoryOffers(t, h, k, l);
    }
    WinnerObeys(RowsOn(t, h, k), InventoryPicks(t, h, k), Own(LastNamed(rows, h).value, k), true);
  }

  /** A job run obeys the same law. */
  lemma JobObeys(selected: seq<HostRow>, t: Tables, h: string, k: string)
    requires h in NamesOf(selected) && k != ""
    ensures LastNamed(selected, h).Some? && h in JobHostvars(selected, t)
    ensures Supplied(RowsOn(t, h, k), Own(LastNamed(selected, h).value, k), true, Lookup(JobHostvars(selected, t)[h], k))
  {
    JobVariable(selected, t, h, k);
    OwnIsColumn(LastNamed(selected, h).value, k);
    forall l ensures Offers(RowsOn(t, h, k)(l), l, true, InventoryPicks(t, h, k)(l)) {
      InventoryOffers(t, h, k, l);
    }
    WinnerObeys(RowsOn(t, h, k), InventoryPicks(t, h, k), Own(LastNamed(selected, h).value, k), true);
  }

  /** The explorer too, with its role rows in the order of its queries. */
  lemma ExplorerObeys(host: HostRow, e: Tables, k: string)
    ensures Supplied(RowsNamed(e, k), Own(host, k), false, CurrentSource(Explore(host, e), k))
  {
    ExplorerClosedForm(host, e, k);
    OwnIsColumn(host, k);
    forall l ensures Offers(RowsNamed(e, k)(l), l, false, QueryPicks(e, k)(l)) {
      ExplorerOffers(e, k, l);
    }
    WinnerObeys(RowsNamed(e, k), QueryPicks(e, k), Own(host, k), false);
  }

  // ----- What follows -----

  /** Some table that assigns has a row about the variable. */
  ghost predicate Assigned(t: Tables, h: string, k: string) {
    var on := RowsOn(t, h, k);
    || on(AnsibleOverrides) != [] || on(AppOverrides) != [] || on(RoleOverrides) != [] || on(StatusOverrides) != []
    || on(HostTypeOverrides) != [] || on(HostRoleDefaults) != [] || on(HostTypeRoleDefaults) != []
  }

  /** A column of the host beats every default but those of its own roles and its type's. */
  lemma ColumnBeatsDefaults(rows: seq<HostRow>, t: Tables, h: string, k: string)
    requires h in NamesOf(rows) && k != ""
    ensures LastNamed(rows, h).Some? && h in FullHostvars(rows, t)
    ensures var own := Own(LastNamed(rows, h).value, k);
      own.Some? ==> (Lookup(FullHostvars(rows, t)[h], k) == own <==> !Assigned(t, h, k))
  {
    EndpointObeys(rows, t, h, k);
  }

  /** An application's default is used exactly when no other table has a row about the variable and the host no
      column of that name; so it never beats a role's. */
  lemma AppDefaultIsLast(rows: seq<HostRow>, t: Tables, h: string, k: string)
    requires h in NamesOf(rows) && k != ""
    ensures LastNamed(rows, h).Some? && h in FullHostvars(rows, t)
    ensures var v := Lookup(FullHostvars(rows, t)[h], k);
      v.Some? && v.value.FromRow? && v.value.layer == AppDefaults
      <==> RowsOn(t, h, k)(AppDefaults) != [] && Own(LastNamed(rows, h).value, k).None?
           && forall l :: l != AppDefaults ==> RowsOn(t, h, k)(l) == []
  {
    EndpointObeys(rows, t, h, k);
  }

  // ----- The groups -----

  /** What the column holds, as text. */
  function TextOf(r: HostRow, column: string): Option<string> {
    if column !in r.columns then None
    else
      match r.columns[column]
      case Null => None
      case Str(text) => Some(text)
      case Num(number) => Some(Decimal(number))
  }

  /** A row with these roles and applications asks for the group of that prefix and text. */
  ghost predicate Asks(r: HostRow, roles: seq<string>, apps: seq<string>, tag: Tag) {
    match tag.prefix
    case "env" => TextOf(r, "env") == Some(tag.text)
    case "type" => TextOf(r, "type") == Some(tag.text)
    case "vlan" => TextOf(r, "vlan_id") == Some(tag.text)
    case "k3s" => TextOf(r, "k3s_cluster") == Some(tag.text)
    case "status" => TextOf(r, "status") == Some(tag.text)
    case "ds_os" => TextOf(r, "vm_storage_os_datastore") == Some(tag.text)
    case "ds_hdd01" => TextOf(r, "vm_storage_hdd01_datastore") == Some(tag.text)
    case "role" => exists n :: n in roles && tag.text == Strip(n, IsSpace)
    case "app" => exists n :: n in apps && tag.text == Strip(n, IsSpace)
    case _ => false
  }

  /** The column lists these names, as the view's GROUP_CONCAT writes them. */
  ghost predicate Lists(r: HostRow, column: string, names: seq<string>) {
    && (forall n :: n in names ==> n != "" && ',' !in n)
    && if names == [] then column !in r.columns || r.columns[column] == Null || r.columns[column] == Str("")
       else column in r.columns && r.columns[column] == Str(Joined(names, ", "))
  }

  lemma SplitCommaSpaceStep(c: char, s: string)
    requires c != ',' && s != ""
    ensures var parts := SplitCommaSpace(s); SplitCommaSpace([c] + s) == [[c] + parts[0]] + parts[1..]
  {
    assert ([c] + s)[1..] == s;
  }

  lemma SplitCommaSpaceAt(first: string, rest: string)
    requires ',' !in first
    ensures SplitCommaSpace(first + ", " + rest) == [first] + SplitCommaSpace(rest)
    decreases |first|
  {
    var s := first + ", " + rest;
    if first == [] {
      assert s[2..] == rest;
    } else {
      var later := first[1..] + ", " + rest;
      assert s == [first[0]] + later && first[0] in first;
      SplitCommaSpaceAt(first[1..], rest);
      SplitCommaSpaceStep(first[0], later);
      assert [first[0]] + first[1..] == first;
    }
  }

  lemma SplitCommaSpaceNone(s: string)
    requires ',' !in s
    ensures SplitCommaSpace(s) == [s]
  {
    if |s| >= 2 {
      assert s[0] in s;
      SplitCommaSpaceNone(s[1..]);
      assert [s[0]] + s[1..] == s;
    }
  }

  lemma {:induction false} RolesBack(names: seq<string>)
    requires names != [] && forall n :: n in names ==> ',' !in n
    ensures SplitCommaSpace(Joined(names, ", ")) == names
  {
    if |names| == 1 {
      SplitCommaSpaceNone(names[0]);
    } else {
      RolesBack(names[1..]);
      SplitCommaSpaceAt(names[0], Joined(names[1..], ", "));
    }
  }

  /** Splitting on commas alone leaves the blank in front of every name but the first. */
  function Blanked(names: seq<string>): (r: seq<string>)
    ensures |r| == |names| && forall i :: 0 <= i < |names| ==> r[i] == " " + names[i]
  {
    if names == [] then [] else [" " + names[0]] + Blanked(names[1..])
  }

  function Spaced(names: seq<string>): seq<string>
    requires names != []
  {
    [names[0]] + Blanked(names[1..])
  }

  lemma CommaApart(first: string, rest: string)
    requires ',' !in first
    ensures Split(first + ", " + rest, ',') == [first] + Split(" " + rest, ',')
  {
    SplitAt(first, " " + rest, ',');
    assert first + ", " + rest == first + [','] + (" " + rest);
  }

  lemma BlankInFront(first: string, rest: string)
    ensures " " + (first + ", " + rest) == " " + first + ", " + rest
  {
  }

  lemma {:induction false} BlankJoined(names: seq<string>)
    requires names != [] && forall n :: n in names ==> ',' !in n
    ensures Split(" " + Joined(names, ", "), ',') == Blanked(names)
  {
    if |names| == 1 {
      SplitNone(" " + names[0], ',');
    } else {
      BlankJoined(names[1..]);
      CommaApart(" " + names[0], Joined(names[1..], ", "));
      BlankInFront(names[0], Joined(names[1..], ", "));
    }
  }

  lemma AppsBack(names: seq<string>)
    requires names != [] && forall n :: n in names ==> ',' !in n
    ensures Split(Joined(names, ", "), ',') == Spaced(names)
  {
    if |names| == 1 {
      SplitNone(names[0], ',');
    } else {
      BlankJoined(names[1..]);
      CommaApart(names[0], Joined(names[1..], ", "));
    }
  }

  lemma SpacedStripped(names: seq<string>, text: string)
    requires names != []
    ensures (exists p :: p in Spaced(names) && text == Strip(p, IsSpace)) <==> exists n :: n in names && text == Strip(n, IsSpace)
  {
    var spaced := Spaced(names);
    forall i | 0 <= i < |names| ensures Strip(spaced[i], IsSpace) == Strip(names[i], IsSpace) {
      assert i > 0 ==> spaced[i] == " " + names[i] && (" " + names[i])[1..] == names[i];
    }
    if p :| p in spaced && text == Strip(p, IsSpace) {
      var i :| 0 <= i < |spaced| && spaced[i] == p;
      assert names[i] in names;
    }
    if n :| n in names && text == Strip(n, IsSpace) {
      var i :| 0 <= i < |names| && names[i] == n;
      assert spaced[i] in spaced;
    }
  }

  lemma JoinedNonempty(names: seq<string>, sep: string)
    requires names != [] && forall n :: n in names ==> n != ""
    ensures Joined(names, sep) != ""
  {
    assert names[0] in names;
  }

  lemma ListedTags(prefix: string, names: seq<string>, tag: Tag)
    ensures tag in TaggedAll(prefix, names) <==> tag.prefix == prefix && exists n :: n in names && tag.text == Strip(n, IsSpace)
  {
    var tagged := TaggedAll(prefix, names);
    if tag in tagged {
      var i :| 0 <= i < |tagged| && tagged[i] == tag;
      assert names[i] in names;
    }
    forall n | n in names && tag == Tag(prefix, Strip(n, IsSpace)) ensures tag in tagged {
      var i :| 0 <= i < |names| && names[i] == n;
      assert tagged[i] == tag;
    }
  }

  lemma RoleTags(r: HostRow, roles: seq<string>, tag: Tag)
    requires Lists(r, "role", roles)
    ensures tag in (if Falsy(Cell(r, "role")) then [] else TaggedAll("role", SplitCommaSpace(Shown(Cell(r, "role")))))
       <==> tag.prefix == "role" && exists n :: n in roles && tag.text == Strip(n, IsSpace)
  {
    if roles != [] {
      JoinedNonempty(roles, ", ");
      RolesBack(roles);
      ListedTags("role", roles, tag);
    }
  }

  lemma AppTags(r: HostRow, apps: seq<string>, tag: Tag)
    requires Lists(r, "apps", apps)
    ensures tag in (if Falsy(Cell(r, "apps")) then [] else TaggedAll("app", Split(Shown(Cell(r, "apps")), ',')))
       <==> tag.prefix == "app" && exists n :: n in apps && tag.text == Strip(n, IsSpace)
  {
    if apps != [] {
      JoinedNonempty(apps, ", ");
      AppsBack(apps);
      ListedTags("app", Spaced(apps), tag);
      SpacedStripped(apps, tag.text);
    }
  }

  lemma ColumnTag(r: HostRow, prefix: string, column: string, tag: Tag)
    ensures tag in Tagged(prefix, Cell(r, column)) <==> tag.prefix == prefix && TextOf(r, column) == Some(tag.text)
  {
  }

  /** A row asks for the groups named after its columns, its roles and its applications, and for no other. */
  lemma TagsExact(r: HostRow, roles: seq<string>, apps: seq<string>, tag: Tag)
    requires Lists(r, "role", roles) && Lists(r, "apps", apps)
    ensures tag in TagsOf(r) <==> Asks(r, roles, apps, tag)
  {
    RoleTags(r, roles, tag);
    AppTags(r, apps, tag);
    ColumnTag(r, "env", "env", tag);
    ColumnTag(r, "type", "type", tag);
    ColumnTag(r, "vlan", "vlan_id", tag);
    ColumnTag(r, "k3s", "k3s_cluster", tag);
    ColumnTag(r, "status", "status", tag);
    ColumnTag(r, "ds_os", "vm_storage_os_datastore", tag);
    ColumnTag(r, "ds_hdd01", "vm_storage_hdd01_datastore", tag);
  }

  ghost predicate StandsIn(r: HostRow, roles: seq<string>, apps: seq<string>, g: string) {
    exists tag :: Asks(r, roles, apps, tag) && GroupName(tag) == g
  }

  lemma GroupsExact(r: HostRow, roles: seq<string>, apps: seq<string>, g: string)
    requires Lists(r, "role", roles) && Lists(r, "apps", apps)
    ensures g in GroupsOf(r) <==> StandsIn(r, roles, apps, g)
  {
    MapHas(TagsOf(r), GroupName, g);
    forall tag ensures tag in TagsOf(r) <==> Asks(r, roles, apps, tag) {
      TagsExact(r, roles, apps, tag);
    }
  }

  /** The members of a group are the named hosts that ask for it. */
  lemma MembersExact(rows: seq<HostRow>, roles: HostRow -> seq<string>, apps: HostRow -> seq<string>, g: string, h: string)
    requires forall r :: r in rows ==> Lists(r, "role", roles(r)) && Lists(r, "apps", apps(r))
    ensures h in Members(BaseGroups(rows), g)
       <==> h != "" && exists r :: r in rows && r.name == h && StandsIn(r, roles(r), apps(r), g)
  {
    GroupMembers(rows, g, h);
    forall r | r in rows ensures g in GroupsOf(r) <==> StandsIn(r, roles(r), apps(r), g) {
      GroupsExact(r, roles(r), apps(r), g);
    }
  }
}
