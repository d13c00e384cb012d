/** What one Proxmox sync does to the inventory tables.  Tables are maps on their unique key; timestamps, the run
    row and free-text notes are left out. */
module ProxmoxModel {
  import opened Prelude
  import opened Text

  // ----- The snapshot -----

  datatype Node = Node(name: string, credential: int, cores: int, ramMb: int)

  datatype Tags = Tags(status: Option<string>, apps: seq<string>)

  /** What the config of a VM reveals when it is queued; a part that could not be read is None. */
  datatype Scan = Scan(disks: Option<seq<(string, int)>>, nets: Option<string>, ip: Option<string>, mac: Option<string>,
                       vlanTag: Option<int>)

  /** What the config reveals when the VM becomes a host. */
  datatype Found = Found(ip: Option<string>, mac: Option<string>, vlanTag: Option<int>)

  /** disks is empty when the config could not be read; tags is None when the snapshot has no tags key. */
  datatype Vm = Vm(vmid: int, name: string, vmType: string, node: string, credential: int, cores: int, ramMb: int,
                   tags: Option<Tags>, scan: Scan, found: Found, disks: seq<(string, int)>)

  datatype Snapshot = Snapshot(nodes: seq<Node>, vms: seq<Vm>)

  // ----- The tables -----

  datatype Host = Host(name: string, node: Option<string>, typeId: int, statusId: Option<int>, environmentId: int,
                       vlanId: int, ipv4: string, mac: Option<string>)

  datatype Review = Open | Promoted | Dismissed

  datatype Pending = Pending(review: Review, credential: Option<int>, name: string, vmType: string, node: Option<string>,
                             cores: int, ramMb: int, disks: Option<seq<(string, int)>>, nets: Option<string>,
                             ip: Option<string>, mac: Option<string>, vlanId: Option<int>, typeId: Option<int>)

  datatype NodePending = NodePending(review: Review, cores: int, ramMb: int, typeId: int)

  datatype Resource = Resource(sockets: int, cores: int, ramMb: int)

  datatype Storage = Storage(datastoreId: int, sizeGb: int)

  /** The tables looked up by name, and the next id to hand out. */
  datatype Names = Names(hostTypes: map<string, int>, statuses: map<string, int>, apps: map<string, int>,
                         datastores: map<string, int>, vlans: map<int, int>, nextId: int)

  datatype Db = Db(
    names: Names, hosts: map<int, Host>, pending: map<int, Pending>, nodePending: map<(string, int), NodePending>,
    hostApps: set<(int, int)>, hostRoles: map<(int, int), int>, resources: map<int, Resource>,
    storage: map<(int, string), Storage>)

  datatype Settings = Settings(environment: Option<int>, vlan: Option<int>, role: Option<int>)

  datatype Defaults = Defaults(environment: int, vlan: int, role: int)

  // ----- Get or create -----

  ghost predicate Extends<K(!new), V>(a: map<K, V>, b: map<K, V>) {
    forall k :: k in a ==> k in b && b[k] == a[k]
  }

  /** The lookup tables only grow: no id changes, no entry disappears. */
  ghost predicate Grows(n: Names, r: Names) {
    && Extends(n.hostTypes, r.hostTypes) && Extends(n.statuses, r.statuses) && Extends(n.apps, r.apps)
    && Extends(n.datastores, r.datastores) && Extends(n.vlans, r.vlans)
  }

  function WithType(n: Names, name: string): (r: Names)
    ensures Grows(n, r) && name in r.hostTypes && r.vlans == n.vlans
  {
    if name in n.hostTypes then n else n.(hostTypes := n.hostTypes[name := n.nextId], nextId := n.nextId + 1)
  }

  function WithStatus(n: Names, name: string): (r: Names)
    ensures Grows(n, r) && name in r.statuses && r.vlans == n.vlans
  {
    if name in n.statuses then n else n.(statuses := n.statuses[name := n.nextId], nextId := n.nextId + 1)
  }

  function WithApp(n: Names, name: string): (r: Names)
    ensures Grows(n, r) && name in r.apps && r.vlans == n.vlans
  {
    if name in n.apps then n else n.(apps := n.apps[name := n.nextId], nextId := n.nextId + 1)
  }

  function WithDatastore(n: Names, name: string): (r: Names)
    ensures Grows(n, r) && name in r.datastores && r.vlans == n.vlans
  {
    if name in n.datastores then n else n.(datastores := n.datastores[name := n.nextId], nextId := n.nextId + 1)
  }

  function WithVlan(n: Names, tag: Option<int>): (r: Names)
    ensures Grows(n, r) && (tag.Some? ==> tag.value in r.vlans)
  {
    if tag.None? || tag.value in n.vlans then n
    else n.(vlans := n.vlans[tag.value := n.nextId], nextId := n.nextId + 1)
  }

  function VlanId(n: Names, tag: Option<int>): Option<int> {
    if tag.None? then None else Lookup(n.vlans, tag.value)
  }

  // ----- Nodes -----

  function SyncNode(db: Db, n: Node): Db {
    var key := (n.name, n.credential);
    if n.name == "" then db
    else if key in db.nodePending && !db.nodePending[key].review.Open? then db
    else
      var names := WithType(db.names, "pve-node");
      var row := NodePending(Open, n.cores, n.ramMb, names.hostTypes["pve-node"]);
      db.(names := names, nodePending := db.nodePending[key := row])
  }

  function SyncNodes(db: Db, nodes: seq<Node>): Db {
    if nodes == [] then db else SyncNode(SyncNodes(db, Init(nodes)), Last(nodes))
  }

  // ----- A VM that cannot become a host yet -----

  function TypeName(vm: Vm): string { if vm.vmType == "lxc" then "lxc" else "vm" }

  function NodeOf(vm: Vm): Option<string> { if vm.node == "" then None else Some(vm.node) }

  function CredentialOf(vm: Vm): Option<int> { if vm.credential == 0 then None else Some(vm.credential) }

  /** The new pending row: a first entry, a dismissed one queued again, a refreshed one, or an untouched
      promoted one.  Only the refresh keeps disks, nets, VM type and host type it already has. */
  function QueuedRow(before: Option<Pending>, vm: Vm, typeId: int, vlan: Option<int>): Pending {
    var scan := vm.scan;
    if before.None? then
      Pending(Open, CredentialOf(vm), vm.name, vm.vmType, NodeOf(vm), vm.cores, vm.ramMb, scan.disks, scan.nets,
              scan.ip, scan.mac, vlan, Some(typeId))
    else
      var p := before.value;
      match p.review
      case Promoted => p
      case Dismissed =>
        p.(review := Open, credential := CredentialOf(vm), name := vm.name, vmType := vm.vmType, node := NodeOf(vm),
           cores := vm.cores, ramMb := vm.ramMb, disks := scan.disks, nets := scan.nets, typeId := Some(typeId),
           ip := OrOld(scan.ip, p.ip), mac := OrOld(scan.mac, p.mac), vlanId := OrOld(vlan, p.vlanId))
      case Open =>
        p.(credential := CredentialOf(vm), name := vm.name, node := NodeOf(vm), cores := vm.cores, ramMb := vm.ramMb,
           disks := OrOld(scan.disks, p.disks), nets := OrOld(scan.nets, p.nets),
           typeId := OrOld(p.typeId, Some(typeId)), ip := OrOld(scan.ip, p.ip), mac := OrOld(scan.mac, p.mac),
           vlanId := OrOld(vlan, p.vlanId))
  }

  function OrOld<T>(found: Option<T>, old_: Option<T>): Option<T> { if found.Some? then found else old_ }

  function QueueVm(db: Db, vm: Vm): Db {
    var names := WithType(WithVlan(db.names, vm.scan.vlanTag), TypeName(vm));
    var row := QueuedRow(Lookup(db.pending, vm.vmid), vm, names.hostTypes[TypeName(vm)], VlanId(names, vm.scan.vlanTag));
    db.(names := names, pending := db.pending[vm.vmid := row])
  }

  // ----- A VM that is or becomes a host -----

  function NamesForHost(n: Names, vm: Vm): (r: Names)
    ensures Grows(n, r) && TypeName(vm) in r.hostTypes
  {
    var typed := WithType(WithVlan(n, vm.found.vlanTag), TypeName(vm));
    if vm.node == "" then typed else WithType(typed, "pve-node")
  }

  function CreateHost(db: Db, vm: Vm, d: Defaults): Db {
    var names := NamesForHost(db.names, vm);
    var host := Host(vm.name, NodeOf(vm), names.hostTypes[TypeName(vm)], None, d.environment,
                     GetOr(VlanId(names, vm.found.vlanTag), d.vlan), GetOr(vm.found.ip, "DHCP"), vm.found.mac);
    db.(names := names, hosts := db.hosts[vm.vmid := host], hostRoles := db.hostRoles[(vm.vmid, d.role) := 1])
  }

  function GetOr<T>(o: Option<T>, default: T): T { if o.Some? then o.value else default }

  function UpdateHost(db: Db, vm: Vm): Db
    requires vm.vmid in db.hosts
  {
    db.(hosts := db.hosts[vm.vmid := db.hosts[vm.vmid].(name := vm.name, node := NodeOf(vm))])
  }

  function WithApps(n: Names, apps: seq<string>): Names {
    if apps == [] then n else WithApp(WithApps(n, Init(apps)), Last(apps))
  }

  /** The ids of those of these apps that exist. */
  function AppIds(n: Names, apps: seq<string>): set<int> {
    set a | a in apps && a in n.apps :: n.apps[a]
  }

  /** Adds the missing rows of the host and deletes those of apps it is not tagged with. */
  function HostAppsFor(rows: set<(int, int)>, vmid: int, ids: set<int>): set<(int, int)> {
    (set row | row in rows && (row.0 != vmid || row.1 in ids)) + (set a | a in ids :: (vmid, a))
  }

  function SyncApps(db: Db, vmid: int, apps: seq<string>): Db {
    var names := WithApps(db.names, apps);
    db.(names := names, hostApps := HostAppsFor(db.hostApps, vmid, AppIds(names, apps)))
  }

  function NamesForTags(n: Names, tags: Tags): (r: Names)
    ensures Grows(n, r) && r.vlans == n.vlans && (tags.status.Some? ==> tags.status.value in r.statuses)
  {
    if tags.status.Some? then WithStatus(n, tags.status.value) else n
  }

  function StatusOf(n: Names, tags: Tags): Option<int> {
    if tags.status.None? then None else Lookup(n.statuses, tags.status.value)
  }

  function SyncTags(db: Db, vmid: int, tags: Tags): Db
    requires vmid in db.hosts
  {
    var names := NamesForTags(db.names, tags);
    var host := db.hosts[vmid].(statusId := StatusOf(names, tags));
    SyncApps(db.(names := names, hosts := db.hosts[vmid := host]), vmid, tags.apps)
  }

  function Purpose(i: nat): string {
    if i == 0 then "os" else "hdd" + (if i < 10 then "0" else "") + Decimal(i)
  }

  function PutDisk(db: Db, vmid: int, i: nat, disk: (string, int)): Db {
    var names := WithDatastore(db.names, disk.0);
    db.(names := names, storage := db.storage[(vmid, Purpose(i)) := Storage(names.datastores[disk.0], disk.1)])
  }

  function PutDisks(db: Db, vmid: int, disks: seq<(string, int)>): Db {
    if disks == [] then db else PutDisk(PutDisks(db, vmid, Init(disks)), vmid, |disks| - 1, Last(disks))
  }

  predicate Current(vmid: int, key: (int, string), count: nat) {
    key.0 != vmid || exists i | 0 <= i < count :: key.1 == Purpose(i)
  }

  function SyncStorage(db: Db, vmid: int, disks: seq<(string, int)>): Db {
    var db1 := PutDisks(db, vmid, disks);
    if disks == [] then db1
    else db1.(storage := map key | key in db1.storage && Current(vmid, key, |disks|) :: db1.storage[key])
  }

  function FinishHost(db: Db, vm: Vm): Db
    requires vm.vmid in db.hosts
  {
    var db1 := db.(pending := db.pending - {vm.vmid});
    var db2 := if vm.tags.Some? then SyncTags(db1, vm.vmid, vm.tags.value) else db1;
    var db3 := db2.(resources := db2.resources[vm.vmid := Resource(1, vm.cores, vm.ramMb)]);
    SyncStorage(db3, vm.vmid, vm.disks)
  }

  function SyncVm(db: Db, vm: Vm, d: Option<Defaults>): Db {
    if vm.vmid in db.hosts then FinishHost(UpdateHost(db, vm), vm)
    else if d.Some? then FinishHost(CreateHost(db, vm, d.value), vm)
    else QueueVm(db, vm)
  }

  function SyncVms(db: Db, vms: seq<Vm>, d: Option<Defaults>): Db {
    if vms == [] then db else SyncVm(SyncVms(db, Init(vms), d), Last(vms), d)
  }

  // ----- The sync -----

  /** _first_id for VLANs: the configured one, else the one of least id, if there is any. */
  ghost predicate IsFirstVlan(s: Settings, db: Db, vlan: Option<int>) {
    if s.vlan.Some? then vlan == s.vlan
    else if db.names.vlans == map[] then vlan.None?
    else vlan.Some? && vlan.value in db.names.vlans.Values && forall id :: id in db.names.vlans.Values ==> vlan.value <= id
  }

  ghost predicate DefaultsOf(s: Settings, db: Db, d: Option<Defaults>) {
    exists vlan :: IsFirstVlan(s, db, vlan) &&
      d == if s.environment.Some? && vlan.Some? && s.role.Some?
           then Some(Defaults(s.environment.value, vlan.value, s.role.value)) else None
  }

  function Sync(db: Db, snap: Snapshot, d: Option<Defaults>): Db {
    SyncVms(SyncNodes(db, snap.nodes), snap.vms, d)
  }

  datatype Stats = Stats(created: nat, updated: nat, pending: nat)

  function StepStats(st: Stats, db: Db, vm: Vm, d: Option<Defaults>): Stats {
    if vm.vmid in db.hosts then st.(updated := st.updated + 1)
    else if d.Some? then st.(created := st.created + 1)
    else st.(pending := st.pending + 1)
  }

  function SyncStats(db: Db, vms: seq<Vm>, d: Option<Defaults>): Stats {
    if vms == [] then Stats(0, 0, 0)
    else StepStats(SyncStats(db, Init(vms), d), SyncVms(db, Init(vms), d), Last(vms), d)
  }
}
