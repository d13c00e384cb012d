/** What a sync adds to the lookup tables: rows with ids of their own, and only those it needs. */
module ProxmoxNames {
  import opened Prelude
  import opened ProxmoxModel
  import opened ProxmoxSync

  // ----- The ids -----

  /** No two rows of the table have the same id, and the next id to hand out is above them all. */
  ghost predicate Apart<K(!new)>(table: map<K, int>, next: int) {
    && (forall k :: k in table ==> table[k] < next)
    && forall j, k :: j in table && k in table && table[j] == table[k] ==> j == k
  }

  ghost predicate IdsApart(n: Names) {
    && Apart(n.hostTypes, n.nextId) && Apart(n.statuses, n.nextId) && Apart(n.apps, n.nextId)
    && Apart(n.datastores, n.nextId) && Apart(n.vlans, n.nextId)
  }

  ghost predicate StaysApart(n: Names, r: Names) { IdsApart(n) ==> IdsApart(r) }

  lemma TypeApart(n: Names, name: string)
    ensures StaysApart(n, WithType(n, name))
  {
  }

  lemma StatusApart(n: Names, name: string)
    ensures StaysApart(n, WithStatus(n, name))
  {
  }

  lemma AppApart(n: Names, name: string)
    ensures StaysApart(n, WithApp(n, name))
  {
  }

  lemma DatastoreApart(n: Names, name: string)
    ensures StaysApart(n, WithDatastore(n, name))
  {
  }

  lemma VlanApart(n: Names, tag: Option<int>)
    ensures StaysApart(n, WithVlan(n, tag))
  {
  }

  lemma {:induction false} AppsApart(n: Names, apps: seq<string>)
    ensures StaysApart(n, WithApps(n, apps))
  {
    if apps != [] {
      AppsApart(n, Init(apps));
      AppApart(WithApps(n, Init(apps)), Last(apps));
    }
  }

  lemma {:induction false} NodesApart(db: Db, nodes: seq<Node>)
    ensures StaysApart(db.names, SyncNodes(db, nodes).names)
  {
    if nodes != [] {
      NodesApart(db, Init(nodes));
      TypeApart(SyncNodes(db, Init(nodes)).names, "pve-node");
    }
  }

  lemma {:induction false} DisksApart(db: Db, vmid: int, disks: seq<(string, int)>)
    ensures StaysApart(db.names, PutDisks(db, vmid, disks).names)
  {
    if disks != [] {
      DisksApart(db, vmid, Init(disks));
      DatastoreApart(PutDisks(db, vmid, Init(disks)).names, Last(disks).0);
    }
  }

  lemma FinishApart(db: Db, vm: Vm)
    requires vm.vmid in db.hosts
    ensures StaysApart(db.names, FinishHost(db, vm).names)
  {
    var db1 := db.(pending := db.pending - {vm.vmid});
    if vm.tags.Some? {
      var tags := vm.tags.value;
      if tags.status.Some? {
        StatusApart(db.names, tags.status.value);
      }
      AppsApart(NamesForTags(db.names, tags), tags.apps);
    }
    var db2 := if vm.tags.Some? then SyncTags(db1, vm.vmid, vm.tags.value) else db1;
    DisksApart(db2.(resources := db2.resources[vm.vmid := Resource(1, vm.cores, vm.ramMb)]), vm.vmid, vm.disks);
  }

  lemma NamesApart(n: Names, vm: Vm)
    ensures StaysApart(n, NamesForHost(n, vm))
  {
    VlanApart(n, vm.found.vlanTag);
    TypeApart(WithVlan(n, vm.found.vlanTag), TypeName(vm));
    TypeApart(WithType(WithVlan(n, vm.found.vlanTag), TypeName(vm)), "pve-node");
  }

  lemma VmApart(db: Db, vm: Vm, d: Option<Defaults>)
    ensures StaysApart(db.names, SyncVm(db, vm, d).names)
  {
    if vm.vmid in db.hosts {
      FinishApart(UpdateHost(db, vm), vm);
    } else if d.Some? {
      NamesApart(db.names, vm);
      FinishApart(CreateHost(db, vm, d.value), vm);
    } else {
      VlanApart(db.names, vm.scan.vlanTag);
      TypeApart(WithVlan(db.names, vm.scan.vlanTag), TypeName(vm));
    }
  }

  lemma {:induction false} VmsApart(db: Db, vms: seq<Vm>, d: Option<Defaults>)
    ensures StaysApart(db.names, SyncVms(db, vms, d).names)
  {
    if vms != [] {
      VmsApart(db, Init(vms), d);
      VmApart(SyncVms(db, Init(vms), d), Last(vms), d);
    }
  }

  /** However many host types, statuses, applications, datastores and VLANs a sync has to create, no two rows of a
      table get the same id. */
  lemma SyncKeepsIdsApart(db: Db, snap: Snapshot, d: Option<Defaults>)
    requires IdsApart(db.names)
    ensures IdsApart(Sync(db, snap, d).names)
  {
    NodesApart(db, snap.nodes);
    VmsApart(SyncNodes(db, snap.nodes), snap.vms, d);
  }

  // ----- The rows -----

  /** The names in each lookup table. */
  datatype Keys = Keys(types: set<string>, statuses: set<string>, apps: set<string>, datastores: set<string>, vlans: set<int>)

  const NONE := Keys({}, {}, {}, {}, {})

  function KeysOf(n: Names): Keys {
    Keys(n.hostTypes.Keys, n.statuses.Keys, n.apps.Keys, n.datastores.Keys, n.vlans.Keys)
  }

  function Plus(a: Keys, b: Keys): Keys {
    Keys(a.types + b.types, a.statuses + b.statuses, a.apps + b.apps, a.datastores + b.datastores, a.vlans + b.vlans)
  }

  ghost function Just<T>(o: Option<T>): set<T> { if o.Some? then {o.value} else {} }

  /** What a VM needs that is a host or becomes one: its status and applications if it is tagged, and its datastores. */
  ghost function HostNeeds(vm: Vm): Keys {
    Keys({},
         if vm.tags.Some? then Just(vm.tags.value.status) else {},
         (set a | vm.tags.Some? && a in vm.tags.value.apps),
         Datastores(vm.disks),
         {})
  }

  /** What a VM needs besides if it is not a host yet: its host type and its VLAN, and the type of nodes when it becomes
      a host on a named one. */
  ghost function NewNeeds(vm: Vm, defaults: bool): Keys {
    Keys({if vm.vmType == "lxc" then "lxc" else "vm"} + (if defaults && vm.node != "" then {"pve-node"} else {}),
         {}, {}, {},
         if defaults then Just(vm.found.vlanTag) else Just(vm.scan.vlanTag))
  }

  ghost function VmNeeds(vm: Vm, known: bool, defaults: bool): Keys {
    Plus(if known then NONE else NewNeeds(vm, defaults), if known || defaults then HostNeeds(vm) else NONE)
  }

  lemma TypeKey(n: Names, name: string)
    ensures KeysOf(WithType(n, name)) == KeysOf(n).(types := n.hostTypes.Keys + {name})
  {
  }

  lemma StatusKey(n: Names, name: string)
    ensures KeysOf(WithStatus(n, name)) == KeysOf(n).(statuses := n.statuses.Keys + {name})
  {
  }

  lemma AppKey(n: Names, name: string)
    ensures KeysOf(WithApp(n, name)) == KeysOf(n).(apps := n.apps.Keys + {name})
  {
  }

  lemma DatastoreKey(n: Names, name: string)
    ensures KeysOf(WithDatastore(n, name)) == KeysOf(n).(datastores := n.datastores.Keys + {name})
  {
  }

  lemma VlanKey(n: Names, tag: Option<int>)
    ensures KeysOf(WithVlan(n, tag)) == KeysOf(n).(vlans := n.vlans.Keys + Just(tag))
  {
  }

  lemma {:induction false} AppKeys(n: Names, apps: seq<string>)
    ensures KeysOf(WithApps(n, apps)) == KeysOf(n).(apps := n.apps.Keys + Elements(apps))
  {
    if apps != [] {
      AppKeys(n, Init(apps));
      AppKey(WithApps(n, Init(apps)), Last(apps));
      assert Elements(apps) == Elements(Init(apps)) + {Last(apps)};
    } else {
      assert n.apps.Keys + Elements(apps) == n.apps.Keys;
    }
  }

  ghost function Datastores(disks: seq<(string, int)>): set<string> { set disk | disk in disks :: disk.0 }

  lemma DatastoresStep(disks: seq<(string, int)>)
    requires disks != []
    ensures Datastores(disks) == Datastores(Init(disks)) + {Last(disks).0}
  {
    assert forall disk :: disk in disks <==> disk in Init(disks) || disk == Last(disks);
  }

  lemma {:induction false} DiskKeys(db: Db, vmid: int, disks: seq<(string, int)>)
    ensures KeysOf(PutDisks(db, vmid, disks).names)
         == KeysOf(db.names).(datastores := db.names.datastores.Keys + Datastores(disks))
  {
    if disks != [] {
      DiskKeys(db, vmid, Init(disks));
      DatastoreKey(PutDisks(db, vmid, Init(disks)).names, Last(disks).0);
      DatastoresStep(disks);
      assert PutDisks(db, vmid, disks).names == WithDatastore(PutDisks(db, vmid, Init(disks)).names, Last(disks).0);
    } else {
      assert db.names.datastores.Keys + Datastores(disks) == db.names.datastores.Keys;
    }
  }

  lemma TagKeys(db: Db, vmid: int, tags: Tags)
    requires vmid in db.hosts
    ensures KeysOf(SyncTags(db, vmid, tags).names)
         == KeysOf(db.names).(statuses := db.names.statuses.Keys + Just(tags.status), apps := db.names.apps.Keys + Elements(tags.apps))
  {
    var names := NamesForTags(db.names, tags);
    if tags.status.Some? {
      StatusKey(db.names, tags.status.value);
    } else {
      assert db.names.statuses.Keys + Just(tags.status) == db.names.statuses.Keys;
    }
    AppKeys(names, tags.apps);
    assert SyncTags(db, vmid, tags).names == WithApps(names, tags.apps);
  }

  lemma TaggedKeys(db: Db, vm: Vm)
    requires vm.vmid in db.hosts
    ensures KeysOf(Tagged(db, vm).names) == Plus(KeysOf(db.names), HostNeeds(vm).(datastores := {}))
  {
    var db1 := db.(pending := db.pending - {vm.vmid});
    if vm.tags.Some? {
      TagKeys(db1, vm.vmid, vm.tags.value);
      assert HostNeeds(vm).apps == Elements(vm.tags.value.apps);
    }
  }

  lemma FinishKeys(db: Db, vm: Vm)
    requires vm.vmid in db.hosts
    ensures KeysOf(FinishHost(db, vm).names) == Plus(KeysOf(db.names), HostNeeds(vm))
  {
    TaggedKeys(db, vm);
    var m := Tagged(db, vm);
    DiskKeys(m.(resources := m.resources[vm.vmid := Resource(1, vm.cores, vm.ramMb)]), vm.vmid, vm.disks);
  }

  lemma NewTypeKeys(n: Names, vm: Vm)
    ensures KeysOf(NamesForHost(n, vm)) == Plus(KeysOf(n), NewNeeds(vm, true))
  {
    VlanKey(n, vm.found.vlanTag);
    var tagged := WithVlan(n, vm.found.vlanTag);
    TypeKey(tagged, TypeName(vm));
    TypeKey(WithType(tagged, TypeName(vm)), "pve-node");
  }

  lemma CreateKeys(db: Db, vm: Vm, d: Defaults)
    ensures KeysOf(CreateHost(db, vm, d).names) == Plus(KeysOf(db.names), NewNeeds(vm, true))
  {
    NewTypeKeys(db.names, vm);
  }

  lemma QueueKeys(db: Db, vm: Vm)
    ensures KeysOf(QueueVm(db, vm).names) == Plus(KeysOf(db.names), NewNeeds(vm, false))
  {
    VlanKey(db.names, vm.scan.vlanTag);
    TypeKey(WithVlan(db.names, vm.scan.vlanTag), TypeName(vm));
  }

  lemma PlusIs(a: Keys, b: Keys, c: Keys)
    ensures Plus(Plus(a, b), c) == Plus(a, Plus(b, c)) && Plus(a, NONE) == a && Plus(NONE, a) == a
  {
  }

  lemma VmKeys(db: Db, vm: Vm, d: Option<Defaults>)
    ensures KeysOf(SyncVm(db, vm, d).names) == Plus(KeysOf(db.names), VmNeeds(vm, vm.vmid in db.hosts, d.Some?))
  {
    if vm.vmid in db.hosts {
      FinishKeys(UpdateHost(db, vm), vm);
      PlusIs(KeysOf(db.names), NONE, HostNeeds(vm));
    } else if d.Some? {
      CreateKeys(db, vm, d.value);
      FinishKeys(CreateHost(db, vm, d.value), vm);
      PlusIs(KeysOf(db.names), NewNeeds(vm, true), HostNeeds(vm));
    } else {
      QueueKeys(db, vm);
      PlusIs(KeysOf(db.names), NewNeeds(vm, false), NONE);
    }
  }

  /** What all the VMs need, by the hosts there are before the sync. */
  ghost function Needs(hosts: set<int>, vms: seq<Vm>, defaults: bool): Keys {
    if vms == [] then NONE
    else Plus(Needs(hosts, Init(vms), defaults), VmNeeds(Last(vms), Last(vms).vmid in hosts, defaults))
  }

  lemma {:induction false} VmsKeys(db: Db, vms: seq<Vm>, d: Option<Defaults>)
    requires DistinctVms(vms)
    ensures KeysOf(SyncVms(db, vms, d).names) == Plus(KeysOf(db.names), Needs(db.hosts.Keys, vms, d.Some?))
  {
    if vms == [] {
      PlusIs(KeysOf(db.names), NONE, NONE);
    } else {
      VmsKeys(db, Init(vms), d);
      KnownBefore(db, vms, d);
      VmKeys(SyncVms(db, Init(vms), d), Last(vms), d);
      PlusIs(KeysOf(db.names), Needs(db.hosts.Keys, Init(vms), d.Some?), VmNeeds(Last(vms), Last(vms).vmid in db.hosts, d.Some?));
    }
  }

  /** A named node that nobody has reviewed is queued, which needs the type of nodes. */
  ghost predicate Queues(rows: map<(string, int), NodePending>, n: Node) {
    n.name != "" && ((n.name, n.credential) in rows ==> rows[(n.name, n.credential)].review == Open)
  }

  ghost function NodeNeeds(rows: map<(string, int), NodePending>, nodes: seq<Node>): Keys {
    NONE.(types := if exists n :: n in nodes && Queues(rows, n) then {"pve-node"} else {})
  }

  lemma NodeQueues(db: Db, n: Node)
    ensures KeysOf(SyncNode(db, n).names)
         == KeysOf(db.names).(types := db.names.hostTypes.Keys + if Queues(db.nodePending, n) then {"pve-node"} else {})
    ensures forall m :: Queues(SyncNode(db, n).nodePending, m) <==> Queues(db.nodePending, m)
  {
  }

  lemma {:induction false} NodeKeys(db: Db, nodes: seq<Node>)
    ensures KeysOf(SyncNodes(db, nodes).names) == Plus(KeysOf(db.names), NodeNeeds(db.nodePending, nodes))
    ensures forall m :: Queues(SyncNodes(db, nodes).nodePending, m) <==> Queues(db.nodePending, m)
  {
    if nodes != [] {
      NodeKeys(db, Init(nodes));
      NodeQueues(SyncNodes(db, Init(nodes)), Last(nodes));
      assert forall n :: n in nodes <==> n in Init(nodes) || n == Last(nodes);
    }
  }

  /** A sync adds to the lookup tables exactly the host types, statuses, applications, datastores and VLANs that its
      nodes and VMs need, and removes none. */
  lemma SyncAddsOnlyNeeded(db: Db, snap: Snapshot, d: Option<Defaults>)
    requires DistinctVms(snap.vms)
    ensures KeysOf(Sync(db, snap, d).names)
         == Plus(Plus(KeysOf(db.names), NodeNeeds(db.nodePending, snap.nodes)), Needs(db.hosts.Keys, snap.vms, d.Some?))
  {
    NodeKeys(db, snap.nodes);
    NodesLeaveHosts(db, snap.nodes);
    VmsKeys(SyncNodes(db, snap.nodes), snap.vms, d);
  }
}
