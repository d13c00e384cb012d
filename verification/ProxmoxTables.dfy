/** The sync as it runs: one session over the inventory tables, row by row. */
module ProxmoxTables {
  import opened Prelude
  import opened ProxmoxModel
  import opened ProxmoxSync

  lemma VmsStep(db: Db, vms: seq<Vm>, i: nat, d: Option<Defaults>)
    requires i < |vms|
    ensures SyncVms(db, vms[..i + 1], d) == SyncVm(SyncVms(db, vms[..i], d), vms[i], d)
    ensures SyncStats(db, vms[..i + 1], d)
         == StepStats(SyncStats(db, vms[..i], d), SyncVms(db, vms[..i], d), vms[i], d)
  {
    assert Init(vms[..i + 1]) == vms[..i];
  }

  predicate Reviewed(rows: map<(string, int), NodePending>, n: Node) {
    (n.name, n.credential) in rows && !rows[(n.name, n.credential)].review.Open?
  }

  /** A detection replaces what was known; without one what was known stays. */
  ghost predicate KeepsDetections(before: Option<Pending>, after: Pending, vm: Vm, names: Names) {
    && after.ip == (if vm.scan.ip.Some? || before.None? then vm.scan.ip else before.value.ip)
    && after.mac == (if vm.scan.mac.Some? || before.None? then vm.scan.mac else before.value.mac)
    && (vm.scan.vlanTag.Some? ==> vm.scan.vlanTag.value in names.vlans
                                  && after.vlanId == Some(names.vlans[vm.scan.vlanTag.value]))
    && (vm.scan.vlanTag.None? ==> after.vlanId == if before.None? then None else before.value.vlanId)
  }

  /** How queueing a VM changes its pending row.  A promoted row is left alone.  Otherwise the row is open and shows
      the VM as the cluster reports it, and no earlier detection is lost.  A row that was open keeps its VM type and
      host type, and its disks and nets when they could not be read this time. */
  ghost predicate Queueing(before: Option<Pending>, after: Pending, vm: Vm, names: Names) {
    if before.Some? && before.value.review.Promoted? then after == before.value
    else
      && after.review.Open? && after.name == vm.name && OnNode(vm, after.node) && WithCredential(vm, after.credential)
      && after.cores == vm.cores && after.ramMb == vm.ramMb
      && KeepsDetections(before, after, vm, names)
      && (before.Some? && before.value.review.Open? ==>
            && after.vmType == before.value.vmType
            && (vm.scan.disks.None? ==> after.disks == before.value.disks)
            && (vm.scan.nets.None? ==> after.nets == before.value.nets)
            && (before.value.typeId.Some? ==> after.typeId == before.value.typeId))
      && (vm.scan.disks.Some? ==> after.disks == vm.scan.disks)
      && (vm.scan.nets.Some? ==> after.nets == vm.scan.nets)
      && (before.None? || before.value.review.Dismissed? ==>
            after.vmType == vm.vmType && after.disks == vm.scan.disks && after.nets == vm.scan.nets)
      && (before.None? || before.value.review.Dismissed? || before.value.typeId.None? ==>
            after.typeId.Some? && HasType(names, vm, after.typeId.value))
  }

  lemma QueueCases(db: Db, vm: Vm)
    ensures var t := QueueVm(db, vm);
      && vm.vmid in t.pending && Queueing(Lookup(db.pending, vm.vmid), t.pending[vm.vmid], vm, t.names)
      && forall id :: id != vm.vmid ==> Lookup(t.pending, id) == Lookup(db.pending, id)
  {
    var names := WithType(WithVlan(db.names, vm.scan.vlanTag), TypeName(vm));
    RowCases(Lookup(db.pending, vm.vmid), vm, names);
  }

  lemma RowCases(before: Option<Pending>, vm: Vm, names: Names)
    requires TypeName(vm) in names.hostTypes && (vm.scan.vlanTag.Some? ==> vm.scan.vlanTag.value in names.vlans)
    ensures Queueing(before, QueuedRow(before, vm, names.hostTypes[TypeName(vm)], VlanId(names, vm.scan.vlanTag)), vm, names)
  {
  }

  /** An existing row: a dismissed one is queued again, an open one refreshed, a promoted one left alone. */
  method UpdatedRow(before: Pending, vm: Vm, typeId: int, vlan: Option<int>) returns (row: Pending)
    ensures row == QueuedRow(Some(before), vm, typeId, vlan)
  {
    row := before;
    if row.review.Promoted? {
      return;
    }
    row := row.(credential := CredentialOf(vm), name := vm.name, node := NodeOf(vm), cores := vm.cores, ramMb := vm.ramMb);
    if row.review.Dismissed? {
      row := row.(vmType := vm.vmType, disks := vm.scan.disks, nets := vm.scan.nets, typeId := Some(typeId), review := Open);
    } else {
      if vm.scan.disks.Some? {
        row := row.(disks := vm.scan.disks);
      }
      if vm.scan.nets.Some? {
        row := row.(nets := vm.scan.nets);
      }
      if row.typeId.None? {
        row := row.(typeId := Some(typeId));
      }
    }
    if vm.scan.ip.Some? {
      row := row.(ip := vm.scan.ip);
    }
    if vm.scan.mac.Some? {
      row := row.(mac := vm.scan.mac);
    }
    if vlan.Some? {
      row := row.(vlanId := vlan);
    }
  }

  class Session {
    var names: Names
    var hosts: map<int, Host>
    var pending: map<int, Pending>
    var nodePending: map<(string, int), NodePending>
    var hostApps: set<(int, int)>
    var hostRoles: map<(int, int), int>
    var resources: map<int, Resource>
    var storage: map<(int, string), Storage>

    ghost function State(): Db
      reads this
    {
      Db(names, hosts, pending, nodePending, hostApps, hostRoles, resources, storage)
    }

    constructor (db: Db)
      ensures State() == db
    {
      names, hosts, pending, nodePending := db.names, db.hosts, db.pending, db.nodePending;
      hostApps, hostRoles, resources, storage := db.hostApps, db.hostRoles, db.resources, db.storage;
    }

    method GetOrCreateType(name: string) returns (id: int)
      modifies this`names
      ensures names == WithType(old(names), name) && id == names.hostTypes[name]
    {
      if name !in names.hostTypes {
        names := names.(hostTypes := names.hostTypes[name := names.nextId], nextId := names.nextId + 1);
      }
      id := names.hostTypes[name];
    }

    method GetOrCreateStatus(name: string) returns (id: int)
      modifies this`names
      ensures names == WithStatus(old(names), name) && id == names.statuses[name]
    {
      if name !in names.statuses {
        names := names.(statuses := names.statuses[name := names.nextId], nextId := names.nextId + 1);
      }
      id := names.statuses[name];
    }

    method GetOrCreateApp(name: string) returns (id: int)
      modifies this`names
      ensures names == WithApp(old(names), name) && id == names.apps[name]
    {
      if name !in names.apps {
        names := names.(apps := names.apps[name := names.nextId], nextId := names.nextId + 1);
      }
      id := names.apps[name];
    }

    method UpsertDatastore(name: string) returns (id: int)
      modifies this`names
      ensures names == WithDatastore(old(names), name) && id == names.datastores[name]
    {
      if name !in names.datastores {
        names := names.(datastores := names.datastores[name := names.nextId], nextId := names.nextId + 1);
      }
      id := names.datastores[name];
    }

    method GetOrCreateVlan(tag: Option<int>) returns (id: Option<int>)
      modifies this`names
      ensures names == WithVlan(old(names), tag) && id == VlanId(names, tag)
    {
      if tag.None? {
        return None;
      }
      if tag.value !in names.vlans {
        names := names.(vlans := names.vlans[tag.value := names.nextId], nextId := names.nextId + 1);
      }
      id := Some(names.vlans[tag.value]);
    }

    /** A named node has a row afterwards; a row someone has reviewed is left alone, any other is open and shows what
        the cluster reports. */
    method UpsertNodePending(n: Node)
      modifies this`names, this`nodePending
      ensures State() == SyncNode(old(State()), n)
      ensures forall key :: key != (n.name, n.credential) ==> Lookup(nodePending, key) == Lookup(old(nodePending), key)
      ensures n.name == "" ==> nodePending == old(nodePending) && names == old(names)
      ensures n.name != "" ==> (n.name, n.credential) in nodePending
      ensures n.name != "" && Reviewed(old(nodePending), n) ==> nodePending == old(nodePending) && names == old(names)
      ensures n.name != "" && !Reviewed(old(nodePending), n) ==>
        var row := nodePending[(n.name, n.credential)];
        row.review.Open? && row.cores == n.cores && row.ramMb == n.ramMb
        && Lookup(names.hostTypes, "pve-node") == Some(row.typeId)
    {
      if n.name == "" {
        return;
      }
      var key := (n.name, n.credential);
      if key in nodePending && !nodePending[key].review.Open? {
        return;
      }
      var typeId := GetOrCreateType("pve-node");
      nodePending := nodePending[key := NodePending(Open, n.cores, n.ramMb, typeId)];
    }

    method QueueAsPending(vm: Vm)
      modifies this`names, this`pending
      ensures State() == QueueVm(old(State()), vm)
    {
      var vlan := GetOrCreateVlan(vm.scan.vlanTag);
      var typeId := GetOrCreateType(TypeName(vm));
      var row;
      if vm.vmid !in pending {
        row := Pending(Open, CredentialOf(vm), vm.name, vm.vmType, NodeOf(vm), vm.cores, vm.ramMb,
                       vm.scan.disks, vm.scan.nets, vm.scan.ip, vm.scan.mac, vlan, Some(typeId));
      } else {
        row := UpdatedRow(pending[vm.vmid], vm, typeId, vlan);
      }
      pending := pending[vm.vmid := row];
    }

    method AddHost(vm: Vm, d: Defaults)
      modifies this`names, this`hosts, this`hostRoles
      ensures State() == CreateHost(old(State()), vm, d)
    {
      var vlan := GetOrCreateVlan(vm.found.vlanTag);
      var typeId := GetOrCreateType(TypeName(vm));
      if vm.node != "" {
        var nodeTypeId := GetOrCreateType("pve-node");
      }
      hosts := hosts[vm.vmid := Host(vm.name, NodeOf(vm), typeId, None, d.environment, GetOr(vlan, d.vlan),
                                     GetOr(vm.found.ip, "DHCP"), vm.found.mac)];
      hostRoles := hostRoles[(vm.vmid, d.role) := 1];
    }

    method AppTargets(apps: seq<string>) returns (ids: set<int>)
      modifies this`names
      ensures names == WithApps(old(names), apps) && ids == AppIds(names, apps)
    {
      ids := {};
      var i := 0;
      while i < |apps|
        invariant 0 <= i <= |apps|
        invariant names == WithApps(old(names), apps[..i])
        invariant forall a :: a in apps[..i] ==> a in names.apps
        invariant ids == AppIds(names, apps[..i])
      {
        assert Init(apps[..i + 1]) == apps[..i];
        ghost var before := names;
        var id := GetOrCreateApp(apps[i]);
        assert AppIds(names, apps[..i]) == AppIds(before, apps[..i]);
        assert forall a :: a in apps[..i + 1] <==> a in apps[..i] || a == apps[i];
        ids := ids + {id};
        i := i + 1;
      }
      assert apps[..i] == apps;
    }

    method AddMissingApps(vmid: int, targets: set<int>)
      modifies this`hostApps
      ensures hostApps == old(hostApps) + set a | a in targets :: (vmid, a)
    {
      var target := set a | a in targets :: (vmid, a);
      var missing := target - hostApps;
      while missing != {}
        invariant missing <= target
        invariant forall row :: row in hostApps <==> row in old(hostApps) || (row in target && row !in missing)
        decreases |missing|
      {
        var row :| row in missing;
        hostApps := hostApps + {row};
        missing := missing - {row};
      }
    }

    method DeleteOtherApps(vmid: int, targets: set<int>)
      modifies this`hostApps
      ensures hostApps == set row | row in old(hostApps) && (row.0 != vmid || row.1 in targets)
    {
      var stale := set row | row in hostApps && row.0 == vmid && row.1 !in targets;
      while stale != {}
        invariant forall row :: row in stale ==> row.0 == vmid && row.1 !in targets
        invariant forall row :: row in hostApps <==>
          row in old(hostApps) && (row.0 != vmid || row.1 in targets || row in stale)
        decreases |stale|
      {
        var row :| row in stale;
        hostApps := hostApps - {row};
        stale := stale - {row};
      }
    }

    method SyncHostApps(vmid: int, apps: seq<string>)
      modifies this`names, this`hostApps
      ensures State() == SyncApps(old(State()), vmid, apps)
    {
      var targets := AppTargets(apps);
      AddMissingApps(vmid, targets);
      DeleteOtherApps(vmid, targets);
      assert hostApps == HostAppsFor(old(hostApps), vmid, targets);
    }

    method ApplyTags(vmid: int, tags: Tags)
      requires vmid in hosts
      modifies this`names, this`hosts, this`hostApps
      ensures State() == SyncTags(old(State()), vmid, tags)
    {
      var statusId: Option<int> := None;
      if tags.status.Some? {
        var id := GetOrCreateStatus(tags.status.value);
        statusId := Some(id);
      }
      hosts := hosts[vmid := hosts[vmid].(statusId := statusId)];
      SyncHostApps(vmid, tags.apps);
    }

    method UpsertDisks(vmid: int, disks: seq<(string, int)>)
      modifies this`names, this`storage
      ensures State() == PutDisks(old(State()), vmid, disks)
    {
      var i := 0;
      while i < |disks|
        invariant 0 <= i <= |disks|
        invariant State() == PutDisks(old(State()), vmid, disks[..i])
      {
        assert Init(disks[..i + 1]) == disks[..i];
        var id := UpsertDatastore(disks[i].0);
        storage := storage[(vmid, Purpose(i)) := Storage(id, disks[i].1)];
        i := i + 1;
      }
      assert disks[..i] == disks;
    }

    method DeleteStale(vmid: int, count: nat)
      modifies this`storage
      ensures storage == map key | key in old(storage) && Current(vmid, key, count) :: old(storage)[key]
    {
      var stale := set key | key in storage && !Current(vmid, key, count);
      while stale != {}
        invariant forall key :: key in stale ==> key in old(storage) && !Current(vmid, key, count)
        invariant storage == map key | key in old(storage) && (Current(vmid, key, count) || key in stale) :: old(storage)[key]
        decreases |stale|
      {
        var key :| key in stale;
        storage := storage - {key};
        stale := stale - {key};
      }
    }

    method ApplyStorage(vmid: int, disks: seq<(string, int)>)
      modifies this`names, this`storage
      ensures State() == SyncStorage(old(State()), vmid, disks)
    {
      UpsertDisks(vmid, disks);
      if disks != [] {
        DeleteStale(vmid, |disks|);
      }
    }

    method ApplyHost(vm: Vm)
      requires vm.vmid in hosts
      modifies this
      ensures State() == FinishHost(old(State()), vm)
    {
      if vm.vmid in pending {
        pending := pending - {vm.vmid};
      }
      assert pending == old(pending) - {vm.vmid};
      if vm.tags.Some? {
        ApplyTags(vm.vmid, vm.tags.value);
      }
      resources := resources[vm.vmid := Resource(1, vm.cores, vm.ramMb)];
      ApplyStorage(vm.vmid, vm.disks);
    }

    method ApplyVm(vm: Vm, d: Option<Defaults>, before: Stats) returns (stats: Stats)
      modifies this
      ensures State() == SyncVm(old(State()), vm, d)
      ensures stats == StepStats(before, old(State()), vm, d)
    {
      if vm.vmid !in hosts && d.None? {
        QueueAsPending(vm);
        return before.(pending := before.pending + 1);
      }
      if vm.vmid !in hosts {
        AddHost(vm, d.value);
        stats := before.(created := before.created + 1);
      } else {
        hosts := hosts[vm.vmid := hosts[vm.vmid].(name := vm.name, node := NodeOf(vm))];
        stats := before.(updated := before.updated + 1);
      }
      ApplyHost(vm);
    }

    method ApplyNodes(nodes: seq<Node>)
      modifies this
      ensures State() == SyncNodes(old(State()), nodes)
    {
      var i := 0;
      while i < |nodes|
        invariant 0 <= i <= |nodes|
        invariant State() == SyncNodes(old(State()), nodes[..i])
      {
        assert Init(nodes[..i + 1]) == nodes[..i];
        UpsertNodePending(nodes[i]);
        i := i + 1;
      }
      assert nodes[..i] == nodes;
    }

    method ApplyNth(ghost start: Db, vms: seq<Vm>, i: nat, d: Option<Defaults>, before: Stats) returns (stats: Stats)
      requires i < |vms| && State() == SyncVms(start, vms[..i], d) && before == SyncStats(start, vms[..i], d)
      modifies this
      ensures State() == SyncVms(start, vms[..i + 1], d) && stats == SyncStats(start, vms[..i + 1], d)
    {
      VmsStep(start, vms, i, d);
      stats := ApplyVm(vms[i], d, before);
    }

    method ApplyVms(vms: seq<Vm>, d: Option<Defaults>) returns (stats: Stats)
      modifies this
      ensures State() == SyncVms(old(State()), vms, d)
      ensures stats == SyncStats(old(State()), vms, d)
    {
      stats := Stats(0, 0, 0);
      var i := 0;
      while i < |vms|
        invariant 0 <= i <= |vms|
        invariant State() == SyncVms(old(State()), vms[..i], d)
        invariant stats == SyncStats(old(State()), vms[..i], d)
      {
        stats := ApplyNth(old(State()), vms, i, d, stats);
        i := i + 1;
      }
      assert vms[..i] == vms;
    }

    method RunSync(snap: Snapshot, d: Option<Defaults>) returns (stats: Stats)
      modifies this
      ensures State() == Sync(old(State()), snap, d)
      ensures stats == SyncStats(SyncNodes(old(State()), snap.nodes), snap.vms, d)
      ensures DistinctVms(snap.vms) ==> Counted(old(State()), snap, d, stats)
    {
      ApplyNodes(snap.nodes);
      stats := ApplyVms(snap.vms, d);
      if DistinctVms(snap.vms) {
        SyncCounts(old(State()), snap, d);
      }
    }
  }
}
