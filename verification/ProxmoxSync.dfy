/** Convergence and idempotence of the Proxmox sync. */
module ProxmoxSync {
  import opened Prelude
  import opened Text
  import opened ProxmoxModel

  /** Nothing about other hosts changes. */
  ghost predicate Frame(db: Db, t: Db, id: int) {
    && Grows(db.names, t.names)
    && t.nodePending == db.nodePending
    && (forall h :: h != id ==> Lookup(t.hosts, h) == Lookup(db.hosts, h))
    && (forall h :: h != id ==> Lookup(t.pending, h) == Lookup(db.pending, h))
    && (forall h :: h != id ==> Lookup(t.resources, h) == Lookup(db.resources, h))
    && (forall row: (int, int) :: row.0 != id ==> (row in t.hostApps <==> row in db.hostApps))
    && (forall key: (int, string) :: key.0 != id ==> Lookup(t.storage, key) == Lookup(db.storage, key))
  }

  lemma FrameTransitive(a: Db, b: Db, c: Db, id: int)
    requires Frame(a, b, id) && Frame(b, c, id)
    ensures Frame(a, c, id)
  {
  }

  // ----- What a row shows of its VM -----

  /** The node the VM runs on, if the cluster names one. */
  ghost predicate OnNode(vm: Vm, node: Option<string>) {
    if vm.node == "" then node == None else node == Some(vm.node)
  }

  /** The credential it was found with; the number 0 stands for none. */
  ghost predicate WithCredential(vm: Vm, credential: Option<int>) {
    if vm.credential == 0 then credential == None else credential == Some(vm.credential)
  }

  /** The host type of containers is named "lxc", that of anything else "vm". */
  ghost predicate HasType(n: Names, vm: Vm, typeId: int) {
    Lookup(n.hostTypes, if vm.vmType == "lxc" then "lxc" else "vm") == Some(typeId)
  }

  // ----- Purposes -----

  function Padded(i: nat): string { (if i < 10 then "0" else "") + Decimal(i) }

  lemma PaddedNumber(i: nat)
    ensures (forall c :: c in Padded(i) ==> IsDigit(c)) && ParseDecimal(Padded(i)) == i
  {
    DecimalRoundTrip(i);
    if i < 10 {
      assert Padded(i) == ['0', DigitChar(i)];
      assert Init(Padded(i)) == ['0'] && Init(['0']) == [];
    } else {
      assert Padded(i) == Decimal(i);
    }
  }

  lemma PurposeInjective(i: nat, j: nat)
    requires Purpose(i) == Purpose(j)
    ensures i == j
  {
    PaddedNumber(i);
    PaddedNumber(j);
    assert i > 0 ==> Purpose(i) == "hdd" + Padded(i) && Purpose(i)[0] == 'h' && Purpose(i)[3..] == Padded(i);
    assert j > 0 ==> Purpose(j) == "hdd" + Padded(j) && Purpose(j)[0] == 'h' && Purpose(j)[3..] == Padded(j);
  }

  lemma {:induction false} DecimalShape(n: nat)
    ensures |Decimal(n)| == 1 <==> n < 10
    ensures |Decimal(n)| == 2 <==> 10 <= n < 100
    ensures n > 0 ==> Decimal(n)[0] != '0'
  {
    if n >= 10 {
      DecimalShape(n / 10);
    }
  }

  /** The first disk is "os"; the i-th behind it is "hdd" and i, in two digits or more, with a zero in front only if i
      has one digit. */
  lemma PurposeReads(i: nat)
    ensures i == 0 ==> Purpose(i) == "os"
    ensures i > 0 ==>
      && |Purpose(i)| >= 5 && Purpose(i)[..3] == "hdd"
      && (forall c :: c in Purpose(i)[3..] ==> IsDigit(c)) && ParseDecimal(Purpose(i)[3..]) == i
      && (|Purpose(i)| == 5 <==> i < 100) && (Purpose(i)[3] == '0' <==> i < 10)
  {
    PaddedNumber(i);
    DecimalShape(i);
    assert i > 0 ==> Purpose(i) == "hdd" + Padded(i) && Purpose(i)[3..] == Padded(i);
  }

  // ----- Parts of one step -----

  lemma {:induction false} AppsGrow(n: Names, apps: seq<string>)
    ensures Grows(n, WithApps(n, apps)) && WithApps(n, apps).vlans == n.vlans
    ensures forall a :: a in apps ==> a in WithApps(n, apps).apps
    ensures (forall a :: a in apps ==> a in n.apps) ==> WithApps(n, apps) == n
  {
    if apps != [] {
      AppsGrow(n, Init(apps));
      assert forall a :: a in apps <==> a in Init(apps) || a == Last(apps);
    }
  }

  lemma AppsRows(rows: set<(int, int)>, vmid: int, ids: set<int>)
    ensures forall a :: (vmid, a) in HostAppsFor(rows, vmid, ids) <==> a in ids
    ensures forall row: (int, int) :: row.0 != vmid ==> (row in HostAppsFor(rows, vmid, ids) <==> row in rows)
    ensures (forall a :: (vmid, a) in rows <==> a in ids) ==> HostAppsFor(rows, vmid, ids) == rows
  {
    if forall a :: (vmid, a) in rows <==> a in ids {
      forall row ensures row in HostAppsFor(rows, vmid, ids) <==> row in rows {
        assert row == (row.0, row.1);
        if row.0 == vmid {
          assert (vmid, row.1) in rows <==> row.1 in ids;
        }
      }
    }
  }

  lemma TagsResult(db: Db, vmid: int, tags: Tags)
    requires vmid in db.hosts
    ensures var t := SyncTags(db, vmid, tags);
      && t == db.(names := t.names, hosts := t.hosts, hostApps := t.hostApps)
      && t.hosts == db.hosts[vmid := db.hosts[vmid].(statusId := StatusOf(t.names, tags))]
      && Grows(db.names, t.names) && t.names.vlans == db.names.vlans
      && (tags.status.Some? ==> tags.status.value in t.names.statuses)
      && (forall n :: n in tags.apps ==> n in t.names.apps)
      && (forall a :: (vmid, a) in t.hostApps <==> a in AppIds(t.names, tags.apps))
      && (forall row: (int, int) :: row.0 != vmid ==> (row in t.hostApps <==> row in db.hostApps))
  {
    var names := NamesForTags(db.names, tags);
    AppsGrow(names, tags.apps);
    AppsRows(db.hostApps, vmid, AppIds(WithApps(names, tags.apps), tags.apps));
    assert StatusOf(WithApps(names, tags.apps), tags) == StatusOf(names, tags);
  }

  ghost predicate DiskStored(n: Names, storage: map<(int, string), Storage>, vmid: int, i: nat, disk: (string, int)) {
    && disk.0 in n.datastores
    && Lookup(storage, (vmid, Purpose(i))) == Some(Storage(n.datastores[disk.0], disk.1))
  }

  ghost predicate OthersStored(a: map<(int, string), Storage>, b: map<(int, string), Storage>, vmid: int) {
    forall key: (int, string) :: key.0 != vmid ==> Lookup(b, key) == Lookup(a, key)
  }

  lemma PutDiskResult(db: Db, vmid: int, n: nat, disk: (string, int))
    ensures var t := PutDisk(db, vmid, n, disk);
      && t == db.(names := t.names, storage := t.storage)
      && Grows(db.names, t.names) && t.names.vlans == db.names.vlans
      && OthersStored(db.storage, t.storage, vmid)
      && DiskStored(t.names, t.storage, vmid, n, disk)
      && (forall i: nat, other :: i != n && DiskStored(db.names, db.storage, vmid, i, other)
            ==> DiskStored(t.names, t.storage, vmid, i, other))
  {
    var t := PutDisk(db, vmid, n, disk);
    forall i: nat, other | i != n && DiskStored(db.names, db.storage, vmid, i, other)
      ensures DiskStored(t.names, t.storage, vmid, i, other)
    {
      if Purpose(i) == Purpose(n) {
        PurposeInjective(i, n);
      }
    }
  }

  lemma {:induction false} DisksResult(db: Db, vmid: int, disks: seq<(string, int)>)
    ensures var t := PutDisks(db, vmid, disks);
      && t == db.(names := t.names, storage := t.storage)
      && Grows(db.names, t.names) && t.names.vlans == db.names.vlans
      && OthersStored(db.storage, t.storage, vmid)
      && (forall i :: 0 <= i < |disks| ==> DiskStored(t.names, t.storage, vmid, i, disks[i]))
  {
    if disks != [] {
      DisksResult(db, vmid, Init(disks));
      var m := PutDisks(db, vmid, Init(disks));
      var n := |disks| - 1;
      var t := PutDisk(m, vmid, n, Last(disks));
      PutDiskResult(m, vmid, n, Last(disks));
      forall i | 0 <= i < n ensures DiskStored(t.names, t.storage, vmid, i, disks[i]) {
        assert DiskStored(m.names, m.storage, vmid, i, Init(disks)[i]);
      }
    }
  }

  lemma StorageResult(db: Db, vmid: int, disks: seq<(string, int)>)
    ensures var t := SyncStorage(db, vmid, disks);
      && t == db.(names := t.names, storage := t.storage)
      && Grows(db.names, t.names) && t.names.vlans == db.names.vlans
      && OthersStored(db.storage, t.storage, vmid)
      && StorageStable(t.names, t.storage, vmid, disks)
  {
    DisksResult(db, vmid, disks);
    var m := PutDisks(db, vmid, disks);
    var t := SyncStorage(db, vmid, disks);
    forall i | 0 <= i < |disks| ensures DiskStored(t.names, t.storage, vmid, i, disks[i]) {
      assert DiskStored(m.names, m.storage, vmid, i, disks[i]);
      assert Current(vmid, (vmid, Purpose(i)), |disks|);
    }
  }

  // ----- What a synced VM looks like -----

  ghost predicate TagsStable(db: Db, vmid: int, tags: Tags)
    requires vmid in db.hosts
  {
    && (tags.status.Some? ==> tags.status.value in db.names.statuses)
    && db.hosts[vmid].statusId == StatusOf(db.names, tags)
    && (forall n :: n in tags.apps ==> n in db.names.apps)
    && (forall a :: (vmid, a) in db.hostApps <==> a in AppIds(db.names, tags.apps))
  }

  ghost predicate StorageStable(n: Names, storage: map<(int, string), Storage>, vmid: int, disks: seq<(string, int)>) {
    && (forall i :: 0 <= i < |disks| ==> DiskStored(n, storage, vmid, i, disks[i]))
    && (disks != [] ==> forall key :: key in storage ==> Current(vmid, key, |disks|))
  }

  /** The VM is a host with its name and node, not queued, its apps its tags, its storage its disks. */
  ghost predicate HostStable(db: Db, vm: Vm) {
    && vm.vmid in db.hosts
    && db.hosts[vm.vmid].name == vm.name && db.hosts[vm.vmid].node == NodeOf(vm)
    && vm.vmid !in db.pending
    && (vm.tags.Some? ==> TagsStable(db, vm.vmid, vm.tags.value))
    && Lookup(db.resources, vm.vmid) == Some(Resource(1, vm.cores, vm.ramMb))
    && StorageStable(db.names, db.storage, vm.vmid, vm.disks)
  }

  /** The VM is queued, and queueing it again would write the same row. */
  ghost predicate QueueStable(db: Db, vm: Vm) {
    && vm.vmid in db.pending && !db.pending[vm.vmid].review.Dismissed?
    && TypeName(vm) in db.names.hostTypes && (vm.scan.vlanTag.Some? ==> vm.scan.vlanTag.value in db.names.vlans)
    && QueuedRow(Some(db.pending[vm.vmid]), vm, db.names.hostTypes[TypeName(vm)], VlanId(db.names, vm.scan.vlanTag))
       == db.pending[vm.vmid]
  }

  ghost predicate Stable(db: Db, vm: Vm, d: Option<Defaults>) {
    if vm.vmid in db.hosts then HostStable(db, vm) else d.None? && QueueStable(db, vm)
  }

  /** The first half of finishing a host: not queued any more, and tagged. */
  function Tagged(db: Db, vm: Vm): Db
    requires vm.vmid in db.hosts
  {
    var db1 := db.(pending := db.pending - {vm.vmid});
    if vm.tags.Some? then SyncTags(db1, vm.vmid, vm.tags.value) else db1
  }

  lemma FirstHalf(db: Db, vm: Vm)
    requires vm.vmid in db.hosts
    ensures var t := Tagged(db, vm);
      && Frame(db, t, vm.vmid) && t.names.vlans == db.names.vlans && t.hosts.Keys == db.hosts.Keys
      && t.hosts[vm.vmid].name == db.hosts[vm.vmid].name && t.hosts[vm.vmid].node == db.hosts[vm.vmid].node
      && vm.vmid !in t.pending
      && (vm.tags.Some? ==> TagsStable(t, vm.vmid, vm.tags.value))
  {
    if vm.tags.Some? {
      TagsResult(db.(pending := db.pending - {vm.vmid}), vm.vmid, vm.tags.value);
    }
  }

  lemma SecondHalf(db: Db, vm: Vm)
    requires vm.vmid in db.hosts
    ensures var t := SyncStorage(db.(resources := db.resources[vm.vmid := Resource(1, vm.cores, vm.ramMb)]), vm.vmid, vm.disks);
      && Frame(db, t, vm.vmid) && t.names.vlans == db.names.vlans
      && t.hosts == db.hosts && t.pending == db.pending && t.hostApps == db.hostApps
      && Lookup(t.resources, vm.vmid) == Some(Resource(1, vm.cores, vm.ramMb))
      && StorageStable(t.names, t.storage, vm.vmid, vm.disks)
  {
    StorageResult(db.(resources := db.resources[vm.vmid := Resource(1, vm.cores, vm.ramMb)]), vm.vmid, vm.disks);
  }

  lemma FinishResult(db: Db, vm: Vm)
    requires vm.vmid in db.hosts && db.hosts[vm.vmid].name == vm.name && db.hosts[vm.vmid].node == NodeOf(vm)
    ensures Frame(db, FinishHost(db, vm), vm.vmid) && HostStable(FinishHost(db, vm), vm)
    ensures FinishHost(db, vm).hosts.Keys == db.hosts.Keys && FinishHost(db, vm).names.vlans == db.names.vlans
  {
    var m := Tagged(db, vm);
    FirstHalf(db, vm);
    SecondHalf(m, vm);
    var t := FinishHost(db, vm);
    FrameTransitive(db, m, t, vm.vmid);
  }

  lemma CreateResult(db: Db, vm: Vm, d: Defaults)
    ensures var t := CreateHost(db, vm, d);
      && Frame(db, t, vm.vmid) && t.hosts.Keys == db.hosts.Keys + {vm.vmid}
      && t.hosts[vm.vmid].name == vm.name && t.hosts[vm.vmid].node == NodeOf(vm)
  {
  }

  /** One VM: it comes out stable, and nothing else is disturbed. */
  lemma VmResult(db: Db, vm: Vm, d: Option<Defaults>)
    ensures var t := SyncVm(db, vm, d);
      && Frame(db, t, vm.vmid) && Stable(t, vm, d)
      && t.hosts.Keys == db.hosts.Keys + (if d.Some? then {vm.vmid} else {})
  {
    if vm.vmid in db.hosts {
      var m := UpdateHost(db, vm);
      assert Frame(db, m, vm.vmid);
      FinishResult(m, vm);
      FrameTransitive(db, m, SyncVm(db, vm, d), vm.vmid);
    } else if d.Some? {
      var m := CreateHost(db, vm, d.value);
      CreateResult(db, vm, d.value);
      FinishResult(m, vm);
      FrameTransitive(db, m, SyncVm(db, vm, d), vm.vmid);
    }
  }

  // ----- A stable VM is a fixed point -----

  lemma TagsFixed(db: Db, vmid: int, tags: Tags)
    requires vmid in db.hosts && TagsStable(db, vmid, tags)
    ensures SyncTags(db, vmid, tags) == db
  {
    assert db.hosts[vmid := db.hosts[vmid].(statusId := db.hosts[vmid].statusId)] == db.hosts;
    AppsGrow(db.names, tags.apps);
    AppsRows(db.hostApps, vmid, AppIds(db.names, tags.apps));
  }

  lemma {:induction false} DisksFixed(db: Db, vmid: int, disks: seq<(string, int)>)
    requires forall i :: 0 <= i < |disks| ==> DiskStored(db.names, db.storage, vmid, i, disks[i])
    ensures PutDisks(db, vmid, disks) == db
  {
    if disks != [] {
      forall i | 0 <= i < |Init(disks)| ensures DiskStored(db.names, db.storage, vmid, i, Init(disks)[i]) {
        assert DiskStored(db.names, db.storage, vmid, i, disks[i]);
      }
      DisksFixed(db, vmid, Init(disks));
      var n := |disks| - 1;
      assert DiskStored(db.names, db.storage, vmid, n, disks[n]);
      assert db.storage[(vmid, Purpose(n)) := db.storage[(vmid, Purpose(n))]] == db.storage;
    }
  }

  lemma StorageFixed(db: Db, vmid: int, disks: seq<(string, int)>)
    requires StorageStable(db.names, db.storage, vmid, disks)
    ensures SyncStorage(db, vmid, disks) == db
  {
    DisksFixed(db, vmid, disks);
    if disks != [] {
      assert (map key | key in db.storage && Current(vmid, key, |disks|) :: db.storage[key]) == db.storage;
    }
  }

  lemma VmFixed(db: Db, vm: Vm, d: Option<Defaults>)
    requires Stable(db, vm, d)
    ensures SyncVm(db, vm, d) == db
  {
    if vm.vmid in db.hosts {
      assert UpdateHost(db, vm).hosts == db.hosts;
      assert db.pending - {vm.vmid} == db.pending;
      if vm.tags.Some? {
        TagsFixed(db, vm.vmid, vm.tags.value);
      }
      assert db.resources[vm.vmid := Resource(1, vm.cores, vm.ramMb)] == db.resources;
      StorageFixed(db, vm.vmid, vm.disks);
    } else {
      assert db.pending[vm.vmid := db.pending[vm.vmid]] == db.pending;
    }
  }

  /** Work on one VM leaves the others stable. */
  lemma StableFramed(db: Db, t: Db, id: int, vm: Vm, d: Option<Defaults>)
    requires Frame(db, t, id) && vm.vmid != id && Stable(db, vm, d)
    ensures Stable(t, vm, d)
  {
    assert Lookup(t.hosts, vm.vmid) == Lookup(db.hosts, vm.vmid);
    assert Lookup(t.pending, vm.vmid) == Lookup(db.pending, vm.vmid);
    if vm.vmid in db.hosts {
      if vm.tags.Some? {
        TagsFramed(db, t, id, vm.vmid, vm.tags.value);
      }
    }
  }

  lemma TagsFramed(db: Db, t: Db, id: int, vmid: int, tags: Tags)
    requires Frame(db, t, id) && vmid != id && vmid in db.hosts && TagsStable(db, vmid, tags)
    ensures vmid in t.hosts && TagsStable(t, vmid, tags)
  {
    assert Lookup(t.hosts, vmid) == Lookup(db.hosts, vmid);
    assert AppIds(t.names, tags.apps) == AppIds(db.names, tags.apps);
    forall a ensures (vmid, a) in t.hostApps <==> a in AppIds(t.names, tags.apps) {
      var row := (vmid, a);
      assert row in t.hostApps <==> row in db.hostApps;
    }
  }

  // ----- The whole sync -----

  ghost predicate DistinctVms(vms: seq<Vm>) {
    forall i, j :: 0 <= i < j < |vms| ==> vms[i].vmid != vms[j].vmid
  }

  ghost predicate DistinctNodes(nodes: seq<Node>) {
    forall i, j :: 0 <= i < j < |nodes| ==>
      nodes[i].name != nodes[j].name || nodes[i].credential != nodes[j].credential
  }

  function Vmids(vms: seq<Vm>): set<int> { set vm | vm in vms :: vm.vmid }

  lemma VmidsStep(vms: seq<Vm>)
    requires vms != []
    ensures Vmids(vms) == Vmids(Init(vms)) + {Last(vms).vmid}
  {
    assert forall vm :: vm in vms <==> vm in Init(vms) || vm == Last(vms);
  }

  lemma GrowsTransitive(a: Names, b: Names, c: Names)
    requires Grows(a, b) && Grows(b, c)
    ensures Grows(a, c)
  {
  }

  lemma {:induction false} VmsFrame(db: Db, vms: seq<Vm>, d: Option<Defaults>)
    ensures var t := SyncVms(db, vms, d);
      && Grows(db.names, t.names) && t.nodePending == db.nodePending
      && t.hosts.Keys == db.hosts.Keys + (if d.Some? then Vmids(vms) else {})
  {
    if vms != [] {
      VmsFrame(db, Init(vms), d);
      var m := SyncVms(db, Init(vms), d);
      VmResult(m, Last(vms), d);
      VmidsStep(vms);
      GrowsTransitive(db.names, m.names, SyncVm(m, Last(vms), d).names);
    }
  }

  lemma {:induction false} VmsStable(db: Db, vms: seq<Vm>, d: Option<Defaults>)
    requires DistinctVms(vms)
    ensures forall i :: 0 <= i < |vms| ==> Stable(SyncVms(db, vms, d), vms[i], d)
  {
    if vms != [] {
      VmsStable(db, Init(vms), d);
      var m, t := SyncVms(db, Init(vms), d), SyncVms(db, vms, d);
      VmResult(m, Last(vms), d);
      forall i | 0 <= i < |vms| ensures Stable(t, vms[i], d) {
        if i < |vms| - 1 {
          assert Init(vms)[i] == vms[i];
          StableFramed(m, t, Last(vms).vmid, vms[i], d);
        }
      }
    }
  }

  lemma VmsResult(db: Db, vms: seq<Vm>, d: Option<Defaults>)
    requires DistinctVms(vms)
    ensures var t := SyncVms(db, vms, d);
      && Grows(db.names, t.names) && t.nodePending == db.nodePending
      && (forall vm :: vm in vms ==> Stable(t, vm, d))
      && t.hosts.Keys == db.hosts.Keys + (if d.Some? then Vmids(vms) else {})
  {
    VmsFrame(db, vms, d);
    VmsStable(db, vms, d);
  }

  lemma {:induction false} VmsFixed(db: Db, vms: seq<Vm>, d: Option<Defaults>)
    requires forall vm :: vm in vms ==> Stable(db, vm, d)
    ensures SyncVms(db, vms, d) == db
  {
    if vms != [] {
      assert forall vm :: vm in Init(vms) ==> vm in vms;
      assert Last(vms) in vms;
      VmsFixed(db, Init(vms), d);
      VmFixed(db, Last(vms), d);
    }
  }

  ghost predicate NodeStable(db: Db, n: Node) {
    n.name != "" ==>
      && (n.name, n.credential) in db.nodePending
      && var row := db.nodePending[(n.name, n.credential)];
         (row.review.Open? ==> row == NodePending(Open, n.cores, n.ramMb, row.typeId)
                               && Lookup(db.names.hostTypes, "pve-node") == Some(row.typeId))
  }

  lemma {:induction false} NodesResult(db: Db, nodes: seq<Node>)
    requires DistinctNodes(nodes)
    ensures var t := SyncNodes(db, nodes);
      && Grows(db.names, t.names) && t.hosts == db.hosts && t.names.vlans == db.names.vlans
      && (forall n :: n in nodes ==> NodeStable(t, n))
  {
    if nodes != [] {
      NodesResult(db, Init(nodes));
      var m := SyncNodes(db, Init(nodes));
      var t := SyncNode(m, Last(nodes));
      forall n | n in nodes ensures NodeStable(t, n) {
        if n != Last(nodes) {
          var i :| 0 <= i < |nodes| && nodes[i] == n;
          assert n == Init(nodes)[i];
          assert NodeStable(m, n);
        }
      }
    }
  }

  lemma {:induction false} NodesFixed(db: Db, nodes: seq<Node>)
    requires forall n :: n in nodes ==> NodeStable(db, n)
    ensures SyncNodes(db, nodes) == db
  {
    if nodes != [] {
      assert forall n :: n in Init(nodes) ==> n in nodes;
      assert Last(nodes) in nodes;
      NodesFixed(db, Init(nodes));
      var n := Last(nodes);
      var key := (n.name, n.credential);
      if n.name != "" && db.nodePending[key].review.Open? {
        assert db.nodePending[key := db.nodePending[key]] == db.nodePending;
      }
    }
  }

  function StorageOf(db: Db, vmid: int): map<string, Storage> {
    map key | key in db.storage && key.0 == vmid :: key.1 := db.storage[key]
  }

  /** Convergence: with the defaults present, one sync leaves every discovered VM a host with the snapshot's name
      and node, not queued, its apps the tagged ones, its storage the indexed disks, if any were read. */
  lemma SyncConverges(db: Db, snap: Snapshot, d: Defaults, vm: Vm)
    requires DistinctVms(snap.vms) && DistinctNodes(snap.nodes) && vm in snap.vms
    ensures var t := Sync(db, snap, Some(d));
      && vm.vmid in t.hosts && t.hosts[vm.vmid].name == vm.name && OnNode(vm, t.hosts[vm.vmid].node)
      && vm.vmid !in t.pending
      && Lookup(t.resources, vm.vmid) == Some(Resource(1, vm.cores, vm.ramMb))
      && (vm.tags.Some? && vm.tags.value.status.None? ==> t.hosts[vm.vmid].statusId.None?)
      && (vm.tags.Some? && vm.tags.value.status.Some? ==>
            t.hosts[vm.vmid].statusId.Some? && t.hosts[vm.vmid].statusId == Lookup(t.names.statuses, vm.tags.value.status.value))
      && (vm.tags.Some? ==> forall a :: (vm.vmid, a) in t.hostApps <==>
            exists n :: n in vm.tags.value.apps && Lookup(t.names.apps, n) == Some(a))
      && (vm.disks != [] ==> forall p :: p in StorageOf(t, vm.vmid) <==> exists i | 0 <= i < |vm.disks| :: p == Purpose(i))
      && (forall i :: 0 <= i < |vm.disks| ==>
            && vm.disks[i].0 in t.names.datastores
            && Purpose(i) in StorageOf(t, vm.vmid)
            && StorageOf(t, vm.vmid)[Purpose(i)] == Storage(t.names.datastores[vm.disks[i].0], vm.disks[i].1))
  {
    var t := Sync(db, snap, Some(d));
    VmsResult(SyncNodes(db, snap.nodes), snap.vms, Some(d));
    assert Stable(t, vm, Some(d));
    if vm.tags.Some? {
      var names := vm.tags.value.apps;
      forall a ensures a in AppIds(t.names, names) <==> exists n :: n in names && Lookup(t.names.apps, n) == Some(a) {
      }
    }
    if vm.disks != [] {
      forall p ensures p in StorageOf(t, vm.vmid) <==> exists i | 0 <= i < |vm.disks| :: p == Purpose(i) {
        if p in StorageOf(t, vm.vmid) {
          assert Current(vm.vmid, (vm.vmid, p), |vm.disks|);
        }
        if i :| 0 <= i < |vm.disks| && p == Purpose(i) {
          assert DiskStored(t.names, t.storage, vm.vmid, i, vm.disks[i]);
        }
      }
    }
    forall i | 0 <= i < |vm.disks|
      ensures DiskStored(t.names, t.storage, vm.vmid, i, vm.disks[i]) && Purpose(i) in StorageOf(t, vm.vmid)
    {
      assert DiskStored(t.names, t.storage, vm.vmid, i, vm.disks[i]);
      assert (vm.vmid, Purpose(i)) in t.storage;
    }
  }

  /** The VLAN tags of the VMs that are queued for want of defaults. */
  function QueuedTags(db: Db, vms: seq<Vm>): set<int> {
    set vm | vm in vms && vm.vmid !in db.hosts && vm.scan.vlanTag.Some? :: vm.scan.vlanTag.value
  }

  /** Without defaults exactly the VLANs tagged on queued VMs appear. */
  lemma {:induction false} QueuedVlans(db: Db, vms: seq<Vm>)
    ensures var t := SyncVms(db, vms, None);
      t.names.vlans.Keys == db.names.vlans.Keys + QueuedTags(db, vms) && t.hosts.Keys == db.hosts.Keys
  {
    if vms != [] {
      var m := SyncVms(db, Init(vms), None);
      QueuedVlans(db, Init(vms));
      VmResult(m, Last(vms), None);
      assert forall vm :: vm in vms <==> vm in Init(vms) || vm == Last(vms);
      if Last(vms).vmid in m.hosts {
        FinishResult(UpdateHost(m, Last(vms)), Last(vms));
        assert QueuedTags(db, vms) == QueuedTags(db, Init(vms));
      } else {
        QueuedOne(m, Last(vms));
        assert Last(vms).vmid !in db.hosts;
      }
    }
  }

  lemma QueuedOne(db: Db, vm: Vm)
    ensures QueueVm(db, vm).names.vlans.Keys
         == db.names.vlans.Keys + if vm.scan.vlanTag.Some? then {vm.scan.vlanTag.value} else {}
  {
  }

  lemma IdempotentByDefaults(s: Settings, db: Db, snap: Snapshot, d: Option<Defaults>, d2: Option<Defaults>)
    requires DistinctVms(snap.vms) && DistinctNodes(snap.nodes)
    requires DefaultsOf(s, db, d) && DefaultsOf(s, Sync(db, snap, d), d2)
    requires d2.Some? && d.None? ==> QueuedTags(db, snap.vms) != {}
    ensures Sync(Sync(db, snap, d), snap, d2) == Sync(db, snap, d) <==> d.Some? || d2.None?
  {
    var n, t := SyncNodes(db, snap.nodes), Sync(db, snap, d);
    NodesResult(db, snap.nodes);
    VmsResult(n, snap.vms, d);
    forall node | node in snap.nodes ensures NodeStable(t, node) {
      assert NodeStable(n, node);
    }
    NodesFixed(t, snap.nodes);
    if d.Some? || d2.None? {
      forall vm | vm in snap.vms ensures Stable(t, vm, d2) {
        assert Stable(t, vm, d);
      }
      VmsFixed(t, snap.vms, d2);
    } else {
      SomeMember(QueuedTags(db, snap.vms));
      var tag :| tag in QueuedTags(db, snap.vms);
      var vm :| vm in snap.vms && vm.vmid !in db.hosts && vm.scan.vlanTag == Some(tag);
      assert vm.vmid !in t.hosts.Keys;
      VmsResult(t, snap.vms, d2);
      assert vm.vmid in SyncVms(t, snap.vms, d2).hosts.Keys;
    }
  }

  /** Whether the defaults are there for the second sync. */
  lemma DefaultsAfter(s: Settings, db: Db, snap: Snapshot, d2: Option<Defaults>)
    requires DistinctNodes(snap.nodes)
    requires DefaultsOf(s, db, None) && DefaultsOf(s, Sync(db, snap, None), d2)
    ensures d2.Some? <==> s.environment.Some? && s.role.Some? && QueuedTags(db, snap.vms) != {}
  {
    var n, t := SyncNodes(db, snap.nodes), Sync(db, snap, None);
    NodesResult(db, snap.nodes);
    QueuedVlans(n, snap.vms);
    assert QueuedTags(n, snap.vms) == QueuedTags(db, snap.vms);
    assert t.names.vlans == map[] <==> t.names.vlans.Keys == {};
    if s.environment.Some? && s.role.Some? {
      assert s.vlan.None? && db.names.vlans == map[];
    }
  }

  /** A second sync of the same snapshot changes nothing, unless the only default missing for the first one was a
      VLAN and a VM it had to queue brought one. */
  lemma SyncIdempotent(s: Settings, db: Db, snap: Snapshot, d: Option<Defaults>, d2: Option<Defaults>)
    requires DistinctVms(snap.vms) && DistinctNodes(snap.nodes)
    requires DefaultsOf(s, db, d) && DefaultsOf(s, Sync(db, snap, d), d2)
    ensures Sync(Sync(db, snap, d), snap, d2) == Sync(db, snap, d)
       <==> d.Some? || s.environment.None? || s.role.None?
            || !exists vm :: vm in snap.vms && vm.vmid !in db.hosts && vm.scan.vlanTag.Some?
  {
    if d.None? {
      DefaultsAfter(s, db, snap, d2);
    }
    IdempotentByDefaults(s, db, snap, d, d2);
    if vm :| vm in snap.vms && vm.vmid !in db.hosts && vm.scan.vlanTag.Some? {
      assert vm.scan.vlanTag.value in QueuedTags(db, snap.vms);
    } else {
      assert QueuedTags(db, snap.vms) == {};
    }
  }

  lemma {:induction false} LeastOf(ids: set<int>) returns (least: int)
    requires ids != {}
    ensures least in ids && forall i :: i in ids ==> least <= i
  {
    SomeMember(ids);
    var id :| id in ids;
    var rest := ids - {id};
    assert forall i :: i in ids <==> i in rest || i == id;
    least := id;
    if rest != {} {
      var other := LeastOf(rest);
      least := if other < id then other else id;
    }
  }

  /** The defaults always have a value, possibly "not there". */
  lemma DefaultsExist(s: Settings, db: Db) returns (d: Option<Defaults>)
    ensures DefaultsOf(s, db, d)
  {
    var vlan := s.vlan;
    if s.vlan.None? && db.names.vlans != map[] {
      assert db.names.vlans.Keys != {};
      SomeMember(db.names.vlans.Keys);
      var tag :| tag in db.names.vlans.Keys;
      assert db.names.vlans[tag] in db.names.vlans.Values;
      var least := LeastOf(db.names.vlans.Values);
      vlan := Some(least);
    }
    assert IsFirstVlan(s, db, vlan);
    d := if s.environment.Some? && vlan.Some? && s.role.Some?
         then Some(Defaults(s.environment.value, vlan.value, s.role.value)) else None;
  }

  const NO_ROWS := Db(Names(map[], map[], map[], map[], map[], 1), map[], map[], map[], {}, map[], map[], map[])

  /** An empty inventory without a VLAN and one tagged VM: the first sync queues it, the second creates its host. */
  lemma SecondSyncCreates() returns (s: Settings, snap: Snapshot, d2: Option<Defaults>)
    ensures DefaultsOf(s, NO_ROWS, None) && DefaultsOf(s, Sync(NO_ROWS, snap, None), d2)
    ensures Sync(Sync(NO_ROWS, snap, None), snap, d2) != Sync(NO_ROWS, snap, None)
  {
    var scan := Scan(None, None, None, None, Some(10));
    var vm := Vm(100, "web", "qemu", "", 0, 1, 512, None, scan, Found(None, None, Some(10)), []);
    s, snap := Settings(Some(1), None, Some(1)), Snapshot([], [vm]);
    assert IsFirstVlan(s, NO_ROWS, None);
    d2 := DefaultsExist(s, Sync(NO_ROWS, snap, None));
    assert vm in snap.vms;
    SyncIdempotent(s, NO_ROWS, snap, None, d2);
  }

  // ----- The counts of a sync -----

  lemma {:induction false} CountsAllVms(db: Db, vms: seq<Vm>, d: Option<Defaults>)
    ensures var st := SyncStats(db, vms, d); st.created + st.updated + st.pending == |vms|
    ensures d.Some? ==> SyncStats(db, vms, d).pending == 0
  {
    if vms != [] {
      CountsAllVms(db, Init(vms), d);
    }
  }

  lemma VmidsLast(vms: seq<Vm>)
    requires DistinctVms(vms) && vms != []
    ensures Last(vms).vmid !in Vmids(Init(vms))
  {
    forall vm | vm in Init(vms) ensures vm.vmid != Last(vms).vmid {
      var i :| 0 <= i < |Init(vms)| && Init(vms)[i] == vm;
      assert vms[i] == vm;
    }
  }

  /** A VM of its own VMID is a host when its turn comes exactly when it was one before the sync. */
  lemma KnownBefore(db: Db, vms: seq<Vm>, d: Option<Defaults>)
    requires DistinctVms(vms) && vms != []
    ensures Last(vms).vmid in SyncVms(db, Init(vms), d).hosts.Keys <==> Last(vms).vmid in db.hosts.Keys
  {
    VmsFrame(db, Init(vms), d);
    VmidsLast(vms);
  }

  lemma CountOne(ids: set<int>, hosts: set<int>, id: int)
    requires id !in ids
    ensures |(ids + {id}) * hosts| == |ids * hosts| + if id in hosts then 1 else 0
    ensures |(ids + {id}) - hosts| == |ids - hosts| + if id in hosts then 0 else 1
  {
    if id in hosts {
      assert (ids + {id}) * hosts == ids * hosts + {id} && (ids + {id}) - hosts == ids - hosts;
    } else {
      assert (ids + {id}) * hosts == ids * hosts && (ids + {id}) - hosts == ids - hosts + {id};
    }
  }

  ghost function CountsOf(ids: set<int>, hosts: set<int>, defaults: bool): Stats {
    if defaults then Stats(|ids - hosts|, |ids * hosts|, 0) else Stats(0, |ids * hosts|, |ids - hosts|)
  }

  lemma {:induction false} VmsCount(db: Db, vms: seq<Vm>, d: Option<Defaults>)
    requires DistinctVms(vms)
    ensures SyncStats(db, vms, d) == CountsOf(Vmids(vms), db.hosts.Keys, d.Some?)
  {
    if vms == [] {
      assert Vmids(vms) == {};
    } else {
      VmsCount(db, Init(vms), d);
      KnownBefore(db, vms, d);
      VmidsStep(vms);
      VmidsLast(vms);
      CountOne(Vmids(Init(vms)), db.hosts.Keys, Last(vms).vmid);
    }
  }

  /** What the run row reports, from the tables before the sync: a VM whose VMID is a host counts as updated; any other
      as created when the defaults are there, and as pending when they are not; and that many hosts are new. */
  ghost predicate Counted(db: Db, snap: Snapshot, d: Option<Defaults>, st: Stats) {
    && st.updated == |Vmids(snap.vms) * db.hosts.Keys|
    && st.created == (if d.Some? then |Vmids(snap.vms) - db.hosts.Keys| else 0)
    && st.pending == (if d.Some? then 0 else |Vmids(snap.vms) - db.hosts.Keys|)
  }

  lemma SyncCounts(db: Db, snap: Snapshot, d: Option<Defaults>)
    requires DistinctVms(snap.vms)
    ensures var st := SyncStats(SyncNodes(db, snap.nodes), snap.vms, d);
      Counted(db, snap, d, st) && |Sync(db, snap, d).hosts.Keys| == |db.hosts.Keys| + st.created
  {
    var n := SyncNodes(db, snap.nodes);
    NodesLeaveHosts(db, snap.nodes);
    VmsCount(n, snap.vms, d);
    HostsAdded(n, snap.vms, d);
  }

  lemma HostsAdded(db: Db, vms: seq<Vm>, d: Option<Defaults>)
    ensures |SyncVms(db, vms, d).hosts.Keys| == |db.hosts.Keys| + if d.Some? then |Vmids(vms) - db.hosts.Keys| else 0
  {
    VmsFrame(db, vms, d);
    assert db.hosts.Keys + Vmids(vms) == db.hosts.Keys + (Vmids(vms) - db.hosts.Keys);
  }

  // ----- What a sync leaves alone -----

  /** Every row that belongs to this host is as it was. */
  ghost predicate SameFor(db: Db, t: Db, id: int) {
    && Lookup(t.hosts, id) == Lookup(db.hosts, id) && Lookup(t.pending, id) == Lookup(db.pending, id)
    && Lookup(t.resources, id) == Lookup(db.resources, id)
    && (forall r :: Lookup(t.hostRoles, (id, r)) == Lookup(db.hostRoles, (id, r)))
    && (forall a :: (id, a) in t.hostApps <==> (id, a) in db.hostApps)
    && (forall p :: Lookup(t.storage, (id, p)) == Lookup(db.storage, (id, p)))
  }

  lemma FinishRoles(db: Db, vm: Vm)
    requires vm.vmid in db.hosts
    ensures FinishHost(db, vm).hostRoles == db.hostRoles
    ensures vm.vmid in FinishHost(db, vm).hosts && FinishHost(db, vm).hosts[vm.vmid]
         == db.hosts[vm.vmid].(statusId := FinishHost(db, vm).hosts[vm.vmid].statusId)
    ensures vm.tags.None? ==> FinishHost(db, vm).hosts == db.hosts
  {
    if vm.tags.Some? {
      TagsResult(db.(pending := db.pending - {vm.vmid}), vm.vmid, vm.tags.value);
    }
    var m := Tagged(db, vm);
    StorageResult(m.(resources := m.resources[vm.vmid := Resource(1, vm.cores, vm.ramMb)]), vm.vmid, vm.disks);
  }

  lemma VmRoles(db: Db, vm: Vm, d: Option<Defaults>)
    ensures SyncVm(db, vm, d).hostRoles
         == if vm.vmid in db.hosts || d.None? then db.hostRoles else db.hostRoles[(vm.vmid, d.value.role) := 1]
  {
    if vm.vmid in db.hosts {
      FinishRoles(UpdateHost(db, vm), vm);
    } else if d.Some? {
      FinishRoles(CreateHost(db, vm, d.value), vm);
    }
  }

  lemma VmLeavesOthers(db: Db, vm: Vm, d: Option<Defaults>, id: int)
    requires id != vm.vmid
    ensures SameFor(db, SyncVm(db, vm, d), id)
  {
    VmResult(db, vm, d);
    VmRoles(db, vm, d);
  }

  lemma {:induction false} VmsLeaveOthers(db: Db, vms: seq<Vm>, d: Option<Defaults>, id: int)
    requires forall i :: 0 <= i < |vms| ==> vms[i].vmid != id
    ensures SameFor(db, SyncVms(db, vms, d), id)
  {
    if vms != [] {
      VmsLeaveOthers(db, Init(vms), d, id);
      VmLeavesOthers(SyncVms(db, Init(vms), d), Last(vms), d, id);
    }
  }

  lemma {:induction false} NodesLeaveHosts(db: Db, nodes: seq<Node>)
    ensures var t := SyncNodes(db, nodes); t == db.(names := t.names, nodePending := t.nodePending)
  {
    if nodes != [] {
      NodesLeaveHosts(db, Init(nodes));
    }
  }

  /** A sync touches no host, pending row, role, app, resource or storage row of a VMID it did not discover. */
  lemma SyncLeavesOthers(db: Db, snap: Snapshot, d: Option<Defaults>, id: int)
    requires forall i :: 0 <= i < |snap.vms| ==> snap.vms[i].vmid != id
    ensures SameFor(db, Sync(db, snap, d), id)
  {
    NodesLeaveHosts(db, snap.nodes);
    VmsLeaveOthers(SyncNodes(db, snap.nodes), snap.vms, d, id);
  }

  /** What a discovered VM's host keeps, if it was known, and starts with, if it is new. */
  ghost predicate KeptOrNew(db: Db, t: Db, vm: Vm, d: Defaults) {
    && vm.vmid in t.hosts
    && var host := t.hosts[vm.vmid];
       if vm.vmid in db.hosts then
         && host == db.hosts[vm.vmid].(name := vm.name, node := host.node, statusId := host.statusId) && OnNode(vm, host.node)
         && (vm.tags.None? ==> host.statusId == db.hosts[vm.vmid].statusId)
         && forall r :: Lookup(t.hostRoles, (vm.vmid, r)) == Lookup(db.hostRoles, (vm.vmid, r))
       else
         && host.environmentId == d.environment
         && (if vm.found.vlanTag.Some? then Lookup(t.names.vlans, vm.found.vlanTag.value) == Some(host.vlanId)
             else host.vlanId == d.vlan)
         && host.ipv4 == (if vm.found.ip.Some? then vm.found.ip.value else "DHCP") && host.mac == vm.found.mac
         && HasType(t.names, vm, host.typeId)
         && Lookup(t.hostRoles, (vm.vmid, d.role)) == Some(1)
  }

  lemma VmKeptOrNew(db: Db, vm: Vm, d: Defaults)
    ensures KeptOrNew(db, SyncVm(db, vm, Some(d)), vm, d)
  {
    VmResult(db, vm, Some(d));
    VmRoles(db, vm, Some(d));
    if vm.vmid in db.hosts {
      FinishRoles(UpdateHost(db, vm), vm);
    } else {
      var m := CreateHost(db, vm, d);
      FinishRoles(m, vm);
      CreateResult(db, vm, d);
      FinishResult(m, vm);
    }
  }

  /** A known host keeps its environment, VLAN, type, addresses and roles, and its status unless the tags set it; a
      new one starts with the defaults and whatever its configuration shows. */
  lemma SyncKeepsOrCreates(db: Db, snap: Snapshot, d: Defaults, i: nat)
    requires DistinctVms(snap.vms) && i < |snap.vms|
    ensures KeptOrNew(db, Sync(db, snap, Some(d)), snap.vms[i], d)
  {
    var n := SyncNodes(db, snap.nodes);
    NodesLeaveHosts(db, snap.nodes);
    VmsKeepOrCreate(n, snap.vms, d, i);
  }

  lemma {:induction false} VmsKeepOrCreate(db: Db, vms: seq<Vm>, d: Defaults, i: nat)
    requires DistinctVms(vms) && i < |vms|
    ensures KeptOrNew(db, SyncVms(db, vms, Some(d)), vms[i], d)
  {
    var m := SyncVms(db, Init(vms), Some(d));
    if i == |vms| - 1 {
      VmsLeaveOthers(db, Init(vms), Some(d), vms[i].vmid);
      VmKeptOrNew(m, vms[i], d);
      KeptOrNewEarlier(db, m, SyncVm(m, vms[i], Some(d)), vms[i], d);
    } else {
      VmsKeepOrCreate(db, Init(vms), d, i);
      assert Init(vms)[i] == vms[i];
      KeptOrNewThen(db, m, vms[i], Last(vms), d);
    }
  }

  lemma KeptOrNewThen(db: Db, m: Db, vm: Vm, other: Vm, d: Defaults)
    requires KeptOrNew(db, m, vm, d) && other.vmid != vm.vmid
    ensures KeptOrNew(db, SyncVm(m, other, Some(d)), vm, d)
  {
    VmResult(m, other, Some(d));
    VmLeavesOthers(m, other, Some(d), vm.vmid);
    KeptOrNewLater(db, m, SyncVm(m, other, Some(d)), vm, d);
  }

  /** Later work on other VMs does not change this. */
  lemma KeptOrNewLater(db: Db, m: Db, t: Db, vm: Vm, d: Defaults)
    requires KeptOrNew(db, m, vm, d) && SameFor(m, t, vm.vmid) && Grows(m.names, t.names)
    ensures KeptOrNew(db, t, vm, d)
  {
    assert Lookup(t.hosts, vm.vmid) == Lookup(m.hosts, vm.vmid);
  }

  /** Earlier work on other VMs makes no difference. */
  lemma KeptOrNewEarlier(db: Db, m: Db, t: Db, vm: Vm, d: Defaults)
    requires KeptOrNew(m, t, vm, d) && SameFor(db, m, vm.vmid)
    ensures KeptOrNew(db, t, vm, d)
  {
    assert Lookup(m.hosts, vm.vmid) == Lookup(db.hosts, vm.vmid);
  }
}
