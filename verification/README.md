# A verified model of the inventory manager

SLIM keeps hosts, roles, VLANs and applications in a database, renders them as an Ansible inventory, runs
playbooks through a sidecar process, and synchronises its hosts with a Proxmox cluster. This project models the
parts of it that hold state, ordering or arithmetic, and proves what they promise. `dafny verify dfyconfig.toml`
checks everything.

| file | what it is about |
|---|---|
| `Precedence.dfy`, `InventoryBuilders.dfy`, `InventoryExplorer.dfy`, `InventoryLaw.dfy` | the layered merge of host variables and the groups, written three times in the program, with one winner rule and the law, table by table, that all three obey |
| `RunProtocol.dfy`, `RunLaw.dfy`, `RunGuarantees.dfy`, `RunRecords.dfy` | one playbook run as a state machine over every session block and sidecar step |
| `ProxmoxModel.dfy`, `ProxmoxSync.dfy`, `ProxmoxNames.dfy`, `ProxmoxTables.dfy` | reconciliation of the tables with a cluster snapshot |
| `IncludeExpansion.dfy`, `HostMatching.dfy`, `HostPatterns.dfy`, `PreviewCache.dfy`, `Slug.dfy`, `Words.dfy` | the job-template preview |
| `Utf8.dfy`, `OutputPolling.dfy`, `BackupFraming.dfy`, `SseSplitter.dfy` | codecs and incremental parsers |
| `DiffShift.dfy` | line-shift arithmetic over a zero-context diff |
| `Ipam.dfy`, `RoleOrder.dfy`, `AgentKeys.dfy` | address accounting, role order, unique keys |
| `Prelude.dfy`, `Text.dfy` | lists, stable sorting, decimal numerals, splitting |

Code that updates state step by step is a class or a method with loops, proved equal to a function of the old state
(`Inventory`, `Lineage`, `Session`, `Expander`, `Cache`, `HostRoles` and the loops in `OutputPolling`,
`BackupFraming`, `SseSplitter`, `DiffShift`, `HostMatching`, `Ipam`, `AgentKeys`). The theorems are
about those functions. `RunSystem` holds the run row, the sidecar's job and its table; each of its methods is one atomic
block of the program and is proved to be a step of the run protocol, so the protocol's theorems hold of the objects.

What the proofs found about the program:

* **Precedence.** The comment at `backend/app/routers/inventory.py:298-299` says that among global role defaults the
  lowest number wins. The code sorts by descending number and then keeps the first, so the *greatest* number wins;
  the model follows the code (`InventoryLaw.EndpointObeys`). The list at `backend/app/routers/inventory.py:197-210` calls the base
  variables lowest and the application defaults higher than the role defaults; in the code every layer that only
  fills, application defaults included, loses to the base variables and to each layer before it. A priority stored
  as 0 counts as 100 in both inventories but as 0 in the explorer's query, so the explorer can name another row
  (`ZeroPriorityShadowed`, `ZeroPriorityLifted`); `ExplorerAgrees` says exactly when.
* **Projection.** A host's name is not unique in the database, and only the job run's query is ordered. A job run gives
  a selected name the inventory's variables exactly when no layer has a row with an empty field name for it and a layer
  overwrites every column that tells the two last rows of that name apart (`HostProjection`). Groups agree as sets
  under an exact condition; their order can differ (`GroupProjection`, `GroupOrderDiffers`).
* **Runs.** Terminal states are not absorbing. Without cancellation the verdict recorded first is final exactly when it
  is not a success with a recovery check still in flight that read the run while it was open (`RunAgreement`,
  `SlowRecoveryOverwritesSuccess`). A cancellation is final exactly when nothing in flight can still write
  (`CancellationIsFinal`); a run cancelled before it was triggered can end as a success (`EarlyCancelIsLost`).
* **Sync.** A second sync of the same snapshot is a no-op unless a VLAN was the only default missing and a VM that had
  to be queued carries a VLAN tag: queueing it creates the VLAN (`SyncIdempotent`, `SecondSyncCreates`).
* **Include expansion.** A file that is not a task list stays in the set of open files. The tree is unaffected on every
  file tree; the reasons change exactly when such a file is met twice (`NonListMetTwice`).
* **Output.** The server reads the file before it tests whether the process has ended, so "done" can arrive without
  the last bytes (`TailCanBeLost`). A poll that cuts a character counts the replacement's three bytes and never
  delivers the character (`CutCharacterIsLost`).
* **Preview cache.** Without a commit the cache cannot see an edit (`UnversionedCanBeStale`).
* **Role order.** A toggle with an explicit priority leaves the host in an order exactly when that priority is positive
  and unused (`ExplicitPriority`, `PriorityRefused`).

Parameters rather than definitions are: the glob matcher, the JSON parser, encryption (assumed to be undone by
decryption, with tokens that fit the length header, as Fernet's do), the preview's computation of its body, and the
clock. A fingerprint is represented by the value it hashes, so hashes are taken to be injective. Unique and primary
keys are the keys of maps.

## Model

| member | source | states |
|---|---|---|
| `Precedence.LayerResult` | backend/app/routers/inventory.py:278-388 | after one layer a host's variable is what it was, or the first or last row about that host and field, by the layer's mode; a global default concerns every host |
| `Precedence.PriorityPick` | backend/app/routers/inventory.py:299-334 | sorting by descending effective priority and overwriting keeps the row of least effective priority (the last such one); filling keeps the row of greatest (the first such one) |
| `Precedence.AppliedByRank` | backend/app/routers/inventory.py:197-210 | the layers are applied in the order of the precedence numbers, none left out |
| `Precedence.DecidingExact` | backend/app/routers/inventory.py:197-210 | the layer found by going through the list is exactly the one the declared precedence names: the overriding layer of highest number, else the host's column, else the defaulting layer of lowest number |
| `Precedence.ClosedForm` | backend/app/routers/inventory.py:278-388 | for every host and field, the twelve layer folds over the base columns leave the deciding layer's row |
| `InventoryBuilders.Inventory.AddHost` | backend/app/routers/inventory.py:215-274 | a named row replaces the host's base variables and joins its groups; a row without a name changes nothing |
| `InventoryBuilders.Inventory.ApplyGlobal` | backend/app/routers/inventory.py:280-286 | the loop over all hosts, in any order, fills exactly the missing variables |
| `InventoryBuilders.Inventory.ApplyLayer` | backend/app/routers/inventory.py:289-388 | one layer of the endpoint, rows of unknown hosts and blank fields skipped, is the layer fold |
| `InventoryBuilders.Inventory.ApplyJobLayer` | backend/app/services/inventory_builder.py:326-369 | one layer of a job run, over rows already filtered to its hosts, is the layer fold without skipping, and adds no host |
| `InventoryBuilders.BuildFullInventory` | backend/app/routers/inventory.py:180-397 | the endpoint's loops compute the specified variables and groups |
| `InventoryBuilders.BuildJobInventory` | backend/app/services/inventory_builder.py:257-381 | the job builder's loops compute the specified variables and groups from filtered rows |
| `InventoryBuilders.FullVariable` | backend/app/routers/inventory.py:180-397 | every variable of every host is the declared winner over the columns of the last row of that name |
| `InventoryBuilders.JobVariable` | backend/app/services/inventory_builder.py:257-381 | the same for a job run, although it filters before it sorts |
| `InventoryBuilders.PicksOrderFree` | backend/app/services/inventory_builder.py:315-317 | where no two rows of a layer tie for a variable, the order in which the two builders' queries return them does not matter |
| `InventoryBuilders.HostProjection` | backend/app/services/inventory_builder.py:398-405 | for selected rows in any order, a selected host has exactly the endpoint's variables if and only if no layer row for it has a blank field name and a layer overwrites every column that tells the two last rows of its name apart; with a unique name, if and only if there is no blank field name |
| `InventoryBuilders.GroupProjection` | backend/app/services/inventory_builder.py:290-313 | the job run's hosts are the selected names, no group repeats a host, and a group is the endpoint's group cut down to them if and only if every selected name that is in it through an unselected row is in it through a selected one |
| `InventoryBuilders.BlankFieldDiffers` | backend/app/services/inventory_builder.py:351-354 | a row with a blank field name for which the two differ |
| `InventoryBuilders.UnselectedLastRowDiffers` | backend/app/routers/inventory.py:221-221 | two hosts of one name, the last not selected, for which the two differ |
| `InventoryBuilders.RowOrderDiffers` | backend/app/services/inventory_builder.py:398-405 | two hosts of one name, both selected, for which the two differ: only the job's query is ordered |
| `InventoryBuilders.GroupOrderDiffers` | backend/app/services/inventory_builder.py:398-405 | a group whose members the two list in different orders |
| `InventoryExplorer.BuildExplorer` | backend/app/routers/inventory.py:516-958 | the explorer's sequence of layers computes the specified lineages and current entries |
| `InventoryExplorer.ExplorerFaithful` | backend/app/routers/inventory.py:495-502 | every variable with a lineage has a current entry, and it is the last entry marked applied |
| `InventoryExplorer.LineageComplete` | backend/app/routers/inventory.py:467-504 | a variable's lineage is the host's own column and then every row about it, layer after layer, in query order, nothing lost or repeated |
| `InventoryExplorer.ExplorerClosedForm` | backend/app/routers/inventory.py:516-958 | the current entry of every variable is the deciding layer's first or last row in query order |
| `InventoryExplorer.LeastAgrees` | backend/app/routers/inventory.py:316-334 | SQL order and `priority or 100` pick the same overwriting role exactly when no priority-0 row hides one between 0 and 100 |
| `InventoryExplorer.GreatestAgrees` | backend/app/routers/inventory.py:620-645 | for the filling role layer, exactly when no priority-0 row is hidden by one between 0 and 100 |
| `InventoryExplorer.LayerAgrees` | backend/app/routers/inventory.py:516-958 | for any layer and one host's rows among all rows, the two offer the same row exactly when it is not misordered, and offer one together |
| `InventoryExplorer.ExplorerAgrees` | backend/app/routers/inventory.py:516-958 | without ties, the explorer's current entry is the row the inventory uses if and only if the deciding layer, if there is one, has no misordered priority 0 for the variable |
| `InventoryExplorer.ZeroPriorityShadowed` | backend/app/routers/inventory.py:328-334 | a stored priority 0 for which the explorer and the inventory disagree on a host role |
| `InventoryExplorer.ZeroPriorityLifted` | backend/app/routers/inventory.py:299-305 | the same for a global default role |
| `InventoryLaw.EndpointObeys` | backend/app/routers/inventory.py:197-388 | a variable holds the last row of the first table that has one among the host's own overrides, application, role, status and host-type overrides; else the host role's default of least number (the last such), else the host type's roles' likewise; else the host's column; else the first row among the Ansible and status defaults; else the global role default of greatest number (the first such); else the first row among the host-type and application defaults |
| `InventoryLaw.JobObeys` | backend/app/services/inventory_builder.py:257-369 | a job run obeys the same law |
| `InventoryLaw.ExplorerObeys` | backend/app/routers/inventory.py:516-958 | the explorer's current entry obeys it with the role tables in the order of its queries |
| `InventoryLaw.ColumnBeatsDefaults` | backend/app/routers/inventory.py:278-343 | a host keeps its own column if and only if no table that assigns has a row about it |
| `InventoryLaw.AppDefaultIsLast` | backend/app/routers/inventory.py:336-343 | an application's default is used if and only if no other table has a row and the host no column of that name; so it never beats a role's |
| `InventoryLaw.OwnIsColumn` | backend/app/routers/inventory.py:222-245 | the base variables are the 22 columns, the address falling back to the name and the id under its own name |
| `InventoryLaw.TagsExact` | backend/app/services/inventory_builder.py:290-313 | a row asks for exactly the groups of its columns, each under its prefix, of its roles and of its applications |
| `InventoryLaw.MembersExact` | backend/app/services/inventory_builder.py:290-313 | the members of a group are exactly the named hosts with a row that asks for it |
| `RunProtocol.InvExecutor` | backend/app/services/playbook_execution.py:61-186 | the executor's steps up to storing the job id keep the protocol invariant |
| `RunProtocol.InvJob` | ansible-runner/main.py:90-123 | the waiting and cleanup threads keep it |
| `RunProtocol.InvViewer` | backend/app/routers/playbook_runs.py:176-208 | a viewer that waits for a job id keeps it, its time-out included |
| `RunProtocol.InvPoll` | backend/app/routers/playbook_runs.py:211-240 | polling and recording keep it, for the executor and any number of viewers |
| `RunProtocol.InvRecover` | backend/app/routers/playbook_runs.py:48-71 | the recovery check, read, probe and write apart, keeps it |
| `RunProtocol.InvCancel` | ansible-runner/main.py:307-322 | cancel requests and the sidecar's handler, each assignment a step, keep it |
| `RunProtocol.InvAfter` | backend/app/services/playbook_execution.py:151-217 | every sequence of steps keeps it |
| `RunProtocol.SuccessIsReal` | backend/app/services/playbook_execution.py:198-207 | in every interleaving, cancels included: success means exit code 0, a stored job id and a process that really returned 0; every terminal run has a finishing time |
| `RunLaw.RowWrites` | backend/app/services/playbook_execution.py:151-217 | of every step: the row becomes running only and always when the executor begins, success when a fetched code 0 is recorded, cancelled when a request writes, failed when any other code is recorded, the start fails, a recovery writes, or a viewer gives up or finds the job gone while the run is open; exit code, job id and finishing time likewise |
| `RunLaw.JobWrites` | ansible-runner/main.py:90-123 | of every step: who creates the job, who takes it out of the table, who sets done and which code, who deletes its files |
| `RunLaw.LearnsAtItsPolls` | ansible-runner/main.py:285-304 | what a consumer knows of the job is what the sidecar showed it at its own last lookup, status and code |
| `RunGuarantees.JobStepMonotone` | ansible-runner/main.py:98-123 | no step lists a job again, takes back done, a deletion or what the process returned; files go only after the job has left the table, and only the remover's unlink step removes them |
| `RunGuarantees.LeavesOnce` | ansible-runner/main.py:116-123 | in every interleaving the job leaves the table at most once, has left it exactly once when it is there no more, and has its files while it is there |
| `RunGuarantees.RecordSettles` | backend/app/services/playbook_execution.py:198-207 | without cancels, recording "done" makes the run say what the finished job says |
| `RunGuarantees.SettledStep` | backend/app/routers/playbook_runs.py:42-71 | from then on a step changes the verdict if and only if it is a recovery writing over a success |
| `RunGuarantees.SettledForGood` | backend/app/routers/playbook_runs.py:48-71 | a settled verdict survives everything that can happen without a cancel if and only if it is not a success with a recovery still in flight |
| `RunGuarantees.ProbeDecides` | backend/app/routers/playbook_runs.py:63-71 | of every step: a recovery that has to probe goes on to mark the run if and only if the sidecar answers that the job is not there |
| `RunGuarantees.RecoveryIsJustified` | backend/app/routers/playbook_runs.py:48-71 | in every interleaving a recovery that read a stored job id marks the run failed only after the job has left the sidecar's table; without cancels, only after its process has ended |
| `RunGuarantees.RunAgreement` | backend/app/routers/playbook_runs.py:211-240 | without cancels, once any consumer has recorded "done" status and exit code are what the process returned, and they never change again if and only if no recovery that read the run open is still in flight over a success |
| `RunGuarantees.SlowRecoveryOverwritesSuccess` | backend/app/routers/playbook_runs.py:63-70 | a reachable success that a recovery in flight then marks failed |
| `RunGuarantees.EarlyCancelIsLost` | backend/app/routers/playbook_runs.py:258-267 | a run cancelled before it was triggered goes on to success |
| `RunGuarantees.EscapeUnlessQuiet` | backend/app/routers/playbook_runs.py:258-267 | while any writer is in flight some continuation leaves "cancelled" |
| `RunGuarantees.CancellationIsFinal` | backend/app/routers/playbook_runs.py:258-267 | a cancelled run stays cancelled in every continuation if and only if no writer is in flight |
| `RunRecords.RunSystem.StartRun` | ansible-runner/main.py:258-273 | the fresh job is listed: the protocol's start, whether or not the answer arrives |
| `RunRecords.RunSystem.FailStart` | backend/app/services/playbook_execution.py:170-180 | the protocol's failed start; earlier output stays in front |
| `RunRecords.RunSystem.TakeCode` | ansible-runner/main.py:98-99 | the waiting thread's assignment of the exit code is the protocol's step of that name |
| `RunRecords.RunSystem.Sweep` | ansible-runner/main.py:116-123 | the cleanup thread's block is the protocol's removal when the job is listed and done, and no step at all otherwise |
| `RunRecords.RunSystem.ReadCode` | ansible-runner/main.py:285-304 | what a poll carries away after the status is the exit code as it is then |
| `RunRecords.RunSystem.Record` | backend/app/services/playbook_execution.py:198-207 | the session block for "done", of the executor and of any viewer, is the protocol's recording step |
| `RunRecords.RunSystem.GiveUp` | backend/app/routers/playbook_runs.py:201-208 | a viewer's time-out is the protocol's step; a terminal run and its output are left alone |
| `RunRecords.RunSystem.ReportOrphaned` | backend/app/routers/playbook_runs.py:233-240 | a viewer's orphan report is the protocol's step; a terminal run and its output are left alone |
| `RunRecords.RunSystem.BeginRecovery` | backend/app/routers/playbook_runs.py:48-61 | a recovery acts exactly on an open run that has a job id or has had none for too long |
| `RunRecords.RunSystem.ProbeJob` | backend/app/routers/playbook_runs.py:63-64 | the probe sees exactly whether the job is listed, and the recovery goes on to mark the run if and only if it was answered that the job is not there |
| `RunRecords.RunSystem.FinishRecovery` | backend/app/routers/playbook_runs.py:42-45 | the late write is the protocol's step whatever the row says by then, and keeps an earlier finishing time |
| `RunRecords.RunSystem.BeginCancel` | backend/app/routers/playbook_runs.py:258-263 | a cancel is accepted exactly for an open run |
| `RunRecords.RunSystem.PopJob` | ansible-runner/main.py:309-312 | the handler's removal under the lock, and whether it found the job |
| `RunRecords.RunSystem.CheckPopped` | ansible-runner/main.py:314-314 | the handler's look at the status, made after the lock is released |
| `RunRecords.RunSystem.CodePopped` | ansible-runner/main.py:319-320 | the handler's two assignments are separate steps; this is the second |
| `RunRecords.RunSystem.FinishCancel` | backend/app/routers/playbook_runs.py:265-267 | the late write is the protocol's step whatever the row says by then |
| `RunRecords.SystemIsSound` | backend/app/services/playbook_execution.py:198-207 | in every state the objects can be in: a success is backed by the stored job whose process returned 0, a terminal row has its finishing time, a listed job has its files |
| `ProxmoxSync.PurposeInjective` | backend/app/services/proxmox.py:1069-1104 | different disks are stored under different indexed purposes |
| `ProxmoxSync.PurposeReads` | backend/app/services/proxmox.py:1070-1070 | the first disk is "os", the i-th behind it "hdd" and i in two digits or more |
| `ProxmoxSync.VmResult` | backend/app/services/proxmox.py:846-1104 | one VM's step leaves that VM stable and every other VM's rows as they were |
| `ProxmoxSync.VmFixed` | backend/app/services/proxmox.py:846-1104 | a stable VM's step changes nothing at all |
| `ProxmoxSync.StableFramed` | backend/app/services/proxmox.py:846-1104 | work on one VM leaves the others stable |
| `ProxmoxSync.SyncConverges` | backend/app/services/proxmox.py:846-1104 | with defaults and distinct VMIDs every discovered VM is a host with its name, node and resources, has no pending row, has the tagged status and exactly the tagged apps when there are tags, and exactly its indexed disks when there are any |
| `ProxmoxSync.SyncKeepsOrCreates` | backend/app/services/proxmox.py:977-1048 | a known host keeps environment, VLAN, type, addresses and roles, and its status unless tags set it; a new one starts with the defaults and what its configuration shows |
| `ProxmoxSync.SyncLeavesOthers` | backend/app/services/proxmox.py:763-1104 | no host, pending row, role, app, resource or storage row of an undiscovered VMID changes |
| `ProxmoxSync.QueuedVlans` | backend/app/services/proxmox.py:859-974 | without defaults exactly the VLANs tagged on queued VMs appear, and no host |
| `ProxmoxSync.SyncIdempotent` | backend/app/services/proxmox.py:783-1104 | a second sync of the same snapshot changes nothing if and only if the defaults were there, or the environment or the role default is missing, or no VM that is not a host yet carries a VLAN tag |
| `ProxmoxSync.SecondSyncCreates` | backend/app/services/proxmox.py:783-787 | an empty inventory and one tagged VM, for which the second sync does change something |
| `ProxmoxSync.CountsAllVms` | backend/app/services/proxmox.py:974-1034 | created + updated + pending is the number of VMs, and nothing is pending when there are defaults |
| `ProxmoxSync.SyncCounts` | backend/app/services/proxmox.py:974-1034 | from the tables before the sync: updated is the number of VMs that were hosts, created the number of the others when the defaults are there and 0 otherwise, pending their number when they are not and 0 otherwise; and there are that many more hosts |
| `ProxmoxNames.SyncKeepsIdsApart` | backend/app/services/proxmox.py:536-546 | no two host types, statuses, applications, datastores or VLANs get the same id |
| `ProxmoxNames.SyncAddsOnlyNeeded` | backend/app/services/proxmox.py:846-1088 | the lookup tables grow by exactly what the unreviewed nodes, the queued VMs and the hosts need |
| `ProxmoxTables.Session.UpsertNodePending` | backend/app/services/proxmox.py:692-760 | a named node has a row afterwards; a reviewed row is left alone, any other is open with the reported cores and memory and the node type; other rows stay |
| `ProxmoxTables.QueueCases` | backend/app/services/proxmox.py:899-973 | queueing a VM leaves a promoted row alone; any other is open and as reported, no earlier detection is lost, an open row keeps its types, and its disks and nets when they could not be read; other rows stay |
| `ProxmoxTables.Session.SyncHostApps` | backend/app/services/proxmox.py:666-676 | adding the missing and deleting the other rows leaves exactly the tagged apps of that host |
| `ProxmoxTables.Session.ApplyStorage` | backend/app/services/proxmox.py:1060-1104 | disks upserted by index, then the stale rows deleted, only when there are disks |
| `ProxmoxTables.Session.RunSync` | backend/app/services/proxmox.py:763-1104 | the loops compute the specified tables, and the counts by the hosts there were before |
| `IncludeExpansion.Expander.ParseTaskFile` | backend/app/services/job_template_preview.py:158-176 | the recursion over the shared set ends on every finite tree, cycles included, and computes the threaded expansion |
| `IncludeExpansion.Expander.PreviewTask` | backend/app/services/job_template_preview.py:183-268 | each task opens its target, reports it missing, or opens none |
| `IncludeExpansion.FileMatches` | backend/app/services/job_template_preview.py:158-176 | with any ancestors open and any non-list files left behind, the tree is the pure one, the set grows by exactly the non-list files met, and their repeats are reported as loops |
| `IncludeExpansion.ExpansionIsPure` | backend/app/services/job_template_preview.py:158-176 | the tree is always the pure expansion; the set is restored if and only if no non-list file was opened; the reasons agree if and only if none was opened twice |
| `IncludeExpansion.PreviewShows` | backend/app/services/job_template_preview.py:158-268 | a file that is a task list and not open already gives one node for each task entry, in order, with that entry, source and confidence, and below it exactly the preview of the file the entry names: the path of an import or include, conditional or not, or the main task file of a named role; anything else gives nothing |
| `IncludeExpansion.TaskPreviewShows` | backend/app/services/job_template_preview.py:183-268 | the same for a task of a play |
| `IncludeExpansion.ShowsOneTree` | backend/app/services/job_template_preview.py:158-268 | no other tree meets that description |
| `IncludeExpansion.PreviewReports` | backend/app/services/job_template_preview.py:158-220 | every missing target, loop and non-list met on the way is reported, and nothing else but a loop at a non-list met twice |
| `IncludeExpansion.NonListMetTwice` | backend/app/services/job_template_preview.py:167-169 | a file that is not a list, met twice, for which the reasons differ |
| `IncludeExpansion.TaskExpansionIsPure` | backend/app/services/job_template_preview.py:421-428 | the same for a play's task, previewed with a set of its own |
| `IncludeExpansion.PreviewBounded` | backend/app/services/job_template_preview.py:158-176 | no descent through the tree opens a file twice, so none is longer than there are files |
| `HostMatching.MatchHosts` | backend/app/services/job_template_preview.py:304-338 | the loops over tokens, hosts and groups compute the specified matches, and say direct exactly when the pattern is not dynamic |
| `HostMatching.MatchesAreExact` | backend/app/services/job_template_preview.py:310-338 | the hosts some token matches by name or group, sorted by name and id, each with exactly its matching tokens and, for each token that is not its name, the first group that token matches |
| `HostPatterns.TokensAreNames` | backend/app/services/job_template_preview.py:310-310 | names joined by any mix of commas and colons, with any blanks around them, are exactly the pattern's tokens, in order; empty ones are dropped |
| `HostPatterns.EveryPattern` | backend/app/services/job_template_preview.py:305-310 | every pattern is written like that |
| `HostPatterns.SelectionExact` | backend/app/services/job_template_preview.py:304-338 | a pattern selects every host if it is empty, "all" or "*", blanks aside; none if it contains a template, "&" or "!"; and otherwise exactly the hosts that some name in it matches, by host name or group, literally or as a glob |
| `HostMatching.AddMatches` | backend/app/services/job_template_preview.py:433-447 | one play's matches are merged into the targets, nothing lost and nothing else added |
| `HostMatching.Summarise` | backend/app/services/job_template_preview.py:387-491 | the targets are the union over the plays, with exactly the tokens, groups and play names that hit each host, reported by name and id; confidence is unknown if and only if some pattern is dynamic and no task of its play or a later one is less than direct, and direct if and only if every pattern and top-level task is, and neither reading the playbook nor expanding any role or include records a reason |
| `PreviewCache.ServeAll` | backend/app/services/job_template_preview.py:509-542 | over any run of requests every preview served for a commit agrees with a fresh one in every covered field, and a forced one is fresh |
| `PreviewCache.CacheIsSomeRequest` | backend/app/services/job_template_preview.py:519-542 | over any run, the stored preview was generated for some request with the same keys |
| `PreviewCache.ServedIsFresh` | backend/app/services/job_template_preview.py:509-542 | over any run, what is served for a commit agrees with a fresh preview in every covered field; without one, exactly when the files at hand give the same body |
| `PreviewCache.UnversionedCanBeStale` | backend/app/services/job_template_preview.py:527-532 | a run without commits in which a stale preview is served |
| `Slug.CollapseByReplacing` | backend/app/services/job_template_preview.py:79-84 | replacing double underscores until none is left ends and equals the one-pass collapse |
| `Slug.ComputePreviewSlug` | backend/app/services/job_template_preview.py:79-84 | the loop computes the specified slug |
| `Slug.GroupNamesDiffer` | backend/app/services/inventory_builder.py:167-172 | on ASCII values the inventory's name is the preview's with one more underscore exactly before a leading digit |
| `Slug.GroupNamesAgree` | backend/app/services/inventory_builder.py:167-172 | the names agree if and only if the slug does not start with a digit |
| `Slug.VlanGroupsNeverAgree` | backend/app/services/inventory_builder.py:304-305 | every VLAN group is `vlan_N` in the preview and `vlan__N` in the inventory |
| `Words.WordsSpelled` | backend/app/services/job_template_preview.py:79-84 | the words of a text are what stands between its gaps |
| `Words.PreviewSlugIsWords` | backend/app/services/job_template_preview.py:79-84 | a slug is the value's runs of letters and digits, lower-cased and joined by one underscore, or "unknown" |
| `Words.InventoryGroupIsWords` | backend/app/services/inventory_builder.py:167-172 | so is the inventory's, behind its prefix, with one more underscore before a digit |
| `Utf8.WellFormedRoundTrip` | ansible-runner/main.py:293-296 | decoding well-formed bytes and encoding the text gives the bytes back |
| `Utf8.EncodedIsWellFormed` | backend/app/services/ansible_runner.py:110-112 | encoded text is well formed and decodes to itself |
| `Utf8.DecodeFaithful` | ansible-runner/main.py:293-296 | decoding with replacement can be undone if and only if the bytes are well formed |
| `Utf8.ReplacedIsMaximal` | ansible-runner/main.py:293-296 | one replacement stands for a maximal ill-formed part: one byte, or as many as can begin a character |
| `OutputPolling.StreamOutput` | backend/app/services/ansible_runner.py:94-119 | the polling loop computes the specified offset and events |
| `OutputPolling.EventsTold` | backend/app/services/ansible_runner.py:97-133 | besides text the client hears one error for each failed poll, until the first poll that finds the job done or gone, which it hears once, as the last event |
| `OutputPolling.ExactExactlyWhenClean` | backend/app/services/ansible_runner.py:106-112 | over an append-only file, the text so far encodes exactly what was read at every poll if and only if every polled suffix is well formed |
| `OutputPolling.ExactlyOnce` | backend/app/services/ansible_runner.py:94-119 | then the chunks are the decoding of the file's first `offset` bytes, and the whole output if and only if the last poll read the whole file |
| `OutputPolling.TailCanBeLost` | ansible-runner/main.py:292-304 | any clean schedule whose "done" poll read less than the whole output ends without the tail, whatever would be polled later |
| `OutputPolling.OnePollLosesTail` | ansible-runner/main.py:292-304 | such a schedule exists wherever the output can be cut between two characters |
| `OutputPolling.CutCharacterIsLost` | backend/app/services/ansible_runner.py:110-112 | a poll that cuts a character loses it |
| `BackupFraming.EncryptStream` | backend/app/services/backup.py:59-69 | the write loop produces the frames of exactly the blocks read before the first empty one |
| `BackupFraming.DecryptStream` | backend/app/services/backup.py:72-86 | the read loop writes the specified output and raises the specified error |
| `BackupFraming.DecryptStreamIter` | backend/app/services/backup.py:89-103 | the generator yields the same bytes and raises the same error |
| `BackupFraming.HeaderFits` | backend/app/services/backup.py:67-68 | a cipher with Fernet's token length meets all the framing needs: the tokens of chunks fit the 4-byte header |
| `BackupFraming.PackRoundTrip` | backend/app/services/backup.py:68-82 | every length below 2^32 is written most significant byte first and survives the header |
| `BackupFraming.TokenFits` | backend/app/services/backup.py:63-68 | no chunk has a longer token than 87480 bytes, and only a full chunk has that |
| `BackupFraming.ReadFrame` | backend/app/services/backup.py:77-86 | a frame at the front decodes to its chunk, the rest as before |
| `BackupFraming.ReadCutFrame` | backend/app/services/backup.py:77-85 | a frame cut short decodes to nothing and the matching error |
| `BackupFraming.Truncation` | backend/app/services/backup.py:72-103 | any prefix of the file decodes to the chunks complete in it, and raises exactly when it does not end between two chunks |
| `BackupFraming.CorruptChunk` | backend/app/services/backup.py:72-103 | a token that cannot be decrypted ends the reading with the chunks before it and an error |
| `BackupFraming.BoundaryIsEnd` | backend/app/services/backup.py:67-69 | the m-th boundary is where the file of the first m chunks ends, and that file is a prefix of the whole |
| `BackupFraming.RoundTrip` | backend/app/services/backup.py:59-103 | however reads split the stream, decrypting the encrypted file returns it |
| `BackupFraming.InverseExists` | backend/app/services/backup.py:55-69 | the assumptions about encryption can be met: a padding cipher does |
| `SseSplitter.SplitContinues` | frontend/src/api/ai.ts:217-221 | splitting the leftover with the next chunk continues the split of the whole text |
| `SseSplitter.SplitIsLeftmost` | frontend/src/api/ai.ts:213-213 | the parts joined again are the text, and each ends at the first separator behind it |
| `SseSplitter.RemainderHasNoSeparator` | frontend/src/api/ai.ts:218-219 | what stays in the buffer never holds a separator |
| `SseSplitter.Stream` | frontend/src/api/ai.ts:203-227 | however the text is cut, the handlers run on the blocks of the whole text and the buffer holds what follows the last separator |
| `SseSplitter.FramesSplit` | backend/app/routers/ai.py:580-581 | frames with one-line payloads split into exactly their lines |
| `SseSplitter.FramesArrive` | frontend/src/api/ai.ts:248-272 | and are handled as exactly their events, nothing left over |
| `DiffShift.ShiftIsRight` | scripts/check_codeql_suppressions.py:17-36 | for ordered hunks and every old line no hunk replaces, the line at its number plus the shift in the patched file is that line |
| `DiffShift.OneHunk` | scripts/check_codeql_suppressions.py:26-33 | what a hunk of a zero-context diff means: it replaces its old lines, or inserts behind the line it names |
| `DiffShift.HeaderRead` | scripts/check_codeql_suppressions.py:26-33 | every hunk header git writes, counts left out included, is read back |
| `DiffShift.ReadFails` | scripts/check_codeql_suppressions.py:24-33 | reading fails if and only if a line that begins with "@@" is no header |
| `DiffShift.LinesAddedBefore` | scripts/check_codeql_suppressions.py:17-36 | the loop over the diff's lines sums the shift of its headers, or fails where a header cannot be read |
| `DiffShift.RenderedShift` | scripts/check_codeql_suppressions.py:23-36 | over the text of a diff that sum is the shift of its hunks |
| `DiffShift.OldLineIsUnambiguous` | scripts/check_codeql_suppressions.py:50-70 | an old line is used if and only if one entry matches rule and file, or one among several has the same reason, and it is that entry's |
| `DiffShift.CheckIsExact` | scripts/check_codeql_suppressions.py:107-131 | an entry whose old line survives and is not blank passes if and only if it points at where that line is now |
| `DiffShift.CheckVerdicts` | scripts/check_codeql_suppressions.py:107-131 | every verdict: past the end, an index Python refuses, a blank line, moved (and where to), or fine, line numbers of 0 and less counting from the end |
| `Ipam.UsableCount` | backend/app/services/ipam.py:42-44 | a network has its size less two usable addresses, two in a /31 and one in a /32 |
| `Ipam.UsableInside` | backend/app/services/ipam.py:42-44 | the usable addresses are those of the network without its first and last, or all of them in a /31 and /32 |
| `Ipam.ContainsByPrefix` | backend/app/services/ipam.py:84-84 | an address is in a network if and only if it has the network's leading bits |
| `Ipam.NextFree` | backend/app/services/ipam.py:58-66 | the least usable address not in use; none exactly when all are in use |
| `Ipam.PartitionHosts` | backend/app/services/ipam.py:69-88 | the three lists are the hosts inside, outside and without an address, in order |
| `Ipam.PartitionKeepsAll` | backend/app/services/ipam.py:69-88 | every host lands in exactly one of them, as often as it is listed |
| `Ipam.DottedInjective` | backend/app/services/ipam.py:54-54 | printed addresses determine addresses, so grouping by text is grouping by address |
| `Ipam.KeyOrdersAddresses` | backend/app/routers/ipam.py:106-109 | the tuple of octets orders printed addresses as numbers |
| `Ipam.GroupByIp` | backend/app/services/ipam.py:49-54 | every printed address is mapped to its hosts, in order |
| `Ipam.GroupDuplicateIps` | backend/app/services/ipam.py:47-55 | exactly the addresses with more than one host |
| `Ipam.ConflictAccounting` | backend/app/routers/ipam.py:55-59 | allocated addresses plus the hosts beyond the first of every conflict are the hosts in the subnet |
| `Ipam.FreeMeansNext` | backend/app/routers/ipam.py:57-65 | a positive free count means a usable address is free |
| `Ipam.FreeCountExact` | backend/app/routers/ipam.py:57-65 | the free count is the number of free usable addresses if and only if no host sits on a network or broadcast address or nothing is free |
| `RoleOrder.HostRoles.SyncRoles` | backend/app/routers/hosts.py:85-89 | the host has exactly the listed roles in that order with priorities from 1; a repeated role is refused and nothing changes; other hosts keep theirs |
| `RoleOrder.HostRoles.RoleIds` | backend/app/routers/hosts.py:19-31 | each role of the host once, by non-decreasing priority |
| `RoleOrder.HostRoles.AppendRoles` | backend/app/routers/hosts.py:92-97 | the roles as read back come first and each new role behind them; refused exactly when that list repeats a role, and then nothing changes; otherwise the host is in order, whatever priorities were stored |
| `RoleOrder.HostRoles.MaxPriority` | backend/app/routers/role_matrix.py:89-94 | the greatest priority of the host, none without roles |
| `RoleOrder.HostRoles.Toggle` | backend/app/routers/role_matrix.py:66-100 | a held role is removed and a new one put last, in every order the roles can be read back in, tied priorities included; or stored with the caller's priority |
| `RoleOrder.ReadBackIsOrder` | backend/app/routers/hosts.py:19-31 | whatever order the database gives to equal keys, the read-back is the abstract list |
| `RoleOrder.ChangeAll` | backend/app/routers/hosts.py:85-97 | after any sequence of replacements, additions and toggles the priorities are positive and increasing along the abstract list, and that list is read back |
| `RoleOrder.AppendIsIdempotent` | backend/app/routers/hosts.py:92-97 | appending keeps the old list in front, adds every role once, and does nothing the second time |
| `RoleOrder.ExplicitPriority` | backend/app/routers/role_matrix.py:85-100 | an explicit priority leaves the host in some order if and only if it is positive and unused |
| `RoleOrder.PriorityRefused` | backend/app/routers/role_matrix.py:85-100 | a used and a non-positive priority that leave a host without an order |
| `RoleOrder.FirstRoleDecides` | backend/app/routers/inventory.py:326-334 | in the built inventory the first role in the list with a default for a field supplies the host's variable if and only if no override does; without such a role no role supplies it |
| `AgentKeys.NormalizeIsNormal` | backend/app/services/ai.py:238-240 | a normalised key is lower-case letters and digits with single inner dashes, never empty |
| `AgentKeys.NormalizeIsWords` | backend/app/services/ai.py:238-240 | a key is the raw text's runs of letters and digits, lower-cased and joined by one dash, or "agent" |
| `AgentKeys.CandidatesDistinct` | backend/app/services/ai.py:247-247 | the candidates base, base-2, base-3, ... are pairwise distinct |
| `AgentKeys.EnsureUniqueKey` | backend/app/services/ai.py:243-254 | the search ends within one try more than there are keys, at the first candidate no other agent holds, ignoring case |

## Left out

- Value decryption and coercion: one function applied to each value; the model keeps which row supplies it.
- The key order of inventory dictionaries and the JSON layout around hostvars and groups; the explorer's masking of secrets, labels and override targets.
- The queries behind the layers and the filter over hosts: row lists and a predicate stand for their results. `_normalize_int_list` and the normalisation of filters would only add easy members.
- RunProtocol.InvAfter: follows one run and its one job; several viewers appending the same chunk to the stored output is not modelled, nor the deletion of a run row, nor a file unlinked under a read in progress.
- RunRecords.RunSystem.StartRun: job ids are taken as fresh; the process, its temporary files and path checks are not modelled.
- InventoryExplorer.ExplorerAgrees: assumes that no two rows of a layer tie for a variable, because the two query orders resolve ties differently, and that the rows the inventory has under the host's name are that host's.
- InventoryBuilders.GroupProjection: states equality of the members as sets; the order of the members is not promised, as GroupOrderDiffers shows.
- InventoryBuilders.HostProjection: where the builders' layer queries return the same rows in different orders, it assumes that no two rows of a layer tie for a variable.
- ProxmoxSync.SyncConverges: the link from a host to its Proxmox node's host and the node's storage pools are not modelled; timestamps, run rows, notifications and free-text notes neither.
- The parsing of disk, tag and network configuration text: a VM carries the parsed parts.
- IncludeExpansion.ExpansionIsPure: paths are resolved and inside the repository; symbolic links, unreadable YAML, and the recursion over `import_playbook`, which has no guard against cycles, are not modelled.
- HostMatching.Summarise: the texts of reasons, unmatched patterns and per-play reports are not modelled; the reasons recorded while the playbook is read are an input.
- HostPatterns.SelectionExact: blanks are the ASCII ones; what a glob matches is a parameter.
- Slug.GroupNamesAgree: ASCII only; Unicode letters and case mapping are not modelled.
- BackupFraming.RoundTrip: assumes that decryption undoes encryption; key derivation and the retention of old backups are not modelled.
- SseSplitter.Stream: works on decoded text; TextDecoder is not modelled.
- DiffShift.LinesAddedBefore: numerals are plain digits; other spellings int() accepts are treated as unreadable.
- Ipam.NextFree: works on numbers; the parsing of subnets and addresses, the utilisation percentage and UniFi drift are not modelled.
- RoleOrder.HostRoles.Toggle: priorities are unbounded, so the overflow of a stored small integer is not modelled.
- `resolve_host_ssh_aliases`, CRUD routers, authentication, schedulers, monitoring, and the React pages: no property that reaches beyond one call.
