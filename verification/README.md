# Model of the deployment tool's reconcilers, encoders and enumerations

This project models, in Dafny, the parts of the repository that hold real state machines, loops
that converge a server towards a configuration, and text formats that one program writes and
another one reads, and proves properties of them.

- `MachineSync`: `Machine().process()` against a MAAS server, over one snapshot.
- `RepeatedNames`, `MacExchange`: the same with names that are given more than once, and with MACs
  that moved between configured machines.
- `AssignMachinesIp`, `AssignRun`: disconnecting and linking the interfaces of a machine, and of
  several machines in turn.
- `WaitForStatus`: waiting for machines while recovering failed ones.
- `MachineRecovery`: what such a recovery does to the machines on the server.
- `StorageTeardown`, `DiskPartitions`: removing a storage layout, recreating partitions.
- `BashText`, `VnodeCodec`, `RepoCodec`: strings packed by Jinja macros and unpacked by bash.
- `SlashEscape`: the `/` escape around template rendering.
- `Multipart`: form parts and CRLF normalisation.
- `FormulaFetch`: the dependency closure of a formula.
- `MatrixBuild`: expansion of a build matrix.
- `IpFilters`, `NumaScenario`: address filters and NUMA cells.
- `GnocchiRule`, `PollingLoops`: rule replacement and bounded polling.

Each component has a function over values that says what a run does, lemmas about that function,
and methods (in classes where the source keeps state in objects) that follow the code step by
step and are proved equal to the function. The iteration order of a Python dictionary is the order
of a sequence that the statements quantify over. Assumptions about servers are the bodies of the
server operations: a MAAS server refuses a host name or MAC address in use, keeps the interfaces of
a machine on PUT, refuses a static address held by another interface, refuses to delete an object
another one is built on, and numbers partitions in creation order. Clocks, listings and the success
of calls are function-valued parameters, so statements hold for everything the environment may do.

Where code and documentation disagree, the code is followed: `disk_partition_present` is documented
to validate all partitions but compares only the first one (`DiskPartitions.UnnoticedExactly` says
exactly when it then accepts a wrong layout), and the disk teardown, documented as a fixed order of
phases, also depends on the listing order within a phase (`StorageTeardown.TeardownExactly`).

## Model

| member | source | states |
|---|---|---|
| `MachineSync.SnapshotSuffices` | mcp/salt-formulas/salt-formula-maas/_modules/maas.py:102-177 | for distinct names, and for every pattern of refused calls and lost replies, the run over one snapshot is equal (server, call log, report) to a run that reads the server again before each name; names outside the run keep their machines |
| `RepeatedNames.SnapshotSufficesExactly` | mcp/salt-formulas/salt-formula-maas/_modules/maas.py:128-171 | names given any number of times, on a server that serves all calls: the run over one snapshot equals the one that reads again (server, call log, report) if and only if every repeated name with usable data is, in the snapshot, on a machine sharing a MAC with its configuration |
| `RepeatedNames.HarmlessSnapshotSuffices` | mcp/salt-formulas/salt-formula-maas/_modules/maas.py:102-177 | the if half for every pattern of refused calls and lost replies, on any server: with all repetitions harmless in that sense the single snapshot equals re-reading; distinct names are a special case |
| `RepeatedNames.RepeatsOnlyMisreport` | mcp/salt-formulas/salt-formula-maas/_modules/maas.py:141-171 | whatever names are repeated, both runs reach the same machines; the stale one reports an error for exactly those repeated names whose machine had to be created, or deleted and created again, besides the names without usable data |
| `RepeatedNames.HarmfulOutcome` | mcp/salt-formulas/salt-formula-maas/_modules/maas.py:141-164 | at such a repetition the stale call is refused, the re-read one updates, and neither changes a machine |
| `MachineSync.RepeatedNameDiverges` | mcp/salt-formulas/salt-formula-maas/_modules/maas.py:165-171 | the shortest case, whatever else is on the server: a new name given twice is reported as failed, while re-reading reports it created and then updated |
| `MachineSync.CleanRunSettles` | mcp/salt-formulas/salt-formula-maas/_modules/maas.py:141-155 | without failures every configured name ends with one machine that shares a MAC with its configuration, the old one with updated settings exactly when it already shared one, whatever came before it in the run |
| `MachineSync.CleanRunReport` | mcp/salt-formulas/salt-formula-maas/_modules/maas.py:141-155 | such a run reports as created the names unknown at the start and as updated the others, each once and in order, and no error |
| `MachineSync.RunKeepsCompatible` | mcp/salt-formulas/salt-formula-maas/_modules/maas.py:141-164 | whatever calls fail, host names stay unique and no configured MAC moves to a machine of another name |
| `MachineSync.RecoversFromFailures` | mcp/salt-formulas/salt-formula-maas/_modules/maas.py:141-164 | after any run with failures, including the gap between a delete and a create, one clean run settles every name |
| `MacExchange.TwoRunsSettle` | mcp/salt-formulas/salt-formula-maas/_modules/maas.py:141-164 | with lines 468-486: when foreign configured MACs are only on machines that are themselves due to be created again, as after an exchange of MACs, one clean run separates all MACs and a second settles every name |
| `MacExchange.FirstRunLosesExactly` | mcp/salt-formulas/salt-formula-maas/_modules/maas.py:141-164 | the first of these runs leaves a name without a machine if and only if it had no machine sharing a MAC and a name later in the run holds one of its MACs |
| `MachineSync.SecondRunOnlyPuts` | mcp/salt-formulas/salt-formula-maas/_modules/maas.py:468-486 | a run after a clean run issues one PUT per name and nothing else, even if its own calls fail |
| `MachineSync.RequestsForName` | mcp/salt-formulas/salt-formula-maas/_modules/maas.py:141-164 | with lines 468-486: a name unknown to the server is created; a known one is updated by a PUT if some configured MAC and some MAC of the machine are equal up to the case of letters, with its identifier, the configured settings and the common MACs in small letters, and otherwise deleted and, only after a confirmed delete, created; an error of the last request makes the name fail |
| `MachineSync.ShareMacExactly` | mcp/salt-formulas/salt-formula-maas/_modules/maas.py:470-477 | MACs are compared without regard to case |
| `MachineSync.AcceptedNameSucceeds` | mcp/salt-formulas/salt-formula-maas/_modules/maas.py:141-155 | served and accepted requests make the name created or updated |
| `MachineSync.KnownIsLast` | mcp/salt-formulas/salt-formula-maas/_modules/maas.py:129-137 | of several machines with one name the last one listed counts |
| `MachineSync.PresentExactly` | mcp/salt-formulas/salt-formula-maas/_modules/maas.py:165-171 | the names processed are those before the first one without configuration |
| `MachineSync.MacsAsConfigured` | mcp/salt-formulas/salt-formula-maas/_modules/maas.py:407-417 | one MAC or a list of them; the old form of a description decides even when it has none; no data without power section or MAC |
| `MachineSync.SettingsAsConfigured` | mcp/salt-formulas/salt-formula-maas/_modules/maas.py:418-466 | the keys sent are the architecture, the power type and the current name of every power parameter, and nothing else, with the values of the description or the defaults |
| `MachineSync.BaseSettingsSurvive` | mcp/salt-formulas/salt-formula-maas/_modules/maas.py:407-466 | architecture and power type are those of the configuration or the defaults; no power parameter displaces them |
| `MachineSync.LastSpellingWins` | mcp/salt-formulas/salt-formula-maas/_modules/maas.py:424-466 | of several spellings of a power parameter the one iterated last decides |
| `MachineSync.MachineObject.ComputeData` | mcp/salt-formulas/salt-formula-maas/_modules/maas.py:407-466 | the loop over the power parameters computes the payload that the lemmas are about, or fails on a missing section or MAC |
| `MachineSync.MachineObject.Update` | mcp/salt-formulas/salt-formula-maas/_modules/maas.py:468-486 | PUT data with the common MACs, or the old machine deleted and the update flag cleared |
| `MachineSync.MachineObject.Send` | mcp/salt-formulas/salt-formula-maas/_modules/maas.py:91-100 | the flag decides between PUT and POST |
| `MachineSync.MachineObject.ProcessSingle` | mcp/salt-formulas/salt-formula-maas/_modules/maas.py:141-164 | one name, whatever the flag was before |
| `MachineSync.MachineObject.Gather` | mcp/salt-formulas/salt-formula-maas/_modules/maas.py:129-137 | the dictionary of all elements keeps the last element of each name |
| `MachineSync.MachineObject.Process` | mcp/salt-formulas/salt-formula-maas/_modules/maas.py:102-177 | state and report of the whole loop, up to the first requested name without configuration |
| `AssignMachinesIp.AssignExactly` | mcp/salt-formulas/salt-formula-maas/_modules/maas.py:542-651 | from any links, the assignment is accepted throughout if and only if every MAC exists, every mode is known, no static address is in use elsewhere and none is asked for on two interfaces, and no request fails by itself; then every interface carries exactly what was asked for it |
| `AssignMachinesIp.LinkAllExactly` | mcp/salt-formulas/salt-formula-maas/_modules/maas.py:562-616 | linking alone, from any links: accepted if and only if, besides that, no other interface of the machine holds an address asked for; the links are added to those held |
| `AssignMachinesIp.OneLinkEach` | mcp/salt-formulas/salt-formula-maas/_modules/maas.py:562-616 | with every interface configured at most once, a configured one ends with its single link and its attributes, the others unlinked |
| `AssignMachinesIp.EntryArrives` | mcp/salt-formulas/salt-formula-maas/_modules/maas.py:575-616 | after an accepted assignment an entry in mode STATIC, in any letter case, leaves its interface holding exactly the configured address, subnet and gateway, DHCP the subnet, AUTO or no mode the gateway, LINK_UP and UNCONFIGURED a bare link |
| `AssignMachinesIp.ModesExactly` | mcp/salt-formulas/salt-formula-maas/_modules/maas.py:575-597 | a mode is accepted if and only if it is one of these five up to case |
| `AssignMachinesIp.FailedAssignLeaves` | mcp/salt-formulas/salt-formula-maas/_modules/maas.py:542-651 | what an assignment leaves that stops at an entry: the entries before it are as configured, interfaces of later ones unlinked |
| `AssignMachinesIp.DisconnectStops` | mcp/salt-formulas/salt-formula-maas/_modules/maas.py:542-560 | disconnecting stops at the first failing request; exactly the interfaces before it, and that one if its request took effect, have lost their links |
| `AssignMachinesIp.InterfaceStops` | mcp/salt-formulas/salt-formula-maas/_modules/maas.py:598-620 | an entry that is not accepted touches no interface but its own |
| `AssignMachinesIp.OrderDoesNotMatter` | mcp/salt-formulas/salt-formula-maas/_modules/maas.py:649-651 | the same set of entries in any order, repeated or not, gets the same verdict when requests are served; with each interface configured at most once also the same interfaces |
| `AssignMachinesIp.DisconnectNeededExactly` | mcp/salt-formulas/salt-formula-maas/_modules/maas.py:542-560 | disconnecting first makes the difference between refusal and acceptance if and only if a consistent configuration asks for an address that another interface of the machine holds, as in an exchange of two addresses |
| `AssignMachinesIp.RetryRepairs` | mcp/salt-formulas/salt-formula-maas/_modules/maas.py:542-651 | however an assignment failed half-way, repeating it leads to the interfaces, links and attributes, that the first one would have led to |
| `AssignRun.RunExactly` | mcp/salt-formulas/salt-formula-maas/_modules/maas.py:622-651 | several machines in one run: all are accepted if and only if each configuration is consistent on its machine and asks for no address that an earlier machine of the run has got or kept or a later one still holds; every machine then ends as configured |
| `AssignRun.EveryTurn` | mcp/salt-formulas/salt-formula-maas/_modules/maas.py:141-171 | a machine that fails does not keep later ones from their turn, and later turns do not touch it |
| `AssignRun.HeldElsewhereExactly` | mcp/salt-formulas/salt-formula-maas/_modules/maas.py:542-560 | which addresses the server refuses: those some other machine has a static link with |
| `AssignRun.ExchangeIsRefused` | mcp/salt-formulas/salt-formula-maas/_modules/maas.py:542-560 | an exchange of addresses between two machines is refused in either order of the machines |
| `AssignMachinesIp.GetNicIdByMac` | mcp/salt-formulas/salt-formula-maas/_modules/maas.py:530-540 | last interface of a MAC, or the lookup failure |
| `AssignMachinesIp.NicIdIsLast` | mcp/salt-formulas/salt-formula-maas/_modules/maas.py:530-540 | of several interfaces with one MAC the last one listed is meant |
| `AssignMachinesIp.ProcessOneInterface` | mcp/salt-formulas/salt-formula-maas/_modules/maas.py:562-620 | the PUT of the interface, then the link request, stopping at the first lookup, mode or request that fails |
| `AssignMachinesIp.DisconnectAllNic` | mcp/salt-formulas/salt-formula-maas/_modules/maas.py:542-560 | one disconnect request per interface, stopping at the first that fails |
| `AssignMachinesIp.AssignInterfaces` | mcp/salt-formulas/salt-formula-maas/_modules/maas.py:649-651 | disconnect all, then process in order, stopping at the first failure of any request |
| `AssignMachinesIp.AssignMachine` | mcp/salt-formulas/salt-formula-maas/_modules/maas.py:506-528 | with lines 622-651: only a machine in status Ready is touched; old and new schema, skips and failures |
| `WaitForStatus.Reachable` | mcp/salt-formulas/salt-formula-maas/_modules/maas.py:968-1025 | invariant of every reachable state: who is still waited for, why others are not, attempts equal completed recoveries, calls follow the recovery plans |
| `WaitForStatus.SeenKeepsInvariant` | mcp/salt-formulas/salt-formula-maas/_modules/maas.py:970-1010 | the same invariant is kept by every single report handled inside a round |
| `WaitForStatus.GuardHolds` | mcp/salt-formulas/salt-formula-maas/_modules/maas.py:964-968 | the machines waited for stay a part of those given, so the loop guard never fails |
| `WaitForStatus.SuccessWasSeen` | mcp/salt-formulas/salt-formula-maas/_modules/maas.py:969-1014 | True is returned only if every machine that is not ignored was reported in a required status at some poll |
| `WaitForStatus.SuccessExactly` | mcp/salt-formulas/salt-formula-maas/_modules/maas.py:969-1014 | names given once: True is returned at the end of a round if and only if no call has failed and every machine that is not ignored was reported in a required status, in this or an earlier round, in the listing fetched for its own name |
| `WaitForStatus.RecoveryBudget` | mcp/salt-formulas/salt-formula-maas/_modules/maas.py:968-1010 | completed recoveries of a machine equal its recorded attempts, at most `attempts`; in all at most `attempts` times the distinct monitored names |
| `WaitForStatus.CommissionOnlyAgain` | mcp/salt-formulas/salt-formula-maas/_modules/maas.py:991-1005 | a commissioning with the disk test directly follows `mark_fixed` of the same machine, only the redeployment can follow it, and it lies inside a recovery all of whose calls come after all calls of an earlier, completed recovery of the same machine |
| `WaitForStatus.RecoveriesAreJustified` | mcp/salt-formulas/salt-formula-maas/_modules/maas.py:968-1010 | every call belongs to the plan of a recovery begun at one report of one round: in the state of that moment the machine is still in `total` with attempts left, and the listing just fetched reports it in a recoverable status that is not required |
| `WaitForStatus.StepRecoversExactly` | mcp/salt-formulas/salt-formula-maas/_modules/maas.py:970-1010 | in every run each report makes a recovery begin if and only if it is of a machine the state of that moment waits for, in a status that is not required and is New, Failed commissioning, Failed testing, Failed deployment or Allocated, after fewer completed recoveries of it than `attempts`; no other report makes a call |
| `WaitForStatus.RecoveryBeginsExactly` | mcp/salt-formulas/salt-formula-maas/_modules/maas.py:971-977 | the same for any state that keeps the budget, and what else a report can do: end the wait for its machine |
| `WaitForStatus.RecoveryCalls` | mcp/salt-formulas/salt-formula-maas/_modules/maas.py:979-1010 | the calls of a recovery, listed by status, are made up to the first one that fails, and the recovery counts if none does |
| `WaitForStatus.RaisedExactly` | mcp/salt-formulas/salt-formula-maas/_modules/maas.py:967-1025 | something is raised if and only if a listing could not be fetched or a call failed |
| `WaitForStatus.RequestedExactly` | mcp/salt-formulas/salt-formula-maas/_modules/maas.py:972-973 | the required statuses are those named between bars, in any letter case |
| `WaitForStatus.NamesAsTranslated` | mcp/salt-formulas/salt-formula-maas/_modules/maas.py:49-58 | the names of the statuses |
| `WaitForStatus.SeenForGood` | mcp/salt-formulas/salt-formula-maas/_modules/maas.py:971-976 | once a name has left `total` it never returns, and no recovery of it begins or completes in any later round |
| `WaitForStatus.UndecidedLeavesTime` | mcp/salt-formulas/salt-formula-maas/_modules/maas.py:1015-1025 | a round without decision leaves time, which bounds the number of rounds |
| `WaitForStatus.RecoverMachine` | mcp/salt-formulas/salt-formula-maas/_modules/maas.py:977-1010 | the calls of one recovery by status, up to the first that fails, and the count kept |
| `WaitForStatus.ScanListing` | mcp/salt-formulas/salt-formula-maas/_modules/maas.py:970-1010 | one listing, report by report |
| `WaitForStatus.OneRound` | mcp/salt-formulas/salt-formula-maas/_modules/maas.py:969-1010 | one listing for every given machine |
| `WaitForStatus.WaitForMachineStatus` | mcp/salt-formulas/salt-formula-maas/_modules/maas.py:964-1025 | decides at the first round that can be decided, after at most ceil(timeout / poll time) + 1 rounds; never leaves the loop by its guard |
| `WaitForStatus.Wait` | mcp/salt-formulas/salt-formula-maas/_modules/maas.py:950-966 | defaults: configured machines, or success without a configuration |
| `MachineRecovery.RecoveryRecreates` | mcp/salt-formulas/salt-formula-maas/_modules/maas.py:983-986 | with `Machine().process()`: on a server that works, deleting and processing brings a configured machine back, alone under its name with the configured MACs and settings, removes an unconfigured one for good, settles the other configured names and leaves the rest alone |
| `StorageTeardown.TeardownExactly` | mcp/salt-formulas/salt-formula-maas/_modules/maasng.py:559-587 | no lookup by name ever fails; the teardown completes if and only if no RAID and no later-listed group is built on a logical volume and no later-listed RAID on a RAID; then only the disks are left, without partitions |
| `StorageTeardown.RefusedOnVolume` | mcp/salt-formulas/salt-formula-maas/_modules/maasng.py:559-587 | what a teardown refused on a volume leaves: the groups before the first blocked one are gone, that one keeps its volumes from the first used one on, and later groups, all RAIDs and all partitions are as they were |
| `StorageTeardown.RefusedOnRaid` | mcp/salt-formulas/salt-formula-maas/_modules/maasng.py:577-587 | what a teardown refused on a RAID leaves: no groups, the RAIDs from the first blocked one on, and all partitions of disks |
| `StorageTeardown.DropGroupsExactly` | mcp/salt-formulas/salt-formula-maas/_modules/maasng.py:758-783 | the volume-group phase alone: when it completes, and what it leaves |
| `StorageTeardown.DropRaidsExactly` | mcp/salt-formulas/salt-formula-maas/_modules/maasng.py:577-579 | the RAID phase alone |
| `StorageTeardown.DropAllDisks` | mcp/salt-formulas/salt-formula-maas/_modules/maasng.py:581-587 | the partition phase alone, from any disk on |
| `StorageTeardown.RaidPartitions` | mcp/salt-formulas/salt-formula-maas/_modules/maasng.py:583-587 | on a RAID, partitions are looked up and deleted on the RAID itself, and refused while in use |
| `StorageTeardown.VolumesListed` | mcp/salt-formulas/salt-formula-maas/_modules/maasng.py:581-582 | every logical volume of every group is listed as a device, and nothing else is as a volume |
| `StorageTeardown.OrderDecides` | mcp/salt-formulas/salt-formula-maas/_modules/maasng.py:573-575 | two groups that can be deleted in one listing order and not in the other |
| `StorageTeardown.StorageServer.DeleteVolumeGroup` | mcp/salt-formulas/salt-formula-maas/_modules/maasng.py:758-783 | volumes of a group one by one, then the group |
| `StorageTeardown.StorageServer.DeletePartitions` | mcp/salt-formulas/salt-formula-maas/_modules/maasng.py:583-587 | partitions of a device one by one |
| `StorageTeardown.StorageServer.DropStorageSchema` | mcp/salt-formulas/salt-formula-maas/_modules/maasng.py:559-587 | the three phases in order, stopping at the first failure |
| `DiskPartitions.RecreateExactly` | mcp/salt-formulas/salt-formula-maas/_states/maasng.py:218-235 | delete-and-create completes if and only if no partition is in use and the schema fits the disk; it leaves one partition per entry with the size asked for, in order |
| `DiskPartitions.RecreateCalls` | mcp/salt-formulas/salt-formula-maas/_states/maasng.py:218-235 | a recreation call by call, also when it fails: deletions up to the first partition in use, creations up to the first entry that does not fit, nothing undone |
| `DiskPartitions.EndsBeforeCalls` | mcp/salt-formulas/salt-formula-maas/_states/maasng.py:195-210 | an unknown unit or a failing lookup ends the state before any call |
| `DiskPartitions.UnitsOfAThousand` | mcp/salt-formulas/salt-formula-maas/_states/maasng.py:199-200 | the units M, G and T are powers of a thousand, and there are no others |
| `DiskPartitions.SuffixExactly` | mcp/salt-formulas/salt-formula-maas/_states/maasng.py:207-209 | the part of a name after its last dash counts |
| `DiskPartitions.FindIsLast` | mcp/salt-formulas/salt-formula-maas/_modules/maasng.py:408-418 | a partition is found by its decimal number |
| `DiskPartitions.SecondRunExactly` | mcp/salt-formulas/salt-formula-maas/_states/maasng.py:195-240 | over its own layout the state issues no call exactly when the first entry names a partition of its own size (or the schema is empty), and fails on the lookup exactly when it names none |
| `DiskPartitions.InOrderIsStable` | mcp/salt-formulas/salt-formula-maas/_states/maasng.py:202-216 | a schema starting with `part1` is stable after one recreation |
| `DiskPartitions.ReachesLayoutExactly` | mcp/salt-formulas/salt-formula-maas/_states/maasng.py:195-240 | from any disk the state ends with the layout asked for if and only if it skips over a disk that has it already, or else finds the first entry when the numbers agree, no partition is in use and the schema fits |
| `DiskPartitions.UnnoticedExactly` | mcp/salt-formulas/salt-formula-maas/_states/maasng.py:202-216 | it succeeds over a wrong layout if and only if the numbers agree, the first entry names a partition of its own size, and the disk has another layout; it has then changed nothing |
| `DiskPartitions.UnnoticedMismatch` | mcp/salt-formulas/salt-formula-maas/_states/maasng.py:204-216 | a disk of that kind: a wrong second partition |
| `DiskPartitions.BlockDevice.ListPartitions` | mcp/salt-formulas/salt-formula-maas/_modules/maasng.py:392-419 | partitions by name |
| `DiskPartitions.BlockDevice.DiskPartitionPresent` | mcp/salt-formulas/salt-formula-maas/_states/maasng.py:195-240 | sizes first, then the comparison, then delete and create |
| `DiskPartitions.BlockDevice.DeleteThenCreate` | mcp/salt-formulas/salt-formula-maas/_states/maasng.py:218-235 | both loops, stopping at the first refusal |
| `BashText.ReadJoin` | mcp/scripts/lib_jump_deploy.sh:418-431 | reading back a joined list gives the list, but for an empty last field |
| `VnodeCodec.RoundTrip` | mcp/scripts/xdf_data.sh.j2:33-59 | with mcp/scripts/lib_jump_deploy.sh lines 412-459: every virtual node arrives with name, disks, RAM and vCPUs, each from the defaults if not given, optional topology and its NUMA cells last first |
| `VnodeCodec.DisksArrive` | mcp/scripts/xdf_data.sh.j2:47-49 | the disks of a machine are those listed for the node, or those of the defaults if there are none |
| `VnodeCodec.ListedTwice` | mcp/scripts/xdf_data.sh.j2:41-45 | a node listed twice gets its cells twice the second time, because their text is kept under its name |
| `VnodeCodec.CollectJoins` | mcp/scripts/xdf_data.sh.j2:41-45 | the NUMA text built in place is the fields of all cells, last cell first |
| `VnodeCodec.LineRoundTrip` | mcp/scripts/lib_jump_deploy.sh:430-459 | one line, with or without topology and cells, including the empty trailing fields the shell drops |
| `VnodeCodec.SerializeVnodes` | mcp/scripts/xdf_data.sh.j2:33-59 | the nested loops of the macro, with the text kept per node name |
| `VnodeCodec.CreateVms` | mcp/scripts/lib_jump_deploy.sh:418-431 | lines in order, empty ones skipped |
| `VnodeCodec.CreateVm` | mcp/scripts/lib_jump_deploy.sh:430-459 | the step-by-three loop terminates on any line and collects the cells |
| `RepoCodec.RoundTrip` | mcp/scripts/xdf_data.sh.j2:80-91 | with mcp/scripts/lib_jump_deploy.sh lines 188-229 and 287-323: both images get back the keys, repository words and packages described for them, empty lists included |
| `RepoCodec.BaseDecision` | mcp/scripts/lib_jump_deploy.sh:298-308 | the base image is patched exactly when some section asks for something |
| `RepoCodec.ControlDecision` | mcp/scripts/lib_jump_deploy.sh:313-323 | the control plane image is patched exactly when there is a second section with more than keys |
| `RepoCodec.DecisionsExactly` | mcp/scripts/lib_jump_deploy.sh:298-313 | the tests on any text: the base image is left alone for carets only, a second section counts when its fields together are not empty |
| `RepoCodec.WordsExactly` | mcp/scripts/lib_jump_deploy.sh:188-207 | words end at blanks, tabs and line breaks and are never empty |
| `RepoCodec.ReposArrive` | mcp/scripts/lib_jump_deploy.sh:205-207 | repository lines survive two levels of packing |
| `RepoCodec.AptReposPkgs` | mcp/scripts/lib_jump_deploy.sh:188-207 | the four lists read from the arguments |
| `RepoCodec.PrepareVms` | mcp/scripts/lib_jump_deploy.sh:287-327 | which images are patched, and from which fields |
| `RepoCodec.SerializeRepoPkg` | mcp/scripts/xdf_data.sh.j2:80-91 | the loop of the macro |
| `SlashEscape.RenderingIsFaithful` | mcp/scripts/pharos/config/utils/generate_config.py:58-72 | the rendered document, unescaped, is what was meant if and only if nowhere literal text `__slash` is followed by `__`, by `_` and an escaped slash, or by an escaped slash |
| `SlashEscape.RoundTrip` | mcp/scripts/pharos/config/utils/generate_config.py:58-72 | text without the stem `__slash` survives, escaped or not |
| `SlashEscape.StraddlingToken` | mcp/scripts/pharos/config/utils/generate_config.py:72 | `__slash/` does not survive |
| `Multipart.BodyIsNormalised` | mcp/salt-formulas/salt-formula-maas/_modules/multipart.py:116-121 | CR and LF occur in the body only as the pair; announced length is the sum of line lengths plus two per join |
| `Multipart.LinesSurvive` | mcp/salt-formulas/salt-formula-maas/_modules/multipart.py:116-118 | splitting the body gives the lines back exactly when the last one is not empty |
| `Multipart.LinesExactly` | mcp/salt-formulas/salt-formula-maas/_modules/multipart.py:118 | lines end at LF, CR and CRLF and nowhere else, and what stands between is kept |
| `Multipart.NormalisingTwice` | mcp/salt-formulas/salt-formula-maas/_modules/multipart.py:116-118 | when normalising again changes nothing |
| `Multipart.PayloadsAreLeaves` | mcp/salt-formulas/salt-formula-maas/_modules/multipart.py:69-86 | the parts are the leaves of the nested content, each once, in document order, under the given name |
| `Multipart.FailsOnUnknown` | mcp/salt-formulas/salt-formula-maas/_modules/multipart.py:84-86 | making parts fails exactly when something unrecognised is nested anywhere |
| `Multipart.MakePayloads` | mcp/salt-formulas/salt-formula-maas/_modules/multipart.py:69-86 | the recursive generator |
| `Multipart.MessageIsLeaves` | mcp/salt-formulas/salt-formula-maas/_modules/multipart.py:89-97 | the parts of a whole message are the leaves of all entries, in the order of the entries and then in document order, each once and under the name of its entry |
| `Multipart.MessageFailsOnUnknown` | mcp/salt-formulas/salt-formula-maas/_modules/multipart.py:84-97 | making the message fails if and only if something unrecognised is nested in some entry |
| `Multipart.BuildMultipartMessage` | mcp/salt-formulas/salt-formula-maas/_modules/multipart.py:89-97 | the loops over the form data compute the message these lemmas are about |
| `FormulaFetch.FetchIsReachability` | docker/files/scripts/formula-fetch.sh:52-139 | from any environment and any dependency graph, cyclic or not, exactly the available formulas reachable through unlinked available ones are linked, each once, although `FETCHED` is lost between subshells; provided that of the names so reachable none contains another |
| `FormulaFetch.MatchesIsMembership` | docker/files/scripts/formula-fetch.sh:77 | for such names the regular expression finds exactly the names fetched |
| `FormulaFetch.InsideExactly` | docker/files/scripts/formula-fetch.sh:77 | a name matches a text that consists of it and what is around it |
| `FormulaFetch.SafeNamesExactly` | docker/files/scripts/formula-fetch.sh:52-139 | which names are safe: every fetch into an empty environment, over every graph on formulas of a set of proper names, links exactly what is reachable if and only if no name of the set is contained in another |
| `FormulaFetch.ContainedDependencyIsSkipped` | docker/files/scripts/formula-fetch.sh:77 | the shortest failure: a formula listing one whose name is contained in its own does not get it |
| `FormulaFetch.ContainedNameIsSkipped` | docker/files/scripts/formula-fetch.sh:77 | another one: of two dependencies the second is skipped because its name is contained in the first |
| `FormulaFetch.Environment.FetchGitFormula` | docker/files/scripts/formula-fetch.sh:52-139 | one formula: skipped, unavailable, linked already, or linked with its dependencies |
| `FormulaFetch.Environment.FetchDependencies` | docker/files/scripts/formula-fetch.sh:38-46 | the loop of the subshell, with its own copy of `FETCHED` |
| `MatrixBuild.ExpandIsProduct` | docker/tasks.py:76-103 | for axes listed once, nothing raises and the sequence of build calls is the product of the filtered values in lexicographic order: the call at each position is the combination with that i-th distribution, j-th salt and k-th formula revision, also when values are repeated |
| `MatrixBuild.EachCombinationOnce` | docker/tasks.py:76-103 | the calls are exactly the combinations, each once when values are distinct |
| `MatrixBuild.ListingOrderIsIrrelevant` | docker/tasks.py:79-101 | axes listed in another order give the same sequence of calls |
| `MatrixBuild.DistsFiltered` | docker/tasks.py:82-86 | the pairs tried are the listed ones that pass both prefixes |
| `MatrixBuild.PassingInOrder` | docker/tasks.py:82-99 | the values tried are those that pass the filter, in listing order and as often as listed |
| `MatrixBuild.ValuesTried` | docker/tasks.py:88-99 | for the salt and formula axes: the values of that axis with the prefix of its own filter, in order |
| `MatrixBuild.PairsInOrder` | docker/tasks.py:82-83 | every distribution contributes its releases in order, once each |
| `MatrixBuild.RaisesExactly` | docker/tasks.py:79-101 | an argument is passed twice, and then nothing is built at all, if and only if its axis is listed twice or already fixed and the expansion gets that far |
| `MatrixBuild.ExpandMatrix` | docker/tasks.py:76-103 | the recursion on a shrinking copy, raising when an argument is given twice |
| `MatrixBuild.BuildDists` | docker/tasks.py:79-87 | the nested loops over distributions and releases |
| `IpFilters.RangeSizeExactly` | mcp/scripts/pharos/config/utils/gen_config_lib.py:177-203 | defined exactly for two host addresses, and equal to end minus start plus 1 |
| `IpFilters.MaskIsInterval` | mcp/scripts/pharos/config/utils/gen_config_lib.py:143-155 | masking decides membership exactly as the interval does |
| `IpFilters.RangeIsInside` | mcp/scripts/pharos/config/utils/gen_config_lib.py:158-174 | a range accepted by its ends contains only addresses of the network |
| `IpFilters.HostEnds` | mcp/scripts/pharos/config/utils/gen_config_lib.py:104-127 | indices 1 and -2 are the first and the last host |
| `IpFilters.HostsExactly` | mcp/scripts/pharos/config/utils/gen_config_lib.py:190-191 | the hosts are the addresses strictly between network and broadcast address, in order |
| `IpFilters.NetworkExactly` | mcp/scripts/pharos/config/utils/gen_config_lib.py:80-86 | a network needs a prefix up to 32 and an address that is a multiple of its size |
| `IpFilters.AddrIndexAgrees` | mcp/scripts/pharos/config/utils/gen_config_lib.py:74-86 | with lines 208-214: the network filter has the indices from -size to size - 1, and where it has one the deprecated index filter agrees with it if and only if the index is not negative |
| `IpFilters.LastAddressDiffers` | mcp/scripts/pharos/config/utils/gen_config_lib.py:208-214 | index -1 is the broadcast address in the one and the address before the network, or none, in the other, for every network |
| `IpFilters.NetmaskExactly` | mcp/scripts/pharos/config/utils/gen_config_lib.py:218-224 | defined exactly for prefixes 8 to 32 |
| `NumaScenario.CellsCover` | mcp/config/scenario/os-nosdn-nofeature-noha.yaml.j2:45-49 | the cells cover exactly the CPUs 0 to vcpus - 1 |
| `NumaScenario.CellsDisjoint` | mcp/config/scenario/os-nosdn-nofeature-noha.yaml.j2:45-49 | no CPU is in two cells; all have the width of cores times threads |
| `NumaScenario.CellMemoriesAddUp` | mcp/config/scenario/os-nosdn-nofeature-noha.yaml.j2:48 | the rounded memories of the cells miss the total by at most half a unit per socket |
| `NumaScenario.HardwareAsDescribed` | mcp/config/scenario/os-nosdn-nofeature-noha.yaml.j2:31-38 | sockets, cores and memory as described but not below their minimum, each rounded to the nearest number |
| `NumaScenario.CellTexts` | mcp/config/scenario/os-nosdn-nofeature-noha.yaml.j2:45-49 | name, memory and first and last CPU of every cell as text |
| `NumaScenario.ComputeNodeArrives` | mcp/config/scenario/os-nosdn-nofeature-noha.yaml.j2:30-51 | with the serialisation, in whatever order the cells are iterated: the virtual machine is created with the vCPUs, topology and all cells of the scenario, each once, the last one iterated first |
| `GnocchiRule.Converges` | mcp/salt-formulas/salt-formula-gnocchi/_states/gnocchiv1.py:83-132 | a report of success at any point of a history means that the requested rule is stored then and after all later runs, which report no changes whenever they can read it; a run without failures is a success from any state |
| `GnocchiRule.StoredExactly` | mcp/salt-formulas/salt-formula-gnocchi/_states/gnocchiv1.py:95-132 | after any runs the requested rule is stored if and only if it was at the start or some run brought it in: readable, creation not refused, and nothing or a deleted other rule in its place |
| `GnocchiRule.OnlyWantedOrOld` | mcp/salt-formulas/salt-formula-gnocchi/_states/gnocchiv1.py:83-132 | over any runs the stored rule is the old one, none, or the requested one, and the requested one is never lost |
| `GnocchiRule.LosesRuleExactly` | mcp/salt-formulas/salt-formula-gnocchi/_states/gnocchiv1.py:117-127 | when a run loses a rule, which it then reports as a failed update |
| `GnocchiRule.ReportsExactly` | mcp/salt-formulas/salt-formula-gnocchi/_states/gnocchiv1.py:95-132 | every result is reported exactly when it should be |
| `GnocchiRule.LeavesExactly` | mcp/salt-formulas/salt-formula-gnocchi/_states/gnocchiv1.py:95-132 | what one run leaves stored, for every behaviour of the server |
| `GnocchiRule.RuleServer.RulePresent` | mcp/salt-formulas/salt-formula-gnocchi/_states/gnocchiv1.py:95-132 | the calls of one run with every point of failure |
| `PollingLoops.WaitForHttpCode` | mcp/salt-formulas/salt-formula-maas/_modules/maasng.py:1410-1439 | first expected answer or timeout, after at most 25 checks |
| `PollingLoops.WaitForImport` | mcp/salt-formulas/salt-formula-maas/_modules/maasng.py:1587-1603 | import seen finished or timeout, after at most 181 checks; the value returned is a fresh reading |

## Left out

- The conversion of errors that mention an existing object into successes at the end of `process`: the report is the one before it.
- Other MAAS objects (`Device`, `Subnet`, `DeployMachines`, `SSHPrefs`, `Domain`): their loops are the one modelled, or a fixed pair of calls.
- HTTP, OAuth, URLs, JSON and Salt: represented by the operations of the server classes.
- Test-mode branches, and the branches for unknown machines or machines not in status Ready in the storage states: they return without a call.
- Host names, MAC addresses and network data beyond the fields shown are not interpreted; names of interfaces are not required to differ on a machine.
- StorageTeardown.TeardownExactly: partitions on logical volumes are not modelled, and objects of one kind on a machine have distinct names, as the server guarantees.
- DiskPartitions.BlockDevice.CreatePartition: formatting and mounting are attributes of the partition and cannot fail on their own.
- The parsing of size texts into a number and a unit, and `filter_storage_size_num`, which multiplies them out.
- Choosing the virtual nodes of a section by the type of their hardware: the codec starts from the chosen nodes.
- VnodeCodec.RoundTrip, RepoCodec.RoundTrip: quoting of the generated assignment, line breaks inside values, and file-name expansion of words such as `[arch=amd64]`.
- FormulaFetch.FetchIsReachability: names are taken without characters special to a regular expression, each name has one source, and the files linked besides a formula are not modelled.
- The YAML, Jinja, MIME and `ipaddress` engines beyond the operations used; base64 and headers of form parts.
- IpFilters.RangeSizeExactly: prefixes 31 and 32, whose host lists differ between versions of the library.
- NumaScenario.CellMemoriesAddUp: rounding is exact, not that of binary floating point.
- RepeatedNames.SnapshotSufficesExactly: the only-if half is about a server that serves all calls; on one that loses calls a harmful repetition need not show, as when the first creation is refused.
- AssignRun.RunExactly: machines in other statuses and of the old schema do not take part; their addresses are among those reserved.
- WaitForStatus.SuccessExactly: for names given more than once only the direction of `WaitForStatus.SuccessWasSeen` is stated.
- WaitForStatus.WaitForMachineStatus: a poll time of zero, for which the loop has no bound.
- Virtual machine creation, image patching, git, docker and all other shell commands as such.
