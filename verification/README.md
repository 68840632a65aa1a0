# Desired-state reconcilers of the Hyper-V agent

The agent brings a Hyper-V host to a declared state. It decides in Go, prints a
PowerShell script, and the script reads the host and changes it step by step. This
project models both halves together and proves what whole passes, and runs of passes
with crashes, restarts and outages between them, keep and reach.

Each component is a set of specification functions over a value state, a class or an
array whose methods do what the Go code and the scripts do and are proved equal to
those functions, and lemmas about the functions over one call, over pairs of calls and
over runs. What a call leaves and reports is told a second time without those functions,
in the host's own fields and the call's own arguments. What the outside world may do is an explicit argument: whether a query is
answered, before which command a script is cut, what an array or a cluster offers,
what the cluster does between two readings, what a silent listing leaves out.

| module | component |
|---|---|
| Text, Ordering | case folding, trimming, decimal numbers, `sort.Strings` |
| Literals, SwitchMap | the printers every script rests on, and their PowerShell reader |
| StringSets, VirtualSwitch | SET switches: compare, plan, create, update |
| VnicHost, VnicReconcile, VnicScripts, VnicRuns, VnicDeclared | management vNICs: observe, plan, apply, alone and batched; what as declared means |
| VnicCluster | the cluster's own addresses under the vNIC reconcile |
| SwitchAndVnics | the switch and the vNIC reconcile of one host, pass after pass |
| VnicPrune | pruning stray vNICs, resolving a vNIC's adapter |
| Adoption, AdoptionRuns, AdoptionSuccess, AdoptionOutcomes | taking a LUN into the cluster |
| CopyVm, CopyOutcomes, LiveMove, LiveMoveRuns, LiveMoveJoins | moving a VM by copy and live |
| Iscsi, IscsiRuns, IscsiOutcomes, IscsiPrune | sessions and multipath, pruning portals and logins |
| Fetch | the resumable download |
| CsvMount, CsvMountRuns | mount points of cluster shared volumes |
| Maintenance | pausing and resuming a cluster node while the cluster acts on its own |
| Mtu, Integration | the MTU and integration-services planners, the second through its script text |

## What the commands are taken to do

- Hyper-V, clusters and drivers are the contracts written in `VnicHost.Step`,
  `VirtualSwitch`, `Adoption`, `Iscsi.Connected` and their neighbours: a command acts on
  what it names or throws, and a throw ends the script.
- A query that throws without an answer ends its script. One that is asked silently shows
  nothing instead, and whether it is answered is an input wherever a decision hangs on it:
  `Adoption.Reads` and `Adoption.Env` for disks, volumes and the cluster, `CopyVm.Listing`,
  `LiveMove.Env`, `CsvMount.Meet`, `IscsiPrune.Env`, `Iscsi.Env`, `Maintenance.Env`,
  `VirtualSwitch.Answer`, `VnicReconcile.Faults`, `VnicRuns.Parts` and `VnicPrune.Env`. The
  exceptions are named under Left out.
- An export refuses a folder that is there, and an import needs a whole one; a new
  partition takes a disk that has none.
- A disk without a partition table Windows knows loses what it holds when it is given one.
- The cluster offers no disk it holds, and gives what joins it a name not in use.
- Taking a switch away from the host removes every management vNIC on it; giving it to the
  host adds one of the switch's name where there is none.
- A virtual NIC that is removed and added again comes back with no VLAN, no team pin, no
  RDMA and the interface Windows gives a new one.
- A target refuses a second session that does not declare itself multipath.
- A host restart restores the persistent logins of portals that answer, and loads the
  MPIO driver if the feature is installed.
- A dropped connection loses no bytes already delivered, and a read of zero bytes is the
  end of the body.

## Where a promise needs a condition

Each of these is a lemma with the condition and, beside it, the case where it fails.

- A vNIC whose declared switch differs from the host's only in case is updated on every
  pass (`VnicRuns.CaseMismatchNeverSettles`); an address that is not canonical, is link
  local or is the cluster's is applied on every pass (`VnicScripts.IpSettlesExactlyWhen`);
  a switch without a declared algorithm, or with a member spelled in another case, is
  rewritten on every pass (`VirtualSwitch.SettlesExactlyWhen`).
- Pruning removes a vNIC by name, so a stray takes its namesake on another switch with it,
  address and all (`VnicPrune.NamesakeGoesToo`, `NamesakeExample`); and a look for an
  address that goes unanswered shows none (`PrunesStraysOnly`, `UnreadExample`).
- Putting a vNIC's address right takes the cluster's addresses off its interface that the
  script's own listing does not show, and one of the cluster's that is declared off every
  other interface (`VnicCluster.ApplyKeepsClusterExactlyWhen`,
  `UnlistedClusterAddressGoes`); without either, and unless its vNIC is moved, an
  interface keeps them over every run (`ClusterAddressesStay`).
- A switch that is not to serve the host and has a declared vNIC on it never settles: each
  pass of one reconcile undoes the other (`SwitchAndVnics.EveryPassUndoes`). A switch or a
  vNIC as declared is written to again when part of its query goes unanswered
  (`VirtualSwitch.PartialAnswerWritesExactlyWhen`,
  `VnicRuns.PartialAnswerWritesExactlyWhen`).
- Adoption without Wipe overwrites what a disk holds that has no partition table, which
  nothing looks for; and a first partition that holds something, exactly when the disk is
  not refused and the look just before the format finds no filesystem on it: one that
  cannot be read beside a partition of the volume's name, or any that is not answered for
  (`AdoptionRuns.ContentsSurviveExactlyWhen`, `RunsKeepContentsExactlyWhen`,
  `UnpartitionedExample`, `ExposedExample`, `UnansweredLookFormats`). The comment at
  `agent/hyperv/powershell_iscsiadopt.go:216-219` promises that a LUN with contents is
  refused. A disk the cluster holds is left alone only if the cluster lists it:
  unanswered, a run with Wipe formats it (`WipeSparesExactlyWhen`,
  `UnansweredClusterWipes`). A run cut between New-Partition and Format-Volume is refused
  for ever (`SticksExactlyWhen`, `StuckStays`).
- The disk of another serial than the declared one is located when no listed disk has that
  and the target presents one (`Adoption.LocatesAnotherExactlyWhen`, `AnotherLunExample`).
- An adoption is reported that is not there: a namesake is shared in the disk's place
  (`AdoptionRuns.NamesakeSharedInstead`, `ForeignShareReported`), another disk joins by
  number or size (`JoinsOwnExactlyWhen`) or is taken for new
  (`UnlistedBeforeTakesAnother`), a state that cannot be read back passes for online
  (`UnreadStartPasses`). Exactly when a reported success is the adoption asked for, in
  terms of what the run is given, is `AdoptionSuccess.SuccessMeansDoneExactlyWhen`. A
  witness cut off before its rename keeps the cluster's name (`HeldWitnessKeepsName`).
- Clearing a leftover export is a check and a removal. It takes the files of a registered
  VM exactly when the check was blind - Hyper-V did not answer it, or the VM uses the
  folder through a parent of its disks alone - or an import came between the two
  (`CopyVm.FilesKeptExactlyWhen`, `BlindExactlyWhen`, `SplitClearSafeExactlyWhen`,
  `UnansweredClearExample`, `ParentGoesExample`). The temporary share is up exactly when
  it was made and neither a clean-up nor a restart has taken it down since
  (`ShareUpExactlyWhen`).
- A vNIC that is moved to another switch comes back with the defaults wherever it was seen
  to agree, so one pass may not leave it as declared; two do, and one does every other
  (`VnicDeclared.MoveComesBack`, `PassDeclares`, `PassesDeclare`).
- A failed live move restores every adapter exactly when each is found again as itself and
  its VLAN was read. A move that only said it happened is reported as done when the
  still-here test goes unanswered (`LiveMoveRuns.SuccessMeansGoneExactlyWhen`,
  `UnseenPhantomExample`); it and a disconnect that throws leave adapters off for good
  (`PhantomLeavesOff`, `ThrownDisconnectLeavesOff`, `LeftOffForGood`). After a real move
  an adapter is known by a MAC it is the first to have; without one it is known only if
  all targets are the same and none that arrives disconnected without a target stands
  before it (`MovedLandsExactlyWhen`, `NoMacExample`). If the destination lacks the target
  of one that is found there the move fails with the VM there, those before it joined and
  it and the rest off (`LiveMoveJoins.MovedSucceedsExactlyWhen`, `ToldSucceedExactlyWhen`,
  `MissingTargetExample`). The role comes back only if the
  guard sees the VM, and then even to a VM that never had one (`RoleAfterFailure`).
- Multipath reads as in effect as soon as the claim is set on a host whose driver runs,
  before the restart that makes it so, and the next pass opens a second path that nothing
  coalesces (`IscsiRuns.PassStaysHonestExactlyWhen`, `ClaimUnderDriverOpensPaths`); in a
  run that never does so none is ever opened (`NeverTwoUncoalesced`). A blank first portal
  lifts the restriction to one path (`BlankPortalUnrestricted`).
- Pruning spares the portals and logins of the sessions it is shown; with the listing
  unanswered it removes those in use (`IscsiPrune.PortalGoesExactlyWhen`,
  `LoginGoesExactlyWhen`, `UnansweredPruneTakesAll`). With nothing but blank targets
  declared every login counts as undeclared (`BlankTargetsNameNothing`); a bracketed
  portal is read as two different hosts by the reconcile and by the prune
  (`BracketsDiffer`).
- A resume is counted before the file is opened, so the count can exceed the attempts that
  appended (`Fetch.ResumedExactlyWhen`, `CountedUnopened`). A body that arrived without
  its end fails the download with the whole body on disk (`CompleteWithoutEndFails`, RFC
  9110 section 15.5.17); a part's offset is not looked at (`UncheckedOffset`, section
  15.3.7).
- A mount directory is renamed under running VMs exactly when they are another node's, are
  not listed, or have brackets in their path (`CsvMountRuns.MovedUnderVmsExactlyWhen`,
  `OthersNeverLookedAt`, `UnderAVmExample`, `BracketHidesVm`); the comment at
  `agent/hyperv/powershell_csvmount.go:160-161` promises that it never is. A reading of a
  volume gone offline can rename the one that took its directory
  (`RenamesItsOwnExactlyWhen`, `StaleReadingHitsAnother`); a node takes the volumes of a
  member whose name begins with its own for its own (`OwnsItExactlyWhen`).
- A storage flag is cleared on a paused node exactly when the cluster paused it after the
  script's last reading of it (`Maintenance.ClearMeetsPausedExactlyWhen`,
  `ClearMeetsPausedExample`).
- A range driver is refused although a larger value of its range would do
  (`Mtu.NumericExactlyWhen`); an adapter named twice in a team is written twice
  (`NamedTwiceWrittenTwice`).

The comment at `agent/hyperv/powershell_networking.go:1144-1153` promises that a kept vNIC
is never removed and the last management vNIC of a switch is never removed; both hold of
every host (`VnicPrune.KeptStay`, `SwitchKeepsManagement`). Its third promise, about vNICs
with an address, holds under unique names, canonical aliases and looks that are answered
only (`PrunesStraysOnly`).

## Model

| member | source | states |
|---|---|---|
| Literals.LiteralRoundTrip | agent/hyperv/powershell.go:400-402 | reading a printed literal gives back the text and what follows, exactly when what follows does not open with a quote |
| Literals.QuoteInjective | agent/hyperv/powershell.go:400-402 | two texts that print alike are the same |
| Literals.PsStringList | agent/hyperv/powershell_networking.go:1270-1276 | prints each item quoted, separated by commas |
| Literals.ListRoundTrip | agent/hyperv/powershell_networking.go:1267-1276 | a printed list reads back item for item |
| Literals.TableRoundTrip | agent/hyperv/movecompat.go:166-180 | a printed hash table reads back row for row, strings and numbers |
| Literals.PsStringMap | agent/hyperv/powershell_csvmount.go:247-262 | prints the table of some walk of the whole map, in whatever order the map yields its keys |
| Literals.StringMapReadsBack | agent/hyperv/powershell_csvmount.go:243-262 | in any order the table reads back as the map, exactly when no two keys differ in case alone |
| SwitchMap.LastWinsMeaning | agent/hyperv/movecompat.go:151-156 | a switch is mapped exactly when a non-blank entry names it, and then by the last one |
| SwitchMap.PsSwitchMap | agent/hyperv/movecompat.go:150-180 | prints two tables of the last-wins mapping with strictly increasing keys |
| SwitchMap.SwitchMapReadsBack | agent/hyperv/movecompat.go:141-180 | the two tables read back as every mapped source with its target and VLAN and nothing else, exactly when no two sources differ in case alone |
| SwitchMap.SwitchMapStable | agent/hyperv/movecompat.go:161-163 | the text depends on the mapping alone, not on the order it was walked in |
| SwitchMap.RowsAgree | agent/hyperv/movecompat.go:68-77 | looking a switch up in any case finds the last-wins row of the source it names |
| StringSets.Dedup | agent/hyperv/powershell_networking.go:1315-1325 | compacts in place: the kept elements in front, the storage behind them untouched |
| StringSets.CompactOfSorted | agent/hyperv/powershell_networking.go:1315-1325 | compacting a sorted list leaves the strictly increasing listing of its elements |
| StringSets.SameStringSet | agent/hyperv/powershell_networking.go:1295-1313 | true exactly when the two lists have the same elements, order and repetition aside |
| VirtualSwitch.PlanSwitch | agent/hyperv/powershell_networking.go:73-83 | create exactly when absent; nothing exactly when team, algorithm and management flag match |
| VirtualSwitch.Host.RunCreate | agent/hyperv/powershell_networking.go:299-313 | the switch and its management vNICs after the create script, cut before any of its commands |
| VirtualSwitch.Host.RunUpdate | agent/hyperv/powershell_networking.go:315-331 | the switch and its management vNICs after the update script, cut before any of its commands |
| VirtualSwitch.Host.EnsureSwitch | agent/hyperv/powershell_networking.go:127-152 | host, outcome and error of a pass, for a query answered whole, in part - any of the team's members missing from it - or not at all, and every cut |
| VirtualSwitch.UnknownIsNeverAbsent | agent/hyperv/powershell_networking.go:85-136 | an unanswered query writes nothing; a switch that exists is never created; an answered absence still is; no other switch is touched |
| VirtualSwitch.RunsKeepSwitches | agent/hyperv/powershell_networking.go:85-152 | over any run of calls no switch disappears and those no call names are as they were |
| VirtualSwitch.PartialAnswerWritesExactlyWhen | agent/hyperv/powershell_networking.go:85-112 | a switch as declared is rewritten exactly when the unanswered part of its query was declared, one member of the team among them, and otherwise left as it is |
| VirtualSwitch.SettlesExactlyWhen | agent/hyperv/powershell_networking.go:60-83 | after a pass that acted the next changes nothing if and only if an algorithm is declared and the members are spelled as the host spells them |
| VirtualSwitch.LeftAloneExactlyWhen | agent/hyperv/powershell_networking.go:60-83 | a call that sees everything leaves the switch alone, unchanged and without error, if and only if it has the declared members in any order, the declared algorithm as the host spells it, and serves the host as declared |
| VirtualSwitch.ActsExactly | agent/hyperv/powershell_networking.go:127-152 | the switch after a call that acts, cut anywhere: member by member the adapter of the declared name, the algorithm if the script got that far, whether it serves the host last; and the report says whether the script ran to its end |
| SwitchAndVnics.EveryPassUndoes | agent/hyperv/powershell_networking.go:60-112 | with a declared vNIC on a switch not to serve the host, every joint pass updates the switch and makes the vNIC again |
| VnicHost.Machine.Do | agent/hyperv/powershell_networking.go:800-1093 | one command of the scripts against vNICs, interfaces and leftover address claims |
| VnicHost.Machine.Run | agent/hyperv/powershell_networking.go:800-1093 | a script cut before any of its commands, or ended by one that throws |
| VnicHost.FreeingCommutes | agent/hyperv/powershell_networking.go:811-822 | taking an address off an interface commutes with reading its candidates |
| VnicReconcile.ReconcileVnicIp | agent/hyperv/powershell_networking.go:596-620 | the IPv4 half: refuse a malformed address, read or reuse a reading, apply only a difference, each by its own listing of the cluster's addresses |
| VnicReconcile.EnsureMgmtVnicFrom | agent/hyperv/powershell_networking.go:533-590 | decide and apply from observations already made |
| VnicReconcile.EnsureMgmtVnic | agent/hyperv/powershell_networking.go:461-467 | the same from its own query |
| VnicReconcile.QueryVnicsBatch | agent/hyperv/powershell_networking.go:630-745 | every declared name gets the observation the host would give it alone, from one listing of the cluster's addresses, any of them hidden; a name missing from an answered batch is known to be absent |
| VnicReconcile.EnsureMgmtVnics | agent/hyperv/powershell_networking.go:487-528 | the whole pass: batched, one at a time when the batch breaks, deferred when Hyper-V does not answer |
| VnicScripts.EnsuredTouches | agent/hyperv/powershell_networking.go:533-620 | reconciling one vNIC, whatever was observed and wherever cut, touches that vNIC, its interface and the declared address where others hold it |
| VnicScripts.CreateRuns | agent/hyperv/powershell_networking.go:967-977 | a whole create script leaves the vNIC on its switch with nothing left to plan |
| VnicScripts.UpdateInPlace | agent/hyperv/powershell_networking.go:991-1039 | a whole update of a vNIC on its switch repairs it without touching an interface |
| VnicScripts.UpdateMoves | agent/hyperv/powershell_networking.go:991-1039 | a moved vNIC comes back with the defaults wherever the earlier reading already agreed |
| VnicScripts.IpSettlesExactlyWhen | agent/hyperv/powershell_networking.go:783-955 | after a whole apply, whatever its listing of the cluster's addresses hides, the observation agrees if and only if the address is canonical, routable and not the cluster's |
| VnicRuns.OthersKeep | agent/hyperv/powershell_networking.go:811-822 | reconciling one vNIC leaves a differently named, differently addressed one observed, placed and settled as it was |
| VnicRuns.SettledIsQuiet | agent/hyperv/powershell_networking.go:379-415 | a settled vNIC costs no script and changes nothing; what is left to report is refused RDMA |
| VnicRuns.PartialAnswerWritesExactlyWhen | agent/hyperv/powershell_networking.go:664-768 | a settled vNIC is never created again, and written to exactly when the unanswered VLAN, pin, address, route or DNS was declared or a hidden address of the cluster stands before the declared one |
| VnicRuns.PassProgress | agent/hyperv/powershell_networking.go:487-590 | a pass places every vNIC, settles those it did not move, creates exactly the absent ones and reports the right result for each |
| VnicRuns.Converges | agent/hyperv/powershell_networking.go:379-590 | two passes settle every vNIC - as declared, by VnicDeclared.SettledMeans - the second working only for those the first moved; every later pass issues nothing and changes nothing |
| VnicRuns.CaseMismatchNeverSettles | agent/hyperv/powershell_networking.go:379-400 | a switch spelled in another case is planned as an update for ever |
| VnicRuns.StaleReadingIsEnough | agent/hyperv/powershell_networking.go:559-577 | deciding from the batch's stale address reading is deciding from a fresh one |
| VnicRuns.BatchRefinesOneByOne | agent/hyperv/powershell_networking.go:487-577 | deciding all vNICs from one observation leaves the host and the results of observing each just before acting |
| VnicRuns.ActsOnWhatItSaw | agent/hyperv/powershell_networking.go:533-551 | acting on what was observed doubles nothing; acting on no observation does nothing |
| VnicRuns.UnknownIsNeverAbsent | agent/hyperv/powershell_networking.go:497-551 | in every run with outages, cuts and stops anywhere no existing vNIC is created again |
| VnicRuns.UnansweredWritesNothing | agent/hyperv/powershell_networking.go:497-516 | an unanswered batch writes nothing and reports every vNIC unobserved |
| VnicRuns.CollidingNamesDouble | agent/hyperv/powershell_networking.go:497-528 | two names differing in case alone are doubled by the batch and not by the one-at-a-time path |
| VnicRuns.FaultsStayLocal | agent/hyperv/powershell_networking.go:517-528 | what goes wrong with other vNICs changes neither the result of this one, nor it and its interface, nor whether the interface holds its own declared address |
| VnicRuns.FaultsLeaveSettled | agent/hyperv/powershell_networking.go:517-620 | and with distinct addresses and at most one readable, the address is shown as declared in both passes or in neither |
| VnicRuns.MoveNeverStrands | agent/hyperv/powershell_networking.go:1011-1023 | a move to a switch the host lacks removes nothing |
| VnicDeclared.SettledMeans | agent/hyperv/powershell_networking.go:379-415 | a vNIC is settled, which is that nothing is planned for it, if and only if it is there on the declared switch with the declared VLAN, pin, RDMA where the switch offers it, gateway, DNS and registration, and its first readable address is the declared one |
| VnicDeclared.PassDeclares | agent/hyperv/powershell_networking.go:487-590 | whichever way a pass observes, every vNIC ends on its switch with its address, and as declared altogether unless the pass moved it |
| VnicDeclared.PassesDeclare | agent/hyperv/powershell_networking.go:379-590 | after two passes, batched or one at a time, every vNIC is as declared |
| VnicDeclared.MoveComesBack | agent/hyperv/powershell_networking.go:991-1039 | VLAN, pin and RDMA of a vNIC that was moved: what was seen to differ is set, what was seen to agree is back at its default |
| VnicDeclared.ReconcileReports | agent/hyperv/powershell_networking.go:533-590 | a reconcile issues no script if and only if the vNIC was as declared, and then changes nothing; created, updated, unchanged and refused are reported exactly as they are, unless a failed script is |
| VnicDeclared.CutIsReported | agent/hyperv/powershell_networking.go:533-620 | a script that is cut, wherever, is reported as failed |
| VnicDeclared.SuccessMeansDeclared | agent/hyperv/powershell_networking.go:533-620 | a reconcile that reports no failure, wherever its scripts might have been cut, leaves the vNIC as declared or, if it moved it, on its switch with its address |
| VnicDeclared.PassReports | agent/hyperv/powershell_networking.go:487-590 | a pass reports every vNIC rightly and works on exactly those that were not as declared |
| VnicDeclared.UnreadAddressNotApplied | agent/hyperv/powershell_networking.go:596-620 | a malformed or unread address is reported and not applied, and what the adapter half changed is reported too |
| VnicDeclared.ApplyLeavesExactly | agent/hyperv/powershell_networking.go:783-955 | after a whole apply the interface holds the declared address and, of what was there, exactly what is neither manual nor leased or is listed as the cluster's; the address is off every other interface and off devices no longer present, and nothing else is |
| VnicCluster.ApplyKeepsClusterExactlyWhen | agent/hyperv/powershell_networking.go:806-824 | a whole apply leaves every cluster address on its interface if and only if the declared one is not the cluster's on another interface and its own listing hides none of this one's, but for those neither manual nor leased |
| VnicCluster.UnlistedClusterAddressGoes | agent/hyperv/powershell_networking.go:816-824 | unanswered, the cluster's live address is removed |
| VnicCluster.ClusterAddressesStay | agent/hyperv/powershell_networking.go:487-620 | over every run an interface keeps every address of the cluster, if no pass relocates its vNIC, none is declared and no apply's listing hides one |
| VnicPrune.Machine.PruneManagementVnics | agent/hyperv/powershell_networking.go:1154-1173 | the vNICs left and the names reported, for every removal that may fail and every look that may go unanswered; unchanged exactly when nothing was removed |
| VnicPrune.SurvivesExactlyWhen | agent/hyperv/powershell_networking.go:1161-1173 | a vNIC is gone if and only if some stray of its name whose removal goes through was not answered for, or the name's alias shows no routable address |
| VnicPrune.ReportTells | agent/hyperv/powershell_networking.go:1154-1173 | of every vNIC that is gone a namesake is reported, of every name reported nothing is left, and nothing is reported exactly when nothing is gone |
| VnicPrune.KeptStay | agent/hyperv/powershell_networking.go:1144-1166 | a kept vNIC is never removed, on any host |
| VnicPrune.SwitchKeepsManagement | agent/hyperv/powershell_networking.go:1144-1168 | every switch that had a kept vNIC still has one |
| VnicPrune.PrunesStraysOnly | agent/hyperv/powershell_networking.go:1163-1173 | with unique names and canonical aliases exactly the strays whose look shows no address go: one that holds an address if and only if its look goes unanswered |
| VnicPrune.NamesakeGoesToo | agent/hyperv/powershell_networking.go:1172 | a stray's namesake goes with it unless the alias built from the name shows an address at every look for a stray of the name |
| VnicPrune.NamesakeExample | agent/hyperv/powershell_networking.go:1172 | a host on which that removes a vNIC holding a routable address |
| VnicPrune.UnreadExample | agent/hyperv/powershell_networking.go:1170-1172 | unique names, canonical aliases, and the vNIC that holds the cluster's address removed |
| VnicPrune.ResolveAlias | agent/hyperv/powershell_networking.go:693-710 | candidates come from the name alone; of several the first with the MAC, else the first that is connected, else the first |
| VnicPrune.CanonicalResolves | agent/hyperv/powershell_networking.go:1349-1377 | with no leftover device beside it the canonical alias is resolved whatever MACs the host has |
| Adoption.Locate | agent/hyperv/powershell_iscsiadopt.go:111-144 | the first listed disk of the serial; else the target's one disk; several are refused |
| Adoption.LocatesAnotherExactlyWhen | agent/hyperv/powershell_iscsiadopt.go:111-144 | the located disk has another serial than the declared exactly when no listed disk has that and the target's one disk has not |
| Adoption.AnotherLunExample | agent/hyperv/powershell_iscsiadopt.go:113-126 | unlisted, the declared LUN is passed over for another |
| AdoptionOutcomes.LocatesExactlyWhen | agent/hyperv/powershell_iscsiadopt.go:111-144 | the located disk is the first listed of the declared serial or, with none, the only one the declared target presents; more than one is never chosen from |
| Adoption.Lun.Prepare | agent/hyperv/powershell_iscsiadopt.go:199-299 | online, judge, writable, clear, initialise, partition, format - each only if due by what the two looks at the disk show, stopped anywhere |
| Adoption.Lun.Join | agent/hyperv/powershell_iscsiadopt.go:301-361 | the offered disk by identity, number or unambiguous size, and the resource taken for new from the names listed before and after |
| Adoption.Lun.EnsureResourceOnline | agent/hyperv/powershell_iscsiadopt.go:79-109 | starts a resource that is not online and says whether it had to |
| Adoption.Lun.Finish | agent/hyperv/powershell_iscsiadopt.go:363-391 | names, shares and starts the resource, going on with whatever carries the name |
| Adoption.Lun.Adopt | agent/hyperv/powershell_iscsiadopt.go:161-393 | the whole procedure with its early returns, by what the cluster lists, answered or not |
| Adoption.AdoptWithContents | agent/hyperv/powershell_iscsiadopt.go:514-519 | neither or both of keep and wipe is refused and changes nothing |
| AdoptionRuns.DiskAfter | agent/hyperv/powershell_iscsiadopt.go:174-299 | a run writes to the disk only by preparing it, and prepares it only if it sees it neither held nor shared |
| AdoptionRuns.ContentsSurviveExactlyWhen | agent/hyperv/powershell_iscsiadopt.go:220-299 | a run without Wipe preserves everything on the disk, with or without a partition table, if and only if the disk is not exposed, or the run does not prepare it, or is stopped before the first command that overwrites |
| AdoptionRuns.ExposedWhenAnswered | agent/hyperv/powershell_iscsiadopt.go:220-298 | with everything answered a disk is exposed exactly when it holds something without a partition table, or its first partition is unreadable and another carries the volume's name |
| AdoptionRuns.SinglePartitionSurvives | agent/hyperv/powershell_iscsiadopt.go:220-299 | a disk with at most one partition, seen when judged and read again, loses something exactly if it holds it without a partition table |
| AdoptionRuns.UnansweredLookFormats | agent/hyperv/powershell_iscsiadopt.go:229-298 | the only partition, judged the volume's own and then not answered for, is formatted without Wipe |
| AdoptionRuns.ExposedExample | agent/hyperv/powershell_iscsiadopt.go:224-298 | a disk with two partitions whose contents do not |
| AdoptionRuns.UnpartitionedExample | agent/hyperv/powershell_iscsiadopt.go:228-298 | a disk that holds something without a partition table is formatted without Wipe, under Keep too |
| AdoptionRuns.PreparesExactlyWhen | agent/hyperv/powershell_iscsiadopt.go:161-198 | a run prepares the disk exactly when the cluster lists neither a resource that holds it nor, unless for a witness, a shared volume of the name |
| AdoptionRuns.WipeSparesExactlyWhen | agent/hyperv/powershell_iscsiadopt.go:161-299 | a disk to be wiped is left alone if and only if the cluster lists a resource that holds it or a shared volume of the name |
| AdoptionRuns.UnansweredClusterWipes | agent/hyperv/powershell_iscsiadopt.go:166-298 | a disk held by a resource that is online is formatted with Wipe when the cluster does not answer |
| AdoptionRuns.ClusteredDiskUntouched | agent/hyperv/powershell_iscsiadopt.go:194-299 | no run touches a disk the cluster lists as held; with every resource listed that is every disk it holds |
| AdoptionRuns.RefusalAltersNothing | agent/hyperv/powershell_iscsiadopt.go:206-269 | a refusal alters nothing but the offline flag |
| AdoptionOutcomes.PreparesRightly | agent/hyperv/powershell_iscsiadopt.go:199-299 | a run with commands enough prepares the disk if and only if its contents are not judged against it and it needs no partition beside those it has; and the disk is then online, writable, with what is neither cleared nor formatted as it was, and else one volume of the name |
| AdoptionRuns.RunKeepsReady | agent/hyperv/powershell_iscsiadopt.go:161-393 | a run stopped anywhere leaves the adoption resumable, or the disk partitioned and unformatted |
| AdoptionRuns.GoodRunAdopts | agent/hyperv/powershell_iscsiadopt.go:161-393 | a run with nothing in its way ends with the LUN named, shared and online |
| AdoptionRuns.AdoptedStaysExactlyWhen | agent/hyperv/powershell_iscsiadopt.go:161-192 | whatever else the next run meets, an adopted LUN is left and reported unchanged if and only if the one listing that shows the adoption is answered |
| AdoptionRuns.SticksExactlyWhen | agent/hyperv/powershell_iscsiadopt.go:284-298 | a run leaves the adoption stuck if and only if without Wipe, on a disk without partitions, it stops right between New-Partition and Format-Volume |
| AdoptionRuns.StuckStays | agent/hyperv/powershell_iscsiadopt.go:248-269 | a stuck disk is refused by every run |
| AdoptionRuns.RunsKeepContentsExactlyWhen | agent/hyperv/powershell_iscsiadopt.go:161-299 | over any number of runs without Wipe, whatever is answered, everything on the disk is still there if and only if no run met it exposed and got as far as overwriting it |
| AdoptionRuns.RunsKeepContents | agent/hyperv/powershell_iscsiadopt.go:161-299 | with every look answered runs without Wipe, stopped anywhere, lose nothing on a disk that was not exposed |
| AdoptionRuns.Resumes | agent/hyperv/powershell_iscsiadopt.go:161-393 | after any number of stopped runs one good run adopts, and the next reports unchanged exactly when told of it |
| AdoptionRuns.NamesakeSharedInstead | agent/hyperv/powershell_iscsiadopt.go:363-388 | another resource of the name is shared, started and reported in the disk's place |
| AdoptionRuns.ForeignShareReported | agent/hyperv/powershell_iscsiadopt.go:174-187 | another disk's online shared volume of the name is reported as this one adopted |
| AdoptionRuns.JoinsOwnExactlyWhen | agent/hyperv/powershell_iscsiadopt.go:307-322 | what joins is the disk if and only if the cluster offers it by identity |
| AdoptionOutcomes.ChoosesRightful | agent/hyperv/powershell_iscsiadopt.go:307-322 | what joins is every accepted offer of the disk's identity; with none, every one of its number; with none of either, the only one of its size; and nothing else |
| AdoptionOutcomes.RunAddsRightful | agent/hyperv/powershell_iscsiadopt.go:161-393 | a whole run leaves every resource there was and adds exactly those, if it prepares the disk and gets through that; with no such offer nothing joins and it fails |
| AdoptionOutcomes.AddedByRight | agent/hyperv/powershell_iscsiadopt.go:307-322 | every resource a run adds comes from an accepted offer of the identity, or of the number where none has the identity, or of a size that is not 0 and no other offer's where none has either |
| AdoptionOutcomes.SameSizeTwice | agent/hyperv/powershell_iscsiadopt.go:316-320 | of two offers of the disk's size and neither its identity nor its number, none joins and the run fails |
| AdoptionOutcomes.GoesOnWithNew | agent/hyperv/powershell_iscsiadopt.go:323-361 | after the joining the run goes on with the first resource listed under the name of the first that is new, and not at all if none is |
| AdoptionRuns.UnlistedBeforeTakesAnother | agent/hyperv/powershell_iscsiadopt.go:304-373 | with the names before the joining unlisted, another disk's resource is taken for the new one, renamed, shared and reported |
| AdoptionRuns.HeldWitnessKeepsName | agent/hyperv/powershell_iscsiadopt.go:188-192 | a held witness is never renamed |
| AdoptionRuns.UnreadStartPasses | agent/hyperv/powershell_iscsiadopt.go:102-109 | a state that cannot be read back after the start passes for online |
| AdoptionOutcomes.UnchangedExactlyWhen | agent/hyperv/powershell_iscsiadopt.go:161-192 | a run reports unchanged if and only if the first listed share of the name, or for a witness the first resource seen to hold the disk, is online; and then nothing has changed |
| AdoptionOutcomes.SuccessIsOnline | agent/hyperv/powershell_iscsiadopt.go:79-109 | a run that reports no failure ends on a resource that is online, and shared unless a witness, or whose state could not be read back |
| AdoptionOutcomes.UnnamedIsShared | agent/hyperv/powershell_iscsiadopt.go:363-388 | a rename that fails is passed over: the disk's resource is shared and started under the name it has |
| AdoptionSuccess.SuccessMeansDoneExactlyWhen | agent/hyperv/powershell_iscsiadopt.go:161-393 | a reported success is the declared adoption if and only if it was there already, or no namesake is in the way, the disk is held and found or offered by identity and found, and its resource comes and has or gets the name |
| CopyVm.ImportPathIsLocal | agent/hyperv/copyvm.go:229-246 | the configuration's path hung off the destination's own is a file in the VM's folder |
| CopyVm.Hosts.Copy | agent/hyperv/copyvm.go:36-265 | one attempt, command by command: reach, share, then the try and its finally, each command taking effect or not, throwing or being killed |
| CopyVm.Hosts.ExportImportRemove | agent/hyperv/copyvm.go:105-257 | what stands inside the try |
| CopyVm.Hosts.ClearVmExport | agent/hyperv/copyvm.go:314-372 | removes the folder unless it is absent or a path of a listed VM begins with its name; an unanswered listing lists none |
| CopyVm.StepsAreTheAttempt | agent/hyperv/copyvm.go:36-265 | the commands of an attempt with nothing between them are the attempt as a whole |
| CopyVm.NeverUnregistered | agent/hyperv/copyvm.go:105-351 | in every interleaving of attempts, clearings, restarts and retries, killed or failing at any command, the VM is registered on one of the hosts |
| CopyVm.BlindExactlyWhen | agent/hyperv/copyvm.go:335-345 | with everything answered the check is blind only to VMs that use the folder through a parent disk alone; of a VM whose own path is there it is blind exactly when unanswered |
| CopyOutcomes.StepsAreTheClearing | agent/hyperv/copyvm.go:314-372 | a check and a removal with nothing between are the clearing as a whole; without a check that passed nothing is removed |
| CopyOutcomes.ClearsExactlyWhen | agent/hyperv/copyvm.go:335-351 | a clearing removes the folder if and only if it is there and no path of a VM that is listed, nor of a disk that is answered for, begins with its name; nothing else changes |
| CopyVm.RemovalLosesExactlyWhen | agent/hyperv/copyvm.go:335-351 | a removal takes the files of a registered VM exactly when its check was blind or an import came after it |
| CopyVm.FilesKeptExactlyWhen | agent/hyperv/copyvm.go:105-351 | over every interleaving the files of every VM registered on the folder are there throughout if and only if no removal was such |
| CopyVm.SourceGoesLast | agent/hyperv/copyvm.go:249-257 | source and role go only after a confirmed import of an export written in the same attempt, which then stand on the destination; success is never reported with the source there |
| CopyOutcomes.AttemptLeaves | agent/hyperv/copyvm.go:36-265 | exactly when an attempt reports success, and each part of both hosts after it - VM, role, folder, registrations, share - for every way its commands take effect, throw or are killed |
| CopyOutcomes.RoleGoesWithTheSource | agent/hyperv/copyvm.go:249-257 | after a success the role is there exactly when it was and the source was not clustered or the removal of the role did not take; where that removal throws or is killed the source VM is still there |
| CopyVm.LeftoverNeverOverwritten | agent/hyperv/copyvm.go:107-124 | with anything in the folder, seen or not, an attempt exports and imports nothing and leaves the source as it is |
| CopyVm.ClearedThenCopied | agent/hyperv/copyvm.go:107-351 | one clearing and one attempt finish the move exactly when nothing listed stands in the way and the guest is there and off |
| CopyVm.ShareUpExactlyWhen | agent/hyperv/copyvm.go:78-105 | over every interleaving the share is up exactly when it was made and no clean-up and no restart has taken it down since |
| CopyVm.ShareOnlyUnderWay | agent/hyperv/copyvm.go:105-265 | while no attempt is killed, no making goes unheard and every clean-up gets through, the share is up only inside the try of an attempt under way, wherever attempts throw |
| CopyOutcomes.ShareLeftUp | agent/hyperv/copyvm.go:78-105 | an attempt leaves the share up only if it was, or its agent was killed, the clean-up did not get through, or the making went unheard |
| CopyVm.SplitClearSafeExactlyWhen | agent/hyperv/copyvm.go:335-351 | with anything but another clearing between a check that saw everything and its removal, nothing is lost if and only if none of it is an import that registers the VM |
| CopyVm.UnansweredClearExample | agent/hyperv/copyvm.go:335-351 | Hyper-V unanswering, the files of a VM registered there go |
| CopyVm.ParentGoesExample | agent/hyperv/copyvm.go:335-351 | everything answered, a VM whose disk has its parent in the folder loses it |
| CopyVm.NeighbourBlocksClear | agent/hyperv/copyvm.go:339-343 | a VM whose folder merely begins with the name blocks the clearing |
| CopyVm.ImportAdapters | agent/hyperv/copyvm.go:407-475 | every adapter objected to ends on its mapped switch with its VLAN or on none, others untouched; objected to again nothing is imported and they stay off; at the first target the destination lacks it stops with the VM imported, those before it joined, it and those behind it off |
| CopyOutcomes.LandsByTheMap | agent/hyperv/copyvm.go:407-475 | an adapter objected to ends on the target of the switch it was on, with that target's VLAN if it has one, or on none |
| LiveMove.Mover.TakeOff | agent/hyperv/movecompat.go:67-79 | takes exactly the mapped adapters off and records where each was, as far as adapters and VLANs are listed |
| LiveMove.Mover.PutAllBack | agent/hyperv/movecompat.go:87-103 | puts the planned adapters back one after another, by MAC and else by name |
| LiveMove.Mover.JoinTargets | agent/hyperv/movecompat.go:111-137 | joins what arrived to its targets, by MAC or, with one target, by the first free adapter |
| LiveMove.Mover.Attempt | agent/hyperv/movecompat.go:67-138 | the move with its restore, up to the still-here test |
| LiveMove.Mover.Migrate | agent/hyperv/powershell_jobs.go:990-1008 | role off, move, still-here test, and the role back if the guard sees the VM, each test answered or not |
| LiveMoveRuns.FailedMoveRestoresExactlyWhen | agent/hyperv/movecompat.go:85-107 | a refused move leaves every adapter as it was, switch and VLAN, if and only if each one taken off is found again as itself and no VLAN was dropped unread |
| LiveMoveRuns.RefusedMoveChangesNothing | agent/hyperv/movecompat.go:67-107 | with distinct MACs a refused move leaves the adapters as they were exactly when no VLAN was dropped unread, and the role is back exactly when the guard sees the VM and the cluster accepts it |
| LiveMoveJoins.FoundAgainExactlyWhen | agent/hyperv/movecompat.go:91-95 | a planned adapter is found again by its MAC, and by its name only if it had none or no adapter has it any more |
| LiveMoveJoins.RefusedMoveLeaves | agent/hyperv/movecompat.go:85-107 | with distinct MACs and whichever reconnects fail, a refused move leaves exactly those adapters off and every other on its switch with the VLAN that was read |
| LiveMoveRuns.RoleAfterFailure | agent/hyperv/powershell_jobs.go:1761-1774 | the role after a failure with the VM still here: kept if not taken off, else back exactly when the guard sees the VM and the cluster accepts it, even if there was none |
| LiveMoveJoins.StopsExactlyWhen | agent/hyperv/movecompat.go:67-79 | the disconnecting stops short exactly at an adapter that is listed, on a mapped switch, and whose disconnect throws |
| LiveMoveJoins.RoleComesFirst | agent/hyperv/powershell_jobs.go:1713-1726 | a role that is not let go, or takes the VM with it, ends the job before anything is disconnected |
| LiveMoveRuns.PhantomLeavesOff | agent/hyperv/powershell_jobs.go:991-1007 | a move that only reported success leaves its adapters off whether the test catches it or not, and uncaught its role too |
| LiveMoveRuns.ThrownDisconnectLeavesOff | agent/hyperv/movecompat.go:68-79 | a disconnect that throws leaves the adapters before it off |
| LiveMoveRuns.MovedLandsExactlyWhen | agent/hyperv/movecompat.go:111-137 | after a real move onto a host with the targets, whatever MACs the adapters have, each is on its own switch, its target with its VLAN, or none, if and only if none has a target, or what arrived was listed and each with a target is told from the others |
| LiveMoveJoins.MovedSucceedsExactlyWhen | agent/hyperv/movecompat.go:111-137 | whatever switches the destination has, a move that happened and is listed on both sides succeeds if and only if every adapter with a target that is found there has it there; it fails at the first that has not, with what is found for those before it joined and the rest as it arrived |
| LiveMoveJoins.ToldSucceedExactlyWhen | agent/hyperv/movecompat.go:111-137 | where every adapter with a target is told from the others: success exactly when the destination has every target, and else those before the first it lacks where they should be, that one and all behind it as they arrived |
| LiveMoveJoins.OneTargetExactlyWhen | agent/hyperv/movecompat.go:112-124 | all targets count as one exactly if some adapter has a target and no two have different ones |
| LiveMoveJoins.MissingTargetExample | agent/hyperv/movecompat.go:134 | one adapter and its target missing: failed, with the VM there and the adapter off |
| LiveMoveRuns.SuccessMeansGoneExactlyWhen | agent/hyperv/powershell_jobs.go:991-1004 | success is reported with the VM still here exactly when the move did not happen and the still-here test went unanswered; every other success means it has left |
| LiveMoveRuns.UnseenPhantomExample | agent/hyperv/powershell_jobs.go:991-1008 | reported moved, and here, off the network and off the cluster |
| LiveMoveRuns.LeftOffForGood | agent/hyperv/movecompat.go:67-107 | over any run of retries an adapter left off stays off while the VM is here, and the VM is on exactly one host |
| LiveMoveRuns.NowhereElse | agent/hyperv/movecompat.go:111-137 | an adapter is only ever left where it was, disconnected or on a mapped target |
| LiveMoveRuns.NoMacExample | agent/hyperv/movecompat.go:123-127 | without MACs a never-connected adapter is joined in place of the one that came off |
| Iscsi.AddressRoundTrip | agent/hyperv/powershell_iscsi.go:343-346 | a port behind an address is taken off again whatever colons the address holds |
| Iscsi.MpioRequired | api/types/desiredstate.go:2114-2123 | several portals need multipath whatever is declared, and a refusal is overridden |
| Iscsi.Initiator.SetUpMultipath | agent/hyperv/powershell_iscsi.go:108-234 | service, feature and claim, and whether multipath counts as in effect in this pass |
| Iscsi.Initiator.RegisterPortals | agent/hyperv/powershell_iscsi.go:343-443 | registers exactly the missing portals that answer and accept discovery, one written with and without the default port being the same |
| Iscsi.Initiator.RegisterSessions | agent/hyperv/powershell_iscsi.go:573-607 | makes a target's fleeting sessions persistent |
| Iscsi.Initiator.LogIn | agent/hyperv/powershell_iscsi.go:573-681 | one target: register, then a session through every wanted portal not yet covered |
| Iscsi.Initiator.EnsureSessions | agent/hyperv/powershell_iscsi.go:79-690 | the whole pass and whether it changed anything |
| Iscsi.PassRemovesNothing | agent/hyperv/powershell_iscsi.go:64-73 | no portal, session or restored login is ever taken away |
| IscsiOutcomes.PassSetsUp | agent/hyperv/powershell_iscsi.go:108-443 | service, feature and claim after a pass, and the registered portals: what was, and every declared one that answers and does not refuse |
| IscsiOutcomes.DefaultPort | agent/hyperv/powershell_iscsi.go:343-346 | a portal written without a port registers under the default one |
| IscsiOutcomes.ChangedExactlyWhen | agent/hyperv/powershell_iscsi.go:79-690 | a pass says that something changed if and only if something did |
| IscsiOutcomes.PassLogsIn | agent/hyperv/powershell_iscsi.go:522-681 | every session after a pass: one that was there, made persistent where its target is wanted and it is listed and can be; or an added one, of a wanted target through a portal that lets the host in, beside none that was listed and, unless multipath is in effect, beside none at all |
| IscsiOutcomes.PassReaches | agent/hyperv/powershell_iscsi.go:522-681 | no pair is left out: a wanted target and a portal that lets the host in has a session through it, or some session where only one may be |
| IscsiOutcomes.PassRestores | agent/hyperv/powershell_iscsi.go:573-681 | the logins restored at boot are those that were, and those of the sessions a pass added or made persistent |
| IscsiRuns.NeverTwoPathsEarly | agent/hyperv/powershell_iscsi.go:522-547 | in every run of passes, restarts and outages no target has two sessions while multipath does not read as in effect |
| IscsiRuns.BlankPortalUnrestricted | agent/hyperv/powershell_iscsi.go:538-547 | exactly when a pass logs in through every portal |
| IscsiRuns.PassStaysHonestExactlyWhen | agent/hyperv/powershell_iscsi.go:192-226 | a pass makes multipath read as in effect when it is not if and only if it sets the claim under a running driver |
| IscsiRuns.NeverTwoUncoalesced | agent/hyperv/powershell_iscsi.go:192-226 | in every run in which no pass sets the claim under a running driver, no target has two sessions while nothing coalesces them |
| IscsiRuns.ClaimUnderDriverOpensPaths | agent/hyperv/powershell_iscsi.go:192-226 | after a pass that does, the next one opens a second session that nothing coalesces if the portals answer and no restart comes |
| IscsiRuns.SecondPassTooEarly | agent/hyperv/powershell_iscsi.go:192-226 | the shortest such run |
| IscsiRuns.OnePassCovers | agent/hyperv/powershell_iscsi.go:563-681 | with multipath in effect and every portal answering one pass covers every pair, and the next, if sessions are listed, reports no change |
| IscsiRuns.RunStaysPersistent | agent/hyperv/powershell_iscsi.go:75-78 | every session of a run is persistent |
| IscsiPrune.HostRoundTrip | agent/hyperv/powershell_iscsi.go:1309-1316 | a declared portal's host is read from it with or without a port |
| IscsiPrune.BracketsDiffer | agent/hyperv/powershell_iscsi.go:1309-1316 | a bracketed portal is compared here under a host the reconcile does not register it under |
| IscsiPrune.ReadListing | agent/hyperv/powershell_iscsi.go:1375-1385 | the records of a listing, in order, for every list of lines |
| IscsiPrune.LineRoundTrip | agent/hyperv/powershell_iscsi.go:1377-1379 | a printed line is split into exactly its key and value, whatever colons the value holds |
| IscsiPrune.ListingRoundTrip | agent/hyperv/powershell_iscsi.go:1375-1385 | the parser recovers exactly the logins a listing was printed from, whatever the layout and the lines between |
| IscsiPrune.Machine.PrunePortals | agent/hyperv/powershell_iscsi.go:1332-1357 | the portals left, and which were removed, kept for a connection that is shown, or failed |
| IscsiPrune.Machine.PruneLogins | agent/hyperv/powershell_iscsi.go:1371-1401 | the logins left and which were removed, by the sessions that are shown |
| IscsiPrune.Machine.PruneIscsiPortals | agent/hyperv/powershell_iscsi.go:1294-1407 | an empty declaration is refused and changes nothing; otherwise both prunes, whatever the two listings show |
| IscsiPrune.PortalGoesExactlyWhen | agent/hyperv/powershell_iscsi.go:1332-1357 | a portal goes if and only if undeclared, its removal does not fail and every session connected through it is hidden - with all shown, none that carries a connection |
| IscsiPrune.ReportedExactlyAs | agent/hyperv/powershell_iscsi.go:1332-1357 | an undeclared portal is reported as kept for a connection that is shown, as failed, or as removed, exactly as it is; a declared one as none of these |
| IscsiPrune.LoginGoesExactlyWhen | agent/hyperv/powershell_iscsi.go:1386-1401 | a restored login goes if and only if its target is undeclared, every session to it is hidden from the later listing, it shows an address and its removal does not fail |
| IscsiPrune.UnansweredPruneTakesAll | agent/hyperv/powershell_iscsi.go:1332-1401 | unanswered, the one portal of a working session goes with the login that would have brought it back |
| IscsiPrune.BlankTargetsNameNothing | agent/hyperv/powershell_iscsi.go:1301-1327 | a list of targets names nothing exactly when all of them are blank, and the guard lets it through |
| Fetch.Disk.Download | agent/hyperv/powershell_jobs.go:135-179 | one attempt: append a part, restart on a whole body, keep the file on any failure |
| Fetch.Disk.Attempts | agent/hyperv/powershell_jobs.go:133-181 | at most five attempts until one ends, with the source's count of resumes |
| Fetch.Disk.FetchIso | agent/hyperv/powershell_jobs.go:115-184 | what is in place, what is left and what is reported: placed exactly when one of the first five attempts completes, none made after it, and from a conforming server it is the body |
| Fetch.EveryReadKeepsPrefix | agent/hyperv/powershell_jobs.go:151-173 | after every read the file is a prefix of the body, and the body after an attempt that ends |
| Fetch.AttemptsKeepPrefix | agent/hyperv/powershell_jobs.go:134-180 | after every attempt too |
| Fetch.PlacedExactlyWhen | agent/hyperv/powershell_jobs.go:133-184 | a file is put in place exactly when one of the first five attempts gets the body or a part of it, opens the file and comes to its zero-byte read; it is then the body, and no attempt is made after the first such one |
| Fetch.MadeExactly | agent/hyperv/powershell_jobs.go:133-181 | an attempt that completes - a whole body or a part alike - is the last that is made, and only the fifth is the last without |
| Fetch.AttemptReaches | agent/hyperv/powershell_jobs.go:148-179 | exactly how far the file is after one more attempt |
| Fetch.ResumedExactlyWhen | agent/hyperv/powershell_jobs.go:148-155 | the resume count is never below the attempts that appended, and equal to them if and only if the file opened in every counted attempt |
| Fetch.AppendingLosesNothing | agent/hyperv/powershell_jobs.go:148-155 | an attempt that appended lost nothing that was there |
| Fetch.CountedUnopened | agent/hyperv/powershell_jobs.go:153-155 | a counted attempt that appends nothing |
| Fetch.CompleteWithoutEndFails | agent/hyperv/powershell_jobs.go:136-173 | once the whole body is there without its end, a server that honours ranges fails every further attempt |
| Fetch.UncheckedOffset | agent/hyperv/powershell_jobs.go:148-155 | a part that begins elsewhere keeps the prefix if and only if its bytes are those that belong |
| CsvMount.LikePrefix | agent/hyperv/powershell_csvmount.go:163 | without a wildcard, a path followed by a star matches exactly what begins with it |
| CsvMount.BracketsMatchOne | agent/hyperv/powershell_csvmount.go:163 | a pair of brackets matches one character it lists, by itself or in a range, and what follows it the rest |
| CsvMount.PoolNameFound | agent/hyperv/powershell_csvmount.go:39-50 | a volume wrapped by the cluster is found under its own name |
| CsvMount.WrappedExactlyWhen | agent/hyperv/powershell_csvmount.go:39-50 | what stands in the pair of brackets a name ends with is taken out, from the first opening one behind the last pair before it |
| CsvMount.UnwrappedUnless | agent/hyperv/powershell_csvmount.go:39-50 | and nothing else ever is |
| CsvMount.TargetExactlyWhen | agent/hyperv/powershell_csvmount.go:39-50 | the directory is that declared under the whole name and only failing that the one under the wrapped name |
| CsvMount.Machine.TryRename | agent/hyperv/powershell_csvmount.go:147-179 | one volume's turn, from what was read of it and what the VM listing hides |
| CsvMount.Machine.EnsureMountPoints | agent/hyperv/powershell_csvmount.go:37-180 | a node's pass over all volumes, from readings of any age |
| CsvMountRuns.TurnRenamesItsOwn | agent/hyperv/powershell_csvmount.go:147-179 | from a reading that was once true a turn renames its own misnamed volume to a free name, exactly when it is up and its guards pass, or changes nothing |
| CsvMountRuns.TurnsExactlyWhen | agent/hyperv/powershell_csvmount.go:147-179 | a turn renames if and only if each of its guards lets it, spelled out, and some volume is up under the name that was read; the first such one gets the wanted name and nothing else changes |
| CsvMountRuns.PassIsItsTurns | agent/hyperv/powershell_csvmount.go:37-180 | a pass is one turn for each volume in their order, each on the cluster the one before left, and reports those that renamed |
| CsvMountRuns.RenamesItsOwnExactlyWhen | agent/hyperv/powershell_csvmount.go:147-175 | a turn that renames renames its own volume if and only if that one is up under the name that was read |
| CsvMountRuns.MountsStayDistinct | agent/hyperv/powershell_csvmount.go:169-175 | in any run whatever, volumes going offline and coming back, the mount directories there are stay pairwise distinct |
| CsvMountRuns.StaleReadingHitsAnother | agent/hyperv/powershell_csvmount.go:147-175 | the reading of a volume since gone offline gives its name to the one that took its directory |
| CsvMountRuns.StepKeepsApart | agent/hyperv/powershell_csvmount.go:147-179 | while volumes come back under names of their own, the names of all volumes, up or down, stay distinct |
| CsvMountRuns.EachRenameCounts | agent/hyperv/powershell_csvmount.go:147-179 | the number of misnamed volumes drops by one at each rename and never otherwise changes, volumes offline included |
| CsvMountRuns.RenamesAreFixes | agent/hyperv/powershell_csvmount.go:18-23 | in any run by any members, volumes offline at times, the renames made are exactly the volumes fixed |
| CsvMountRuns.MovedUnderVmsExactlyWhen | agent/hyperv/powershell_csvmount.go:160-175 | without a wildcard in its path, a directory VMs of any node use is renamed exactly when a rename is due and succeeds and the node's listing shows none of its own VMs' disks there |
| CsvMountRuns.NeverUnderItsOwnVm | agent/hyperv/powershell_csvmount.go:160-167 | with the listing answered no node renames a directory one of its own VMs uses |
| CsvMountRuns.OthersNeverLookedAt | agent/hyperv/powershell_csvmount.go:163 | a turn does the same whatever VMs other nodes have |
| CsvMountRuns.UnderAVmExample | agent/hyperv/powershell_csvmount.go:160-175 | renamed under another node's VM, and under its own when Hyper-V does not answer |
| CsvMountRuns.BracketHidesVm | agent/hyperv/powershell_csvmount.go:163 | a bracketed directory does not match itself |
| CsvMountRuns.OwnsItExactlyWhen | agent/hyperv/powershell_csvmount.go:150-158 | a node takes a volume for its own exactly when no owner was read or the owner's name begins with its own |
| Maintenance.Cluster.ClearStorage | agent/hyperv/powershell_cluster.go:1508-1532 | the unit, then each disk still in maintenance, then a last look, the cluster free to act before each |
| Maintenance.Cluster.LeaveMaintenance | agent/hyperv/powershell_cluster.go:1595-1610 | resume, re-read, and clear only a node taken for un-paused with storage out |
| Maintenance.Cluster.EnsureMaintenance | agent/hyperv/powershell_cluster.go:1443-1624 | node, command log and report of a pass, whatever the cluster does between its readings and commands |
| Maintenance.WhoGives | agent/hyperv/powershell_cluster.go:1443-1624 | observing gives no command, entering only a suspend, leaving a resume of a node read as paused and clears; storage maintenance is never enabled |
| Maintenance.ClearMeetsPausedExactlyWhen | agent/hyperv/powershell_cluster.go:1595-1610 | a clear meets a paused node if and only if the cluster paused it since the script last read it |
| Maintenance.ClearMeetsPausedExample | agent/hyperv/powershell_cluster.go:1599-1609 | paused again between the re-read and the clear of its unit |
| Maintenance.ClearingClears | agent/hyperv/powershell_cluster.go:1508-1532 | with the cluster quiet, storage is out after a clearing exactly if some clear did not take |
| Maintenance.ExitLeaves | agent/hyperv/powershell_cluster.go:1595-1622 | a quiet exit leaves the node un-paused and its storage, if read, in service exactly when every clear took; stuck storage is reported exactly when one did not |
| Maintenance.ExitReports | agent/hyperv/powershell_cluster.go:1595-1622 | what a quiet exit reports: un-paused, its storage as it is where that was read, and a change exactly if it resumed the node or got its storage into service |
| Maintenance.NothingClearedUnresumed | agent/hyperv/powershell_cluster.go:1595-1610 | a resume that fails throws, and nothing is cleared behind it or behind a re-read that goes unanswered |
| Maintenance.EnterLeaves | agent/hyperv/powershell_cluster.go:1554-1594 | a quiet enter gives one suspend to a node that is not paused, which moves it exactly if it is accepted, and reports which; and nothing to one that is |
| Maintenance.ObserveReports | agent/hyperv/powershell_cluster.go:1443-1553 | observing reports what its two readings show, the second made only of a paused node or by a deep pass |
| Maintenance.ExitSettles | agent/hyperv/powershell_cluster.go:1595-1622 | behind a quiet deep exit whose clears took, the next exit gives no command and reports no change |
| Maintenance.EnterSettles | agent/hyperv/powershell_cluster.go:1554-1594 | after an accepted suspend, entering again gives no command and reports no change while the cluster has not un-paused the node |
| Maintenance.DegradedOnlyBlocks | agent/hyperv/powershell_cluster.go:1554-1594 | a degraded pool blocks: one command that moves nothing, and neither a failure nor a change |
| Maintenance.ShallowAgainstDeep | agent/hyperv/powershell_cluster.go:1533-1549 | shallow and deep do the same to the node but for clearing one un-paused when an exit pass began |
| Maintenance.RunIsSafe | agent/hyperv/powershell_cluster.go:1443-1624 | over every run: no enable; without an exit nothing but suspends; and while the cluster pauses nothing by itself no clear meets a paused node |
| Mtu.JumboValueFor | api/types/mtu.go:164-176 | the first of the smallest offered values that carry what is wanted, or none exactly when none does |
| Mtu.FirstOfSmallest | api/types/mtu.go:164-176 | of equally small values the first is taken |
| Mtu.SizeIsLeadingNumber | api/types/mtu.go:233-252 | the size a value spells is its leading number, whatever follows, and one that does not fit is none |
| Mtu.NumericExactlyWhen | api/types/mtu.go:210-228 | a range gives a value exactly when one it takes lies within a header of what is wanted, or it begins above that |
| Mtu.NumericIsLargest | api/types/mtu.go:210-228 | and nothing larger of the range would do |
| Mtu.ChooseJumbo | agent/hyperv/powershell_mtu.go:356-364 | the offered value, else the number of the range |
| Mtu.PlanAdapterMtu | agent/hyperv/powershell_mtu.go:242-295 | every observed adapter is carrying, to be written or refused, exactly one of the three |
| Mtu.WritesCarry | agent/hyperv/powershell_mtu.go:23-29 | what is written carries what was wanted and is not what is selected |
| Mtu.JudgedExactly | agent/hyperv/powershell_mtu.go:242-295 | an adapter is left alone exactly if what is in force is enough, by which of three readings there is; refused exactly if it is absent, its driver has nothing that would do, or has it selected already; and written in every other case |
| Mtu.WritesExactly | agent/hyperv/powershell_mtu.go:197-221 | a pass writes every adapter its plan says to, up to the cut and not beyond |
| Mtu.Machine.EnsureAdapterMtu | agent/hyperv/powershell_mtu.go:197-231 | the adapters after a pass, cut before any write, its outcome, and its error: the script's, or every adapter refused |
| Mtu.WrittenAtMostOnce | agent/hyperv/powershell_mtu.go:38-43 | in any run of passes for one want each adapter is written at most once, in force or not |
| Mtu.NamedTwiceWrittenTwice | agent/hyperv/powershell_mtu.go:197-221 | an adapter named twice in a team is written twice |
| Integration.IntegrationPlan | agent/hyperv/powershell_integration.go:56-90 | the two lists of the plan, sorted |
| Integration.PlanIs | agent/hyperv/powershell_integration.go:56-90 | the lists hold exactly the services declared, reported and different, sorted and disjoint |
| Integration.DeclaredByName | agent/hyperv/powershell_integration.go:48-90 | each service is declared under its own name |
| Integration.NothingDeclared | agent/hyperv/powershell_integration.go:48-90 | what is not declared has no plan |
| Integration.ReportedIs | agent/hyperv/powershell_integration.go:56-90 | a service counts as last reported, letter case apart |
| Integration.IntegrationScript | agent/hyperv/powershell_integration.go:199-209 | the script text of the plan |
| Integration.ScriptRoundTrip | agent/hyperv/powershell_integration.go:199-209 | the text reads back as exactly its commands, whatever the names |
| Integration.Vm.ApplyIntegrationServices | agent/hyperv/powershell_integration.go:188-197 | plan, text and execution, cut before any command |
| Integration.PlanTakesEffect | agent/hyperv/powershell_integration.go:188-209 | every service declared and reported becomes what it is declared, every other stays |
| Integration.CutShortIsSafe | agent/hyperv/powershell_integration.go:188-209 | cut short, every service is as it was or as declared |
| Integration.ReplanIsEmpty | agent/hyperv/powershell_integration.go:48-90 | planning again from what the host then reports gives two empty lists |

## Left out

- Letters are folded over A-Z only, and U+0027 is the one quote character; PowerShell
  also folds other letters and takes typographic quotes.
- Lower-case names stand for case-insensitive comparison of iSCSI targets and portals.
- The host-side reading scripts are taken through what they report; JSON, streaming,
  timeouts and event logs are not modelled.
- Bandwidth weight is set and never observed, so nothing is claimed about it.
- VnicHost.Machine.Do: has no command for DHCP, IPv6 addresses or network locations, and the
  address script's own listings of an interface's addresses and routes are taken to answer.
- VnicReconcile.EnsureMgmtVnic: a vNIC's interface is found whatever its alias; alone, its
  RDMA is asked for under the constructed alias, in the batch under the resolved one.
- VnicReconcile.ReconcileVnicIp: does not model the DHCP switch-off retries, the wait for
  duplicate-address detection, the removal of IPv6 addresses or the network-location
  restart; the script's addresses, route, DNS and registration are modelled.
- VnicPrune.Machine.PruneManagementVnics: does not model the report of duplicate vNICs,
  which removes nothing.
- VirtualSwitch.Host.EnsureSwitch: does not model the explanation of team members that
  follows a failed create or update.
- Adoption.Lun.Adopt: does not model DiskIdGuid as a second identity beside the unique
  id, nor the diagnosis of a disk the cluster did not take.
- Adoption.Lun.Finish: the listings of names and shared volumes after the joining, made
  once the resource is in hand, are taken to answer.
- Pointing the quorum at an adopted disk (`diskWitnessScript`).
- CopyVm.ImportAdapters: each adapter is objected to once; one listed twice would have
  its switch read again after it was disconnected.
- CopyVm.Hosts.Copy: does not model the permissions on the share's folder, the firewall
  step, or two moves sharing the one share name.
- LiveMove.Mover.Migrate: does not model the migration settings and the firewall step
  before the move, nor making the VM highly available afterwards, which never fails it.
- Maintenance.Cluster.EnsureMaintenance: the two queries of one storage reading, of the unit
  and of the disks, are one moment; the wording of a refusal is not modelled.
- Iscsi.Initiator.EnsureSessions: does not model CHAP, the new-disk policy, source
  address binding, stale bindings and the messages; a refused discovery stands for both
  of its attempts.
- IscsiPrune.Machine.PruneLogins: a removal command is taken to remove exactly the login
  its record shows.
- Fetch.Disk.FetchIso: copying from a share instead of downloading is one command and
  not modelled.
- CsvMount.Machine.EnsureMountPoints: does not model the notes and the lines seen, nor
  the report made from them.
- Mtu.Machine.EnsureAdapterMtu: refusals carry the adapter's name and not their wording.
- EnsureInterfaceMTU, cluster formation, S2D pools, replication, inventory, metrics and
  licences would add only members with one-branch properties.
