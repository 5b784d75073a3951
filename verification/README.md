# Placement judge and solvers, modelled in Dafny

This project models the VM-placement problem of the ICPC 2022 online challenge as two sides of one interaction.

- **The judge** (`scripts/local_runner.py`) validates the contestant's answer to every request. It has four parts:
  - the NUMA capacity cells and the grid they form (`JudgeNuma`);
  - the placement-group tracker `PG`, with rack anti-affinity partitions, the host anti-affinity threshold, and soft or hard network and rack affinity (`JudgeGroup`);
  - the request loop of `interact`, written as a pure step function over parsed request and response lines that returns the next session or the violation that aborts it (`JudgeSession`);
  - the score formula of `end_interaction`, over `real` (`JudgeScore`).
- **The first-fit solver** `src/v01.cpp` (`FirstFit`). It covers:
  - the `Node`/`PM`/`Rack`/`Domain` constructors;
  - the first-fit search of `createVMs`, including `rackSupportsVM`;
  - claiming and releasing node capacity;
  - `deleteVMs`.
- **The integer bookkeeping of the solver** `src/v09.cpp`. It covers:
  - `WithResources`, with its claim, release and resource checks (`Resources`);
  - the Node → PM → Rack → Domain hierarchy and `VM::place` / `unplace` (`Hierarchy`);
  - the integer type-fit counts and their caches (`TypeFit`, `FitCache`);
  - `PG::updateTargets` (`Targets`);
  - the `Manager` operations `createPG`, `createVMs` and `deleteVMs` (`Solver`).

`Common` holds the shared pieces:

- `Option` and `Result`;
- counters in the style of `defaultdict(int)`, kept canonical (no zero entries);
- Python's negative list indexing;
- sums and the `std::remove` / `erase` idiom.

Each module states its operations as pure functions over immutable datatypes. The contracts state what the code promises:

- the exact violation the judge reports, and when;
- round trips: release after allocate, delete after create, unplace after place;
- invariants every operation keeps:
  - the judge's touched sets are exactly the keys with a positive count;
  - every level of the v09 hierarchy holds the sum of its children's resources;
  - type-fit caches never hold a stale value;
  - every printed index is the 1-based position;
- first-fit order and node choice in v01.

## Model

| member | source | states |
|---|---|---|
| JudgeNuma.AllocateSpec | scripts/local_runner.py:23-27 | allocation fails exactly when CPU or memory would exceed its total, CPU being checked first; otherwise each usage rises by exactly the type's amount and stays within capacity |
| JudgeNuma.ReleaseUndoesAllocate | scripts/local_runner.py:23-31 | releasing right after a successful allocation restores the NUMA cell exactly |
| JudgeNuma.ReleaseKeepsCapacity | scripts/local_runner.py:29-31 | a release with non-negative demands lowers usage and never breaks the capacity bound |
| JudgeNuma.InitGrid | scripts/local_runner.py:124-142 | the grid has a cell for exactly every (domain, rack, machine, NUMA) in range, each with the configured totals and nothing used |
| JudgeNuma.ReleaseCellUndoesAllocateCell | scripts/local_runner.py:213-240 | releasing a grid cell undoes allocating it |
| JudgeNuma.AllocateVMSpec | scripts/local_runner.py:213-215 | a VM is charged on its first NUMA cell and, for two NUMAs, its second; this succeeds exactly when both cells exist and have room, and no other cell changes |
| JudgeNuma.ReleaseVMUndoesAllocateVM | scripts/local_runner.py:213-242 | releasing a VM right after allocating it restores the whole grid, even when both NUMA indices coincide |
| JudgeNuma.AllocateVMKeepsCapacity | scripts/local_runner.py:213-215 | a successful allocation keeps every cell within capacity |
| JudgeNuma.ReleaseVMKeepsCapacity | scripts/local_runner.py:240-242 | a release with non-negative demands keeps every cell within capacity |
| JudgeGroup.NewGroup | scripts/local_runner.py:35-48 | creating a group fails with the rules-conflict violation exactly when both rack anti-affinity and rack affinity are non-zero; otherwise the group has the given rules, nothing registered, and satisfies the tracker invariant |
| JudgeGroup.ClaimRack | scripts/local_runner.py:58-67 | under rack anti-affinity the rack count rises by one, starting at 1 on an empty rack; touched racks are unchanged |
| JudgeGroup.NewPlacement | scripts/local_runner.py:56-84 | registering a placement never changes the group's rules |
| JudgeGroup.Affinities | scripts/local_runner.py:68-83 | the host count, the network tally and the rack tally change only under their own rule |
| JudgeGroup.Forget | scripts/local_runner.py:93-96 | a key leaves the touched set exactly when its rule is active and its count has dropped to zero |
| JudgeGroup.DeletePlacement | scripts/local_runner.py:86-96 | unregistering never changes the rules or the recorded rack partitions |
| JudgeGroup.NewPlacementCounters | scripts/local_runner.py:56-84 | registering adds one to the rack count (under either rack rule), the host count and the network count, each only when its rule is on, and adds the rack and domain to the touched sets |
| JudgeGroup.NewPlacementPartitions | scripts/local_runner.py:58-67 | the partition map changes only when rack anti-affinity claims an empty rack, and then only at that rack |
| JudgeGroup.NewPlacementKeepsConsistent | scripts/local_runner.py:56-84 | registering keeps the invariant (touched sets equal the keys with positive counts; occupied racks have a partition), and the placement is then registered |
| JudgeGroup.PartitionRule | scripts/local_runner.py:58-67 | under rack anti-affinity the placement is fatal exactly when its rack holds VMs of another partition; otherwise the rack's count rises by one and its partition becomes the VM's |
| JudgeGroup.NetAffinityRule | scripts/local_runner.py:70-76 | with network affinity, once the rack anti-affinity stage has passed, the placement is fatal exactly when the group already holds a VM in another domain and the rule is hard; a placement that goes through reports its soft rules met exactly when neither that nor a rack affinity of the group spans another domain or rack |
| JudgeGroup.RackAffinityRule | scripts/local_runner.py:77-83 | the same for rack affinity over global rack ids, checked after network affinity: it is fatal exactly when the rack rule is hard and spread and a hard network rule is not already broken; a placement that goes through reports success exactly when neither affinity is spread |
| JudgeGroup.SoftFlagMeaning | scripts/local_runner.py:70-84 | the returned status is false exactly when an active affinity's touched set has more than one element |
| JudgeGroup.HostRule | scripts/local_runner.py:53-69 | after registering, the machine passes `host_ok` exactly when it held fewer VMs than the threshold before; no other machine's verdict changes |
| JudgeGroup.DeletePlacementCounters | scripts/local_runner.py:86-96 | unregistering subtracts one from each active counter, and drops the domain or rack from its touched set exactly when that count reaches zero |
| JudgeGroup.DeletePlacementKeepsConsistent | scripts/local_runner.py:86-96 | unregistering a registered placement never fails (no `KeyError`) and keeps the invariant |
| JudgeGroup.DeleteUndoesNew | scripts/local_runner.py:56-96 | unregistering right after registering gives back a group indistinguishable from the original by any later decision |
| JudgeGroup.NewPlacementObservable | scripts/local_runner.py:56-84 | two indistinguishable groups accept, reject and report the same for every placement, and stay indistinguishable, so a stale partition of an emptied rack never matters |
| JudgeGroup.AffinitiesObservable | scripts/local_runner.py:68-83 | the affinity part of registration depends only on observable state |
| JudgeGroup.ClaimRackObservable | scripts/local_runner.py:58-67 | the rack anti-affinity check depends only on observable state |
| JudgeGroup.ClaimRackPartition | scripts/local_runner.py:61-67 | a successful claim records the VM's partition for its rack and keeps every other rack's partition |
| JudgeSession.Start | scripts/local_runner.py:151-156 | a session starts with no groups, no VMs, all three counters at zero and the NUMA grid with nothing used |
| JudgeSession.ParseAccepts | scripts/local_runner.py:182-202 | a response line is accepted exactly when its length matches the type's NUMA count, all indices lie in 1..n, and two NUMA indices differ |
| JudgeSession.ParseRejects | scripts/local_runner.py:189-198 | a line of neither 4 nor 5 tokens, a bad second NUMA, and equal NUMAs are refused with their own violation, before the type is looked up |
| JudgeSession.GlobalIds | scripts/local_runner.py:210 | the domain-wide rack and machine numbers of in-range ids are in range and decode back into the ids |
| JudgeSession.PlacementIds | scripts/local_runner.py:203-210 | an accepted line becomes 0-based ids, `rack + net*n_rack`, `pm + n_pm*rack_global` and partition `i` for `p == -1` or `p-1` otherwise |
| JudgeSession.CountHostOk | scripts/local_runner.py:225-228 | the count of VMs passing `host_ok` is at most the number of VMs, and equals it exactly when every VM passes |
| JudgeSession.Latest | scripts/local_runner.py:226 | for `0 <= l <= len(vms)` the slice is exactly the last `l` VMs: it has `l` elements and completes the first `len(vms) - l` to the whole list |
| JudgeSession.PlaceOneEffect | scripts/local_runner.py:211-222 | a VM that is accepted appends one record, adds one to `soft_total` exactly when its group has soft rules, and leaves `placed`, `soft_fulfilled` and every group's rules alone |
| JudgeSession.PlaceBatchShape | scripts/local_runner.py:176-222 | a completed batch appends one record per VM, leaves `placed` and `soft_fulfilled` to the caller, and keeps the grid within capacity |
| JudgeSession.PlaceBatchUnfold | scripts/local_runner.py:176-222 | a completed batch is its first accepted VM followed by the rest of the batch |
| JudgeSession.PlaceBatchSoftTotal | scripts/local_runner.py:217-218 | a batch adds all its VMs to `soft_total` for a group with soft rules, and none otherwise |
| JudgeSession.PlaceBatchSoftOk | scripts/local_runner.py:217-222 | `soft_ok` ends true exactly when the batch is empty, or its group has soft rules and every VM of the batch got a true status from `new_placement` |
| JudgeSession.PlaceStepCounters | scripts/local_runner.py:168-230 | a served batch of `l` VMs adds exactly `l` to `placed` and to the VM list; `soft_total` grows by `l` only for soft groups; `soft_fulfilled` grows only when `soft_ok` holds (the batch is empty, or the group has soft rules and every VM's status was true), and then by `l`, or under host anti-affinity by the number of the batch's VMs that pass `host_ok` |
| JudgeSession.DeclineRule | scripts/local_runner.py:178-181 | a `-1` as the first response ends the run unfinished with the session unchanged; a `-1` at any later position is the partial-placement violation |
| JudgeSession.ReleaseUndoesPlace | scripts/local_runner.py:211-242 | deleting a VM right after placing it restores the grid and leaves its group indistinguishable from before; no other group changes |
| JudgeSession.ReleaseUndoesRegister | scripts/local_runner.py:236-242 | the deletion of a just-registered VM finds all it looks up and does not fail |
| JudgeSession.ReleaseOneOf | scripts/local_runner.py:236-242 | a deletion whose lookups succeed unregisters the placement from the group and then releases the NUMA cells |
| JudgeSession.PlaceOneParts | scripts/local_runner.py:198-216 | an accepted VM was parsed, charged on the grid and registered with an existing group |
| JudgeSession.ReleaseAllEffect | scripts/local_runner.py:231-242 | deletions never touch the counters, the VM list or the group list, and keep the grid within capacity |
| JudgeSession.StepKeepsInvariant | scripts/local_runner.py:157-250 | each served request keeps `0 <= soft_fulfilled <= soft_total`, `placed >= 0` and every cell within capacity; a stop leaves the session unchanged |
| JudgeSession.RunKeepsInvariant | scripts/local_runner.py:157-250 | the loop keeps the invariant, and a violation is blamed on a request that was actually read |
| JudgeSession.JudgeCounters | scripts/local_runner.py:151-250 | a whole judged run that ends normally reports `0 <= soft_fulfilled <= soft_total`, `placed >= 0` and a grid within capacity |
| JudgeScore.Score | scripts/local_runner.py:109-114 | a score exists exactly when a baseline is given |
| JudgeScore.RatioOne | scripts/local_runner.py:113 | a count equal to a positive baseline gives ratio 1 |
| JudgeScore.ScoreOfBaseline | scripts/local_runner.py:113 | matching a baseline with at least one VM of each kind scores exactly 1 |
| JudgeScore.RatioMonotone | scripts/local_runner.py:113 | the ratio never falls as the count rises |
| JudgeScore.ScoreMonotone | scripts/local_runner.py:113 | placing more VMs, or more by their soft rules, never lowers the score |
| JudgeScore.RatioBounds | scripts/local_runner.py:113 | with the `max(1, ·)` denominator, a count up to the baseline gives a ratio in [0, 1] |
| JudgeScore.ScoreBounds | scripts/local_runner.py:113 | a run doing no better than the baseline scores between 0 and 1 |
| Common.Bump | scripts/local_runner.py:64-92 | a counter bump changes the one key's count by the given amount and no other key's |
| Common.BumpUndo | scripts/local_runner.py:69-90 | bumping a counter and bumping it back restores it |
| Common.BumpDown | scripts/local_runner.py:88-94 | decrementing a positive count keeps all counts positive, and the key leaves the map exactly when it reached zero |
| Common.PySlot | scripts/local_runner.py:198-237 | Python indexing succeeds exactly for `-n <= k < n`, a negative index counting from the end |
| Common.Remove | src/v01.cpp:304-307 | `std::remove` followed by `erase` keeps exactly the elements different from the value |
| Common.RemoveAppended | src/v09.cpp:413-461 | removing a just-appended VM gives the list back |
| FirstFit.NewPM | src/v01.cpp:50-58 | a PM has one node per configured node, numbered from 1, with the configured capacity and no VMs |
| FirstFit.NewRack | src/v01.cpp:67-77 | a rack has `noPMs` identical PMs numbered from 1 |
| FirstFit.NewDomain | src/v01.cpp:85-95 | a domain has `noRacks` identical racks numbered from 1 |
| FirstFit.NewDomains | src/v01.cpp:143-160 | the manager builds `noDomains` identical domains numbered from 1 |
| FirstFit.NewDomainsSpec | src/v01.cpp:50-95 | every level of the new hierarchy carries its 1-based position, with the configured shape and capacities |
| FirstFit.FittingSpec | src/v01.cpp:199-207 | the scan considers exactly the nodes with enough CPU and memory, in position order |
| FirstFit.ScanSpec | src/v01.cpp:197-207 | the node loop collects fitting nodes in order and stops when it has `type.nodes` of them |
| FirstFit.PickNodesSpec | src/v01.cpp:196-211 | the picked nodes are the first `type.nodes` fitting nodes of the PM, in increasing position |
| FirstFit.PickSpec | src/v01.cpp:196-211 | a PM accepts a VM exactly when it has at least `type.nodes` fitting nodes, and then the picks are that many distinct fitting nodes, none skipped |
| FirstFit.RackSupportsSpec | src/v01.cpp:261-287 | for a group that obeys its hard rules, the rack check accepts a rack exactly when the group still obeys them with the VM added there; an empty group accepts every rack |
| FirstFit.SearchPMsSpec | src/v01.cpp:196-225 | the PM loop finds the first PM from the given one on that accepts the VM, or reports that none does |
| FirstFit.SearchRacksSpec | src/v01.cpp:191-230 | the rack loop skips unsupported racks and finds the first supported rack and PM that host the VM |
| FirstFit.SearchDomainsSpec | src/v01.cpp:190-235 | the domain loop finds the first host in domain, rack, PM order |
| FirstFit.FindHost | src/v01.cpp:187-235 | a found host names an existing PM and `type.nodes` distinct nodes on it |
| FirstFit.FindHostSpec | src/v01.cpp:192-200 | the found rack passes the group's rack check and every chosen node has room for the type |
| FirstFit.FindHostFirst | src/v01.cpp:187-240 | the search finds the first PM in domain, rack, PM order that hosts the VM, picking its first fitting nodes; it finds nothing exactly when no PM anywhere hosts it |
| FirstFit.ClaimNodes | src/v01.cpp:213-218 | claiming keeps the number of nodes |
| FirstFit.ReleaseNodes | src/v01.cpp:293-297 | releasing keeps the number of nodes |
| FirstFit.ClaimNodesAt | src/v01.cpp:213-218 | claiming subtracts the type's CPU and memory and records the VM on exactly the chosen nodes |
| FirstFit.ReleaseNodesAt | src/v01.cpp:293-297 | releasing adds the type's CPU and memory back and removes the VM on exactly the chosen nodes |
| FirstFit.ReleaseUndoesClaim | src/v01.cpp:213-297 | releasing the claimed nodes restores every node exactly |
| FirstFit.ClaimKeepsNonNegative | src/v01.cpp:200-216 | claiming nodes that fit never drives a capacity below zero |
| FirstFit.CreatePG | src/v01.cpp:162-170 | `emplace` adds the group when its index is new and leaves an existing group of that index untouched |
| FirstFit.SetPMSame | src/v01.cpp:213-218 | writing back an unchanged PM changes nothing |
| FirstFit.SetPMTwice | src/v01.cpp:213-218 | of two writes to the same PM the later one wins |
| FirstFit.PlaceVM | src/v01.cpp:187-240 | a VM is placed exactly when it exists, its group exists and the search finds a host |
| FirstFit.CreateVMs | src/v01.cpp:172-259 | the call fails on an unknown group (`at` throws), and otherwise can fail only for a zero-node type, whose placed VMs have no first node to print (`nodes.at(0)` throws); a batch that does not fit prints just `-1`; a placed batch prints one line per VM |
| FirstFit.RemoveMemberSpec | src/v01.cpp:299-307 | removing a VM from its group's list keeps exactly the other VMs' entries |
| FirstFit.DeleteVM | src/v01.cpp:290-300 | deleting fails exactly for an unknown index (`at` throws) and otherwise forgets exactly that VM |
| FirstFit.DeleteVMs | src/v01.cpp:289-302 | deletion succeeds exactly when the indices are distinct and all known, and then forgets exactly them |
| FirstFit.NewManagerInvariant | src/v01.cpp:143-160 | a new manager with non-negative capacities satisfies the invariant: a numbered hierarchy, no negative capacity, groups that obey their hard rules, hosts that exist |
| FirstFit.CreatePGInvariant | src/v01.cpp:162-170 | creating a group keeps the invariant |
| FirstFit.PlaceVMParts | src/v01.cpp:192-218 | a placed VM got an existing host on a supported rack with nodes that had room |
| FirstFit.PlaceVMInvariant | src/v01.cpp:187-225 | placing a VM keeps the invariant, including the group's hard rules |
| FirstFit.DeleteUndoesPlace | src/v01.cpp:213-302 | deleting a just-placed VM restores every node and group list and forgets only that VM |
| FirstFit.DeleteVMInvariant | src/v01.cpp:290-300 | deleting a VM with non-negative demands keeps the invariant |
| FirstFit.RegisterSpec | src/v01.cpp:179-183 | the batch's VMs are added with the type, group, and partition `partition` if non-negative, else position + 1; other VMs are unchanged |
| FirstFit.PlaceVMTable | src/v01.cpp:213 | placing one VM changes only that VM's host |
| FirstFit.PlaceAllTable | src/v01.cpp:187-241 | placing a batch only sets hosts of the batch's VMs and changes no other VM |
| FirstFit.PlaceAllOk | src/v01.cpp:187-241 | the batch loop succeeds exactly when every VM of the batch got a host |
| FirstFit.PlaceAllInvariant | src/v01.cpp:187-241 | the batch loop keeps the invariant |
| FirstFit.LineOfIndexed | src/v01.cpp:245-255 | in a numbered hierarchy a printed line is the 1-based domain, rack and PM positions followed by the node positions |
| FirstFit.CreateVMsInvariant | src/v01.cpp:172-259 | a batch request keeps the invariant |
| FirstFit.CreateVMsTable | src/v01.cpp:179-213 | `createVMs` adds exactly the batch's VMs with their type, group and partition, and changes no earlier VM |
| FirstFit.CreateVMsOutput | src/v01.cpp:196-256 | a placed batch puts every VM on `type.nodes` fitting nodes of one PM, and prints for each the 1-based positions of that PM and those nodes |
| FirstFit.HostOf | src/v01.cpp:244-249 | the host recorded for a placed VM exists |
| FirstFit.LinesSpec | src/v01.cpp:243-256 | every printed line is the 1-based position of the VM's PM followed by its nodes |
| FirstFit.CreateThenDelete | src/v01.cpp:172-302 | deleting a just-created single VM restores the manager exactly |
| FirstFit.DeleteVMsInvariant | src/v01.cpp:289-302 | a delete request keeps the invariant |
| Resources.NewRes | src/v09.cpp:64-65 | a fresh level has all of its totals available |
| Resources.ClaimShift | src/v09.cpp:67-79 | a claim subtracts the type's CPU and memory, a release adds them back, and both clear the fit cache |
| Resources.ClaimRelease | src/v09.cpp:67-79 | claim and release are mutual inverses apart from the cleared cache |
| Resources.ClaimTimesShift | src/v09.cpp:67-72 | `k` claims subtract `k` times the demand |
| Resources.HasTypeSpec | src/v09.cpp:81-87 | a level has resources for a type exactly when `type.nodes` claims leave nothing negative |
| Resources.HasResourcesMonotone | src/v09.cpp:67-83 | a claim can only take the resource check from true to false, and a release only from false to true |
| Hierarchy.NewPM | src/v09.cpp:130-139 | a PM has one node per configured node |
| Hierarchy.NewRack | src/v09.cpp:164-173 | a rack has `noPMs` PMs |
| Hierarchy.NewDomain | src/v09.cpp:191-199 | a domain has `noRacks` racks |
| Hierarchy.NewDomains | src/v09.cpp:373-376 | the manager builds `noDomains` domains |
| Hierarchy.NewPMBalanced | src/v09.cpp:130-139 | a new PM's totals are the sums of its nodes' |
| Hierarchy.NewRackBalanced | src/v09.cpp:164-173 | a new rack's totals, `noPMs` times the node sums, are the sums over its PMs |
| Hierarchy.NewDomainBalanced | src/v09.cpp:191-199 | a new domain's totals, `noRacks * noPMs` times the node sums, are the sums over its racks |
| Hierarchy.NewDomainsBalanced | src/v09.cpp:373-376 | every level of a new hierarchy holds the sum of its children |
| Hierarchy.NewDomainsShape | src/v09.cpp:130-199 | the new hierarchy has exactly the configured shape, every level numbered by its 1-based position, fresh nodes and no group counts |
| Hierarchy.Update | src/v09.cpp:258-263 | one claim or release on a node keeps the shape of the hierarchy |
| Hierarchy.UpdateAll | src/v09.cpp:258-274 | claims or releases over a VM's nodes keep the shape of the hierarchy |
| Hierarchy.BumpAt | src/v09.cpp:265-276 | a group-count change keeps the shape of the hierarchy |
| Hierarchy.UpdateCommute | src/v09.cpp:258-274 | updates on two nodes commute |
| Hierarchy.UpdateAllCommute | src/v09.cpp:258-274 | a single update commutes with a whole run of updates |
| Hierarchy.UpdateCancel | src/v09.cpp:67-79 | a release right after a claim on the same node restores every counter |
| Hierarchy.UpdateAllAlike | src/v09.cpp:67-79 | hierarchies equal up to caches stay so under the same updates |
| Hierarchy.ReleaseAllUndoesClaimAll | src/v09.cpp:258-274 | releasing a VM's nodes after claiming them restores every counter of every level |
| Hierarchy.PMUpdateBalanced | src/v09.cpp:258-260 | a claim on a node and its PM keeps the PM equal to the sum of its nodes |
| Hierarchy.RackUpdateBalanced | src/v09.cpp:258-261 | the same for a rack and its PMs |
| Hierarchy.DomainUpdateBalanced | src/v09.cpp:258-262 | the same for a domain and its racks |
| Hierarchy.UpdateBalanced | src/v09.cpp:258-263 | a claim or release on one node keeps every level equal to the sum of its children |
| Hierarchy.UpdateAllBalanced | src/v09.cpp:258-274 | the same over all of a VM's nodes |
| Hierarchy.BumpBalanced | src/v09.cpp:265-276 | changing a group count leaves the resource sums balanced |
| Hierarchy.UpdateCounts | src/v09.cpp:258-263 | claims and releases leave the per-group counts alone |
| Hierarchy.BumpCounts | src/v09.cpp:265-276 | a bump changes exactly one count, the group's on the first node's PM, by the given amount |
| Hierarchy.BumpUpdateAllCommute | src/v09.cpp:258-265 | the count bump and the resource updates commute |
| Hierarchy.BumpUndone | src/v09.cpp:265-276 | bumping a count and bumping it back restores the hierarchy |
| Hierarchy.UpdateAllResAt | src/v09.cpp:258-263 | after a run of updates each level's counter moves by the demand times the number of updated nodes inside it |
| Hierarchy.BumpResAt | src/v09.cpp:265-276 | a count bump leaves every level's resources alone |
| Hierarchy.Place | src/v09.cpp:255-266 | `place` records the nodes, so the VM is placed, and keeps the hierarchy's shape |
| Hierarchy.Unplace | src/v09.cpp:268-283 | `unplace` clears the nodes, so the VM is no longer placed, and keeps the hierarchy's shape |
| Hierarchy.PlaceClaims | src/v09.cpp:255-263 | placing takes the demand from each node, PM, rack and domain once per chosen node inside it |
| Hierarchy.PlaceKeeps | src/v09.cpp:255-266 | placing raises exactly the group's count on the first node's PM by one and keeps the hierarchy balanced and its counts canonical |
| Hierarchy.UnplaceReleases | src/v09.cpp:268-274 | unplacing gives back the demand once per node the VM held |
| Hierarchy.UnplaceKeeps | src/v09.cpp:268-279 | unplacing lowers exactly that count by one and keeps the hierarchy balanced and its counts canonical |
| Hierarchy.UnplaceUndoesPlace | src/v09.cpp:255-279 | `unplace` after `place` restores every counter and group count of the hierarchy, and the VM is unplaced again |
| TypeFit.NodeFitCounts | src/v09.cpp:116-118 | a node's fit is the largest number of copies of the type its available resources can take |
| TypeFit.SortAscSpec | src/v09.cpp:147 | sorting keeps the elements and puts them in ascending order |
| TypeFit.SortAscUnique | src/v09.cpp:147 | any ascending permutation of the fits is the sorted one |
| TypeFit.StrideOne | src/v09.cpp:149-152 | with one node per VM every node's fit is counted |
| TypeFit.StrideWhole | src/v09.cpp:149-152 | when a VM needs every node, the PM's fit is its smallest node fit |
| TypeFit.StrideBound | src/v09.cpp:149-152 | `type.nodes` times the PM fit is at most the sum of its node fits |
| TypeFit.FreshNodes | src/v09.cpp:142-145 | the node fits of a PM are each node's own fit |
| TypeFit.NodeFitSpec | src/v09.cpp:96-118 | a node asked for its fit through the cache answers what a fresh computation gives, and its cache stays coherent |
| TypeFit.NodeFitsSpec | src/v09.cpp:142-145 | the same for all of a PM's nodes |
| TypeFit.PMFitSpec | src/v09.cpp:141-155 | a PM's fit through its cache is every `type.nodes`-th entry of its sorted node fits, and all caches below stay coherent |
| TypeFit.PMFitsSpec | src/v09.cpp:178-180 | the same for all of a rack's PMs |
| TypeFit.RackFitSpec | src/v09.cpp:175-183 | a rack's fit through its cache is the sum of its PMs' fresh fits |
| TypeFit.RackFitsSpec | src/v09.cpp:204-206 | the same for all of a domain's racks |
| TypeFit.DomainFitSpec | src/v09.cpp:201-209 | a domain's fit through its cache is the sum of its racks' fresh fits |
| FitCache.ApplyClears | src/v09.cpp:71-78 | every claim or release clears the level's fit cache |
| FitCache.UpdateCoherent | src/v09.cpp:258-263 | a claim or release keeps every cache in the hierarchy coherent |
| FitCache.UpdateAllCoherent | src/v09.cpp:258-274 | the same over all of a VM's nodes |
| FitCache.RackBumpFresh | src/v09.cpp:265 | a group-count change leaves a rack's fit as it was |
| FitCache.BumpCoherent | src/v09.cpp:265-276 | a group-count change keeps every cache coherent without clearing any |
| FitCache.PlaceCoherent | src/v09.cpp:255-266 | `place` never leaves a stale fit behind |
| FitCache.UnplaceCoherent | src/v09.cpp:268-279 | `unplace` never leaves a stale fit behind |
| FitCache.NewDomainsCoherent | src/v09.cpp:360-377 | a fresh hierarchy has nothing cached |
| Targets.NewPG | src/v09.cpp:219-240 | a new group has no VMs and no targets, and every rule is still possible |
| Targets.AddRack | src/v09.cpp:320 | inserting a rack under a partition keeps all earlier racks and adds the new one |
| Targets.UpdateTargets | src/v09.cpp:286-332 | `updateTargets` changes nothing but the derived targets |
| Targets.FollowAllOff | src/v09.cpp:303-311 | a rule that is `NONE` never gets a target and stays possible |
| Targets.FollowAllOn | src/v09.cpp:303-317 | an active rule targets the place of the first placed VM, has no target exactly when no VM is placed, and stays possible exactly when all placed VMs agree |
| Targets.ScanParts | src/v09.cpp:286-322 | the loop tracks the domain rule and the rack rule independently, and fills the partition map only when the group has partitions |
| Targets.CollectSpec | src/v09.cpp:319-321 | the partition map sends each partition to exactly the racks of its placed VMs |
| Targets.UpdateTargetsPossible | src/v09.cpp:286-332 | after the call, a broken soft affinity turns off all three flags; otherwise a rule stays possible exactly when it is `NONE` or its placed VMs agree, and machine anti-affinity is pursued exactly when its threshold is positive |
| Targets.UpdateTargetsTargets | src/v09.cpp:286-317 | the domain and rack targets are those of the first placed VM in the group's list, or none when the rule is off or nothing is placed |
| Targets.UpdateTargetsPartitions | src/v09.cpp:293-321 | `partitionRacks` maps each partition to the racks of its placed VMs when the group has partitions, and is empty otherwise |
| Targets.UpdateTargetsIdempotent | src/v09.cpp:286-332 | refreshing the targets a second time over the same VMs changes nothing |
| Solver.NewManager | src/v09.cpp:360-377 | a new manager has the configured domains and types and no groups or VMs |
| Solver.NormalPartitions | src/v09.cpp:384-386 | a partition count becomes 0 exactly when it is at most 1, and is kept otherwise |
| Solver.CreatePG | src/v09.cpp:379-390 | `emplace` adds the group when its index is new and leaves any existing group untouched |
| Solver.CreatePGSpec | src/v09.cpp:379-390 | a new group has the given rules, no VMs, and a partition count that is 0 exactly for a requested count of at most 1 |
| Solver.Enroll | src/v09.cpp:410-414 | enrolling adds the one VM and leaves the hierarchy alone |
| Solver.PlaceOne | src/v09.cpp:444 | placing one VM changes only that VM's nodes in the VM table and keeps the hierarchy's shape |
| Solver.CreateVMs | src/v09.cpp:392-455 | the call fails exactly for an unknown type or group; it places the batch exactly when the search found a placement; otherwise it prints just `-1`, and when placed it prints one line per VM |
| Solver.Refresh | src/v09.cpp:453 | refreshing a group's targets changes nothing else in the manager |
| Solver.DeleteVM | src/v09.cpp:458-463 | deleting fails for an unknown or unplaced VM and otherwise forgets exactly that VM, keeping every VM's nodes valid |
| Solver.DeleteVMs | src/v09.cpp:457-464 | a missing first index aborts the request; a successful one keeps the types and every VM wired to the hierarchy |
| Solver.DeleteVMsTable | src/v09.cpp:457-464 | a successful `deleteVMs` forgets exactly the given VMs |
| Solver.LineOfIndexed | src/v09.cpp:446-449 | in a numbered hierarchy each printed index is the 1-based position |
| Solver.NewManagerInvariant | src/v09.cpp:360-377 | a new manager satisfies the invariant: balanced sums, canonical counts, coherent caches, a numbered hierarchy, consistent lists and normalised partitions |
| Solver.CreatePGInvariant | src/v09.cpp:379-390 | creating a group keeps the invariant |
| Solver.RegisterVMs | src/v09.cpp:409-415 | each new VM gets the type, the group and partition `partition` if non-negative, else position + 1; no earlier VM changes |
| Solver.RegisterKeys | src/v09.cpp:409-415 | registering adds exactly the batch's indices |
| Solver.RegisterPGs | src/v09.cpp:413 | registering appends the batch, in order, to its group's list and touches no other group |
| Solver.RegisterInvariant | src/v09.cpp:409-415 | registering a batch of new indices keeps the invariant |
| Solver.PlaceOneInvariant | src/v09.cpp:444 | placing one VM on existing nodes keeps the invariant |
| Solver.PlaceBatchInvariant | src/v09.cpp:440-451 | the placing loop keeps the invariant |
| Solver.PlaceBatchOthers | src/v09.cpp:440-451 | the placing loop leaves every VM outside the batch alone |
| Solver.PlaceBatchVMs | src/v09.cpp:440-444 | each VM of the batch ends up on the nodes chosen for it |
| Solver.PlaceBatchOut | src/v09.cpp:446-450 | the loop prints, for each VM in batch order, the 1-based positions of its first node's domain, rack and PM and of each of its nodes |
| Solver.EnlistTable | src/v09.cpp:403-415 | the batch's VMs take partition 0 in a group without partitions; otherwise they take the requested partition, or position + 1 when it is negative |
| Solver.CreateVMsTable | src/v09.cpp:403-451 | `createVMs` adds exactly the batch's VMs with their type, group and partition, on the chosen nodes or unplaced after a decline; no earlier VM changes |
| Solver.CreateVMsLists | src/v09.cpp:413-453 | the group's list gains the batch in order, even when the batch is declined |
| Solver.CreateVMsOutput | src/v09.cpp:440-451 | a placed batch prints for each VM the 1-based positions of its chosen nodes |
| Solver.RefreshInvariant | src/v09.cpp:453 | refreshing targets keeps the invariant |
| Solver.CreateVMsInvariant | src/v09.cpp:392-455 | `createVMs` keeps the invariant, whether it places the batch or not |
| Solver.CreateVMsTargets | src/v09.cpp:440-453 | after a placed batch the group's targets are what `updateTargets` derives from its current VMs |
| Solver.DeleteVMInvariant | src/v09.cpp:458-463 | deleting one placed VM succeeds and keeps the invariant |
| Solver.DeleteVMsInvariant | src/v09.cpp:457-464 | `deleteVMs` keeps the invariant |
| Solver.CreateOne | src/v09.cpp:407-453 | creating a single VM is enrolling it, placing it on the chosen nodes, and refreshing its group |
| Solver.PlacedInvariant | src/v09.cpp:407-453 | enrolling, placing and refreshing a new VM keeps the invariant |
| Solver.DeleteUndoesCreateDomains | src/v09.cpp:255-279 | deleting a just-placed VM restores every counter and group count of the hierarchy |
| Solver.DeleteUndoesCreateTables | src/v09.cpp:410-462 | it also restores the VM table and every group list, apart from refreshed targets |
| Solver.CreateThenDelete | src/v09.cpp:392-464 | a single created and placed VM can be deleted, and that restores the hierarchy up to caches, the VM table, the types and the set of groups |

## Left out

- Process and stream plumbing of the judge, echoing to the contestant, parsing of text lines, argv handling and reading the baseline are left out. Requests and responses are sequences of integer token lists. The `-1` decline is compared as a parsed single token, where the judge compares the stripped line text.
- JudgeScore.Score: the 3-decimal `× 1000` printing is not modelled, because it is float output. The score is a `real`, and nothing else about the printed text is claimed.
- The judge does not check that a released VM is live. A VM released twice has its resources given back twice; the model does the same, and no lemma claims otherwise.
- Input the judge cannot interpret (an unknown request type, a missing line, a bad type index) ends the run with a `BadInput`-style violation, in place of a Python exception.
- Solver.CreateVMs: the v09 search is left out. This covers `getRackGroups2`, `getBestPlacement`, `tryPlace`, the penalties and `getLoad`, which are heuristic floating-point orderings. The search's answer is a parameter: the nodes chosen for each VM, or none.
  - The tentative placements the search makes and undoes with `unplaceVMs` are not modelled. Their net effect is that the batch stays unplaced.
  - Type-fit cache contents left behind by the search may differ from the model's, which are always coherent.
- Solver.CreateVMs: the 14-second `std::chrono` timeout is left out, because it depends on the clock.
- FirstFit.CreateVMs, Solver.CreateVMs: both require new, distinct VM indices. `emplace` of an existing index is a no-op in the source, followed by a second push of the old VM; the problem never sends that.
- Solver.CreateVMs: a type index out of range is an error (`types.at` throws). FirstFit.CreateVMs requires an in-range type index, because `types[typeIndex - 1]` there is unchecked indexing.
- Solver.DeleteVM: deleting a VM that was never placed reads `nodes[0]` of an empty vector in the source, which is undefined behaviour. The model reports `NotPlaced` instead.
- Solver.DeleteVMs: only the first missing index is pinned to an error. After a deletion, the group's targets are not refreshed, as in the source.
- `unordered_map` iteration order, logging, and `std::cerr` output are left out. Group counts (`vmsByPG`) that fall to zero are dropped from the map, which no read can tell apart.
- All integers are unbounded. The source's 32-bit `int` overflow is not modelled, because sizes and capacities in the problem stay far below it.
- FirstFit.NewRack, FirstFit.NewDomain and FirstFit.NewDomains build an empty level for a negative count. The source calls `reserve` with the negative `int` first, which converts to a huge `size_t` and throws `std::length_error`; the problem never gives negative counts.
- Hierarchy.NewRack, Hierarchy.NewDomain and Hierarchy.NewDomains behave the same way for negative counts, where v09's `reserve` throws likewise.
- FirstFit.RackSupports: a VM of a zero-node type left placed by a declined batch has no first node, so the source's `rackSupportsVM` reads `nodes[0]` of an empty vector, which is undefined behaviour. The model reads the domain and rack recorded for the VM instead.
- Hierarchy.NewPMBalanced and its rack and domain companions require equally many CPU and memory entries and non-negative counts, because otherwise the constructor's sums and `noPMs * sum` totals disagree with the children.
- TypeFit: fit caches are keyed by the type's index, as `typeFits` is. Types whose CPU or memory is zero are not measured, because the source divides by them. Negative demands are measured, with C++'s truncating division. Types of fewer than one node are not measured either: with `type.nodes == 0` the stride loop `i += type.nodes` never ends, and with a negative stride it indexes before the vector.
- Targets: `Members` skips indices with no VM, which never occur in a list that satisfies the invariant.
- src/v03.cpp and src/v07.cpp are not part of this model: their integer bookkeeping matches v09's, and they differ only in floating-point heuristics. results/run.py and scripts/run.py are orchestration and are not part of this model either.
