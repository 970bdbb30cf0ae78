# Verified model of the node IPAM allocator

This project models, in Dafny, how the Talos cloud controller manager hands pod address blocks to
nodes, and proves what that allocator promises. `dafny verify dfyconfig.toml` checks all of it.

The model follows the program's four layers.

* **CIDR set** (`Bits`, `Prefixes`, `AddressClasses`, `Geometry`, `SetState`, `CidrSet`). A cluster prefix is cut
  into equal blocks; a bitmap, a redundant counter and a round-robin cursor record which are in use.
  `Geometry` follows the word-level code (truncating shifts, OR-ing two 64-bit halves, XOR and
  shift) and proves it equal to multiplication and division. `SetState` describes the set as a
  queue of free blocks read cyclically from the cursor; the class `CidrSet` is proved to implement it.
* **Range allocator** (`RangeSpec`, `RangeAllocator`, `RangeProtocol`, `RangeEffects`, `ProtocolLimits`). One set
  per cluster CIDR. The class gives each operation its contract. The step machine lets any number of
  workers, delete handlers and API server actions interleave, at the grain of single calls on a set,
  with cache reads that return anything; `SafeExactly` says for which environments it is safe.
* **Cloud allocator** (`CloudSpec`, `CloudOutcomes`, `CloudAllocator`, `ServiceFilter`, `MaskLadder`,
  `KeyGuard`, `NodeSelection`, `PodMarking`, `CloudProtocol`, `CloudSafety`, `CloudLimits`,
  `CloudEffects`, `CloudStart`). A growing map from prefix to set, searched in an order the language leaves open. The class picks keys
  nondeterministically, so its contracts hold for every enumeration order. `KeyGuard` says when the
  keys of the map stay disjoint, `NodeSelection` and `PodMarking` what choosing a prefix for a node
  leads to. The step machine `CloudProtocol` has the cluster CIDRs, workers that reserve along them
  and patch complete lists, delete handlers and server actions; sets are added only by choosing a
  prefix. `CloudSafety` and `CloudLimits` say when live pod CIDRs stay disjoint, and `CloudStart` ties
  its start to the constructor.
* **Prefix discovery** (`Discovery`). Which of a node's interface prefixes feed the cloud allocator.

Addresses are natural numbers below 2^32 or 2^128; a masked prefix is an aligned base and a length
(section 3.1 of RFC 4632, section 2.3 of RFC 4291). The bitmap is the set of positions of its one
bits. A cover is the set of block indices whose block shares an address with a prefix.

## Results that differ from the obvious reading

* **Lost acknowledgements.** The comment at `pkg/nodeipam/ipam/range_allocator.go:430` keeps blocks
  after a server timeout, in case the patch went through. `PatchNodeCIDRs` formats the API error into
  a new one (`pkg/utils/node/node.go:93`), so the test at line 433 never recognises a timeout and the
  blocks are always released. `LostAckRun` is a run in which two nodes end up with the same block.
* **Deletion timestamps.** `syncNode` releases a node that is still served
  (`pkg/nodeipam/ipam/range_allocator.go:272`). `FinalizerRun` ends with two nodes on one block.
  `SafeExactly`: all runs of an environment are safe if and only if that environment allows neither.
  A single run may lose an acknowledgement and still end safely; the statement is about what can
  happen, not about each run.
* **2^32 blocks.** For an IPv4 /0 cut into /32 blocks the count does not fit the 32-bit word it is
  compared in (`pkg/nodeipam/ipam/cidrset/cidr_set.go:274`), and every CIDR longer than the cluster
  is refused. Such a set is called `Wide`; `IndicesExact` and `FoundSetAccepts` give the exact condition.
* **Pod capacity.** `addCIDRSet` promises an error when the pod subnet cannot take `maxPods` pods.
  `PodsFitPerPrefix`: for a given prefix that holds if and only if it is longer than /117 or the pods
  fit the room its length leaves. `PodsFitExactly`: it holds of every public prefix if and only if
  `maxPods` is at most 510; 2000::1/117 is the failing one above that.
* **Cloud service filter.** Only one set is filtered, the first one enumerated that contains the
  first address of the service range. `ServiceFilterExact`: all blocks that meet the range are marked
  for every order if and only if each set has them marked already, or it alone contains that address
  and does not refuse the range. `ServiceFilterExample` starts outside the tracked prefix;
  `ServiceFilterOverlap` has two tracked prefixes around the start of the range.
* **Overlapping keys.** Before sets are added, the guard at
  `pkg/nodeipam/ipam/cloud_allocator.go:630` looks for a tracked public prefix that contains the
  network address of a discovered one. `GuardedKeysDisjoint`: past the guard the keys stay disjoint
  if and only if no tracked key escapes it for a prefix before the first refused one, and there are
  three ways to escape. The key lies inside the new one (`InnerKeyEscapes`). The discovered prefix is
  shorter than /64 and the key, longer than it but shorter than /64, contains the host address but
  not the network address, so the /64 that is added lies inside the key (`OuterKeyEscapes`). The key
  is shorter than /7 and passed over as private (`PrivateKeyEscapes`). Results on enumeration order take disjoint keys as a hypothesis.
* **A node's own addresses.** The comment at `pkg/nodeipam/ipam/cloud_allocator.go:360` promises that
  a node is never given a block around one of its own addresses. Over all states whose keys are
  disjoint: for the public addresses that the node reports this holds if and only if discovery found a
  prefix (`OwnAddressesExactly`); for the addresses of the discovered prefixes it holds if and only if
  the node reports a public IPv6 address (`OwnHostsExactly`), because discovery is not filtered
  otherwise and nothing is reserved. Both are about a selection and the reservation that follows it
  with nothing in between. Over runs, `OwnAddressOverRuns`: an address is never handed out if, when it
  was reserved, no holder's pod CIDR met its block; a worker that had reserved that block before may
  return it. `OwnInterfaceExample` is a node that reports 10.0.0.1 only and is
  given the block around its interface address 2000::1.
* **Unmarked pod CIDRs.** The comment at `pkg/nodeipam/ipam/cloud_allocator.go:317` promises that a
  node's pod CIDRs are marked. If no set contains one, sets are added for the node, but the pod CIDR is
  not tried again. `PodMarkedExactly`: on success it is marked if and only if a set contained it
  before, or a set added for the node contains it and each of its blocks there holds an address of the
  node. `RestartExample`: with no set tracked, 2000:0:0:0:1::/80 of a live node on 2000::1/64 stays
  free and is handed to the next node.
* **Live nodes of the cloud allocator.** A plan says from which sets a reservation is served: each
  cluster CIDR from its own set, or the IPv6 ones from the set of a node's prefix, which is tracked
  and can serve some node, or can be added. It is feasible if each of its sets has a block that is
  free or that some holder can free. `UnreachedExactly`: live pod CIDRs stay disjoint over all runs
  if and only if no set of a feasible plan exposes one, that is, has a block that the pod CIDR meets
  and that is free or freed by another. `MarkedExactly` says the same in terms of marking: each pod
  CIDR is marked, or no set of a feasible plan meets it. `DisjointExactly` adds lost acknowledgements
  and deletion timestamps, which this allocator has in common with the other one (lines 300 and 538).
  These take at most one cluster CIDR of each family, as the comment at line 86 asks of the caller, no
  set of 2^32 blocks, and that no node alone holds all the room left in a set (`NoLastRoom`). Without
  the last condition the two halves are `UnreachedIsSafe` and `ReachedBreaks`, which asks for room
  beside the node in question.
* **Same network twice.** Discovery keeps two addresses of one network (`SameNetworkExample`);
  `KeptDisjointExactly` says when the kept prefixes are disjoint.

## Assumptions of the run theorems

New nodes have no pod CIDRs; the server refuses to change a non-empty pod CIDR list; a delete event
carries the node's last pod CIDRs and is handled once; the pod CIDRs of the nodes listed at start-up
and the service ranges cover different blocks. Workers may see any cached value, at any time. The
cloud allocator's step machine makes the same assumptions and takes runs in which the keys of the map
stay disjoint, which `DefinedKeysDisjoint` decides. Its runs start with nothing in flight, live pod
CIDRs that share no address, and those of one node on different blocks.

## Model

| member | source | states |
|---|---|---|
| Prefixes.ContainsIsCovers | pkg/nodeipam/ipam/cidrset/cidr_set.go:192 | masking an address and comparing it with the base decides address membership, for every prefix and address |
| Geometry.HalvesLeft | pkg/nodeipam/ipam/cidrset/cidr_set.go:124-126 | the two-halves construction equals base + i * 2^(2h-n) when the node mask ends in the left word, for any word size h |
| Geometry.HalvesStraddle | pkg/nodeipam/ipam/cidrset/cidr_set.go:127-141 | the same for blocks that straddle the word boundary: the bits shifted out on the right are exactly those OR-ed in on the left |
| Geometry.HalvesRight | pkg/nodeipam/ipam/cidrset/cidr_set.go:136-141 | the same when cluster and node mask both end in the right word |
| Geometry.IndexToCIDRBlockCorrect | pkg/nodeipam/ipam/cidrset/cidr_set.go:103-148 | in both families the word-level block address is cluster base plus index times block size |
| Geometry.BlocksPartitionCluster | pkg/nodeipam/ipam/cidrset/cidr_set.go:103-148 | an address is in the cluster if and only if it is in some block, and then in exactly one, the one subtract-and-divide names |
| Geometry.IndexForIPCorrect | pkg/nodeipam/ipam/cidrset/cidr_set.go:271-291 | XOR-and-shift equals subtract-and-divide for every cluster address; a set of 2^32 blocks refuses every address |
| Geometry.IndexRoundTrip | pkg/nodeipam/ipam/cidrset/cidr_set.go:103-148 | the index of a block's first address is the block's index |
| Geometry.AddressRoundTrip | pkg/nodeipam/ipam/cidrset/cidr_set.go:271-291 | the block at an address's masked index contains the address |
| Geometry.LastAddrCorrect | pkg/nodeipam/ipam/cidrset/cidr_set.go:206-217 | OR-ing the inverted mask, half by half for IPv6, gives the last address of the prefix |
| Geometry.OutOfClusterIsDisjoint | pkg/nodeipam/ipam/cidrset/cidr_set.go:192-194 | the two containment tests fail together exactly when CIDR and cluster share no address |
| Geometry.IndicesExact | pkg/nodeipam/ipam/cidrset/cidr_set.go:183-224 | the returned range is exactly the set of blocks that meet the CIDR; an error is returned exactly for a nil CIDR, a disjoint one, or on 2^32 blocks one longer than the cluster |
| Geometry.DisjointCovers | pkg/nodeipam/ipam/cidrset/cidr_set.go:183-224 | CIDRs that meet the cluster in disjoint sets of blocks share no address |
| SetState.QueueListsFree | pkg/nodeipam/ipam/cidrset/cidr_set.go:156-181 | the cyclic queue lists every free block once, so its length is the block count minus the used count |
| SetState.ScanFindsFirstFree | pkg/nodeipam/ipam/cidrset/cidr_set.go:160-170 | if the counter is not full, the bounded circular scan ends on a free block, the first from the cursor |
| SetState.AllocateDequeues | pkg/nodeipam/ipam/cidrset/cidr_set.go:156-181 | allocation removes the head of the queue and keeps the rest in order; it fails exactly when all blocks are used |
| SetState.Drain | pkg/nodeipam/ipam/cidrset/cidr_set.go:156-181 | k allocations in a row return the first k queue entries in cyclic order |
| SetState.DrainExactly | pkg/nodeipam/ipam/cidrset/cidr_set.go:156-181 | with f free blocks exactly f allocations succeed, return each free block, and the next one fails |
| SetState.ReleasedComesBackLast | pkg/nodeipam/ipam/cidrset/cidr_set.go:172 | a block handed out and released at once moves to the end of the queue |
| SetState.MarkingThinsQueue | pkg/nodeipam/ipam/cidrset/cidr_set.go:226-269 | marking a CIDR takes its blocks out of the queue and keeps the order of the others; freeing it puts them back into their places |
| SetState.KeptOverRuns | pkg/nodeipam/ipam/cidrset/cidr_set.go:226-269 | over every sequence of calls that releases none of them, used blocks stay used and are never handed out |
| SetState.FilterMarksRange | pkg/nodeipam/ipam/range_allocator.go:361-378 | whatever is in use before, all blocks that meet the range are marked after the filter if and only if they were before, or the set has fewer than 2^32 blocks, or the range is not longer than the cluster |
| SetState.FilteredNeverAllocated | pkg/nodeipam/ipam/range_allocator.go:104-114 | after the filter no later allocation shares an address with the range, over all sequences of calls that release none of its blocks |
| CidrSets.CidrSet.New | pkg/nodeipam/ipam/cidrset/cidr_set.go:78-101 | an empty set, refused exactly for an IPv6 node mask more than 16 bits longer than the cluster mask |
| CidrSets.CidrSet.AllocateNext | pkg/nodeipam/ipam/cidrset/cidr_set.go:156-181 | the scan takes the head of the free queue, returns its block, and keeps counter, bitmap and cursor consistent |
| CidrSets.CidrSet.Release | pkg/nodeipam/ipam/cidrset/cidr_set.go:227-246 | used becomes used minus the CIDR's cover, the counter follows, an error changes nothing |
| CidrSets.CidrSet.Occupy | pkg/nodeipam/ipam/cidrset/cidr_set.go:250-269 | used becomes used plus the CIDR's cover, the counter follows, an error changes nothing |
| RangeSpec.ReserveThenReturnIsNeutral | pkg/nodeipam/ipam/range_allocator.go:410-440 | giving a complete reservation back restores the used blocks of a set if and only if it has fewer than 2^32 blocks |
| RangeAllocators.RangeAllocator.New | pkg/nodeipam/ipam/range_allocator.go:72-131 | succeeds exactly when every set can be built and every listed pod CIDR is taken; then exactly the blocks of the service ranges and listed nodes are used |
| RangeAllocators.RangeAllocator.OccupyCIDRs | pkg/nodeipam/ipam/range_allocator.go:280-301 | each pod CIDR is marked in the set at its position, up to the first bad one, which alone makes it fail |
| RangeAllocators.RangeAllocator.ReleaseCIDR | pkg/nodeipam/ipam/range_allocator.go:333-357 | each pod CIDR is freed in the set at its position, up to the first bad one |
| RangeAllocators.RangeAllocator.FilterOutServiceRange | pkg/nodeipam/ipam/range_allocator.go:361-378 | the range is occupied in every set whose cluster it meets and in no other |
| RangeAllocators.RangeAllocator.Reserve | pkg/nodeipam/ipam/range_allocator.go:316-325 | one block from each set up to the first exhausted one; blocks reserved before the failure stay reserved |
| RangeAllocators.RangeAllocator.UpdateCIDRsAllocation | pkg/nodeipam/ipam/range_allocator.go:381-442 | node gone: an error, nothing changes; same list: done, nothing changes; another list: done, every block released; no list: done if one of three patches succeeds, else an error and every block released |
| RangeAllocators.RangeAllocator.AllocateOrOccupyCIDR | pkg/nodeipam/ipam/range_allocator.go:306-330 | marking for a node with pod CIDRs; else a partial reservation is kept and reported; a complete one is kept if the node is gone, has that list or is patched, and given back, which restores a set exactly if it has fewer than 2^32 blocks, if it has another list or no patch succeeds |
| RangeProtocol.NextKeepsInv | pkg/nodeipam/ipam/range_allocator.go:254-442 | every step keeps each owned block in use and with one owner, whatever the cache returns |
| RangeProtocol.ReserveKeepsInv | pkg/nodeipam/ipam/range_allocator.go:318-325 | a reservation takes a block that no node, process or service range owned |
| RangeProtocol.PatchKeepsInv | pkg/nodeipam/ipam/range_allocator.go:421-426 | an acknowledged patch moves ownership from the worker to the node |
| RangeProtocol.DeleteKeepsInv | pkg/nodeipam/ipam/range_allocator.go:146-153 | a deletion keeps each owned block in use and with one owner |
| RangeEffects.DeleteMovesOwnership | pkg/nodeipam/ipam/range_allocator.go:146-153 | after a deletion its handler owns exactly the blocks the node owned, and no set changed |
| RangeEffects.DeleteFrees | pkg/nodeipam/ipam/range_allocator.go:333-357 | once the handler has run, exactly the blocks of the node's pod CIDRs are free, up to the first that a set of 2^32 blocks refuses; the handler is gone, and every other owner has its blocks in use |
| RangeEffects.ReleaseRun | pkg/nodeipam/ipam/range_allocator.go:338-355 | a releasing process, run to its end, frees each pod CIDR in the set of its position: a handler up to the first refused one, the return of a reservation all of them |
| RangeEffects.SyncMarks | pkg/nodeipam/ipam/range_allocator.go:280-301 | a worker that reads a node with pod CIDRs marks each in the set of its position up to the first refused one, and changes nothing else |
| RangeEffects.ReserveRun | pkg/nodeipam/ipam/range_allocator.go:316-325 | a worker takes one block from each set, or ends at the first exhausted one, and what it took stays in use |
| RangeEffects.DecisionMeans | pkg/nodeipam/ipam/range_allocator.go:381-419 | node gone or same list: the worker ends; another list: it releases its blocks; no list: it patches |
| RangeProtocol.ReleaseKeepsInv | pkg/nodeipam/ipam/range_allocator.go:338-355 | a release frees only blocks that nobody else owns |
| RangeProtocol.InitInv | pkg/nodeipam/ipam/range_allocator.go:104-131 | if nodes and service ranges touch different blocks, the state the constructor leaves has every owned block in use with one owner |
| RangeProtocol.RunsAreSafe | pkg/nodeipam/ipam/range_allocator.go:254-442 | in every reachable state pod CIDRs of distinct nodes share no address, share none with a filtered service range, and are marked used |
| RangeProtocol.RunsAreDisjoint | pkg/nodeipam/ipam/range_allocator.go:254-442 | with disjoint cluster CIDRs, no address is ever in two pod CIDRs, of one node or of two, at equal or different positions |
| ProtocolLimits.LostAckRun | pkg/nodeipam/ipam/range_allocator.go:421-440 | a run in which an applied patch reported as a timeout ends with two nodes on one block |
| ProtocolLimits.FinalizerRun | pkg/nodeipam/ipam/range_allocator.go:272-275 | a run in which a node with a deletion timestamp is released ends with two nodes on one block |
| ProtocolLimits.SafeExactly | pkg/nodeipam/ipam/range_allocator.go:254-442 | all runs of all configurations are safe if and only if acknowledgements are not lost and nodes under deletion are not served |
| CloudSpec.FoundIsAt | pkg/nodeipam/ipam/cloud_allocator.go:345-358 | with disjoint keys, acting on the set that was found is the order-free operation on the map |
| CloudSpec.FoundSetAccepts | pkg/nodeipam/ipam/cloud_allocator.go:348-351 | once a key contains the first address its set cannot refuse the CIDR, except exactly on 2^32 blocks |
| CloudSpec.ReserveMarksGiven | pkg/nodeipam/ipam/cloud_allocator.go:402-422 | a reservation marks exactly the blocks it hands out, in every set, and they were free |
| CloudSpec.ReserveThenReturnIsNeutral | pkg/nodeipam/ipam/cloud_allocator.go:511-547 | with disjoint keys, giving a reservation back restores the used blocks of every set |
| CloudSpec.ProtectedNeverAllocated | pkg/nodeipam/ipam/cloud_allocator.go:360-380 | a reserved node address is in no block handed out later from any set, over all sequences of calls that keep keys disjoint and release no CIDR that meets its block |
| CloudSpec.NeverHandedOutTwice | pkg/nodeipam/ipam/cloud_allocator.go:402-422 | over every sequence of calls that keeps keys disjoint, a block handed out shares no address with an earlier one unless a release that meets the earlier one came between |
| CloudSpec.OwnAddressNeverGiven | pkg/nodeipam/ipam/cloud_allocator.go:360-362 | once a node's addresses are reserved, no block of a reservation contains one of them |
| ServiceFilter.ServiceFilterExact | pkg/nodeipam/ipam/cloud_allocator.go:463-475 | whatever is in use, all blocks that meet the service range are marked for every enumeration order if and only if each set has them marked already, or it alone contains the first address and does not refuse the range |
| ServiceFilter.ServiceFilterSuffices | pkg/nodeipam/ipam/cloud_allocator.go:132-142 | whatever is in use, it is enough that every key that meets the range is the only one that contains its first address; on unused sets that is also necessary; with disjoint keys containing it is enough |
| ServiceFilter.ServiceFilterExample | pkg/nodeipam/ipam/cloud_allocator.go:465-475 | a service range around a tracked prefix that starts outside it leaves that prefix's blocks free |
| ServiceFilter.ServiceFilterOverlap | pkg/nodeipam/ipam/cloud_allocator.go:347-354 | with 0.0.0.0/8 and 0.0.0.0/16 tracked, the range 0.0.0.0/20 stays free in one of them |
| CloudAllocators.CloudAllocator.FilterOutServiceRange | pkg/nodeipam/ipam/cloud_allocator.go:465-475 | some set around the first address is occupied, for every enumeration order; all blocks that meet the range end up marked under the condition of ServiceFilterExact |
| CloudAllocators.CloudAllocator.New | pkg/nodeipam/ipam/cloud_allocator.go:106-116 | one unused set per cluster CIDR at the key that is that CIDR, a repeated one with its last mask; fails exactly when one cannot be built |
| CloudAllocators.CloudAllocator.OccupyCIDR | pkg/nodeipam/ipam/cloud_allocator.go:345-358 | for every enumeration order some set whose key contains the first address marks the blocks that meet the CIDR, or refuses it exactly if it has 2^32 blocks and a shorter key; with disjoint keys all orders agree |
| CloudAllocators.CloudAllocator.ReleaseCIDRs | pkg/nodeipam/ipam/cloud_allocator.go:441-461 | for every enumeration order each CIDR is freed in some set around its first address, up to the first missing or refused one; with disjoint keys all orders free the same blocks |
| CloudAllocators.CloudAllocator.Reserve | pkg/nodeipam/ipam/cloud_allocator.go:402-422 | for every enumeration order each address gets the first free block of some set around it, none if there is no set, up to one that is exhausted; with disjoint keys all orders agree |
| CloudAllocators.CloudAllocator.UpdateCIDRsAllocation | pkg/nodeipam/ipam/cloud_allocator.go:478-550 | node gone: an error, nothing changes; same list: done, nothing changes; another list: done, every block goes back; no list: done if one of three patches succeeds, else an error and every block goes back |
| CloudAllocators.CloudAllocator.AllocateCIDRs | pkg/nodeipam/ipam/cloud_allocator.go:402-427 | a reservation that ends at an exhausted set is an error and stays; a complete one is proposed and assigned or given back by the same four cases; with disjoint keys one that is given back leaves used blocks and counter of every set as they were |
| CloudAllocators.CloudAllocator.AllocateOrOccupyCIDR | pkg/nodeipam/ipam/cloud_allocator.go:385-428 | the whole path: pod CIDRs are marked, more than two are ignored; else a prefix is chosen, blocks are reserved, and a complete list is assigned or given back by the same four cases; with discovered prefixes and keys that stay disjoint no proposed block contains a public address that the node reports, and if it reports one, none contains a discovered address |
| CloudAllocators.CloudAllocator.AddCIDRSet | pkg/nodeipam/ipam/cloud_allocator.go:675-724 | the new key contains the host address and is its set's cluster CIDR; an existing set is kept; an error changes nothing |
| CloudAllocators.CloudAllocator.OccupyNodeIPs | pkg/nodeipam/ipam/cloud_allocator.go:363-380 | every public IPv6 address of the node that a set contains is reserved afterwards, no other block is marked, and it never fails |
| CloudAllocators.CloudAllocator.OccupyPodCIDR | pkg/nodeipam/ipam/cloud_allocator.go:323-340 | on success with disjoint keys the pod CIDR is marked if and only if a set contained it before, or the node's own addresses fill its blocks in a set that is added |
| CloudAllocators.CloudAllocator.OccupyPodCIDRs | pkg/nodeipam/ipam/cloud_allocator.go:318-343 | each pod CIDR in turn up to the first failure; on success every one that a set contained at first has all its blocks marked; more than two are ignored; no set loses a used block |
| CloudAllocators.CloudAllocator.AddCIDRSets | pkg/nodeipam/ipam/cloud_allocator.go:648-660 | a set for every prefix but single addresses, up to the first that is refused, which alone makes it fail |
| CloudAllocators.CloudAllocator.DefineNodeGlobalCIDRs | pkg/nodeipam/ipam/cloud_allocator.go:578-670 | a node without addresses is refused; nothing without discovered prefixes; a tracked prefix that serves is chosen for every enumeration order and no set is added; else exactly the sets of the prefixes are added; on success the node's addresses, and nothing else, are occupied |
| NodeSelection.PodCountDecides | pkg/nodeipam/ipam/cloud_allocator.go:556-575 | a node with one discovered prefix of /118 to /123 that nothing serves gets its set if and only if its pods fit: the allocatable ones if positive, whatever the capacity, else the capacity if positive, else 110 |
| KeyGuard.AddAllKeys | pkg/nodeipam/ipam/cloud_allocator.go:648-660 | if no prefix is refused exactly their keys are added, and the tracked sets stay as they are |
| KeyGuard.NewKeysApart | pkg/nodeipam/ipam/cloud_allocator.go:683-688 | the keys asked for by a discovered list are pairwise equal or disjoint |
| KeyGuard.AddedKeysDisjoint | pkg/nodeipam/ipam/cloud_allocator.go:648-660 | adding the sets of a discovered list, to the end or to the first refused prefix, keeps keys disjoint if and only if no tracked key clashes with a new one |
| KeyGuard.GuardLeavesEscapes | pkg/nodeipam/ipam/cloud_allocator.go:630-644 | past the guard a tracked key clashes with a new one if and only if it escapes in one of three ways |
| KeyGuard.GuardedKeysDisjoint | pkg/nodeipam/ipam/cloud_allocator.go:630-660 | past the guard keys stay disjoint, on success and on failure, if and only if no tracked key escapes it for a prefix before the first refused one |
| NodeSelection.DefinedKeysDisjoint | pkg/nodeipam/ipam/cloud_allocator.go:588-669 | over the whole set selection, on success and on failure, keys stay disjoint if and only if nothing was discovered, a tracked prefix served the node or none escapes the guard |
| NodeSelection.DefinedIsTracked | pkg/nodeipam/ipam/cloud_allocator.go:641-666 | the chosen prefix lies in a tracked set, unless none served and the first discovered one is a single address |
| KeyGuard.DiscoveryIsDiscovered | pkg/talosclient/client.go:242-298 | the discovery result meets the hypotheses of the results on keys |
| NodeSelection.OwnAddressesExactly | pkg/nodeipam/ipam/cloud_allocator.go:360-362 | from every state with disjoint keys no proposed block contains a public address that the node reports, if and only if discovery found a prefix or it reports none |
| NodeSelection.OwnHostsExactly | pkg/nodeipam/ipam/cloud_allocator.go:609-621 | from every state with disjoint keys no proposed block contains the address of a discovered prefix, if and only if the node reports a public IPv6 address |
| NodeSelection.OwnBlockGiven | pkg/nodeipam/ipam/cloud_allocator.go:621-669 | whatever the set around an own address, without discovered prefixes, or without reported public addresses, there is a cursor at which the block around it is proposed |
| PodMarking.OwnInterfaceExample | pkg/nodeipam/ipam/cloud_allocator.go:609-666 | a node that reports 10.0.0.1 and has 2000::1/64 is given 2000::/80 |
| PodMarking.PodMarkedExactly | pkg/nodeipam/ipam/cloud_allocator.go:317-340 | on success with disjoint keys a pod CIDR is marked if and only if a set contained its first address before, or no tracked prefix serves the node and in a set added for it every block that meets the pod CIDR holds a public address of the node |
| PodMarking.RestartExample | pkg/nodeipam/ipam/cloud_allocator.go:334-339 | with no set tracked, the pod CIDR 2000:0:0:0:1::/80 of a node on 2000::1/64 is not marked and is handed out next |
| CloudSafety.NextKeepsInv | pkg/nodeipam/ipam/cloud_allocator.go:280-550 | every step, in any interleaving, keeps what was in use for good in use, every pod CIDR one of the start or a block handed out since, and every block of a guarded set that a pod CIDR meets in use with nobody else to free it |
| CloudSafety.ReserveKeeps | pkg/nodeipam/ipam/cloud_allocator.go:408-421 | a reservation takes a block of a guarded set that no held pod CIDR meets; an exhausted set ends the worker |
| CloudSafety.ReleaseKeeps | pkg/nodeipam/ipam/cloud_allocator.go:441-461 | a release frees only blocks of a guarded set that no other held pod CIDR meets |
| CloudSafety.PatchKeeps | pkg/nodeipam/ipam/cloud_allocator.go:524-531 | a patch with blocks of guarded sets keeps live pod CIDRs disjoint |
| CloudSafety.CompleteInClass | pkg/nodeipam/ipam/cloud_allocator.go:402-427 | the blocks of a complete reservation come from the sets of one plan that was feasible at the start |
| CloudSafety.UnreachedIsSafe | pkg/nodeipam/ipam/cloud_allocator.go:280-550 | if no set of a feasible plan exposes a pod CIDR at the start, live pod CIDRs share no address in any reachable state |
| CloudSafety.RunsAreDisjoint | pkg/nodeipam/ipam/cloud_allocator.go:280-550 | from a start in which all pod CIDRs are marked, live ones share no address in any reachable state, and every block that a held one meets stays in use with nobody else to free it |
| CloudSafety.UnreachedIsMarked | pkg/nodeipam/ipam/cloud_allocator.go:317-343 | where pod CIDRs fit the sets, no set of a feasible plan exposes one if and only if each is marked or no such set meets it |
| CloudSafety.PermanentStays | pkg/nodeipam/ipam/cloud_allocator.go:280-550 | over every run of every environment, a block in use that no holder frees stays in use |
| CloudSafety.OwnAddressOverRuns | pkg/nodeipam/ipam/cloud_allocator.go:360-380 | an address whose block is in use and met by no held pod CIDR is in no block that any later reservation is given |
| CloudStart.ConstructedStart | pkg/nodeipam/ipam/cloud_allocator.go:132-160 | for listed nodes with at most two pod CIDRs, each inside a cluster CIDR and no two on one block, the constructor leaves a start at which all are marked, whatever the service ranges |
| CloudStart.ConstructedIsSafe | pkg/nodeipam/ipam/cloud_allocator.go:132-192 | ... so live pod CIDRs stay disjoint over all runs that follow |
| CloudAllocators.CloudAllocator.Construct | pkg/nodeipam/ipam/cloud_allocator.go:106-160 | the sets are built, the service ranges filtered and the listed nodes gone through in order; an error only if a set cannot be built or a node is refused after those before it, and never for an orderly list without sets of 2^32 blocks |
| CloudStart.OrderlyAccepted | pkg/nodeipam/ipam/cloud_allocator.go:144-160 | no node of an orderly list is refused for any enumeration order |
| CloudLimits.PlanStarts | pkg/nodeipam/ipam/cloud_allocator.go:578-670 | for every valid plan there is a node whose prefix makes the allocator reserve along it |
| CloudLimits.ReachedBreaks | pkg/nodeipam/ipam/cloud_allocator.go:402-531 | a live pod CIDR that a plan exposes, with room in its sets beside that node, has a run that gives one of its blocks to a second node |
| CloudLimits.UnreachedExactly | pkg/nodeipam/ipam/cloud_allocator.go:280-550 | live pod CIDRs stay disjoint over all runs if and only if no set of a feasible plan exposes one |
| CloudLimits.MarkedExactly | pkg/nodeipam/ipam/cloud_allocator.go:144-160 | where pod CIDRs fit the sets, live ones stay disjoint over all runs if and only if each is marked or no set of a feasible plan meets it |
| CloudLimits.OtherFamilyOut | pkg/nodeipam/ipam/cloud_allocator.go:402-406 | a pod CIDR of a family that no cluster CIDR has is met by no set of a feasible plan |
| CloudLimits.FullClusterOut | pkg/nodeipam/ipam/cloud_allocator.go:410-415 | an IPv4 cluster CIDR without room for good makes every plan infeasible, so live pod CIDRs stay disjoint, marked or not |
| CloudLimits.LostAckRun | pkg/nodeipam/ipam/cloud_allocator.go:526-547 | if some plan is feasible, an applied patch that is reported as failed leads to two nodes on one block |
| CloudLimits.FinalizerRun | pkg/nodeipam/ipam/cloud_allocator.go:300-304 | if some plan is feasible, releasing a node that is still served leads to two nodes on one block |
| CloudLimits.DisjointExactly | pkg/nodeipam/ipam/cloud_allocator.go:280-550 | if some plan is feasible, all runs are disjoint if and only if no set of a feasible plan exposes a pod CIDR, acknowledgements are not lost and nodes under deletion are not served |
| CloudEffects.DecisionMeans | pkg/nodeipam/ipam/cloud_allocator.go:482-531 | node gone or same list: the worker ends and its blocks stay; another list: it releases them; no list: it patches |
| CloudEffects.ReservationMeans | pkg/nodeipam/ipam/cloud_allocator.go:408-421 | no set around the address: the list is not whole; an exhausted one: the worker ends and what it took stays in use; else its first free block is taken |
| CloudEffects.ReleaseMeans | pkg/nodeipam/ipam/cloud_allocator.go:448-457 | a refused CIDR ends a delete handler and not the return of a reservation; else the blocks that meet the CIDR are freed in the set around it |
| CloudEffects.DeleteFrees | pkg/nodeipam/ipam/cloud_allocator.go:180-182 | once the handler has run, exactly the blocks that meet the node's pod CIDRs are freed, nobody else's holdings change, and no block of a guarded set that another meets is freed |
| CloudEffects.SyncMarks | pkg/nodeipam/ipam/cloud_allocator.go:390-392 | a worker that reads a node with a pod CIDR marks it under the condition of PodMarkedExactly |
| KeyGuard.InnerKeyEscapes | pkg/nodeipam/ipam/cloud_allocator.go:630-644 | a tracked 2000::1:0:0:0/80 does not stop 2000::/64 from being added, and the keys overlap |
| KeyGuard.OuterKeyEscapes | pkg/nodeipam/ipam/cloud_allocator.go:630-688 | for 2000:0:0:100::/48 a /64 is added inside a tracked 2000:0:0:100::/56, and the keys overlap |
| KeyGuard.PrivateKeyEscapes | pkg/nodeipam/ipam/cloud_allocator.go:631-633 | for fec0::/64 a set is added inside a tracked fc00::/6, which is passed over as private, and the keys overlap |
| MaskLadder.LadderSizes | pkg/nodeipam/ipam/cloud_allocator.go:681-716 | the key contains the host address, the node mask is 1 to 16 bits longer and at most /124, so the set is never refused, and there is room for min(maxPods, 510) pods |
| MaskLadder.PodsFitPerPrefix | pkg/nodeipam/ipam/cloud_allocator.go:683-708 | a prefix is refused or has room for maxPods pods if and only if it is longer than /117 or maxPods is within the room of its rung; up to 510 pods it always is |
| MaskLadder.TooManyPodsAccepted | pkg/nodeipam/ipam/cloud_allocator.go:700-701 | 2000::1/117 is accepted for any pod count above its 510 addresses |
| MaskLadder.PodsFitExactly | pkg/nodeipam/ipam/cloud_allocator.go:672-698 | every public prefix is refused or has room for maxPods pods if and only if maxPods is at most 510 |
| Discovery.NodeCIDRDiscovery | pkg/talosclient/client.go:239-301 | the IPv6 list is sorted by length and address and holds exactly the accepted prefixes that no strictly shorter accepted one contains |
| Discovery.AcceptedExactly | pkg/talosclient/client.go:242-267 | a prefix is accepted if and only if an interface carries it on a link that is not passed over, and its address is unspecified, loopback, multicast, link-local or private by none of the prefixes for these, and passes the filter |
| Discovery.ListedArePublic | pkg/talosclient/client.go:252 | no address of the result lies in a special or private prefix |
| Discovery.PassedOverLinks | pkg/talosclient/client.go:243-249 | interfaces on lo, kubespan, siderolink, cilium and dummy links change nothing |
| AddressClasses.GlobalUnicastExactly | pkg/talosclient/client.go:252 | the shift-and-compare test holds of an address if and only if none of ::/128, ::1/128, ff00::/8, fe80::/10, or for IPv4 0.0.0.0/32, 255.255.255.255/32, 127/8, 224/4, 169.254/16, contains it |
| AddressClasses.PrivateExactly | pkg/talosclient/client.go:252 | an address is private if and only if fc00::/7, or for IPv4 10/8, 172.16/12 or 192.168/16, contains it |
| Discovery.DropContained | pkg/talosclient/client.go:279-298 | the nested loop keeps exactly the prefixes no strictly shorter one of the list contains, in order |
| Discovery.OrderAndRepetitionIrrelevant | pkg/talosclient/client.go:242-277 | reordering or repeating interfaces gives the same list |
| Discovery.SortedListsAgree | pkg/talosclient/client.go:270-277 | two lists sorted by length and address with the same prefixes are equal |
| Discovery.InsideKept | pkg/talosclient/client.go:279-298 | every accepted prefix lies inside a kept one |
| Discovery.KeptCoversSame | pkg/talosclient/client.go:279-298 | kept and accepted prefixes cover the same addresses |
| Discovery.KeptNotNested | pkg/talosclient/client.go:279-298 | no kept prefix lies inside a strictly shorter kept one |
| Discovery.KeptDisjointExactly | pkg/talosclient/client.go:279-298 | kept prefixes are pairwise disjoint if and only if no two accepted addresses share a network that no larger accepted one contains |
| Discovery.SameNetworkExample | pkg/talosclient/client.go:279-298 | 2000::1/64 and 2000::2/64 are both kept |

## Left out

- Parsing and printing of CIDR text: the model starts from parsed prefixes, so the error returns for unparsable pod CIDRs of a node do not occur in it.
- IPv4-mapped IPv6 addresses and address zones are not part of the model.
- RangeProtocol.RunsAreSafe: compares pod CIDRs at the same position only; different positions need disjoint cluster CIDRs, as RangeProtocol.RunsAreDisjoint states.
- Which blocks leak: a dual-stack reservation that fails on the second set, or a node that vanishes from the cache, leaves blocks marked; the invariant is that owned blocks are used, not the converse.
- Discovery.SortPrefixes: an insertion sort stands for the library sort with the same comparison.
- CloudLimits.UnreachedExactly: asks that no node alone holds all the room left in a set; where one does, whether a run fails depends on the order in which its pod CIDRs are released, and only the two halves are stated.
- CloudLimits.MarkedExactly: asks the same.
- CloudLimits.DisjointExactly: asks the same.
- In the cloud allocator's step machine choosing a prefix is one step, under the lock that the code takes for it; a list with a missing entry is never accepted by the server.
- Discovery runs anew for each pod CIDR that no set contains; in the model both calls for a node see the same interfaces. Interfaces that no address could be asked for are no interfaces; failing to create a Talos client, or to parse an address, is an error before any set changes and is not in the model.
- `DeletedFinalStateUnknown` objects and unsynchronised access to the cloud allocator's map.
- Metrics, logging, events, queues, informers and Talos API calls: no effect on the properties, or parameters of the calls.
- CidrSets.CidrSet.New: requires a node mask at least as long as the cluster mask, as the comment at `pkg/nodeipam/ipam/cloud_allocator.go:84` asks of the caller; `pkg/nodeipam/node_ipam_controller.go:74` does not check it for the cloud allocator, where a shorter one gives a set of no blocks.
- CloudAllocators.CloudAllocator.New: requires the same of its masks, for the same reason.
- Certificate signing requests, node selector, transformer, node address helpers and option handling: short case analyses outside address allocation.
