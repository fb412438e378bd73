# Verified models of self-balancing search structures

The repository keeps ordered data in search trees that rebalance themselves, and builds a virtual-address
allocator on one of them. Five of its structures are modelled here, each with its operations proved
correct for all inputs:

* the free-area allocator in `vm/`, an augmented B+ tree whose keys move (modules `Words` to `Arrays`);
* the B-tree in `libtree/btree` (modules `BTree*`);
* the top-down splay tree with subtree maxima in `libtree/splaytree` (modules `Splay*`);
* AVL insertion in `libtree/avltree` (modules `Avl*`);
* the binary search tree with parent links in `libtree/bstree` (modules `Bs*`).

All models have the form of the program: nodes are objects with the fields of the C structures, each C
function is a method that updates them with the same branches in the same order, and what the heap holds
is described by a ghost map `m` from nodes to their stored fields and to what the proofs know besides. A
method is specified by what it does to that map, and everything else is proved about such maps.

## The free-area allocator

The allocator in `vm/` keeps the free ranges of an address space as the records of a B+ tree. The key
of a record is the start address of the range, and it changes while the record sits in its leaf: ranges
are clipped by allocations and grow when their neighbours are freed. Every internal node carries, per
child, the size of the largest free range below that child (`SUB_AVAIL`), which steers the search for
the lowest range that can serve a request. Position marks (`ppos`) left behind by each descent tell the
repair loops which way to climb.

A node is an object of class `Bpn` with the fields of `struct bpn`, and the tree root an object of class
`BptRoot`. The order of the tree is symbolic: all results hold for every order of at least 4. Addresses
are unsigned 64-bit words; where the C code can wrap around, the model computes modulo 2^64.

The map `m` is a ghost field of `BptRoot` and records three values that no field stores: the key interval
`[lo, hi)` the separators above assign to the node, and its height. `Linked` says that the heap agrees
with `m`.

* `Words`, `Node`, `Shape`: constants, objects, and the structural invariant `Struct`: intervals of
  children tile the interval of their parent, all leaves have height 0, parent links and the leaf list
  are exact, records lie inside the interval of their leaf in order and do not overlap. Separators may
  be stale (left keys < separator <= right keys).
* `Cutting`, `Merging`, `RootOps`, `LeafOps`: node surgery as functions on `m`. A shift between siblings
  is a merge followed by a cut elsewhere, so two operations cover split, merge and both shifts.
* `Avail`, `Tree`, `Augment`: the maxima, the two repair climbs and what `SUB_AVAIL` means.
* `Store`, `NodeSearch`, `SplitOps`, `MergeOps`, `ShiftOps`, `Keeps`, `Rebalance`, `Descend`, `Delete`,
  `Insert`, `LeafChange`, `Subavail`: the heap methods of the tree.
* `Space`: sets of address ranges without any tree, the specification of allocating and freeing, and
  whole runs.
* `Neighbours`, `LeafMerge`, `LeafCross`, `AreaMerge`: freeing, with coalescing inside a leaf and across
  leaves.
* `Fit`, `Search`, `Lookup`, `Decision`, `LinearScan`, `Alloc`, `Allocator`: searching, clipping, and the
  functions callers use. `Lookup.Exact` is the exact answer of the search, and `Decision` says what it
  means for the free ranges.
* `KeyLookup`, `Chain`, `Height`, `Arrays`: lookup by key, the leaf list, the height bound and the array
  helpers.

`Sound` is the invariant between any two operations: `Struct`, exact maxima, and occupancy bounds.
`Consistent` adds the areas that callers hold: together with the free ranges they share out the managed
space, and no separator lies strictly inside any of them. The results a reader should look at first are
`Allocator.AllocVmapArea`, `Allocator.FreeVmapArea`, `Space.RunConserves`, `AreaMerge.BptPoInsert`,
`Delete.BptPoDelete`, `Tree.FixupSound`, `Augment.SubAvailExact`, `Lookup.LookupSmallestVa` and
`LinearScan.IndexRefinesScan`.

One property fails as the code stands. `is_within_this_va` misjudges a range when rounding its start up
wraps past 2^64 to 0 and the search starts at address 0: `Fit.IsWithinWraps` gives such an input and
`Fit.IsWithinExact` the exact condition. The clipping step notices, so the caller is refused, correctly,
because no aligned block exists there (`Alloc.AddressInside`, `Alloc.RoomDecided`).

## The B-tree

`btree.c` keeps keys at every level, splits full nodes on the way down, and removes a key with a descent
that never enters a minimal node, a merge loop, and a recursion on the predecessor or successor. The
minimum degree is symbolic: all results hold for every degree of at least 2. `Sound` says that the key
intervals of children tile that of their parent around its keys, that all leaves have height 0, and that
every node below the root holds between t - 1 and 2t - 1 keys. `BTreeCut` has the two surgical steps
on values, `BTreeOps` the node operations on the heap (a move between siblings is a merge followed by a
cut elsewhere), `BTreeSteps` and `BTreeReplace` what a step does to the invariant, and `BTreeRemove` and
`BTreeInsert` the operations. `BTreeReplace.MoveKey` is the key to the recursion: after the predecessor has
been removed below, writing it over the key to be deleted only renames a bound that no other key notices,
although the code writes it before the recursive call. The result to look at first is `BTreeRemove.BtRemove`.

## The splay tree

`top_down_splay` takes the tree apart into a left, a middle and a right piece that hang off a sentinel, and
while it does, parent links and maxima are deliberately wrong. `SplayPieces.Pieces` states what is true
meanwhile. `SplayRotate` and `SplayLink` show that each step keeps it, `SplayAssemble` and `SplayJoin` that
the nine closing stores make one tree in which only the maxima along the two seams are wrong, and that the
two climbs repair these. Every node has a ghost position, its rank in the order of keys, and the range of
positions that its subtree takes up; splaying keeps all positions (`SameNodes`), so by
`SplayTree.SameTraversal` it keeps the in-order sequence. The results to look at first are
`SplaySplay.TopDownSplay`, `SplayInsert.SplayInsert` and `SplayRemove.SplayRemoveInit`.

## The AVL tree

The double rotations of `avl.c` do not update the parent links of the two grandchildren that move
(`AvlDouble.FoldRightParents` says exactly when all parent links stay right), so the invariant `TreeOk`
claims no parent link but the root's; the true parent is ghost. The descent repairs the links on its path,
and the climb and the rotation use no others. `Grown` and `Tilted` state what is true while the height change
travels up. The results to look at first are `AvlInsert.AvlInsert`, `AvlInsert.DoPivot` and
`AvlTree.HeightBound`.

## The binary search tree

Child and parent links agree exactly in `BsTree.TreeOk`. `BsRemove` covers all cases of the victim's
children, the successor being the victim's own right child, and the victim being the root, where the code
skips unlinking a successor without children. `BsInOrder` turns the result about key sets into one about
the in-order sequence. The result to look at first is `BsRemove.BstRemove`.

## Model

| member | source | states |
|---|---|---|
| `Words.SplitBounds` | vm/vm.h:37-44 | for every order of at least 4 a full node splits into two parts that are at least minimal and not full |
| `Shape.Nest` | vm/vm.c:386-404 | two nodes whose key intervals share a point nest, and at equal height are the same node, so a key has one path from the root |
| `Shape.UpEdge` | vm/vm.h:57-61 | every node but the root is listed by the node its parent link names, under the interval of that position |
| `Shape.KidsExactly` | vm/vm.h:74-75 | the children a node lists are exactly the nodes whose parent link points at it |
| `Cutting.CutStruct` | vm/vm.c:261-296 | splitting a node keeps intervals, heights, parent links, record order and the leaf list |
| `Cutting.CutRecords` | vm/vm.c:203-259 | a split neither loses nor invents a free range |
| `Merging.MergeStruct` | vm/vm.c:156-198 | merging two siblings keeps intervals, heights, parent links, record order and the leaf list |
| `Merging.MergeRecords` | vm/vm.c:156-198 | a merge neither loses nor invents a free range |
| `Avail.CutAvail` | vm/vm.c:285-291 | recording the maxima of the two halves keeps every SUB_AVAIL value exact, above the parent too |
| `Avail.MergeAvail` | vm/vm.c:489-490 | recording the maximum of the merged node keeps every SUB_AVAIL value exact |
| `RootOps.GrowStruct` | vm/vm.c:299-311 | a new root above the old one keeps the structure |
| `RootOps.CollapseStruct` | vm/vm.c:493-498 | replacing an emptied root by its only child keeps the structure |
| `LeafOps.SetVasStruct` | vm/vm_ops.c:181-215 | changing the records of one leaf in place keeps the structure as long as they stay in order inside the leaf; one record may be overlapped while it waits for its deletion |
| `LeafOps.SetVasRecords` | vm/vm_ops.c:181-215 | the set of free ranges changes by exactly what leaves and enters the leaf |
| `LeafOps.MoveCutStruct` | vm/vm_ops.c:243-246 | moving one separator keeps the structure if no other boundary lies between the ends of the two leaves it divides |
| `Store.BptRoot.constructor` | vm/vm.c:513-523 | an empty tree is one leaf that covers all addresses and is alone in the list |
| `Store.ListAdd` | vm/list.h:45-48 | the new leaf is linked in right behind the old one, all other links stay |
| `Store.ListDel` | vm/list.h:55-59 | the neighbours of the removed leaf are linked with each other and its own links are cleared |
| `Tree.BpnMaxAvail` | vm/vm_ops.c:8-29 | the loop computes the maximum over children or records, 0 for an empty leaf |
| `Tree.FixupSound` | vm/vm_ops.c:31-48 | a climb that starts at the only node whose parent entry may be wrong repairs every SUB_AVAIL value although it stops at the first entry that matches |
| `Tree.FixupMetadata` | vm/vm_ops.c:31-48 | the loop over parent links and position marks performs exactly that climb |
| `Subavail.SearchLeadsBack` | vm/vm_ops.c:57-62 | searching the parent for a key of the node finds the position of that node |
| `Subavail.FixupSubavail` | vm/vm_ops.c:50-71 | the loop that finds positions by key performs the same climb, with no position marks |
| `Augment.AvailBound` | vm/vm_ops.c:8-29 | no free range that starts below a node is larger than the maximum of the node |
| `Augment.AvailAttained` | vm/vm_ops.c:8-29 | a positive maximum is the size of some free range that starts below the node |
| `Augment.SubAvailExact` | vm/vm.h:71-76 | a SUB_AVAIL value equals a exactly when a is the size of the largest free range that starts below that child, or 0 if there is none |
| `Augment.HasSpace` | vm/vm.h:207-217 | no node but the root is ever without free space |
| `NodeSearch.BinSearch` | vm/vm.h:316-344 | the position is the first key not below the search key, with the matching condition code, provided the occupancy check passes |
| `NodeSearch.NextKidHolds` | vm/vm.c:326-334 | following right on equality and left otherwise enters the child whose interval covers the key |
| `SplitOps.BpnSplitInternal` | vm/vm.c:203-237 | the stores that move the right part of an internal node and its children's parent links |
| `SplitOps.BpnSplitExternal` | vm/vm.c:239-259 | the stores that move the right part of a leaf and link the new leaf |
| `SplitOps.BpnSplit` | vm/vm.c:261-296 | the stores of a split amount to Cut, with the maxima of both halves recorded |
| `MergeOps.BpnMergeSiblings` | vm/vm.c:156-198 | the stores of a merge amount to Merge with the left child's old SUB_AVAIL value |
| `ShiftOps.BpnTryShiftLeft` | vm/vm.c:73-114 | succeeds exactly if the left node has room and the right one an entry to spare, and then redivides the two one entry further right; else nothing changes |
| `ShiftOps.BpnTryShiftRight` | vm/vm.c:122-154 | the mirror image |
| `Keeps.CutKeeps` | vm/vm.c:261-296 | a split keeps structure, maxima and free ranges; its new boundary is an old one or the start of a free range |
| `Keeps.RedividedKeeps` | vm/vm.c:484-486 | a shift with both SUB_AVAIL entries refreshed keeps structure, maxima and free ranges |
| `Rebalance.ShiftedLeft` | vm/vm.c:479-486 | after a shift the minimal child has an entry to spare, still covers the key, and all occupancy bounds hold |
| `Rebalance.ShiftedRight` | vm/vm.c:479-486 | the mirror image |
| `Rebalance.Merged` | vm/vm.c:487-499 | after a merge the result has an entry to spare and covers the key, also when it replaces an emptied root |
| `LeafChange.StoreAndFixup` | vm/vm_ops.c:185-186 | changing the records of a leaf and climbing keeps the tree sound, swaps exactly these records and moves no separator |
| `Delete.MergeChild` | vm/vm.c:487-491 | merging and recording the new maximum |
| `Delete.DropRoot` | vm/vm.c:494-498 | the merged node becomes the root and the old root leaves the tree |
| `Delete.DeleteEnter` | vm/vm.c:456-500 | one level down: a minimal child is fixed before it is entered |
| `Delete.DeleteDescend` | vm/vm.c:449-501 | the descent ends at the leaf that covers the key, which is the root or above the minimum, without changing the free ranges |
| `Delete.BptPoDelete` | vm/vm.c:439-511 | removes and returns precisely the range with that start, or returns nothing and leaves the set of ranges; the tree stays sound and no new separator equals the deleted key |
| `Descend.FoundInLeaf` | vm/vm.c:503-505 | the search in the leaf finds the key exactly if some free range has it, and that range is unique |
| `Insert.SplitChoice` | vm/vm.c:336-354 | comparing the key with the new separator picks the half that covers it and sets the mark accordingly |
| `Insert.BpnSplitRoot` | vm/vm.c:298-311 | splitting a full root gives a sound tree one level higher with the same ranges |
| `Insert.InsertDescend` | vm/vm.c:322-358 | the descent ends at a leaf with room that covers the key, with marks along the path, without changing the free ranges |
| `KeyLookup.BptLookup` | vm/vm.c:386-419 | finds the free range with the given start exactly if there is one; the position is that of the record, or else the first in the leaf covering the key whose record does not start below it |
| `Space.CoalesceGapped` | vm/vm_ops.c:165-275 | after a free area has been coalesced no two free ranges overlap or abut |
| `Space.CoalesceCovers` | vm/vm_ops.c:165-275 | coalescing makes exactly the addresses of the freed area free in addition |
| `Space.AbsorbLeft` | vm/vm_ops.c:189-196 | absorbing the left neighbour first and coalescing afterwards gives the same result, and the left side is then settled |
| `Space.AbsorbRight` | vm/vm_ops.c:201-211 | the same for the right neighbour |
| `Space.GrantConserves` | vm/vm_ops.c:510-578 | clipping a granted area out of a free range conserves the managed space |
| `Space.ReturnConserves` | vm/vm_ops.c:662-668 | returning an outstanding area conserves the managed space |
| `Space.RunConserves` | vm/vm_ops.c:622-668 | in every state of every run of grants and returns the free ranges and outstanding areas are disjoint, cover exactly the managed space, and no two free ranges abut |
| `Neighbours.RecordsConfined` | vm/vm_ops.c:216-227 | in every sound tree no separator lies strictly inside a free range |
| `Neighbours.LeftNeighbour` | vm/vm_ops.c:85-129 | a free range that ends where the freed area starts is the record before the insert position or the last of the leaf before |
| `Neighbours.RightNeighbour` | vm/vm_ops.c:100-145 | a free range that starts where the freed area ends is the record at the insert position or the first of the leaf after |
| `Neighbours.StateMeaning` | vm/vm_ops.c:147-163 | the four merge bits report exactly which sides have an abutting free range, in this leaf or the next one |
| `LeafMerge.GetVaMergeState` | vm/vm_ops.c:147-163 | computes the four bits |
| `LeafMerge.MergeBoth` | vm/vm_ops.c:181-187 | the left neighbour grows over the area and the right neighbour, whose deletion completes the coalescing |
| `LeafMerge.ExtendLeft` | vm/vm_ops.c:198-199 | growing the left neighbour is the coalescing when nothing abuts on the right |
| `LeafMerge.ExtendRight` | vm/vm_ops.c:213-214 | growing the right neighbour is the coalescing when nothing abuts on the left |
| `LeafMerge.InsFits` | vm/vm.c:25-51 | an area with no abutting range fits between its neighbours in the leaf, and inserting it is the coalescing |
| `LeafCross.SeparatorUnique` | vm/vm_ops.c:239-245 | a separator value occurs at one place in the whole tree |
| `LeafCross.BoundaryAlone` | vm/vm_ops.c:233-248 | between the outer ends of two adjacent leaves there is no boundary but the one they share |
| `LeafCross.FindLeftSplit` | vm/vm_ops.c:233-241 | the climb always meets the common ancestor: it stops at the separator that equals the lower end of the leaf |
| `LeafCross.FindRightSplit` | vm/vm_ops.c:253-261 | the mirror image, at the separator that equals the upper end |
| `LeafCross.CrossedKeeps` | vm/vm_ops.c:243-246 | one changed record and one moved separator give a sound structure with one open maximum |
| `LeafCross.MergeLeftLeaf` | vm/vm_ops.c:228-248 | joining with the last range of the leaf before is the coalescing; the area is never dropped |
| `LeafCross.MergeRightLeaf` | vm/vm_ops.c:249-269 | joining with the first range of the leaf after is the coalescing; the area is never dropped |
| `AreaMerge.DoMergeVa` | vm/vm_ops.c:165-275 | per case: the area is coalesced; or coalesced up to one deletion; or it has absorbed a neighbour and wants a second try, and then both sides abut |
| `AreaMerge.AbsorbedConfined` | vm/vm_ops.c:193-211 | an area that has absorbed a neighbour in the leaf still reaches over no separator |
| `AreaMerge.SecondTry` | vm/vm_ops.c:301-325 | after the absorbed neighbour is deleted free space abuts on one side only, and coalescing now gives what coalescing the original area gives |
| `AreaMerge.MergeAgain` | vm/vm_ops.c:302-324 | the second try coalesces; it neither repeats nor leaves anything to delete |
| `AreaMerge.DeleteRecord` | vm/vm_ops.c:295-299 | deleting by the start of a range in the tree finds that very range |
| `AreaMerge.TryMergeVa` | vm/vm_ops.c:277-331 | reports a merge exactly if the area has been coalesced; otherwise nothing changed, and nothing abuts unless the key is taken |
| `AreaMerge.BpnInsertToLeaf` | vm/vm.c:25-51 | inserts the area, or refuses it if its start is taken |
| `AreaMerge.BptInsertNonFull` | vm/vm.c:313-368 | the area becomes free and coalesced, or the call fails because its start is taken |
| `AreaMerge.BptPoInsert` | vm/vm.c:370-384 | returns 0 and the ranges are those before with the area coalesced into them, or -1 exactly if a free range starts there already and the ranges stay; the tree stays sound |
| `Fit.AlignMeaning` | vm/vm.h:20 | ALIGN gives the least multiple from the address on, or wraps to 0 if there is none below 2^64 |
| `Fit.AlignLeast` | vm/vm.h:20 | no multiple at or after the address lies below the result of ALIGN |
| `Fit.NvaServes` | vm/vm.h:225-242 | if an aligned block fits then the computed address fits, is the lowest, and is accepted |
| `Fit.IsWithinExact` | vm/vm.h:225-242 | the test is right about a range if and only if the rounding does not wrap to 0 with the search starting at 0 |
| `Fit.IsWithinWraps` | vm/vm.h:231-241 | a range of 50 bytes that passes for one that can serve 60 |
| `Search.HomingStep` | vm/vm_ops.c:347-364 | a descent from a boundary followed by a large range always enters the child that holds the lowest such range |
| `Search.NothingLeftStep` | vm/vm_ops.c:347-351 | a child that is passed over holds no large range that reaches beyond the start of the search |
| `Search.BptLookupLowestLeaf` | vm/vm_ops.c:339-367 | reaches a leaf with nothing suitable before it and changes only position marks |
| `Search.FirstNextSubAvail` | vm/vm_ops.c:420-437 | returns the start of the next subtree with a large range, beyond the old start, with only small ranges between; or there is no large range to the right |
| `Lookup.LeafGetVaCond` | vm/vm_ops.c:369-385 | the first record of the leaf that is_within_this_va accepts |
| `Lookup.SecondPassDecides` | vm/vm_ops.c:451-471 | the second pass finds a range whenever every range of the required length can serve the request |
| `Lookup.FoundLowest` | vm/vm_ops.c:456-461 | what is found in either pass satisfies the original start, and no candidate lies below it |
| `Lookup.LookupSmallestVa` | vm/vm_ops.c:439-474 | returns exactly the lowest range accepted in the leaf the first descent enters, or failing that the lowest range able to serve in the leaf of the next range of the required length, or nothing; what it returns is accepted for the original start with no candidate below it, and for alignments above a page, or aligned range starts, it returns nothing only if there is no candidate |
| `Decision.EnteredLeft` | vm/vm_ops.c:339-367 | the first descent passes over no range of the required length that reaches beyond the start, and ends beyond the start |
| `Decision.RefusalExamined` | vm/vm_ops.c:451-471 | for every request: if nothing is returned, the lowest range of the required length at or after the start cannot serve the request |
| `Decision.ExactUnique` | vm/vm_ops.c:439-474 | the tree and the request leave one answer |
| `Decision.EnteredLast` | vm/vm_ops.c:333-338 | without a range of the required length the descent ends in the last leaf |
| `Decision.LastLeafDecides` | vm/vm_ops.c:333-338 | then the answer is the lowest range accepted in the last leaf, though it is shorter than the required length |
| `Decision.OneLeafDecides` | vm/vm_ops.c:451-461 | in a tree of one leaf the answer is the lowest range accepted of all, nothing only if none is |
| `LinearScan.LinLookupSmallestVa` | vm/vm_ops.c:387-418 | the scan along the leaf list returns the lowest accepted range, or nothing if there is none |
| `LinearScan.IndexRefinesScan` | vm/vm_ops.c:593-604 | with range starts aligned and alignment at most a page both searches return the same, nothing included |
| `LinearScan.IndexNoWorse` | vm/vm_ops.c:449-460 | for larger alignments the index never returns a higher range than the scan |
| `Alloc.VaClip` | vm/vm_ops.c:510-578 | succeeds exactly if the block lies inside the range, and then the range is replaced by what is left of it on either side, in a sound tree |
| `Alloc.RoomDecided` | vm/vm_ops.c:605-612 | rounding up the lowest accepted range gives the lowest address of all; if it exceeds the limit or falls outside, no candidate has room |
| `Alloc.VaAlloc` | vm/vm_ops.c:580-620 | the range the search answers with, rounded up, is granted exactly if the block ends by the limit and lies inside it; otherwise the limit is returned and nothing changed. A granted address is the lowest of all candidates; on refusal no candidate has room, or the first range of the required length cannot serve the request |
| `Alloc.OneLeafOutcome` | vm/vm_ops.c:585-619 | in a tree of one leaf a request is granted at the lowest accepted range, and refused only if none is accepted or its rounded address falls outside it or past the limit |
| `Alloc.LastLeafOutcome` | vm/vm_ops.c:585-619 | when no range holds the required length a request is granted exactly if the lowest range accepted in the last leaf has room |
| `Allocator.VmInitFreeSpace` | vm/vm_ops.c:622-638 | the whole space is one free range |
| `Allocator.GrantedConfined` | vm/vm_ops.c:510-578 | no separator lies strictly inside a granted area |
| `Allocator.OthersConfined` | vm/vm_ops.c:216-271 | separators that an operation creates lie inside no outstanding area, although keys change in place |
| `Allocator.AllocVmapArea` | vm/vm_ops.c:640-660 | grants an area of the requested size, aligned, inside the window, at the lowest possible address, exactly if the answer of the search has room; on refusal no candidate has room or the first range of the required length cannot serve; the space stays conserved and all areas confined |
| `Allocator.FreeVmapArea` | vm/vm_ops.c:662-668 | an outstanding area becomes free and fully coalesced, the space stays conserved and all areas confined; fails on null |
| `Chain.LeafList` | vm/list.h:13-22 | forwards the list visits every leaf once in key order, backwards the reverse |
| `Height.BptHigh` | vm/vm.h:195-205 | the loop down the first children computes the height |
| `Height.HeightBound` | vm/vm.h:37-44 | a tree of height h >= 1 holds at least 2 * MIN_CHILDREN^(h-1) * MIN_ENTRIES_EXTER free ranges |
| `Arrays.ArrayInsert` | vm/array.h:11-20 | the buffer's live prefix gets the value at the position and moves up behind it |
| `Arrays.ArrayRemove` | vm/array.h:22-37 | the live prefix loses the element at the position |
| `Arrays.ArrayCopy` | vm/array.h:39-43 | the block of the target is replaced by that of the source, the rest stays |
| `Arrays.InsertRemove` | vm/array.h:11-37 | insertion and removal at a position undo each other |
| `BTree.Nest` | libtree/btree/btree.c:233-253 | two nodes whose key intervals share a point nest, and at equal height are the same node |
| `BTree.KeyOnce` | libtree/btree/btree.c:195-199 | every key occurs at one position of one node |
| `BTree.KidsExactly` | libtree/btree/btree.h:20-29 | the children a node lists are exactly the nodes below it |
| `BTreeCut.CutStruct` | libtree/btree/btree.c:115-161 | cutting a node at a key that moves up keeps intervals, heights and order, for any cut position |
| `BTreeCut.CutKeys` | libtree/btree/btree.c:134-152 | a cut neither loses nor invents a key |
| `BTreeCut.MergeStruct` | libtree/btree/btree.c:316-356 | joining two siblings around their separator keeps intervals, heights and order |
| `BTreeCut.MergeKeys` | libtree/btree/btree.c:329-347 | a merge neither loses nor invents a key |
| `BTreeOps.BtSearchNodeIndex` | libtree/btree/btree.c:76-100 | returns the first position whose key is not below the search key |
| `BTreeOps.PositionInside` | libtree/btree/btree.c:246-249 | the child at that position is the one whose interval holds the key |
| `BTreeOps.BtSplitChildNode` | libtree/btree/btree.c:115-161 | the stores of a split are a cut at the median key |
| `BTreeOps.GrowStruct` | libtree/btree/btree.c:163-174 | a new root above the old one keeps the structure |
| `BTreeOps.RedivideStruct` | libtree/btree/btree.c:280-314 | redividing two siblings keeps the structure |
| `BTreeOps.BtMoveToLeft` | libtree/btree/btree.c:280-296 | the stores redivide the siblings one key further right |
| `BTreeOps.BtMoveToRight` | libtree/btree/btree.c:298-314 | the stores redivide the siblings one key further left |
| `BTreeOps.CollapseStruct` | libtree/btree/btree.c:349-352 | replacing an emptied root by its only child keeps the structure |
| `BTreeOps.BtMergeSiblings` | libtree/btree/btree.c:316-356 | the stores are a merge, around the last separator when the index lies behind it, and the global root is replaced exactly if it ran empty |
| `BTreeSteps.MovedLeft` | libtree/btree/btree.c:380-382 | after a move the minimal child can lose a key, still covers the search key, and the tree is sound |
| `BTreeSteps.MovedRight` | libtree/btree/btree.c:383-384 | the mirror image |
| `BTreeSteps.MergedDown` | libtree/btree/btree.c:385-386 | after a merge the result can lose a key and covers the search key, also when it replaces an emptied root |
| `BTreeSteps.NotFound` | libtree/btree/btree.c:370-372 | a search that ends in a leaf without the key proves that no node holds it |
| `BTreeSteps.DelInLeaf` | libtree/btree/btree.c:261-278 | deleting a key of a leaf that can lose one removes precisely that key from a sound tree |
| `BTreeReplace.MoveKeyStruct` | libtree/btree/btree.c:396-402 | renaming a key keeps the structure as long as no other key lies between the old and the new one |
| `BTreeReplace.BtMaxNode` | libtree/btree/btree.c:34-40 | reaches the leaf that ends where the subtree ends |
| `BTreeReplace.BtMinNode` | libtree/btree/btree.c:42-48 | reaches the leaf that begins where the subtree begins |
| `BTreeReplace.PrevBeside` | libtree/btree/btree.c:50-55 | the last key of that leaf is the predecessor: no key lies between |
| `BTreeReplace.NextBeside` | libtree/btree/btree.c:57-62 | the first key of the other leaf is the successor |
| `BTreeReplace.Replaced` | libtree/btree/btree.c:393-402 | once the neighbour key has been removed below and stands in for the deleted key, exactly the deleted key is gone and the tree is sound |
| `BTreeRemove.Enter` | libtree/btree/btree.c:374-386 | one level down: a minimal child borrows or is merged before it is entered, and the keys stay |
| `BTreeRemove.ReplaceBy` | libtree/btree/btree.c:393-402 | the recursive call on the neighbour key removes the key that was overwritten |
| `BTreeRemove.LoopRound` | libtree/btree/btree.c:389-408 | one round either removes the key or moves it one level down into a merged node |
| `BTreeRemove.RemoveFound` | libtree/btree/btree.c:389-411 | the loop ends and removes precisely the key that was found |
| `BTreeRemove.BtRemove` | libtree/btree/btree.c:358-411 | for every degree removes precisely the value, or returns -1 exactly if it is not there and leaves the keys; the tree stays sound and changes only at or below the start, whatever becomes of the global root |
| `BTreeInsert.SplitDown` | libtree/btree/btree.c:207-225 | after a split the half on the side of the value can be entered, unless the value is the key that moved up |
| `BTreeInsert.InsInLeaf` | libtree/btree/btree.c:102-113 | inserting into a leaf with room keeps the tree sound and adds exactly the value |
| `BTreeInsert.BtSplitRootNode` | libtree/btree/btree.c:163-174 | splitting a full root gives a sound tree one level higher with the same keys |
| `BTreeInsert.BtNew` | libtree/btree/btree.c:22-32 | an empty tree is one leaf without keys |
| `BTreeInsert.BtInsert` | libtree/btree/btree.c:176-231 | adds the value, or returns -1 exactly if it is there already; the tree stays sound |
| `BTreeInsert.BtSearch` | libtree/btree/btree.c:233-253 | finds a node and position with the value exactly if the tree holds it |
| `SplayTree.SameTraversal` | libtree/splaytree/splay.c:247-339 | two trees over the same positions have the same in-order sequence, and it meets every node |
| `SplayTree.TraversalSorted` | libtree/splaytree/splay.c:262-283 | the in-order sequence is strictly sorted by key |
| `SplayTree.MaxExact` | libtree/splaytree/splay.c:62-71 | the maximum recorded at a node is attained below it and not exceeded |
| `SplayStores.ComputeSubtreeMaxSize` | libtree/splaytree/splay.c:62-71 | the maximum of the node's size and its children's maxima |
| `SplayStores.RightPivot` | libtree/splaytree/splay.c:198-245 | the stores of a right rotation, also below a node outside the tree |
| `SplayStores.LeftPivot` | libtree/splaytree/splay.c:149-196 | the mirror image |
| `SplayRotate.RightRotatedPieces` | libtree/splaytree/splay.c:264-270 | rotating the middle and its two maxima keeps the three pieces |
| `SplayRotate.LeftRotatedPieces` | libtree/splaytree/splay.c:284-290 | the mirror image |
| `SplayLink.LinkRightPieces` | libtree/splaytree/splay.c:275-282 | linking the middle to the right piece keeps the pieces, and the middle shrinks |
| `SplayLink.LinkLeftPieces` | libtree/splaytree/splay.c:295-302 | the mirror image |
| `SplayAssemble.AssembledShaped` | libtree/splaytree/splay.c:308-320 | the assembled pieces are one tree with agreeing links, and nothing hangs off the sentinel |
| `SplayAssemble.AssembledMax` | libtree/splaytree/splay.c:308-320 | after assembly only the maxima along the two seams can be wrong |
| `SplayAssemble.AssembledSeams` | libtree/splaytree/splay.c:316-320 | parent links lead from the end of each seam to its top |
| `SplayAssemble.MaxStep` | libtree/splaytree/splay.c:323-328 | recomputing a maximum whose parent's may be wrong repairs that one |
| `SplayJoin.JoinedIsAssembled` | libtree/splaytree/splay.c:308-320 | the nine stores, in their order and with all their aliases, give the assembled tree |
| `SplayJoin.RecomputeUp` | libtree/splaytree/splay.c:322-336 | a climb along a seam repairs all its maxima and changes nothing else |
| `SplaySplay.EndedNearest` | libtree/splaytree/splay.c:303-305 | when the search ends the nodes before the middle are below the key and those after it above |
| `SplaySplay.SearchDown` | libtree/splaytree/splay.c:262-306 | the loop ends with the pieces intact and the nearest node in the middle |
| `SplaySplay.TopDownSplay` | libtree/splaytree/splay.c:247-339 | for every tree and key: the same nodes in the same order, agreeing links, exact maxima, and a root that holds the key or stands next to its place; of a node above the tree only the left link may change |
| `SplayInsert.OneSide` | libtree/splaytree/splay.c:347-360 | every other node's subtree lies on one side of the root |
| `SplayInsert.NearestKey` | libtree/splaytree/splay.c:347-366 | after splaying the root holds the key exactly if some node does |
| `SplayInsert.PutBeforeOk` | libtree/splaytree/splay.c:347-353 | a new root in front of the old one makes a tree with exact maxima |
| `SplayInsert.PutAfterOk` | libtree/splaytree/splay.c:354-360 | the mirror image |
| `SplayInsert.SplayInsert` | libtree/splaytree/splay.c:341-384 | the key set gains the key and its node becomes the root; if the key is there already the nodes stay, the one that holds it becomes the root and the rejected node is untouched |
| `SplayRemove.NothingRight` | libtree/splaytree/splay.c:400-402 | after the second splay the new root has no right child, so the join overwrites nothing |
| `SplayRemove.JoinedNearest` | libtree/splaytree/splay.c:399-403 | the root of the joined trees is the node just before the key that has gone |
| `SplayRemove.WithoutOk` | libtree/splaytree/splay.c:399-410 | the joined subtrees are a tree with exact maxima |
| `SplayRemove.LoneOk` | libtree/splaytree/splay.c:397-398 | the right subtree alone is a tree |
| `SplayRemove.TakeRoot` | libtree/splaytree/splay.c:396-413 | removing the root leaves all other nodes in a tree and the root without links; the new root is the right child, or the node just before the old one |
| `SplayRemove.SplayRemoveInit` | libtree/splaytree/splay.c:386-419 | the key set loses the key, the node that held it was splayed to the root and is left without links, and the root of the joined trees stands next to the key; if the key is missing the nodes stay and the root returned stands next to its place |
| `AvlTree.AllBelow` | libtree/avltree/avl.c:483-497 | the keys met below the root are the keys of all nodes |
| `AvlTree.AvlLookup` | libtree/avltree/avl.c:480-497 | finds the node with the key exactly if there is one |
| `AvlTree.HeightBound` | libtree/avltree/avl.c:329-361 | Fib(height + 2) is at most the number of keys plus one |
| `AvlPivot.DoRightPivot` | libtree/avltree/avl.c:111-168 | mends a tree that leans left on the outside and gives it the height expected above |
| `AvlPivot.DoLeftPivot` | libtree/avltree/avl.c:55-109 | the mirror image |
| `AvlDouble.DoDoubleRightPivot` | libtree/avltree/avl.c:170-235 | mends a tree that leans left on the inside and gives it the height expected above, in all three cases of the middle node |
| `AvlDouble.DoDoubleLeftPivot` | libtree/avltree/avl.c:237-302 | the mirror image |
| `AvlDouble.FoldRightParents` | libtree/avltree/avl.c:209-229 | the double rotation keeps all parent links right if and only if the node that rises had no children |
| `AvlDouble.FoldLeftParents` | libtree/avltree/avl.c:273-296 | the mirror image |
| `AvlInsert.DoSimpleInsert` | libtree/avltree/avl.c:394-437 | returns null exactly if the key is there, and then the rejected node is untouched; otherwise the leaf hangs below the one node with an opening for it, every parent link on its path is right, whatever the links were before, and no other link has changed |
| `AvlInsert.Settled` | libtree/avltree/avl.c:350-355 | a balance factor that becomes 0 ends the climb with a balanced tree |
| `AvlInsert.Passed` | libtree/avltree/avl.c:337-345 | a balance factor that becomes 1 or -1 passes the height change on |
| `AvlInsert.Unbalanced` | libtree/avltree/avl.c:347-349 | a balance factor that becomes 2 or -2 is the only fault, and the higher child leans |
| `AvlInsert.RootGrown` | libtree/avltree/avl.c:337-360 | a climb that reaches the root ends with a balanced tree |
| `AvlInsert.DoFixBalance` | libtree/avltree/avl.c:329-361 | climbs the true path and returns null with a balanced tree, or the one node that is out of balance; the BUG branch is unreachable |
| `AvlInsert.TiltedKids` | libtree/avltree/avl.c:307-321 | exactly one of the four rotations applies, and the parent link is null exactly at the root |
| `AvlInsert.DoPivot` | libtree/avltree/avl.c:304-327 | performs the one rotation called for, gives an AVL tree as high as before the insertion and returns its true root |
| `AvlInsert.AvlInsert` | libtree/avltree/avl.c:446-477 | an AVL tree with the new node in which every old node keeps its key, got by hanging the leaf, changing balance factors and at most one rotation; or 0 exactly if the key is there, and then only parent links change and the rejected node stays zeroed |
| `BsTree.FindExact` | libtree/bstree/bstree.c:227-242 | the search from the root arrives somewhere exactly if some node holds the key |
| `BsTree.OneNode` | libtree/bstree/bstree.c:227-242 | no two nodes hold one key |
| `BsTree.LeastRight` | libtree/bstree/bstree.c:107-112 | the subtrees that begin just above a key all lead to the successor |
| `BsTree.BstLookup` | libtree/bstree/bstree.c:227-242 | finds the node with the key exactly if there is one |
| `BsInsert.BstInsert` | libtree/bstree/bstree.c:26-67 | the node becomes a leaf below the one node with an opening for its key and nothing else changes; or 0 is returned exactly if there is no node or the key is there, and nothing changes, the rejected node included |
| `BsRemove.SplicedOk` | libtree/bstree/bstree.c:168-217 | replacing a node by its only child, or by nothing, leaves a tree |
| `BsRemove.SwappedOk` | libtree/bstree/bstree.c:106-167 | replacing a node by its successor leaves a tree |
| `BsRemove.SwapStored` | libtree/bstree/bstree.c:114-161 | the stores that move the successor give that tree in every case, also when the victim is its parent and when unlinking it is skipped |
| `BsRemove.ReplaceByLeast` | libtree/bstree/bstree.c:106-167 | the victim with two children is replaced by the least node on its right, which may become the root |
| `BsRemove.ReplaceByChild` | libtree/bstree/bstree.c:168-217 | the victim with at most one child is replaced by it |
| `BsRemove.BstRemove` | libtree/bstree/bstree.c:97-225 | the key set loses the key, its node leaves the tree, and the successor or the only child is in its place with all links agreeing; or -1 is returned exactly if the key is not there, and nothing changes |
| `BsInOrder.InOrderExact` | libtree/bstree/bstree.c:289-297 | the in-order traversal meets exactly the keys of the tree |
| `BsInOrder.LosesOne` | libtree/bstree/bstree.c:97-225 | a tree that has lost one key has the in-order sequence of the old one without that key |

## Left out

- The slot, link and SUB_AVAIL buffers of a node are sequences whose length is the number of entries, not arrays with a separate count; `Arrays` proves the array helpers against the sequence operations the node methods use.
- A `vmap_area` is a value stored in its leaf, not an object that a caller could still point at after it was freed or merged away.
- The list head embedded in the tree root is represented by null links and the fields `first` and `last`.
- Freed nodes leave the picture of the tree; that their memory is reused is not modelled. Allocation of nodes and areas succeeds.
- Position marks are unbounded natural numbers; the program stores them in a byte, which limits the order to 256.
- Areas that overlap free ranges, other than by a start that is taken, and areas a caller made up although a separator runs through them, are not given back: `AreaMerge.Returnable` says what is required.
- Empty requests, alignments that are not powers of two, and managed spaces with no addresses are not modelled.
- Threads and locks, the debug dump, the timing and stress drivers in `vm/test.c` and `vm/debug.c`.
- `bpt_root_destroy`, and the second copy of `leaf_get_va_cond` in `vm/vm.c`, which is never called.
- The plain B+ tree in `libtree/b+tree` performs the node surgery, the descents and the leaf list upkeep that are proved here for `vm/vm.c`, without maxima and without merging areas; it would repeat those members in an easier form.
- B-tree slots and links are sequences whose length is the number of entries; an empty sequence of links stands for the null first link that marks a leaf. The `parent` field, which is written but never read, is not modelled. Keys are numbers strictly between -1 and 2^64.
- The sentinel of `top_down_splay` is a node that is allocated by the method and has size 0; the program leaves its size uninitialised and never uses what it computes from it. `augment_tree_propagate_from` is never called, and the checks and dumps of `splay.c` are left out.
- The build of `splay.c` without `SPLAY_AUGMENT`.
- Sizes and keys of splay nodes are unbounded numbers, sizes not negative; the code only compares them.
- `do_fix_balance_remove` in `avl.c` is never called and not modelled. A balance factor is an unbounded number; it stays between -2 and 2.
- Nodes given to `avl_insert` and `bst_insert` are zeroed, as their allocators leave them, and are not in the tree.
- `bst_remove` frees the victim and its private data; here the victim leaves the map of the tree. The three branches for a victim with at most one child are one method, `BsRemove.ReplaceByChild`.
- The array `link[3]` of AVL and search-tree nodes is three fields.
- `libtree/btree_blue` (another B-tree over raw bytes), `libhash` (chained tables whose resizing is a stub) and the moving-average program `ewma.c` are not modelled.
