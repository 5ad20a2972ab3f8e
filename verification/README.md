# Trees, thread pools, semaphores and a block allocator

A Dafny model of four groups of code, with proofs of what they keep.

- `rbtree/` is the red-black tree with parent links and a shared `nil` sentinel. `RbModel` is the
  tree as a value with a one-hole view (`Path`), and the two fixups as functions on it. `RbMemory`
  says what it means for linked nodes to be such a tree (`Zip`), and how single assignments change
  that. `RbTrees.RbTree` is the tree itself: nodes with `left`, `right`, `parent`, `color`, `key`
  and `value`, relinked by loops. `RbSecond` is the insert fixup of the second file.
- `btree/` is the B-tree of minimum degree t. `BtModel` and `BtDelete` give single-pass insertion
  and deletion on values, `BtPlace` says which key goes where and which kids change, `BtOrder` when
  deletion keeps the search order, `BtHistory` follows
  whole histories, `BtBreak` one that breaks the order. `BtNodes.BNode` is a node with its two arrays and the loops that shift them,
  `BtMemory` says what it means for linked nodes to be a B-tree, and `BtTrees.BTree` is the tree
  itself, proved to do to its root what `BtHistory` says.
- `threadpool/` is the elastic thread pool as a protocol: one step is one lock-protected test or
  update, or one access without the lock, and the steps of any number of producers, of the workers
  and of the manager interleave freely. `Conf` selects one of three pools: `Manager2`
  (`threadpool/src3/pthreadpool2.cpp`), `Manager3` (`threadpool/src3/pthreadpool.cpp`) and `Stale`
  (`threadpool/src/threadpool.cpp`), and whether a woken producer tests the queue again and whether
  it may wake unsignalled. `PoolHistory` follows every call and every task through whole runs, `PoolTurn` says what a turn of
  the manager does, `PoolRuns` builds runs out of whole calls and turns, `PoolOverflow` and
  `PoolStale` say which pools can break a bound. `Pools.ThreadPool` holds the shared fields and
  updates them in place.
- `semaphore/` is the producer and consumer program on two semaphores, a mutex and a linked list,
  for any number of threads; `mempool/` is the fixed-block allocator, whose free list is stored, as
  8-byte addresses, in the bytes of the blocks it manages.

Keys are mathematical integers: the code only compares and copies them.

## Results

- Red-black tree: `Insert` and `Delete` keep a valid tree and do to the key-to-value map exactly an
  insertion or a removal, with at most 2 and 3 rotations; `Search` finds exactly the keys of the map
  on a path of at most 2 log2(n+1) nodes; `Run` does so for every history.
- B-tree: every insertion and deletion keeps occupancy and uniform depth; a deletion takes away one
  occurrence or nothing. The order is not always kept, because the key that replaces a deleted key
  is taken from the root node of the neighbouring kid, which is its extreme key only if that node
  is a leaf. `OrderCanBreak` is a history that breaks the order: with t = 2, insert 1 to 10 and
  delete 4. `OrderExactlyFromLeaves` says that, for trees without repeated keys, the order survives
  if and only if every draw is from a leaf. With or without repeated keys, it survives if and only
  if every drawn key passes one comparison, with the last key of the rightmost leaf below the kid
  it is drawn from, or the first key of the leftmost one (`OrderExactlyOutermost`).
- Pools: in every reachable state the worker counts, the slots and the ring agree. A call that has
  returned put its own task, once, or was rejected by a pool that shuts down; each task taken is in
  the hands of one worker or was run once. The ring stays
  within its capacity if and only if the pool is `Careful` (`OverflowExactly`): a woken producer
  tests again, or there is no producer, or nothing wakes one unsignalled and there is a single
  producer (or no slot or no worker that could ever signal). `liveNum` never passes
  `maxNum + NUMBER - 1`, and it never passes `maxNum` if and only if the manager tests `liveNum`
  itself, or `maxNum` is below 2 or equal to `minNum`, or `maxNum` tasks can never wait at once
  (`StaleExceedsExactly`).
- Semaphores: tokens and slots are conserved, a consumer never reads a NULL head, nothing is lost or
  consumed twice, and the program cannot deadlock if and only if there are both a producer and a
  consumer.
- Allocator: held blocks never overlap and never leave the page, and after any history of calls a
  client finds in each byte of its block what it last wrote there, whatever the others wrote.

## Model

| member | source | states |
|---|---|---|
| RbModel.RotationInorder | rbtree/main.cpp:53-96 | a rotation in either direction leaves the in-order sequence of the subtree as it was |
| RbModel.RecoloredInv | rbtree/main.cpp:100-108 | when the parent is red the grandparent exists and is black; with a red uncle, recolouring moves the only possible red-red edge two levels up |
| RbModel.TurnedInv | rbtree/main.cpp:111-114 | turning an inner grandchild outwards keeps the loop invariant and the final result, and costs one of two rotations |
| RbModel.RaisedInv | rbtree/main.cpp:116-118 | after the outer rotation no red-red edge is left, and no rotation is still to come |
| RbModel.InsertFixBalances | rbtree/main.cpp:98-142 | from any tree whose only red-red edge is at z, the fixup reaches a red-black tree with at most 2 rotations |
| RbModel.InsertFixKeepsOrder | rbtree/main.cpp:98-142 | the insert fixup does not change the in-order sequence of keys and values |
| RbModel.GrownTree | rbtree/main.cpp:145-175 | a red node at the place its new key leads to, followed by the fixup, gives an ordered red-black tree whose map is the old one plus that entry |
| RbModel.SunkInv | rbtree/main.cpp:182-189 | when x is one black short its sibling is never nil; if the sibling is red the parent is black, and after the rotation the deficit is still exactly at x, one level deeper, with a black non-nil sibling |
| RbModel.LiftedInv | rbtree/main.cpp:191-193 | with two black nephews, painting the sibling red moves the deficit to the parent |
| RbModel.RaisedBalanced | rbtree/main.cpp:196-206 | with a red nephew, one or two rotations repair the black height of the subtree for good |
| RbModel.DeleteFixBalances | rbtree/main.cpp:177-245 | from any tree one black short at x, the fixup reaches a red-black tree with at most 3 rotations |
| RbModel.DeleteFixKeepsOrder | rbtree/main.cpp:177-245 | the delete fixup does not change the in-order sequence |
| RbModel.RebaseOrder | rbtree/main.cpp:273-276 | copying the successor's key and value over z replaces exactly z's entry in the in-order sequence |
| RbModel.PrunedInPlace | rbtree/main.cpp:252-280 | unlinking z itself, with the fixup, removes exactly z's key and leaves an ordered red-black tree |
| RbModel.PrunedBelow | rbtree/main.cpp:254-280 | unlinking the successor, whose entry moves to z, removes exactly z's old key and leaves an ordered red-black tree |
| RbModel.PrunedTree | rbtree/main.cpp:247-283 | both cases together: deletion is map removal of the deleted key |
| RbModel.LaterKeys | rbtree/main.cpp:38-50 | in an ordered sequence the entry after x has the least key that is greater than x's |
| RbModel.BlackHeightBoundsSize | rbtree/main.cpp:285-298 | a subtree of black height h has at least 2^h - 1 nodes |
| RbModel.PathLength | rbtree/main.cpp:285-298 | every path from the root has length at most 2 log2(n + 1) |
| RbMemory.ZipRotation | rbtree/main.cpp:53-96 | the six assignments of a rotation, in either direction, turn memory that holds a tree into memory that holds the rotated tree, with all parent links right, also when the subtree that changes sides is nil |
| RbMemory.ZipAttach | rbtree/main.cpp:161-172 | hanging a fresh red node into an empty place gives memory that holds the grown tree |
| RbMemory.ZipSplice | rbtree/main.cpp:264-271 | splicing out a node with at most one child gives memory that holds the smaller tree, and leaves the right parent in the child's parent field even when that child is nil |
| RbMemory.ZipRebase | rbtree/main.cpp:273-276 | overwriting key and value of an ancestor changes that ancestor's entry and no link |
| RbTrees.RbTree.constructor | rbtree/main.cpp:319-321 | a black sentinel as root and nil is a valid empty tree |
| RbTrees.RbTree.Replace | rbtree/main.cpp:62-69 | v takes u's place below u's parent, on the right side, or as the root; exactly v's parent link and that one child link change |
| RbTrees.RbTree.LeftRelink | rbtree/main.cpp:53-73 | the assignments of the left rotation, each field of each node; nil's parent field is not touched |
| RbTrees.RbTree.LeftRotate | rbtree/main.cpp:53-73 | the links represent the left rotation of the tree they represented |
| RbTrees.RbTree.RightRelink | rbtree/main.cpp:76-96 | the assignments of the right rotation, each field of each node; nil's parent field is not touched |
| RbTrees.RbTree.RightRotate | rbtree/main.cpp:76-96 | the links represent the right rotation of the tree they represented |
| RbTrees.RbTree.UncleLinks | rbtree/main.cpp:100-103 | when the parent is red, the grandparent is a real node, and the uncle read through it, nil or not, has the colour the tree says |
| RbTrees.RbTree.Recolor | rbtree/main.cpp:104-106 | parent and uncle become black and the grandparent red, nothing else changes |
| RbTrees.RbTree.Straighten | rbtree/main.cpp:111-114 | an inner grandchild trades places with its parent, which becomes the new z |
| RbTrees.RbTree.RaiseParent | rbtree/main.cpp:116-118 | the parent rises, black, over the grandparent, which turns red |
| RbTrees.RbTree.InsertTurn | rbtree/main.cpp:101-138 | one turn of the loop on either side keeps the invariant and the final result, moves z towards the root, and counts its rotations |
| RbTrees.RbTree.InsertFixup | rbtree/main.cpp:98-142 | the loop terminates and its links represent the result of InsertFix, with exactly the rotations counted there |
| RbTrees.RbTree.FindPlace | rbtree/main.cpp:147-159 | the walk ends at the empty place whose neighbours bracket the key, or at a node if and only if the key is present |
| RbTrees.RbTree.LinkBelow | rbtree/main.cpp:161-172 | z becomes a red node without children below y, on the side of its key, or the root |
| RbTrees.RbTree.InsertNew | rbtree/main.cpp:161-174 | a key that is not present is added to the map, and the tree is valid again after at most 2 rotations |
| RbTrees.RbTree.Insert | rbtree/main.cpp:145-175 | valid trees stay valid; a new key adds one entry and one node; a key that is present changes nothing at all, not even its value |
| RbTrees.RbTree.Search | rbtree/main.cpp:285-298 | nil exactly when the key is absent, otherwise a node with that key and its mapped value, after at most 2 log2(n + 1) steps |
| RbTrees.RbTree.Minimum | rbtree/main.cpp:24-29 | the first node of the subtree in order; it has no left child |
| RbTrees.RbTree.Successor | rbtree/main.cpp:38-50 | the node that follows x in order, or nil, by descending right or by a climb that terminates |
| RbTrees.RbTree.SuccessorKey | rbtree/main.cpp:38-50 | in a valid tree the successor holds the least key greater than x's, and is nil only for the largest |
| RbTrees.RbTree.SiblingLinks | rbtree/main.cpp:180-191 | x's parent link and the test for its side are right even when x is nil; the sibling is a real node and its two children may be read |
| RbTrees.RbTree.SinkSibling | rbtree/main.cpp:183-188 | a red sibling turns black and rises over the parent, which turns red |
| RbTrees.RbTree.PaintSibling | rbtree/main.cpp:191-193 | the sibling turns red and the focus moves to the parent |
| RbTrees.RbTree.RaiseNear | rbtree/main.cpp:196-201 | the near nephew turns black and rises over the sibling, which turns red |
| RbTrees.RbTree.RaiseFar | rbtree/main.cpp:203-206 | the sibling rises with the parent's colour over the parent; parent and far nephew turn black |
| RbTrees.RbTree.Rise | rbtree/main.cpp:196-208 | with a red nephew the loop ends at the root, after one rotation, or two if the far nephew is black |
| RbTrees.RbTree.Settle | rbtree/main.cpp:191-209 | with a black sibling, every case keeps the deficit at x, keeps x's parent link right and lowers the measure |
| RbTrees.RbTree.DeleteTurn | rbtree/main.cpp:180-241 | one turn of the loop on either side keeps all of that, also through the case of the red sibling that moves x deeper |
| RbTrees.RbTree.DeleteFixup | rbtree/main.cpp:177-245 | the loop terminates and its links represent the result of DeleteFix, with exactly the rotations counted there |
| RbTrees.RbTree.BlackenFocus | rbtree/main.cpp:244 | the last assignment completes the result, also when x is nil |
| RbTrees.RbTree.Victim | rbtree/main.cpp:252-256 | y is z if z lacks a child, otherwise the node with the least key greater than z's, which has no left child |
| RbTrees.RbTree.Unlink | rbtree/main.cpp:258-276 | y is spliced out, z holds y's key and value if they differ, and x's parent link is right even if x is nil |
| RbTrees.RbTree.Delete | rbtree/main.cpp:247-283 | valid trees stay valid, the map loses exactly z's key, at most 3 rotations; the node returned has left the tree; it is z exactly when z lacked a child, and otherwise held the least key greater than z's |
| RbTrees.RbTree.Run | rbtree/main.cpp:325-345 | after any history of insertions and removals the tree is valid and holds the map that the history describes |
| RbSecond.Recolor | rbtree/rbtree.cpp:106-110 | with the grandparent in y and the colours written in another order, the result is the same recolouring |
| RbSecond.InsertTurn | rbtree/rbtree.cpp:103-139 | one turn of the second form does to the tree what the first form's turn does |
| RbSecond.InsertFixup | rbtree/rbtree.cpp:102-142 | the second form has the same result and the same number of rotations as the first, for every tree |
| BtModel.FlatAt | btree/btree.cpp:140-150 | the traversal of a node is what lies left of any kid, that kid's traversal, and what lies right of it |
| BtModel.FlatSplit | btree/btree.cpp:55-91 | splitting a full kid leaves the traversal as it was, and says what lies on both sides of each half |
| BtModel.ShapeSplit | btree/btree.cpp:55-91 | splitting a full kid of a node that is not full keeps occupancy and uniform depth |
| BtModel.SlotMeaning | btree/btree.cpp:95-107 | the scan from the right stops behind the last key that is not larger, so equal keys go right |
| BtModel.SlotShape | btree/btree.cpp:107-114 | after the preemptive split the kid that insertion enters is never full |
| BtModel.SlotKeys | btree/btree.cpp:107-114 | after the split the key still belongs between the neighbours of the chosen kid |
| BtModel.InsertNonfullShape | btree/btree.cpp:93-116 | insertion into a node that is not full keeps occupancy and uniform depth |
| BtModel.InsertNonfullContent | btree/btree.cpp:93-116 | it adds exactly one occurrence of the key and keeps the order |
| BtModel.InsertCorrect | btree/btree.cpp:118-138 | one insertion keeps occupancy, uniform depth and order, adds exactly one occurrence, and raises the height by one exactly when the root was full |
| BtDelete.IdxMeaning | btree/btree.cpp:236-240 | the scan from the left stops at the first key that is not smaller |
| BtDelete.MergeShape | btree/btree.cpp:196-230 | merging two kids of t - 1 keys gives a kid of 2t - 1 keys and takes one key from the node |
| BtDelete.BorrowRightShape | btree/btree.cpp:304-318 | a right neighbour with t keys can give one up; the kid then has t keys |
| BtDelete.BorrowLeftShape | btree/btree.cpp:320-337 | a left neighbour with t keys can give one up; the kid then has t keys |
| BtDelete.MergeFlat | btree/btree.cpp:196-230 | a merge does not change the traversal |
| BtDelete.PairFlat | btree/btree.cpp:304-337 | moving a key and a kid between neighbours does not change the traversal |
| BtDelete.TurnShape | btree/btree.cpp:232-354 | at every node the deletion enters it either ends in a leaf or enters a kid with at least t keys, whichever branch it takes |
| BtDelete.TurnCollapses | btree/btree.cpp:226-229 | the node loses its last key exactly when it had one key and two kids of t - 1 keys |
| BtDelete.MinimalKids | btree/btree.cpp:226-229 | that never happens below the root |
| BtDelete.DeleteShape | btree/btree.cpp:232-354 | every deletion, of a present or absent key, keeps occupancy and uniform depth, and lowers the height by one exactly when the root collapses |
| BtDelete.RefillKeeps | btree/btree.cpp:282-349 | rebalancing around the kid to be entered keeps the traversal, and the key can still only be in that kid |
| BtDelete.StepLeft | btree/btree.cpp:259-264 | replacing a key by one drawn from its left kid removes one occurrence of the old key; the order survives exactly if the drawn key was the kid's largest |
| BtDelete.StepRight | btree/btree.cpp:266-271 | the same for the right kid and its smallest key |
| BtDelete.DeleteContent | btree/btree.cpp:232-354 | from a search-ordered tree a deletion removes exactly one occurrence of a present key and nothing if it is absent; the result is ordered if and only if every drawn key was the extreme key of its kid |
| BtPlace.DeleteReplaces | btree/btree.cpp:259-277 | a key of an internal node is replaced by the last key of its left kid if that kid has t keys, else by the first key of its right kid if that one has, else it leaves the node; no other kid changes |
| BtPlace.DeleteGoesLeft | btree/btree.cpp:259-264 | in the first case exactly the drawn key is deleted from the left kid |
| BtPlace.DeleteGoesRight | btree/btree.cpp:266-271 | in the second case exactly the drawn key is deleted from the right kid |
| BtPlace.DeleteGoesDown | btree/btree.cpp:273-277 | in the third case the key itself is deleted from the kid made of both kids and the key, which replaces a root without other keys |
| BtPlace.DeletePlain | btree/btree.cpp:282-351 | a key that the node does not hold is deleted from the kid it belongs to; if that kid has t keys, nothing else changes |
| BtPlace.DeleteBorrowsRight | btree/btree.cpp:300-318 | a kid of t - 1 keys is given a key by its right neighbour if that has t keys and more than the left one; the neighbour loses its first key and kid, the node takes that key, all others stay |
| BtPlace.DeleteBorrowsLeft | btree/btree.cpp:300-337 | otherwise by its left neighbour if that has t keys, also if both have as many; the neighbour loses its last key and kid |
| BtPlace.DeleteMerges | btree/btree.cpp:339-347 | without such a neighbour it is merged with the left neighbour if there is one, and one key and one kid leave the node |
| BtPlace.InsertGoes | btree/btree.cpp:107-114 | a key goes into the kid behind the last key that is not larger; if that kid has room, nothing else changes |
| BtPlace.InsertSplits | btree/btree.cpp:107-111 | if that kid is full, its middle key moves up into the node, and all other keys and kids stay as they were |
| BtPlace.InsertIntoHalf | btree/btree.cpp:109-114 | the full kid is cut around its middle key, and only a larger key goes into the right half |
| BtPlace.InsertRaises | btree/btree.cpp:122-133 | a full root is cut in the same way below a new root of one key |
| BtOrder.LeafDrawsAreExtreme | btree/btree.cpp:259-271 | draws from leaves are extreme, so they keep the order, with or without repeated keys |
| BtOrder.ExtremeDrawsAreFromLeaves | btree/btree.cpp:259-271 | without repeated keys, a draw from an internal kid is never its extreme key |
| BtOrder.OrderExactlyFromLeaves | btree/btree.cpp:232-354 | without repeated keys, a deletion keeps the order if and only if every draw on the way down is from a leaf |
| BtOrder.HeldLowDrawsFromLeaf | btree/btree.cpp:254-276 | a key that is not held in an internal node whose kids are internal draws only from leaves |
| BtOrder.OrderExactlyOutermost | btree/btree.cpp:232-354 | with or without repeated keys, a deletion keeps the order if and only if every drawn key is not smaller than the last key of the rightmost leaf below its left kid, or not larger than the first key of the leftmost leaf below its right kid |
| BtHistory.InsertKeeps | btree/btree.cpp:118-138 | seen from the root, an insertion keeps the tree valid and gains one key |
| BtHistory.DeleteKeepsShape | btree/btree.cpp:357-362 | seen from the root, a deletion keeps the tree valid or, with the last key, leaves NULL |
| BtHistory.DeleteKeepsContent | btree/btree.cpp:357-362 | seen from the root, it removes one occurrence or nothing, and keeps the order exactly if its draws are extreme |
| BtHistory.HistoryCorrect | btree/btree.cpp:118-362 | any history that does not insert after emptying keeps the tree valid; if its draws are extreme, the keys stay ordered and are the inserted ones that were not deleted |
| BtBreak.AppendSplit | btree/btree.cpp:106-114 | a key larger than all others goes into the right half of a full last kid |
| BtBreak.InsertsGrow | btree/btree.cpp:93-138 | with t = 2, inserting 1 to 10 into the new tree builds 4 over 2 and 6, 8, with five leaves |
| BtBreak.DrawsSix | btree/btree.cpp:266-271 | deleting 4 from that tree puts 6 in its place, although 5 is still below it |
| BtBreak.OrderCanBreak | btree/btree.cpp:118-362 | the ten insertions, from the empty tree, leave the keys in order, and the one deletion after them does not |
| BtNodes.BNode.FindSlot | btree/btree.cpp:95-107 | the loop computes Slot of the keys in use |
| BtNodes.BNode.FindKey | btree/btree.cpp:236-240 | the loop computes Idx of the keys in use |
| BtNodes.BNode.InsertKey | btree/btree.cpp:95-104 | the leaf's keys in use become the old ones with the key inserted at its slot |
| BtNodes.BNode.TakeUpper | btree/btree.cpp:59-73 | the new node holds exactly the upper t - 1 keys and t kids of the full one, which is not changed |
| BtNodes.BNode.OpenSlot | btree/btree.cpp:77-89 | keys and kids move up by one, the new key and kid fill the gap, all others keep their order |
| BtNodes.BNode.Absorb | btree/btree.cpp:203-213 | the left node holds its keys, the separating key and the right node's keys, and the kids of both |
| BtNodes.BNode.CloseSlot | btree/btree.cpp:218-224 | key idx and kid idx + 1 leave, all others keep their order; the slot after the last kid becomes NULL if there is one |
| BtNodes.BNode.AfterLast | btree/btree.cpp:223 | the slot that is cleared lies outside the array exactly when the node is full |
| BtNodes.BNode.RemoveKey | btree/btree.cpp:246-251 | exactly key idx leaves the leaf |
| BtNodes.BNode.Append | btree/btree.cpp:305-307 | a key and a kid are added behind the others |
| BtNodes.BNode.DropFirst | btree/btree.cpp:310-318 | exactly the first key and kid leave |
| BtNodes.BNode.Prepend | btree/btree.cpp:322-331 | a key and a kid are added in front of the others |
| BtNodes.BNode.DropLast | btree/btree.cpp:334-336 | exactly the last key and kid leave |
| BtMemory.RepAround | btree/btree.cpp:55-354 | if some neighbouring kids of a node are replaced by trees made of their nodes or new ones, and no other node changes, memory holds the changed tree |
| BtMemory.SplitRep | btree/btree.cpp:55-91 | after the assignments of a split, the nodes are a tree in which the full kid has given way to its two halves |
| BtMemory.SplitValue | btree/btree.cpp:55-91 | that tree, without its nodes, is the split of the value model |
| BtMemory.MergeRep | btree/btree.cpp:196-230 | after the assignments of a merge, the nodes other than the destroyed one are the merged tree |
| BtMemory.BorrowRightRep | btree/btree.cpp:304-318 | after the assignments of a borrow from the right, the nodes are the tree with one key and kid moved over |
| BtMemory.BorrowLeftRep | btree/btree.cpp:320-337 | the same for a borrow from the left |
| BtTrees.BTree.constructor | btree/btree.cpp:46-52 | a new tree is one empty leaf |
| BtTrees.BTree.CreateNode | btree/btree.cpp:22-33 | a fresh node with its own two arrays and without keys, and no other node changes |
| BtTrees.BTree.SplitChild | btree/btree.cpp:55-91 | exactly the three nodes change, as the split says |
| BtTrees.BTree.MakeRoom | btree/btree.cpp:107-112 | finds the kid to enter and splits it first if it is full |
| BtTrees.BTree.InsertNonfull | btree/btree.cpp:93-116 | below x the nodes represent what the value model's insertion gives; all nodes outside keep their contents |
| BtTrees.BTree.RaiseRoot | btree/btree.cpp:122-129 | a full root gets a new root above it with one key and two kids |
| BtTrees.BTree.Insert | btree/btree.cpp:118-138 | a valid tree stays valid and its value changes by exactly the insertion of BtHistory |
| BtTrees.BTree.Merge | btree/btree.cpp:196-230 | the nodes represent the merge; T->root moves to the merged kid exactly when the node had one key |
| BtTrees.BTree.BorrowRight | btree/btree.cpp:304-318 | the nodes represent the borrow from the right of the value model |
| BtTrees.BTree.BorrowLeft | btree/btree.cpp:320-337 | the nodes represent the borrow from the left of the value model |
| BtTrees.BTree.Refill | btree/btree.cpp:282-295 | picks the donor and the branch that the value model picks, and returns the kid to go on in |
| BtTrees.BTree.Rebalance | btree/btree.cpp:297-348 | the same for a kid of t - 1 keys, given its neighbours |
| BtTrees.BTree.Draw | btree/btree.cpp:260-278 | replaces the key from the left or right kid's node, or merges, as the value model does |
| BtTrees.BTree.RemoveFromLeaf | btree/btree.cpp:246-259 | exactly that key leaves the leaf, and T->root becomes NULL exactly when none is left |
| BtTrees.TurnCases | btree/btree.cpp:232-354 | which branch a node takes, and that a recursive call is always into a kid with at least t keys |
| BtTrees.BTree.DeleteKey | btree/btree.cpp:232-354 | below the node the nodes represent what the value model's deletion gives, all nodes outside keep their contents, and T->root is right after a collapse and after the last key |
| BtTrees.BTree.Delete | btree/btree.cpp:357-362 | a valid tree stays valid, its value changes by exactly the deletion of BtHistory; -1 exactly when there was no tree |
| BtTrees.BTree.Traverse | btree/btree.cpp:140-150 | the output is the in-order sequence of the tree that the nodes represent |
| BtTrees.BTree.Serve | btree/btree.cpp:118-362 | any supported history of calls leaves what BtHistory says |
| PoolSafety.LockKept | threadpool/src3/pthreadpool2.cpp:144-295 | at most one thread is inside the lock, and exactly the thread that took it |
| PoolSafety.WorkerKept | threadpool/src3/pthreadpool2.cpp:189-225 | a worker past its tests has a task to take or sees the shutdown, although shutdown is written without the lock |
| PoolSafety.CountKept | threadpool/src3/pthreadpool2.cpp:197-238 | live and busy counts equal the numbers of live and running workers, and live stays at least minNum |
| PoolSafety.SlotKept | threadpool/src3/pthreadpool2.cpp:265-308 | the slots hold exactly the workers that have not cleared theirs, each once, and no scan passes its own slot, although the scans run without the lock while the manager fills slots |
| PoolSafety.ScanEnds | threadpool/src3/pthreadpool2.cpp:300-308 | the scan for its own slot never runs off the end of the slots |
| PoolSafety.GrowthKept | threadpool/src/threadpool.cpp:184-200 | liveNum is never above the manager's copy plus the threads it has created since, so it never passes maxNum + NUMBER - 1 |
| PoolSafety.ClearedMeaning | threadpool/src3/pthreadpool2.cpp:297-308 | clearing a worker's slot frees that worker's slot and no other |
| PoolSafety.OccupiedCounts | threadpool/src3/pthreadpool2.cpp:271-276 | as many slots are occupied as workers hold one |
| PoolSafety.SlotsAndCounts | threadpool/src/threadpool.cpp:144-222 | occupied slots plus workers gone by shutdown equal live workers plus those that have left the count but not their slot |
| PoolSafety.PoolSafe | threadpool/src3/pthreadpool2.cpp:183-310 | in every reachable state of each pool: minNum <= live, live <= maxNum (for the stale pool until a worker has left through shutdown, and live <= maxNum + NUMBER - 1 always), 0 <= exitNum <= NUMBER, busy equals the running workers and is at most live, and no worker dequeues from an empty queue |
| PoolFifo.PutQueue | threadpool/src3/pthreadpool2.cpp:157-161 | with room, the ring write appends to the queue and keeps queueRear = (queueFront + queueSize) mod capacity |
| PoolFifo.TakeQueue | threadpool/src3/pthreadpool2.cpp:217-222 | the ring read takes the oldest task |
| PoolFifo.FifoKept | threadpool/src3/pthreadpool2.cpp:144-225 | every step keeps: accepted tasks are the taken tasks followed by the queued ones |
| PoolFifo.ProducerKept | threadpool/src/threadpool.cpp:107-120 | every step keeps: a producer past its test has room, and so has one that was signalled and does not test again |
| PoolFifo.BoundedFifo | threadpool/src3/pthreadpool2.cpp:144-225 | in every run of a careful pool the ring is a bounded first-in first-out queue: no task is lost, doubled or overtaken |
| PoolHistory.RunsRecorded | threadpool/src3/pthreadpool2.cpp:144-238 | every run has a record of its calls, their outcomes and the tasks that were run, so what follows is about every run |
| PoolHistory.CallKept | threadpool/src3/pthreadpool2.cpp:144-165 | every step keeps: a producer inside a call carries the task it was called with, and accepted entries and accepted calls correspond one to one, with the same task |
| PoolHistory.CallsAnswered | threadpool/src3/pthreadpool2.cpp:144-165 | in every run of each pool: each accepted entry is the task of a call, no two of the same call; a call that has returned put its own task, once, or put none and was rejected by a pool that shuts down |
| PoolHistory.TaskKept | threadpool/src3/pthreadpool2.cpp:217-238 | every step keeps: the tasks taken are those in the hands of workers and those run to the end |
| PoolHistory.TasksRunOnce | threadpool/src3/pthreadpool2.cpp:217-238 | in every run of each pool, each task taken is in the hands of one worker or was run once; in a careful pool each accepted task is queued, in one worker's hands, or was run once |
| PoolHistory.AfterShutdown | threadpool/src3/pthreadpool2.cpp:152-156 | once shutdown is set, at most one more task is put or taken, by the thread that had already passed its test |
| PoolHistory.NobodyWaits | threadpool/src3/pthreadpool2.cpp:147-194 | once shutdown is set, nobody begins to wait for room or for a task |
| PoolHistory.ManagerStops | threadpool/src3/pthreadpool2.cpp:246 | once shutdown is set, a manager that is not in a turn creates no thread and orders no exit any more |
| PoolHistory.OrdersBound | threadpool/src3/pthreadpool2.cpp:197-205 | in every run, at most NUMBER workers retire for each order of the manager |
| PoolTurn.TurnDoes | threadpool/src3/pthreadpool2.cpp:243-295 | an undisturbed turn in any reachable state of an open pool, for each of the three: liveNum grows if and only if more tasks wait than workers live (or, in src3/pthreadpool.cpp, are idle), fewer than maxNum live and a slot is free, and then by NUMBER, the free slots or what is left to maxNum; exitNum becomes NUMBER if and only if fewer than half of more than minNum workers are busy, and is otherwise unchanged |
| PoolTurn.TurnExists | threadpool/src3/pthreadpool2.cpp:243-295 | from any point of a turn with the lock free or its own, the manager can finish the turn |
| PoolTurn.VacantCounts | threadpool/src3/pthreadpool2.cpp:265-276 | the free slots number maxNum less the live workers and less those still scanning, plus those gone |
| PoolTurn.NoRoomToGrow | threadpool/src/threadpool.cpp:190-199 | a reachable state in which more tasks wait than workers live and fewer than maxNum live, but no slot is free, because a retired worker has not cleared its own |
| PoolOverflow.SpuriousOverflow | threadpool/src/threadpool.cpp:107-118 | a pool that waits under `if` has a run past its capacity once a wait may end unsignalled |
| PoolOverflow.CrowdedOverflow | threadpool/src/threadpool.cpp:107-118 | and with two producers even without such a wake-up |
| PoolOverflow.OverflowExactly | threadpool/src/threadpool.cpp:105-121 | the ring stays within its capacity in every run if and only if the pool is careful |
| PoolRuns.Flood | threadpool/src/threadpool.cpp:105-121 | from any resting state a run makes any number of tasks wait, up to the capacity, and past it if the pool is not careful |
| PoolRuns.Grow | threadpool/src/threadpool.cpp:182-201 | with more tasks than workers, one turn of the manager adds NUMBER workers, or as many as there are free slots |
| PoolStale.RetireOne | threadpool/src/threadpool.cpp:142-152 | with nothing to do and more than minNum workers, a run retires one of them |
| PoolStale.StaleCanExceed | threadpool/src/threadpool.cpp:182-201 | every stale pool with a caller, maxNum at least 2 and above minNum, and room for maxNum waiting tasks has a run that counts maxNum + 1 workers |
| PoolStale.CopyKept | threadpool/src/threadpool.cpp:184-190 | the copy of liveNum from which the manager grows is below the number of tasks that can wait |
| PoolStale.LimitKept | threadpool/src/threadpool.cpp:190-200 | in every other stale pool no step takes liveNum past maxNum |
| PoolStale.StaleExceedsExactly | threadpool/src/threadpool.cpp:179-212 | no run passes maxNum if and only if the pool is not of that kind, which depends on its configuration only |
| Pools.ThreadPool.constructor | threadpool/src3/pthreadpool2.cpp:47-95 | the fields, slots and ring of a start state of the protocol |
| Pools.ThreadPool.PutTask | threadpool/src3/pthreadpool2.cpp:157-161 | the shared fields change as in the protocol's step, and the queue gains the task at its end |
| Pools.ThreadPool.TakeTask | threadpool/src3/pthreadpool2.cpp:217-222 | the shared fields change as in the protocol's step, and the result is the queue's first task |
| Pools.ThreadPool.AnswerExit | threadpool/src3/pthreadpool2.cpp:196-206 | an exit order is used up in any case; the worker leaves, and is counted out, if and only if there was one and more than minNum workers live |
| Pools.ThreadPool.ClearSlot | threadpool/src3/pthreadpool2.cpp:299-308 | the loop clears the first slot that holds the thread's identifier and no other |
| Pools.ScanIsRun | threadpool/src3/pthreadpool2.cpp:299-308 | that loop, if nobody disturbs it, is a run of the protocol's scan steps with the same effect |
| Pools.ThreadPool.Grow | threadpool/src3/pthreadpool2.cpp:266-278 | the loop fills free slots from the left: NUMBER of them, or all, or as many as maxNum allows |
| Pools.GrowIsRun | threadpool/src3/pthreadpool2.cpp:266-278 | that loop under one lock is a run of the protocol's manager steps with the same effect |
| Pools.ThreadPool.Manage | threadpool/src3/pthreadpool2.cpp:262-286 | from its three copies the manager grows the pool if and only if q > l and l < maxNum, orders NUMBER exits if and only if 2b < l and l > minNum, and leaves the ring alone |
| Pools.ManageIsRun | threadpool/src3/pthreadpool2.cpp:262-286 | that turn, if nobody disturbs it, is a run of the protocol's manager steps back to the top of its loop |
| ProdCons.MutexKept | thread/main.cpp:206-229 | mutual exclusion: what a thread read from head inside the mutex is still there when it writes head |
| ProdCons.TokensKept | thread/main.cpp:206-230 | every step keeps both counts: nodes against csem and promised or unannounced nodes, and slots against psem |
| ProdCons.SeesNode | thread/main.cpp:223-227 | a consumer that took a token finds a node |
| ProdCons.NothingLost | thread/main.cpp:206-229 | what was produced is what was consumed plus what is in the list |
| ProdCons.LogKept | thread/main.cpp:208-227 | every pop takes the newest number that is still in the list |
| ProdCons.RunsSafely | thread/main.cpp:203-239 | in every run, for any producers and consumers: both conservation laws, at most 5 nodes, no NULL head, nothing lost |
| ProdCons.DeadlockFreeExactly | thread/main.cpp:203-239 | no run gets stuck if and only if there are both a producer and a consumer |
| Store.Chain.Push | thread/main.cpp:208-211 | the fresh node is in front of the old list |
| Store.Chain.Pop | thread/main.cpp:225-227 | the first node leaves and its number is the result |
| Store.ConsumerMayPop | thread/main.cpp:223-227 | in every reachable state, a consumer that took a token finds a node behind head in the linked list itself |
| Store.ConsumeStep | thread/main.cpp:225-228 | popping the chain does to it what the protocol's step does to the list, and returns the number that the step logs |
| Store.ProduceStep | thread/main.cpp:208-211 | pushing on the chain does to it what the protocol's step does to the list, whatever other threads did before |
| BlockModel.StoredThenLoaded | threadpool/src4/mempool/memorypool.cpp:30-52 | an address stored byte by byte is read back unchanged |
| BlockModel.PartitionKept | threadpool/src4/mempool/memorypool.cpp:37-56 | every call keeps: each block of the page is either free, once, or held |
| BlockModel.WritesHeldKept | threadpool/src4/mempool/memorypool.cpp:37-56 | what clients wrote stays recorded exactly in the blocks they hold |
| BlockModel.HistorySafe | threadpool/src4/mempool/memorypool.cpp:16-56 | after any mallocs, valid frees and writes: held blocks are disjoint and inside the page, free and held blocks add up to 4096 / block_size |
| BlockModel.RemembersKept | threadpool/src4/mempool/memorypool.cpp:37-56 | every call keeps: for each byte whose block was not given back since, the last write to it, read off the calls alone, is on record, and the block is held |
| BlockModel.GivenBackFirst | threadpool/src4/mempool/memorypool.cpp:41-54 | a block that is given back is the next one handed out |
| BlockModel.TerminatorFits | threadpool/src4/mempool/memorypool.cpp:33 | the terminator lies inside the page exactly when at least eight bytes are left over behind the blocks; if block_size divides 4096 it starts at the end of the page |
| BlockModel.LinkedKept | threadpool/src4/mempool/memorypool.cpp:37-56 | a write inside a block that is not free cannot break the free list |
| BlockModel.LinkedPush | threadpool/src4/mempool/memorypool.cpp:52-53 | a freed block that points to the old first one heads the free list |
| BlockModel.LinkedPop | threadpool/src4/mempool/memorypool.cpp:41-43 | the first free block holds the address of the second, or of the end |
| BlockModel.LinkedFromStart | threadpool/src4/mempool/memorypool.cpp:29-32 | blocks that each point to the next one are a free list of all blocks |
| MemPools.MemPool.Store | threadpool/src4/mempool/memorypool.cpp:30 | the 8 bytes there now read as the address, and no other byte changes |
| MemPools.MemPool.constructor | threadpool/src4/mempool/memorypool.cpp:16-35 | whatever the page held, all its blocks are free in address order |
| MemPools.MemPool.LinkBlocks | threadpool/src4/mempool/memorypool.cpp:28-33 | the loop threads the free list through the page, and the terminator does not disturb it |
| MemPools.MemPool.Terminate | threadpool/src4/mempool/memorypool.cpp:33 | the bytes of the terminator that lie in the page become 0, all others keep their value, and the free list is as before |
| MemPools.MemPool.Malloc | threadpool/src4/mempool/memorypool.cpp:37-48 | NULL exactly when no block is free or a block is too small, with nothing changed; otherwise the first free block, which is then held; the end link is never handed out |
| MemPools.MemPool.Free | threadpool/src4/mempool/memorypool.cpp:50-56 | the block is free again, first in the list, and no byte of the page changes but the pointer at its start |
| MemPools.MemPool.Write | threadpool/src4/mempool/memorypool.cpp:37-56 | exactly one byte of the page changes, and the allocator stays valid |
| MemPools.MemPool.Serve | threadpool/src4/mempool/memorypool.cpp:37-56 | after any history of calls the pool is valid and as BlockModel says, and each byte holds what was last written there since its block was handed out |

## Left out

- The `main` functions, printing, sleeping and the commented-out demos of thread/main.cpp; `btree_print`; `rbtree_traversal`.
- `btree_bin_search`, which insertion and deletion do not call, and `rbtree_maxi`.
- Memory release and allocation failure: only nodes that can still be reached are modelled. A destroyed B-tree node stays in the set of created nodes but in no tree.
- BtNodes.BNode.CloseSlot: for a full node line 223 of btree/btree.cpp writes outside the array (`AfterLast`); that write is not modelled. In no case is the vacated slot itself cleared, as in the original.
- BtTrees.BTree.Draw: line 276 of btree/btree.cpp reads a kid of a node that the merge has destroyed exactly when T->root moves to that kid; the model keeps the merged kid from before.
- BtTrees.BTree.DeleteKey: the recursive call at the end of each branch of btree/btree.cpp:232-354 is one call after the branches.
- BtHistory.HistoryCorrect: histories do not insert once the root is NULL, because `btree_insert` reads through it.
- The width of `int` and of the counters: keys are only compared and copied, and the counters are bounded by the results above.
- Mirror-image branches of the red-black fixups share one method with the side as a parameter. The rotations and the deletion of rbtree/rbtree.cpp are those of rbtree/main.cpp and are not repeated.
- Liveness of the pools, and lost wake-ups: a wait on notEmpty may end at any time, and a signal on notFull marks every blocked producer as signalled, so the model allows more than the code does.
- The pool's destruction after the shutdown write: joining, signalling and freeing while workers may still run. `alive_thread_num` (threadpool/src3/pthreadpool.cpp:136-141), which unlocks a lock it does not hold, is no step of the protocol.
- In the pools thread creation succeeds and stores the identifier before the thread runs, identifiers are unique and not 0, and all first workers exist in the start state. The body of a task is not modelled.
- Pools.ThreadPool is the pool of threadpool/src3/pthreadpool2.cpp; the grow loop of the stale pool and the test of threadpool/src3/pthreadpool.cpp:198 are protocol steps only.
- A ring of capacity 0, where the original would divide by zero, wraps to index 0 in the model.
- threadpool/src2, zero_threadpool, the reactors, the epoll and select servers, and the HTTP and WebSocket code.
- MemPools.MemPool.constructor: the bytes of the terminator that lie outside the page (threadpool/src4/mempool/memorypool.cpp:33) are not modelled. block_size is at least 8, the size of a pointer, and at most 4096.
- MemPools.MemPool.Free: the client gives back a block it holds, as the code expects; a NULL pool is not modelled.
