# RedBlackTree in Dafny

This project models `RedBlackTree.java`, a binary search tree of distinct values that
rebalances with red-black rules after an insert. Each `Node` holds a value, a colour
(`blackHeight`: 0 red, 1 black) and a three-entry `context` array of parent, left and right
references. The tree keeps a `root` reference and a `size` counter.

The model has two layers.

- **Functions on values.** These describe the tree and its operations.
  - `Shapes` is the tree of node identities as a datatype, with its in-order, parents, depths
    and subtree replacement.
  - `Search` is the search-tree part: the descents of `findNodeWithData` and `insert`, the
    unlinking done by `remove`, and the in-order successor.
  - `Rebalance` is `enforceRBTreePropertiesAfterInsert` with `enforceCaseOneHelper` and
    `toggleColorHelper`. It follows the Java case order exactly. It ends either normally or by
    the `NullPointerException` that the case-3 test raises once case 2 has lifted the node
    it works on to the root.
  - `Model` gives `insert` and `remove` on the whole state: shape, values and colours.
- **The class.** `RedBlack.RedBlackTree` stores nodes in an arena. Node `i` is slot `i` of the
  sequence fields `data`, `blackHeight`, `parentOf`, `leftOf` and `rightOf`. The null
  reference is `NIL` (-1). A ghost `shape` is the tree that these references describe.
  - `Links` and `Rotation` prove that the reference updates of `insert`, `rotate` and
    `replaceNode` keep the references consistent with the new shape.
  - Each method is proved to produce exactly the state its specification function gives.
  - The class invariant `Valid` holds across `insert` and `remove`: distinct linked nodes,
    `size` equal to the node count, strictly increasing in-order values, and colours 0 or 1.

`Scenarios` follows the three unit tests. It proves that inserting 20, 10, 30, 40, 50, or 20,
10, 30, 50, 40, gives the level order `20(1), 10(1), 40(1), 30(0), 50(0)`. It proves that
inserting 40, 20, 60, 80 gives `40(1), 20(1), 60(1), 80(0)`. In both cases the in-order is as
the tests expect. It also proves three runs beyond the tests.
- Inserting 20, 10, 15 ends in the null dereference of the case-3 test.
- Inserting 40, 20, 60, 80, 10 ends normally but leaves paths with different numbers of black
  nodes: case 1 rotates around a black parent.
- Inserting 20, 10, 30, 40, 50, 60, 5 ends normally but leaves the red 5 below the red 10: case 3
  recolours although the parent is black.

## Model

| member | source | states |
|---|---|---|
| Rebalance.Toggle | RedBlackTree.java:143-149 | red becomes black and black becomes red at that one node; every other node, and a node with any other code, keeps its colour |
| Rebalance.ToggleTwice | RedBlackTree.java:143-149 | toggling a node twice restores every colour |
| Rebalance.IsLeftChild | RedBlackTree.java:59-61 | defines isLeftChild on the shape: the node has a parent whose left child it is; RedBlack.RedBlackTree.IsLeftChild proves the reference test equal to it |
| Rebalance.IsRightChild | RedBlackTree.java:49-51 | defines isRightChild on the shape; RedBlack.RedBlackTree.IsRightChild proves the reference test equal to it |
| Rebalance.Grandparent | RedBlackTree.java:155-157 | defines grandparent() as the parent of the parent; RedBlack.RedBlackTree.Grandparent proves the two-step dereference equal to it |
| Rebalance.Uncle | RedBlackTree.java:159-166 | defines uncle(): the grandparent's right child when the parent is a left child, its left child otherwise; RedBlack.RedBlackTree.Uncle proves the method equal to it |
| Rebalance.SwapRotate | RedBlackTree.java:121-128 | defines one case-1 branch: rotate the parent over the grandparent, then the old grandparent takes the parent's colour and the node's new parent the grandparent's; SwapRotateFacts states what it keeps |
| Rebalance.CaseOne | RedBlackTree.java:119-140 | defines enforceCaseOneHelper: the right-right branch, then the left-left branch tested again on the new tree; CaseOneFacts states what it keeps |
| Rebalance.Straighten | RedBlackTree.java:82-94 | defines one case-2 block: rotate the node over its parent, then case 1 from the old parent; StraightenFacts proves the node is lifted |
| Rebalance.Realign | RedBlackTree.java:77-94 | defines case 1 followed by the two case-2 tests, in source order; RealignFacts proves the node never goes down |
| Rebalance.Recolour | RedBlackTree.java:100-102 | defines the three toggles of case 3, parent, grandparent and uncle in that order; RecolourFacts states what they keep |
| Rebalance.Blacken | RedBlackTree.java:111 | defines root.blackHeight = 1; BlackenFacts states what it keeps |
| Rebalance.FixUp | RedBlackTree.java:74-113 | the fix-up keeps the same nodes, distinct and in the same in-order, with colours still 0 or 1; when it returns normally the root is black |
| Rebalance.CaseThree | RedBlackTree.java:96-112 | the case-3 part keeps nodes and in-order; when it returns normally the root is black |
| Rebalance.SwapRotateFacts | RedBlackTree.java:120-128 | one case-1 branch keeps nodes and in-order, keeps the node's parent, and lifts both the node and its parent one level |
| Rebalance.CaseOneFacts | RedBlackTree.java:119-140 | enforceCaseOneHelper keeps nodes and in-order, never pushes the node down, and keeps its parent |
| Rebalance.StraightenFacts | RedBlackTree.java:82-94 | a case-2 block keeps nodes and in-order and strictly lifts the node |
| Rebalance.RealignFacts | RedBlackTree.java:77-94 | cases 1 and 2 together keep nodes and in-order and never push the node down, so the case-3 recursion terminates |
| Rebalance.RecolourFacts | RedBlackTree.java:99-102 | toggling parent, grandparent and uncle changes no link and keeps colours 0 or 1 |
| Rebalance.BlackenFacts | RedBlackTree.java:111 | root.blackHeight = 1 makes the root of a non-empty tree black, keeps the shape's nodes and in-order, and keeps colours 0 or 1 |
| Rotation.RotateShape | RedBlackTree.java:242-323 | defines the rotation of a child over its parent on the shape, right when it is the left child and left when it is the right child, and no change otherwise; RotateFacts and RotateLinks state its properties |
| Rotation.RotateFacts | RedBlackTree.java:242-323 | rotating a child over its parent keeps the nodes and the in-order, moves the child into the parent's place under the old grandparent, puts the parent below the child, and lifts the child and its outer child one level |
| Rotation.RotateUnrelated | RedBlackTree.java:243-249 | nodes that are not parent and child leave the shape as it is |
| Rotation.RotateLinks | RedBlackTree.java:254-321 | the reference updates of both rotations describe exactly the rotated shape |
| Rotation.RotateRightLinks | RedBlackTree.java:254-284 | the right-rotation updates, at the root or below it, describe the rotated shape |
| Rotation.RotateLeftLinks | RedBlackTree.java:289-321 | the left-rotation updates describe the rotated shape |
| Links.LinkedLift | RedBlackTree.java:411-431 | replaceNode's updates, which re-parent the replacement and redirect the parent's (or root's) reference, describe the shape with the node's subtree replaced by the replacement's |
| Links.LinkedHang | RedBlackTree.java:197-214 | attaching the new node as the empty left or right child of current, with current as its parent, describes the grown shape |
| Search.Find | RedBlackTree.java:460-477 | the descent of findNodeWithData: its result is null or a node of the tree holding the value; FindCorrect proves it null exactly when the value is absent |
| Search.Place | RedBlackTree.java:192-224 | the descent of insert: it reaches an equal value exactly when Find finds the value, and otherwise adds exactly the one new node; PlaceFacts proves the grown tree sorted |
| Search.FindCorrect | RedBlackTree.java:460-477 | in a search tree the descent returns null exactly when the value is absent, and otherwise a node of the tree holding the value |
| Search.PlaceFacts | RedBlackTree.java:192-224 | the insert descent stops at an equal value exactly when the value is present; otherwise the new leaf is the only added node and the in-order values stay strictly sorted with the value added |
| Search.PlaceStep | RedBlackTree.java:192-224 | one loop step, moving current to the chosen child, leaves the final placement unchanged |
| Search.Successor | RedBlackTree.java:438-453 | defines findMinOfRightSubtree on the shape: the leftmost node of the right subtree; SuccessorPosition proves it the next node in the in-order |
| Search.Unlink | RedBlackTree.java:358-381 | defines the three child cases of remove on the shape and values; UnlinkFacts proves exactly the found value leaves |
| Search.SuccessorPosition | RedBlackTree.java:438-453 | for a node with two children, the leftmost node of its right subtree comes right after it in the in-order |
| Search.SuccessorKeys | RedBlackTree.java:360-371 | copying the successor's value into the node and unlinking the successor removes exactly that node's value from the in-order values |
| Search.UnlinkOne | RedBlackTree.java:372-381 | replacing a node that has at most one child by that child removes exactly its value and keeps the rest sorted |
| Search.UnlinkTwo | RedBlackTree.java:360-371 | the two-children branch removes exactly the node's value and keeps the rest sorted |
| Search.UnlinkFacts | RedBlackTree.java:358-381 | every branch of remove takes exactly the found value out of the in-order, keeps the rest sorted and distinct, and drops one node |
| Model.Insert | RedBlackTree.java:178-226 | insert fails as a duplicate exactly when the value is present; otherwise the state stays sound, the values gain exactly the new one, the node count grows by one, and a normal return leaves a black root |
| Model.InsertPlaced | RedBlackTree.java:184-224 | once the descent has placed the new red leaf, insert is the fix-up from that leaf |
| Model.InsertSorted | RedBlackTree.java:178-226 | after a normal insert, the in-order values are the old ones with the new value at its sorted position, so the tree contains it |
| Model.Remove | RedBlackTree.java:349-387 | remove fails exactly when the value is absent; otherwise the state stays sound, exactly that value leaves, and the node count drops by one |
| Model.InsertThenRemove | RedBlackTree.java:178-226 | inserting an absent value and then removing it succeeds and restores the same in-order values and node count, after a normal insert and after the fix-up's null dereference alike |
| Model.RemoveSorted | RedBlackTree.java:349-387 | after a remove, the in-order values are the old ones without the value at its sorted position, so the tree no longer contains it |
| RedBlack.RedBlackTree.constructor | RedBlackTree.java:65-66 | a new tree is valid, has no node, a null root and size 0, and its state is exactly the empty state that Model.Insert and the scenarios start from |
| RedBlack.RedBlackTree.Size | RedBlackTree.java:329-331 | size() is the number of values in the tree |
| RedBlack.RedBlackTree.IsEmpty | RedBlackTree.java:337-339 | isEmpty() holds exactly when the tree has no node, that is, no values |
| RedBlack.RedBlackTree.Parent | RedBlackTree.java:151-153 | parent() is the node's parent in the shape, and a node of the tree when not null |
| RedBlack.RedBlackTree.IsLeftChild | RedBlackTree.java:59-61 | isLeftChild() holds exactly when the node has a parent whose left child it is |
| RedBlack.RedBlackTree.IsRightChild | RedBlackTree.java:49-51 | isRightChild() holds exactly when the node has a parent whose right child it is |
| RedBlack.RedBlackTree.LeftRef | RedBlackTree.java:30-39 | context[1] is the left child in the shape, whose parent is the node |
| RedBlack.RedBlackTree.RightRef | RedBlackTree.java:30-39 | context[2] is the right child in the shape, whose parent is the node |
| RedBlack.RedBlackTree.Grandparent | RedBlackTree.java:155-157 | grandparent() is the parent of the parent in the shape |
| RedBlack.RedBlackTree.Uncle | RedBlackTree.java:159-166 | uncle() is the grandparent's other child: the right one when the parent is a left child, the left one otherwise |
| RedBlack.RedBlackTree.Colour | RedBlackTree.java:27-28 | in a tree whose colours are all valid, a node's blackHeight is 0 (red) or 1 (black), never the double-black 2; it is the colour the specification functions read |
| RedBlack.RedBlackTree.Rotate | RedBlackTree.java:242-323 | rotate succeeds exactly when both nodes are non-null and the child is a child of the parent, and then the tree becomes the rotated shape with consistent references and the root updated; otherwise (IllegalArgumentException) nothing changes; values, colours and size are untouched |
| RedBlack.RedBlackTree.RotateRight | RedBlackTree.java:254-284 | the right-rotation updates, at the root or under a grandparent, and the new root |
| RedBlack.RedBlackTree.RotateLeft | RedBlackTree.java:289-321 | the left-rotation updates and the new root |
| RedBlack.RedBlackTree.ToggleColor | RedBlackTree.java:143-149 | toggleColorHelper flips the colour of a non-null node and changes nothing else |
| RedBlack.RedBlackTree.SwapAndRotate | RedBlackTree.java:120-128 | one case-1 branch yields exactly the specified rotation and colour swap |
| RedBlack.RedBlackTree.EnforceCaseOneHelper | RedBlackTree.java:119-140 | enforceCaseOneHelper yields exactly CaseOne of the old shape and colours |
| RedBlack.RedBlackTree.RotateAndCaseOne | RedBlackTree.java:82-94 | one case-2 block yields exactly Straighten |
| RedBlack.RedBlackTree.EnforceCasesOneAndTwo | RedBlackTree.java:77-94 | cases 1 and 2 yield exactly Realign and keep the nodes |
| RedBlack.RedBlackTree.ToggleFamily | RedBlackTree.java:99-102 | the three toggles of case 3 yield exactly Recolour and leave every reference alone |
| RedBlack.RedBlackTree.EnforceAfterInsert | RedBlackTree.java:74-113 | the fix-up method yields exactly the shape and colours of FixUp, and reports the null dereference exactly when FixUp does |
| RedBlack.RedBlackTree.EnforceCaseThree | RedBlackTree.java:96-112 | the case-3 part, with its recursive call on the grandparent, yields exactly CaseThree |
| RedBlack.RedBlackTree.NewNode | RedBlackTree.java:40-43 | a new node takes the next slot, holds the value, is red and has null references |
| RedBlack.RedBlackTree.AddChild | RedBlackTree.java:197-214 | linking the new node under current grows the shape by that leaf on the chosen side, with consistent references |
| RedBlack.RedBlackTree.InsertRoot | RedBlackTree.java:184-189 | insert into an empty tree follows Model.Insert |
| RedBlack.RedBlackTree.InsertBelow | RedBlackTree.java:196-222 | linking, counting and fixing up after the descent follows Model.Insert |
| RedBlack.RedBlackTree.Insert | RedBlackTree.java:178-226 | insert returns true, IllegalArgumentException or the fix-up's null dereference exactly as Model.Insert does, leaves the new state of Model.Insert, and changes nothing on a duplicate |
| RedBlack.RedBlackTree.FindNodeWithData | RedBlackTree.java:460-477 | the loop returns the descent's node: null exactly when the value is absent, otherwise a tree node holding it |
| RedBlack.RedBlackTree.Contains | RedBlackTree.java:394-402 | contains() holds exactly when the value is in the tree |
| RedBlack.RedBlackTree.FindMinOfRightSubtree | RedBlackTree.java:438-453 | with a right child, the loop returns the leftmost node of the right subtree, which is the in-order successor when there are two children; with no children it is IllegalArgumentException; a null node, or only a left child, is a null dereference |
| RedBlack.RedBlackTree.ReplaceNode | RedBlackTree.java:411-431 | a null node to replace is an error that changes nothing; otherwise the node's subtree becomes the replacement's subtree, with the parent (or root) reference redirected |
| RedBlack.RedBlackTree.Unhook | RedBlackTree.java:358-381 | the three child cases of remove yield exactly Unlink of the shape and values |
| RedBlack.RedBlackTree.Remove | RedBlackTree.java:349-387 | remove fails (IllegalArgumentException) exactly when the value is absent, and then changes nothing; otherwise it leaves the state of Model.Remove |
| Scenarios.TestCaseOne | RedBlackTree.java:598-611 | inserting 20, 10, 30, 40, 50 gives level order 20(1), 10(1), 40(1), 30(0), 50(0) and in-order 10(1), 20(1), 30(0), 40(1), 50(0) |
| Scenarios.TestCaseTwo | RedBlackTree.java:617-629 | inserting 20, 10, 30, 50, 40 gives the same level order and in-order |
| Scenarios.TestCaseThree | RedBlackTree.java:634-645 | inserting 40, 20, 60, 80 gives level order 40(1), 20(1), 60(1), 80(0) and in-order 20(1), 40(1), 60(1), 80(0) |
| Scenarios.TestRootLevelCaseTwo | RedBlackTree.java:80-98 | inserting 20, 10, 15 ends in the null dereference: case 2 and case 1 lift 15 to the root, and the case-3 test then reads the parent of the root |
| Scenarios.InsertThirdBetween | RedBlackTree.java:80-98 | a third value between the first two crashes in the case-3 test, with the new node already linked as the black root |
| Scenarios.InsertFirst | RedBlackTree.java:184-189 | the first value becomes a black root |
| Scenarios.InsertSecond | RedBlackTree.java:192-224 | a smaller second value becomes a red left child |
| Scenarios.InsertThird | RedBlackTree.java:74-113 | a larger third value becomes a red right child and the fix-up changes nothing |
| Scenarios.InsertFourth | RedBlackTree.java:96-112 | with a red uncle, case 3 recolours parent, uncle and grandparent, and the root is blackened again |
| Scenarios.InsertFifthInLine | RedBlackTree.java:119-129 | a right-right line with a missing uncle is rotated by case 1, with the colours swapped |
| Scenarios.TestUnevenBlackHeights | RedBlackTree.java:131-139 | inserting 40, 20, 60, 80, 10 ends normally with 20 as root over 10 and 40, 60, 80 in a line, and the tree is not black-balanced: case 1 rotates around the black parent 20 |
| Scenarios.TestRedUnderRed | RedBlackTree.java:98-111 | inserting 20, 10, 30, 40, 50, 60, 5 ends normally with the red 5 below the red 10: case 3 toggles the black parent 10 to red |
| Scenarios.InsertFifthLeft | RedBlackTree.java:131-139 | a fifth value below all others, under the black left child with a black uncle, is rotated by the left-left case-1 branch with nothing recoloured |
| Scenarios.InsertSixth | RedBlackTree.java:98-108 | with a red uncle two levels below the root, case 3 recolours and does not move up, since the grandparent's parent is the root, so the grandparent's grandparent is null |
| Scenarios.InsertSeventh | RedBlackTree.java:98-111 | with a red uncle and a black parent, case 3 makes the parent red and the root is blackened again |
| Scenarios.InsertFifthInTriangle | RedBlackTree.java:88-94 | a right-left triangle with a missing uncle is rotated by case 2 and then case 1 |

## Left out

- Generic values are modelled as `int`, and `compareTo` as integer order. `SortedCollectionInterface` and the null-argument `NullPointerException` checks of insert, remove and contains are not part of this model, because an `int` cannot be null.
- The string dumps (`toInOrderString`, `toLevelOrderString`, `toString` and the colour variants) are not modelled. The scenarios state their outcomes as sequences of values and colours instead.
- The test harness and `main` are not modelled.
- Node identity is an arena slot. A removed node's slot stays in the arena as garbage, and its fields keep their last values.
- The double-black colour value 2 is never produced by this code. `Valid` requires colours 0 or 1.
- `size` is an unbounded integer. A Java `int` overflow after 2^31 inserts is not modelled.
- The red-black balance properties (no red node with a red child, equal black heights) are not claimed for insert. The code does not establish them in every case: `Scenarios.TestUnevenBlackHeights` and `Scenarios.TestRedUnderRed` prove runs that end normally and break each of them. Remove does no rebalancing at all, as its own comment says.
- RedBlack.RedBlackTree.ReplaceNode: requires the replacement to be null or a child of the node to replace, which is how remove always calls it. An arbitrary replacement node, which could create a cycle, is not modelled.
- RedBlack.RedBlackTree.FindMinOfRightSubtree, RedBlack.RedBlackTree.Parent, RedBlack.RedBlackTree.Grandparent, RedBlack.RedBlackTree.Uncle: these require their argument to be a node of the tree (or null where the Java code checks for it). The model cannot be handed a node of another tree here, because nodes are slots.
- RedBlack.RedBlackTree.Insert: the Java code allocates the new node before it checks for a duplicate. The model allocates the slot only once the descent has found a free place, so a duplicate leaves even the arena untouched.
- The fix-up and remove are split into helper methods (`EnforceCasesOneAndTwo`, `RotateAndCaseOne`, `ToggleFamily`, `EnforceCaseThree`, `Unhook`) so that each can be proved on its own. They run the same statements in the same order.
