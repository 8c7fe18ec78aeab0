# Red-black tree primitives of `src/rbtree.c`, modelled in Dafny

The repository is a red-black tree of integer keys in C, after chapter 13
of Cormen, Leiserson, Rivest and Stein, *Introduction to Algorithms*. Four
functions hold its algorithms:

- `new_rbtree`: an empty tree whose root is the shared black sentinel `nil`.
- `left_rotate` / `right_rotate`: pointer surgery on `left`, `right` and
  `parent` that also updates `t->root`.
- `rbtree_insert_fixup`: recolours and rotates until no red node has a red
  child, then paints the root black and returns it.

This project models those four functions and proves what they promise.

## How the model is built

- **Arena.** Every `node_t` lives in an arena `nodes: seq<Node>` held by the
  class `RbTree.Tree`. A `Node` is a record of `key`, `color`, `left`,
  `right` and `parent`; links are slot numbers. Slot `NIL` (0) is `t->nil`.
  The field `root` is `t->root`.
- **Field writes.** A C field write becomes a replacement of one record in
  the arena, in the same order as the C code.
- **Shape.** A ghost `Shape` (`Leaf | Branch(lt, id, rt)`) is the binary tree
  that the links describe. `Linked` ties the arena to the shape.
  `Inorder`, `Ids` and `Keys` give the in-order node sequence, the node set
  and the in-order key sequence.
- **Colour rules.** `RedBlack` is the red-black rule set: black sentinel,
  black root, no red node with a red child (`NoRedRed`), and equal black
  height on every path (`Balanced`, via `BlackHeight`).
- **Fixup proof.** Inside `rbtree_insert_fixup` the proof carries a ghost
  "rank" map. A node's rank is the number of black nodes below it on any
  path. `RankOK` (every node agrees with its children's ranks) is
  equivalent to `Balanced` (`BalancedRank`, `RankBalanced`). This lets each
  loop case be checked one node at a time.
- **Loop body.** The C loop body is split into methods, one per branch:
  `FixupStep` picks the side, `FixupRight` and `FixupLeft` pick the uncle's
  colour, `FixupRecolor` is the red-uncle case, and `Fixup*Inner` and
  `Fixup*Outer` are the two black-uncle rotations. Each method makes the
  same field writes and rotation calls as the C branch it models.

The other functions of `src/rbtree.c` (`rbtree_insert`, `rbtree_find`,
`rbtree_min`, `rbtree_max`, `rbtree_erase`, `rbtree_to_array`) are
placeholders (see Left out), so the model covers only the four functions
above.

## Model

| member | source | states |
|---|---|---|
| `RbTree.Tree.constructor` | src/rbtree.c:5-14 | the new tree's root is the sentinel `nil`, whose colour is black; the tree is empty and satisfies every red-black rule |
| `RbTree.Tree.LeftRotate` | src/rbtree.c:18-37 | x's right child y takes x's place, under x's old parent or as `t->root`; x becomes y's left child, and y's old left subtree becomes x's right subtree. The new shape is the left rotation of the old one at x. The node set, in-order sequence, keys and colours are unchanged, and the sentinel is not written |
| `RbTree.Tree.RightRotate` | src/rbtree.c:41-60 | the mirror image of `LeftRotate`, promoting y's left child |
| `RbTree.Tree.RelinkLeft` | src/rbtree.c:18-37 | the pointer writes of `left_rotate`, in source order, produce exactly the link changes `LeftRotated` lists; all other records are untouched |
| `RbTree.Tree.RelinkRight` | src/rbtree.c:41-60 | the pointer writes of `right_rotate`, in source order, produce exactly the link changes `RightRotated` lists |
| `RbRotate.LeftRotatedTree` | src/rbtree.c:18-37 | on a well-formed tree, the arena after `left_rotate` is linked as the rotated shape; `t->root` is its top node, and keys, colours and the sentinel are unchanged |
| `RbRotate.RightRotatedTree` | src/rbtree.c:41-60 | the same for `right_rotate` |
| `RbRotate.RotateLeftAtKeeps` | src/rbtree.c:18-37 | a left rotation keeps the node set and the in-order sequence, and keeps each node appearing once |
| `RbRotate.RotateRightAtKeeps` | src/rbtree.c:41-60 | a right rotation keeps the node set and the in-order sequence, and keeps each node appearing once |
| `RbRotate.RotateLeftThenRight` | src/rbtree.c:18-60 | rotating right at the node that a left rotation at x promoted gives back the original shape |
| `RbRotate.LeftThenRightRestores` | src/rbtree.c:18-60 | `right_rotate` at the node promoted by `left_rotate(t, x)` restores every node record and `t->root` |
| `RbTree.Tree.InsertFixup` | src/rbtree.c:63-102 | from a tree that is red-black except that the red node z may have a red parent, it ends with a valid red-black tree (black root, no red-red edge, equal black height). The node set, in-order sequence and every key are unchanged. It returns `t->root`, which is black |
| `RbTree.Tree.FixupStep` | src/rbtree.c:65-99 | one pass of the loop keeps the loop invariant, the node set, in-order sequence and keys. Either z's parent is now black (the loop ends) or the shape is unchanged and z is two levels higher, which bounds the loop |
| `RbTree.Tree.FixupRight` | src/rbtree.c:66-81 | the loop body when z's parent is the grandparent's right child: keeps the invariant, and either z rises two levels or the loop ends |
| `RbTree.Tree.FixupLeft` | src/rbtree.c:82-97 | the mirror-image branch, with the same guarantees |
| `RbTree.Tree.FixupRecolor` | src/rbtree.c:68-72 | red uncle: parent and uncle turn black, the grandparent turns red, and z becomes the grandparent, two levels nearer the root. The shape is unchanged and the invariant holds for the new z |
| `RbTree.Tree.FixupRightInner` | src/rbtree.c:74-77 | black uncle with z an inner (left) child: z becomes its parent p, the arena is exactly the `right_rotate` writes at p, and the new shape is the right rotation at p. The old z now sits between the grandparent and the new z on the outer side; colours, keys and the invariant are kept |
| `RbTree.Tree.FixupRightOuter` | src/rbtree.c:78-80 | black uncle with z an outer child: the new arena is the painted one (p black, g red) with the `left_rotate` writes at g applied, and the new shape is the left rotation at g. z's parent is still p, now black, so the loop exits; the invariant, node set, in-order sequence and keys are kept |
| `RbTree.Tree.FixupLeftInner` | src/rbtree.c:90-93 | mirror image of `FixupRightInner`: the arena is exactly the `left_rotate` writes at p, and the new shape is the left rotation at p |
| `RbTree.Tree.FixupLeftOuter` | src/rbtree.c:94-96 | mirror image of `FixupRightOuter`: p black, g red, then the `right_rotate` writes at g, with the new shape the right rotation at g |
| `RbFixup.FixupStart` | src/rbtree.c:63-65 | a tree that is red-black except at z satisfies the loop invariant with ranks read off its black heights |
| `RbFixup.RedParentFacts` | src/rbtree.c:65-67 | while z's parent is red, z is not the root, and z's grandparent is a real black node two levels above z with the parent as one of its children |
| `RbFixup.RecolorCase` | src/rbtree.c:68-72 | after the red-uncle recolouring, the invariant holds with z moved to the grandparent and the grandparent's rank one higher. The grandparent is two levels above z, and keys and the sentinel are unchanged |
| `RbFixup.RightInnerCase` | src/rbtree.c:74-77 | after `right_rotate` at z's parent, the invariant holds for the old parent as the new z; the new z is the outer child, the uncle is untouched, and ranks, colours and keys are kept |
| `RbFixup.RightOuterCase` | src/rbtree.c:78-80 | after painting and `left_rotate` at the grandparent, the invariant holds with the same ranks and z's parent is black |
| `RbFixup.LeftInnerCase` | src/rbtree.c:90-93 | mirror image of `RightInnerCase` |
| `RbFixup.LeftOuterCase` | src/rbtree.c:94-96 | mirror image of `RightOuterCase` |
| `RbFixup.FixupDone` | src/rbtree.c:99-101 | when the loop has ended, painting `t->root` black leaves a tree satisfying every red-black rule |
| `RbColor.BalancedRank` | src/rbtree.c:63-102 | a black-balanced tree has a rank map satisfying the per-node black-height rule, and the root's rank matches the tree's black height |
| `RbColor.RankBalanced` | src/rbtree.c:63-102 | a rank map satisfying the per-node rule makes the tree black-balanced, with the root's black height given by its rank |
| `RbShape.LinkedClosed` | src/rbtree.c:18-60 | in a linked, well-shaped tree, every child link goes to a node of the tree or to the sentinel, and child and parent links agree |

## Left out

- `rbtree_insert`, `rbtree_find`, `rbtree_min`, `rbtree_max`, `rbtree_erase` and `rbtree_to_array` (src/rbtree.c:104-137) are `TODO` placeholders that return `t->root` or `0`. The descent, transplant and erase-fixup that the interface implies are not in the source, so they are not modelled.
- `delete_rbtree` (src/rbtree.c:109-112) only frees the handle. Memory release and leaks cannot be expressed in the model.
- `calloc` and `free` are not modelled. The arena is created with the sentinel in slot 0, and allocation failure is ignored. The zeroed sentinel's NULL links are modelled as links to slot 0; the code never reads them.
- `rbtree.h` is not part of this model. `key_t` is taken to be an unbounded integer. Keys are never compared by the modelled functions, so width does not matter.
- Pointers are modelled as arena slot numbers, and a field write as replacing one record of the arena. Aliasing between distinct trees cannot arise in the model.
- `InsertFixup`: only specified for a tree that is red-black except that the red node z may have a red parent. The C function checks nothing, and its behaviour on any other input is not modelled.
- `LeftRotate`, `RightRotate`: only specified for a pivot inside a well-formed tree. The C functions also run on pointer graphs that are not trees, and that behaviour is not modelled.
