// The rbtree object of src/rbtree.c: its node records, t->root, and the
// operations that update them in place -- new_rbtree, left_rotate,
// right_rotate and rbtree_insert_fixup.

module RbTree {
  import opened RbShape
  import opened RbRotate
  import opened RbColor
  import opened RbFixup

  /** The keys of the nodes of t, in in-order. */
  ghost function InorderKeys(s: seq<Node>, t: Shape): seq<int>
    requires WellShaped(t) && Linked(s, t, NIL)
  {
    IdsInArena(s, t);
    InorderIds(t);
    seq(|Inorder(t)|, i requires 0 <= i < |Inorder(t)| => s[Inorder(t)[i]].key)
  }

  /**
   * One rbtree. Every node_t lives in the arena `nodes`; slot NIL is t->nil,
   * and `root` is t->root. The ghost `shape` is the binary tree the links
   * describe.
   */
  class Tree {
    var nodes: seq<Node>
    var root: NodeId
    ghost var shape: Shape

    /** The links describe shape, t->root is its top node, and t->nil is black. */
    ghost predicate Valid()
      reads this
    {
      0 < |nodes| && nodes[NIL].color == Black &&
      WellShaped(shape) && Linked(nodes, shape, NIL) && root == Root(shape)
    }

    /** The keys of the tree's nodes in in-order, smallest position first. */
    ghost function Keys(): seq<int>
      reads this
      requires Valid()
    {
      InorderKeys(nodes, shape)
    }

    /**
     * When the in-order sequence and every node's key are unchanged since
     * (s, t), so is the in-order key sequence.
     */
    lemma KeysKept(s: seq<Node>, t: Shape)
      requires Valid() && WellShaped(t) && Linked(s, t, NIL)
      requires Inorder(shape) == Inorder(t) && |nodes| == |s|
      requires forall n :: 0 <= n < |s| ==> nodes[n].key == s[n].key
      ensures Keys() == InorderKeys(s, t)
    {
      IdsInArena(nodes, shape);
      InorderIds(shape);
    }

    /**
     * new_rbtree (src/rbtree.c:5-14): a zeroed sentinel, painted black, that
     * is also the root of the empty tree.
     */
    constructor ()
      ensures Valid()
      ensures shape == Leaf && Ids(shape) == {} && root == NIL
      ensures nodes == [Node(0, Black, NIL, NIL, NIL)]
      ensures RedBlack(nodes, shape)
    {
      nodes := [Node(0, Black, NIL, NIL, NIL)];
      root := NIL;
      shape := Leaf;
    }

    /**
     * The nodes a rotation at x with child y touches: y's inner child b and
     * x's parent are real nodes distinct from x, y and each other, or NIL.
     */
    lemma RotateFacts(x: NodeId, y: NodeId)
      requires Valid() && x in Ids(shape) && x < |nodes| && (y == nodes[x].left || y == nodes[x].right) && y != NIL
      ensures x < |nodes| && y in Ids(shape) && y < |nodes| && nodes[y].parent == x && y != x
      ensures nodes[y].left != y && nodes[y].right != y && nodes[y].left != x && nodes[y].right != x
      ensures nodes[y].left != NIL ==> nodes[y].left < |nodes| && nodes[nodes[y].left].parent == y
      ensures nodes[y].right != NIL ==> nodes[y].right < |nodes| && nodes[nodes[y].right].parent == y
      ensures nodes[x].parent < |nodes| && nodes[x].parent != x && nodes[x].parent != y
      ensures nodes[x].parent != NIL ==>
                nodes[x].parent != nodes[y].left && nodes[x].parent != nodes[y].right &&
                (nodes[nodes[x].parent].left == x || nodes[nodes[x].parent].right == x)
      ensures nodes[x].parent == NIL <==> x == root
    {
      NodeFacts(nodes, shape, x);
      NodeFacts(nodes, shape, y);
      if nodes[y].left != NIL {
        NodeFacts(nodes, shape, nodes[y].left);
      }
      if nodes[y].right != NIL {
        NodeFacts(nodes, shape, nodes[y].right);
      }
      if x != root {
        NodeFacts(nodes, shape, nodes[x].parent);
      }
    }

    /**
     * left_rotate(t, x) (src/rbtree.c:18-37): x's right child y takes x's
     * place, x becomes y's left child and y's old left subtree becomes x's
     * right subtree. The in-order sequence, the keys and the colours are
     * unchanged.
     */
    method LeftRotate(x: NodeId)
      requires Valid() && x in Ids(shape) && x < |nodes| && nodes[x].right != NIL
      modifies this
      ensures LeftRotated(old(nodes), old(root), x, nodes, root)
      ensures Valid() && shape == RotateLeftAt(old(shape), x)
      ensures Ids(shape) == Ids(old(shape)) && Inorder(shape) == Inorder(old(shape))
      ensures |nodes| == |old(nodes)| && Keys() == InorderKeys(old(nodes), old(shape))
      ensures forall n :: 0 <= n < |nodes| ==> nodes[n].key == old(nodes)[n].key && nodes[n].color == old(nodes)[n].color
      ensures nodes[NIL] == old(nodes)[NIL]
    {
      RotateFacts(x, nodes[x].right);
      RelinkLeft(x);
      LeftRotatedTree(old(nodes), old(root), x, nodes, root, old(shape));
      shape := RotateLeftAt(shape, x);
      KeysKept(old(nodes), old(shape));
    }

    /**
     * right_rotate(t, y) (src/rbtree.c:41-60), the mirror image of
     * LeftRotate: y's left child x takes y's place.
     */
    method RightRotate(y: NodeId)
      requires Valid() && y in Ids(shape) && y < |nodes| && nodes[y].left != NIL
      modifies this
      ensures RightRotated(old(nodes), old(root), y, nodes, root)
      ensures Valid() && shape == RotateRightAt(old(shape), y)
      ensures Ids(shape) == Ids(old(shape)) && Inorder(shape) == Inorder(old(shape))
      ensures |nodes| == |old(nodes)| && Keys() == InorderKeys(old(nodes), old(shape))
      ensures forall n :: 0 <= n < |nodes| ==> nodes[n].key == old(nodes)[n].key && nodes[n].color == old(nodes)[n].color
      ensures nodes[NIL] == old(nodes)[NIL]
    {
      RotateFacts(y, nodes[y].left);
      RelinkRight(y);
      RightRotatedTree(old(nodes), old(root), y, nodes, root, old(shape));
      shape := RotateRightAt(shape, y);
      KeysKept(old(nodes), old(shape));
    }

    /**
     * rbtree_insert_fixup(t, z) (src/rbtree.c:63-102). Given a tree that is
     * red-black except that the red node z may have a red parent, it
     * recolours and rotates until no red node has a red child, paints
     * t->root black and returns t->root. The result keeps every red-black
     * rule, the same nodes in the same in-order sequence, and every key.
     */
    method InsertFixup(z0: NodeId) returns (r: NodeId)
      requires Valid() && RedBlackExceptAt(nodes, shape, z0)
      modifies this
      ensures Valid() && RedBlack(nodes, shape)
      ensures r == root && r != NIL && r < |nodes| && nodes[r].color == Black
      ensures Ids(shape) == Ids(old(shape)) && Inorder(shape) == Inorder(old(shape))
      ensures |nodes| == |old(nodes)| && Keys() == InorderKeys(old(nodes), old(shape))
      ensures forall n :: 0 <= n < |nodes| ==> nodes[n].key == old(nodes)[n].key
      ensures nodes[NIL] == old(nodes)[NIL]
    {
      FixupStart(nodes, shape, z0);
      ghost var rank := RankMap(nodes, shape);
      var z := z0;
      while nodes[nodes[z].parent].color == Red
        invariant Valid() && FixupInv(nodes, shape, rank, z)
        invariant Ids(shape) == Ids(old(shape)) && Inorder(shape) == Inorder(old(shape))
        invariant |nodes| == |old(nodes)| && nodes[NIL] == old(nodes)[NIL]
        invariant forall n :: 0 <= n < |nodes| ==> nodes[n].key == old(nodes)[n].key
        decreases if nodes[nodes[z].parent].color == Red then Depth(shape, z) + 1 else 0
      {
        z, rank := FixupStep(z, rank);
      }
      FixupDone(nodes, shape, rank, z);
      nodes := nodes[root := nodes[root].(color := Black)];
      KeysKept(old(nodes), old(shape));
      r := root;
    }

    /**
     * One pass of the body of the fixup loop (src/rbtree.c:66-98), on the
     * side of the grandparent g that z's parent p hangs from. Either z
     * moves two levels up with the shape unchanged, or z's parent ends
     * black.
     */
    method FixupStep(z: NodeId, ghost rank: map<NodeId, nat>) returns (z': NodeId, ghost rank': map<NodeId, nat>)
      requires Valid() && FixupInv(nodes, shape, rank, z) && nodes[nodes[z].parent].color == Red
      modifies this
      ensures Valid() && FixupInv(nodes, shape, rank', z')
      ensures Ids(shape) == Ids(old(shape)) && Inorder(shape) == Inorder(old(shape))
      ensures |nodes| == |old(nodes)| && nodes[NIL] == old(nodes)[NIL]
      ensures forall n :: 0 <= n < |nodes| ==> nodes[n].key == old(nodes)[n].key
      ensures nodes[nodes[z'].parent].color == Red ==>
                shape == old(shape) && Depth(shape, z') + 2 == Depth(shape, z)
    {
      var p := nodes[z].parent;
      var g := nodes[p].parent;
      Grandparent(nodes, shape, rank, z, p, g);
      if p == nodes[g].right {
        z', rank' := FixupRight(z, p, g, rank);
      } else {
        z', rank' := FixupLeft(z, p, g, rank);
      }
    }

    /**
     * The loop body when z's parent p is the right child of the
     * grandparent g (src/rbtree.c:66-81), with y = g->left the
     * uncle. A red uncle: p and y turn black, g red, and z = g, two levels
     * nearer the root, with the shape unchanged. A black uncle: an inner z
     * is first turned into an outer one, then the outer case leaves z
     * under a black parent.
     */
    method FixupRight(z: NodeId, p: NodeId, g: NodeId, ghost rank: map<NodeId, nat>) returns (z': NodeId, ghost rank': map<NodeId, nat>)
      requires Valid() && FixupInv(nodes, shape, rank, z) && p == nodes[z].parent && nodes[p].color == Red
      requires g == nodes[p].parent && g < |nodes| && nodes[g].right == p
      modifies this
      ensures Valid() && FixupInv(nodes, shape, rank', z')
      ensures Ids(shape) == Ids(old(shape)) && Inorder(shape) == Inorder(old(shape))
      ensures |nodes| == |old(nodes)| && nodes[NIL] == old(nodes)[NIL]
      ensures forall n :: 0 <= n < |nodes| ==> nodes[n].key == old(nodes)[n].key
      ensures nodes[nodes[z'].parent].color == Red ==>
                shape == old(shape) && Depth(shape, z') + 2 == Depth(shape, z)
    {
      Grandparent(nodes, shape, rank, z, p, g);
      var y := nodes[g].left;
      if nodes[y].color == Red {
        z', rank' := FixupRecolor(z, p, y, g, rank);
      } else {
        z', rank' := z, rank;
        var q := p;
        if z == nodes[p].left {
          z' := FixupRightInner(z, p, g, rank);
          q := nodes[z'].parent;
        }
        FixupRightOuter(z', q, g, rank);
      }
    }

    /**
     * The loop body when z's parent p is the left child of the
     * grandparent g (src/rbtree.c:82-97), with y = g->right the
     * uncle. A red uncle: p and y turn black, g red, and z = g, two levels
     * nearer the root, with the shape unchanged. A black uncle: an inner z
     * is first turned into an outer one, then the outer case leaves z
     * under a black parent.
     */
    method FixupLeft(z: NodeId, p: NodeId, g: NodeId, ghost rank: map<NodeId, nat>) returns (z': NodeId, ghost rank': map<NodeId, nat>)
      requires Valid() && FixupInv(nodes, shape, rank, z) && p == nodes[z].parent && nodes[p].color == Red
      requires g == nodes[p].parent && g < |nodes| && nodes[g].left == p
      modifies this
      ensures Valid() && FixupInv(nodes, shape, rank', z')
      ensures Ids(shape) == Ids(old(shape)) && Inorder(shape) == Inorder(old(shape))
      ensures |nodes| == |old(nodes)| && nodes[NIL] == old(nodes)[NIL]
      ensures forall n :: 0 <= n < |nodes| ==> nodes[n].key == old(nodes)[n].key
      ensures nodes[nodes[z'].parent].color == Red ==>
                shape == old(shape) && Depth(shape, z') + 2 == Depth(shape, z)
    {
      Grandparent(nodes, shape, rank, z, p, g);
      var y := nodes[g].right;
      if nodes[y].color == Red {
        z', rank' := FixupRecolor(z, p, y, g, rank);
      } else {
        z', rank' := z, rank;
        var q := p;
        if z == nodes[p].right {
          z' := FixupLeftInner(z, p, g, rank);
          q := nodes[z'].parent;
        }
        FixupLeftOuter(z', q, g, rank);
      }
    }

    /**
     * Red uncle y (src/rbtree.c:68-72 and 84-88): z's parent p and y turn
     * black, the grandparent g turns red, and z moves up to g. The shape
     * is unchanged, g's black height below it grows by one, and g is two
     * levels nearer the root than z was.
     */
    method FixupRecolor(z: NodeId, p: NodeId, y: NodeId, g: NodeId, ghost rank: map<NodeId, nat>)
      returns (z': NodeId, ghost rank': map<NodeId, nat>)
      requires Valid() && FixupInv(nodes, shape, rank, z) && p == nodes[z].parent && nodes[p].color == Red
      requires g == nodes[p].parent && g < |nodes| && y < |nodes| && (nodes[g].left == y || nodes[g].right == y)
      requires y != p && nodes[y].color == Red
      modifies this
      ensures z' == g && g in rank && rank' == rank[g := rank[g] + 1]
      ensures nodes == Recolored(old(nodes), p, y, g) && shape == old(shape)
      ensures Valid() && FixupInv(nodes, shape, rank', z') && Depth(shape, z') + 2 == Depth(shape, z)
      ensures |nodes| == |old(nodes)| && nodes[NIL] == old(nodes)[NIL]
      ensures forall n :: 0 <= n < |nodes| ==> nodes[n].key == old(nodes)[n].key
    {
      RecolorCase(nodes, shape, rank, z, p, y, g);
      nodes := nodes[p := nodes[p].(color := Black)];
      nodes := nodes[y := nodes[y].(color := Black)];
      nodes := nodes[g := nodes[g].(color := Red)];
      z', rank' := g, rank[g := rank[g] + 1];
    }

    /**
     * Black uncle, with z the left child of its parent p, which is the
     * right child of g (src/rbtree.c:74-77): z = z->parent;
     * right_rotate(t, z). The old z now sits between g and the new z, on the
     * outer side, and the black uncle is untouched.
     */
    method FixupRightInner(z: NodeId, ghost p: NodeId, ghost g: NodeId, ghost rank: map<NodeId, nat>) returns (z': NodeId)
      requires Valid() && FixupInv(nodes, shape, rank, z) && p == nodes[z].parent && nodes[p].color == Red
      requires g == nodes[p].parent && g < |nodes| && nodes[g].right == p && nodes[p].left == z
      modifies this
      ensures z' == p && Valid() && FixupInv(nodes, shape, rank, z')
      ensures |nodes| == |old(nodes)| && nodes[NIL] == old(nodes)[NIL]
      ensures nodes[z'].parent == z && nodes[z].parent == g && nodes[g].right == z && nodes[z].right == z'
      ensures nodes[g].left == old(nodes)[g].left && nodes[z].color == Red
      ensures shape == RotateRightAt(old(shape), p) && RightRotated(old(nodes), old(root), p, nodes, root)
      ensures forall n :: 0 <= n < |nodes| ==> nodes[n].color == old(nodes)[n].color
      ensures Ids(shape) == Ids(old(shape)) && Inorder(shape) == Inorder(old(shape))
      ensures forall n :: 0 <= n < |nodes| ==> nodes[n].key == old(nodes)[n].key
    {
      ghost var s, t := nodes, shape;
      Grandparent(nodes, shape, rank, z, p, g);
      z' := nodes[z].parent;
      RightRotate(z');
      RightInnerCase(s, t, rank, z, p, g, nodes, root);
    }

    /**
     * Black uncle, with z the right child of its parent p, which is the
     * right child of g (src/rbtree.c:78-80): p turns black, g red,
     * and left_rotate(t, g) puts p in g's place, so z's parent is now black
     * and the loop ends.
     */
    method FixupRightOuter(z: NodeId, p: NodeId, g: NodeId, ghost rank: map<NodeId, nat>)
      requires Valid() && FixupInv(nodes, shape, rank, z) && p == nodes[z].parent && nodes[p].color == Red
      requires g == nodes[p].parent && g < |nodes| && nodes[g].right == p && nodes[p].right == z
      requires nodes[g].left < |nodes| && nodes[nodes[g].left].color == Black
      modifies this
      ensures Valid() && FixupInv(nodes, shape, rank, z) && nodes[nodes[z].parent].color == Black
      ensures shape == RotateLeftAt(old(shape), g) && LeftRotated(Painted(old(nodes), p, g), old(root), g, nodes, root)
      ensures nodes[z].parent == p && nodes[p].color == Black && nodes[g].color == Red
      ensures |nodes| == |old(nodes)| && nodes[NIL] == old(nodes)[NIL]
      ensures Ids(shape) == Ids(old(shape)) && Inorder(shape) == Inorder(old(shape))
      ensures forall n :: 0 <= n < |nodes| ==> nodes[n].key == old(nodes)[n].key
    {
      ghost var s, t := nodes, shape;
      Grandparent(nodes, shape, rank, z, p, g);
      nodes := Painted(nodes, p, g);
      PaintedFacts(s, p, g);
      SameLinksLinked(s, nodes, shape, NIL);
      LeftRotate(g);
      RightOuterCase(s, t, rank, z, p, g, nodes, root);
    }

    /**
     * Black uncle, with z the right child of its parent p, which is the
     * left child of g (src/rbtree.c:90-93): z = z->parent;
     * left_rotate(t, z). The old z now sits between g and the new z, on the
     * outer side, and the black uncle is untouched.
     */
    method FixupLeftInner(z: NodeId, ghost p: NodeId, ghost g: NodeId, ghost rank: map<NodeId, nat>) returns (z': NodeId)
      requires Valid() && FixupInv(nodes, shape, rank, z) && p == nodes[z].parent && nodes[p].color == Red
      requires g == nodes[p].parent && g < |nodes| && nodes[g].left == p && nodes[p].right == z
      modifies this
      ensures z' == p && Valid() && FixupInv(nodes, shape, rank, z')
      ensures |nodes| == |old(nodes)| && nodes[NIL] == old(nodes)[NIL]
      ensures nodes[z'].parent == z && nodes[z].parent == g && nodes[g].left == z && nodes[z].left == z'
      ensures nodes[g].right == old(nodes)[g].right && nodes[z].color == Red
      ensures shape == RotateLeftAt(old(shape), p) && LeftRotated(old(nodes), old(root), p, nodes, root)
      ensures forall n :: 0 <= n < |nodes| ==> nodes[n].color == old(nodes)[n].color
      ensures Ids(shape) == Ids(old(shape)) && Inorder(shape) == Inorder(old(shape))
      ensures forall n :: 0 <= n < |nodes| ==> nodes[n].key == old(nodes)[n].key
    {
      ghost var s, t := nodes, shape;
      Grandparent(nodes, shape, rank, z, p, g);
      z' := nodes[z].parent;
      LeftRotate(z');
      LeftInnerCase(s, t, rank, z, p, g, nodes, root);
    }

    /**
     * Black uncle, with z the left child of its parent p, which is the
     * left child of g (src/rbtree.c:94-96): p turns black, g red,
     * and right_rotate(t, g) puts p in g's place, so z's parent is now black
     * and the loop ends.
     */
    method FixupLeftOuter(z: NodeId, p: NodeId, g: NodeId, ghost rank: map<NodeId, nat>)
      requires Valid() && FixupInv(nodes, shape, rank, z) && p == nodes[z].parent && nodes[p].color == Red
      requires g == nodes[p].parent && g < |nodes| && nodes[g].left == p && nodes[p].left == z
      requires nodes[g].right < |nodes| && nodes[nodes[g].right].color == Black
      modifies this
      ensures Valid() && FixupInv(nodes, shape, rank, z) && nodes[nodes[z].parent].color == Black
      ensures shape == RotateRightAt(old(shape), g) && RightRotated(Painted(old(nodes), p, g), old(root), g, nodes, root)
      ensures nodes[z].parent == p && nodes[p].color == Black && nodes[g].color == Red
      ensures |nodes| == |old(nodes)| && nodes[NIL] == old(nodes)[NIL]
      ensures Ids(shape) == Ids(old(shape)) && Inorder(shape) == Inorder(old(shape))
      ensures forall n :: 0 <= n < |nodes| ==> nodes[n].key == old(nodes)[n].key
    {
      ghost var s, t := nodes, shape;
      Grandparent(nodes, shape, rank, z, p, g);
      nodes := Painted(nodes, p, g);
      PaintedFacts(s, p, g);
      SameLinksLinked(s, nodes, shape, NIL);
      RightRotate(g);
      LeftOuterCase(s, t, rank, z, p, g, nodes, root);
    }

    /**
     * The pointer writes of left_rotate(t, x) (src/rbtree.c:18-37), in the
     * order the C code makes them. They need only that x's right child y
     * is a real node and that y's left child and x's parent are distinct
     * from x, y and each other unless they are the sentinel.
     */
    method RelinkLeft(x: NodeId)
      requires x < |nodes| && nodes[x].right != NIL && nodes[x].right < |nodes| && nodes[x].right != x
      requires var y := nodes[x].right; var b := nodes[y].left; var px := nodes[x].parent;
               b < |nodes| && b != x && b != y && px < |nodes| && px != x && px != y &&
               (px != NIL ==> px != b && (nodes[px].left == x || nodes[px].right == x))
      modifies this
      ensures LeftRotated(old(nodes), old(root), x, nodes, root)
      ensures shape == old(shape)
    {
      var y := nodes[x].right;
      nodes := nodes[x := nodes[x].(right := nodes[y].left)];
      if nodes[y].left != NIL {
        nodes := nodes[nodes[y].left := nodes[nodes[y].left].(parent := x)];
      }
      nodes := nodes[y := nodes[y].(parent := nodes[x].parent)];
      if nodes[x].parent == NIL {
        root := y;
      } else if x == nodes[nodes[x].parent].left {
        nodes := nodes[nodes[x].parent := nodes[nodes[x].parent].(left := y)];
      } else {
        nodes := nodes[nodes[x].parent := nodes[nodes[x].parent].(right := y)];
      }
      nodes := nodes[y := nodes[y].(left := x)];
      nodes := nodes[x := nodes[x].(parent := y)];
    }

    /** The pointer writes of right_rotate(t, y) (src/rbtree.c:41-60), mirroring RelinkLeft. */
    method RelinkRight(y: NodeId)
      requires y < |nodes| && nodes[y].left != NIL && nodes[y].left < |nodes| && nodes[y].left != y
      requires var x := nodes[y].left; var b := nodes[x].right; var py := nodes[y].parent;
               b < |nodes| && b != x && b != y && py < |nodes| && py != x && py != y &&
               (py != NIL ==> py != b && (nodes[py].left == y || nodes[py].right == y))
      modifies this
      ensures RightRotated(old(nodes), old(root), y, nodes, root)
      ensures shape == old(shape)
    {
      var x := nodes[y].left;
      nodes := nodes[y := nodes[y].(left := nodes[x].right)];
      if nodes[x].right != NIL {
        nodes := nodes[nodes[x].right := nodes[nodes[x].right].(parent := y)];
      }
      nodes := nodes[x := nodes[x].(parent := nodes[y].parent)];
      if nodes[y].parent == NIL {
        root := x;
      } else if y == nodes[nodes[y].parent].left {
        nodes := nodes[nodes[y].parent := nodes[nodes[y].parent].(left := x)];
      } else {
        nodes := nodes[nodes[y].parent := nodes[nodes[y].parent].(right := x)];
      }
      nodes := nodes[x := nodes[x].(right := y)];
      nodes := nodes[y := nodes[y].(parent := x)];
    }
  }
}
