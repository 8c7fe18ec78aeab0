// Rotations: their effect on the abstract shape (a local rearrangement at
// one node that keeps the in-order sequence) and on the arena (the field
// writes of left_rotate and right_rotate), and the proof that the two agree.

module RbRotate {
  import opened RbShape

  /** The shape after promoting x's right child into x's place. */
  function RotateLeftAt(t: Shape, x: NodeId): Shape
  {
    match t
    case Leaf => Leaf
    case Branch(l, id, r) =>
      if id == x then
        (if r.Branch? then Branch(Branch(l, id, r.lt), r.id, r.rt) else t)
      else if x in Ids(l) then Branch(RotateLeftAt(l, x), id, r)
      else Branch(l, id, RotateLeftAt(r, x))
  }

  /** The shape after promoting y's left child into y's place. */
  function RotateRightAt(t: Shape, y: NodeId): Shape
  {
    match t
    case Leaf => Leaf
    case Branch(l, id, r) =>
      if id == y then
        (if l.Branch? then Branch(l.lt, l.id, Branch(l.rt, id, r)) else t)
      else if y in Ids(l) then Branch(RotateRightAt(l, y), id, r)
      else Branch(l, id, RotateRightAt(r, y))
  }

  /**
   * A left rotation keeps the set of nodes, their in-order sequence and the
   * uniqueness of every node.
   */
  lemma {:induction false} RotateLeftAtKeeps(t: Shape, x: NodeId)
    requires WellShaped(t)
    ensures Ids(RotateLeftAt(t, x)) == Ids(t)
    ensures Inorder(RotateLeftAt(t, x)) == Inorder(t)
    ensures WellShaped(RotateLeftAt(t, x))
  {
    match t
    case Leaf =>
    case Branch(l, id, r) =>
      if id == x {
        if r.Branch? {
          assert Inorder(t) == Inorder(l) + [id] + (Inorder(r.lt) + [r.id] + Inorder(r.rt));
        }
      } else if x in Ids(l) {
        RotateLeftAtKeeps(l, x);
      } else {
        RotateLeftAtKeeps(r, x);
      }
  }

  lemma {:induction false} RotateRightAtKeeps(t: Shape, y: NodeId)
    requires WellShaped(t)
    ensures Ids(RotateRightAt(t, y)) == Ids(t)
    ensures Inorder(RotateRightAt(t, y)) == Inorder(t)
    ensures WellShaped(RotateRightAt(t, y))
  {
    match t
    case Leaf =>
    case Branch(l, id, r) =>
      if id == y {
        if l.Branch? {
          assert Inorder(t) == (Inorder(l.lt) + [l.id] + Inorder(l.rt)) + [id] + Inorder(r);
        }
      } else if y in Ids(l) {
        RotateRightAtKeeps(l, y);
      } else {
        RotateRightAtKeeps(r, y);
      }
  }

  /** Rotating right at the node a left rotation promoted gives back the shape. */
  lemma {:induction false} RotateLeftThenRight(t: Shape, x: NodeId, y: NodeId)
    requires WellShaped(t) && x in Ids(t)
    requires SubtreeAt(t, x).Branch? && SubtreeAt(t, x).rt.Branch? && y == SubtreeAt(t, x).rt.id
    ensures RotateRightAt(RotateLeftAt(t, x), y) == t
  {
    match t
    case Branch(l, id, r) =>
      if id == x {
      } else if x in Ids(l) {
        RotateLeftAtKeeps(l, x);
        SubtreeAtIn(l, x);
        RotateLeftThenRight(l, x, y);
      } else {
        RotateLeftAtKeeps(r, x);
        SubtreeAtIn(r, x);
        RotateLeftThenRight(r, x, y);
      }
  }

  /** The subtree of t whose top node is n (Leaf when n is not in t). */
  function SubtreeAt(t: Shape, n: NodeId): Shape
  {
    match t
    case Leaf => Leaf
    case Branch(l, id, r) =>
      if n == id then t
      else if n in Ids(l) then SubtreeAt(l, n)
      else SubtreeAt(r, n)
  }

  lemma {:induction false} SubtreeAtIn(t: Shape, n: NodeId)
    requires WellShaped(t) && n in Ids(t)
    ensures SubtreeAt(t, n).Branch? && SubtreeAt(t, n).id == n
    ensures Ids(SubtreeAt(t, n)) <= Ids(t)
  {
    match t
    case Branch(l, id, r) =>
      if n == id {
      } else if n in Ids(l) {
        SubtreeAtIn(l, n);
      } else {
        SubtreeAtIn(r, n);
      }
  }

  /**
   * The arena writes of left_rotate(t, x) (src/rbtree.c:18-37), with
   * y = x->right, b = y->left and px = x->parent: x->right becomes b and
   * x->parent becomes y; y->left becomes x and y->parent becomes px; b's
   * parent becomes x unless b is the sentinel; the slot of px that held x
   * (or t->root when px is the sentinel) now holds y. No other node, no
   * key and no colour changes, and the sentinel is never written.
   */
  ghost predicate LeftRotated(s: seq<Node>, root: NodeId, x: NodeId, s': seq<Node>, root': NodeId)
  {
    x < |s| && s[x].right < |s| && s[s[x].right].left < |s| && s[x].parent < |s| && |s'| == |s| &&
    var y := s[x].right;
    var b := s[y].left;
    var px := s[x].parent;
    s'[x] == s[x].(right := b, parent := y) &&
    s'[y] == s[y].(left := x, parent := px) &&
    (b != NIL ==> s'[b] == s[b].(parent := x)) &&
    (px == NIL ==> root' == y) &&
    (px != NIL ==> root' == root &&
                   if s[px].left == x then s'[px] == s[px].(left := y)
                   else s'[px] == s[px].(right := y)) &&
    forall n :: 0 <= n < |s| && n != x && n != y && (n == b || n == px ==> n == NIL) ==> s'[n] == s[n]
  }

  /**
   * The arena writes of right_rotate(t, y) (src/rbtree.c:41-60), the mirror
   * image of LeftRotated with x = y->left and b = x->right.
   */
  ghost predicate RightRotated(s: seq<Node>, root: NodeId, y: NodeId, s': seq<Node>, root': NodeId)
  {
    y < |s| && s[y].left < |s| && s[s[y].left].right < |s| && s[y].parent < |s| && |s'| == |s| &&
    var x := s[y].left;
    var b := s[x].right;
    var py := s[y].parent;
    s'[y] == s[y].(left := b, parent := x) &&
    s'[x] == s[x].(right := y, parent := py) &&
    (b != NIL ==> s'[b] == s[b].(parent := y)) &&
    (py == NIL ==> root' == x) &&
    (py != NIL ==> root' == root &&
                   if s[py].left == y then s'[py] == s[py].(left := x)
                   else s'[py] == s[py].(right := x)) &&
    forall n :: 0 <= n < |s| && n != x && n != y && (n == b || n == py ==> n == NIL) ==> s'[n] == s[n]
  }

  /** The arena after left_rotate is linked as the rotated shape, below the same parent. */
  lemma {:induction false} LeftRotatedLinkedBelow(s: seq<Node>, root: NodeId, x: NodeId, s': seq<Node>, root': NodeId,
                                                  t: Shape, p: NodeId)
    requires WellShaped(t) && Linked(s, t, p) && p !in Ids(t) && x in Ids(t)
    requires LeftRotated(s, root, x, s', root') && s[x].right != NIL
    ensures Linked(s', RotateLeftAt(t, x), p)
  {
    match t
    case Branch(l, id, r) =>
      if id == x {
        LeftRotatedLinkedTop(s, root, x, s', root', t, p);
      } else if x in Ids(l) {
        LeftRotatedLinkedBelow(s, root, x, s', root', l, id);
        LeftRotatedLinkedDown(s, root, x, s', root', t, p, true);
      } else {
        NilNotIn(t);
        LeftRotatedLinkedBelow(s, root, x, s', root', r, id);
        LeftRotatedLinkedDown(s, root, x, s', root', t, p, false);
      }
  }

  /** The case where x is the top of t: its right child takes its place. */
  lemma LeftRotatedLinkedTop(s: seq<Node>, root: NodeId, x: NodeId, s': seq<Node>, root': NodeId,
                             t: Shape, p: NodeId)
    requires WellShaped(t) && Linked(s, t, p) && p !in Ids(t) && t.Branch? && t.id == x
    requires LeftRotated(s, root, x, s', root') && s[x].right != NIL
    ensures Linked(s', RotateLeftAt(t, x), p)
  {
    var y := s[x].right;
    var b := s[y].left;
    var l, r := t.lt, t.rt;
    assert r.Branch? && r.id == y;
    assert b == Root(r.lt);
    NilNotIn(t);
    assert forall n :: n in Ids(l) ==> n < |s| by { LinkedClosed(s, l, x); }
    assert forall n :: n in Ids(r) ==> n < |s| by { LinkedClosed(s, r, x); }
    forall n | n in Ids(l) ensures s'[n] == s[n] { assert n != y && n != b; }
    LinkedFrame(s, s', l, x, x);
    forall n | n in Ids(r.lt) && n != b ensures s'[n] == s[n] { }
    LinkedFrame(s, s', r.lt, y, x);
    forall n | n in Ids(r.rt) ensures s'[n] == s[n] { assert n != b; }
    LinkedFrame(s, s', r.rt, y, y);
  }

  /**
   * The case where x lies strictly inside the left (goLeft) or right subtree
   * of t: the top of t keeps its links except that its child slot follows
   * the rotated subtree, and the other subtree is untouched.
   */
  lemma LeftRotatedLinkedDown(s: seq<Node>, root: NodeId, x: NodeId, s': seq<Node>, root': NodeId,
                              t: Shape, p: NodeId, goLeft: bool)
    requires WellShaped(t) && Linked(s, t, p) && p !in Ids(t) && t.Branch? && t.id != x
    requires if goLeft then x in Ids(t.lt) else x in Ids(t.rt)
    requires LeftRotated(s, root, x, s', root') && s[x].right != NIL
    requires Linked(s', RotateLeftAt(if goLeft then t.lt else t.rt, x), t.id)
    ensures Linked(s', RotateLeftAt(t, x), p)
  {
    var y := s[x].right;
    var b := s[y].left;
    var px := s[x].parent;
    var l, id, r := t.lt, t.id, t.rt;
    var (near, far) := if goLeft then (l, r) else (r, l);
    LinkedClosed(s, near, id);
    assert y in Ids(near) && (b == NIL || b in Ids(near));
    assert px == id || px in Ids(near);
    assert px == id <==> x == Root(near);
    NilNotIn(t);
    assert forall n :: n in Ids(far) ==> n < |s| by { LinkedClosed(s, far, id); }
    forall n | n in Ids(far) ensures s'[n] == s[n] { }
    LinkedFrame(s, s', far, id, id);
    if goLeft {
      assert RotateLeftAt(t, x) == Branch(RotateLeftAt(l, x), id, r);
    } else {
      assert x !in Ids(l);
      assert RotateLeftAt(t, x) == Branch(l, id, RotateLeftAt(r, x));
    }
  }

  /** The arena after right_rotate is linked as the rotated shape, below the same parent. */
  lemma {:induction false} RightRotatedLinkedBelow(s: seq<Node>, root: NodeId, y: NodeId, s': seq<Node>, root': NodeId,
                                                   t: Shape, p: NodeId)
    requires WellShaped(t) && Linked(s, t, p) && p !in Ids(t) && y in Ids(t)
    requires RightRotated(s, root, y, s', root') && s[y].left != NIL
    ensures Linked(s', RotateRightAt(t, y), p)
  {
    match t
    case Branch(l, id, r) =>
      if id == y {
        RightRotatedLinkedTop(s, root, y, s', root', t, p);
      } else if y in Ids(l) {
        RightRotatedLinkedBelow(s, root, y, s', root', l, id);
        RightRotatedLinkedDown(s, root, y, s', root', t, p, true);
      } else {
        NilNotIn(t);
        RightRotatedLinkedBelow(s, root, y, s', root', r, id);
        RightRotatedLinkedDown(s, root, y, s', root', t, p, false);
      }
  }

  /** The case where y is the top of t: its left child takes its place. */
  lemma RightRotatedLinkedTop(s: seq<Node>, root: NodeId, y: NodeId, s': seq<Node>, root': NodeId,
                              t: Shape, p: NodeId)
    requires WellShaped(t) && Linked(s, t, p) && p !in Ids(t) && t.Branch? && t.id == y
    requires RightRotated(s, root, y, s', root') && s[y].left != NIL
    ensures Linked(s', RotateRightAt(t, y), p)
  {
    var x := s[y].left;
    var b := s[x].right;
    var l, r := t.lt, t.rt;
    assert l.Branch? && l.id == x;
    assert b == Root(l.rt);
    NilNotIn(t);
    assert forall n :: n in Ids(r) ==> n < |s| by { LinkedClosed(s, r, y); }
    assert forall n :: n in Ids(l) ==> n < |s| by { LinkedClosed(s, l, y); }
    forall n | n in Ids(r) ensures s'[n] == s[n] { assert n != x && n != b; }
    LinkedFrame(s, s', r, y, y);
    forall n | n in Ids(l.rt) && n != b ensures s'[n] == s[n] { }
    LinkedFrame(s, s', l.rt, x, y);
    forall n | n in Ids(l.lt) ensures s'[n] == s[n] { assert n != b; }
    LinkedFrame(s, s', l.lt, x, x);
  }

  /** The case where y lies strictly inside the left (goLeft) or right subtree of t. */
  lemma RightRotatedLinkedDown(s: seq<Node>, root: NodeId, y: NodeId, s': seq<Node>, root': NodeId,
                               t: Shape, p: NodeId, goLeft: bool)
    requires WellShaped(t) && Linked(s, t, p) && p !in Ids(t) && t.Branch? && t.id != y
    requires if goLeft then y in Ids(t.lt) else y in Ids(t.rt)
    requires RightRotated(s, root, y, s', root') && s[y].left != NIL
    requires Linked(s', RotateRightAt(if goLeft then t.lt else t.rt, y), t.id)
    ensures Linked(s', RotateRightAt(t, y), p)
  {
    var x := s[y].left;
    var b := s[x].right;
    var py := s[y].parent;
    var l, id, r := t.lt, t.id, t.rt;
    var (near, far) := if goLeft then (l, r) else (r, l);
    LinkedClosed(s, near, id);
    assert x in Ids(near) && (b == NIL || b in Ids(near));
    assert py == id || py in Ids(near);
    assert py == id <==> y == Root(near);
    NilNotIn(t);
    assert forall n :: n in Ids(far) ==> n < |s| by { LinkedClosed(s, far, id); }
    forall n | n in Ids(far) ensures s'[n] == s[n] { }
    LinkedFrame(s, s', far, id, id);
    if goLeft {
      assert RotateRightAt(t, y) == Branch(RotateRightAt(l, y), id, r);
    } else {
      assert y !in Ids(l);
      assert RotateRightAt(t, y) == Branch(l, id, RotateRightAt(r, y));
    }
  }

  /**
   * left_rotate on a well-formed tree: the arena now describes the rotated
   * shape, t->root names its top node, and keys and colours are untouched.
   */
  lemma LeftRotatedTree(s: seq<Node>, root: NodeId, x: NodeId, s': seq<Node>, root': NodeId, t: Shape)
    requires WellShaped(t) && Linked(s, t, NIL) && root == Root(t) && x in Ids(t)
    requires LeftRotated(s, root, x, s', root') && s[x].right != NIL
    ensures WellShaped(RotateLeftAt(t, x)) && Linked(s', RotateLeftAt(t, x), NIL)
    ensures root' == Root(RotateLeftAt(t, x))
    ensures Ids(RotateLeftAt(t, x)) == Ids(t) && Inorder(RotateLeftAt(t, x)) == Inorder(t)
    ensures forall n :: 0 <= n < |s| ==> s'[n].key == s[n].key && s'[n].color == s[n].color
    ensures s'[NIL] == s[NIL]
  {
    NilNotIn(t);
    LinkedClosed(s, t, NIL);
    RotateLeftAtKeeps(t, x);
    LeftRotatedLinkedBelow(s, root, x, s', root', t, NIL);
    if x != root {
      assert s[x].parent in Ids(t);
    }
  }

  lemma RightRotatedTree(s: seq<Node>, root: NodeId, y: NodeId, s': seq<Node>, root': NodeId, t: Shape)
    requires WellShaped(t) && Linked(s, t, NIL) && root == Root(t) && y in Ids(t)
    requires RightRotated(s, root, y, s', root') && s[y].left != NIL
    ensures WellShaped(RotateRightAt(t, y)) && Linked(s', RotateRightAt(t, y), NIL)
    ensures root' == Root(RotateRightAt(t, y))
    ensures Ids(RotateRightAt(t, y)) == Ids(t) && Inorder(RotateRightAt(t, y)) == Inorder(t)
    ensures forall n :: 0 <= n < |s| ==> s'[n].key == s[n].key && s'[n].color == s[n].color
    ensures s'[NIL] == s[NIL]
  {
    NilNotIn(t);
    LinkedClosed(s, t, NIL);
    RotateRightAtKeeps(t, y);
    RightRotatedLinkedBelow(s, root, y, s', root', t, NIL);
    if y != root {
      assert s[y].parent in Ids(t);
    }
  }

  /**
   * right_rotate at the node that left_rotate(t, x) promoted restores every
   * node record and t->root.
   */
  lemma LeftThenRightRestores(s: seq<Node>, root: NodeId, x: NodeId, t: Shape,
                              s1: seq<Node>, root1: NodeId, s2: seq<Node>, root2: NodeId)
    requires WellShaped(t) && Linked(s, t, NIL) && root == Root(t) && x in Ids(t)
    requires LeftRotated(s, root, x, s1, root1) && s[x].right != NIL
    requires RightRotated(s1, root1, s[x].right, s2, root2)
    ensures s2 == s && root2 == root
  {
    LinkedClosed(s, t, NIL);
    var y := s[x].right;
    var b := s[y].left;
    var px := s[x].parent;
    assert y in Ids(t) && s[y].parent == x;
    assert b != NIL ==> b in Ids(t) && s[b].parent == y;
    assert x != root ==> px in Ids(t) && Depth(t, px) + 1 == Depth(t, x);
    assert x == root ==> px == NIL;
    assert px != NIL ==> s[px].left != y;
    forall n | 0 <= n < |s| ensures s2[n] == s[n] {
    }
    assert |s2| == |s|;
  }

  /** A node other than y, y->left and y->parent keeps its links and colour in right_rotate. */
  lemma RightRotatedOther(s: seq<Node>, root: NodeId, y: NodeId, s': seq<Node>, root': NodeId, n: NodeId)
    requires RightRotated(s, root, y, s', root') && n < |s|
    requires n != y && n != s[y].left && n != s[y].parent
    ensures s'[n].left == s[n].left && s'[n].right == s[n].right
    ensures s'[n].color == s[n].color && s'[n].key == s[n].key
  {
  }

  /** A node other than x, x->right and x->parent keeps its links and colour in left_rotate. */
  lemma LeftRotatedOther(s: seq<Node>, root: NodeId, x: NodeId, s': seq<Node>, root': NodeId, n: NodeId)
    requires LeftRotated(s, root, x, s', root') && n < |s|
    requires n != x && n != s[x].right && n != s[x].parent
    ensures s'[n].left == s[n].left && s'[n].right == s[n].right
    ensures s'[n].color == s[n].color && s'[n].key == s[n].key
  {
  }
}
