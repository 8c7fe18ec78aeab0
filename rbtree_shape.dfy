// The node records of the red-black tree, kept in an arena indexed by node
// id, and the abstract tree shape that the arena's left/right/parent links
// describe. Slot NIL (0) is the tree's shared black sentinel `nil`.

module RbShape {

  /** The two node colours, RBTREE_RED and RBTREE_BLACK. */
  datatype Color = Red | Black

  /** A node is named by its slot in the arena; NIL is the sentinel's slot. */
  type NodeId = nat

  const NIL: NodeId := 0

  /** One node_t: its key, its colour and its three links. */
  datatype Node = Node(key: int, color: Color, left: NodeId, right: NodeId, parent: NodeId)

  /** The abstract shape of a (sub)tree: which node sits where. Leaf is the sentinel. */
  datatype Shape = Leaf | Branch(lt: Shape, id: NodeId, rt: Shape)

  /** The node a link to this subtree points at. */
  function Root(t: Shape): NodeId
  {
    if t.Leaf? then NIL else t.id
  }

  function Ids(t: Shape): set<NodeId>
  {
    match t
    case Leaf => {}
    case Branch(l, id, r) => Ids(l) + {id} + Ids(r)
  }

  /** The node ids in in-order (left, node, right). */
  function Inorder(t: Shape): seq<NodeId>
  {
    match t
    case Leaf => []
    case Branch(l, id, r) => Inorder(l) + [id] + Inorder(r)
  }

  /** Distance of node n from the root of t (0 when n is not in t). */
  function Depth(t: Shape, n: NodeId): nat
  {
    match t
    case Leaf => 0
    case Branch(l, id, r) =>
      if n == id then 0
      else if n in Ids(l) then 1 + Depth(l, n)
      else if n in Ids(r) then 1 + Depth(r, n)
      else 0
  }

  /** Every node occurs once, and none is the sentinel. */
  ghost predicate WellShaped(t: Shape)
  {
    match t
    case Leaf => true
    case Branch(l, id, r) =>
      id != NIL && id !in Ids(l) && id !in Ids(r) && Ids(l) !! Ids(r) &&
      WellShaped(l) && WellShaped(r)
  }

  /** The arena's links describe exactly the shape t hanging below node p. */
  ghost predicate Linked(s: seq<Node>, t: Shape, p: NodeId)
  {
    match t
    case Leaf => true
    case Branch(l, id, r) =>
      id < |s| && s[id].left == Root(l) && s[id].right == Root(r) && s[id].parent == p &&
      Linked(s, l, id) && Linked(s, r, id)
  }

  /**
   * What a reader of the arena can rely on inside a linked subtree below p:
   * links stay inside the subtree or go to the sentinel, child and parent
   * links agree, no node is its own child, and a parent is one level up.
   */
  ghost predicate ClosedBelow(s: seq<Node>, t: Shape, p: NodeId)
  {
    NIL !in Ids(t) &&
    (forall n :: n in Ids(t) ==> n < |s|) &&
    forall n :: n in Ids(t) ==>
      (s[n].left == NIL || (s[n].left in Ids(t) && s[s[n].left].parent == n)) &&
      (s[n].right == NIL || (s[n].right in Ids(t) && s[s[n].right].parent == n)) &&
      s[n].left != n && s[n].right != n &&
      (s[n].left == s[n].right ==> s[n].left == NIL) &&
      (n == Root(t) ==> s[n].parent == p) &&
      (n != Root(t) ==> s[n].parent in Ids(t) &&
                        (s[s[n].parent].left == n || s[s[n].parent].right == n) &&
                        Depth(t, s[n].parent) + 1 == Depth(t, n))
  }

  lemma {:induction false} NilNotIn(t: Shape)
    requires WellShaped(t)
    ensures NIL !in Ids(t)
  {
    match t
    case Leaf =>
    case Branch(l, id, r) => NilNotIn(l); NilNotIn(r);
  }

  lemma {:induction false} InorderIds(t: Shape)
    ensures forall i :: 0 <= i < |Inorder(t)| ==> Inorder(t)[i] in Ids(t)
  {
    match t
    case Leaf =>
    case Branch(l, id, r) =>
      InorderIds(l); InorderIds(r);
      forall i | 0 <= i < |Inorder(t)| ensures Inorder(t)[i] in Ids(t) {
        if i < |Inorder(l)| {
          assert Inorder(t)[i] == Inorder(l)[i];
        } else if i > |Inorder(l)| {
          assert Inorder(t)[i] == Inorder(r)[i - |Inorder(l)| - 1];
        }
      }
  }

  /** A linked, well-shaped subtree is closed in the sense of ClosedBelow. */
  lemma {:induction false} LinkedClosed(s: seq<Node>, t: Shape, p: NodeId)
    requires WellShaped(t) && Linked(s, t, p)
    ensures ClosedBelow(s, t, p)
  {
    NilNotIn(t);
    match t
    case Leaf =>
    case Branch(l, id, r) =>
      LinkedClosed(s, l, id);
      LinkedClosed(s, r, id);
      forall n | n in Ids(t)
        ensures n < |s|
        ensures s[n].left == NIL || (s[n].left in Ids(t) && s[s[n].left].parent == n)
        ensures s[n].right == NIL || (s[n].right in Ids(t) && s[s[n].right].parent == n)
        ensures s[n].left != n && s[n].right != n
        ensures s[n].left == s[n].right ==> s[n].left == NIL
        ensures n == Root(t) ==> s[n].parent == p
        ensures n != Root(t) ==> s[n].parent in Ids(t) &&
                                 (s[s[n].parent].left == n || s[s[n].parent].right == n) &&
                                 Depth(t, s[n].parent) + 1 == Depth(t, n)
      {
        if n == id {
          assert s[n].left == Root(l) && s[n].right == Root(r);
          NilNotIn(l); NilNotIn(r);
        } else if n in Ids(l) {
          if n == Root(l) {
            assert s[n].parent == id;
          }
        } else {
          assert n in Ids(r);
          if n == Root(r) {
            assert s[n].parent == id;
          }
        }
      }
  }

  /**
   * Linked depends only on the links of the subtree's own nodes, and the
   * parent link of its top node names the node above it.
   */
  lemma {:induction false} LinkedFrame(s: seq<Node>, s': seq<Node>, t: Shape, p: NodeId, p': NodeId)
    requires WellShaped(t) && Linked(s, t, p)
    requires forall n :: n in Ids(t) ==>
      n < |s| && n < |s'| && s'[n].left == s[n].left && s'[n].right == s[n].right &&
      (n != Root(t) ==> s'[n].parent == s[n].parent)
    requires t.Branch? ==> s'[t.id].parent == p'
    ensures Linked(s', t, p')
  {
    match t
    case Leaf =>
    case Branch(l, id, r) =>
      LinkedFrame(s, s', l, id, id);
      LinkedFrame(s, s', r, id, id);
  }

  /**
   * The facts of ClosedBelow for one node of the whole tree, without a
   * quantifier in the caller's context.
   */
  lemma NodeFacts(s: seq<Node>, t: Shape, n: NodeId)
    requires WellShaped(t) && Linked(s, t, NIL) && n in Ids(t)
    ensures NIL !in Ids(t) && n < |s|
    ensures s[n].left == NIL || (s[n].left in Ids(t) && s[n].left < |s| && s[s[n].left].parent == n)
    ensures s[n].right == NIL || (s[n].right in Ids(t) && s[n].right < |s| && s[s[n].right].parent == n)
    ensures s[n].left != n && s[n].right != n
    ensures s[n].left == s[n].right ==> s[n].left == NIL
    ensures n == Root(t) ==> s[n].parent == NIL
    ensures n != Root(t) ==> s[n].parent in Ids(t) && s[n].parent < |s| &&
                             (s[s[n].parent].left == n || s[s[n].parent].right == n) &&
                             Depth(t, s[n].parent) + 1 == Depth(t, n)
  {
    LinkedClosed(s, t, NIL);
  }

  /** Two arenas of equal length whose nodes have the same links. */
  ghost predicate SameLinks(s: seq<Node>, s': seq<Node>)
  {
    |s'| == |s| &&
    forall n :: 0 <= n < |s| ==>
      s'[n].left == s[n].left && s'[n].right == s[n].right && s'[n].parent == s[n].parent
  }

  /** Recolouring nodes does not change the shape the arena describes. */
  lemma {:induction false} SameLinksLinked(s: seq<Node>, s': seq<Node>, t: Shape, p: NodeId)
    requires Linked(s, t, p) && SameLinks(s, s')
    ensures Linked(s', t, p)
  {
    match t
    case Leaf =>
    case Branch(l, id, r) =>
      SameLinksLinked(s, s', l, id);
      SameLinksLinked(s, s', r, id);
  }
}
