// The red-black colouring rules over the arena: black height, the
// no-red-red rule, and a per-node "rank" (black nodes below a node) that
// states black-height balance one node at a time.

module RbColor {
  import opened RbShape

  /** Every node of t has a slot in an arena of length len. */
  ghost predicate InArena(t: Shape, len: nat)
  {
    match t
    case Leaf => true
    case Branch(l, id, r) => id < len && InArena(l, len) && InArena(r, len)
  }

  lemma {:induction false} LinkedInArena(s: seq<Node>, t: Shape, p: NodeId)
    requires Linked(s, t, p)
    ensures InArena(t, |s|)
  {
    match t
    case Leaf =>
    case Branch(l, id, r) => LinkedInArena(s, l, id); LinkedInArena(s, r, id);
  }

  /** 1 for a black node, 0 for a red one. */
  function Blk(s: seq<Node>, n: NodeId): nat
    requires n < |s|
  {
    if s[n].color == Black then 1 else 0
  }

  /**
   * Black nodes on the leftmost path from the top of t down to the sentinel
   * leaf, both ends included (the sentinel is black).
   */
  ghost function BlackHeight(s: seq<Node>, t: Shape): nat
    requires InArena(t, |s|)
  {
    match t
    case Leaf => 1
    case Branch(l, id, r) => Blk(s, id) + BlackHeight(s, l)
  }

  /**
   * At every node, both subtrees have the same black height: every path from
   * a node down to a sentinel leaf meets the same number of black nodes.
   */
  ghost predicate Balanced(s: seq<Node>, t: Shape)
    requires InArena(t, |s|)
  {
    match t
    case Leaf => true
    case Branch(l, id, r) =>
      BlackHeight(s, l) == BlackHeight(s, r) && Balanced(s, l) && Balanced(s, r)
  }

  /** The links of node n lead to slots of the arena. */
  ghost predicate LinksIn(s: seq<Node>, n: NodeId)
  {
    n < |s| && s[n].left < |s| && s[n].right < |s|
  }

  /** No red node among ids has a red child. */
  ghost predicate NoRedRed(s: seq<Node>, ids: set<NodeId>)
  {
    forall n :: n in ids ==>
      LinksIn(s, n) &&
      (s[n].color == Red ==> s[s[n].left].color == Black && s[s[n].right].color == Black)
  }

  /** The only red child a red node among ids may have is z. */
  ghost predicate RedOnlyAt(s: seq<Node>, ids: set<NodeId>, z: NodeId)
  {
    forall n :: n in ids ==>
      LinksIn(s, n) &&
      (s[n].color == Red ==> (s[s[n].left].color == Black || s[n].left == z) &&
                             (s[s[n].right].color == Black || s[n].right == z))
  }

  /** The red-black rules: black sentinel, black root, no red-red edge, balanced. */
  ghost predicate RedBlack(s: seq<Node>, t: Shape)
  {
    0 < |s| && s[NIL].color == Black && InArena(t, |s|) &&
    s[Root(t)].color == Black && NoRedRed(s, Ids(t)) && Balanced(s, t)
  }

  /** rank[n] counts the black nodes strictly below n on any path to a leaf. */
  ghost predicate RankAt(s: seq<Node>, rank: map<NodeId, nat>, n: NodeId)
  {
    LinksIn(s, n) && n in rank && s[n].left in rank && s[n].right in rank &&
    rank[n] == rank[s[n].left] + Blk(s, s[n].left) &&
    rank[n] == rank[s[n].right] + Blk(s, s[n].right)
  }

  ghost predicate RankOK(s: seq<Node>, ids: set<NodeId>, rank: map<NodeId, nat>)
  {
    NIL in rank && rank[NIL] == 0 && forall n :: n in ids ==> RankAt(s, rank, n)
  }

  /** The rank of every node of a balanced tree, read off its left subtree. */
  ghost function RankMap(s: seq<Node>, t: Shape): map<NodeId, nat>
    requires InArena(t, |s|)
  {
    match t
    case Leaf => map[NIL := 0]
    case Branch(l, id, r) => (RankMap(s, l) + RankMap(s, r))[id := BlackHeight(s, l)]
  }

  lemma {:induction false} RankMapKeys(s: seq<Node>, t: Shape)
    requires WellShaped(t) && InArena(t, |s|)
    ensures RankMap(s, t).Keys == Ids(t) + {NIL} && RankMap(s, t)[NIL] == 0
  {
    match t
    case Leaf =>
    case Branch(l, id, r) =>
      RankMapKeys(s, l);
      RankMapKeys(s, r);
  }

  /** A balanced tree has a rank map satisfying the per-node rule. */
  lemma {:induction false} BalancedRank(s: seq<Node>, t: Shape, p: NodeId)
    requires WellShaped(t) && Linked(s, t, p) && InArena(t, |s|) && Balanced(s, t)
    requires 0 < |s| && s[NIL].color == Black
    ensures RankOK(s, Ids(t), RankMap(s, t))
    ensures Root(t) in RankMap(s, t) && RankMap(s, t)[Root(t)] + Blk(s, Root(t)) == BlackHeight(s, t)
  {
    RankMapKeys(s, t);
    NilNotIn(t);
    match t
    case Leaf =>
    case Branch(l, id, r) =>
      BalancedRank(s, l, id);
      BalancedRank(s, r, id);
      RankMapKeys(s, l);
      RankMapKeys(s, r);
      var m, ml, mr := RankMap(s, t), RankMap(s, l), RankMap(s, r);
      assert forall k :: k in Ids(l) + {NIL} ==> m[k] == ml[k];
      assert forall k :: k in Ids(r) + {NIL} ==> m[k] == mr[k];
      LinkedClosed(s, t, p);
      forall n | n in Ids(t) ensures RankAt(s, m, n) {
        if n in Ids(l) {
          assert RankAt(s, ml, n);
        } else if n in Ids(r) {
          assert RankAt(s, mr, n);
        }
      }
  }

  /** A rank map satisfying the per-node rule makes the tree balanced. */
  lemma {:induction false} RankBalanced(s: seq<Node>, t: Shape, p: NodeId, rank: map<NodeId, nat>)
    requires WellShaped(t) && Linked(s, t, p) && InArena(t, |s|) && RankOK(s, Ids(t), rank)
    requires 0 < |s| && s[NIL].color == Black
    ensures Balanced(s, t)
    ensures Root(t) in rank && BlackHeight(s, t) == rank[Root(t)] + Blk(s, Root(t))
  {
    match t
    case Leaf =>
    case Branch(l, id, r) =>
      assert RankAt(s, rank, id);
      RankBalanced(s, l, id, rank);
      RankBalanced(s, r, id, rank);
  }
}
