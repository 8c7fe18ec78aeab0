// The loop invariant of rbtree_insert_fixup and one lemma per loop case
// (src/rbtree.c:65-99): the recolouring case moves the violation two levels
// up, the inner black-uncle case rotates at the parent into the outer case,
// and the outer case recolours and rotates at the grandparent, which ends
// the loop.

module RbFixup {
  import opened RbShape
  import opened RbRotate
  import opened RbColor

  /**
   * The state at the head of the fixup loop: a linked tree whose only
   * red-red edge ends at the red node z, black-balanced as witnessed by rank,
   * with a black root unless z is the root.
   */
  ghost predicate FixupInv(s: seq<Node>, t: Shape, rank: map<NodeId, nat>, z: NodeId)
  {
    0 < |s| && s[NIL].color == Black &&
    WellShaped(t) && Linked(s, t, NIL) && InArena(t, |s|) &&
    z in Ids(t) && z < |s| && s[z].parent < |s| && s[z].color == Red &&
    RankOK(s, Ids(t), rank) && RedOnlyAt(s, Ids(t), z) &&
    (s[Root(t)].color == Black || z == Root(t))
  }

  /**
   * What rbtree_insert_fixup expects of its caller: a linked tree that keeps
   * every red-black rule, except that the red node z may have a red parent
   * and may be a red root.
   */
  ghost predicate RedBlackExceptAt(s: seq<Node>, t: Shape, z: NodeId)
  {
    0 < |s| && s[NIL].color == Black &&
    WellShaped(t) && Linked(s, t, NIL) && InArena(t, |s|) &&
    z in Ids(t) && z < |s| && s[z].color == Red &&
    RedOnlyAt(s, Ids(t), z) && Balanced(s, t) &&
    (s[Root(t)].color == Black || z == Root(t))
  }

  /** The loop invariant holds on entry, with the ranks read off the balanced tree. */
  lemma FixupStart(s: seq<Node>, t: Shape, z: NodeId)
    requires RedBlackExceptAt(s, t, z)
    ensures FixupInv(s, t, RankMap(s, t), z)
  {
    BalancedRank(s, t, NIL);
    NodeFacts(s, t, z);
  }

  /** Every node of a linked tree has a slot in the arena. */
  lemma IdsInArena(s: seq<Node>, t: Shape)
    requires WellShaped(t) && Linked(s, t, NIL)
    ensures forall n :: n in Ids(t) ==> n < |s|
  {
    LinkedClosed(s, t, NIL);
  }

  /** In a linked tree, the only node with c as a child is c's parent. */
  lemma OnlyParent(s: seq<Node>, t: Shape, c: NodeId)
    requires WellShaped(t) && Linked(s, t, NIL) && c in Ids(t)
    ensures c < |s|
    ensures forall n :: n in Ids(t) ==>
      (LinksIn(s, n) && (s[n].left == c || s[n].right == c) ==> n == s[c].parent) &&
      (LinksIn(s, n) ==> s[n].left != n && s[n].right != n)
  {
    NodeFacts(s, t, c);
    forall n | n in Ids(t)
      ensures LinksIn(s, n) && (s[n].left == c || s[n].right == c) ==> n == s[c].parent
      ensures LinksIn(s, n) ==> s[n].left != n && s[n].right != n
    {
      NodeFacts(s, t, n);
    }
  }

  /**
   * When z's parent p is red (the loop condition, src/rbtree.c:65), p is not
   * the root, so the grandparent g is a real node, and g is black.
   */
  lemma RedParentFacts(s: seq<Node>, t: Shape, rank: map<NodeId, nat>, z: NodeId)
    requires FixupInv(s, t, rank, z)
    requires s[s[z].parent].color == Red
    ensures var p := s[z].parent;
            z != Root(t) && p != NIL && p in Ids(t) && p != Root(t) && p < |s| && p != z &&
            (s[p].left == z || s[p].right == z)
    ensures var p := s[z].parent; var g := s[p].parent;
            g != NIL && g in Ids(t) && g < |s| && g != p && g != z &&
            (s[g].left == p || s[g].right == p) && s[g].color == Black &&
            Depth(t, g) + 2 == Depth(t, z) && LinksIn(s, g) && LinksIn(s, p) && LinksIn(s, z)
  {
    var p := s[z].parent;
    var g := s[p].parent;
    NodeFacts(s, t, z);
    NodeFacts(s, t, p);
    NodeFacts(s, t, g);
    assert RankAt(s, rank, g) && RankAt(s, rank, p) && RankAt(s, rank, z);
  }

  /** The same facts, for a caller that names z's parent p and grandparent g. */
  lemma Grandparent(s: seq<Node>, t: Shape, rank: map<NodeId, nat>, z: NodeId, p: NodeId, g: NodeId)
    requires FixupInv(s, t, rank, z) && p == s[z].parent && s[p].color == Red && g == s[p].parent
    ensures p != NIL && g != NIL && p != g && p != z && p in Ids(t) && g in Ids(t) && LinksIn(s, p) && LinksIn(s, g)
    ensures (s[p].left == z || s[p].right == z) && (s[g].left == p || s[g].right == p)
    ensures s[p].left != s[p].right && s[g].left != s[g].right
  {
    RedParentFacts(s, t, rank, z);
    NodeFacts(s, t, p);
    NodeFacts(s, t, g);
  }

  /** The state after recolouring p and the uncle u black and g red. */
  function Recolored(s: seq<Node>, p: NodeId, u: NodeId, g: NodeId): (s': seq<Node>)
    requires p < |s| && u < |s| && g < |s|
    ensures |s'| == |s|
  {
    s[p := s[p].(color := Black)][u := s[u].(color := Black)][g := s[g].(color := Red)]
  }

  /** Recolouring changes only the colours of p, u and g. */
  lemma RecoloredFacts(s: seq<Node>, p: NodeId, u: NodeId, g: NodeId)
    requires p < |s| && u < |s| && g < |s|
    ensures var s' := Recolored(s, p, u, g);
            SameLinks(s, s') &&
            s'[g].color == Red && (u != g ==> s'[u].color == Black) && (p != g ==> s'[p].color == Black) &&
            (forall n :: 0 <= n < |s| && n != p && n != u && n != g ==> s'[n] == s[n]) &&
            (forall n :: 0 <= n < |s| ==> s'[n].key == s[n].key)
  {
  }

  /**
   * Red uncle (src/rbtree.c:68-72 and 84-88): after recolouring, the
   * invariant holds with z moved to the grandparent, whose rank grows by one.
   */
  lemma RecolorCase(s: seq<Node>, t: Shape, rank: map<NodeId, nat>, z: NodeId, p: NodeId, u: NodeId, g: NodeId)
    requires FixupInv(s, t, rank, z) && p == s[z].parent && p < |s| && s[p].color == Red
    requires g == s[p].parent && g < |s| && u < |s| && (s[g].left == u || s[g].right == u) && u != p
    requires s[u].color == Red
    ensures g in rank && FixupInv(Recolored(s, p, u, g), t, rank[g := rank[g] + 1], g)
    ensures Depth(t, g) + 2 == Depth(t, z)
    ensures Recolored(s, p, u, g)[NIL] == s[NIL]
    ensures forall n :: 0 <= n < |s| ==> Recolored(s, p, u, g)[n].key == s[n].key
  {
    RedParentFacts(s, t, rank, z);
    UncleFacts(s, t, rank, z, u);
    RecolorShape(s, t, z, p, u, g);
    RecolorRules(s, t, rank, z, p, u, g);
    RecoloredFacts(s, p, u, g);
  }

  /** A red uncle u of z is a real node, the other child of the grandparent. */
  lemma UncleFacts(s: seq<Node>, t: Shape, rank: map<NodeId, nat>, z: NodeId, u: NodeId)
    requires FixupInv(s, t, rank, z)
    requires s[s[z].parent].color == Red
    requires var g := s[s[z].parent].parent;
             g < |s| && u < |s| && (s[g].left == u || s[g].right == u) && u != s[z].parent
    requires s[u].color == Red
    ensures var p := s[z].parent; var g := s[p].parent;
            u != NIL && u in Ids(t) && s[u].parent == g && u != Root(t) && u != z && u != g &&
            ((s[g].left == p && s[g].right == u) || (s[g].left == u && s[g].right == p))
  {
    RedParentFacts(s, t, rank, z);
    var p := s[z].parent;
    var g := s[p].parent;
    NodeFacts(s, t, g);
    NodeFacts(s, t, u);
  }

  /** Recolouring keeps the links, the sentinel's colour and a black root. */
  lemma RecolorShape(s: seq<Node>, t: Shape, z: NodeId, p: NodeId, u: NodeId, g: NodeId)
    requires 0 < |s| && s[NIL].color == Black && WellShaped(t) && Linked(s, t, NIL)
    requires p in Ids(t) && u in Ids(t) && g in Ids(t) && p < |s| && u < |s| && g < |s|
    requires s[Root(t)].color == Black || z == Root(t)
    requires z != Root(t) && p != Root(t) && u != Root(t)
    ensures var s' := Recolored(s, p, u, g);
            Linked(s', t, NIL) && InArena(t, |s'|) && s'[NIL].color == Black &&
            s'[g].parent < |s'| && s'[g].color == Red &&
            (s'[Root(t)].color == Black || g == Root(t))
  {
    NilNotIn(t);
    NodeFacts(s, t, p);
    NodeFacts(s, t, u);
    NodeFacts(s, t, g);
    var s' := Recolored(s, p, u, g);
    RecoloredFacts(s, p, u, g);
    SameLinksLinked(s, s', t, NIL);
    LinkedInArena(s', t, NIL);
  }

  /** After recolouring, the rank and colour rules hold with g as the new z. */
  lemma RecolorRules(s: seq<Node>, t: Shape, rank: map<NodeId, nat>, z: NodeId, p: NodeId, u: NodeId, g: NodeId)
    requires WellShaped(t) && Linked(s, t, NIL) && RankOK(s, Ids(t), rank) && RedOnlyAt(s, Ids(t), z)
    requires z in Ids(t) && p in Ids(t) && u in Ids(t) && g in Ids(t) && p != u && z != p && z != u && g != z
    requires s[z].parent == p && s[p].parent == g && s[u].parent == g
    requires LinksIn(s, g) && ((s[g].left == p && s[g].right == u) || (s[g].left == u && s[g].right == p))
    requires s[p].color == Red && s[u].color == Red && s[g].color == Black
    ensures g in rank && RankOK(Recolored(s, p, u, g), Ids(t), rank[g := rank[g] + 1]) &&
            RedOnlyAt(Recolored(s, p, u, g), Ids(t), g)
  {
    var gg := s[g].parent;
    IdsInArena(s, t);
    OnlyParent(s, t, z);
    OnlyParent(s, t, p);
    OnlyParent(s, t, u);
    OnlyParent(s, t, g);
    NodeFacts(s, t, g);
    if gg != NIL {
      NodeFacts(s, t, gg);
    }
    NilNotIn(t);
    RecolorRulesIds(s, Ids(t), rank, z, p, u, g, gg);
  }

  lemma RecolorRulesIds(s: seq<Node>, ids: set<NodeId>, rank: map<NodeId, nat>,
                        z: NodeId, p: NodeId, u: NodeId, g: NodeId, gg: NodeId)
    requires RankOK(s, ids, rank) && RedOnlyAt(s, ids, z) && NIL !in ids
    requires forall n :: n in ids ==> n < |s|
    requires forall n :: n in ids && LinksIn(s, n) && (s[n].left == z || s[n].right == z) ==> n == p
    requires forall n :: n in ids && LinksIn(s, n) && (s[n].left == p || s[n].right == p) ==> n == g
    requires forall n :: n in ids && LinksIn(s, n) && (s[n].left == u || s[n].right == u) ==> n == g
    requires forall n :: n in ids && LinksIn(s, n) && (s[n].left == g || s[n].right == g) ==> n == gg
    requires z in ids && p in ids && u in ids && g in ids && p != u && z != p && z != u && g != z
    requires LinksIn(s, g) && ((s[g].left == p && s[g].right == u) || (s[g].left == u && s[g].right == p))
    requires s[p].color == Red && s[u].color == Red && s[g].color == Black
    requires gg != NIL ==> gg in ids && (s[gg].left == g || s[gg].right == g) && s[gg].left != s[gg].right
    ensures g in rank && RankOK(Recolored(s, p, u, g), ids, rank[g := rank[g] + 1]) &&
            RedOnlyAt(Recolored(s, p, u, g), ids, g)
  {
    assert RankAt(s, rank, g);
    assert gg != NIL ==> RankAt(s, rank, gg);
    RecolorFrame(s, ids, rank, z, p, u, g, gg);
    RecolorNodes(s, rank, p, u, g, gg);
    CombineRules(Recolored(s, p, u, g), ids, rank[g := rank[g] + 1], g, g, gg, gg);
  }

  /** The rules at g, now red, and at its parent, whose red child g may now be. */
  lemma RecolorNodes(s: seq<Node>, rank: map<NodeId, nat>, p: NodeId, u: NodeId, g: NodeId, gg: NodeId)
    requires RankAt(s, rank, g) && p < |s| && u < |s| && p != u && p != g && u != g
    requires (s[g].left == p && s[g].right == u) || (s[g].left == u && s[g].right == p)
    requires s[p].color == Red && s[u].color == Red && s[g].color == Black
    requires gg != NIL ==> RankAt(s, rank, gg) && gg != p && gg != u && gg != g &&
                           (s[gg].left == g || s[gg].right == g) && s[gg].left != s[gg].right &&
                           s[gg].left != p && s[gg].left != u && s[gg].right != p && s[gg].right != u
    requires gg != NIL && s[gg].color == Red ==> s[s[gg].left].color == Black && s[s[gg].right].color == Black
    ensures var s' := Recolored(s, p, u, g); var rank' := rank[g := rank[g] + 1];
            RulesAt(s', rank', g, g) && (gg != NIL ==> RulesAt(s', rank', gg, g))
  {
    RecoloredFacts(s, p, u, g);
  }

  /** Nodes other than g and its parent keep both rules after recolouring. */
  lemma RecolorFrame(s: seq<Node>, ids: set<NodeId>, rank: map<NodeId, nat>,
                     z: NodeId, p: NodeId, u: NodeId, g: NodeId, gg: NodeId)
    requires RankOK(s, ids, rank) && RedOnlyAt(s, ids, z) && g in rank
    requires forall n :: n in ids ==> n < |s|
    requires p < |s| && u < |s| && g < |s|
    requires forall n :: n in ids && LinksIn(s, n) && (s[n].left == z || s[n].right == z) ==> n == p
    requires forall n :: n in ids && LinksIn(s, n) && (s[n].left == p || s[n].right == p) ==> n == g
    requires forall n :: n in ids && LinksIn(s, n) && (s[n].left == u || s[n].right == u) ==> n == g
    requires forall n :: n in ids && LinksIn(s, n) && (s[n].left == g || s[n].right == g) ==> n == gg
    ensures var s' := Recolored(s, p, u, g); var rank' := rank[g := rank[g] + 1];
            forall n :: n in ids && n !in {g, gg} ==>
              RankAt(s', rank', n) &&
              (s'[n].color == Red ==> s'[s'[n].left].color == Black && s'[s'[n].right].color == Black)
  {
    var s' := Recolored(s, p, u, g);
    var rank' := rank[g := rank[g] + 1];
    RecoloredFacts(s, p, u, g);
    forall n | n in ids && n !in {g, gg}
      ensures RankAt(s', rank', n)
      ensures s'[n].color == Red ==> s'[s'[n].left].color == Black && s'[s'[n].right].color == Black
    {
      assert RankAt(s, rank, n);
    }
  }

  /** The rank rule at n, and the colour rule at n with z as the one red child allowed. */
  ghost predicate RulesAt(s: seq<Node>, rank: map<NodeId, nat>, n: NodeId, z: NodeId)
  {
    RankAt(s, rank, n) &&
    (s[n].color == Red ==> (s[s[n].left].color == Black || s[n].left == z) &&
                           (s[s[n].right].color == Black || s[n].right == z))
  }

  /**
   * The rules at every node follow from the rules at the nodes a case
   * touched (a, b and c when it is a node) and the rules elsewhere.
   */
  lemma CombineRules(s: seq<Node>, ids: set<NodeId>, rank: map<NodeId, nat>, z: NodeId, a: NodeId, b: NodeId, c: NodeId)
    requires NIL in rank && rank[NIL] == 0
    requires forall n :: n in ids && n !in {a, b, c} ==>
      RankAt(s, rank, n) &&
      (s[n].color == Red ==> s[s[n].left].color == Black && s[s[n].right].color == Black)
    requires a in ids ==> RulesAt(s, rank, a, z)
    requires b in ids ==> RulesAt(s, rank, b, z)
    requires c in ids ==> RulesAt(s, rank, c, z)
    ensures RankOK(s, ids, rank) && RedOnlyAt(s, ids, z)
  {
    forall n | n in ids
      ensures RankAt(s, rank, n)
      ensures s[n].color == Red ==> (s[s[n].left].color == Black || s[n].left == z) &&
                                    (s[s[n].right].color == Black || s[n].right == z)
    {
      if n == a {
      } else if n == b {
      } else if n == c {
      }
    }
  }

  /** Every node keeps its colour. */
  ghost predicate SameColors(s: seq<Node>, s': seq<Node>)
  {
    |s'| == |s| && forall n :: 0 <= n < |s| ==> s'[n].color == s[n].color
  }

  /**
   * The rank rule and the colour rule carry over to every node outside
   * changed whose links and whose children's colours are untouched.
   */
  lemma FrameRule(s: seq<Node>, s': seq<Node>, ids: set<NodeId>, rank: map<NodeId, nat>, z: NodeId, changed: set<NodeId>)
    requires RankOK(s, ids, rank) && RedOnlyAt(s, ids, z) && |s'| == |s|
    requires forall n :: n in ids && n !in changed ==>
      n < |s| && s'[n].left == s[n].left && s'[n].right == s[n].right && s'[n].color == s[n].color
    requires forall n :: n in ids && n !in changed && LinksIn(s, n) ==>
      s'[s[n].left].color == s[s[n].left].color && s'[s[n].right].color == s[s[n].right].color &&
      s[n].left != z && s[n].right != z
    ensures forall n :: n in ids && n !in changed ==>
      RankAt(s', rank, n) &&
      (s'[n].color == Red ==> s'[s'[n].left].color == Black && s'[s'[n].right].color == Black)
  {
    forall n | n in ids && n !in changed
      ensures RankAt(s', rank, n)
      ensures s'[n].color == Red ==> s'[s'[n].left].color == Black && s'[s'[n].right].color == Black
    {
      assert RankAt(s, rank, n);
    }
  }

  /**
   * Black uncle, z the inner grandchild on the right (src/rbtree.c:74-77):
   * after z = z->parent and right_rotate at it, the old z is the new z's
   * parent and the right child of the grandparent, the new z is its right
   * child, the uncle is unchanged, and the invariant holds with the same
   * ranks.
   */
  lemma RightInnerCase(s: seq<Node>, t: Shape, rank: map<NodeId, nat>, z: NodeId, p: NodeId, g: NodeId,
                       s1: seq<Node>, root1: NodeId)
    requires FixupInv(s, t, rank, z) && p == s[z].parent && p < |s| && s[p].color == Red
    requires g == s[p].parent && g < |s| && s[g].right == p && s[p].left == z
    requires RightRotated(s, Root(t), p, s1, root1)
    ensures FixupInv(s1, RotateRightAt(t, p), rank, p) && root1 == Root(RotateRightAt(t, p))
    ensures Ids(RotateRightAt(t, p)) == Ids(t) && Inorder(RotateRightAt(t, p)) == Inorder(t) && SameColors(s, s1)
    ensures (forall n :: 0 <= n < |s| ==> s1[n].key == s[n].key) && s1[NIL] == s[NIL]
    ensures s1[p].parent == z && s1[z].parent == g && s1[g].right == z && s1[z].right == p &&
            s1[g].left == s[g].left && s1[z].color == Red
  {
    RedParentFacts(s, t, rank, z);
    var t1 := RotateRightAt(t, p);
    RightRotatedTree(s, Root(t), p, s1, root1, t);
    LinkedInArena(s1, t1, NIL);
    RightInnerLinks(s, t, z, p, g, s1, root1);
    RightInnerRules(s, t, rank, z, p, g, s1, root1);
    assert Root(t) != p && Root(t) != z;
  }

  lemma RightInnerRules(s: seq<Node>, t: Shape, rank: map<NodeId, nat>, z: NodeId, p: NodeId, g: NodeId,
                        s1: seq<Node>, root1: NodeId)
    requires WellShaped(t) && Linked(s, t, NIL) && RankOK(s, Ids(t), rank) && RedOnlyAt(s, Ids(t), z)
    requires 0 < |s| && s[NIL].color == Black
    requires z in Ids(t) && p in Ids(t) && g in Ids(t)
    requires s[z].parent == p && s[p].parent == g && s[g].right == p && s[p].left == z
    requires s[z].color == Red && s[p].color == Red
    requires RightRotated(s, Root(t), p, s1, root1) && SameColors(s, s1)
    ensures RankOK(s1, Ids(t), rank) && RedOnlyAt(s1, Ids(t), p)
  {
    RightInnerLinks(s, t, z, p, g, s1, root1);
    IdsInArena(s, t);
    OnlyParent(s, t, z);
    RightInnerFrame(s, s1, Ids(t), rank, z, p, g, Root(t), root1);
    assert RankAt(s, rank, z) && RankAt(s, rank, p) && RankAt(s, rank, g);
    RightInnerNodes(s, s1, rank, z, p, g);
    forall n | n in Ids(t)
      ensures RankAt(s1, rank, n)
      ensures s1[n].color == Red ==> (s1[s1[n].left].color == Black || s1[n].left == p) &&
                                     (s1[s1[n].right].color == Black || s1[n].right == p)
    {
    }
  }

  /** The links right_rotate at p leaves at z, p and g. */
  lemma RightInnerLinks(s: seq<Node>, t: Shape, z: NodeId, p: NodeId, g: NodeId, s1: seq<Node>, root1: NodeId)
    requires WellShaped(t) && Linked(s, t, NIL)
    requires z in Ids(t) && p in Ids(t) && g in Ids(t) && z < |s| && p < |s| && g < |s|
    requires s[z].parent == p && s[p].parent == g && s[g].right == p && s[p].left == z
    requires RightRotated(s, Root(t), p, s1, root1)
    ensures LinksIn(s, z) && LinksIn(s, p) && LinksIn(s, g) && |s1| == |s|
    ensures s[z].left != z && s[z].right != z && s[p].right != z
    ensures s1[p].left == s[z].right && s1[p].right == s[p].right && s1[p].parent == z
    ensures s1[z].left == s[z].left && s1[z].right == p && s1[z].parent == g
    ensures s1[g].left == s[g].left && s1[g].right == z
    ensures z != p && z != g && p != g
  {
    NodeFacts(s, t, z);
    NodeFacts(s, t, p);
    NodeFacts(s, t, g);
  }

  /** Nodes other than z, p and g keep the rank rule and lose any red child. */
  lemma RightInnerFrame(s: seq<Node>, s1: seq<Node>, ids: set<NodeId>, rank: map<NodeId, nat>,
                        z: NodeId, p: NodeId, g: NodeId, root: NodeId, root1: NodeId)
    requires RankOK(s, ids, rank) && RedOnlyAt(s, ids, z) && SameColors(s, s1)
    requires forall n :: n in ids ==> n < |s|
    requires forall n :: n in ids && LinksIn(s, n) && (s[n].left == z || s[n].right == z) ==> n == p
    requires RightRotated(s, root, p, s1, root1) && s[p].left == z && s[p].parent == g
    ensures forall n :: n in ids && n !in {z, p, g} ==>
      RankAt(s1, rank, n) &&
      (s1[n].color == Red ==> s1[s1[n].left].color == Black && s1[s1[n].right].color == Black)
  {
    forall n | n in ids && n !in {z, p, g}
      ensures n < |s| && s1[n].left == s[n].left && s1[n].right == s[n].right && s1[n].color == s[n].color
    {
      RightRotatedOther(s, root, p, s1, root1, n);
    }
    FrameRule(s, s1, ids, rank, z, {z, p, g});
  }

  /**
   * The rank rule at z, p and g after the inner rotation, and the colour
   * rule with p as the new red child.
   */
  lemma RightInnerNodes(s: seq<Node>, s1: seq<Node>, rank: map<NodeId, nat>, z: NodeId, p: NodeId, g: NodeId)
    requires RankAt(s, rank, z) && RankAt(s, rank, p) && RankAt(s, rank, g) && SameColors(s, s1)
    requires s[z].color == Red && s[p].color == Red
    requires s[s[z].left].color == Black && s[s[z].right].color == Black && s[s[p].right].color == Black
    requires s[p].left == z && s[g].right == p
    requires s1[p].left == s[z].right && s1[p].right == s[p].right
    requires s1[z].left == s[z].left && s1[z].right == p
    requires s1[g].left == s[g].left && s1[g].right == z
    ensures RankAt(s1, rank, z) && RankAt(s1, rank, p) && RankAt(s1, rank, g)
    ensures s1[s1[z].left].color == Black && s1[s1[p].left].color == Black && s1[s1[p].right].color == Black
  {
  }

  /** The state after z->parent is painted black and z->parent->parent red. */
  function Painted(s: seq<Node>, p: NodeId, g: NodeId): (s': seq<Node>)
    requires p < |s| && g < |s|
    ensures |s'| == |s|
  {
    s[p := s[p].(color := Black)][g := s[g].(color := Red)]
  }

  /** Painting changes only the colours of p and g. */
  lemma PaintedFacts(s: seq<Node>, p: NodeId, g: NodeId)
    requires p < |s| && g < |s| && p != g
    ensures var s' := Painted(s, p, g);
            SameLinks(s, s') && s'[p].color == Black && s'[g].color == Red &&
            (forall n :: 0 <= n < |s| && n != p && n != g ==> s'[n] == s[n]) &&
            (forall n :: 0 <= n < |s| ==> s'[n].key == s[n].key)
  {
  }

  /**
   * Black uncle, z the outer grandchild on the right (src/rbtree.c:78-80):
   * after painting the parent black and the grandparent red and rotating
   * left at the grandparent, the invariant holds with the same z and the
   * same ranks, and z's parent is black, so the loop ends.
   */
  lemma RightOuterCase(s: seq<Node>, t: Shape, rank: map<NodeId, nat>, z: NodeId, p: NodeId, g: NodeId,
                       s3: seq<Node>, root3: NodeId)
    requires FixupInv(s, t, rank, z) && p == s[z].parent && p < |s| && s[p].color == Red
    requires g == s[p].parent && g < |s| && s[g].right == p && s[p].right == z && s[g].left < |s| && s[s[g].left].color == Black
    requires LeftRotated(Painted(s, p, g), Root(t), g, s3, root3)
    ensures FixupInv(s3, RotateLeftAt(t, g), rank, z) && s3[s3[z].parent].color == Black
    ensures root3 == Root(RotateLeftAt(t, g))
    ensures Ids(RotateLeftAt(t, g)) == Ids(t) && Inorder(RotateLeftAt(t, g)) == Inorder(t)
    ensures (forall n :: 0 <= n < |s| ==> s3[n].key == s[n].key) && s3[NIL] == s[NIL]
  {
    RedParentFacts(s, t, rank, z);
    var s2 := Painted(s, p, g);
    var t3 := RotateLeftAt(t, g);
    PaintedFacts(s, p, g);
    SameLinksLinked(s, s2, t, NIL);
    RightOuterColors(s, s2, s3, t, p, g, root3);
    LinkedInArena(s3, t3, NIL);
    RightOuterShape(s, t, z, p, g);
    RightOuterWrites(s, z, p, g, Root(t), s3, root3);
    RightOuterRules(s, t, rank, z, p, g, s3, root3);
  }

  /** The rotation after painting keeps keys, the sentinel and every other colour. */
  lemma RightOuterColors(s: seq<Node>, s2: seq<Node>, s3: seq<Node>, t: Shape, p: NodeId, g: NodeId, root3: NodeId)
    requires 0 < |s| && WellShaped(t) && Linked(s2, t, NIL) && g in Ids(t) && p < |s| && g < |s| && p != g
    requires p != NIL && g != NIL && s2 == Painted(s, p, g) && s2[g].right == p
    requires LeftRotated(s2, Root(t), g, s3, root3)
    ensures WellShaped(RotateLeftAt(t, g)) && Linked(s3, RotateLeftAt(t, g), NIL)
    ensures root3 == Root(RotateLeftAt(t, g))
    ensures Ids(RotateLeftAt(t, g)) == Ids(t) && Inorder(RotateLeftAt(t, g)) == Inorder(t)
    ensures |s3| == |s| && s3[NIL] == s[NIL]
    ensures forall n :: 0 <= n < |s| ==> s3[n].key == s[n].key
    ensures forall n :: 0 <= n < |s| && n != p && n != g ==> s3[n].color == s[n].color
  {
    PaintedFacts(s, p, g);
    LeftRotatedTree(s2, Root(t), g, s3, root3, t);
  }

  /** Where z, p, g and g's parent sit before the outer case on the right. */
  lemma RightOuterShape(s: seq<Node>, t: Shape, z: NodeId, p: NodeId, g: NodeId)
    requires WellShaped(t) && Linked(s, t, NIL)
    requires z in Ids(t) && p in Ids(t) && g in Ids(t) && z < |s| && p < |s| && g < |s|
    requires s[z].parent == p && s[p].parent == g && s[g].right == p && s[p].right == z
    ensures LinksIn(s, z) && LinksIn(s, p) && LinksIn(s, g)
    ensures z != p && z != g && p != g && s[p].left != z && s[g].left != p
    ensures s[z].left != z && s[z].right != z && s[p].left != p && s[p].left != g
    ensures z != NIL && p != NIL && g != NIL && Root(t) != z && Root(t) != p
    ensures var gg := s[g].parent;
            gg < |s| && gg != p && gg != g && gg != z &&
            (gg == NIL ==> g == Root(t)) &&
            (gg != NIL ==> g != Root(t) && gg in Ids(t) && LinksIn(s, gg) &&
                           s[gg].left != p && s[gg].right != p && s[gg].left != s[gg].right &&
                           (s[gg].left == g || s[gg].right == g))
  {
    NodeFacts(s, t, z);
    NodeFacts(s, t, p);
    NodeFacts(s, t, g);
    var gg := s[g].parent;
    if gg != NIL {
      NodeFacts(s, t, gg);
    }
  }

  /** The links and colours that painting and left_rotate at g leave at g, p, z and g's parent. */
  lemma RightOuterWrites(s: seq<Node>, z: NodeId, p: NodeId, g: NodeId, root: NodeId, s3: seq<Node>, root3: NodeId)
    requires LinksIn(s, z) && LinksIn(s, p) && LinksIn(s, g)
    requires z != p && z != g && p != g && s[p].left != z && g != NIL
    requires s[p].parent == g && s[g].right == p && s[p].right == z && s[p].left != g
    requires var gg := s[g].parent;
             gg < |s| && gg != p && gg != g && gg != z &&
             (gg != NIL ==> s[gg].left != p && s[gg].right != p && s[gg].left != s[gg].right &&
                            (s[gg].left == g || s[gg].right == g))
    requires LeftRotated(Painted(s, p, g), root, g, s3, root3)
    ensures |s3| == |s|
    ensures s3[g].left == s[g].left && s3[g].right == s[p].left && s3[g].color == Red
    ensures s3[p].left == g && s3[p].right == z && s3[p].color == Black
    ensures s3[z] == s[z]
    ensures var gg := s[g].parent;
            (gg == NIL ==> root3 == p) &&
            (gg != NIL ==> root3 == root && s3[gg].color == s[gg].color &&
                           (s[gg].left == g ==> s3[gg].left == p && s3[gg].right == s[gg].right) &&
                           (s[gg].left != g ==> s3[gg].right == p && s3[gg].left == s[gg].left))
  {
    PaintedFacts(s, p, g);
  }

  lemma RightOuterRules(s: seq<Node>, t: Shape, rank: map<NodeId, nat>, z: NodeId, p: NodeId, g: NodeId,
                        s3: seq<Node>, root3: NodeId)
    requires WellShaped(t) && Linked(s, t, NIL) && RankOK(s, Ids(t), rank) && RedOnlyAt(s, Ids(t), z)
    requires 0 < |s| && s[NIL].color == Black
    requires z in Ids(t) && p in Ids(t) && g in Ids(t) && z < |s| && p < |s| && g < |s|
    requires s[z].parent == p && s[p].parent == g && s[g].right == p && s[p].right == z
    requires s[z].color == Red && s[p].color == Red && s[g].color == Black
    requires s[g].left < |s| && s[s[g].left].color == Black
    requires LeftRotated(Painted(s, p, g), Root(t), g, s3, root3)
    requires forall n :: 0 <= n < |s| && n != p && n != g ==> s3[n].color == s[n].color
    ensures RankOK(s3, Ids(t), rank) && RedOnlyAt(s3, Ids(t), z)
  {
    var gg := s[g].parent;
    RightOuterShape(s, t, z, p, g);
    RightOuterWrites(s, z, p, g, Root(t), s3, root3);
    IdsInArena(s, t);
    OnlyParent(s, t, z);
    OnlyParent(s, t, p);
    OnlyParent(s, t, g);
    RightOuterFrame(s, s3, Ids(t), rank, z, p, g, gg, Root(t), root3);
    assert RankAt(s, rank, p) && RankAt(s, rank, g);
    assert gg != NIL ==> RankAt(s, rank, gg);
    assert s[s[p].left].color == Black;
    assert gg != NIL && s[gg].color == Red ==> s[s[gg].left].color == Black && s[s[gg].right].color == Black;
    RightOuterNodes(s, s3, rank, z, p, g, gg);
    NilNotIn(t);
    CombineRules(s3, Ids(t), rank, z, g, p, gg);
  }

  /** Nodes other than g, p and g's parent keep the rank rule and have no red child. */
  lemma RightOuterFrame(s: seq<Node>, s3: seq<Node>, ids: set<NodeId>, rank: map<NodeId, nat>,
                        z: NodeId, p: NodeId, g: NodeId, gg: NodeId, root: NodeId, root3: NodeId)
    requires RankOK(s, ids, rank) && RedOnlyAt(s, ids, z)
    requires forall n :: n in ids ==> n < |s|
    requires forall n :: n in ids && LinksIn(s, n) && (s[n].left == z || s[n].right == z) ==> n == p
    requires forall n :: n in ids && LinksIn(s, n) && (s[n].left == p || s[n].right == p) ==> n == g
    requires forall n :: n in ids && LinksIn(s, n) && (s[n].left == g || s[n].right == g) ==> n == gg
    requires p < |s| && g < |s| && p != g && s[g].right == p && s[g].parent == gg
    requires LeftRotated(Painted(s, p, g), root, g, s3, root3)
    requires forall n :: 0 <= n < |s| && n != p && n != g ==> s3[n].color == s[n].color
    ensures forall n :: n in ids && n !in {g, p, gg} ==>
      RankAt(s3, rank, n) &&
      (s3[n].color == Red ==> s3[s3[n].left].color == Black && s3[s3[n].right].color == Black)
  {
    PaintedFacts(s, p, g);
    forall n | n in ids && n !in {g, p, gg}
      ensures n < |s| && s3[n].left == s[n].left && s3[n].right == s[n].right && s3[n].color == s[n].color
    {
      LeftRotatedOther(Painted(s, p, g), root, g, s3, root3, n);
    }
    FrameRule(s, s3, ids, rank, z, {g, p, gg});
  }

  /**
   * The rank rule at g, p and g's old parent after the outer rotation, and
   * the colour rule at those of them that are red.
   */
  lemma RightOuterNodes(s: seq<Node>, s3: seq<Node>, rank: map<NodeId, nat>, z: NodeId, p: NodeId, g: NodeId, gg: NodeId)
    requires z < |s| && RankAt(s, rank, p) && RankAt(s, rank, g) && (gg != NIL ==> RankAt(s, rank, gg))
    requires |s3| == |s| && forall n :: 0 <= n < |s| && n != p && n != g ==> s3[n].color == s[n].color
    requires s[z].color == Red && s[p].color == Red && s[g].color == Black && s[s[g].left].color == Black
    requires s[g].right == p && s[p].right == z && z != p && z != g && p != g && s[g].left != p
    requires s[p].left != p && s[p].left != g && s[s[p].left].color == Black
    requires s3[g].left == s[g].left && s3[g].right == s[p].left && s3[g].color == Red
    requires s3[p].left == g && s3[p].right == z && s3[p].color == Black
    requires gg != NIL ==> LinksIn(s, gg) && gg != p && gg != g && s3[gg].color == s[gg].color &&
                           s[gg].left != p && s[gg].right != p && s[gg].left != s[gg].right &&
                           (s[gg].left == g ==> s3[gg].left == p && s3[gg].right == s[gg].right) &&
                           (s[gg].left != g ==> s[gg].right == g && s3[gg].right == p && s3[gg].left == s[gg].left)
    requires gg != NIL && s[gg].color == Red ==> s[s[gg].left].color == Black && s[s[gg].right].color == Black
    ensures RulesAt(s3, rank, g, z) && RulesAt(s3, rank, p, z) && (gg != NIL ==> RulesAt(s3, rank, gg, z))
  {
  }

  /**
   * Black uncle, z the inner grandchild on the left (src/rbtree.c:90-93):
   * after z = z->parent and left_rotate at it, the old z is the new z's
   * parent and the left child of the grandparent, the new z is its left
   * child, the uncle is unchanged, and the invariant holds with the same
   * ranks.
   */
  lemma LeftInnerCase(s: seq<Node>, t: Shape, rank: map<NodeId, nat>, z: NodeId, p: NodeId, g: NodeId,
                       s1: seq<Node>, root1: NodeId)
    requires FixupInv(s, t, rank, z) && p == s[z].parent && p < |s| && s[p].color == Red
    requires g == s[p].parent && g < |s| && s[g].left == p && s[p].right == z
    requires LeftRotated(s, Root(t), p, s1, root1)
    ensures FixupInv(s1, RotateLeftAt(t, p), rank, p) && root1 == Root(RotateLeftAt(t, p))
    ensures Ids(RotateLeftAt(t, p)) == Ids(t) && Inorder(RotateLeftAt(t, p)) == Inorder(t) && SameColors(s, s1)
    ensures (forall n :: 0 <= n < |s| ==> s1[n].key == s[n].key) && s1[NIL] == s[NIL]
    ensures s1[p].parent == z && s1[z].parent == g && s1[g].left == z && s1[z].left == p &&
            s1[g].right == s[g].right && s1[z].color == Red
  {
    RedParentFacts(s, t, rank, z);
    var t1 := RotateLeftAt(t, p);
    LeftRotatedTree(s, Root(t), p, s1, root1, t);
    LinkedInArena(s1, t1, NIL);
    LeftInnerLinks(s, t, z, p, g, s1, root1);
    LeftInnerRules(s, t, rank, z, p, g, s1, root1);
    assert Root(t) != p && Root(t) != z;
  }

  lemma LeftInnerRules(s: seq<Node>, t: Shape, rank: map<NodeId, nat>, z: NodeId, p: NodeId, g: NodeId,
                        s1: seq<Node>, root1: NodeId)
    requires WellShaped(t) && Linked(s, t, NIL) && RankOK(s, Ids(t), rank) && RedOnlyAt(s, Ids(t), z)
    requires 0 < |s| && s[NIL].color == Black
    requires z in Ids(t) && p in Ids(t) && g in Ids(t)
    requires s[z].parent == p && s[p].parent == g && s[g].left == p && s[p].right == z
    requires s[z].color == Red && s[p].color == Red
    requires LeftRotated(s, Root(t), p, s1, root1) && SameColors(s, s1)
    ensures RankOK(s1, Ids(t), rank) && RedOnlyAt(s1, Ids(t), p)
  {
    LeftInnerLinks(s, t, z, p, g, s1, root1);
    IdsInArena(s, t);
    OnlyParent(s, t, z);
    LeftInnerFrame(s, s1, Ids(t), rank, z, p, g, Root(t), root1);
    assert RankAt(s, rank, z) && RankAt(s, rank, p) && RankAt(s, rank, g);
    LeftInnerNodes(s, s1, rank, z, p, g);
    forall n | n in Ids(t)
      ensures RankAt(s1, rank, n)
      ensures s1[n].color == Red ==> (s1[s1[n].right].color == Black || s1[n].right == p) &&
                                     (s1[s1[n].left].color == Black || s1[n].left == p)
    {
    }
  }

  /** The links left_rotate at p leaves at z, p and g. */
  lemma LeftInnerLinks(s: seq<Node>, t: Shape, z: NodeId, p: NodeId, g: NodeId, s1: seq<Node>, root1: NodeId)
    requires WellShaped(t) && Linked(s, t, NIL)
    requires z in Ids(t) && p in Ids(t) && g in Ids(t) && z < |s| && p < |s| && g < |s|
    requires s[z].parent == p && s[p].parent == g && s[g].left == p && s[p].right == z
    requires LeftRotated(s, Root(t), p, s1, root1)
    ensures LinksIn(s, z) && LinksIn(s, p) && LinksIn(s, g) && |s1| == |s|
    ensures s[z].right != z && s[z].left != z && s[p].left != z
    ensures s1[p].right == s[z].left && s1[p].left == s[p].left && s1[p].parent == z
    ensures s1[z].right == s[z].right && s1[z].left == p && s1[z].parent == g
    ensures s1[g].right == s[g].right && s1[g].left == z
    ensures z != p && z != g && p != g
  {
    NodeFacts(s, t, z);
    NodeFacts(s, t, p);
    NodeFacts(s, t, g);
  }

  /** Nodes other than z, p and g keep the rank rule and lose any red child. */
  lemma LeftInnerFrame(s: seq<Node>, s1: seq<Node>, ids: set<NodeId>, rank: map<NodeId, nat>,
                        z: NodeId, p: NodeId, g: NodeId, root: NodeId, root1: NodeId)
    requires RankOK(s, ids, rank) && RedOnlyAt(s, ids, z) && SameColors(s, s1)
    requires forall n :: n in ids ==> n < |s|
    requires forall n :: n in ids && LinksIn(s, n) && (s[n].right == z || s[n].left == z) ==> n == p
    requires LeftRotated(s, root, p, s1, root1) && s[p].right == z && s[p].parent == g
    ensures forall n :: n in ids && n !in {z, p, g} ==>
      RankAt(s1, rank, n) &&
      (s1[n].color == Red ==> s1[s1[n].right].color == Black && s1[s1[n].left].color == Black)
  {
    forall n | n in ids && n !in {z, p, g}
      ensures n < |s| && s1[n].right == s[n].right && s1[n].left == s[n].left && s1[n].color == s[n].color
    {
      LeftRotatedOther(s, root, p, s1, root1, n);
    }
    FrameRule(s, s1, ids, rank, z, {z, p, g});
  }

  /**
   * The rank rule at z, p and g after the inner rotation, and the colour
   * rule with p as the new red child.
   */
  lemma LeftInnerNodes(s: seq<Node>, s1: seq<Node>, rank: map<NodeId, nat>, z: NodeId, p: NodeId, g: NodeId)
    requires RankAt(s, rank, z) && RankAt(s, rank, p) && RankAt(s, rank, g) && SameColors(s, s1)
    requires s[z].color == Red && s[p].color == Red
    requires s[s[z].right].color == Black && s[s[z].left].color == Black && s[s[p].left].color == Black
    requires s[p].right == z && s[g].left == p
    requires s1[p].right == s[z].left && s1[p].left == s[p].left
    requires s1[z].right == s[z].right && s1[z].left == p
    requires s1[g].right == s[g].right && s1[g].left == z
    ensures RankAt(s1, rank, z) && RankAt(s1, rank, p) && RankAt(s1, rank, g)
    ensures s1[s1[z].right].color == Black && s1[s1[p].right].color == Black && s1[s1[p].left].color == Black
  {
  }

  /**
   * Black uncle, z the outer grandchild on the left (src/rbtree.c:94-96):
   * after painting the parent black and the grandparent red and rotating
   * right at the grandparent, the invariant holds with the same z and the
   * same ranks, and z's parent is black, so the loop ends.
   */
  lemma LeftOuterCase(s: seq<Node>, t: Shape, rank: map<NodeId, nat>, z: NodeId, p: NodeId, g: NodeId,
                       s3: seq<Node>, root3: NodeId)
    requires FixupInv(s, t, rank, z) && p == s[z].parent && p < |s| && s[p].color == Red
    requires g == s[p].parent && g < |s| && s[g].left == p && s[p].left == z && s[g].right < |s| && s[s[g].right].color == Black
    requires RightRotated(Painted(s, p, g), Root(t), g, s3, root3)
    ensures FixupInv(s3, RotateRightAt(t, g), rank, z) && s3[s3[z].parent].color == Black
    ensures root3 == Root(RotateRightAt(t, g))
    ensures Ids(RotateRightAt(t, g)) == Ids(t) && Inorder(RotateRightAt(t, g)) == Inorder(t)
    ensures (forall n :: 0 <= n < |s| ==> s3[n].key == s[n].key) && s3[NIL] == s[NIL]
  {
    RedParentFacts(s, t, rank, z);
    var s2 := Painted(s, p, g);
    var t3 := RotateRightAt(t, g);
    PaintedFacts(s, p, g);
    SameLinksLinked(s, s2, t, NIL);
    LeftOuterColors(s, s2, s3, t, p, g, root3);
    LinkedInArena(s3, t3, NIL);
    LeftOuterShape(s, t, z, p, g);
    LeftOuterWrites(s, z, p, g, Root(t), s3, root3);
    LeftOuterRules(s, t, rank, z, p, g, s3, root3);
  }

  /** The rotation after painting keeps keys, the sentinel and every other colour. */
  lemma LeftOuterColors(s: seq<Node>, s2: seq<Node>, s3: seq<Node>, t: Shape, p: NodeId, g: NodeId, root3: NodeId)
    requires 0 < |s| && WellShaped(t) && Linked(s2, t, NIL) && g in Ids(t) && p < |s| && g < |s| && p != g
    requires p != NIL && g != NIL && s2 == Painted(s, p, g) && s2[g].left == p
    requires RightRotated(s2, Root(t), g, s3, root3)
    ensures WellShaped(RotateRightAt(t, g)) && Linked(s3, RotateRightAt(t, g), NIL)
    ensures root3 == Root(RotateRightAt(t, g))
    ensures Ids(RotateRightAt(t, g)) == Ids(t) && Inorder(RotateRightAt(t, g)) == Inorder(t)
    ensures |s3| == |s| && s3[NIL] == s[NIL]
    ensures forall n :: 0 <= n < |s| ==> s3[n].key == s[n].key
    ensures forall n :: 0 <= n < |s| && n != p && n != g ==> s3[n].color == s[n].color
  {
    PaintedFacts(s, p, g);
    RightRotatedTree(s2, Root(t), g, s3, root3, t);
  }

  /** Where z, p, g and g's parent sit before the outer case on the left. */
  lemma LeftOuterShape(s: seq<Node>, t: Shape, z: NodeId, p: NodeId, g: NodeId)
    requires WellShaped(t) && Linked(s, t, NIL)
    requires z in Ids(t) && p in Ids(t) && g in Ids(t) && z < |s| && p < |s| && g < |s|
    requires s[z].parent == p && s[p].parent == g && s[g].left == p && s[p].left == z
    ensures LinksIn(s, z) && LinksIn(s, p) && LinksIn(s, g)
    ensures z != p && z != g && p != g && s[p].right != z && s[g].right != p
    ensures s[z].right != z && s[z].left != z && s[p].right != p && s[p].right != g
    ensures z != NIL && p != NIL && g != NIL && Root(t) != z && Root(t) != p
    ensures var gg := s[g].parent;
            gg < |s| && gg != p && gg != g && gg != z &&
            (gg == NIL ==> g == Root(t)) &&
            (gg != NIL ==> g != Root(t) && gg in Ids(t) && LinksIn(s, gg) &&
                           s[gg].right != p && s[gg].left != p && s[gg].right != s[gg].left &&
                           (s[gg].right == g || s[gg].left == g))
  {
    NodeFacts(s, t, z);
    NodeFacts(s, t, p);
    NodeFacts(s, t, g);
    var gg := s[g].parent;
    if gg != NIL {
      NodeFacts(s, t, gg);
    }
  }

  /** The links and colours that painting and right_rotate at g leave at g, p, z and g's parent. */
  lemma LeftOuterWrites(s: seq<Node>, z: NodeId, p: NodeId, g: NodeId, root: NodeId, s3: seq<Node>, root3: NodeId)
    requires LinksIn(s, z) && LinksIn(s, p) && LinksIn(s, g)
    requires z != p && z != g && p != g && s[p].right != z && g != NIL
    requires s[p].parent == g && s[g].left == p && s[p].left == z && s[p].right != g
    requires var gg := s[g].parent;
             gg < |s| && gg != p && gg != g && gg != z &&
             (gg != NIL ==> s[gg].right != p && s[gg].left != p && s[gg].right != s[gg].left &&
                            (s[gg].right == g || s[gg].left == g))
    requires RightRotated(Painted(s, p, g), root, g, s3, root3)
    ensures |s3| == |s|
    ensures s3[g].right == s[g].right && s3[g].left == s[p].right && s3[g].color == Red
    ensures s3[p].right == g && s3[p].left == z && s3[p].color == Black
    ensures s3[z] == s[z]
    ensures var gg := s[g].parent;
            (gg == NIL ==> root3 == p) &&
            (gg != NIL ==> root3 == root && s3[gg].color == s[gg].color &&
                           (s[gg].right == g ==> s3[gg].right == p && s3[gg].left == s[gg].left) &&
                           (s[gg].right != g ==> s3[gg].left == p && s3[gg].right == s[gg].right))
  {
    PaintedFacts(s, p, g);
  }

  lemma LeftOuterRules(s: seq<Node>, t: Shape, rank: map<NodeId, nat>, z: NodeId, p: NodeId, g: NodeId,
                        s3: seq<Node>, root3: NodeId)
    requires WellShaped(t) && Linked(s, t, NIL) && RankOK(s, Ids(t), rank) && RedOnlyAt(s, Ids(t), z)
    requires 0 < |s| && s[NIL].color == Black
    requires z in Ids(t) && p in Ids(t) && g in Ids(t) && z < |s| && p < |s| && g < |s|
    requires s[z].parent == p && s[p].parent == g && s[g].left == p && s[p].left == z
    requires s[z].color == Red && s[p].color == Red && s[g].color == Black
    requires s[g].right < |s| && s[s[g].right].color == Black
    requires RightRotated(Painted(s, p, g), Root(t), g, s3, root3)
    requires forall n :: 0 <= n < |s| && n != p && n != g ==> s3[n].color == s[n].color
    ensures RankOK(s3, Ids(t), rank) && RedOnlyAt(s3, Ids(t), z)
  {
    var gg := s[g].parent;
    LeftOuterShape(s, t, z, p, g);
    LeftOuterWrites(s, z, p, g, Root(t), s3, root3);
    IdsInArena(s, t);
    OnlyParent(s, t, z);
    OnlyParent(s, t, p);
    OnlyParent(s, t, g);
    LeftOuterFrame(s, s3, Ids(t), rank, z, p, g, gg, Root(t), root3);
    assert RankAt(s, rank, p) && RankAt(s, rank, g);
    assert gg != NIL ==> RankAt(s, rank, gg);
    assert s[s[p].right].color == Black;
    assert gg != NIL && s[gg].color == Red ==> s[s[gg].right].color == Black && s[s[gg].left].color == Black;
    LeftOuterNodes(s, s3, rank, z, p, g, gg);
    NilNotIn(t);
    CombineRules(s3, Ids(t), rank, z, g, p, gg);
  }

  /** Nodes other than g, p and g's parent keep the rank rule and have no red child. */
  lemma LeftOuterFrame(s: seq<Node>, s3: seq<Node>, ids: set<NodeId>, rank: map<NodeId, nat>,
                        z: NodeId, p: NodeId, g: NodeId, gg: NodeId, root: NodeId, root3: NodeId)
    requires RankOK(s, ids, rank) && RedOnlyAt(s, ids, z)
    requires forall n :: n in ids ==> n < |s|
    requires forall n :: n in ids && LinksIn(s, n) && (s[n].right == z || s[n].left == z) ==> n == p
    requires forall n :: n in ids && LinksIn(s, n) && (s[n].right == p || s[n].left == p) ==> n == g
    requires forall n :: n in ids && LinksIn(s, n) && (s[n].right == g || s[n].left == g) ==> n == gg
    requires p < |s| && g < |s| && p != g && s[g].left == p && s[g].parent == gg
    requires RightRotated(Painted(s, p, g), root, g, s3, root3)
    requires forall n :: 0 <= n < |s| && n != p && n != g ==> s3[n].color == s[n].color
    ensures forall n :: n in ids && n !in {g, p, gg} ==>
      RankAt(s3, rank, n) &&
      (s3[n].color == Red ==> s3[s3[n].right].color == Black && s3[s3[n].left].color == Black)
  {
    PaintedFacts(s, p, g);
    forall n | n in ids && n !in {g, p, gg}
      ensures n < |s| && s3[n].right == s[n].right && s3[n].left == s[n].left && s3[n].color == s[n].color
    {
      RightRotatedOther(Painted(s, p, g), root, g, s3, root3, n);
    }
    FrameRule(s, s3, ids, rank, z, {g, p, gg});
  }

  /**
   * The rank rule at g, p and g's old parent after the outer rotation, and
   * the colour rule at those of them that are red.
   */
  lemma LeftOuterNodes(s: seq<Node>, s3: seq<Node>, rank: map<NodeId, nat>, z: NodeId, p: NodeId, g: NodeId, gg: NodeId)
    requires z < |s| && RankAt(s, rank, p) && RankAt(s, rank, g) && (gg != NIL ==> RankAt(s, rank, gg))
    requires |s3| == |s| && forall n :: 0 <= n < |s| && n != p && n != g ==> s3[n].color == s[n].color
    requires s[z].color == Red && s[p].color == Red && s[g].color == Black && s[s[g].right].color == Black
    requires s[g].left == p && s[p].left == z && z != p && z != g && p != g && s[g].right != p
    requires s[p].right != p && s[p].right != g && s[s[p].right].color == Black
    requires s3[g].right == s[g].right && s3[g].left == s[p].right && s3[g].color == Red
    requires s3[p].right == g && s3[p].left == z && s3[p].color == Black
    requires gg != NIL ==> LinksIn(s, gg) && gg != p && gg != g && s3[gg].color == s[gg].color &&
                           s[gg].right != p && s[gg].left != p && s[gg].right != s[gg].left &&
                           (s[gg].right == g ==> s3[gg].right == p && s3[gg].left == s[gg].left) &&
                           (s[gg].right != g ==> s[gg].left == g && s3[gg].left == p && s3[gg].right == s[gg].right)
    requires gg != NIL && s[gg].color == Red ==> s[s[gg].right].color == Black && s[s[gg].left].color == Black
    ensures RulesAt(s3, rank, g, z) && RulesAt(s3, rank, p, z) && (gg != NIL ==> RulesAt(s3, rank, gg, z))
  {
  }

  /**
   * When the loop ends (z's parent is black), painting t->root black
   * (src/rbtree.c:100) leaves a tree that keeps every red-black rule.
   */
  lemma FixupDone(s: seq<Node>, t: Shape, rank: map<NodeId, nat>, z: NodeId)
    requires FixupInv(s, t, rank, z)
    requires s[s[z].parent].color == Black
    ensures Root(t) != NIL && Root(t) < |s|
    ensures var s' := s[Root(t) := s[Root(t)].(color := Black)];
            Linked(s', t, NIL) && RedBlack(s', t)
  {
    var r := Root(t);
    NilNotIn(t);
    NodeFacts(s, t, r);
    OnlyParent(s, t, z);
    OnlyParent(s, t, r);
    var s' := s[r := s[r].(color := Black)];
    assert SameLinks(s, s');
    SameLinksLinked(s, s', t, NIL);
    LinkedInArena(s', t, NIL);
    DoneRules(s, Ids(t), rank, z, r);
    RankBalanced(s', t, NIL, rank);
  }

  /** Painting the top node r black keeps the rank rule and removes the one red-red edge. */
  lemma DoneRules(s: seq<Node>, ids: set<NodeId>, rank: map<NodeId, nat>, z: NodeId, r: NodeId)
    requires RankOK(s, ids, rank) && RedOnlyAt(s, ids, z)
    requires z < |s| && s[z].parent < |s| && s[s[z].parent].color == Black
    requires r in ids && r < |s| && s[r].parent !in ids
    requires forall n :: n in ids ==>
      (LinksIn(s, n) && (s[n].left == z || s[n].right == z) ==> n == s[z].parent)
    requires forall n :: n in ids ==>
      (LinksIn(s, n) && (s[n].left == r || s[n].right == r) ==> n == s[r].parent)
    ensures var s' := s[r := s[r].(color := Black)];
            RankOK(s', ids, rank) && NoRedRed(s', ids)
  {
    var s' := s[r := s[r].(color := Black)];
    forall n | n in ids
      ensures RankAt(s', rank, n)
      ensures s'[n].color == Red ==> s'[s'[n].left].color == Black && s'[s'[n].right].color == Black
    {
      assert RankAt(s, rank, n);
      assert s[n].left != r && s[n].right != r;
    }
  }
}
