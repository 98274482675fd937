/**
 The red-black rules and the search order on ghost trees, how they look from a position inside the
 tree, and what each recolouring and rotation of the fix-up loops does to them.
 */
module RbRules {
  import opened Entries
  import opened RbShape
  import opened Zippers

  // ---------- colours and black heights ----------

  ghost predicate IsRed(t: Tree) { t.Bin? && t.color == Red }

  ghost function Weight(col: Color): nat { if col == Black then 1 else 0 }

  /** Black nodes on the leftmost path; on every path, when the tree is balanced. */
  ghost function BlackHeight(t: Tree): nat {
    if t.Leaf? then 0 else BlackHeight(t.left) + Weight(t.color)
  }

  ghost predicate Balanced(t: Tree) {
    t.Bin? ==> Balanced(t.left) && Balanced(t.right) && BlackHeight(t.left) == BlackHeight(t.right)
  }

  ghost predicate NoRedRed(t: Tree) {
    t.Bin? ==>
      && NoRedRed(t.left) && NoRedRed(t.right)
      && (t.color == Red ==> !IsRed(t.left) && !IsRed(t.right))
  }

  ghost predicate RedBlack(t: Tree) { Balanced(t) && NoRedRed(t) && !IsRed(t) }

  /** With a subtree of black height `h` in its hole, `c` is balanced. */
  ghost predicate CtxBalanced(c: Ctx, h: nat) {
    c.In? ==> Balanced(c.sib) && BlackHeight(c.sib) == h && CtxBalanced(c.up, h + Weight(c.color))
  }

  /** With a subtree in its hole whose root is red or not, `c` has no red node with a red child. */
  ghost predicate CtxNoRedRed(c: Ctx, red: bool) {
    c.In? ==>
      && NoRedRed(c.sib) && (c.color == Red ==> !red && !IsRed(c.sib))
      && CtxNoRedRed(c.up, c.color == Red)
  }

  ghost predicate CtxBlackTop(c: Ctx) {
    c.In? ==> if c.up.Top? then c.color == Black else CtxBlackTop(c.up)
  }

  lemma {:induction false} PlugRules(c: Ctx, t: Tree)
    ensures Balanced(Plug(c, t)) <==> Balanced(t) && CtxBalanced(c, BlackHeight(t))
    ensures NoRedRed(Plug(c, t)) <==> NoRedRed(t) && CtxNoRedRed(c, IsRed(t))
    ensures c.In? ==> (!IsRed(Plug(c, t)) <==> CtxBlackTop(c))
    decreases c
  {
    if c.In? { PlugRules(c.up, Join(c.side, t, c.node, c.key, c.color, c.sib)); }
  }

  ghost function Other(side: Side): Side { if side == L then R else L }

  /** The position of the sibling of the hole of `c`, when the hole holds `t`. */
  ghost function AtSibling(c: Ctx, t: Tree): Ctx
    requires c.In?
  {
    In(c.up, Other(c.side), c.node, c.key, c.color, t)
  }

  /** The sibling's child on the far side from the hole, and the one next to it. */
  ghost function Far(c: Ctx): Tree
    requires c.In? && c.sib.Bin?
  {
    if c.side == L then c.sib.right else c.sib.left
  }

  ghost function Near(c: Ctx): Tree
    requires c.In? && c.sib.Bin?
  {
    if c.side == L then c.sib.left else c.sib.right
  }

  ghost function AtFar(c: Ctx, t: Tree): Ctx
    requires c.In? && c.sib.Bin?
  {
    In(AtSibling(c, t), Other(c.side), c.sib.node, c.sib.key, c.sib.color, Near(c))
  }

  ghost function AtNear(c: Ctx, t: Tree): Ctx
    requires c.In? && c.sib.Bin?
  {
    In(AtSibling(c, t), c.side, c.sib.node, c.sib.key, c.sib.color, Far(c))
  }

  /** The same tree, seen from the parent, the sibling and the sibling's children. */
  lemma SameTree(c: Ctx, t: Tree)
    requires c.In?
    ensures Plug(c.up, Join(c.side, t, c.node, c.key, c.color, c.sib)) == Plug(c, t)
    ensures Plug(AtSibling(c, t), c.sib) == Plug(c, t)
    ensures c.sib.Bin? ==> Plug(AtFar(c, t), Far(c)) == Plug(c, t) && Plug(AtNear(c, t), Near(c)) == Plug(c, t)
  {
    if c.sib.Bin? {
      assert Plug(AtFar(c, t), Far(c)) == Plug(AtSibling(c, t), c.sib) == Plug(AtNear(c, t), Near(c));
    }
  }

  // ---------- insert fix-up ----------

  /** The only rule that may be broken is that red `t` hangs below a red parent or is a red root. */
  ghost predicate RedAt(c: Ctx, t: Tree) {
    && t.Bin? && t.color == Red && Balanced(t) && NoRedRed(t)
    && CtxBalanced(c, BlackHeight(t)) && CtxNoRedRed(c, false) && CtxBlackTop(c)
  }

  lemma InsertBreaks(c: Ctx, leaf: Tree)
    requires RedBlack(Plug(c, Leaf)) && leaf.Bin? && leaf.left == Leaf && leaf.right == Leaf && leaf.color == Red
    ensures RedAt(c, leaf)
  {
    PlugRules(c, Leaf);
  }

  lemma InsertDone(c: Ctx, t: Tree)
    requires RedAt(c, t) && (c.In? ==> c.color == Black)
    ensures c.In? ==> RedBlack(Plug(c, t))
    ensures c.Top? ==> RedBlack(t.(color := Black))
  {
    PlugRules(c, t);
  }

  /** A red parent is not the root, and the grandparent is black. */
  lemma RedParent(c: Ctx, t: Tree)
    requires RedAt(c, t) && c.In? && c.color == Red
    ensures c.up.In? && c.up.color == Black
    ensures var h := BlackHeight(t);
      && Balanced(c.sib) && BlackHeight(c.sib) == h && NoRedRed(c.sib) && !IsRed(c.sib)
      && Balanced(c.up.sib) && BlackHeight(c.up.sib) == h && NoRedRed(c.up.sib)
      && CtxBalanced(c.up.up, h + 1) && CtxNoRedRed(c.up.up, false)
      && (c.up.up.In? ==> CtxBlackTop(c.up.up))
  {
    assert CtxBalanced(c.up, BlackHeight(t)) && CtxNoRedRed(c.up, true) && CtxBlackTop(c.up);
  }

  /** Grandparent subtree after the red uncle and the red parent turn black and the grandparent red. */
  ghost function UncleRecolored(c: Ctx, t: Tree): Tree
    requires c.In? && c.up.In? && c.up.sib.Bin?
  {
    var g := c.up;
    Join(g.side, Join(c.side, t, c.node, c.key, Black, c.sib), g.node, g.key, Red, g.sib.(color := Black))
  }

  lemma UncleRed(c: Ctx, t: Tree)
    requires RedAt(c, t) && c.In? && c.color == Red && c.up.In? && IsRed(c.up.sib)
    ensures RedAt(c.up.up, UncleRecolored(c, t))
  {
    RedParent(c, t);
    var p, u := Join(c.side, t, c.node, c.key, Black, c.sib), c.up.sib.(color := Black);
    assert Balanced(p) && Balanced(u) && NoRedRed(p) && NoRedRed(u);
  }

  /** Grandparent subtree after the outer grandchild's parent rose, black, above the red grandparent. */
  ghost function Risen(c: Ctx, t: Tree): Ctx
    requires c.In? && c.up.In?
  {
    var g := c.up;
    In(g.up, c.side, c.node, c.key, Black, Join(c.side, c.sib, g.node, g.key, Red, g.sib))
  }

  lemma OuterRotated(c: Ctx, t: Tree)
    requires RedAt(c, t) && c.In? && c.color == Red && c.up.In? && c.up.side == c.side && !IsRed(c.up.sib)
    ensures RedAt(Risen(c, t), t)
  {
    RedParent(c, t);
    var g := Join(c.side, c.sib, c.up.node, c.up.key, Red, c.up.sib);
    assert Balanced(g) && NoRedRed(g);
  }

  /** The inner grandchild rotated above its parent: a position of the same kind, but outer. */
  lemma InnerRotated(c: Ctx, t: Tree)
    requires RedAt(c, t) && c.In? && c.color == Red && c.up.In? && !IsRed(c.up.sib)
    ensures c.side == R ==>
      RedAt(In(c.up, L, t.node, t.key, Red, t.right), Bin(c.sib, c.node, c.key, Red, t.left))
    ensures c.side == L ==>
      RedAt(In(c.up, R, t.node, t.key, Red, t.left), Bin(t.right, c.node, c.key, Red, c.sib))
  {
  }

  /** None of these steps moves an entry. */
  lemma UncleInorder(c: Ctx, t: Tree)
    requires c.In? && c.up.In? && c.up.sib.Bin?
    ensures Inorder(Plug(c.up.up, UncleRecolored(c, t))) == Inorder(Plug(c, t))
  {
    var p := Join(c.side, t, c.node, c.key, c.color, c.sib);
    assert Inorder(p) == Inorder(Join(c.side, t, c.node, c.key, Black, c.sib));
    assert Inorder(c.up.sib) == Inorder(c.up.sib.(color := Black));
    SameInorder(c.up.up, Join(c.up.side, p, c.up.node, c.up.key, c.up.color, c.up.sib), UncleRecolored(c, t));
  }

  lemma RisenInorder(c: Ctx, t: Tree)
    requires c.In? && c.up.In? && c.up.side == c.side
    ensures Inorder(Plug(Risen(c, t), t)) == Inorder(Plug(c, t))
  {
    var g := c.up;
    var p := Join(c.side, t, c.node, c.key, c.color, c.sib);
    var p' := Join(c.side, t, c.node, c.key, Black, c.sib);
    var gt := Join(g.side, p, g.node, g.key, g.color, g.sib);
    var gt' := Join(g.side, p', g.node, g.key, Red, g.sib);
    assert Inorder(p) == Inorder(p');
    RotatedInorder(gt');
    SameInorder(g.up, gt, if c.side == L then RotatedRight(gt') else RotatedLeft(gt'));
  }

  lemma InnerInorder(c: Ctx, t: Tree)
    requires c.In? && c.up.In? && t.Bin?
    ensures c.side == R ==>
      Inorder(Plug(In(c.up, L, t.node, t.key, t.color, t.right), Bin(c.sib, c.node, c.key, c.color, t.left)))
        == Inorder(Plug(c, t))
    ensures c.side == L ==>
      Inorder(Plug(In(c.up, R, t.node, t.key, t.color, t.left), Bin(t.right, c.node, c.key, c.color, c.sib)))
        == Inorder(Plug(c, t))
  {
    var p := Join(c.side, t, c.node, c.key, c.color, c.sib);
    RotatedInorder(p);
    SameInorder(c.up, p, if c.side == R then RotatedLeft(p) else RotatedRight(p));
  }

  // ---------- remove fix-up ----------

  ghost predicate NoRedRedBelow(t: Tree) { t.Bin? ==> NoRedRed(t.left) && NoRedRed(t.right) }

  /**
   Every path through `t` is one black node short of the rest. A red root of `t` may have a red child,
   because it is about to turn black.
   */
  ghost predicate ShortAt(c: Ctx, t: Tree) {
    && Balanced(t) && NoRedRedBelow(t) && (!IsRed(t) ==> NoRedRed(t))
    && CtxBalanced(c, BlackHeight(t) + 1) && CtxNoRedRed(c, false) && CtxBlackTop(c)
  }

  lemma RemoveBreaks(c: Ctx, t: Tree, child: Tree)
    requires t.Bin? && RedBlack(Plug(c, t)) && OnlyChild(t, child)
    ensures t.color == Black ==> ShortAt(c, child)
    ensures t.color == Red ==> RedBlack(Plug(c, child))
  {
    PlugRules(c, t);
    if t.color == Red {
      PlugRules(c, child);
    } else {
      BlackChild(t, child);
    }
  }

  lemma BlackChild(t: Tree, child: Tree)
    requires t.Bin? && t.color == Black && Balanced(t) && NoRedRed(t) && OnlyChild(t, child)
    ensures Balanced(child) && NoRedRed(child) && NoRedRedBelow(child) && BlackHeight(t) == BlackHeight(child) + 1
  {
  }

  /** A red root of the short subtree turned black, or a short subtree that is the whole tree. */
  lemma ShortDone(c: Ctx, t: Tree)
    requires ShortAt(c, t) && (IsRed(t) || c.Top?)
    ensures t.Bin? ==> RedBlack(Plug(c, t.(color := Black)))
    ensures t.Leaf? ==> RedBlack(Plug(c, t))
  {
    if t.Bin? { PlugRules(c, t.(color := Black)); }
  }

  /** The sibling of a short position exists, and a red one has two black children and a black parent. */
  lemma ShortSibling(c: Ctx, t: Tree)
    requires ShortAt(c, t) && c.In?
    ensures c.sib.Bin? && Balanced(c.sib) && NoRedRed(c.sib) && BlackHeight(c.sib) == BlackHeight(t) + 1
    ensures Balanced(Far(c)) && Balanced(Near(c)) && NoRedRed(Far(c)) && NoRedRed(Near(c))
    ensures BlackHeight(Far(c)) == BlackHeight(Near(c)) == BlackHeight(c.sib) - Weight(c.sib.color)
    ensures IsRed(c.sib) ==>
      && c.color == Black && Far(c).Bin? && Near(c).Bin? && !IsRed(Far(c)) && !IsRed(Near(c))
    ensures CtxBalanced(c.up, BlackHeight(t) + 1 + Weight(c.color)) && CtxNoRedRed(c.up, c.color == Red)
    ensures c.up.In? ==> CtxBlackTop(c.up)
    ensures c.up.Top? ==> c.color == Black
  {
  }

  /** The context after a red sibling turned black, the parent red, and the sibling rose above it. */
  ghost function SiblingRisen(c: Ctx): Ctx
    requires c.In? && c.sib.Bin?
  {
    In(In(c.up, c.side, c.sib.node, c.sib.key, Black, Far(c)), c.side, c.node, c.key, Red, Near(c))
  }

  lemma SiblingRed(c: Ctx, t: Tree)
    requires ShortAt(c, t) && c.In? && IsRed(c.sib)
    ensures c.sib.Bin? && ShortAt(SiblingRisen(c), t)
    ensures !IsRed(Near(c))
  {
    ShortSibling(c, t);
    assert CtxBalanced(SiblingRisen(c).up, BlackHeight(t) + 1);
    assert CtxNoRedRed(SiblingRisen(c).up, true);
  }

  /** The parent's subtree after a black sibling with black children turned red. */
  ghost function SiblingReddened(c: Ctx, t: Tree): Tree
    requires c.In? && c.sib.Bin?
  {
    Join(c.side, t, c.node, c.key, c.color, c.sib.(color := Red))
  }

  lemma NephewsBlack(c: Ctx, t: Tree)
    requires ShortAt(c, t) && !IsRed(t) && c.In? && !IsRed(c.sib)
    requires c.sib.Bin? ==> !IsRed(Far(c)) && !IsRed(Near(c))
    ensures c.sib.Bin? && ShortAt(c.up, SiblingReddened(c, t))
  {
    ShortSibling(c, t);
    assert Balanced(c.sib.(color := Red)) && NoRedRed(c.sib.(color := Red));
    assert CtxNoRedRed(c.up, false);
  }

  /** The context after a red near child of the sibling turned black and rose above the red sibling. */
  ghost function NearRisen(c: Ctx): Ctx
    requires c.In? && c.sib.Bin? && Near(c).Bin?
  {
    var s, n := c.sib, Near(c);
    var inner, outer := if c.side == L then n.left else n.right, if c.side == L then n.right else n.left;
    In(c.up, c.side, c.node, c.key, c.color,
       Join(c.side, inner, n.node, n.key, Black, Join(c.side, outer, s.node, s.key, Red, Far(c))))
  }

  lemma NearRed(c: Ctx, t: Tree)
    requires ShortAt(c, t) && c.In? && !IsRed(c.sib) && c.sib.Bin? && IsRed(Near(c)) && !IsRed(Far(c))
    ensures ShortAt(NearRisen(c), t)
    ensures NearRisen(c).sib.Bin? && !IsRed(NearRisen(c).sib) && IsRed(Far(NearRisen(c)))
  {
    ShortSibling(c, t);
    var s, n := c.sib, Near(c);
    var inner, outer := if c.side == L then n.left else n.right, if c.side == L then n.right else n.left;
    var low := Join(c.side, outer, s.node, s.key, Red, Far(c));
    assert Balanced(low) && NoRedRed(low) && BlackHeight(low) == BlackHeight(inner);
    assert Balanced(NearRisen(c).sib) && NoRedRed(NearRisen(c).sib);
  }

  /** The parent's subtree after the sibling took the parent's colour and rose, both its children black. */
  ghost function FarRisen(c: Ctx, t: Tree): Tree
    requires c.In? && c.sib.Bin? && Far(c).Bin?
  {
    Join(c.side, Join(c.side, t, c.node, c.key, Black, Near(c)), c.sib.node, c.sib.key, c.color,
         Far(c).(color := Black))
  }

  lemma FarRed(c: Ctx, t: Tree)
    requires ShortAt(c, t) && !IsRed(t) && c.In? && !IsRed(c.sib) && c.sib.Bin? && IsRed(Far(c))
    ensures RedBlack(Plug(c.up, FarRisen(c, t)))
  {
    ShortSibling(c, t);
    var low, far := Join(c.side, t, c.node, c.key, Black, Near(c)), Far(c).(color := Black);
    assert Balanced(low) && NoRedRed(low) && Balanced(far) && NoRedRed(far);
    PlugRules(c.up, FarRisen(c, t));
  }

  /** None of these steps moves an entry. */
  lemma SiblingRisenInorder(c: Ctx, t: Tree)
    requires c.In? && c.sib.Bin?
    ensures Inorder(Plug(SiblingRisen(c), t)) == Inorder(Plug(c, t))
  {
    var s := c.sib.(color := Black);
    var p := Join(c.side, t, c.node, c.key, Red, s);
    assert Inorder(s) == Inorder(c.sib);
    RotatedInorder(p);
    SameInorder(c.up, Join(c.side, t, c.node, c.key, c.color, c.sib),
      if c.side == L then RotatedLeft(p) else RotatedRight(p));
  }

  lemma ReddenedInorder(c: Ctx, t: Tree)
    requires c.In? && c.sib.Bin?
    ensures Inorder(Plug(c.up, SiblingReddened(c, t))) == Inorder(Plug(c, t))
  {
    assert Inorder(c.sib.(color := Red)) == Inorder(c.sib);
    SameInorder(c.up, Join(c.side, t, c.node, c.key, c.color, c.sib), SiblingReddened(c, t));
  }

  lemma NearRisenInorder(c: Ctx, t: Tree)
    requires c.In? && c.sib.Bin? && Near(c).Bin?
    ensures Inorder(Plug(NearRisen(c), t)) == Inorder(Plug(c, t))
  {
    var n := Near(c).(color := Black);
    var s := Join(c.side, n, c.sib.node, c.sib.key, Red, Far(c));
    assert Inorder(n) == Inorder(Near(c));
    RotatedInorder(s);
    assert Inorder(NearRisen(c).sib) == Inorder(c.sib);
    SameInorder(c.up, Join(c.side, t, c.node, c.key, c.color, c.sib),
      Join(c.side, t, c.node, c.key, c.color, NearRisen(c).sib));
  }

  lemma FarRisenInorder(c: Ctx, t: Tree)
    requires c.In? && c.sib.Bin? && Far(c).Bin?
    ensures Inorder(Plug(c.up, FarRisen(c, t))) == Inorder(Plug(c, t))
  {
    var f := Far(c).(color := Black);
    var s := Join(c.side, Near(c), c.sib.node, c.sib.key, c.color, f);
    var p := Join(c.side, t, c.node, c.key, Black, s);
    assert Inorder(f) == Inorder(Far(c)) && Inorder(s) == Inorder(c.sib);
    RotatedInorder(p);
    SameInorder(c.up, Join(c.side, t, c.node, c.key, c.color, c.sib), FarRisen(c, t));
  }

  /** The rules do not look at which node object or key sits at a position. */
  lemma {:induction false} RulesIgnoreNode(inner: Ctx, outer: Ctx, n: Node, k: int, h: nat, red: bool)
    requires outer.In?
    ensures var c, c' := Append(inner, outer), Append(inner, outer.(node := n, key := k));
      && (CtxBalanced(c, h) <==> CtxBalanced(c', h))
      && (CtxNoRedRed(c, red) <==> CtxNoRedRed(c', red))
      && (CtxBlackTop(c) <==> CtxBlackTop(c'))
    decreases inner
  {
    if inner.In? {
      RulesIgnoreNode(inner.up, outer, n, k, h + Weight(inner.color), inner.color == Red);
    }
  }

  lemma ReplacedRules(inner: Ctx, outer: Ctx, n: Node, k: int, t: Tree)
    requires outer.In?
    ensures var c, c' := Append(inner, outer), Append(inner, outer.(node := n, key := k));
      && (ShortAt(c, t) <==> ShortAt(c', t))
      && (RedBlack(Plug(c, t)) <==> RedBlack(Plug(c', t)))
  {
    RulesIgnoreNode(inner, outer, n, k, BlackHeight(t), IsRed(t));
    RulesIgnoreNode(inner, outer, n, k, BlackHeight(t) + 1, false);
    PlugRules(Append(inner, outer), t);
    PlugRules(Append(inner, outer.(node := n, key := k)), t);
  }

  // ---------- height ----------

  ghost function Height(t: Tree): nat {
    if t.Leaf? then 0
    else 1 + if Height(t.left) < Height(t.right) then Height(t.right) else Height(t.left)
  }

  ghost function Pow2(n: nat): nat { if n == 0 then 1 else 2 * Pow2(n - 1) }

  lemma {:induction false} SizeFromBlackHeight(t: Tree)
    requires Balanced(t)
    ensures |Inorder(t)| + 1 >= Pow2(BlackHeight(t))
  {
    if t.Bin? {
      SizeFromBlackHeight(t.left);
      SizeFromBlackHeight(t.right);
    }
  }

  lemma {:induction false} HeightFromBlackHeight(t: Tree)
    requires Balanced(t) && NoRedRed(t)
    ensures Height(t) <= 2 * BlackHeight(t) + (if IsRed(t) then 1 else 0)
  {
    if t.Bin? {
      HeightFromBlackHeight(t.left);
      HeightFromBlackHeight(t.right);
    }
  }

  lemma {:induction false} Pow2Grows(m: nat, n: nat)
    requires m <= n
    ensures Pow2(m) <= Pow2(n)
  {
    if m < n { Pow2Grows(m, n - 1); }
  }

  lemma {:induction false} Pow2Squared(n: nat)
    ensures Pow2(2 * n) == Pow2(n) * Pow2(n)
  {
    if n > 0 {
      Pow2Squared(n - 1);
      assert Pow2(2 * n) == 2 * (2 * Pow2(2 * (n - 1)));
    }
  }

  lemma SquareGrows(a: nat, b: nat)
    requires a <= b
    ensures a * a <= b * b
  {
    assert b * b == a * a + (b - a) * (b + a);
  }

  /** The height of a red-black tree of n nodes is at most 2 * log2(n + 1). */
  lemma HeightBound(t: Tree)
    requires RedBlack(t)
    ensures Pow2(Height(t)) <= (|Inorder(t)| + 1) * (|Inorder(t)| + 1)
    ensures Height(t) <= 2 * BlackHeight(t) && Pow2(BlackHeight(t)) <= |Inorder(t)| + 1
  {
    var b := BlackHeight(t);
    SizeFromBlackHeight(t);
    HeightFromBlackHeight(t);
    Pow2Grows(Height(t), 2 * b);
    Pow2Squared(b);
    SquareGrows(Pow2(b), |Inorder(t)| + 1);
  }

  lemma {:induction false} PathWithinHeight(t: Tree, k: int)
    ensures |SearchPath(t, k)| <= Height(t)
  {
    if t.Bin? {
      PathWithinHeight(t.left, k);
      PathWithinHeight(t.right, k);
    }
  }

  /** The nodes compared with in a finished search for `k`. */
  ghost predicate Searched(t: Tree, k: int, visited: seq<Node>) {
    var ok := visited == SearchPath(t, k) && |visited| <= Height(t);
    ok
  }

  /** The nodes compared with so far in a search that has come down to the subtree `t`. */
  ghost predicate Searching(whole: Tree, k: int, visited: seq<Node>, t: Tree) {
    var ok := visited + SearchPath(t, k) == SearchPath(whole, k);
    ok
  }

  lemma SearchStarts(whole: Tree, k: int)
    ensures Searching(whole, k, [], whole)
  {
    assert [] + SearchPath(whole, k) == SearchPath(whole, k);
  }

  lemma SearchGoesOn(whole: Tree, k: int, visited: seq<Node>, t: Tree)
    requires Searching(whole, k, visited, t) && t.Bin?
    ensures k < t.key ==> Searching(whole, k, visited + [t.node], t.left)
    ensures k > t.key ==> Searching(whole, k, visited + [t.node], t.right)
    ensures k == t.key ==> Searched(whole, k, visited + [t.node])
  {
    PathWithinHeight(whole, k);
    var rest := SearchPath(t, k)[1..];
    assert visited + [t.node] + rest == visited + ([t.node] + rest);
  }

  lemma SearchEnds(whole: Tree, k: int, visited: seq<Node>)
    requires Searching(whole, k, visited, Leaf)
    ensures Searched(whole, k, visited)
  {
    PathWithinHeight(whole, k);
    assert visited + [] == visited;
  }

  /** A search in a red-black tree of n nodes compares with at most 2 * log2(n + 1) of them. */
  lemma SearchBound(t: Tree, k: int)
    requires RedBlack(t)
    ensures Pow2(|SearchPath(t, k)|) <= (|Inorder(t)| + 1) * (|Inorder(t)| + 1)
  {
    PathWithinHeight(t, k);
    Pow2Grows(|SearchPath(t, k)|, Height(t));
    HeightBound(t);
  }

  // ---------- search order ----------

  /** A valid tree: the red-black rules and strictly increasing keys. */
  ghost predicate Valid(t: Tree) { RedBlack(t) && Sorted(Inorder(t)) }

  lemma PlugInorderAround(c: Ctx, t: Tree)
    requires t.Bin?
    ensures Inorder(Plug(c, t)) ==
      (Before(c) + Inorder(t.left)) + [Entry(t.node, t.key)] + (Inorder(t.right) + After(c))
  {
    PlugInorder(c, t);
    RegroupAround(Before(c), Inorder(t.left), [Entry(t.node, t.key)], Inorder(t.right), After(c));
  }

  /** A search for `k` that has come to this position has left only smaller and larger keys behind. */
  ghost predicate SearchAt(c: Ctx, k: int) {
    var ok := AllBelow(Before(c), k) && AllAbove(After(c), k);
    ok
  }

  lemma Descend(c: Ctx, t: Tree, k: int)
    requires t.Bin? && Sorted(Inorder(Plug(c, t))) && SearchAt(c, k)
    ensures k < t.key ==> SearchAt(In(c, L, t.node, t.key, t.color, t.right), k)
    ensures k > t.key ==> SearchAt(In(c, R, t.node, t.key, t.color, t.left), k)
    ensures Entry(t.node, t.key) in Inorder(Plug(c, t))
  {
    EntryAround(c, t);
    KeysAround(c, t);
    SearchBelow(c, t, k);
  }

  lemma KeysAround(c: Ctx, t: Tree)
    requires t.Bin? && Sorted(Inorder(Plug(c, t)))
    ensures AllBelow(Before(c) + Inorder(t.left), t.key) && AllAbove(Inorder(t.right) + After(c), t.key)
  {
    PlugInorderAround(c, t);
    SortedAround(Before(c) + Inorder(t.left), Entry(t.node, t.key), Inorder(t.right) + After(c));
  }

  lemma EntryAround(c: Ctx, t: Tree)
    requires t.Bin?
    ensures Entry(t.node, t.key) in Inorder(Plug(c, t))
  {
    var e, a, b := Entry(t.node, t.key), Before(c) + Inorder(t.left), Inorder(t.right) + After(c);
    PlugInorderAround(c, t);
    assert (a + [e] + b)[|a|] == e;
  }

  lemma SearchBelow(c: Ctx, t: Tree, k: int)
    requires t.Bin? && SearchAt(c, k)
    requires AllBelow(Before(c) + Inorder(t.left), t.key) && AllAbove(Inorder(t.right) + After(c), t.key)
    ensures k < t.key ==> SearchAt(In(c, L, t.node, t.key, t.color, t.right), k)
    ensures k > t.key ==> SearchAt(In(c, R, t.node, t.key, t.color, t.left), k)
  {
    var e := Entry(t.node, t.key);
    if k < t.key {
      AboveFrom(e, Inorder(t.right), After(c), k);
    } else if k > t.key {
      BelowUpTo(Before(c), Inorder(t.left), e, k);
    }
  }

  lemma AboveFrom(e: Entry<Node>, x: seq<Entry<Node>>, y: seq<Entry<Node>>, k: int)
    requires e.key > k && AllAbove(x + y, e.key)
    ensures AllAbove([e] + x + y, k)
  {
    assert [e] + x + y == [e] + (x + y);
  }

  lemma BelowUpTo(x: seq<Entry<Node>>, y: seq<Entry<Node>>, e: Entry<Node>, k: int)
    requires e.key < k && AllBelow(x + y, e.key)
    ensures AllBelow(x + y + [e], k)
  {
  }

  /** A search that falls off the tree was for an absent key. */
  lemma NotFound(c: Ctx, k: int)
    requires SearchAt(c, k)
    ensures Inorder(Plug(c, Leaf)) == Before(c) + After(c)
    ensures !HasKey(Inorder(Plug(c, Leaf)), k)
  {
    PlugInorder(c, Leaf);
  }

  lemma InsertSorted(c: Ctx, leaf: Tree)
    requires leaf.Bin? && leaf.left == Leaf && leaf.right == Leaf
    requires SearchAt(c, leaf.key) && Sorted(Inorder(Plug(c, Leaf)))
    ensures Inorder(Plug(c, leaf)) == Inserted(Inorder(Plug(c, Leaf)), Entry(leaf.node, leaf.key))
    ensures Sorted(Inorder(Plug(c, leaf)))
  {
    var e, a, b := Entry(leaf.node, leaf.key), Before(c), After(c);
    PlugInorder(c, leaf);
    assert Inorder(leaf) == [e];
    NotFound(c, leaf.key);
    InsertedBetween(a, e, b);
    SortedJoin(a, b);
    SortedAround(a, e, b);
  }

  /** The other entries of a valid tree are of other node objects. */
  lemma OtherNode(t: Tree, e: Entry<Node>, x: Entry<Node>)
    requires Distinct(t) && e in Inorder(t) && x in Inorder(t) && e.key != x.key
    ensures e.node != x.node
  {
    EntryMember(t, null, e.node, e.key);
    EntryMember(t, null, x.node, x.key);
  }

  lemma RemovedEntry(t: Tree, a: seq<Entry<Node>>, e: Entry<Node>, b: seq<Entry<Node>>)
    requires Distinct(t) && Sorted(Inorder(t)) && Inorder(t) == a + [e] + b
    ensures Without(Inorder(t), e.node) == a + b && Sorted(a + b)
  {
    SortedAround(a, e, b);
    forall x | x in a ensures x.node != e.node { OtherNode(t, e, x); }
    forall x | x in b ensures x.node != e.node { OtherNode(t, e, x); }
    WithoutMiddle(a, e, b);
    SortedConcat(a, e, b);
  }

  lemma UnlinkedEntries(c: Ctx, t: Tree, child: Tree)
    requires t.Bin? && OnlyChild(t, child)
    ensures Inorder(Plug(c, child)) == (Before(c) + Inorder(t.left)) + (Inorder(t.right) + After(c))
  {
    PlugInorder(c, child);
  }

  lemma SuccessorFirst(inner: Ctx, s: Tree)
    requires Spine(inner, L) && s.Bin? && s.left == Leaf
    ensures Inorder(Plug(inner, s)) == [Entry(s.node, s.key)] + Inorder(Plug(inner, s.right))
  {
    SpineOpen(inner);
    PlugInorder(inner, s);
    PlugInorder(inner, s.right);
    RegroupFirst(Entry(s.node, s.key), Inorder(s.right), After(inner));
  }

  lemma ReplacedEntries(c: Ctx, t: Tree, inner: Ctx, s: Tree)
    requires t.Bin? && t.right == Plug(inner, s) && Spine(inner, L) && s.Bin? && s.left == Leaf
    ensures Inorder(Plug(c, Bin(t.left, s.node, s.key, t.color, Plug(inner, s.right))))
      == (Before(c) + Inorder(t.left)) + (Inorder(t.right) + After(c))
  {
    var r' := Plug(inner, s.right);
    PlugInorderAround(c, Bin(t.left, s.node, s.key, t.color, r'));
    SuccessorFirst(inner, s);
    Regroup(Before(c) + Inorder(t.left), [Entry(s.node, s.key)], Inorder(r'), After(c));
  }

  /** A tree that has exactly the entries around the root of `t` has lost just that entry. */
  lemma TakenOut(c: Ctx, t: Tree, T': Tree)
    requires t.Bin? && Distinct(Plug(c, t)) && Sorted(Inorder(Plug(c, t)))
    requires Inorder(T') == (Before(c) + Inorder(t.left)) + (Inorder(t.right) + After(c))
    ensures Inorder(T') == Without(Inorder(Plug(c, t)), t.node)
    ensures Sorted(Inorder(T'))
  {
    PlugInorderAround(c, t);
    RemovedEntry(Plug(c, t), Before(c) + Inorder(t.left), Entry(t.node, t.key), Inorder(t.right) + After(c));
  }

  /** The root `s` of the leftmost position below the right child of `t`. */
  ghost predicate Successor(t: Tree, inner: Ctx, s: Tree) {
    t.Bin? && t.left.Bin? && t.right == Plug(inner, s) && Spine(inner, L) && s.Bin? && s.left == Leaf
  }

  /** The context of the successor's position, below the root of `t` and below the successor in its place. */
  ghost function AtSuccessor(c: Ctx, t: Tree, inner: Ctx): Ctx
    requires t.Bin?
  {
    Append(inner, In(c, R, t.node, t.key, t.color, t.left))
  }

  /** `t` with its successor unlinked. */
  ghost function Unlinked(t: Tree, inner: Ctx, s: Tree): Tree
    requires t.Bin? && s.Bin?
  {
    Bin(t.left, t.node, t.key, t.color, Plug(inner, s.right))
  }

  /** The same trees, seen from the root of `t` and from the successor's position. */
  lemma SuccessorTrees(c: Ctx, t: Tree, inner: Ctx, s: Tree)
    requires Successor(t, inner, s) && Distinct(Plug(c, t))
    ensures
      var t1 := Unlinked(t, inner, s);
      var t2 := WithNode(t1, s.node, s.key);
      && Plug(AtSuccessor(c, t, inner), s) == Plug(c, t)
      && Plug(AtSuccessor(c, t, inner), s.right) == Plug(c, t1)
      && Plug(AtSuccessor(c, t2, inner), s.right) == Plug(c, t2)
      && Above(AtSuccessor(c, t, inner)) == (if inner.Top? then t.node else inner.node)
      && Above(AtSuccessor(c, t2, inner)) == (if inner.Top? then s.node else inner.node)
      && (inner.In? ==> inner.node != t.node)
  {
    var at := In(c, R, t.node, t.key, t.color, t.left);
    PlugAppend(inner, at, s);
    PlugAppend(inner, at, s.right);
    PlugAppend(inner, at.(node := s.node, key := s.key), s.right);
    PlugNodes(c, t);
    PlugNodes(inner, s);
  }

  /** Where a black node may be missing once the successor has taken the place of the root of `t`. */
  lemma SuccessorRules(c: Ctx, t: Tree, inner: Ctx, s: Tree)
    requires Successor(t, inner, s) && Distinct(Plug(c, t)) && RedBlack(Plug(c, t))
    ensures var c2 := AtSuccessor(c, WithNode(Unlinked(t, inner, s), s.node, s.key), inner);
      && (s.color == Black ==> ShortAt(c2, s.right))
      && (s.color == Red ==> RedBlack(Plug(c2, s.right)))
  {
    SuccessorTrees(c, t, inner, s);
    RemoveBreaks(AtSuccessor(c, t, inner), s, s.right);
    ReplacedRules(inner, In(c, R, t.node, t.key, t.color, t.left), s.node, s.key, s.right);
  }

  lemma SuccessorEntries(c: Ctx, t: Tree, inner: Ctx, s: Tree)
    requires Successor(t, inner, s) && Distinct(Plug(c, t)) && Sorted(Inorder(Plug(c, t)))
    ensures var T' := Plug(c, WithNode(Unlinked(t, inner, s), s.node, s.key));
      Inorder(T') == Without(Inorder(Plug(c, t)), t.node) && Sorted(Inorder(T'))
  {
    ReplacedEntries(c, t, inner, s);
    TakenOut(c, t, Plug(c, WithNode(Unlinked(t, inner, s), s.node, s.key)));
  }
}
