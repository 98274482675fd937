/** The red-black tree operations on node objects, in place. */
module RbTree {
  import opened Entries
  import opened RbShape
  import opened RbRules
  import opened Zippers

  class RbTree {
    var root: Node?
    /** The tree the node objects form. */
    ghost var tree: Tree
    /** The rotations done so far. */
    ghost var turns: nat

    constructor ()
      ensures Shaped() && Valid(tree) && tree == Leaf
    {
      root, tree, turns := null, Leaf, 0;
    }

    /** The node objects form exactly `tree`: every link, parent link, colour and key. */
    ghost predicate Shaped()
      reads this, Nodes(tree)
    {
      && root == Root(tree) && Distinct(tree)
      && forall n :: n in Nodes(tree) ==> Held(n) == FieldsAt(tree, null, n)
    }

    /** What the two nodes at a joint of context and subtree hold. */
    lemma Look(c: Ctx, t: Tree)
      requires Shaped() && tree == Plug(c, t)
      ensures t.Bin? ==> t.node in Nodes(tree)
      ensures t.Bin? ==> Held(t.node) == Fields(Root(t.left), Root(t.right), Above(c), t.color, t.key)
      ensures c.In? ==> c.node in Nodes(tree) && Held(c.node) == CtxFieldsAt(c, Root(t), c.node)
      ensures c.In? ==> root != Root(t) && (t.Bin? ==> Root(c.sib) != t.node)
      ensures c.Top? ==> root == Root(t)
    {
      JointFields(c, t);
    }

    /** The node, if there is one. */
    ghost function Present(x: Node?): set<Node> { if x == null then {} else {x} }

    /** `if (x) RB_PARENT(x) = p`. */
    method SetParent(x: Node?, p: Node?)
      modifies Present(x)
      ensures x != null ==> Held(x) == old(Held(x)).(parent := p)
    {
      if x != null {
        x.parent := p;
      }
    }

    /** Makes `x` the child of `parent` in place of `elm`, or the root when `elm` has no parent. */
    method ReplaceChild(parent: Node?, elm: Node, x: Node?, ghost c: Ctx)
      requires parent == Above(c)
      requires c.In? ==> Held(c.node) == CtxFieldsAt(c, elm, c.node) && Root(c.sib) != elm
      modifies this`root, Present(parent)
      ensures root == if parent == null then x else old(root)
      ensures c.In? ==> Held(c.node) == CtxFieldsAt(c, x, c.node)
    {
      if parent != null {
        if parent.left == elm {
          parent.left := x;
        } else {
          parent.right := x;
        }
      } else {
        root := x;
      }
    }

    /** The assignments of RB_ROTATE_LEFT: `tmp`, the right child of `elm`, takes its place. */
    method TurnLeft(elm: Node, tmp: Node, ghost c: Ctx)
      requires elm.right == tmp && tmp != elm && tmp.left != tmp && tmp.left != elm && elm.parent == Above(c)
      requires elm.parent != elm && elm.parent != tmp && (tmp.left != null ==> tmp.left != elm.parent)
      requires c.In? ==> Held(c.node) == CtxFieldsAt(c, elm, c.node) && Root(c.sib) != elm
      modifies this`root, elm, tmp, Present(tmp.left), Present(elm.parent)
      ensures Held(elm) == old(Held(elm)).(right := old(tmp.left), parent := tmp)
      ensures Held(tmp) == old(Held(tmp)).(left := elm, parent := old(elm.parent))
      ensures old(tmp.left) != null ==> Held(old(tmp.left)) == old(Held(tmp.left)).(parent := elm)
      ensures c.In? ==> Held(c.node) == CtxFieldsAt(c, tmp, c.node)
      ensures root == if c.Top? then tmp else old(root)
    {
      elm.right := tmp.left;
      SetParent(elm.right, elm);
      tmp.parent := elm.parent;
      ReplaceChild(tmp.parent, elm, tmp, c);
      tmp.left := elm;
      elm.parent := tmp;
    }

    method RotateLeft(elm: Node, ghost c: Ctx, ghost t: Tree)
      requires Shaped() && tree == Plug(c, t) && t.Bin? && t.right.Bin? && t.node == elm
      modifies this, Nodes(tree)
      ensures Shaped() && tree == Plug(c, RotatedLeft(t)) && Nodes(tree) == old(Nodes(tree))
      ensures turns == old(turns) + 1
    {
      RotateLeftFields(c, t);
      assert allocated(Nodes(tree));
      TurnLeft(elm, elm.right, c);
      tree, turns := Plug(c, RotatedLeft(t)), turns + 1;
    }

    /** The assignments of RB_ROTATE_RIGHT: `tmp`, the left child of `elm`, takes its place. */
    method TurnRight(elm: Node, tmp: Node, ghost c: Ctx)
      requires elm.left == tmp && tmp != elm && tmp.right != tmp && tmp.right != elm && elm.parent == Above(c)
      requires elm.parent != elm && elm.parent != tmp && (tmp.right != null ==> tmp.right != elm.parent)
      requires c.In? ==> Held(c.node) == CtxFieldsAt(c, elm, c.node) && Root(c.sib) != elm
      modifies this`root, elm, tmp, Present(tmp.right), Present(elm.parent)
      ensures Held(elm) == old(Held(elm)).(left := old(tmp.right), parent := tmp)
      ensures Held(tmp) == old(Held(tmp)).(right := elm, parent := old(elm.parent))
      ensures old(tmp.right) != null ==> Held(old(tmp.right)) == old(Held(tmp.right)).(parent := elm)
      ensures c.In? ==> Held(c.node) == CtxFieldsAt(c, tmp, c.node)
      ensures root == if c.Top? then tmp else old(root)
    {
      elm.left := tmp.right;
      SetParent(elm.left, elm);
      tmp.parent := elm.parent;
      ReplaceChild(tmp.parent, elm, tmp, c);
      tmp.right := elm;
      elm.parent := tmp;
    }

    method RotateRight(elm: Node, ghost c: Ctx, ghost t: Tree)
      requires Shaped() && tree == Plug(c, t) && t.Bin? && t.left.Bin? && t.node == elm
      modifies this, Nodes(tree)
      ensures Shaped() && tree == Plug(c, RotatedRight(t)) && Nodes(tree) == old(Nodes(tree))
      ensures turns == old(turns) + 1
    {
      RotateRightFields(c, t);
      assert allocated(Nodes(tree));
      TurnRight(elm, elm.left, c);
      tree, turns := Plug(c, RotatedRight(t)), turns + 1;
    }

    method SetColor(elm: Node, col: Color, ghost c: Ctx, ghost t: Tree)
      requires Shaped() && tree == Plug(c, t) && t.Bin? && t.node == elm
      modifies this`tree, elm
      ensures Shaped() && tree == Plug(c, t.(color := col)) && Nodes(tree) == old(Nodes(tree))
    {
      RecolorFields(c, t, col);
      elm.color := col;
      tree := Plug(c, t.(color := col));
    }

    /**
     The red-uncle step: uncle `tmp` and `parent` turn black, `gparent` red.
     */
    method RecolorFamily(parent: Node, gparent: Node, tmp: Node, ghost c: Ctx, ghost t: Tree)
      requires Shaped() && tree == Plug(c, t) && c.In? && c.up.In? && c.up.sib.Bin?
      requires parent == c.node && gparent == c.up.node && tmp == c.up.sib.node
      modifies this`tree, Nodes(tree)
      ensures Shaped() && tree == Plug(c.up.up, UncleRecolored(c, t)) && Nodes(tree) == old(Nodes(tree))
    {
      ghost var g := c.up;
      ghost var p := Join(c.side, t, c.node, c.key, c.color, c.sib);
      ghost var atUncle := AtSibling(g, p);
      SameTree(g, p);
      Look(atUncle, g.sib); Look(g, p); Look(c, t);
      SetColor(tmp, Black, atUncle, g.sib);
      ghost var g1 := g.(sib := g.sib.(color := Black));
      assert Plug(g1, p) == tree;
      SetColor(parent, Black, g1, p);
      ghost var gt := Join(g.side, p.(color := Black), g.node, g.key, g.color, g1.sib);
      assert Plug(g.up, gt) == tree;
      SetColor(gparent, Red, g.up, gt);
    }

    /** RB_SET_BLACKRED(parent, gparent) and RB_ROTATE_RIGHT(gparent), for a left child of a left child. */
    method RaiseLeft(parent: Node, gparent: Node, ghost c: Ctx, ghost t: Tree)
      requires Shaped() && tree == Plug(c, t) && c.In? && c.up.In? && c.side == L && c.up.side == L
      requires parent == c.node && gparent == c.up.node
      modifies this, Nodes(tree)
      ensures Shaped() && tree == Plug(Risen(c, t), t) && Nodes(tree) == old(Nodes(tree))
      ensures turns == old(turns) + 1
    {
      ghost var g := c.up;
      ghost var p := Join(L, t, c.node, c.key, c.color, c.sib);
      Look(c, t); Look(g, p);
      SetColor(parent, Black, g, p);
      ghost var gt := Join(L, p.(color := Black), g.node, g.key, g.color, g.sib);
      SetColor(gparent, Red, g.up, gt);
      RotateRight(gparent, g.up, gt.(color := Red));
    }

    method RaiseRight(parent: Node, gparent: Node, ghost c: Ctx, ghost t: Tree)
      requires Shaped() && tree == Plug(c, t) && c.In? && c.up.In? && c.side == R && c.up.side == R
      requires parent == c.node && gparent == c.up.node
      modifies this, Nodes(tree)
      ensures Shaped() && tree == Plug(Risen(c, t), t) && Nodes(tree) == old(Nodes(tree))
      ensures turns == old(turns) + 1
    {
      ghost var g := c.up;
      ghost var p := Join(R, t, c.node, c.key, c.color, c.sib);
      Look(c, t); Look(g, p);
      SetColor(parent, Black, g, p);
      ghost var gt := Join(R, p.(color := Black), g.node, g.key, g.color, g.sib);
      SetColor(gparent, Red, g.up, gt);
      RotateLeft(gparent, g.up, gt.(color := Red));
    }

    /**
     The branch of RB_INSERT_COLOR for a red parent that is a left child: returns the position that
     may still be broken, which is closer to the root.
     */
    method InsertColorLeft(elm: Node, parent: Node, gparent: Node, ghost c: Ctx, ghost t: Tree)
        returns (next: Node, ghost c': Ctx, ghost t': Tree)
      requires Shaped() && tree == Plug(c, t) && RedAt(c, t) && t.node == elm
      requires c.In? && c.color == Red && c.up.In? && c.up.side == L && parent == c.node && gparent == c.up.node
      modifies this, Nodes(tree)
      ensures Shaped() && tree == Plug(c', t') && RedAt(c', t') && t'.node == next && Depth(c') < Depth(c)
      ensures next.parent == Above(c') && (c'.In? ==> c'.node.color == c'.color)
      ensures Nodes(tree) == old(Nodes(tree)) && Inorder(tree) == old(Inorder(tree))
      ensures turns == old(turns) || (turns <= old(turns) + 2 && (c'.In? ==> c'.color == Black))
    {
      ghost var g := c.up;
      ghost var p := Join(c.side, t, c.node, c.key, c.color, c.sib);
      Look(c, t); Look(g, p); Look(AtSibling(g, p), g.sib);
      var tmp := gparent.right;
      if tmp != null && tmp.color == Red {
        UncleRed(c, t); UncleInorder(c, t);
        RecolorFamily(parent, gparent, tmp, c, t);
        next, c', t' := gparent, g.up, UncleRecolored(c, t);
        Look(c', t');
      } else {
        var elm', parent' := elm, parent;
        c', t' := c, t;
        if parent.right == elm {
          InnerRotated(c, t); InnerInorder(c, t);
          RotateLeft(parent, g, p);
          elm', parent' := parent, elm;
          c', t' := In(g, L, t.node, t.key, Red, t.right), Bin(c.sib, c.node, c.key, Red, t.left);
        }
        OuterRotated(c', t'); RisenInorder(c', t');
        RaiseLeft(parent', gparent, c', t');
        next, c' := elm', Risen(c', t');
        Look(c', t');
      }
    }

    method InsertColorRight(elm: Node, parent: Node, gparent: Node, ghost c: Ctx, ghost t: Tree)
        returns (next: Node, ghost c': Ctx, ghost t': Tree)
      requires Shaped() && tree == Plug(c, t) && RedAt(c, t) && t.node == elm
      requires c.In? && c.color == Red && c.up.In? && c.up.side == R && parent == c.node && gparent == c.up.node
      modifies this, Nodes(tree)
      ensures Shaped() && tree == Plug(c', t') && RedAt(c', t') && t'.node == next && Depth(c') < Depth(c)
      ensures next.parent == Above(c') && (c'.In? ==> c'.node.color == c'.color)
      ensures Nodes(tree) == old(Nodes(tree)) && Inorder(tree) == old(Inorder(tree))
      ensures turns == old(turns) || (turns <= old(turns) + 2 && (c'.In? ==> c'.color == Black))
    {
      ghost var g := c.up;
      ghost var p := Join(c.side, t, c.node, c.key, c.color, c.sib);
      Look(c, t); Look(g, p); Look(AtSibling(g, p), g.sib);
      var tmp := gparent.left;
      if tmp != null && tmp.color == Red {
        UncleRed(c, t); UncleInorder(c, t);
        RecolorFamily(parent, gparent, tmp, c, t);
        next, c', t' := gparent, g.up, UncleRecolored(c, t);
        Look(c', t');
      } else {
        var elm', parent' := elm, parent;
        c', t' := c, t;
        if parent.left == elm {
          InnerRotated(c, t); InnerInorder(c, t);
          RotateRight(parent, g, p);
          elm', parent' := parent, elm;
          c', t' := In(g, R, t.node, t.key, Red, t.left), Bin(t.right, c.node, c.key, Red, c.sib);
        }
        OuterRotated(c', t'); RisenInorder(c', t');
        RaiseRight(parent', gparent, c', t');
        next, c' := elm', Risen(c', t');
        Look(c', t');
      }
    }

    /** The body of the loop of RB_INSERT_COLOR. */
    method InsertColorStep(elm: Node, parent: Node, ghost c: Ctx, ghost t: Tree)
        returns (next: Node, ghost c': Ctx, ghost t': Tree)
      requires Shaped() && tree == Plug(c, t) && RedAt(c, t) && t.node == elm
      requires c.In? && c.color == Red && parent == c.node
      modifies this, Nodes(tree)
      ensures Shaped() && tree == Plug(c', t') && RedAt(c', t') && t'.node == next && Depth(c') < Depth(c)
      ensures next.parent == Above(c') && (c'.In? ==> c'.node.color == c'.color)
      ensures Nodes(tree) == old(Nodes(tree)) && Inorder(tree) == old(Inorder(tree))
      ensures turns == old(turns) || (turns <= old(turns) + 2 && (c'.In? ==> c'.color == Black))
    {
      RedParent(c, t);
      Look(c, t); Look(c.up, Join(c.side, t, c.node, c.key, c.color, c.sib));
      var gparent := parent.parent;
      if parent == gparent.left {
        next, c', t' := InsertColorLeft(elm, parent, gparent, c, t);
      } else {
        next, c', t' := InsertColorRight(elm, parent, gparent, c, t);
      }
    }

    /** `RB_COLOR(head->rbh_root) = RB_BLACK`, after the loop. */
    method BlackenRoot(ghost c: Ctx, ghost t: Tree)
      requires Shaped() && tree == Plug(c, t) && RedAt(c, t) && (c.In? ==> c.color == Black)
      modifies this`tree, Nodes(tree)
      ensures Shaped() && RedBlack(tree)
      ensures Nodes(tree) == old(Nodes(tree)) && Inorder(tree) == old(Inorder(tree))
    {
      InsertDone(c, t);
      PlugNodes(c, t);
      Look(Top, tree);
      assert Inorder(tree.(color := Black)) == Inorder(tree);
      SetColor(root, Black, Top, tree);
    }

    /**
     RB_INSERT_COLOR. On entry the only broken rule can be that red `start` has a red parent or is a
     red root; on exit no rule is broken and every entry is where it was. At most two rotations are done.
     */
    method InsertColor(start: Node, ghost c0: Ctx, ghost t0: Tree)
      requires Shaped() && tree == Plug(c0, t0) && RedAt(c0, t0) && t0.node == start
      modifies this, Nodes(tree)
      ensures Shaped() && RedBlack(tree)
      ensures Nodes(tree) == old(Nodes(tree)) && Inorder(tree) == old(Inorder(tree))
      ensures turns <= old(turns) + 2
    {
      var elm := start;
      ghost var c, t := c0, t0;
      Look(c, t);
      while elm.parent != null && elm.parent.color == Red
        invariant Shaped() && tree == Plug(c, t) && RedAt(c, t) && t.node == elm
        invariant elm.parent == Above(c) && (c.In? ==> c.node.color == c.color)
        invariant Nodes(tree) == old(Nodes(tree)) && Inorder(tree) == old(Inorder(tree))
        invariant turns == old(turns) || (turns <= old(turns) + 2 && (c.In? ==> c.color == Black))
        decreases Depth(c)
      {
        elm, c, t := InsertColorStep(elm, elm.parent, c, t);
      }
      BlackenRoot(c, t);
    }

    /** RB_SET(elm, parent), then the link from the parent or the root. */
    method Link(elm: Node, parent: Node?, comp: int, ghost c: Ctx)
      requires Shaped() && tree == Plug(c, Leaf) && elm !in Nodes(tree)
      requires parent == Above(c) && (c.In? ==> (comp < 0 <==> c.side == L))
      modifies this, Nodes(tree), elm
      ensures Shaped() && tree == Plug(c, Bin(Leaf, elm, elm.key, Red, Leaf)) && elm.key == old(elm.key)
      ensures Nodes(tree) == old(Nodes(tree)) + {elm}
    {
      LinkFields(c, Bin(Leaf, elm, elm.key, Red, Leaf));
      elm.parent := parent;
      elm.left, elm.right := null, null;
      elm.color := Red;
      if parent != null {
        if comp < 0 {
          parent.left := elm;
        } else {
          parent.right := elm;
        }
      } else {
        root := elm;
      }
      tree := Plug(c, Bin(Leaf, elm, elm.key, Red, Leaf));
    }

    /** The descent of RB_INSERT: a member with the key of `elm`, or the empty position it belongs in. */
    method InsertionPoint(elm: Node)
        returns (found: Node?, parent: Node?, comp: int, ghost c: Ctx, ghost visited: seq<Node>)
      requires Shaped() && Valid(tree)
      ensures found != null ==> Entry(found, elm.key) in Inorder(tree)
      ensures found == null ==> tree == Plug(c, Leaf) && SearchAt(c, elm.key) && parent == Above(c)
      ensures found == null && c.In? ==> (comp < 0 <==> c.side == L)
      ensures Searched(tree, elm.key, visited)
    {
      var tmp := root;
      ghost var t := tree;
      found, parent, comp, c, visited := null, null, 0, Top, [];
      SearchStarts(tree, elm.key);
      while tmp != null
        invariant Shaped() && tree == Plug(c, t) && tmp == Root(t) && parent == Above(c) && SearchAt(c, elm.key)
        invariant c.In? ==> (comp < 0 <==> c.side == L)
        invariant Searching(tree, elm.key, visited, t)
        decreases t
      {
        Look(c, t);
        Descend(c, t, elm.key);
        SearchGoesOn(tree, elm.key, visited, t);
        visited := visited + [tmp];
        parent := tmp;
        comp := elm.key - parent.key;
        if comp < 0 {
          c, t, tmp := In(c, L, t.node, t.key, t.color, t.right), t.left, tmp.left;
        } else if comp > 0 {
          c, t, tmp := In(c, R, t.node, t.key, t.color, t.left), t.right, tmp.right;
        } else {
          found := tmp;
          return;
        }
      }
      SearchEnds(tree, elm.key, visited);
    }

    /**
     RB_INSERT. Either the member with the same key comes back and nothing changes, or exactly `elm`
     is entered.
     */
    method Insert(elm: Node) returns (found: Node?)
      requires Shaped() && Valid(tree)
      modifies this, Nodes(tree), elm
      ensures Shaped() && Valid(tree) && elm.key == old(elm.key)
      ensures found == null <==> !HasKey(old(Inorder(tree)), elm.key)
      ensures found != null ==> Entry(found, elm.key) in Inorder(tree) && unchanged(this) && unchanged(elm)
      ensures found == null ==> elm !in old(Nodes(tree)) && Nodes(tree) == old(Nodes(tree)) + {elm}
      ensures found == null ==> Inorder(tree) == Inserted(old(Inorder(tree)), Entry(elm, elm.key))
    {
      var parent, comp;
      ghost var c, visited;
      assert allocated(Nodes(tree));
      found, parent, comp, c, visited := InsertionPoint(elm);
      if found == null {
        NotFound(c, elm.key);
        AbsentKey(elm);
        ghost var leaf := Bin(Leaf, elm, elm.key, Red, Leaf);
        InsertSorted(c, leaf);
        InsertBreaks(c, leaf);
        Link(elm, parent, comp, c);
        InsertColor(elm, c, leaf);
        PlugInorderAround(c, leaf);
        EntryMember(tree, null, elm, leaf.key);
      }
    }

    /** A node whose key is not entered is not a member. */
    lemma AbsentKey(n: Node)
      requires Shaped() && !HasKey(Inorder(tree), n.key)
      ensures n !in Nodes(tree)
    {
      if n in Nodes(tree) { MemberEntry(tree, null, n); }
    }

    // ---------- remove ----------

    /** What the sibling and its children hold, as the fix-up reads them. */
    lemma LookAtSibling(c: Ctx, t: Tree)
      requires Shaped() && tree == Plug(c, t) && c.In? && c.sib.Bin?
      ensures c.node in Nodes(tree) && Held(c.node) == CtxFieldsAt(c, Root(t), c.node)
      ensures c.sib.node in Nodes(tree)
      ensures Held(c.sib.node) == Fields(Root(c.sib.left), Root(c.sib.right), c.node, c.sib.color, c.sib.key)
      ensures Far(c).Bin? ==> Far(c).node in Nodes(tree) && Far(c).node.color == Far(c).color
      ensures Near(c).Bin? ==> Near(c).node in Nodes(tree) && Near(c).node.color == Near(c).color
    {
      SameTree(c, t);
      Look(c, t);
      Look(AtSibling(c, t), c.sib);
      Look(AtFar(c, t), Far(c));
      Look(AtNear(c, t), Near(c));
    }

    /** A red sibling on the right: RB_SET_BLACKRED(tmp, parent) and RB_ROTATE_LEFT(parent). */
    method RaiseRedSiblingRight(parent: Node, tmp: Node, ghost c: Ctx, ghost t: Tree)
      requires Shaped() && tree == Plug(c, t) && c.In? && c.side == L && c.sib.Bin?
      requires parent == c.node && tmp == c.sib.node
      modifies this, Nodes(tree)
      ensures Shaped() && tree == Plug(SiblingRisen(c), t) && Nodes(tree) == old(Nodes(tree))
      ensures turns == old(turns) + 1
    {
      SameTree(c, t);
      LookAtSibling(c, t);
      SetColor(tmp, Black, AtSibling(c, t), c.sib);
      ghost var p := Join(c.side, t, c.node, c.key, c.color, c.sib.(color := Black));
      SetColor(parent, Red, c.up, p);
      RotateLeft(parent, c.up, p.(color := Red));
    }

    method RaiseRedSiblingLeft(parent: Node, tmp: Node, ghost c: Ctx, ghost t: Tree)
      requires Shaped() && tree == Plug(c, t) && c.In? && c.side == R && c.sib.Bin?
      requires parent == c.node && tmp == c.sib.node
      modifies this, Nodes(tree)
      ensures Shaped() && tree == Plug(SiblingRisen(c), t) && Nodes(tree) == old(Nodes(tree))
      ensures turns == old(turns) + 1
    {
      SameTree(c, t);
      LookAtSibling(c, t);
      SetColor(tmp, Black, AtSibling(c, t), c.sib);
      ghost var p := Join(c.side, t, c.node, c.key, c.color, c.sib.(color := Black));
      SetColor(parent, Red, c.up, p);
      RotateRight(parent, c.up, p.(color := Red));
    }

    /** A red inner nephew of a short left position turns black and rises above the red sibling `tmp`. */
    method RaiseInnerNephewRight(tmp: Node, ghost c: Ctx, ghost t: Tree)
      requires Shaped() && tree == Plug(c, t) && c.In? && c.side == L && c.sib.Bin? && Near(c).Bin?
      requires tmp == c.sib.node
      modifies this, Nodes(tree)
      ensures Shaped() && tree == Plug(NearRisen(c), t) && Nodes(tree) == old(Nodes(tree))
      ensures turns == old(turns) + 1
    {
      SameTree(c, t);
      LookAtSibling(c, t);
      var oleft := tmp.left;
      if oleft != null {
        SetColor(oleft, Black, AtNear(c, t), Near(c));
      }
      ghost var s := Bin(Near(c).(color := Black), tmp, c.sib.key, c.sib.color, Far(c));
      SetColor(tmp, Red, AtSibling(c, t), s);
      RotateRight(tmp, AtSibling(c, t), s.(color := Red));
      SameTree(NearRisen(c), t);
    }

    method RaiseInnerNephewLeft(tmp: Node, ghost c: Ctx, ghost t: Tree)
      requires Shaped() && tree == Plug(c, t) && c.In? && c.side == R && c.sib.Bin? && Near(c).Bin?
      requires tmp == c.sib.node
      modifies this, Nodes(tree)
      ensures Shaped() && tree == Plug(NearRisen(c), t) && Nodes(tree) == old(Nodes(tree))
      ensures turns == old(turns) + 1
    {
      SameTree(c, t);
      LookAtSibling(c, t);
      var oright := tmp.right;
      if oright != null {
        SetColor(oright, Black, AtNear(c, t), Near(c));
      }
      ghost var s := Bin(Far(c), tmp, c.sib.key, c.sib.color, Near(c).(color := Black));
      SetColor(tmp, Red, AtSibling(c, t), s);
      RotateLeft(tmp, AtSibling(c, t), s.(color := Red));
      SameTree(NearRisen(c), t);
    }

    /** The sibling takes the parent's colour and rises; the parent and the outer nephew turn black. */
    method RaiseSiblingRight(parent: Node, tmp: Node, ghost c: Ctx, ghost t: Tree)
      requires Shaped() && tree == Plug(c, t) && c.In? && c.side == L && c.sib.Bin? && Far(c).Bin?
      requires parent == c.node && tmp == c.sib.node
      modifies this, Nodes(tree)
      ensures Shaped() && tree == Plug(c.up, FarRisen(c, t)) && Nodes(tree) == old(Nodes(tree))
      ensures turns == old(turns) + 1
    {
      SameTree(c, t);
      LookAtSibling(c, t);
      SetColor(tmp, parent.color, AtSibling(c, t), c.sib);
      ghost var p := Join(c.side, t, c.node, c.key, c.color, c.sib.(color := c.color));
      SetColor(parent, Black, c.up, p);
      ghost var c1 := c.(color := Black, sib := c.sib.(color := c.color));
      SameTree(c1, t);
      LookAtSibling(c1, t);
      if tmp.right != null {
        SetColor(tmp.right, Black, AtFar(c1, t), Far(c1));
      }
      ghost var s := Bin(Near(c), tmp, c.sib.key, c.color, Far(c).(color := Black));
      RotateLeft(parent, c.up, Bin(t, parent, c.key, Black, s));
    }

    method RaiseSiblingLeft(parent: Node, tmp: Node, ghost c: Ctx, ghost t: Tree)
      requires Shaped() && tree == Plug(c, t) && c.In? && c.side == R && c.sib.Bin? && Far(c).Bin?
      requires parent == c.node && tmp == c.sib.node
      modifies this, Nodes(tree)
      ensures Shaped() && tree == Plug(c.up, FarRisen(c, t)) && Nodes(tree) == old(Nodes(tree))
      ensures turns == old(turns) + 1
    {
      SameTree(c, t);
      LookAtSibling(c, t);
      SetColor(tmp, parent.color, AtSibling(c, t), c.sib);
      ghost var p := Join(c.side, t, c.node, c.key, c.color, c.sib.(color := c.color));
      SetColor(parent, Black, c.up, p);
      ghost var c1 := c.(color := Black, sib := c.sib.(color := c.color));
      SameTree(c1, t);
      LookAtSibling(c1, t);
      if tmp.left != null {
        SetColor(tmp.left, Black, AtFar(c1, t), Far(c1));
      }
      ghost var s := Bin(Far(c).(color := Black), tmp, c.sib.key, c.color, Near(c));
      RotateRight(parent, c.up, Bin(s, parent, c.key, Black, t));
    }

    /** A short left child whose sibling `tmp` is black. */
    method BlackSiblingRight(parent: Node, tmp0: Node, elm: Node?, ghost c: Ctx, ghost t: Tree)
        returns (done: bool, elm': Node?, parent': Node?, ghost c': Ctx, ghost t': Tree)
      requires Shaped() && tree == Plug(c, t) && ShortAt(c, t) && !IsRed(t)
      requires c.In? && c.side == L && parent == c.node && c.sib.Bin? && !IsRed(c.sib) && tmp0 == c.sib.node
      modifies this, Nodes(tree)
      ensures Shaped() && tree == Plug(c', t') && elm' == Root(t')
      ensures Nodes(tree) == old(Nodes(tree)) && Inorder(tree) == old(Inorder(tree))
      ensures done ==> c' == Top && RedBlack(tree)
      ensures !done ==> ShortAt(c', t') && parent' == Above(c') && c' == c.up && (c.color == Red ==> IsRed(t'))
      ensures if done then turns <= old(turns) + 2 else turns == old(turns)
    {
      var tmp := tmp0;
      LookAtSibling(c, t);
      SameTree(c, t);
      if (tmp.left == null || tmp.left.color == Black) && (tmp.right == null || tmp.right.color == Black) {
        NephewsBlack(c, t); ReddenedInorder(c, t);
        SetColor(tmp, Red, AtSibling(c, t), c.sib);
        c', t' := c.up, SiblingReddened(c, t);
        Look(c', t');
        done, elm', parent' := false, parent, parent.parent;
      } else {
        ghost var c1 := c;
        if tmp.right == null || tmp.right.color == Black {
          NearRed(c, t); NearRisenInorder(c, t);
          RaiseInnerNephewRight(tmp, c, t);
          c1 := NearRisen(c);
          LookAtSibling(c1, t);
          tmp := parent.right;
        }
        FarRed(c1, t); FarRisenInorder(c1, t);
        RaiseSiblingRight(parent, tmp, c1, t);
        done, elm', parent' := true, root, parent;
        c', t' := Top, tree;
      }
    }

    /**
     The branch of RB_REMOVE_COLOR for a short position that is a left child: either it returns the
     position that is short now, or the tree is repaired.
     */
    method RemoveColorLeft(parent: Node, elm: Node?, ghost c: Ctx, ghost t: Tree)
        returns (done: bool, elm': Node?, parent': Node?, ghost c': Ctx, ghost t': Tree)
      requires Shaped() && tree == Plug(c, t) && ShortAt(c, t) && !IsRed(t)
      requires c.In? && c.side == L && parent == c.node && elm == Root(t)
      modifies this, Nodes(tree)
      ensures Shaped() && tree == Plug(c', t') && elm' == Root(t')
      ensures Nodes(tree) == old(Nodes(tree)) && Inorder(tree) == old(Inorder(tree))
      ensures done ==> c' == Top && RedBlack(tree)
      ensures !done ==> ShortAt(c', t') && parent' == Above(c')
      ensures !done ==> Depth(c') < Depth(c) || (Depth(c') == Depth(c) && IsRed(t'))
      ensures if done then turns <= old(turns) + 3 else turns == old(turns) || (turns == old(turns) + 1 && IsRed(t'))
    {
      ShortSibling(c, t);
      LookAtSibling(c, t);
      ghost var c1 := c;
      var tmp := parent.right;
      if tmp.color == Red {
        SiblingRed(c, t); SiblingRisenInorder(c, t);
        RaiseRedSiblingRight(parent, tmp, c, t);
        c1 := SiblingRisen(c);
        ShortSibling(c1, t);
        LookAtSibling(c1, t);
        tmp := parent.right;
      }
      done, elm', parent', c', t' := BlackSiblingRight(parent, tmp, elm, c1, t);
    }

    /** A short right child whose sibling `tmp` is black. */
    method BlackSiblingLeft(parent: Node, tmp0: Node, elm: Node?, ghost c: Ctx, ghost t: Tree)
        returns (done: bool, elm': Node?, parent': Node?, ghost c': Ctx, ghost t': Tree)
      requires Shaped() && tree == Plug(c, t) && ShortAt(c, t) && !IsRed(t)
      requires c.In? && c.side == R && parent == c.node && c.sib.Bin? && !IsRed(c.sib) && tmp0 == c.sib.node
      modifies this, Nodes(tree)
      ensures Shaped() && tree == Plug(c', t') && elm' == Root(t')
      ensures Nodes(tree) == old(Nodes(tree)) && Inorder(tree) == old(Inorder(tree))
      ensures done ==> c' == Top && RedBlack(tree)
      ensures !done ==> ShortAt(c', t') && parent' == Above(c') && c' == c.up && (c.color == Red ==> IsRed(t'))
      ensures if done then turns <= old(turns) + 2 else turns == old(turns)
    {
      var tmp := tmp0;
      LookAtSibling(c, t);
      SameTree(c, t);
      if (tmp.left == null || tmp.left.color == Black) && (tmp.right == null || tmp.right.color == Black) {
        NephewsBlack(c, t); ReddenedInorder(c, t);
        SetColor(tmp, Red, AtSibling(c, t), c.sib);
        c', t' := c.up, SiblingReddened(c, t);
        Look(c', t');
        done, elm', parent' := false, parent, parent.parent;
      } else {
        ghost var c1 := c;
        if tmp.left == null || tmp.left.color == Black {
          NearRed(c, t); NearRisenInorder(c, t);
          RaiseInnerNephewLeft(tmp, c, t);
          c1 := NearRisen(c);
          LookAtSibling(c1, t);
          tmp := parent.left;
        }
        FarRed(c1, t); FarRisenInorder(c1, t);
        RaiseSiblingLeft(parent, tmp, c1, t);
        done, elm', parent' := true, root, parent;
        c', t' := Top, tree;
      }
    }

    /**
     The branch of RB_REMOVE_COLOR for a short position that is a right child: either it returns the
     position that is short now, or the tree is repaired.
     */
    method RemoveColorRight(parent: Node, elm: Node?, ghost c: Ctx, ghost t: Tree)
        returns (done: bool, elm': Node?, parent': Node?, ghost c': Ctx, ghost t': Tree)
      requires Shaped() && tree == Plug(c, t) && ShortAt(c, t) && !IsRed(t)
      requires c.In? && c.side == R && parent == c.node && elm == Root(t)
      modifies this, Nodes(tree)
      ensures Shaped() && tree == Plug(c', t') && elm' == Root(t')
      ensures Nodes(tree) == old(Nodes(tree)) && Inorder(tree) == old(Inorder(tree))
      ensures done ==> c' == Top && RedBlack(tree)
      ensures !done ==> ShortAt(c', t') && parent' == Above(c')
      ensures !done ==> Depth(c') < Depth(c) || (Depth(c') == Depth(c) && IsRed(t'))
      ensures if done then turns <= old(turns) + 3 else turns == old(turns) || (turns == old(turns) + 1 && IsRed(t'))
    {
      ShortSibling(c, t);
      LookAtSibling(c, t);
      ghost var c1 := c;
      var tmp := parent.left;
      if tmp.color == Red {
        SiblingRed(c, t); SiblingRisenInorder(c, t);
        RaiseRedSiblingLeft(parent, tmp, c, t);
        c1 := SiblingRisen(c);
        ShortSibling(c1, t);
        LookAtSibling(c1, t);
        tmp := parent.left;
      }
      done, elm', parent', c', t' := BlackSiblingLeft(parent, tmp, elm, c1, t);
    }

    /** The body of the loop of RB_REMOVE_COLOR. */
    method RemoveColorStep(parent: Node, elm: Node?, ghost c: Ctx, ghost t: Tree)
        returns (done: bool, elm': Node?, parent': Node?, ghost c': Ctx, ghost t': Tree)
      requires Shaped() && tree == Plug(c, t) && ShortAt(c, t) && !IsRed(t)
      requires c.In? && parent == c.node && elm == Root(t)
      modifies this, Nodes(tree)
      ensures Shaped() && tree == Plug(c', t') && elm' == Root(t')
      ensures elm' != null ==> elm' in Nodes(tree) && elm'.color == t'.color
      ensures Nodes(tree) == old(Nodes(tree)) && Inorder(tree) == old(Inorder(tree))
      ensures done ==> c' == Top && RedBlack(tree)
      ensures !done ==> ShortAt(c', t') && parent' == Above(c') && (c'.Top? <==> elm' == root)
      ensures !done ==> Depth(c') < Depth(c) || (Depth(c') == Depth(c) && IsRed(t'))
      ensures if done then turns <= old(turns) + 3 else turns == old(turns) || (turns == old(turns) + 1 && IsRed(t'))
    {
      ShortSibling(c, t);
      Look(c, t);
      if parent.left == elm {
        done, elm', parent', c', t' := RemoveColorLeft(parent, elm, c, t);
      } else {
        done, elm', parent', c', t' := RemoveColorRight(parent, elm, c, t);
      }
      Look(c', t');
    }

    /** `if (elm) RB_COLOR(elm) = RB_BLACK`, after the loop. */
    method BlackenShort(elm: Node?, ghost c: Ctx, ghost t: Tree)
      requires Shaped() && tree == Plug(c, t) && elm == Root(t)
      requires (c.Top? && RedBlack(tree)) || (ShortAt(c, t) && (IsRed(t) || c.Top?))
      modifies this`tree, Nodes(tree)
      ensures Shaped() && RedBlack(tree)
      ensures Nodes(tree) == old(Nodes(tree)) && Inorder(tree) == old(Inorder(tree))
    {
      if elm != null {
        Look(c, t);
        SameInorder(c, t, t.(color := Black));
        if ShortAt(c, t) { ShortDone(c, t); }
        SetColor(elm, Black, c, t);
      } else {
        if ShortAt(c, t) { ShortDone(c, t); }
      }
    }

    /**
     RB_REMOVE_COLOR. On entry every path through `start` is one black node short; on exit every rule
     holds and every entry is where it was. A red sibling costs one rotation, after which the loop ends:
     at most three are done.
     */
    method RemoveColor(parent0: Node?, start: Node?, ghost c0: Ctx, ghost t0: Tree)
      requires Shaped() && tree == Plug(c0, t0) && ShortAt(c0, t0)
      requires start == Root(t0) && parent0 == Above(c0)
      modifies this, Nodes(tree)
      ensures Shaped() && RedBlack(tree)
      ensures Nodes(tree) == old(Nodes(tree)) && Inorder(tree) == old(Inorder(tree))
      ensures turns <= old(turns) + 3
    {
      var elm, parent := start, parent0;
      ghost var c, t := c0, t0;
      Look(c, t);
      var done := false;
      while !done && (elm == null || elm.color == Black) && elm != root
        invariant Shaped() && tree == Plug(c, t) && elm == Root(t)
        invariant elm != null ==> elm in Nodes(tree) && elm.color == t.color
        invariant done ==> c == Top && RedBlack(tree)
        invariant !done ==> ShortAt(c, t) && parent == Above(c) && (c.Top? <==> elm == root)
        invariant Nodes(tree) == old(Nodes(tree)) && Inorder(tree) == old(Inorder(tree))
        invariant if done then turns <= old(turns) + 3 else turns == old(turns) || (turns == old(turns) + 1 && IsRed(t))
        decreases !done, Depth(c), if IsRed(t) then 0 else 1
      {
        done, elm, parent, c, t := RemoveColorStep(parent, elm, c, t);
      }
      BlackenShort(elm, c, t);
    }

    /** Lines 528-537 and 562-571: `child` takes the place of `elm`, which has no other child. */
    method Unlink(elm: Node, child: Node?, parent: Node?, ghost c: Ctx, ghost t: Tree, ghost childTree: Tree)
      requires Shaped() && tree == Plug(c, t) && t.Bin? && t.node == elm && OnlyChild(t, childTree)
      requires child == Root(childTree) && parent == Above(c)
      modifies this, Nodes(tree)
      ensures Shaped() && tree == Plug(c, childTree) && Nodes(tree) == old(Nodes(tree)) - {elm}
      ensures Held(elm) == old(Held(elm))
    {
      PlugNodes(c, t);
      UnlinkLocal(t, childTree, Above(c));
      UnlinkNodes(c, t, childTree);
      UnlinkFields(c, t, childTree);
      Look(c, t);
      RootOfPlug(c, t, childTree);
      assert allocated(Nodes(tree));
      LinkChild(elm, child, parent, c, Plug(c, childTree));
    }

    /** `child` is linked to the parent of `elm`, which completes the new tree. */
    method LinkChild(elm: Node, child: Node?, parent: Node?, ghost c: Ctx, ghost T: Tree)
      requires parent == Above(c) && Distinct(T) && elm in Nodes(tree) && Nodes(T) == Nodes(tree) - {elm}
      requires Root(T) == if c.Top? then child else root
      requires child != null ==>
        child in Nodes(T) && child != parent && FieldsAt(T, null, child) == Held(child).(parent := parent)
      requires c.In? ==>
        && c.node in Nodes(T) && Root(c.sib) != elm && Held(c.node) == CtxFieldsAt(c, elm, c.node)
        && FieldsAt(T, null, c.node) == CtxFieldsAt(c, child, c.node)
      requires forall n :: n in Nodes(T) && n != parent && n != child ==> Held(n) == FieldsAt(T, null, n)
      modifies this, Nodes(tree)
      ensures Shaped() && tree == T && Held(elm) == old(Held(elm))
    {
      assert allocated(Nodes(tree));
      SetParent(child, parent);
      ReplaceChild(parent, elm, child, c);
      tree := T;
    }

    /** `(elm)->field = (old)->field`. */
    method CopyField(elm: Node, out: Node)
      modifies elm
      ensures elm != out ==> Held(elm) == old(Held(out)).(key := old(elm.key))
    {
      elm.left, elm.right, elm.parent, elm.color := out.left, out.right, out.parent, out.color;
    }

    /**
     Lines 540-548: `elm` copies the links and the colour of `out` and takes its place below the
     parent. What is missing for the new tree is the parent link of the two children.
     */
    method CopyLinks(out: Node, elm: Node, ghost c: Ctx, ghost t: Tree, ghost T: Tree)
      requires Shaped() && tree == Plug(c, t) && t.Bin? && t.left.Bin? && t.node == out && elm !in Nodes(tree)
      requires T == Plug(c, WithNode(t, elm, elm.key))
      modifies this`root, Nodes(tree), elm
      ensures elm.key == old(elm.key) && Distinct(T) && root == Root(T)
      ensures Nodes(T) == Nodes(tree) - {out} + {elm} && out in Nodes(tree)
      ensures forall n :: n in Nodes(T) ==>
        (if n == out.left || n == out.right then Held(n).(parent := elm) else Held(n)) == FieldsAt(T, null, n)
      ensures out.left != null && out.left in Nodes(tree) && out.left != out.right && out.left != out
      ensures out.right != null ==> out.right in Nodes(tree)
    {
      ReplaceNodeFields(c, t, elm, elm.key);
      Look(c, t);
      assert allocated(Nodes(tree));
      CopyField(elm, out);
      ReplaceChild(out.parent, out, elm, c);
    }

    /** Lines 540-551: `elm`, not a member, takes the place of member `out`. */
    method ReplaceNode(out: Node, elm: Node, ghost c: Ctx, ghost t: Tree)
      requires Shaped() && tree == Plug(c, t) && t.Bin? && t.left.Bin? && t.node == out && elm !in Nodes(tree)
      modifies this, Nodes(tree), elm
      ensures Shaped() && tree == Plug(c, WithNode(t, elm, elm.key)) && elm.key == old(elm.key)
      ensures Nodes(tree) == old(Nodes(tree)) - {out} + {elm}
    {
      ghost var T := Plug(c, WithNode(t, elm, elm.key));
      assert allocated(Nodes(tree));
      CopyLinks(out, elm, c, t, T);
      LinkChildren(out, elm, T);
    }

    /** Lines 549-551: the children of `out` get `elm` as their parent, which completes the new tree. */
    method LinkChildren(out: Node, elm: Node, ghost T: Tree)
      requires Distinct(T) && root == Root(T) && Nodes(T) == Nodes(tree) - {out} + {elm} && elm !in Nodes(tree)
      requires forall n :: n in Nodes(T) ==>
        (if n == out.left || n == out.right then Held(n).(parent := elm) else Held(n)) == FieldsAt(T, null, n)
      requires out.left != null && out.left in Nodes(tree) && out.left != out.right && out.left != out
      requires out.right != null ==> out.right in Nodes(tree)
      modifies this, Nodes(tree)
      ensures Shaped() && tree == T && elm.key == old(elm.key)
    {
      assert allocated(Nodes(tree));
      out.left.parent := elm;
      SetParent(out.right, elm);
      tree := T;
    }

    /** `while (RB_LEFT(x)) x = RB_LEFT(x)`. */
    method Leftmost(x: Node, ghost c: Ctx, ghost t: Tree) returns (m: Node, ghost inner: Ctx, ghost s: Tree)
      requires Shaped() && tree == Plug(c, t) && t.Bin? && t.node == x
      ensures t == Plug(inner, s) && Spine(inner, L) && s.Bin? && s.left == Leaf && s.node == m
    {
      m, inner, s := x, Top, t;
      PlugAppend(inner, c, s);
      Look(c, t);
      while m.left != null
        invariant Shaped() && tree == Plug(Append(inner, c), s) && t == Plug(inner, s) && Spine(inner, L)
        invariant s.Bin? && s.node == m && m.left == Root(s.left)
        decreases s
      {
        m, inner, s := m.left, In(inner, L, s.node, s.key, s.color, s.right), s.left;
        Look(Append(inner, c), s);
      }
    }

    /** Lines 521-537: the successor of a member with two children is taken out. */
    method TakeSuccessor(out: Node, ghost c: Ctx, ghost t: Tree)
        returns (elm: Node, child: Node?, ghost inner: Ctx, ghost s: Tree)
      requires Shaped() && tree == Plug(c, t) && t.Bin? && t.left.Bin? && t.right.Bin? && t.node == out
      modifies this, Nodes(tree)
      ensures Successor(t, inner, s) && elm == s.node && child == Root(s.right)
      ensures elm.color == s.color && elm.key == s.key && elm.parent == if inner.Top? then out else inner.node
      ensures Shaped() && tree == Plug(c, Unlinked(t, inner, s)) && Nodes(tree) == old(Nodes(tree)) - {elm}
      ensures elm in old(Nodes(tree)) && elm != out
    {
      Look(c, t);
      assert allocated(Nodes(tree));
      elm, inner, s := Leftmost(out.right, In(c, R, out, t.key, t.color, t.left), t.right);
      SuccessorTrees(c, t, inner, s);
      Look(AtSuccessor(c, t, inner), s);
      child := elm.right;
      Unlink(elm, child, elm.parent, AtSuccessor(c, t, inner), s, s.right);
    }

    /**
     Lines 521-557: a member with two children is taken out by moving its successor object, under its
     own key, into its place. Returns the successor's child, its parent and its old colour.
     */
    method RelinkSuccessor(out: Node, ghost c: Ctx, ghost t: Tree)
        returns (child: Node?, parent: Node?, color: Color, ghost inner: Ctx, ghost s: Tree)
      requires Shaped() && tree == Plug(c, t) && t.Bin? && t.left.Bin? && t.right.Bin? && t.node == out
      modifies this, Nodes(tree)
      ensures Successor(t, inner, s) && child == Root(s.right) && color == s.color
      ensures Shaped() && tree == Plug(c, WithNode(Unlinked(t, inner, s), s.node, s.key))
      ensures parent == Above(AtSuccessor(c, WithNode(Unlinked(t, inner, s), s.node, s.key), inner))
      ensures Nodes(tree) == old(Nodes(tree)) - {out}
    {
      assert allocated(Nodes(tree));
      var elm;
      elm, child, inner, s := TakeSuccessor(out, c, t);
      SuccessorTrees(c, t, inner, s);
      parent, color := elm.parent, elm.color;
      if elm.parent == out {
        parent := elm;
      }
      ReplaceNode(out, elm, c, Unlinked(t, inner, s));
    }

    /**
     RB_REMOVE of a member: exactly that node object leaves. With two children its successor object is
     relinked into its place; no key is copied.
     */
    method Remove(elm: Node) returns (removed: Node)
      requires Shaped() && Valid(tree) && elm in Nodes(tree)
      modifies this, Nodes(tree)
      ensures Shaped() && Valid(tree) && removed == elm
      ensures Nodes(tree) == old(Nodes(tree)) - {elm}
      ensures Inorder(tree) == Without(old(Inorder(tree)), elm)
    {
      ghost var c, t := Locate(Top, tree, elm);
      Look(c, t);
      var child: Node?, parent: Node?, color;
      ghost var c', t';
      if elm.left != null && elm.right != null {
        ghost var inner, s;
        child, parent, color, inner, s := RelinkSuccessor(elm, c, t);
        SuccessorTrees(c, t, inner, s); SuccessorRules(c, t, inner, s); SuccessorEntries(c, t, inner, s);
        c', t' := AtSuccessor(c, WithNode(Unlinked(t, inner, s), s.node, s.key), inner), s.right;
      } else {
        child := if elm.left == null then elm.right else elm.left;
        t' := if t.left == Leaf then t.right else t.left;
        RemoveBreaks(c, t, t');
        UnlinkedEntries(c, t, t'); TakenOut(c, t, Plug(c, t'));
        parent, color := elm.parent, elm.color;
        Unlink(elm, child, parent, c, t, t');
        c' := c;
      }
      if color == Black {
        RemoveColor(parent, child, c', t');
      }
      removed := elm;
    }
  }
}
