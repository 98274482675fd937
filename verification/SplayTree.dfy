/** The top-down splay tree operations on node objects, in place. */
module SplayTree {
  import opened Entries
  import opened SplayDepth
  import opened SplayShape
  import opened Zippers

  class SplayTree {
    var root: Node?
    ghost var tree: Tree

    constructor ()
      ensures Shaped() && tree == Leaf
    {
      root, tree := null, Leaf;
    }

    ghost predicate Shaped()
      reads this, Nodes(tree)
    {
      && root == Root(tree) && Distinct(tree)
      && forall n :: n in Nodes(tree) ==> Held(n) == FieldsAt(tree, n)
    }

    /**
     A splay under way. The nodes are split into the left side tree around `l`, the middle tree `t`
     and the right side tree around `r`. `dummy` holds the first nodes of the side trees; `left` and
     `right` are where the next node will be linked in, and their open links hold anything.
     */
    ghost predicate Split(dummy: Node, left: Node, right: Node, l: Ctx, t: Tree, r: Ctx)
      reads this, dummy, left, right, CtxNodes(l), Nodes(t), CtxNodes(r)
    {
      && root == Root(t)
      && left == (if l.Top? then dummy else l.node) && right == (if r.Top? then dummy else r.node)
      && (l.In? ==> dummy.right == First(l)) && (r.In? ==> dummy.left == First(r))
      && (forall n :: n in CtxNodes(l) ==> Held(n) == CtxFieldsAt(l, left.right, n))
      && (forall n :: n in Nodes(t) ==> Held(n) == FieldsAt(t, n))
      && (forall n :: n in CtxNodes(r) ==> Held(n) == CtxFieldsAt(r, right.left, n))
    }

    /** SPLAY_LINKLEFT: the middle root, with its right subtree, goes to the right side tree. */
    method LinkLeft(right: Node, ghost dummy: Node, ghost left: Node, ghost l: Ctx, ghost t: Tree, ghost r: Ctx)
        returns (right': Node)
      requires Apart(dummy, l, t, r) && Split(dummy, left, right, l, t, r) && t.left.Bin?
      modifies this`root, right
      ensures Split(dummy, left, right', l, t.left, In(r, L, t.node, t.key, t.color, t.right))
    {
      FirstExtended(r, L, t.node, t.key, t.color, t.right);
      assert t.left.node in Nodes(t.left);
      right.left := root;
      right' := root;
      root := root.left;
    }

    /** SPLAY_LINKRIGHT: the middle root, with its left subtree, goes to the left side tree. */
    method LinkRight(left: Node, ghost dummy: Node, ghost right: Node, ghost l: Ctx, ghost t: Tree, ghost r: Ctx)
        returns (left': Node)
      requires Apart(dummy, l, t, r) && Split(dummy, left, right, l, t, r) && t.right.Bin?
      modifies this`root, left
      ensures Split(dummy, left', right, In(l, R, t.node, t.key, t.color, t.left), t.right, r)
    {
      FirstExtended(l, R, t.node, t.key, t.color, t.left);
      assert t.right.node in Nodes(t.right);
      left.right := root;
      left' := root;
      root := root.right;
    }

    method RotateRight(tmp: Node, ghost dummy: Node, ghost left: Node, ghost right: Node,
                       ghost l: Ctx, ghost t: Tree, ghost r: Ctx)
      requires Apart(dummy, l, t, r) && Split(dummy, left, right, l, t, r) && t.left.Bin? && tmp == t.left.node
      modifies this`root, root, tmp
      ensures Split(dummy, left, right, l, RotatedRight(t), r)
    {
      RotatedSame(t);
      RotateRightFields(t);
      root.left := tmp.right;
      tmp.right := root;
      root := tmp;
    }

    method RotateLeft(tmp: Node, ghost dummy: Node, ghost left: Node, ghost right: Node,
                      ghost l: Ctx, ghost t: Tree, ghost r: Ctx)
      requires Apart(dummy, l, t, r) && Split(dummy, left, right, l, t, r) && t.right.Bin? && tmp == t.right.node
      modifies this`root, root, tmp
      ensures Split(dummy, left, right, l, RotatedLeft(t), r)
    {
      RotatedSame(t);
      RotateLeftFields(t);
      root.right := tmp.left;
      tmp.left := root;
      root := tmp;
    }

    /** The assignments of SPLAY_ASSEMBLE. An empty side tree leaves the subtree of the root where it is. */
    method Graft(top: Node, node: Node, left: Node, right: Node)
      requires top != node && top != left && top != right && (left == right ==> left == node)
      modifies top, left, right
      ensures top.left == (if left == node then old(top.left) else old(node.right)) && top.key == old(top.key)
      ensures top.right == if right == node then old(top.right) else old(node.left)
      ensures left != node ==> Held(left) == old(Held(left)).(right := old(top.left))
      ensures right != node ==> Held(right) == old(Held(right)).(left := old(top.right))
    {
      left.right := top.left;
      right.left := top.right;
      top.left := node.right;
      top.right := node.left;
    }

    /** SPLAY_ASSEMBLE: the side trees become the subtrees of the middle root. */
    method Assemble(node: Node, left: Node, right: Node, ghost l: Ctx, ghost t: Tree, ghost r: Ctx)
      requires Apart(node, l, t, r) && Split(node, left, right, l, t, r)
      modifies this`tree, root, left, right
      ensures Shaped() && tree == Assembled(l, t, r) && Nodes(tree) == CtxNodes(l) + Nodes(t) + CtxNodes(r)
    {
      AssembledFields(l, t, r, left.right, right.left);
      assert allocated(CtxNodes(l)) && allocated(Nodes(t)) && allocated(CtxNodes(r));
      Graft(root, node, left, right);
      tree := Assembled(l, t, r);
    }

    /** What the middle root and its children hold. */
    lemma Look(dummy: Node, left: Node, right: Node, l: Ctx, t: Tree, r: Ctx)
      requires Apart(dummy, l, t, r) && Split(dummy, left, right, l, t, r)
      ensures root == t.node && Held(root) == Fields(Root(t.left), Root(t.right), t.key) && root in Nodes(t)
      ensures t.left.Bin? ==> t.left.node in Nodes(t) && t.left.node.key == t.left.key
      ensures t.right.Bin? ==> t.right.node in Nodes(t) && t.right.node.key == t.right.key
      ensures l.In? ==> l.node in CtxNodes(l)
      ensures r.In? ==> r.node in CtxNodes(r)
    {
      assert t.left.Bin? ==>
        t.left.node in Nodes(t.left) && FieldsAt(t, t.left.node) == FieldsAt(t.left, t.left.node);
      assert t.right.Bin? ==>
        t.right.node in Nodes(t.right) && FieldsAt(t, t.right.node) == FieldsAt(t.right, t.right.node);
    }

    /**
     The branch of the splay loop for a key below the middle root. `stop` tells that it broke out of
     the loop.
     */
    method SplayLeft(key: int, right: Node, ghost dummy: Node, ghost left: Node,
                     ghost l: Ctx, ghost t: Tree, ghost r: Ctx, ghost s: seq<Entry<Node>>)
        returns (stop: bool, right': Node, ghost t': Tree, ghost r': Ctx)
      requires Apart(dummy, l, t, r) && Split(dummy, left, right, l, t, r) && Parted(l, t, r, key, s)
      requires Sorted(s) && key < t.key
      modifies this`root, right, Nodes(t)
      ensures Apart(dummy, l, t', r') && Split(dummy, left, right', l, t', r') && Parted(l, t', r', key, s)
      ensures LeftRound(t, r, key, stop, t', r')
    {
      Look(dummy, left, right, l, t, r);
      ApartRotated(dummy, l, t, r);
      stop, right', t', r' := true, right, t, r;
      var tmp := root.left;
      if tmp == null {
        return;
      }
      if key < tmp.key {
        PartedRotate(l, t, r, key, s);
        RotateRight(tmp, dummy, left, right, l, t, r);
        t' := RotatedRight(t);
        Look(dummy, left, right, l, t', r);
        if root.left == null {
          return;
        }
      }
      ApartLinked(dummy, l, t', r);
      PartedLink(l, t', r, key, s);
      right' := LinkLeft(right, dummy, left, l, t', r);
      stop, t', r' := false, t'.left, In(r, L, t'.node, t'.key, t'.color, t'.right);
    }

    /** The branch for a key above the middle root. */
    method SplayRight(key: int, left: Node, ghost dummy: Node, ghost right: Node,
                      ghost l: Ctx, ghost t: Tree, ghost r: Ctx, ghost s: seq<Entry<Node>>)
        returns (stop: bool, left': Node, ghost l': Ctx, ghost t': Tree)
      requires Apart(dummy, l, t, r) && Split(dummy, left, right, l, t, r) && Parted(l, t, r, key, s)
      requires Sorted(s) && key > t.key
      modifies this`root, left, Nodes(t)
      ensures Apart(dummy, l', t', r) && Split(dummy, left', right, l', t', r) && Parted(l', t', r, key, s)
      ensures RightRound(l, t, key, stop, l', t')
    {
      Look(dummy, left, right, l, t, r);
      ApartRotated(dummy, l, t, r);
      stop, left', l', t' := true, left, l, t;
      var tmp := root.right;
      if tmp == null {
        return;
      }
      if key > tmp.key {
        PartedRotate(l, t, r, key, s);
        RotateLeft(tmp, dummy, left, right, l, t, r);
        t' := RotatedLeft(t);
        Look(dummy, left, right, l, t', r);
        if root.right == null {
          return;
        }
      }
      ApartLinked(dummy, l, t', r);
      PartedLink(l, t', r, key, s);
      left' := LinkRight(left, dummy, right, l, t', r);
      stop, l', t' := false, In(l, R, t'.node, t'.key, t'.color, t'.left), t'.right;
    }

    /** One round of the splay loop, for a key the middle root does not hold. */
    method SplayStep(key: int, left: Node, right: Node, ghost dummy: Node,
                     ghost l: Ctx, ghost t: Tree, ghost r: Ctx, ghost s: seq<Entry<Node>>)
        returns (stop: bool, left': Node, right': Node, ghost l': Ctx, ghost t': Tree, ghost r': Ctx)
      requires Apart(dummy, l, t, r) && Split(dummy, left, right, l, t, r) && Parted(l, t, r, key, s)
      requires Sorted(s) && key != t.key
      modifies this`root, left, right, Nodes(t)
      ensures Apart(dummy, l', t', r') && Split(dummy, left', right', l', t', r') && Parted(l', t', r', key, s)
      ensures Round(l, t, r, key, stop, l', t', r')
    {
      Look(dummy, left, right, l, t, r);
      stop, left', right', l', t', r' := false, left, right, l, t, r;
      if key < root.key {
        stop, right', t', r' := SplayLeft(key, right, dummy, left, l, t, r, s);
      } else {
        stop, left', l', t' := SplayRight(key, left, dummy, right, l, t, r, s);
      }
    }

    /** Opening: an empty side tree on each side of the whole tree. */
    lemma SplayStart(dummy: Node)
      requires Shaped() && tree.Bin? && dummy !in Nodes(tree)
      ensures Apart(dummy, Top, tree, Top) && Split(dummy, dummy, dummy, Top, tree, Top)
      ensures CtxNodes(Ctx.Top) + Nodes(tree) + CtxNodes(Ctx.Top) == Nodes(tree)
      ensures Before(Ctx.Top) + Inorder(tree) + After(Ctx.Top) == Inorder(tree)
      ensures root.key == tree.key
    {
      assert root in Nodes(tree) && Held(root) == FieldsAt(tree, root);
    }

    /**
     SPLAY: the same node objects in the same order, with the key's node, or else its immediate
     predecessor or successor, as the root. The path to it becomes half as deep, and no node sinks by more than two.
     */
    method Splay(key: int)
      requires Shaped() && Sorted(Inorder(tree)) && tree.Bin?
      modifies this, Nodes(tree)
      ensures Shaped() && Nearest(tree, key) && Shortened(old(tree), key, tree)
      ensures Nodes(tree) == old(Nodes(tree)) && Inorder(tree) == old(Inorder(tree))
    {
      assert allocated(Nodes(tree));
      var dummy := new Node(key);
      var left, right, stop := dummy, dummy, false;
      ghost var l, t, r, s := Top, tree, Top, Inorder(tree);
      SplayStart(dummy);
      ShorteningStarts(tree, key);
      while !stop && root.key != key
        invariant Apart(dummy, l, t, r) && Split(dummy, left, right, l, t, r) && Parted(l, t, r, key, s)
        invariant CtxNodes(l) + Nodes(t) + CtxNodes(r) == old(Nodes(tree))
        invariant root.key == t.key && (stop ==> Ends(t, key)) && Shortening(old(tree), key, l, t, r, stop)
        decreases !stop, Size(t)
      {
        SplayNodes(dummy, left, right, l, t, r);
        ghost var l0, t0, r0 := l, t, r;
        stop, left, right, l, t, r := SplayStep(key, left, right, dummy, l, t, r, s);
        Look(dummy, left, right, l, t, r);
        RoundKeeps(l0, t0, r0, key, stop, l, t, r);
        ShorteningOn(old(tree), key, l0, t0, r0, stop, l, t, r);
      }
      SplayNodes(dummy, left, right, l, t, r);
      PartedNearest(l, t, r, key, s);
      AssembledShorter(old(tree), key, l, t, r, stop);
      Assemble(dummy, left, right, l, t, r);
    }

    /** The nodes the splay works at are among its three trees. */
    lemma SplayNodes(dummy: Node, left: Node, right: Node, l: Ctx, t: Tree, r: Ctx)
      requires Apart(dummy, l, t, r) && Split(dummy, left, right, l, t, r)
      ensures root != null && root in Nodes(t) && Spine(l, R) && Spine(r, L) && t.Bin?
      ensures left == dummy || left in CtxNodes(l)
      ensures right == dummy || right in CtxNodes(r)
    {
    }

    /** The branch of SPLAY_MINMAX for a negative `comp`: it rotates whenever there is a left child. */
    method MinStep(right: Node, ghost key: int, ghost dummy: Node, ghost left: Node,
                   ghost l: Ctx, ghost t: Tree, ghost r: Ctx, ghost s: seq<Entry<Node>>)
        returns (stop: bool, right': Node, ghost t': Tree, ghost r': Ctx)
      requires Apart(dummy, l, t, r) && Split(dummy, left, right, l, t, r) && Parted(l, t, r, key, s) && Sorted(s)
      requires AllAbove(s, key)
      modifies this`root, right, Nodes(t)
      ensures Apart(dummy, l, t', r') && Split(dummy, left, right', l, t', r') && Parted(l, t', r', key, s)
      ensures LeftRound(t, r, key, stop, t', r')
    {
      Look(dummy, left, right, l, t, r);
      ApartRotated(dummy, l, t, r);
      stop, right', t', r' := true, right, t, r;
      var tmp := root.left;
      if tmp == null {
        return;
      }
      PartedRotate(l, t, r, key, s);
      RotateRight(tmp, dummy, left, right, l, t, r);
      t' := RotatedRight(t);
      MiddleEntry(l, t', r, key, s);
      Look(dummy, left, right, l, t', r);
      ApartLinked(dummy, l, t', r);
      if root.left == null {
        return;
      }
      PartedLink(l, t', r, key, s);
      right' := LinkLeft(right, dummy, left, l, t', r);
      stop, t', r' := false, t'.left, In(r, L, t'.node, t'.key, t'.color, t'.right);
    }

    method MaxStep(left: Node, ghost key: int, ghost dummy: Node, ghost right: Node,
                   ghost l: Ctx, ghost t: Tree, ghost r: Ctx, ghost s: seq<Entry<Node>>)
        returns (stop: bool, left': Node, ghost l': Ctx, ghost t': Tree)
      requires Apart(dummy, l, t, r) && Split(dummy, left, right, l, t, r) && Parted(l, t, r, key, s) && Sorted(s)
      requires AllBelow(s, key)
      modifies this`root, left, Nodes(t)
      ensures Apart(dummy, l', t', r) && Split(dummy, left', right, l', t', r) && Parted(l', t', r, key, s)
      ensures RightRound(l, t, key, stop, l', t')
    {
      Look(dummy, left, right, l, t, r);
      ApartRotated(dummy, l, t, r);
      stop, left', l', t' := true, left, l, t;
      var tmp := root.right;
      if tmp == null {
        return;
      }
      PartedRotate(l, t, r, key, s);
      RotateLeft(tmp, dummy, left, right, l, t, r);
      t' := RotatedLeft(t);
      MiddleEntry(l, t', r, key, s);
      Look(dummy, left, right, l, t', r);
      ApartLinked(dummy, l, t', r);
      if root.right == null {
        return;
      }
      PartedLink(l, t', r, key, s);
      left' := LinkRight(left, dummy, right, l, t', r);
      stop, l', t' := false, In(l, R, t'.node, t'.key, t'.color, t'.left), t'.right;
    }

    method MinMaxStep(comp: int, left: Node, right: Node, ghost key: int, ghost dummy: Node,
                      ghost l: Ctx, ghost t: Tree, ghost r: Ctx, ghost s: seq<Entry<Node>>)
        returns (stop: bool, left': Node, right': Node, ghost l': Ctx, ghost t': Tree, ghost r': Ctx)
      requires Apart(dummy, l, t, r) && Split(dummy, left, right, l, t, r) && Parted(l, t, r, key, s)
      requires Sorted(s) && comp != 0 && (comp < 0 ==> AllAbove(s, key)) && (comp > 0 ==> AllBelow(s, key))
      modifies this`root, left, right, Nodes(t)
      ensures Apart(dummy, l', t', r') && Split(dummy, left', right', l', t', r') && Parted(l', t', r', key, s)
      ensures key != t.key && Round(l, t, r, key, stop, l', t', r')
    {
      MiddleEntry(l, t, r, key, s);
      stop, left', right', l', t', r' := false, left, right, l, t, r;
      if comp < 0 {
        stop, right', t', r' := MinStep(right, key, dummy, left, l, t, r, s);
      } else {
        stop, left', l', t' := MaxStep(left, key, dummy, right, l, t, r, s);
      }
    }

    /**
     SPLAY_MINMAX: the first entry becomes the root for a negative `comp`, the last one for a positive
     one, and the path to it becomes half as deep. The loop does nothing, for ever, when `comp` is zero.
     */
    method MinMax(comp: int)
      requires Shaped() && Sorted(Inorder(tree)) && tree.Bin? && comp != 0
      modifies this, Nodes(tree)
      ensures Shaped() && Nodes(tree) == old(Nodes(tree)) && Inorder(tree) == old(Inorder(tree))
      ensures tree.Bin? && (comp < 0 ==> tree.left == Leaf) && (comp > 0 ==> tree.right == Leaf)
      ensures Shortened(old(tree), OuterKey(comp, old(Inorder(tree))), tree)
    {
      assert allocated(Nodes(tree));
      ghost var s := Inorder(tree);
      ghost var key := OuterKey(comp, s);
      var dummy := new Node(0);
      var left, right, stop := dummy, dummy, false;
      ghost var l, t, r := Top, tree, Top;
      SplayStart(dummy);
      ShorteningStarts(tree, key);
      while !stop
        invariant Apart(dummy, l, t, r) && Split(dummy, left, right, l, t, r) && Parted(l, t, r, key, s)
        invariant CtxNodes(l) + Nodes(t) + CtxNodes(r) == old(Nodes(tree))
        invariant if comp < 0 then l == Top else r == Top
        invariant Shortening(old(tree), key, l, t, r, stop) && (stop ==> Ends(t, key))
        decreases !stop, Size(t)
      {
        SplayNodes(dummy, left, right, l, t, r);
        ghost var l0, t0, r0 := l, t, r;
        stop, left, right, l, t, r := MinMaxStep(comp, left, right, key, dummy, l, t, r, s);
        OuterSide(l0, t0, r0, key, s);
        RoundKeeps(l0, t0, r0, key, stop, l, t, r);
        ShorteningOn(old(tree), key, l0, t0, r0, stop, l, t, r);
      }
      SplayNodes(dummy, left, right, l, t, r);
      OuterSide(l, t, r, key, s);
      AssembledShorter(old(tree), key, l, t, r, stop);
      AssembledInorder(l, t, r);
      Assemble(dummy, left, right, l, t, r);
    }

    /** SPLAY_MIN and SPLAY_MAX: null for an empty tree. */
    method MinOrMax(val: int) returns (elm: Node?)
      requires Shaped() && Sorted(Inorder(tree)) && val != 0
      modifies this, Nodes(tree)
      ensures Shaped() && Nodes(tree) == old(Nodes(tree)) && Inorder(tree) == old(Inorder(tree))
      ensures val < 0 ==> elm == NodeAt(Inorder(tree), 0)
      ensures val > 0 ==> elm == NodeAt(Inorder(tree), |Inorder(tree)| - 1)
    {
      if root == null {
        return null;
      }
      MinMax(val);
      elm := root;
    }

    /** SPLAY_FIND: the member with the key, if there is one. */
    method Find(key: int) returns (found: Node?)
      requires Shaped() && Sorted(Inorder(tree))
      modifies this, Nodes(tree)
      ensures Shaped() && Nodes(tree) == old(Nodes(tree)) && Inorder(tree) == old(Inorder(tree))
      ensures found == null <==> !HasKey(Inorder(tree), key)
      ensures found != null ==> Entry(found, key) in Inorder(tree) && root == found
    {
      if root == null {
        return null;
      }
      Splay(key);
      NearestDecides(tree, key);
      RootEntry();
      if key == root.key {
        return root;
      }
      return null;
    }

    lemma RootEntry()
      requires Shaped() && tree.Bin?
      ensures root in Nodes(tree) && Held(root) == Fields(Root(tree.left), Root(tree.right), tree.key)
      ensures Entry(tree.node, tree.key) in Inorder(tree)
    {
      assert Held(root) == FieldsAt(tree, root);
    }

    /** SPLAY_NEXT of the member at position `i`: the one after it. */
    method Next(elm: Node, ghost i: nat) returns (next: Node?)
      requires Shaped() && Sorted(Inorder(tree))
      requires i < |Inorder(tree)| && Inorder(tree)[i].node == elm
      modifies this, Nodes(tree)
      ensures Shaped() && Nodes(tree) == old(Nodes(tree)) && Inorder(tree) == old(Inorder(tree))
      ensures next == NodeAt(Inorder(tree), i + 1)
    {
      EntryHeld(Inorder(tree)[i]);
      Splay(elm.key);
      NearestAt(tree, i);
      RootEntry();
      next := elm;
      if elm.right != null {
        next := elm.right;
        ghost var t := tree.right;
        SubtreeHeld(tree.right);
        while next.left != null
          invariant t.Bin? && next == t.node && Distinct(t) && Inorder(t)[0] == Inorder(tree.right)[0]
          invariant forall n :: n in Nodes(t) ==> Held(n) == FieldsAt(t, n)
          invariant next.left == Root(t.left)
          decreases t
        {
          t, next := t.left, next.left;
          assert next in Nodes(t);
        }
      } else {
        next := null;
      }
    }

    /** These are the nodes at the front of the in-order sequence. */
    ghost predicate Visited(visited: seq<Node>, s: seq<Entry<Node>>) {
      var ok := |visited| <= |s| && forall i :: 0 <= i < |visited| ==> visited[i] == s[i].node;
      ok
    }

    /**
     SPLAY_FOREACH: although every step restructures the tree, each member is visited once, in
     increasing key order.
     */
    method ForEach() returns (visited: seq<Node>)
      requires Shaped() && Sorted(Inorder(tree))
      modifies this, Nodes(tree)
      ensures Shaped() && Nodes(tree) == old(Nodes(tree)) && Inorder(tree) == old(Inorder(tree))
      ensures |visited| == |Inorder(tree)| && Visited(visited, Inorder(tree))
    {
      ghost var s := Inorder(tree);
      visited := [];
      assert allocated(Nodes(tree));
      var x := MinOrMax(-1);
      while x != null
        invariant Shaped() && Inorder(tree) == s && Nodes(tree) == old(Nodes(tree)) && |visited| <= |s|
        invariant Visited(visited, s) && x == NodeAt(s, |visited|)
        decreases |s| - |visited|
      {
        ghost var i := |visited|;
        visited := visited + [x];
        assert Visited(visited, s);
        x := Next(x, i);
      }
    }

    lemma SubtreeHeld(t: Tree)
      requires Shaped() && tree.Bin? && (t == tree.left || t == tree.right)
      ensures Distinct(t)
      ensures forall n :: n in Nodes(t) ==> Held(n) == FieldsAt(t, n)
      ensures t.Bin? ==> t.node in Nodes(t) && t.node.left == Root(t.left)
    {
      forall n | n in Nodes(t)
        ensures Held(n) == FieldsAt(t, n)
      {
        assert n in Nodes(tree);
      }
      if t.Bin? { assert Held(t.node) == FieldsAt(t, t.node); }
    }

    lemma EntryHeld(e: Entry<Node>)
      requires Shaped() && e in Inorder(tree)
      ensures e.node in Nodes(tree) && e.node.key == e.key
    {
      EntryMember(tree, e);
    }

    /** A splay for the key of `elm`, member or not: the root tells whether the key is entered. */
    method SplayFor(elm: Node)
      requires Shaped() && Sorted(Inorder(tree)) && tree.Bin?
      modifies this, Nodes(tree)
      ensures Shaped() && Nearest(tree, elm.key) && elm.key == old(elm.key)
      ensures Nodes(tree) == old(Nodes(tree)) && Inorder(tree) == old(Inorder(tree))
      ensures root in Nodes(tree) && Held(root) == Fields(Root(tree.left), Root(tree.right), tree.key)
      ensures Entry(root, root.key) in Inorder(tree)
      ensures root.key == elm.key <==> HasKey(Inorder(tree), elm.key)
      ensures elm in Nodes(tree) ==> root.key == elm.key
    {
      ghost var e := Entry(elm, elm.key);
      if elm in Nodes(tree) { e := MemberEntry(tree, elm); }
      Splay(elm.key);
      if elm in Nodes(tree) { EntryHeld(e); }
      NearestDecides(tree, e.key);
      RootEntry();
    }

    /**
     SPLAY_INSERT. Either the member with the same key comes back and the members stay as they were, or
     exactly `elm` is entered, as the root.
     */
    method Insert(elm: Node) returns (found: Node?)
      requires Shaped() && Sorted(Inorder(tree))
      modifies this, Nodes(tree), elm
      ensures Shaped() && Sorted(Inorder(tree)) && elm.key == old(elm.key)
      ensures found == null <==> !HasKey(old(Inorder(tree)), elm.key)
      ensures found != null ==> Entry(found, elm.key) in Inorder(tree) && Inorder(tree) == old(Inorder(tree))
      ensures found != null ==> Nodes(tree) == old(Nodes(tree)) && root == found
      ensures found == null ==> elm !in old(Nodes(tree)) && Nodes(tree) == old(Nodes(tree)) + {elm} && root == elm
      ensures found == null ==> Inorder(tree) == Inserted(old(Inorder(tree)), Entry(elm, elm.key))
    {
      if root == null {
        elm.left, elm.right := null, null;
        root, tree := elm, Bin(Leaf, elm, elm.key, (), Leaf);
        return null;
      }
      SplayFor(elm);
      if elm.key == root.key {
        return root;
      }
      ghost var t := tree;
      Enter(elm);
      EnteredSorted(t, elm, elm.key);
      return null;
    }

    /** The two unequal branches of SPLAY_INSERT. */
    method Enter(elm: Node)
      requires Shaped() && tree.Bin? && elm !in Nodes(tree) && elm.key != tree.key
      modifies this, root, elm
      ensures Shaped() && tree == Entered(old(tree), elm, elm.key) && elm.key == old(elm.key)
      ensures Nodes(tree) == old(Nodes(tree)) + {elm} && root == elm
    {
      RootEntry();
      EnteredFields(tree, elm, elm.key);
      if elm.key < root.key {
        elm.left := root.left;
        elm.right := root;
        root.left := null;
      } else {
        elm.right := root.right;
        elm.left := root;
        root.right := null;
      }
      root := elm;
      tree := Entered(tree, elm, elm.key);
    }

    /**
     SPLAY_REMOVE: the member with the key of `elm`, if there is one, leaves. What comes back is the
     argument `elm`, not the node that left. Without a left subtree the right one remains; otherwise
     the left subtree is splayed again, which leaves its root without a right child, and the saved
     right subtree is hung there.
     */
    method Remove(elm: Node) returns (removed: Node?, ghost gone: Node?)
      requires Shaped() && Sorted(Inorder(tree))
      modifies this, Nodes(tree)
      ensures Shaped() && Sorted(Inorder(tree)) && elm.key == old(elm.key)
      ensures gone != null <==> HasKey(old(Inorder(tree)), elm.key)
      ensures removed == (if gone != null then elm else null)
      ensures gone == null ==> Inorder(tree) == old(Inorder(tree)) && Nodes(tree) == old(Nodes(tree))
      ensures gone != null ==> Entry(gone, elm.key) in old(Inorder(tree)) && Nodes(tree) == old(Nodes(tree)) - {gone}
      ensures gone != null ==> Inorder(tree) == Without<Node>(old(Inorder(tree)), gone)
    {
      gone := null;
      if root == null {
        return null, null;
      }
      SplayFor(elm);
      if elm.key == root.key {
        gone := root;
        RemoveRoot(elm);
        return elm, gone;
      }
      return null, null;
    }

    method RemoveRoot(elm: Node)
      requires Shaped() && Sorted(Inorder(tree)) && tree.Bin? && elm.key == tree.key
      modifies this, Nodes(tree)
      ensures Shaped() && Sorted(Inorder(tree)) && elm.key == old(elm.key)
      ensures Nodes(tree) == old(Nodes(tree)) - {old(tree.node)}
      ensures Inorder(tree) == Without(old(Inorder(tree)), old(tree.node))
    {
      RootEntry();
      if root.left == null {
        LeaveRight();
      } else {
        WithoutRoot(tree);
        SubtreeHeld(tree.left);
        SubtreeHeld(tree.right);
        var tmp := root.right;
        ghost var r := tree.right;
        root := root.left;
        tree := tree.left;
        SplayAndHang(elm, tmp, r);
      }
    }

    /** The right subtree of the removed root is the whole tree then. */
    method LeaveRight()
      requires Shaped() && Sorted(Inorder(tree)) && tree.Bin? && root.left == null
      modifies this
      ensures Shaped() && Sorted(Inorder(tree)) && Nodes(tree) == old(Nodes(tree)) - {old(tree.node)}
      ensures Inorder(tree) == Without(old(Inorder(tree)), old(tree.node))
    {
      RootEntry();
      WithoutFirst(tree);
      SubtreeHeld(tree.right);
      root := root.right;
      tree := tree.right;
    }

    /** The left subtree of the removed root is splayed, and the saved right subtree hung under it. */
    method SplayAndHang(elm: Node, tmp: Node?, ghost r: Tree)
      requires Shaped() && tree.Bin? && Sorted(Inorder(tree)) && AllBelow(Inorder(tree), elm.key) && tmp == Root(r)
      requires Distinct(r) && Nodes(r) !! Nodes(tree) && forall n :: n in Nodes(r) ==> Held(n) == FieldsAt(r, n)
      modifies this, Nodes(tree)
      ensures Shaped() && Nodes(tree) == old(Nodes(tree)) + Nodes(r)
      ensures Inorder(tree) == old(Inorder(tree)) + Inorder(r)
      ensures elm.key == old(elm.key)
    {
      assert allocated(Nodes(tree)) && allocated(Nodes(r));
      if elm in Nodes(tree) { var e := MemberEntry(tree, elm); assert false; }
      var key := elm.key;
      Splay(key);
      NearestLast(tree, key);
      HangRight(tmp, r);
    }

    /** The saved right subtree goes under a root that has none. */
    method HangRight(tmp: Node?, ghost r: Tree)
      requires Shaped() && tree.Bin? && tree.right == Leaf && tmp == Root(r)
      requires Distinct(r) && Nodes(r) !! Nodes(tree) && forall n :: n in Nodes(r) ==> Held(n) == FieldsAt(r, n)
      modifies this`tree, root
      ensures Shaped() && Nodes(tree) == old(Nodes(tree)) + Nodes(r) && root == old(root)
      ensures Inorder(tree) == old(Inorder(tree)) + Inorder(r)
      ensures root.key == old(root.key)
    {
      RootEntry();
      assert Inorder(tree) == Inorder(tree.left) + [Entry(tree.node, tree.key)];
      root.right := tmp;
      tree := tree.(right := r);
    }
  }
}
