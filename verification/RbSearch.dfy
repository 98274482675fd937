/** Searching and stepping through a red-black tree: the operations that only read it. */
module RbSearch {
  import opened Entries
  import opened RbShape
  import opened RbRules
  import opened RbTree
  import opened Zippers

  /** The node at position `i` of the in-order sequence, or null past either end. */
  ghost function NodeAt(s: seq<Entry<Node>>, i: int): Node? {
    if 0 <= i < |s| then s[i].node else null
  }

  ghost function NodesOf(s: seq<Entry<Node>>): seq<Node> {
    seq(|s|, i requires 0 <= i < |s| => s[i].node)
  }

  /** RB_FIND: the member with this key, if there is one, and the nodes compared with. */
  method Find(head: RbTree, key: int) returns (found: Node?, ghost visited: seq<Node>)
    requires head.Shaped() && Valid(head.tree)
    ensures found == null <==> !HasKey(Inorder(head.tree), key)
    ensures found != null ==> Entry(found, key) in Inorder(head.tree)
    ensures Searched(head.tree, key, visited)
  {
    var tmp := head.root;
    ghost var c, t := Top, head.tree;
    visited := [];
    SearchStarts(head.tree, key);
    while tmp != null
      invariant head.Shaped() && head.tree == Plug(c, t) && tmp == Root(t) && SearchAt(c, key)
      invariant Searching(head.tree, key, visited, t)
      decreases t
    {
      head.Look(c, t);
      Descend(c, t, key);
      SearchGoesOn(head.tree, key, visited, t);
      visited := visited + [tmp];
      var comp := key - tmp.key;
      if comp < 0 {
        c, t, tmp := In(c, L, t.node, t.key, t.color, t.right), t.left, tmp.left;
      } else if comp > 0 {
        c, t, tmp := In(c, R, t.node, t.key, t.color, t.left), t.right, tmp.right;
      } else {
        return tmp, visited;
      }
    }
    NotFound(c, key);
    SearchEnds(head.tree, key, visited);
    return null, visited;
  }

  /** RB_NFIND: the least member whose key is not below `key`. */
  method NFind(head: RbTree, key: int) returns (res: Node?, ghost visited: seq<Node>)
    requires head.Shaped() && Valid(head.tree)
    ensures res == null <==> AllBelow(Inorder(head.tree), key)
    ensures res != null ==> Entry(res, res.key) in Inorder(head.tree) && res.key >= key
    ensures res != null ==> forall e :: e in Inorder(head.tree) && e.key >= key ==> res.key <= e.key
    ensures Searched(head.tree, key, visited)
  {
    var tmp := head.root;
    res := null;
    ghost var c, t := Top, head.tree;
    visited := [];
    SearchStarts(head.tree, key);
    while tmp != null
      invariant head.Shaped() && head.tree == Plug(c, t) && tmp == Root(t) && SearchAt(c, key)
      invariant res == NodeAt(After(c), 0) && (res != null ==> After(c)[0] == Entry(res, res.key))
      invariant Searching(head.tree, key, visited, t)
      decreases t
    {
      head.Look(c, t);
      Descend(c, t, key);
      SearchGoesOn(head.tree, key, visited, t);
      visited := visited + [tmp];
      var comp := key - tmp.key;
      if comp < 0 {
        res := tmp;
        c, t, tmp := In(c, L, t.node, t.key, t.color, t.right), t.left, tmp.left;
      } else if comp > 0 {
        c, t, tmp := In(c, R, t.node, t.key, t.color, t.left), t.right, tmp.right;
      } else {
        return tmp, visited;
      }
    }
    LeastNotBelow(c, key);
    SearchEnds(head.tree, key, visited);
  }

  /** After a failed search the least larger key is the first one right of the position. */
  lemma LeastNotBelow(c: Ctx, key: int)
    requires Sorted(Inorder(Plug(c, Leaf))) && SearchAt(c, key)
    ensures var s, a := Inorder(Plug(c, Leaf)), After(c);
      && (a == [] <==> AllBelow(s, key))
      && (a != [] ==> a[0] in s && a[0].key > key)
      && (a != [] ==> forall e :: e in s && e.key >= key ==> a[0].key <= e.key)
  {
    var a := After(c);
    NotFound(c, key);
    SortedJoin(Before(c), a);
    if a != [] {
      assert a[0] in a && a[0] in Before(c) + a;
      forall e | e in Before(c) + a && e.key >= key
        ensures a[0].key <= e.key
      {
        assert e in a;
      }
    }
  }

  /** RB_MINMAX: the first member for a negative `val`, the last one otherwise, null when empty. */
  method MinMax(head: RbTree, val: int) returns (parent: Node?)
    requires head.Shaped()
    ensures val < 0 ==> parent == NodeAt(Inorder(head.tree), 0)
    ensures val >= 0 ==> parent == NodeAt(Inorder(head.tree), |Inorder(head.tree)| - 1)
  {
    var tmp := head.root;
    parent := null;
    ghost var c, t := Top, head.tree;
    while tmp != null
      invariant head.Shaped() && head.tree == Plug(c, t) && tmp == Root(t) && parent == Above(c)
      invariant val < 0 ==> Spine(c, L)
      invariant val >= 0 ==> After(c) == [] && (c.In? ==> c.side == R)
      decreases t
    {
      head.Look(c, t);
      parent := tmp;
      if val < 0 {
        c, t, tmp := In(c, L, t.node, t.key, t.color, t.right), t.left, tmp.left;
      } else {
        c, t, tmp := In(c, R, t.node, t.key, t.color, t.left), t.right, tmp.right;
      }
    }
    PlugInorder(c, Leaf);
    if val < 0 { SpineOpen(c); }
    assert Before(c) + [] + After(c) == Before(c) + After(c);
  }

  /** The in-order position of a member, found at a joint. */
  lemma PositionOf(c: Ctx, t: Tree, i: nat)
    requires Distinct(Plug(c, t)) && Valid(Plug(c, t)) && t.Bin?
    requires i < |Inorder(Plug(c, t))| && Inorder(Plug(c, t))[i].node == t.node
    ensures i == |Before(c) + Inorder(t.left)|
  {
    var s, a := Inorder(Plug(c, t)), Before(c) + Inorder(t.left);
    PlugInorderAround(c, t);
    assert s[|a|] == Entry(t.node, t.key);
    if i != |a| {
      OtherNode(Plug(c, t), s[i], s[|a|]);
      assert false;
    }
  }

  lemma StepRight(c: Ctx, t: Tree, i: nat)
    requires Distinct(Plug(c, t)) && Valid(Plug(c, t)) && t.Bin?
    requires i < |Inorder(Plug(c, t))| && Inorder(Plug(c, t))[i].node == t.node
    ensures NodeAt(Inorder(Plug(c, t)), i + 1) == NodeAt(Inorder(t.right) + After(c), 0)
    ensures NodeAt(Inorder(Plug(c, t)), i - 1) ==
      NodeAt(Before(c) + Inorder(t.left), |Before(c) + Inorder(t.left)| - 1)
  {
    PositionOf(c, t, i);
    PlugInorderAround(c, t);
  }

  /** RB_NEXT: the member after the one at position `i`. */
  method Next(head: RbTree, elm: Node, ghost i: nat) returns (next: Node?)
    requires head.Shaped() && Valid(head.tree)
    requires i < |Inorder(head.tree)| && Inorder(head.tree)[i].node == elm
    ensures next == NodeAt(Inorder(head.tree), i + 1)
  {
    EntryMember(head.tree, null, elm, Inorder(head.tree)[i].key);
    ghost var c, t := Locate(Top, head.tree, elm);
    StepRight(c, t, i);
    head.Look(c, t);
    if elm.right != null {
      ghost var inner, s;
      next, inner, s := head.Leftmost(elm.right, In(c, R, t.node, t.key, t.color, t.left), t.right);
      SuccessorFirst(inner, s);
    } else if elm.parent != null && elm == elm.parent.left {
      next := elm.parent;
    } else {
      var x := elm;
      ghost var tx := t;
      assert Inorder(t.right) + After(c) == After(c);
      ghost var rest := After(c);
      while x.parent != null && x == x.parent.right
        invariant head.Shaped() && head.tree == Plug(c, tx) && tx.Bin? && tx.node == x
        invariant x.parent == Above(c) && After(c) == rest
        decreases c
      {
        head.Look(c, tx);
        c, tx, x := c.up, Join(c.side, tx, c.node, c.key, c.color, c.sib), x.parent;
        head.Look(c, tx);
      }
      head.Look(c, tx);
      next := x.parent;
    }
  }

  lemma PredecessorLast(inner: Ctx, s: Tree)
    requires Spine(inner, R) && s.Bin? && s.right == Leaf
    ensures Inorder(Plug(inner, s)) == Inorder(Plug(inner, s.left)) + [Entry(s.node, s.key)]
  {
    SpineOpen(inner);
    PlugInorder(inner, s);
    PlugInorder(inner, s.left);
  }

  /** `while (RB_RIGHT(x)) x = RB_RIGHT(x)`. */
  method Rightmost(head: RbTree, x: Node, ghost c: Ctx, ghost t: Tree)
      returns (m: Node, ghost inner: Ctx, ghost s: Tree)
    requires head.Shaped() && head.tree == Plug(c, t) && t.Bin? && t.node == x
    ensures t == Plug(inner, s) && Spine(inner, R) && s.Bin? && s.right == Leaf && s.node == m
  {
    m, inner, s := x, Top, t;
    PlugAppend(inner, c, s);
    head.Look(c, t);
    while m.right != null
      invariant head.Shaped() && head.tree == Plug(Append(inner, c), s) && t == Plug(inner, s) && Spine(inner, R)
      invariant s.Bin? && s.node == m && m.right == Root(s.right)
      decreases s
    {
      m, inner, s := m.right, In(inner, R, s.node, s.key, s.color, s.left), s.right;
      head.Look(Append(inner, c), s);
    }
  }

  /** RB_PREV: the member before the one at position `i`. */
  method Prev(head: RbTree, elm: Node, ghost i: nat) returns (prev: Node?)
    requires head.Shaped() && Valid(head.tree)
    requires i < |Inorder(head.tree)| && Inorder(head.tree)[i].node == elm
    ensures prev == NodeAt(Inorder(head.tree), i - 1)
  {
    EntryMember(head.tree, null, elm, Inorder(head.tree)[i].key);
    ghost var c, t := Locate(Top, head.tree, elm);
    StepRight(c, t, i);
    head.Look(c, t);
    if elm.left != null {
      ghost var inner, s;
      prev, inner, s := Rightmost(head, elm.left, In(c, L, t.node, t.key, t.color, t.right), t.left);
      PredecessorLast(inner, s);
    } else if elm.parent != null && elm == elm.parent.right {
      prev := elm.parent;
    } else {
      var x := elm;
      ghost var tx := t;
      assert Before(c) + Inorder(t.left) == Before(c);
      ghost var rest := Before(c);
      while x.parent != null && x == x.parent.left
        invariant head.Shaped() && head.tree == Plug(c, tx) && tx.Bin? && tx.node == x
        invariant x.parent == Above(c) && Before(c) == rest
        decreases c
      {
        head.Look(c, tx);
        c, tx, x := c.up, Join(c.side, tx, c.node, c.key, c.color, c.sib), x.parent;
        head.Look(c, tx);
      }
      head.Look(c, tx);
      prev := x.parent;
    }
  }

  /** RB_FOREACH: from RB_MIN by RB_NEXT to null visits every member once, in increasing key order. */
  method ForEach(head: RbTree) returns (visited: seq<Node>)
    requires head.Shaped() && Valid(head.tree)
    ensures visited == NodesOf(Inorder(head.tree))
  {
    ghost var s := Inorder(head.tree);
    visited := [];
    assert allocated(Nodes(head.tree));
    var x := MinMax(head, -1);
    while x != null
      invariant head.Shaped() && |visited| <= |s| && visited == NodesOf(s[..|visited|])
      invariant x == NodeAt(s, |visited|)
      decreases |s| - |visited|
    {
      ghost var i := |visited|;
      assert s[..i + 1] == s[..i] + [s[i]];
      visited := visited + [x];
      assert allocated(Nodes(head.tree));
      x := Next(head, x, i);
    }
    assert s[..|visited|] == s;
  }

  /** RB_FOREACH_REVERSE: from RB_MAX by RB_PREV to null. */
  method ForEachReverse(head: RbTree) returns (visited: seq<Node>)
    requires head.Shaped() && Valid(head.tree)
    ensures |visited| == |Inorder(head.tree)|
    ensures forall i :: 0 <= i < |visited| ==> visited[i] == Inorder(head.tree)[|visited| - 1 - i].node
  {
    ghost var s := Inorder(head.tree);
    visited := [];
    assert allocated(Nodes(head.tree));
    var x := MinMax(head, 1);
    while x != null
      invariant head.Shaped() && |visited| <= |s|
      invariant forall i :: 0 <= i < |visited| ==> visited[i] == s[|s| - 1 - i].node
      invariant x == NodeAt(s, |s| - 1 - |visited|)
      decreases |s| - |visited|
    {
      ghost var i := |s| - 1 - |visited|;
      visited := visited + [x];
      assert allocated(Nodes(head.tree));
      x := Prev(head, x, i);
    }
  }

  /** RB_PREV undoes RB_NEXT. */
  method NextThenPrev(head: RbTree, elm: Node, ghost i: nat) returns (back: Node?)
    requires head.Shaped() && Valid(head.tree)
    requires i + 1 < |Inorder(head.tree)| && Inorder(head.tree)[i].node == elm
    ensures back == elm
  {
    assert allocated(Nodes(head.tree));
    var next := Next(head, elm, i);
    back := Prev(head, next, i + 1);
  }
}
