/**
 What both kinds of tree share: binary trees over node objects, and one-hole contexts (the path from a
 position up to the root, with the subtrees hanging off it). A subtree put back into its context is the
 whole tree. Every node has a key and, in a tree that uses one, a color.
 */
module Zippers {
  import opened Entries

  datatype NodeTree<N, C> = Leaf | Bin(left: NodeTree<N, C>, node: N, key: int, color: C, right: NodeTree<N, C>)

  /** Which child of its parent a position is. */
  datatype Side = L | R

  /** The path above a position, nearest parent first; `sib` is the subtree on the other side. */
  datatype NodeCtx<N, C> = Top | In(up: NodeCtx<N, C>, side: Side, node: N, key: int, color: C, sib: NodeTree<N, C>)

  ghost function Join<N, C>(side: Side, t: NodeTree<N, C>, n: N, k: int, col: C, sib: NodeTree<N, C>): NodeTree<N, C> {
    if side == L then Bin(t, n, k, col, sib) else Bin(sib, n, k, col, t)
  }

  /** The whole tree: subtree `t` put into the hole of `c`. */
  ghost function Plug<N, C>(c: NodeCtx<N, C>, t: NodeTree<N, C>): NodeTree<N, C>
    decreases c
  {
    match c
    case Top => t
    case In(up, side, n, k, col, sib) => Plug(up, Join(side, t, n, k, col, sib))
  }

  ghost function Nodes<N, C>(t: NodeTree<N, C>): set<N> {
    match t
    case Leaf => {}
    case Bin(l, n, _, _, r) => Nodes(l) + {n} + Nodes(r)
  }

  ghost function CtxNodes<N, C>(c: NodeCtx<N, C>): set<N> {
    match c
    case Top => {}
    case In(up, _, n, _, _, sib) => CtxNodes(up) + {n} + Nodes(sib)
  }

  ghost function Depth<N, C>(c: NodeCtx<N, C>): nat {
    if c.Top? then 0 else 1 + Depth(c.up)
  }

  ghost function Size<N, C>(t: NodeTree<N, C>): nat { if t.Leaf? then 0 else Size(t.left) + 1 + Size(t.right) }

  /** No node object occurs twice. */
  ghost predicate Distinct<N, C>(t: NodeTree<N, C>) {
    match t
    case Leaf => true
    case Bin(l, n, _, _, r) =>
      && n !in Nodes(l) && n !in Nodes(r) && Nodes(l) !! Nodes(r)
      && Distinct(l) && Distinct(r)
  }

  ghost predicate DistinctCtx<N, C>(c: NodeCtx<N, C>) {
    match c
    case Top => true
    case In(up, _, n, _, _, sib) =>
      && n !in CtxNodes(up) && n !in Nodes(sib) && CtxNodes(up) !! Nodes(sib)
      && DistinctCtx(up) && Distinct(sib)
  }

  ghost predicate Separate<N, C>(c: NodeCtx<N, C>, t: NodeTree<N, C>) {
    DistinctCtx(c) && Distinct(t) && CtxNodes(c) !! Nodes(t)
  }

  ghost function Inorder<N, C>(t: NodeTree<N, C>): seq<Entry<N>> {
    if t.Leaf? then [] else Inorder(t.left) + [Entry(t.node, t.key)] + Inorder(t.right)
  }

  /** The entries to the left and to the right of the hole of `c`. */
  ghost function Before<N, C>(c: NodeCtx<N, C>): seq<Entry<N>> {
    if c.Top? then []
    else if c.side == L then Before(c.up)
    else Before(c.up) + Inorder(c.sib) + [Entry(c.node, c.key)]
  }

  ghost function After<N, C>(c: NodeCtx<N, C>): seq<Entry<N>> {
    if c.Top? then []
    else if c.side == R then After(c.up)
    else [Entry(c.node, c.key)] + Inorder(c.sib) + After(c.up)
  }

  lemma {:induction false} PlugInorder<N, C>(c: NodeCtx<N, C>, t: NodeTree<N, C>)
    ensures Inorder(Plug(c, t)) == Before(c) + Inorder(t) + After(c)
    decreases c
  {
    if c.In? {
      PlugInorder(c.up, Join(c.side, t, c.node, c.key, c.color, c.sib));
    }
  }

  lemma SameInorder<N, C>(c: NodeCtx<N, C>, t: NodeTree<N, C>, t': NodeTree<N, C>)
    requires Inorder(t) == Inorder(t')
    ensures Inorder(Plug(c, t)) == Inorder(Plug(c, t'))
  {
    PlugInorder(c, t);
    PlugInorder(c, t');
  }

  lemma {:induction false} PlugNodes<N, C>(c: NodeCtx<N, C>, t: NodeTree<N, C>)
    ensures Nodes(Plug(c, t)) == CtxNodes(c) + Nodes(t)
    ensures Distinct(Plug(c, t)) <==> Separate(c, t)
    decreases c
  {
    match c
    case Top =>
    case In(up, side, n, k, col, sib) => PlugNodes(up, Join(side, t, n, k, col, sib));
  }

  /** The path from a position inside a subtree up through the subtree's own context. */
  ghost function Append<N, C>(inner: NodeCtx<N, C>, outer: NodeCtx<N, C>): NodeCtx<N, C> {
    match inner
    case Top => outer
    case In(up, side, n, k, col, sib) => In(Append(up, outer), side, n, k, col, sib)
  }

  /** Every step of the path goes to the given side. */
  ghost predicate Spine<N, C>(c: NodeCtx<N, C>, side: Side) { c.In? ==> c.side == side && Spine(c.up, side) }

  lemma {:induction false} SpineOpen<N, C>(c: NodeCtx<N, C>)
    ensures Spine(c, R) ==> After(c) == []
    ensures Spine(c, L) ==> Before(c) == []
  {
    if c.In? { SpineOpen(c.up); }
  }

  /** The nodes that a search for the key looks at, from the root down. */
  ghost function SearchPath<N, C>(t: NodeTree<N, C>, k: int): seq<N> {
    if t.Leaf? then []
    else [t.node] + if k < t.key then SearchPath(t.left, k) else if k > t.key then SearchPath(t.right, k) else []
  }

  /** The tree after a left rotation at its root: the right child rises. */
  ghost function RotatedLeft<N, C>(t: NodeTree<N, C>): NodeTree<N, C>
    requires t.Bin? && t.right.Bin?
  {
    var r := t.right;
    Bin(Bin(t.left, t.node, t.key, t.color, r.left), r.node, r.key, r.color, r.right)
  }

  /** The tree after a right rotation at its root: the left child rises. */
  ghost function RotatedRight<N, C>(t: NodeTree<N, C>): NodeTree<N, C>
    requires t.Bin? && t.left.Bin?
  {
    var l := t.left;
    Bin(l.left, l.node, l.key, l.color, Bin(l.right, t.node, t.key, t.color, t.right))
  }

  lemma LeftInorder<N, C>(t: NodeTree<N, C>)
    requires t.Bin? && t.right.Bin?
    ensures Inorder(RotatedLeft(t)) == Inorder(t)
  {
    var r := t.right;
    RegroupRotated(Inorder(t.left), [Entry(t.node, t.key)], Inorder(r.left), [Entry(r.node, r.key)], Inorder(r.right));
  }

  lemma RightInorder<N, C>(t: NodeTree<N, C>)
    requires t.Bin? && t.left.Bin?
    ensures Inorder(RotatedRight(t)) == Inorder(t)
  {
    var l := t.left;
    RegroupRotated(Inorder(l.left), [Entry(l.node, l.key)], Inorder(l.right), [Entry(t.node, t.key)], Inorder(t.right));
  }

  lemma RotatedInorder<N, C>(t: NodeTree<N, C>)
    ensures t.Bin? && t.right.Bin? ==> Inorder(RotatedLeft(t)) == Inorder(t)
    ensures t.Bin? && t.left.Bin? ==> Inorder(RotatedRight(t)) == Inorder(t)
  {
    if t.Bin? && t.right.Bin? { LeftInorder(t); }
    if t.Bin? && t.left.Bin? { RightInorder(t); }
  }
}
