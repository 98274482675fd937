/**
 The shape of an intrusive red-black tree: the node objects with their link fields, and what each must
 hold for them to form a given tree. Code that works at one position is described by what it does to the
 subtree there.
 */
module RbShape {
  import opened Entries
  import opened Zippers

  datatype Color = Black | Red

  /** A structure with an embedded RB_ENTRY; `key` is the field its comparator reads. */
  class Node {
    var left: Node?
    var right: Node?
    var parent: Node?
    var color: Color
    var key: int

    constructor (k: int)
      ensures key == k
    {
      left, right, parent, color, key := null, null, null, Black, k;
    }
  }

  type Tree = NodeTree<Node, Color>
  type Ctx = NodeCtx<Node, Color>

  ghost function Root(t: Tree): Node? { if t.Leaf? then null else t.node }

  ghost function Above(c: Ctx): Node? { if c.Top? then null else c.node }

  /** The contents of one node object. */
  datatype Fields = Fields(left: Node?, right: Node?, parent: Node?, color: Color, key: int)

  ghost function Held(n: Node): Fields
    reads n
  {
    Fields(n.left, n.right, n.parent, n.color, n.key)
  }

  /** What node `n` must hold for the structure below parent `p` to be `t`. */
  ghost function FieldsAt(t: Tree, p: Node?, n: Node): Fields {
    match t
    case Leaf => Fields(null, null, null, Black, 0)
    case Bin(l, m, k, col, r) =>
      if n == m then Fields(Root(l), Root(r), p, col, k)
      else if n in Nodes(l) then FieldsAt(l, m, n)
      else FieldsAt(r, m, n)
  }

  /** What node `n` must hold for the structure around a hole with root `hole` to be `c`. */
  ghost function CtxFieldsAt(c: Ctx, hole: Node?, n: Node): Fields {
    match c
    case Top => Fields(null, null, null, Black, 0)
    case In(up, side, m, k, col, sib) =>
      if n == m then
        if side == L then Fields(hole, Root(sib), Above(up), col, k)
        else Fields(Root(sib), hole, Above(up), col, k)
      else if n in Nodes(sib) then FieldsAt(sib, m, n)
      else CtxFieldsAt(up, m, n)
  }

  lemma {:induction false} RootOfPlug(c: Ctx, t: Tree, t': Tree)
    ensures Root(t) == Root(t') || c.In? ==> Root(Plug(c, t)) == Root(Plug(c, t'))
    ensures c.In? ==> Root(Plug(c, t)) in CtxNodes(c)
    decreases c
  {
    match c
    case Top =>
    case In(up, side, n, k, col, sib) =>
      RootOfPlug(up, Join(side, t, n, k, col, sib), Join(side, t', n, k, col, sib));
  }

  /** What a node holds is decided by the part of the tree, context or subtree, it lies in. */
  lemma {:induction false} PlugFields(c: Ctx, t: Tree, n: Node)
    requires Separate(c, t)
    ensures n in Nodes(t) ==> FieldsAt(Plug(c, t), null, n) == FieldsAt(t, Above(c), n)
    ensures n in CtxNodes(c) ==> FieldsAt(Plug(c, t), null, n) == CtxFieldsAt(c, Root(t), n)
    decreases c
  {
    match c
    case Top =>
    case In(up, side, m, k, col, sib) => PlugFields(up, Join(side, t, m, k, col, sib), n);
  }

  /** What the two nodes next to the joint of `c` and `t` hold. */
  lemma JointFields(c: Ctx, t: Tree)
    requires Distinct(Plug(c, t))
    ensures t.Bin? ==> t.node in Nodes(Plug(c, t))
    ensures t.Bin? ==>
      FieldsAt(Plug(c, t), null, t.node) == Fields(Root(t.left), Root(t.right), Above(c), t.color, t.key)
    ensures c.In? ==> c.node in Nodes(Plug(c, t))
    ensures c.In? ==> FieldsAt(Plug(c, t), null, c.node) == CtxFieldsAt(c, Root(t), c.node)
    ensures c.In? ==> Root(Plug(c, t)) != Root(t) && (t.Bin? ==> Root(c.sib) != t.node)
  {
    PlugNodes(c, t);
    RootOfPlug(c, t, t);
    if t.Bin? { PlugFields(c, t, t.node); }
    if c.In? {
      PlugFields(c, t, c.node);
      assert c.sib.Bin? ==> c.sib.node in Nodes(c.sib);
    }
  }

  /** Replacing the subtree in a context changes, outside that subtree, only the parent's child link. */
  lemma PlugChange(c: Ctx, t: Tree, t': Tree)
    requires Distinct(Plug(c, t)) && Distinct(t') && Nodes(t') !! CtxNodes(c)
    ensures Separate(c, t) && Distinct(Plug(c, t'))
    ensures Nodes(Plug(c, t)) == CtxNodes(c) + Nodes(t) && Nodes(Plug(c, t')) == CtxNodes(c) + Nodes(t')
    ensures forall n {:trigger FieldsAt(Plug(c, t), null, n)} ::
      n in Nodes(t) ==> FieldsAt(Plug(c, t), null, n) == FieldsAt(t, Above(c), n)
    ensures forall n {:trigger FieldsAt(Plug(c, t'), null, n)} ::
      n in Nodes(t') ==> FieldsAt(Plug(c, t'), null, n) == FieldsAt(t', Above(c), n)
    ensures forall n {:trigger FieldsAt(Plug(c, t'), null, n)} ::
      n in CtxNodes(c) && n != Above(c) ==> FieldsAt(Plug(c, t'), null, n) == FieldsAt(Plug(c, t), null, n)
    ensures c.In? ==>
      && c.node in CtxNodes(c)
      && FieldsAt(Plug(c, t), null, c.node) == CtxFieldsAt(c, Root(t), c.node)
      && FieldsAt(Plug(c, t'), null, c.node) == CtxFieldsAt(c, Root(t'), c.node)
    ensures Root(Plug(c, t')) == if c.Top? then Root(t') else Root(Plug(c, t))
  {
    PlugNodes(c, t);
    PlugNodes(c, t');
    RootOfPlug(c, t, t');
    forall n | n in CtxNodes(c) + Nodes(t)
      ensures n in Nodes(t) ==> FieldsAt(Plug(c, t), null, n) == FieldsAt(t, Above(c), n)
      ensures n in CtxNodes(c) ==> FieldsAt(Plug(c, t), null, n) == CtxFieldsAt(c, Root(t), n)
    {
      PlugFields(c, t, n);
    }
    forall n | n in CtxNodes(c) + Nodes(t')
      ensures n in Nodes(t') ==> FieldsAt(Plug(c, t'), null, n) == FieldsAt(t', Above(c), n)
      ensures n in CtxNodes(c) ==> FieldsAt(Plug(c, t'), null, n) == CtxFieldsAt(c, Root(t'), n)
    {
      PlugFields(c, t', n);
    }
  }

  lemma {:induction false} PlugAppend(inner: Ctx, outer: Ctx, t: Tree)
    ensures Plug(Append(inner, outer), t) == Plug(outer, Plug(inner, t))
    ensures Above(Append(inner, outer)) == if inner.Top? then Above(outer) else inner.node
    decreases inner
  {
    match inner
    case Top =>
    case In(up, side, n, k, col, sib) => PlugAppend(up, outer, Join(side, t, n, k, col, sib));
  }

  /** Every member is the root of the subtree at some position. */
  lemma {:induction false} Locate(outer: Ctx, t: Tree, n: Node) returns (c: Ctx, s: Tree)
    requires n in Nodes(t)
    ensures Plug(c, s) == Plug(outer, t) && s.Bin? && s.node == n
    decreases t
  {
    if n == t.node {
      c, s := outer, t;
    } else if n in Nodes(t.left) {
      c, s := Locate(In(outer, L, t.node, t.key, t.color, t.right), t.left, n);
    } else {
      c, s := Locate(In(outer, R, t.node, t.key, t.color, t.left), t.right, n);
    }
  }

  /** The members are the nodes, each under the key it holds. */
  lemma {:induction false} MemberEntry(t: Tree, p: Node?, n: Node)
    requires n in Nodes(t)
    ensures Entry(n, FieldsAt(t, p, n).key) in Inorder(t)
  {
    if t.Bin? && n != t.node {
      if n in Nodes(t.left) { MemberEntry(t.left, t.node, n); } else { MemberEntry(t.right, t.node, n); }
    }
  }

  lemma {:induction false} EntryMember(t: Tree, p: Node?, n: Node, k: int)
    requires Distinct(t) && Entry(n, k) in Inorder(t)
    ensures n in Nodes(t) && FieldsAt(t, p, n).key == k
  {
    if Entry(n, k) in Inorder(t.left) {
      EntryMember(t.left, t.node, n, k);
    } else if Entry(n, k) in Inorder(t.right) {
      EntryMember(t.right, t.node, n, k);
    }
  }

  /** Outside `w`, `x`, `y` and `z`, every node of `t` holds the same in `t'`. */
  ghost predicate SameBut(t: Tree, t': Tree, w: Node?, x: Node?, y: Node?, z: Node?) {
    forall n {:trigger FieldsAt(t', null, n)} ::
      n in Nodes(t) && n != w && n != x && n != y && n != z ==> FieldsAt(t', null, n) == FieldsAt(t, null, n)
  }

  /** The same for subtrees below parent `w`. */
  ghost predicate SameBelowBut(t: Tree, t': Tree, w: Node?, x: Node?, y: Node?, z: Node?) {
    forall n {:trigger FieldsAt(t', w, n)} ::
      n in Nodes(t) && n != x && n != y && n != z ==> FieldsAt(t', w, n) == FieldsAt(t, w, n)
  }

  /** Below a different parent, only the root of a subtree holds anything different. */
  lemma ReparentFields(t: Tree, p: Node?, q: Node?)
    ensures forall n {:trigger FieldsAt(t, q, n)} :: n != Root(t) ==> FieldsAt(t, q, n) == FieldsAt(t, p, n)
    ensures t.Bin? ==> t.node in Nodes(t) && FieldsAt(t, q, t.node) == FieldsAt(t, p, t.node).(parent := q)
  {
  }

  lemma RotateLeftLocal(t: Tree, w: Node?)
    requires t.Bin? && t.right.Bin? && Distinct(t)
    ensures
      var t' := RotatedLeft(t);
      var x, y, z := t.node, t.right.node, Root(t.right.left);
      && Nodes(t') == Nodes(t) && Distinct(t')
      && x in Nodes(t) && y in Nodes(t) && (z != null ==> z in Nodes(t))
      && x != y && x != z && y != z
      && FieldsAt(t, w, x) == Fields(Root(t.left), y, w, t.color, t.key)
      && FieldsAt(t, w, y) == Fields(z, Root(t.right.right), x, t.right.color, t.right.key)
      && FieldsAt(t', w, x) == Fields(Root(t.left), z, y, t.color, t.key)
      && FieldsAt(t', w, y) == Fields(x, Root(t.right.right), w, t.right.color, t.right.key)
      && (z != null ==> FieldsAt(t', w, z) == FieldsAt(t, w, z).(parent := x))
      && SameBelowBut(t, t', w, x, y, z)
  {
    var x, y, b := t.node, t.right.node, t.right.left;
    assert Distinct(t.right) && Distinct(b);
    assert b.Bin? ==> b.node in Nodes(b);
    ReparentFields(b, y, x);
    assert forall n :: n in Nodes(b) ==> FieldsAt(t, w, n) == FieldsAt(t.right, x, n) == FieldsAt(b, y, n);
    assert forall n :: n in Nodes(b) ==>
      FieldsAt(RotatedLeft(t), w, n) == FieldsAt(RotatedLeft(t).left, y, n) == FieldsAt(b, x, n);
  }

  lemma RotateLeftFields(c: Ctx, t: Tree)
    requires t.Bin? && t.right.Bin? && Distinct(Plug(c, t))
    ensures
      var T, T' := Plug(c, t), Plug(c, RotatedLeft(t));
      var w, x, y, z := Above(c), t.node, t.right.node, Root(t.right.left);
      && Nodes(T') == Nodes(T) && Distinct(T')
      && x in Nodes(T) && y in Nodes(T) && (w != null ==> w in Nodes(T)) && (z != null ==> z in Nodes(T))
      && x != y && x != z && x != w && y != z && y != w && (z != null ==> z != w)
      && FieldsAt(T, null, x) == Fields(Root(t.left), y, w, t.color, t.key)
      && FieldsAt(T, null, y) == Fields(z, Root(t.right.right), x, t.right.color, t.right.key)
      && FieldsAt(T', null, x) == Fields(Root(t.left), z, y, t.color, t.key)
      && FieldsAt(T', null, y) == Fields(x, Root(t.right.right), w, t.right.color, t.right.key)
      && (z != null ==> FieldsAt(T', null, z) == FieldsAt(T, null, z).(parent := x))
      && (c.In? ==> FieldsAt(T, null, w) == CtxFieldsAt(c, x, w) && FieldsAt(T', null, w) == CtxFieldsAt(c, y, w))
      && (c.In? ==> Root(c.sib) != x)
      && SameBut(T, T', w, x, y, z)
      && Root(T') == if c.Top? then y else Root(T)
  {
    PlugNodes(c, t);
    JointFields(c, t);
    RotateLeftLocal(t, Above(c));
    PlugChange(c, t, RotatedLeft(t));
  }

  lemma RotateRightLocal(t: Tree, w: Node?)
    requires t.Bin? && t.left.Bin? && Distinct(t)
    ensures
      var t' := RotatedRight(t);
      var x, y, z := t.node, t.left.node, Root(t.left.right);
      && Nodes(t') == Nodes(t) && Distinct(t')
      && x in Nodes(t) && y in Nodes(t) && (z != null ==> z in Nodes(t))
      && x != y && x != z && y != z
      && FieldsAt(t, w, x) == Fields(y, Root(t.right), w, t.color, t.key)
      && FieldsAt(t, w, y) == Fields(Root(t.left.left), z, x, t.left.color, t.left.key)
      && FieldsAt(t', w, x) == Fields(z, Root(t.right), y, t.color, t.key)
      && FieldsAt(t', w, y) == Fields(Root(t.left.left), x, w, t.left.color, t.left.key)
      && (z != null ==> FieldsAt(t', w, z) == FieldsAt(t, w, z).(parent := x))
      && SameBelowBut(t, t', w, x, y, z)
  {
    var x, y, b := t.node, t.left.node, t.left.right;
    assert Distinct(t.left) && Distinct(b);
    assert b.Bin? ==> b.node in Nodes(b);
    ReparentFields(b, y, x);
    assert forall n :: n in Nodes(b) ==> FieldsAt(t, w, n) == FieldsAt(t.left, x, n) == FieldsAt(b, y, n);
    assert forall n :: n in Nodes(b) ==>
      FieldsAt(RotatedRight(t), w, n) == FieldsAt(RotatedRight(t).right, y, n) == FieldsAt(b, x, n);
  }

  lemma RotateRightFields(c: Ctx, t: Tree)
    requires t.Bin? && t.left.Bin? && Distinct(Plug(c, t))
    ensures
      var T, T' := Plug(c, t), Plug(c, RotatedRight(t));
      var w, x, y, z := Above(c), t.node, t.left.node, Root(t.left.right);
      && Nodes(T') == Nodes(T) && Distinct(T')
      && x in Nodes(T) && y in Nodes(T) && (w != null ==> w in Nodes(T)) && (z != null ==> z in Nodes(T))
      && x != y && x != z && x != w && y != z && y != w && (z != null ==> z != w)
      && FieldsAt(T, null, x) == Fields(y, Root(t.right), w, t.color, t.key)
      && FieldsAt(T, null, y) == Fields(Root(t.left.left), z, x, t.left.color, t.left.key)
      && FieldsAt(T', null, x) == Fields(z, Root(t.right), y, t.color, t.key)
      && FieldsAt(T', null, y) == Fields(Root(t.left.left), x, w, t.left.color, t.left.key)
      && (z != null ==> FieldsAt(T', null, z) == FieldsAt(T, null, z).(parent := x))
      && (c.In? ==> FieldsAt(T, null, w) == CtxFieldsAt(c, x, w) && FieldsAt(T', null, w) == CtxFieldsAt(c, y, w))
      && (c.In? ==> Root(c.sib) != x)
      && SameBut(T, T', w, x, y, z)
      && Root(T') == if c.Top? then y else Root(T)
  {
    PlugNodes(c, t);
    JointFields(c, t);
    RotateRightLocal(t, Above(c));
    PlugChange(c, t, RotatedRight(t));
  }

  lemma RecolorFields(c: Ctx, t: Tree, col: Color)
    requires t.Bin? && Distinct(Plug(c, t))
    ensures
      var T, T' := Plug(c, t), Plug(c, t.(color := col));
      && Nodes(T') == Nodes(T) && Distinct(T') && Root(T') == Root(T)
      && t.node in Nodes(T) && FieldsAt(T', null, t.node) == FieldsAt(T, null, t.node).(color := col)
      && SameBut(T, T', t.node, null, null, null)
  {
    PlugNodes(c, t);
    RootOfPlug(c, t, t.(color := col));
    PlugChange(c, t, t.(color := col));
  }

  /** A new node hung into an empty position. */
  lemma LinkFields(c: Ctx, leaf: Tree)
    requires Distinct(Plug(c, Leaf)) && leaf.Bin? && leaf.left == Leaf && leaf.right == Leaf
    requires leaf.node !in Nodes(Plug(c, Leaf))
    ensures
      var T, T' := Plug(c, Leaf), Plug(c, leaf);
      && Nodes(T') == Nodes(T) + {leaf.node} && Distinct(T')
      && Root(T') == (if c.Top? then leaf.node else Root(T))
      && FieldsAt(T', null, leaf.node) == Fields(null, null, Above(c), leaf.color, leaf.key)
      && (c.In? ==> c.node in Nodes(T) && FieldsAt(T, null, c.node) == CtxFieldsAt(c, null, c.node)
                    && FieldsAt(T', null, c.node) == CtxFieldsAt(c, leaf.node, c.node))
      && SameBut(T, T', Above(c), null, null, null)
  {
    PlugNodes(c, Leaf);
    assert Nodes(leaf) == {leaf.node};
    PlugChange(c, Leaf, leaf);
  }

  /** `child` is the only subtree of a node with at most one child. */
  ghost predicate OnlyChild(t: Tree, child: Tree)
    requires t.Bin?
  {
    (t.left == Leaf && child == t.right) || (t.right == Leaf && child == t.left)
  }

  /** `child` holds, below parent `w`, what it held below the root of `t`, apart from its parent link. */
  ghost predicate ChildAlone(t: Tree, child: Tree, w: Node?)
    requires t.Bin?
  {
    && Nodes(t) == Nodes(child) + {t.node} && t.node !in Nodes(child) && Distinct(child)
    && SameBelowBut(child, t, w, Root(child), null, null)
    && (child.Bin? ==> child.node in Nodes(child)
                       && FieldsAt(child, w, child.node) == FieldsAt(t, w, child.node).(parent := w))
  }

  lemma UnlinkLocal(t: Tree, child: Tree, w: Node?)
    requires t.Bin? && Distinct(t) && OnlyChild(t, child)
    ensures ChildAlone(t, child, w)
  {
    ReparentFields(child, t.node, w);
    assert forall n :: n in Nodes(child) ==> FieldsAt(t, w, n) == FieldsAt(child, t.node, n);
  }

  /** The child of a node with at most one child takes its place. */
  lemma UnlinkNodes(c: Ctx, t: Tree, child: Tree)
    requires t.Bin? && Distinct(Plug(c, t)) && ChildAlone(t, child, Above(c))
    ensures
      var T, T' := Plug(c, t), Plug(c, child);
      && t.node in Nodes(T) && Nodes(T') == Nodes(T) - {t.node} && Distinct(T')
      && Root(T') == (if c.Top? then Root(child) else Root(T))
  {
    PlugNodes(c, t);
    PlugNodes(c, child);
    RootOfPlug(c, t, child);
  }

  lemma UnlinkFields(c: Ctx, t: Tree, child: Tree)
    requires t.Bin? && Distinct(Plug(c, t)) && ChildAlone(t, child, Above(c))
    ensures
      var T, T' := Plug(c, t), Plug(c, child);
      && (child.Bin? ==> child.node in Nodes(T') && child.node != Above(c)
                         && FieldsAt(T', null, child.node) == FieldsAt(T, null, child.node).(parent := Above(c)))
      && (c.In? ==> c.node in Nodes(T') && Root(c.sib) != t.node
                    && FieldsAt(T, null, c.node) == CtxFieldsAt(c, t.node, c.node)
                    && FieldsAt(T', null, c.node) == CtxFieldsAt(c, Root(child), c.node))
      && (forall n {:trigger FieldsAt(T', null, n)} ::
            n in Nodes(T') && n != Above(c) && n != Root(child) ==> FieldsAt(T', null, n) == FieldsAt(T, null, n))
  {
    PlugNodes(c, t);
    assert c.In? ==> Root(c.sib) != t.node by { JointFields(c, t); }
    PlugChange(c, t, child);
    assert child.Bin? ==> child.node in Nodes(t);
  }

  /** Node `n` with key `k` put in the place of the root of `t`. */
  ghost function WithNode(t: Tree, n: Node, k: int): Tree
    requires t.Bin?
  {
    Bin(t.left, n, k, t.color, t.right)
  }

  lemma ReplaceNodeLocal(t: Tree, w: Node?, elm: Node, k: int)
    requires t.Bin? && Distinct(t) && elm !in Nodes(t)
    ensures
      var t', l, r := WithNode(t, elm, k), Root(t.left), Root(t.right);
      && t.node in Nodes(t) && Nodes(t') == Nodes(t) - {t.node} + {elm} && Distinct(t')
      && FieldsAt(t, w, t.node) == Fields(l, r, w, t.color, t.key)
      && FieldsAt(t', w, elm) == Fields(l, r, w, t.color, k)
      && (l != null ==> l in Nodes(t) && l != t.node && l != r
                        && FieldsAt(t', w, l) == FieldsAt(t, w, l).(parent := elm))
      && (r != null ==> r in Nodes(t) && r != t.node && FieldsAt(t', w, r) == FieldsAt(t, w, r).(parent := elm))
      && SameBelowBut(t, t', w, t.node, l, r)
  {
    var t' := WithNode(t, elm, k);
    assert t.left.Bin? ==> t.left.node in Nodes(t.left);
    assert t.right.Bin? ==> t.right.node in Nodes(t.right);
    ReparentFields(t.left, t.node, elm);
    ReparentFields(t.right, t.node, elm);
    assert forall n :: n in Nodes(t.left) ==>
      FieldsAt(t, w, n) == FieldsAt(t.left, t.node, n) && FieldsAt(t', w, n) == FieldsAt(t.left, elm, n);
    assert forall n :: n in Nodes(t.right) ==>
      FieldsAt(t, w, n) == FieldsAt(t.right, t.node, n) && FieldsAt(t', w, n) == FieldsAt(t.right, elm, n);
  }

  lemma ReplaceNodeFields(c: Ctx, t: Tree, elm: Node, k: int)
    requires t.Bin? && Distinct(Plug(c, t)) && elm !in Nodes(Plug(c, t))
    ensures
      var T, T' := Plug(c, t), Plug(c, WithNode(t, elm, k));
      var w, x, l, r := Above(c), t.node, Root(t.left), Root(t.right);
      && x in Nodes(T) && Nodes(T') == Nodes(T) - {x} + {elm} && Distinct(T')
      && FieldsAt(T, null, x) == Fields(l, r, w, t.color, t.key)
      && FieldsAt(T', null, elm) == Fields(l, r, w, t.color, k)
      && Root(T') == (if c.Top? then elm else Root(T))
      && (c.In? ==> w in Nodes(T) && Root(c.sib) != x && w != l && w != r && w != x
                    && FieldsAt(T, null, w) == CtxFieldsAt(c, x, w)
                    && FieldsAt(T', null, w) == CtxFieldsAt(c, elm, w))
      && (l != null ==> l in Nodes(T) && l != x && l != r
                        && FieldsAt(T', null, l) == FieldsAt(T, null, l).(parent := elm))
      && (r != null ==> r in Nodes(T) && r != x
                        && FieldsAt(T', null, r) == FieldsAt(T, null, r).(parent := elm))
      && SameBut(T, T', w, x, l, r)
  {
    PlugNodes(c, t);
    JointFields(c, t);
    ReplaceNodeLocal(t, Above(c), elm, k);
    PlugChange(c, t, WithNode(t, elm, k));
  }
}
