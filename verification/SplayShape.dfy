/**
 The shape of an intrusive splay tree. A top-down splay takes the tree apart into a middle tree and
 two side trees; a side tree is a one-hole context whose open link has not been written yet.
 */
module SplayShape {
  import opened Entries
  import opened Zippers

  /** A structure with an embedded SPLAY_ENTRY; `key` is the field its comparator reads. */
  class Node {
    var left: Node?
    var right: Node?
    var key: int

    constructor (k: int)
      ensures key == k && left == null && right == null
    {
      left, right, key := null, null, k;
    }
  }

  type Tree = NodeTree<Node, ()>
  type Ctx = NodeCtx<Node, ()>

  ghost function Root(t: Tree): Node? { if t.Leaf? then null else t.node }

  datatype Fields = Fields(left: Node?, right: Node?, key: int)

  ghost function Held(n: Node): Fields
    reads n
  {
    Fields(n.left, n.right, n.key)
  }

  /** What node `n` must hold for the structure to be `t`. */
  ghost function FieldsAt(t: Tree, n: Node): Fields {
    match t
    case Leaf => Fields(null, null, 0)
    case Bin(l, m, k, _, r) =>
      if n == m then Fields(Root(l), Root(r), k)
      else if n in Nodes(l) then FieldsAt(l, n)
      else FieldsAt(r, n)
  }

  /** What node `n` must hold for the structure around a hole with root `hole` to be `c`. */
  ghost function CtxFieldsAt(c: Ctx, hole: Node?, n: Node): Fields {
    match c
    case Top => Fields(null, null, 0)
    case In(up, side, m, k, col, sib) =>
      if n == m then if side == L then Fields(hole, Root(sib), k) else Fields(Root(sib), hole, k)
      else if n in Nodes(sib) then FieldsAt(sib, n)
      else CtxFieldsAt(up, m, n)
  }

  lemma {:induction false} RootOfPlug(c: Ctx, t: Tree, t': Tree)
    ensures Root(t) == Root(t') || c.In? ==> Root(Plug(c, t)) == Root(Plug(c, t'))
    ensures c.In? ==> Root(Plug(c, t)) in CtxNodes(c)
    decreases c
  {
    match c
    case Top =>
    case In(up, side, n, k, col, sib) => RootOfPlug(up, Join(side, t, n, k, col, sib), Join(side, t', n, k, col, sib));
  }

  lemma {:induction false} PlugFields(c: Ctx, t: Tree, n: Node)
    requires Separate(c, t)
    ensures n in Nodes(t) ==> FieldsAt(Plug(c, t), n) == FieldsAt(t, n)
    ensures n in CtxNodes(c) ==> FieldsAt(Plug(c, t), n) == CtxFieldsAt(c, Root(t), n)
    decreases c
  {
    match c
    case Top =>
    case In(up, side, m, k, col, sib) => PlugFields(up, Join(side, t, m, k, col, sib), n);
  }

  /** The first node of a side tree, null while it is empty. */
  ghost function First(c: Ctx): Node? { Root(Plug(c, Leaf)) }

  /** A node linked in at the open end. */
  lemma FirstExtended(c: Ctx, side: Side, n: Node, k: int, col: (), sib: Tree)
    ensures First(In(c, side, n, k, col, sib)) == if c.Top? then n else First(c)
  {
    assert Plug(In(c, side, n, k, col, sib), Leaf) == Plug(c, Join(side, Leaf, n, k, col, sib));
    RootOfPlug(c, Leaf, Join(side, Leaf, n, k, col, sib));
  }

  lemma RotatedSame(t: Tree)
    requires Distinct(t)
    ensures t.Bin? && t.left.Bin? ==>
      Distinct(RotatedRight(t)) && Nodes(RotatedRight(t)) == Nodes(t) && Size(RotatedRight(t)) == Size(t)
    ensures t.Bin? && t.right.Bin? ==>
      Distinct(RotatedLeft(t)) && Nodes(RotatedLeft(t)) == Nodes(t) && Size(RotatedLeft(t)) == Size(t)
  {
  }

  lemma RotateRightFields(t: Tree)
    requires t.Bin? && t.left.Bin? && Distinct(t)
    ensures var t', x, y := RotatedRight(t), t.node, t.left.node;
      && x in Nodes(t) && y in Nodes(t) && x != y
      && FieldsAt(t, x) == Fields(y, Root(t.right), t.key)
      && FieldsAt(t, y) == Fields(Root(t.left.left), Root(t.left.right), t.left.key)
      && FieldsAt(t', x) == Fields(Root(t.left.right), Root(t.right), t.key)
      && FieldsAt(t', y) == Fields(Root(t.left.left), x, t.left.key)
      && forall n {:trigger FieldsAt(t', n)} :: n in Nodes(t) && n != x && n != y ==> FieldsAt(t', n) == FieldsAt(t, n)
  {
    assert Distinct(t.left);
  }

  lemma RotateLeftFields(t: Tree)
    requires t.Bin? && t.right.Bin? && Distinct(t)
    ensures var t', x, y := RotatedLeft(t), t.node, t.right.node;
      && x in Nodes(t) && y in Nodes(t) && x != y
      && FieldsAt(t, x) == Fields(Root(t.left), y, t.key)
      && FieldsAt(t, y) == Fields(Root(t.right.left), Root(t.right.right), t.right.key)
      && FieldsAt(t', x) == Fields(Root(t.left), Root(t.right.left), t.key)
      && FieldsAt(t', y) == Fields(x, Root(t.right.right), t.right.key)
      && forall n {:trigger FieldsAt(t', n)} :: n in Nodes(t) && n != x && n != y ==> FieldsAt(t', n) == FieldsAt(t, n)
  {
    assert Distinct(t.right);
  }

  /** The middle root with both side trees closed off below it. */
  ghost function Assembled(l: Ctx, t: Tree, r: Ctx): Tree
    requires t.Bin?
  {
    Bin(Plug(l, t.left), t.node, t.key, t.color, Plug(r, t.right))
  }

  lemma AssembledFields(l: Ctx, t: Tree, r: Ctx, x: Node?, y: Node?)
    requires t.Bin? && DistinctCtx(l) && Distinct(t) && DistinctCtx(r)
    requires CtxNodes(l) !! Nodes(t) && CtxNodes(l) !! CtxNodes(r) && Nodes(t) !! CtxNodes(r)
    requires Spine(l, R) && Spine(r, L)
    ensures var T := Assembled(l, t, r);
      && Nodes(T) == CtxNodes(l) + Nodes(t) + CtxNodes(r) && Distinct(T)
      && t.node in Nodes(t)
      && FieldsAt(t, t.node) == Fields(Root(t.left), Root(t.right), t.key)
      && FieldsAt(T, t.node) == Fields(if l.Top? then Root(t.left) else First(l),
                                       if r.Top? then Root(t.right) else First(r), t.key)
      && (forall n {:trigger FieldsAt(T, n)} :: n in CtxNodes(l) ==>
            FieldsAt(T, n) == if n == l.node then CtxFieldsAt(l, x, n).(right := Root(t.left))
                              else CtxFieldsAt(l, x, n))
      && (forall n {:trigger FieldsAt(T, n)} :: n in CtxNodes(r) ==>
            FieldsAt(T, n) == if n == r.node then CtxFieldsAt(r, y, n).(left := Root(t.right))
                              else CtxFieldsAt(r, y, n))
      && (forall n {:trigger FieldsAt(T, n)} :: n in Nodes(t) && n != t.node ==> FieldsAt(T, n) == FieldsAt(t, n))
      && (l.In? ==> l.node in CtxNodes(l)) && (r.In? ==> r.node in CtxNodes(r))
  {
    PlugNodes(l, t.left);
    PlugNodes(r, t.right);
    RootOfPlug(l, Leaf, t.left);
    RootOfPlug(r, Leaf, t.right);
    forall n | n in CtxNodes(l) + Nodes(t.left)
      ensures n in Nodes(t.left) ==> FieldsAt(Plug(l, t.left), n) == FieldsAt(t.left, n)
      ensures n in CtxNodes(l) ==> FieldsAt(Plug(l, t.left), n) == CtxFieldsAt(l, Root(t.left), n)
    {
      PlugFields(l, t.left, n);
    }
    forall n | n in CtxNodes(r) + Nodes(t.right)
      ensures n in Nodes(t.right) ==> FieldsAt(Plug(r, t.right), n) == FieldsAt(t.right, n)
      ensures n in CtxNodes(r) ==> FieldsAt(Plug(r, t.right), n) == CtxFieldsAt(r, Root(t.right), n)
    {
      PlugFields(r, t.right, n);
    }
  }

  lemma AssembledInorder(l: Ctx, t: Tree, r: Ctx)
    requires t.Bin? && Spine(l, R) && Spine(r, L)
    ensures Inorder(Assembled(l, t, r)) == Before(l) + Inorder(t) + After(r)
    ensures Inorder(Assembled(l, t, r).left) == Before(l) + Inorder(t.left)
    ensures Inorder(Assembled(l, t, r).right) == Inorder(t.right) + After(r)
  {
    PlugInorder(l, t.left);
    PlugInorder(r, t.right);
    SpineOpen(l);
    SpineOpen(r);
    assert Before(l) + Inorder(t.left) + [] == Before(l) + Inorder(t.left);
    assert [] + Inorder(t.right) + After(r) == Inorder(t.right) + After(r);
    RegroupAround(Before(l), Inorder(t.left), [Entry(t.node, t.key)], Inorder(t.right), After(r));
  }

  /** The two side trees, the middle tree and the dummy node share no node objects. */
  ghost predicate Apart(dummy: Node, l: Ctx, t: Tree, r: Ctx) {
    var apart :=
      && Spine(l, R) && Spine(r, L) && t.Bin?
      && DistinctCtx(l) && Distinct(t) && DistinctCtx(r)
      && CtxNodes(l) !! Nodes(t) && CtxNodes(l) !! CtxNodes(r) && Nodes(t) !! CtxNodes(r)
      && dummy !in CtxNodes(l) && dummy !in Nodes(t) && dummy !in CtxNodes(r);
    apart
  }

  lemma ApartRotated(dummy: Node, l: Ctx, t: Tree, r: Ctx)
    requires Apart(dummy, l, t, r)
    ensures t.left.Bin? ==> Apart(dummy, l, RotatedRight(t), r) && Nodes(RotatedRight(t)) == Nodes(t)
    ensures t.right.Bin? ==> Apart(dummy, l, RotatedLeft(t), r) && Nodes(RotatedLeft(t)) == Nodes(t)
    ensures t.left.Bin? ==> Size(RotatedRight(t)) == Size(t)
    ensures t.right.Bin? ==> Size(RotatedLeft(t)) == Size(t)
  {
    RotatedSame(t);
  }

  lemma ApartLinked(dummy: Node, l: Ctx, t: Tree, r: Ctx)
    requires Apart(dummy, l, t, r)
    ensures t.left.Bin? ==> Apart(dummy, l, t.left, In(r, L, t.node, t.key, t.color, t.right))
    ensures t.right.Bin? ==> Apart(dummy, In(l, R, t.node, t.key, t.color, t.left), t.right, r)
    ensures Nodes(t.left) + CtxNodes(In(r, L, t.node, t.key, t.color, t.right)) == Nodes(t) + CtxNodes(r)
    ensures CtxNodes(In(l, R, t.node, t.key, t.color, t.left)) + Nodes(t.right) == CtxNodes(l) + Nodes(t)
  {
  }

  /** The splay can stop here: the key is found, or the tree has nothing on the side the key is on. */
  ghost predicate Ends(t: Tree, key: int) {
    t.Bin? && (t.key == key || (key < t.key && t.left == Leaf) || (key > t.key && t.right == Leaf))
  }

  /** The root holds the key, or is the entry just before or just after it. */
  ghost predicate Nearest(t: Tree, key: int) {
    && t.Bin?
    && (t.key < key ==> AllAbove(Inorder(t.right), key))
    && (t.key > key ==> AllBelow(Inorder(t.left), key))
  }

  /** What a splay for `key` under way keeps: the entries `s` in order, the side trees on the right sides. */
  ghost predicate Parted(l: Ctx, t: Tree, r: Ctx, key: int, s: seq<Entry<Node>>) {
    && s == Before(l) + Inorder(t) + After(r)
    && AllBelow(Before(l), key) && AllAbove(After(r), key)
  }

  lemma PartedRotate(l: Ctx, t: Tree, r: Ctx, key: int, s: seq<Entry<Node>>)
    requires Parted(l, t, r, key, s)
    ensures t.Bin? && t.left.Bin? ==> Parted(l, RotatedRight(t), r, key, s)
    ensures t.Bin? && t.right.Bin? ==> Parted(l, RotatedLeft(t), r, key, s)
  {
    RotatedInorder(t);
  }

  lemma PartedLink(l: Ctx, t: Tree, r: Ctx, key: int, s: seq<Entry<Node>>)
    requires Parted(l, t, r, key, s) && Sorted(s) && t.Bin?
    ensures key < t.key ==> Parted(l, t.left, In(r, L, t.node, t.key, t.color, t.right), key, s)
    ensures key > t.key ==> Parted(In(l, R, t.node, t.key, t.color, t.left), t.right, r, key, s)
  {
    var e := [Entry(t.node, t.key)];
    RegroupAround(Before(l), Inorder(t.left), e, Inorder(t.right), After(r));
    SortedAround(Before(l) + Inorder(t.left), e[0], Inorder(t.right) + After(r));
    RegroupEnds(Before(l), Inorder(t.left), e, Inorder(t.right), After(r));
  }

  lemma PartedNearest(l: Ctx, t: Tree, r: Ctx, key: int, s: seq<Entry<Node>>)
    requires Parted(l, t, r, key, s) && Ends(t, key) && Spine(l, R) && Spine(r, L)
    ensures Nearest(Assembled(l, t, r), key) && Inorder(Assembled(l, t, r)) == s
  {
    AssembledInorder(l, t, r);
    assert t.left == Leaf ==> Before(l) + Inorder(t.left) == Before(l);
    assert t.right == Leaf ==> Inorder(t.right) + After(r) == After(r);
  }

  /** A key outside the range of the entries, on the side MINMAX moves to. */
  ghost function OuterKey(comp: int, s: seq<Entry<Node>>): (k: int)
    requires Sorted(s)
    ensures comp < 0 ==> AllAbove(s, k)
    ensures comp > 0 ==> AllBelow(s, k)
  {
    if s == [] then 0 else if comp < 0 then s[0].key - 1 else s[|s| - 1].key + 1
  }

  lemma MiddleEntry(l: Ctx, t: Tree, r: Ctx, key: int, s: seq<Entry<Node>>)
    requires Parted(l, t, r, key, s) && t.Bin?
    ensures Entry(t.node, t.key) in s
  {
    var e := Entry(t.node, t.key);
    assert (Inorder(t.left) + [e])[|Inorder(t.left)|] == e;
    assert e in Inorder(t);
  }

  lemma OuterSide(l: Ctx, t: Tree, r: Ctx, key: int, s: seq<Entry<Node>>)
    requires Parted(l, t, r, key, s) && t.Bin?
    ensures AllAbove(s, key) ==> key < t.key
    ensures AllBelow(s, key) ==> key > t.key
  {
    MiddleEntry(l, t, r, key, s);
  }

  lemma {:induction false} EntryMember(t: Tree, e: Entry<Node>)
    requires Distinct(t) && e in Inorder(t)
    ensures e.node in Nodes(t) && FieldsAt(t, e.node).key == e.key
  {
    if e in Inorder(t.left) {
      EntryMember(t.left, e);
    } else if e in Inorder(t.right) {
      EntryMember(t.right, e);
    }
  }

  lemma {:induction false} MemberEntry(t: Tree, n: Node) returns (e: Entry<Node>)
    requires Distinct(t) && n in Nodes(t)
    ensures e in Inorder(t) && e == Entry(n, FieldsAt(t, n).key)
  {
    if n in Nodes(t.left) {
      e := MemberEntry(t.left, n);
    } else if n in Nodes(t.right) {
      e := MemberEntry(t.right, n);
    } else {
      e := Entry(n, t.key);
      assert (Inorder(t.left) + [e])[|Inorder(t.left)|] == e;
    }
  }

  /** After a splay the root alone decides whether the key is entered. */
  lemma NearestDecides(t: Tree, key: int)
    requires Sorted(Inorder(t)) && Nearest(t, key)
    ensures t.key == key <==> HasKey(Inorder(t), key)
  {
    var e := Entry(t.node, t.key);
    SortedAround(Inorder(t.left), e, Inorder(t.right));
    assert (Inorder(t.left) + [e])[|Inorder(t.left)|] == e;
    assert e in Inorder(t);
  }

  /** The node at position `i` of the in-order sequence, or null past either end. */
  ghost function NodeAt(s: seq<Entry<Node>>, i: int): Node? {
    if 0 <= i < |s| then s[i].node else null
  }

  lemma NearestAt(t: Tree, i: nat)
    requires Sorted(Inorder(t)) && i < |Inorder(t)| && Nearest(t, Inorder(t)[i].key)
    ensures i == |Inorder(t.left)| && t.node == Inorder(t)[i].node
    ensures NodeAt(Inorder(t), i + 1) == NodeAt(Inorder(t.right), 0)
  {
    var s, k := Inorder(t), |Inorder(t.left)|;
    assert HasKey(s, s[i].key);
    NearestDecides(t, s[i].key);
    assert s[k] == Entry(t.node, t.key);
  }

  /** The tree once `n` has become the root above the splayed tree. */
  ghost function Entered(t: Tree, n: Node, k: int): Tree
    requires t.Bin?
  {
    if k < t.key then Bin(t.left, n, k, (), Bin(Leaf, t.node, t.key, t.color, t.right))
    else Bin(Bin(t.left, t.node, t.key, t.color, Leaf), n, k, (), t.right)
  }

  lemma EnteredFields(t: Tree, n: Node, k: int)
    requires t.Bin? && Distinct(t) && n !in Nodes(t)
    ensures var T := Entered(t, n, k);
      && Nodes(T) == Nodes(t) + {n} && Distinct(T)
      && FieldsAt(T, n) == (if k < t.key then Fields(Root(t.left), t.node, k) else Fields(t.node, Root(t.right), k))
      && FieldsAt(T, t.node) ==
         (if k < t.key then Fields(null, Root(t.right), t.key) else Fields(Root(t.left), null, t.key))
      && forall m {:trigger FieldsAt(T, m)} :: m in Nodes(t) && m != t.node ==> FieldsAt(T, m) == FieldsAt(t, m)
  {
  }

  lemma EnteredSorted(t: Tree, n: Node, k: int)
    requires Sorted(Inorder(t)) && Nearest(t, k) && t.key != k
    ensures Inorder(Entered(t, n, k)) == Inserted(Inorder(t), Entry(n, k)) && Sorted(Inorder(Entered(t, n, k)))
  {
    var a, e, b := Inorder(t.left), Entry(t.node, t.key), Inorder(t.right);
    if k < t.key {
      assert Inorder(Bin(Leaf, t.node, t.key, t.color, t.right)) == [e] + b;
      EnteredBefore(a, Entry(n, k), e, b);
    } else {
      assert Inorder(Bin(t.left, t.node, t.key, t.color, Leaf)) == a + [e];
      EnteredAfter(a, e, Entry(n, k), b);
    }
  }

  lemma EnteredBefore(a: seq<Entry<Node>>, x: Entry<Node>, e: Entry<Node>, b: seq<Entry<Node>>)
    requires Sorted(a + [e] + b) && AllBelow(a, x.key) && x.key < e.key
    ensures Inserted(a + [e] + b, x) == a + [x] + ([e] + b) && Sorted(a + [x] + ([e] + b))
  {
    SortedAround(a, e, b);
    var rest := [e] + b;
    assert a + rest == a + [e] + b;
    SortedJoin(a, rest);
    InsertedBetween(a, x, rest);
    SortedAround(a, x, rest);
  }

  lemma EnteredAfter(a: seq<Entry<Node>>, e: Entry<Node>, x: Entry<Node>, b: seq<Entry<Node>>)
    requires Sorted(a + [e] + b) && AllAbove(b, x.key) && x.key > e.key
    ensures Inserted(a + [e] + b, x) == (a + [e]) + [x] + b && Sorted((a + [e]) + [x] + b)
  {
    SortedAround(a, e, b);
    var rest := a + [e];
    SortedJoin(rest, b);
    InsertedBetween(rest, x, b);
    SortedAround(rest, x, b);
  }

  /** A root whose larger entries are all above a key that exceeds everything has nothing on its right. */
  lemma NearestLast(t: Tree, key: int)
    requires Nearest(t, key) && AllBelow(Inorder(t), key)
    ensures t.right == Leaf && Inorder(t) == Inorder(t.left) + [Entry(t.node, t.key)]
  {
    var e := Entry(t.node, t.key);
    assert (Inorder(t.left) + [e])[|Inorder(t.left)|] == e;
    assert e in Inorder(t);
    if t.right.Bin? {
      var x := Entry(t.right.node, t.right.key);
      assert (Inorder(t.right.left) + [x])[|Inorder(t.right.left)|] == x;
      assert x in Inorder(t.right);
    }
  }

  /** Taking the root out leaves the entries of both subtrees. */
  lemma WithoutRoot(t: Tree)
    requires t.Bin? && Distinct(t) && Sorted(Inorder(t))
    ensures Without(Inorder(t), t.node) == Inorder(t.left) + Inorder(t.right)
    ensures Sorted(Inorder(t.left) + Inorder(t.right))
    ensures Sorted(Inorder(t.left)) && AllBelow(Inorder(t.left), t.key)
    ensures Nodes(t.left) + Nodes(t.right) == Nodes(t) - {t.node}
  {
    var a, e, b := Inorder(t.left), Entry(t.node, t.key), Inorder(t.right);
    forall x | x in a
      ensures x.node != t.node
    {
      EntryMember(t.left, x);
    }
    forall x | x in b
      ensures x.node != t.node
    {
      EntryMember(t.right, x);
    }
    WithoutMiddle(a, e, b);
    SortedAround(a, e, b);
    SortedConcat(a, e, b);
  }

  lemma WithoutFirst(t: Tree)
    requires t.Bin? && t.left == Leaf && Distinct(t) && Sorted(Inorder(t))
    ensures Without(Inorder(t), t.node) == Inorder(t.right) && Sorted(Inorder(t.right))
    ensures Nodes(t.right) == Nodes(t) - {t.node}
  {
    WithoutRoot(t);
    assert [] + Inorder(t.right) == Inorder(t.right);
  }
}
