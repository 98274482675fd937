/**
 What a splay does to the depth of the nodes: every node of the search path ends within half its depth, and two, and
 no node at all sinks by more than two. The rotations are for the first; the links alone would keep a long path long.
 */
module SplayDepth {
  import opened SplayShape
  import opened Zippers

  /** The node is in the tree, at most `d` links below the root. */
  ghost predicate Within(t: Tree, n: Node, d: int) {
    && t.Bin? && d >= 0
    && (t.node == n || Within(t.left, n, d - 1) || Within(t.right, n, d - 1))
  }

  /** The same for the tree around a hole, whatever is put there. */
  ghost predicate CtxWithin(c: Ctx, n: Node, d: int) {
    && c.In?
    && (CtxWithin(c.up, n, d) || (c.node == n && Depth(c.up) <= d) || Within(c.sib, n, d - Depth(c)))
  }

  lemma {:induction false} WithinMore(t: Tree, n: Node, d: int, e: int)
    requires Within(t, n, d) && d <= e
    ensures Within(t, n, e)
  {
    if Within(t.left, n, d - 1) {
      WithinMore(t.left, n, d - 1, e - 1);
    } else if Within(t.right, n, d - 1) {
      WithinMore(t.right, n, d - 1, e - 1);
    }
  }

  lemma {:induction false} CtxWithinMore(c: Ctx, n: Node, d: int, e: int)
    requires CtxWithin(c, n, d) && d <= e
    ensures CtxWithin(c, n, e)
  {
    if CtxWithin(c.up, n, d) {
      CtxWithinMore(c.up, n, d, e);
    } else if Within(c.sib, n, d - Depth(c)) {
      WithinMore(c.sib, n, d - Depth(c), e - Depth(c));
    }
  }

  /** What is put into the hole lies below all of the path to it. */
  lemma {:induction false} PlugWithin(c: Ctx, t: Tree, n: Node, d: int)
    ensures CtxWithin(c, n, d) ==> Within(Plug(c, t), n, d)
    ensures Within(t, n, d - Depth(c)) ==> Within(Plug(c, t), n, d)
    decreases c
  {
    if c.In? {
      PlugWithin(c.up, Join(c.side, t, c.node, c.key, c.color, c.sib), n, d);
    }
  }

  /** One round for a key below the middle root: its left child is raised first if the key is below that too. */
  ghost predicate LeftRound(t: Tree, r: Ctx, key: int, stop: bool, t': Tree, r': Ctx) {
    var ok :=
      && t.Bin?
      && if t.left.Leaf? then stop && t' == t && r' == r
         else
           var u := if key < t.left.key then RotatedRight(t) else t;
           if u.left.Leaf? then stop && t' == u && r' == r
           else !stop && t' == u.left && r' == In(r, L, u.node, u.key, u.color, u.right);
    ok
  }

  ghost predicate RightRound(l: Ctx, t: Tree, key: int, stop: bool, l': Ctx, t': Tree) {
    var ok :=
      && t.Bin?
      && if t.right.Leaf? then stop && l' == l && t' == t
         else
           var u := if key > t.right.key then RotatedLeft(t) else t;
           if u.right.Leaf? then stop && l' == l && t' == u
           else !stop && t' == u.right && l' == In(l, R, u.node, u.key, u.color, u.left);
    ok
  }

  /** The node is in one of the side trees. */
  ghost predicate Hung(l: Ctx, r: Ctx, n: Node, d: int) { CtxWithin(l, n, d) || CtxWithin(r, n, d) }

  /**
   A splay under way: it has passed the first `w` nodes of the path, each of which has half its depth in a side tree,
   and neither side tree is deeper than half of `w`. The side that the next node goes to has room for it.
   */
  ghost predicate Halving(l: Ctx, t: Tree, r: Ctx, key: int, path: seq<Node>, w: nat) {
    var ok :=
      && t.Bin? && w <= |path| && path[w..] == SearchPath(t, key)
      && 2 * Depth(l) <= w + (if key > t.key then 0 else 1)
      && 2 * Depth(r) <= w + (if key < t.key then 0 else 1)
      && forall i :: 0 <= i < w ==> Hung(l, r, path[i], i / 2 + 1);
    ok
  }

  /** The loop is over: every node of the path is high up in one of the three trees. */
  ghost predicate Placed(l: Ctx, t: Tree, r: Ctx, n: Node, d: int) {
    && t.Bin?
    && (Hung(l, r, n, d) || t.node == n
        || Within(t.left, n, d - Depth(l)) || Within(t.right, n, d - Depth(r)))
  }

  ghost predicate Halved(l: Ctx, t: Tree, r: Ctx, path: seq<Node>) {
    var ok := forall i :: 0 <= i < |path| ==> Placed(l, t, r, path[i], i / 2 + 1);
    ok
  }

  /** A node that was within `d` is on the way to a place within `d`, and one, of a side tree, or is there. */
  ghost predicate Floats(l: Ctx, t: Tree, r: Ctx, n: Node, d: int, w: nat) {
    Hung(l, r, n, d + 1) || Within(t, n, d - w)
  }

  ghost predicate Floating(t0: Tree, l: Ctx, t: Tree, r: Ctx, w: nat) {
    var ok := forall n, d :: n in Nodes(t0) && Within(t0, n, d) ==> Floats(l, t, r, n, d, w);
    ok
  }

  ghost predicate Landed(t0: Tree, l: Ctx, t: Tree, r: Ctx) {
    var ok := forall n, d :: n in Nodes(t0) && Within(t0, n, d) ==> Placed(l, t, r, n, d + 1);
    ok
  }

  /**
   Every node that a search for the key would have met is within half its depth and two, and no node is more than
   two deeper than it was.
   */
  ghost predicate Shortened(t: Tree, key: int, t': Tree) {
    var path := SearchPath(t, key);
    && (forall i :: 0 <= i < |path| ==> Within(t', path[i], i / 2 + 2))
    && (forall n, d :: n in Nodes(t) && Within(t, n, d) ==> Within(t', n, d + 2))
  }

  lemma ShorteningStarts(t: Tree, key: int)
    requires t.Bin?
    ensures Shortening(t, key, Top, t, Top, false)
  {
    assert Halving(Top, t, Top, key, SearchPath(t, key), 0) && Floating(t, Top, t, Top, 0);
  }

  /** How many nodes of the path a round passes. */
  ghost function Passes(t: Tree, key: int): (k: nat)
    requires t.Bin?
    ensures 1 <= k <= 2
  {
    if (key < t.key && t.left.Bin? && key < t.left.key) || (key > t.key && t.right.Bin? && key > t.right.key) then 2
    else 1
  }

  /** What a round on the left does to one node. */
  lemma LeftFloats(l: Ctx, t: Tree, r: Ctx, key: int, w: nat, n: Node, d: int, stop: bool, t': Tree, r': Ctx)
    requires t.Bin? && key < t.key && LeftRound(t, r, key, stop, t', r') && 2 * Depth(r) <= w
    requires Floats(l, t, r, n, d, w)
    ensures if stop then Placed(l, t', r', n, d + 1) else Floats(l, t', r', n, d, w + Passes(t, key))
  {
    var e, b := d - w, d - Depth(r);
    if Within(t.right, n, e - 1) {
      WithinMore(t.right, n, e - 1, b - 1);
      WithinMore(t.right, n, e - 1, b);
      WithinMore(t.right, n, e - 1, b + 1);
    } else if Within(t.left, n, e - 1) {
      assert t.left.left.Leaf? ==> !Within(t.left.left, n, e - 2);
      if t.left.node != n && Within(t.left.right, n, e - 2) {
        WithinMore(t.left.right, n, e - 2, b - 1);
        WithinMore(t.left.right, n, e - 2, b);
      }
    }
  }

  lemma RightFloats(l: Ctx, t: Tree, r: Ctx, key: int, w: nat, n: Node, d: int, stop: bool, l': Ctx, t': Tree)
    requires t.Bin? && key > t.key && RightRound(l, t, key, stop, l', t') && 2 * Depth(l) <= w
    requires Floats(l, t, r, n, d, w)
    ensures if stop then Placed(l', t', r, n, d + 1) else Floats(l', t', r, n, d, w + Passes(t, key))
  {
    var e, b := d - w, d - Depth(l);
    if Within(t.left, n, e - 1) {
      WithinMore(t.left, n, e - 1, b - 1);
      WithinMore(t.left, n, e - 1, b);
      WithinMore(t.left, n, e - 1, b + 1);
    } else if Within(t.right, n, e - 1) {
      assert t.right.right.Leaf? ==> !Within(t.right.right, n, e - 2);
      if t.right.node != n && Within(t.right.left, n, e - 2) {
        WithinMore(t.right.left, n, e - 2, b - 1);
        WithinMore(t.right.left, n, e - 2, b);
      }
    }
  }

  /** The root of the middle tree is the last node of the path. */
  lemma PathEnds(l: Ctx, t: Tree, r: Ctx, key: int, path: seq<Node>, w: nat)
    requires Halving(l, t, r, key, path, w) && Ends(t, key)
    ensures Halved(l, t, r, path)
  {
    assert t.key != key ==> SearchPath(if key < t.key then t.left else t.right, key) == [];
    assert path[w..] == [t.node];
    forall i | 0 <= i < |path|
      ensures Placed(l, t, r, path[i], i / 2 + 1)
    {
      if i < w { assert Hung(l, r, path[i], i / 2 + 1); } else { assert path[w..][0] == path[i]; }
    }
  }

  lemma PathOn(t: Tree, key: int, path: seq<Node>, w: nat)
    requires w <= |path| && path[w..] == SearchPath(t, key) && t.Bin? && key != t.key
    ensures w < |path| && path[w] == t.node
    ensures path[w + 1..] == SearchPath(if key < t.key then t.left else t.right, key)
  {
    assert path[w..][1..] == path[w + 1..];
  }

  /** A link alone passes one node, and the next one is on the other side of the key. */
  lemma LeftLinked(l: Ctx, t: Tree, r: Ctx, key: int, path: seq<Node>, w: nat)
    requires Halving(l, t, r, key, path, w) && key < t.key && t.left.Bin? && !(key < t.left.key)
    ensures Halving(l, t.left, In(r, L, t.node, t.key, t.color, t.right), key, path, w + 1)
  {
    PathOn(t, key, path, w);
  }

  lemma LeftPath(t: Tree, key: int, path: seq<Node>, w: nat)
    requires w <= |path| && path[w..] == SearchPath(t, key)
    requires t.Bin? && key < t.key && t.left.Bin? && key < t.left.key
    ensures w + 1 < |path| && path[w] == t.node && path[w + 1] == t.left.node
    ensures path[w + 2..] == SearchPath(t.left.left, key)
  {
    PathOn(t, key, path, w);
    PathOn(t.left, key, path, w + 1);
  }

  lemma LeftRaised(l: Ctx, t: Tree, r: Ctx, key: int, path: seq<Node>, w: nat)
    requires Halving(l, t, r, key, path, w) && key < t.key && t.left.Bin? && key < t.left.key
    ensures var u := RotatedRight(t);
      u.left.Bin? ==> Halving(l, u.left, In(r, L, u.node, u.key, u.color, u.right), key, path, w + 2)
  {
    LeftPath(t, key, path, w);
    var u := RotatedRight(t);
    var c := In(r, L, u.node, u.key, u.color, u.right);
    forall i | 0 <= i < w + 2
      ensures Hung(l, c, path[i], i / 2 + 1)
    {
      if i < w { assert Hung(l, r, path[i], i / 2 + 1); }
    }
  }

  /** A round that rotates and finds nothing further down has met the whole path. */
  lemma LeftStops(l: Ctx, t: Tree, r: Ctx, key: int, path: seq<Node>, w: nat)
    requires Halving(l, t, r, key, path, w) && key < t.key && t.left.Bin? && key < t.left.key && t.left.left.Leaf?
    ensures Halved(l, RotatedRight(t), r, path)
  {
    LeftPath(t, key, path, w);
    forall i | 0 <= i < |path|
      ensures Placed(l, RotatedRight(t), r, path[i], i / 2 + 1)
    {
      if i < w { assert Hung(l, r, path[i], i / 2 + 1); }
    }
  }

  /** A round on the left passes one node of the path, or two if it rotates. */
  lemma LeftHalves(l: Ctx, t: Tree, r: Ctx, key: int, path: seq<Node>, w: nat, stop: bool, t': Tree, r': Ctx)
    requires Halving(l, t, r, key, path, w) && key < t.key && LeftRound(t, r, key, stop, t', r')
    ensures if stop then Halved(l, t', r', path) else Halving(l, t', r', key, path, w + Passes(t, key))
  {
    if t.left.Leaf? {
      PathEnds(l, t, r, key, path, w);
    } else if !(key < t.left.key) {
      assert Passes(t, key) == 1;
      LeftLinked(l, t, r, key, path, w);
    } else if t.left.left.Bin? {
      assert Passes(t, key) == 2;
      LeftRaised(l, t, r, key, path, w);
    } else {
      LeftStops(l, t, r, key, path, w);
    }
  }

  /** A link alone passes one node, and the next one is on the other side of the key. */
  lemma RightLinked(l: Ctx, t: Tree, r: Ctx, key: int, path: seq<Node>, w: nat)
    requires Halving(l, t, r, key, path, w) && key > t.key && t.right.Bin? && !(key > t.right.key)
    ensures Halving(In(l, R, t.node, t.key, t.color, t.left), t.right, r, key, path, w + 1)
  {
    PathOn(t, key, path, w);
  }

  lemma RightPath(t: Tree, key: int, path: seq<Node>, w: nat)
    requires w <= |path| && path[w..] == SearchPath(t, key)
    requires t.Bin? && key > t.key && t.right.Bin? && key > t.right.key
    ensures w + 1 < |path| && path[w] == t.node && path[w + 1] == t.right.node
    ensures path[w + 2..] == SearchPath(t.right.right, key)
  {
    PathOn(t, key, path, w);
    PathOn(t.right, key, path, w + 1);
  }

  lemma RightRaised(l: Ctx, t: Tree, r: Ctx, key: int, path: seq<Node>, w: nat)
    requires Halving(l, t, r, key, path, w) && key > t.key && t.right.Bin? && key > t.right.key
    ensures var u := RotatedLeft(t);
      u.right.Bin? ==> Halving(In(l, R, u.node, u.key, u.color, u.left), u.right, r, key, path, w + 2)
  {
    RightPath(t, key, path, w);
    var u := RotatedLeft(t);
    var c := In(l, R, u.node, u.key, u.color, u.left);
    forall i | 0 <= i < w + 2
      ensures Hung(c, r, path[i], i / 2 + 1)
    {
      if i < w { assert Hung(l, r, path[i], i / 2 + 1); }
    }
  }

  /** A round that rotates and finds nothing further down has met the whole path. */
  lemma RightStops(l: Ctx, t: Tree, r: Ctx, key: int, path: seq<Node>, w: nat)
    requires Halving(l, t, r, key, path, w) && key > t.key && t.right.Bin? && key > t.right.key && t.right.right.Leaf?
    ensures Halved(l, RotatedLeft(t), r, path)
  {
    RightPath(t, key, path, w);
    forall i | 0 <= i < |path|
      ensures Placed(l, RotatedLeft(t), r, path[i], i / 2 + 1)
    {
      if i < w { assert Hung(l, r, path[i], i / 2 + 1); }
    }
  }

  lemma RightHalves(l: Ctx, t: Tree, r: Ctx, key: int, path: seq<Node>, w: nat, stop: bool, l': Ctx, t': Tree)
    requires Halving(l, t, r, key, path, w) && key > t.key && RightRound(l, t, key, stop, l', t')
    ensures if stop then Halved(l', t', r, path) else Halving(l', t', r, key, path, w + Passes(t, key))
  {
    if t.right.Leaf? {
      PathEnds(l, t, r, key, path, w);
    } else if !(key > t.right.key) {
      assert Passes(t, key) == 1;
      RightLinked(l, t, r, key, path, w);
    } else if t.right.right.Bin? {
      assert Passes(t, key) == 2;
      RightRaised(l, t, r, key, path, w);
    } else {
      RightStops(l, t, r, key, path, w);
    }
  }

  /** One round of the splay loop. */
  ghost predicate Round(l: Ctx, t: Tree, r: Ctx, key: int, stop: bool, l': Ctx, t': Tree, r': Ctx) {
    var ok :=
      && t.Bin?
      && if key < t.key then l' == l && LeftRound(t, r, key, stop, t', r')
         else r' == r && RightRound(l, t, key, stop, l', t');
    ok
  }

  /** A round keeps the node objects, and makes the middle tree smaller if it is not the last. */
  lemma RoundKeeps(l: Ctx, t: Tree, r: Ctx, key: int, stop: bool, l': Ctx, t': Tree, r': Ctx)
    requires Round(l, t, r, key, stop, l', t', r') && key != t.key
    ensures CtxNodes(l') + Nodes(t') + CtxNodes(r') == CtxNodes(l) + Nodes(t) + CtxNodes(r)
    ensures if stop then Ends(t', key) else Size(t') < Size(t)
  {
  }

  /** The splay of `t0` under way, or over. */
  ghost predicate Shortening(t0: Tree, key: int, l: Ctx, t: Tree, r: Ctx, stop: bool) {
    var path := SearchPath(t0, key);
    var ok :=
      if stop then Halved(l, t, r, path) && Landed(t0, l, t, r)
      else exists w: nat :: Halving(l, t, r, key, path, w) && Floating(t0, l, t, r, w);
    ok
  }

  lemma RoundFloats(t0: Tree, l: Ctx, t: Tree, r: Ctx, key: int, w: nat, stop: bool, l': Ctx, t': Tree, r': Ctx)
    requires Floating(t0, l, t, r, w) && Round(l, t, r, key, stop, l', t', r') && key != t.key
    requires (key > t.key ==> 2 * Depth(l) <= w) && (key < t.key ==> 2 * Depth(r) <= w)
    ensures if stop then Landed(t0, l', t', r') else Floating(t0, l', t', r', w + Passes(t, key))
  {
    forall n, d | n in Nodes(t0) && Within(t0, n, d)
      ensures if stop then Placed(l', t', r', n, d + 1) else Floats(l', t', r', n, d, w + Passes(t, key))
    {
      if key < t.key {
        LeftFloats(l, t, r, key, w, n, d, stop, t', r');
      } else {
        RightFloats(l, t, r, key, w, n, d, stop, l', t');
      }
    }
  }

  /** One round, from `w` nodes of the path passed. */
  lemma RoundShortens(t0: Tree, key: int, w: nat, l: Ctx, t: Tree, r: Ctx, stop: bool, l': Ctx, t': Tree, r': Ctx)
    requires Halving(l, t, r, key, SearchPath(t0, key), w) && Floating(t0, l, t, r, w)
    requires Round(l, t, r, key, stop, l', t', r') && key != t.key
    ensures if stop then Halved(l', t', r', SearchPath(t0, key)) && Landed(t0, l', t', r')
            else Halving(l', t', r', key, SearchPath(t0, key), w + Passes(t, key))
                 && Floating(t0, l', t', r', w + Passes(t, key))
  {
    RoundFloats(t0, l, t, r, key, w, stop, l', t', r');
    RoundHalves(l, t, r, key, SearchPath(t0, key), w, stop, l', t', r');
  }

  lemma RoundHalves(l: Ctx, t: Tree, r: Ctx, key: int, path: seq<Node>, w: nat, stop: bool, l': Ctx, t': Tree, r': Ctx)
    requires Halving(l, t, r, key, path, w) && Round(l, t, r, key, stop, l', t', r') && key != t.key
    ensures if stop then Halved(l', t', r', path) else Halving(l', t', r', key, path, w + Passes(t, key))
  {
    if key < t.key {
      LeftHalves(l, t, r, key, path, w, stop, t', r');
    } else {
      RightHalves(l, t, r, key, path, w, stop, l', t');
    }
  }

  lemma ShorteningOn(t0: Tree, key: int, l: Ctx, t: Tree, r: Ctx, stop: bool, l': Ctx, t': Tree, r': Ctx)
    requires Shortening(t0, key, l, t, r, false) && key != t.key && Round(l, t, r, key, stop, l', t', r')
    ensures Shortening(t0, key, l', t', r', stop)
  {
    var w: nat :| Halving(l, t, r, key, SearchPath(t0, key), w) && Floating(t0, l, t, r, w);
    RoundShortens(t0, key, w, l, t, r, stop, l', t', r');
  }

  /** A splay that has found the key can stop: half of `w` and more is what is left of every depth. */
  lemma FoundLands(t0: Tree, l: Ctx, t: Tree, r: Ctx, w: nat)
    requires Floating(t0, l, t, r, w) && t.Bin? && 2 * Depth(l) <= w + 1 && 2 * Depth(r) <= w + 1
    ensures Landed(t0, l, t, r)
  {
    forall n, d | n in Nodes(t0) && Within(t0, n, d)
      ensures Placed(l, t, r, n, d + 1)
    {
      assert Floats(l, t, r, n, d, w);
      if Within(t.left, n, d - w - 1) { WithinMore(t.left, n, d - w - 1, d + 1 - Depth(l)); }
      if Within(t.right, n, d - w - 1) { WithinMore(t.right, n, d - w - 1, d + 1 - Depth(r)); }
    }
  }

  lemma AssembledWithin(l: Ctx, t: Tree, r: Ctx, n: Node, d: int)
    requires Placed(l, t, r, n, d) && d >= 0
    ensures Within(Assembled(l, t, r), n, d + 1)
  {
    PlugWithin(l, t.left, n, d);
    PlugWithin(r, t.right, n, d);
  }

  lemma AssembledHalved(l: Ctx, t: Tree, r: Ctx, path: seq<Node>)
    requires t.Bin? && Halved(l, t, r, path)
    ensures forall i :: 0 <= i < |path| ==> Within(Assembled(l, t, r), path[i], i / 2 + 2)
  {
    forall i | 0 <= i < |path|
      ensures Within(Assembled(l, t, r), path[i], i / 2 + 2)
    {
      AssembledWithin(l, t, r, path[i], i / 2 + 1);
    }
  }

  lemma AssembledLanded(t0: Tree, l: Ctx, t: Tree, r: Ctx)
    requires t.Bin? && Landed(t0, l, t, r)
    ensures forall n, d :: n in Nodes(t0) && Within(t0, n, d) ==> Within(Assembled(l, t, r), n, d + 2)
  {
    forall n, d | n in Nodes(t0) && Within(t0, n, d)
      ensures Within(Assembled(l, t, r), n, d + 2)
    {
      AssembledWithin(l, t, r, n, d + 1);
    }
  }

  lemma AssembledShorter(t0: Tree, key: int, l: Ctx, t: Tree, r: Ctx, stop: bool)
    requires t.Bin? && Shortening(t0, key, l, t, r, stop) && (!stop ==> t.key == key)
    ensures Shortened(t0, key, Assembled(l, t, r))
  {
    if !stop {
      var w: nat :| Halving(l, t, r, key, SearchPath(t0, key), w) && Floating(t0, l, t, r, w);
      FoundHalved(t0, key, l, t, r, w);
    }
    AssembledHalved(l, t, r, SearchPath(t0, key));
    AssembledLanded(t0, l, t, r);
  }

  lemma FoundHalved(t0: Tree, key: int, l: Ctx, t: Tree, r: Ctx, w: nat)
    requires Halving(l, t, r, key, SearchPath(t0, key), w) && Floating(t0, l, t, r, w) && t.key == key
    ensures Halved(l, t, r, SearchPath(t0, key)) && Landed(t0, l, t, r)
  {
    PathEnds(l, t, r, key, SearchPath(t0, key), w);
    FoundLands(t0, l, t, r, w);
  }
}
