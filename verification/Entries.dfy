/**
 Members of an ordered intrusive tree as a sequence: node objects with the keys they were entered
 under. Both kinds of tree are described by the sequence they hold from left to right.
 */
module Entries {

  /** A member: the node object and the key it was entered under. */
  datatype Entry<+N> = Entry(node: N, key: int)

  ghost predicate Sorted<N>(s: seq<Entry<N>>) {
    var sorted := forall i, j :: 0 <= i < j < |s| ==> s[i].key < s[j].key;
    sorted
  }

  ghost predicate AllBelow<N>(s: seq<Entry<N>>, k: int) {
    var below := forall e :: e in s ==> e.key < k;
    below
  }

  ghost predicate AllAbove<N>(s: seq<Entry<N>>, k: int) {
    var above := forall e :: e in s ==> e.key > k;
    above
  }

  ghost predicate HasKey<N>(s: seq<Entry<N>>, k: int) { exists e :: e in s && e.key == k }

  /** A sorted sequence is cut by any of its entries into smaller and larger ones. */
  lemma SortedAround<N>(a: seq<Entry<N>>, e: Entry<N>, b: seq<Entry<N>>)
    ensures Sorted(a + [e] + b) <==> Sorted(a) && Sorted(b) && AllBelow(a, e.key) && AllAbove(b, e.key)
  {
    if Sorted(a + [e] + b) { SortedSides(a, e, b); }
    if Sorted(a) && Sorted(b) && AllBelow(a, e.key) && AllAbove(b, e.key) { SortedWhole(a, e, b); }
  }

  lemma SortedSides<N>(a: seq<Entry<N>>, e: Entry<N>, b: seq<Entry<N>>)
    requires Sorted(a + [e] + b)
    ensures Sorted(a) && Sorted(b) && AllBelow(a, e.key) && AllAbove(b, e.key)
  {
    var s := a + [e] + b;
    assert s[|a|] == e;
    assert forall i :: 0 <= i < |a| ==> s[i] == a[i];
    assert forall i :: 0 <= i < |b| ==> s[|a| + 1 + i] == b[i];
  }

  lemma SortedWhole<N>(a: seq<Entry<N>>, e: Entry<N>, b: seq<Entry<N>>)
    requires Sorted(a) && Sorted(b) && AllBelow(a, e.key) && AllAbove(b, e.key)
    ensures Sorted(a + [e] + b)
  {
    var s := a + [e] + b;
    forall i, j | 0 <= i < j < |s|
      ensures s[i].key < s[j].key
    {
      assert s[i] == if i < |a| then a[i] else if i == |a| then e else b[i - |a| - 1];
      assert s[j] == if j < |a| then a[j] else if j == |a| then e else b[j - |a| - 1];
    }
  }

  /** `e` entered into a sorted sequence. */
  ghost function Inserted<N>(s: seq<Entry<N>>, e: Entry<N>): seq<Entry<N>> {
    if s == [] || e.key < s[0].key then [e] + s else [s[0]] + Inserted(s[1..], e)
  }

  lemma {:induction false} InsertedBetween<N>(a: seq<Entry<N>>, e: Entry<N>, b: seq<Entry<N>>)
    requires AllBelow(a, e.key) && AllAbove(b, e.key)
    ensures Inserted(a + b, e) == a + [e] + b
  {
    if a == [] {
      assert a + b == b;
    } else {
      assert a[0] in a && (a + b)[0] == a[0];
      assert (a + b)[1..] == a[1..] + b;
      InsertedBetween(a[1..], e, b);
    }
  }

  lemma SortedJoin<N>(a: seq<Entry<N>>, b: seq<Entry<N>>)
    requires Sorted(a + b)
    ensures Sorted(a) && Sorted(b)
  {
    assert forall i :: 0 <= i < |a| ==> (a + b)[i] == a[i];
    assert forall i :: 0 <= i < |b| ==> (a + b)[|a| + i] == b[i];
  }

  /** The entries of the other node objects. */
  ghost function Without<N>(s: seq<Entry<N>>, n: N): seq<Entry<N>> {
    if s == [] then [] else (if s[0].node == n then [] else [s[0]]) + Without(s[1..], n)
  }

  lemma {:induction false} WithoutApart<N>(a: seq<Entry<N>>, b: seq<Entry<N>>, n: N)
    requires forall e :: e in a ==> e.node != n
    ensures Without(a + b, n) == a + Without(b, n)
  {
    if a == [] {
      assert a + b == b;
    } else {
      assert a[0] in a && (a + b)[0] == a[0];
      assert (a + b)[1..] == a[1..] + b;
      WithoutApart(a[1..], b, n);
    }
  }

  lemma WithoutMiddle<N>(a: seq<Entry<N>>, e: Entry<N>, b: seq<Entry<N>>)
    requires forall x :: x in a ==> x.node != e.node
    requires forall x :: x in b ==> x.node != e.node
    ensures Without(a + [e] + b, e.node) == a + b
  {
    var c := [e] + b;
    assert a + c == a + [e] + b;
    WithoutApart(a, c, e.node);
    assert c[1..] == b && c[0] == e;
    assert Without(c, e.node) == Without(b, e.node);
    WithoutApart(b, [], e.node);
    assert b + [] == b;
  }

  lemma SortedConcat<N>(a: seq<Entry<N>>, e: Entry<N>, b: seq<Entry<N>>)
    requires Sorted(a + [e] + b)
    ensures Sorted(a + b)
  {
    var s, s' := a + [e] + b, a + b;
    forall i, j | 0 <= i < j < |s'|
      ensures s'[i].key < s'[j].key
    {
      assert s'[i] == s[if i < |a| then i else i + 1] && s'[j] == s[if j < |a| then j else j + 1];
    }
  }

  lemma Regroup<N>(w: seq<Entry<N>>, x: seq<Entry<N>>, y: seq<Entry<N>>, z: seq<Entry<N>>)
    ensures w + x + (y + z) == w + ((x + y) + z)
  {
  }

  lemma RegroupFirst<N>(e: Entry<N>, x: seq<Entry<N>>, y: seq<Entry<N>>)
    ensures [] + ([] + [e] + x) + y == [e] + ([] + x + y)
  {
  }

  lemma RegroupAround<N>(v: seq<Entry<N>>, w: seq<Entry<N>>, x: seq<Entry<N>>, y: seq<Entry<N>>, z: seq<Entry<N>>)
    ensures v + (w + x + y) + z == (v + w) + x + (y + z)
  {
  }

  lemma RegroupRotated<N>(v: seq<Entry<N>>, w: seq<Entry<N>>, x: seq<Entry<N>>, y: seq<Entry<N>>, z: seq<Entry<N>>)
    ensures v + w + (x + y + z) == (v + w + x) + y + z
  {
  }

  lemma RegroupEnds<N>(v: seq<Entry<N>>, w: seq<Entry<N>>, x: seq<Entry<N>>, y: seq<Entry<N>>, z: seq<Entry<N>>)
    ensures v + (w + x + y) + z == v + w + (x + y + z) == (v + w + x) + y + z
  {
  }
}
