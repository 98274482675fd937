/**
 The entries of a tree read as a map from keys to nodes. It turns what the tree operations do to the
 entries into what the scheduler's maps of sleepers and waiters take for granted.
 */
module OrderedMap {
  import opened Entries

  ghost function AsMap<N>(s: seq<Entry<N>>): map<int, N> {
    if s == [] then map[] else AsMap(s[1..])[s[0].key := s[0].node]
  }

  /** A look-up finds the node entered under the key, and nothing under other keys. */
  lemma {:induction false} LookUp<N>(s: seq<Entry<N>>, k: int)
    requires Sorted(s)
    ensures k in AsMap(s) <==> HasKey(s, k)
    ensures forall n :: Entry(n, k) in s ==> k in AsMap(s) && AsMap(s)[k] == n
    ensures k in AsMap(s) ==> Entry(AsMap(s)[k], k) in s
  {
    if s != [] {
      var e, rest := s[0], s[1..];
      assert s == [e] + rest;
      SortedJoin([e], rest);
      LookUp(rest, k);
      if k == e.key {
        assert e in s && e == Entry(AsMap(s)[k], k);
        assert forall i :: 0 < i < |s| ==> s[i].key > e.key;
      } else {
        assert forall x :: x in s <==> x == e || x in rest;
        assert HasKey(s, k) <==> HasKey(rest, k);
      }
    }
  }

  /** RB_INSERT of an absent key adds it. */
  lemma {:induction false} InsertAdds<N>(s: seq<Entry<N>>, e: Entry<N>)
    requires Sorted(s) && !HasKey(s, e.key)
    ensures AsMap(Inserted(s, e)) == AsMap(s)[e.key := e.node]
  {
    if s == [] || e.key < s[0].key {
      AsMapFirst(e, s);
    } else {
      var first, rest := s[0], s[1..];
      assert s == [first] + rest && first in s;
      SortedJoin([first], rest);
      assert forall x :: x in rest ==> x in s;
      InsertAdds(rest, e);
      AsMapFirst(first, Inserted(rest, e));
      AsMapFirst(first, rest);
      Swapped(AsMap(rest), first, e);
    }
  }

  lemma AsMapFirst<N>(e: Entry<N>, s: seq<Entry<N>>)
    ensures AsMap([e] + s) == AsMap(s)[e.key := e.node]
  {
    assert ([e] + s)[1..] == s;
  }

  lemma Swapped<N>(m: map<int, N>, d: Entry<N>, e: Entry<N>)
    requires d.key != e.key
    ensures m[e.key := e.node][d.key := d.node] == m[d.key := d.node][e.key := e.node]
  {
  }

  lemma AddedTaken<N>(m: map<int, N>, e: Entry<N>)
    requires e.key !in m
    ensures m[e.key := e.node] - {e.key} == m
  {
  }

  ghost predicate NodesDiffer<N>(s: seq<Entry<N>>) { forall i, j :: 0 <= i < j < |s| ==> s[i].node != s[j].node }

  lemma RemoveFirst<N>(s: seq<Entry<N>>)
    requires Sorted(s) && s != [] && NodesDiffer(s)
    ensures AsMap(Without(s, s[0].node)) == AsMap(s) - {s[0].key}
  {
    var e, rest := s[0], s[1..];
    assert s == [e] + rest;
    FirstDiffers(s);
    WithoutMiddle([], e, rest);
    assert [] + [e] + rest == s && [] + rest == rest;
    RestWithout(e, rest);
    AsMapFirst(e, rest);
    AddedTaken(AsMap(rest), e);
  }

  lemma FirstDiffers<N>(s: seq<Entry<N>>)
    requires Sorted(s) && s != [] && NodesDiffer(s)
    ensures Sorted(s[1..]) && forall x :: x in s[1..] ==> x.node != s[0].node && x.key > s[0].key
  {
    forall x | x in s[1..]
      ensures x.node != s[0].node && x.key > s[0].key
    {
      var i :| 0 <= i < |s[1..]| && s[1..][i] == x;
      assert s[i + 1] == x;
    }
  }

  lemma RestWithout<N>(e: Entry<N>, rest: seq<Entry<N>>)
    requires Sorted(rest) && forall x :: x in rest ==> x.key > e.key
    ensures e.key !in AsMap(rest)
  {
    LookUp(rest, e.key);
  }

  /** RB_REMOVE of a member takes its key out. */
  lemma {:induction false} RemoveTakesOut<N>(s: seq<Entry<N>>, e: Entry<N>)
    requires Sorted(s) && e in s && NodesDiffer(s)
    ensures AsMap(Without(s, e.node)) == AsMap(s) - {e.key}
  {
    var first, rest := s[0], s[1..];
    assert s == [first] + rest;
    if e == first {
      RemoveFirst(s);
    } else {
      SortedJoin([first], rest);
      var j :| 0 <= j < |s| && s[j] == e;
      assert rest[j - 1] == e && first.node != e.node && first.key != e.key;
      RemoveTakesOut(rest, e);
      AsMapFirst(first, rest);
      AsMapFirst(first, Without(rest, e.node));
      TakenApart(AsMap(rest), first, e.key);
    }
  }

  lemma TakenApart<N>(m: map<int, N>, e: Entry<N>, k: int)
    requires e.key != k
    ensures (m - {k})[e.key := e.node] == m[e.key := e.node] - {k}
  {
  }

  /** RB_MIN is the least key. */
  lemma LeastFirst<N>(s: seq<Entry<N>>, k: int)
    requires Sorted(s) && s != [] && k in AsMap(s)
    ensures s[0].key in AsMap(s) && AsMap(s)[s[0].key] == s[0].node && s[0].key <= k
  {
    LookUp(s, k);
    LookUp(s, s[0].key);
    assert s[0] == Entry(s[0].node, s[0].key) && s[0] in s;
    var e :| e in s && e.key == k;
    var i :| 0 <= i < |s| && s[i] == e;
  }
}
