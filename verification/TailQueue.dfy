/**
 The tail queue: doubly linked through pointers to slots. A slot is named by the structure that owns
 it, since each structure has one: `next` is the slot, `tqh_first` in a head and `tqe_next` in an
 element, and `prev` names another slot, `tqh_last` in a head and `tqe_prev` in an element. Head and
 entry having this one layout is what the casts in TAILQ_LAST and TAILQ_PREV rely on.
 */
module TailQueue {
  import opened Sequences

  class Cell {
    var next: Cell?
    var prev: Cell

    constructor ()
    {
      next, prev := null, this;
    }
  }

  /** The slot before position `i` of a queue: the head's own for the first element. */
  ghost function SlotAt(head: Cell, s: seq<Cell>, i: nat): Cell
    requires i <= |s|
  {
    if i == 0 then head else s[i - 1]
  }

  /**
   The queue at `head` holds the elements `s`: every slot leads to the next element and the last one to
   nothing, every element names the slot that leads to it, and the head names the last slot.
   */
  ghost predicate Linked(head: Cell, s: seq<Cell>)
    reads head, s
  {
    && NoDuplicates(s) && head !in s
    && head.next == (if s == [] then null else s[0])
    && (s != [] ==> s[0].prev == head && s[|s| - 1].next == null)
    && (forall i, j :: 0 <= i < j < |s| && j == i + 1 ==> s[i].next == s[j] && s[j].prev == s[i])
    && head.prev == SlotAt(head, s, |s|)
  }

  /** The sequence with `elm` entered at position `i`. */
  ghost function With(s: seq<Cell>, i: nat, elm: Cell): (t: seq<Cell>)
    requires i <= |s|
    ensures |t| == |s| + 1 && t[i] == elm
    ensures forall k :: 0 <= k < i ==> t[k] == s[k]
    ensures forall k :: i < k < |t| ==> t[k] == s[k - 1]
    ensures NoDuplicates(s) && elm !in s ==> NoDuplicates(t)
  {
    assert s == s[..i] + s[i..];
    s[..i] + [elm] + s[i..]
  }

  /** The sequence without its element at position `i`. */
  ghost function Without(s: seq<Cell>, i: nat): (t: seq<Cell>)
    requires i < |s|
    ensures |t| == |s| - 1
    ensures forall k :: 0 <= k < i ==> t[k] == s[k]
    ensures forall k :: i <= k < |t| ==> t[k] == s[k + 1]
    ensures NoDuplicates(s) ==> NoDuplicates(t)
  {
    s[..i] + s[i + 1..]
  }

  /** What the cells at and around position `i` hold. */
  lemma Around(head: Cell, s: seq<Cell>, i: nat)
    requires Linked(head, s) && i < |s|
    ensures s[i].prev == SlotAt(head, s, i) && s[i].prev.next == s[i]
    ensures s[i].next == if i + 1 < |s| then s[i + 1] else null
    ensures i + 1 < |s| ==> s[i + 1].prev == s[i]
    ensures s[i].prev != s[i] && (i > 0 ==> s[i].prev in s)
  {
    assert i > 0 ==> s[i - 1] in s;
  }

  /** A head holds one sequence only. */
  lemma LinkedOnce(head: Cell, s: seq<Cell>, t: seq<Cell>)
    requires Linked(head, s) && Linked(head, t)
    ensures s == t
  {
    if |s| <= |t| {
      LinkedPrefix(head, s, t, |s|);
    } else {
      LinkedPrefix(head, t, s, |t|);
    }
  }

  lemma {:induction false} LinkedPrefix(head: Cell, s: seq<Cell>, t: seq<Cell>, n: nat)
    requires Linked(head, s) && Linked(head, t) && n <= |s| <= |t|
    ensures s[..n] == t[..n] && (n == |s| ==> n == |t|)
  {
    if n > 0 {
      LinkedPrefix(head, s, t, n - 1);
      assert n > 1 ==> s[n - 2] == s[..n - 1][n - 2] == t[..n - 1][n - 2] == t[n - 2];
      assert s[n - 1] == t[n - 1];
      assert s[..n] == s[..n - 1] + [s[n - 1]] && t[..n] == t[..n - 1] + [t[n - 1]];
    }
  }

  /** TAILQ_INIT */
  method Init(head: Cell)
    modifies head
    ensures Linked(head, [])
  {
    head.next := null;
    head.prev := head;
  }

  /** TAILQ_EMPTY */
  method Empty(head: Cell, ghost s: seq<Cell>) returns (empty: bool)
    requires Linked(head, s)
    ensures empty <==> s == []
  {
    empty := head.next == null;
  }

  /** TAILQ_FIRST */
  method First(head: Cell, ghost s: seq<Cell>) returns (first: Cell?)
    requires Linked(head, s)
    ensures first == if s == [] then null else s[0]
  {
    first := head.next;
  }

  /** TAILQ_LAST: the head's last slot is read as if its owner were a head, for the slot before it. */
  method Last(head: Cell, ghost s: seq<Cell>) returns (last: Cell?)
    requires Linked(head, s)
    ensures last == if s == [] then null else s[|s| - 1]
  {
    if s != [] { Around(head, s, |s| - 1); }
    last := head.prev.prev.next;
  }

  /** TAILQ_NEXT of the element at position `i`. */
  method Next(elm: Cell, ghost head: Cell, ghost s: seq<Cell>, ghost i: nat) returns (next: Cell?)
    requires Linked(head, s) && i < |s| && s[i] == elm
    ensures next == if i + 1 < |s| then s[i + 1] else null
  {
    next := elm.next;
  }

  /** TAILQ_PREV of the element at position `i`: null for the first one. */
  method Prev(elm: Cell, ghost head: Cell, ghost s: seq<Cell>, ghost i: nat) returns (prev: Cell?)
    requires Linked(head, s) && i < |s| && s[i] == elm
    ensures prev == if i > 0 then s[i - 1] else null
  {
    Around(head, s, i);
    if i > 0 { Around(head, s, i - 1); }
    prev := elm.prev.prev.next;
  }

  method InsertHead(head: Cell, elm: Cell, ghost s: seq<Cell>)
    requires Linked(head, s) && elm != head && elm !in s
    modifies head, elm, s
    ensures Linked(head, [elm] + s)
  {
    elm.next := head.next;
    if elm.next != null {
      head.next.prev := elm;
    } else {
      head.prev := elm;
    }
    head.next := elm;
    elm.prev := head;
  }

  method InsertTail(head: Cell, elm: Cell, ghost s: seq<Cell>)
    requires Linked(head, s) && elm != head && elm !in s
    modifies head, elm, s
    ensures Linked(head, s + [elm])
  {
    elm.next := null;
    elm.prev := head.prev;
    head.prev.next := elm;
    head.prev := elm;
  }

  /** The links around an element entered after position `i`, and those of the others as they were, make the queue. */
  lemma EnteredAfter(head: Cell, s: seq<Cell>, i: nat, elm: Cell)
    requires NoDuplicates(s) && head !in s && i < |s| && elm != head && elm !in s
    requires head.next == s[0] && s[0].prev == head && s[i].next == elm && elm.prev == s[i]
    requires forall a, b :: 0 <= a < b < |s| && b == a + 1 && a != i ==> s[a].next == s[b] && s[b].prev == s[a]
    requires if i + 1 < |s| then elm.next == s[i + 1] && s[i + 1].prev == elm else elm.next == null
    requires if i + 1 < |s| then s[|s| - 1].next == null && head.prev == s[|s| - 1] else head.prev == elm
    ensures Linked(head, With(s, i + 1, elm))
  {
  }

  method InsertAfter(head: Cell, listelm: Cell, elm: Cell, ghost s: seq<Cell>, ghost i: nat)
    requires Linked(head, s) && i < |s| && s[i] == listelm && elm != head && elm !in s
    modifies head, elm, s
    ensures Linked(head, With(s, i + 1, elm))
  {
    Around(head, s, i);
    elm.next := listelm.next;
    if elm.next != null {
      elm.next.prev := elm;
    } else {
      head.prev := elm;
    }
    listelm.next := elm;
    elm.prev := listelm;
    EnteredAfter(head, s, i, elm);
  }

  method InsertBefore(listelm: Cell, elm: Cell, ghost head: Cell, ghost s: seq<Cell>, ghost i: nat)
    requires Linked(head, s) && i < |s| && s[i] == listelm && elm != head && elm !in s
    modifies head, elm, s
    ensures Linked(head, With(s, i, elm))
  {
    Around(head, s, i);
    elm.prev := listelm.prev;
    elm.next := listelm;
    listelm.prev.next := elm;
    listelm.prev := elm;
  }

  method Remove(head: Cell, elm: Cell, ghost s: seq<Cell>, ghost i: nat)
    requires Linked(head, s) && i < |s| && s[i] == elm
    modifies head, s
    ensures Linked(head, Without(s, i))
  {
    Around(head, s, i);
    if elm.next != null {
      elm.next.prev := elm.prev;
    } else {
      head.prev := elm.prev;
    }
    elm.prev.next := elm.next;
  }

  /** The queues share no cell. */
  ghost predicate Disjoint(head1: Cell, s1: seq<Cell>, head2: Cell, s2: seq<Cell>) {
    head1 != head2 && head1 !in s2 && head2 !in s1 && forall e :: e in s1 ==> e !in s2
  }

  /** TAILQ_CONCAT: the second queue is moved behind the first and left empty. */
  method Concat(head1: Cell, head2: Cell, ghost s1: seq<Cell>, ghost s2: seq<Cell>)
    requires Linked(head1, s1) && Linked(head2, s2) && Disjoint(head1, s1, head2, s2)
    modifies head1, s1, head2, s2
    ensures Linked(head1, s1 + s2) && Linked(head2, [])
  {
    assert forall k :: 0 <= k < |s1 + s2| ==> (s1 + s2)[k] == if k < |s1| then s1[k] else s2[k - |s1|];
    assert s2 == [] ==> s1 + s2 == s1;
    assert NoDuplicates(s1 + s2) by {
      assert forall i :: 0 <= i < |s1| ==> s1[i] !in s2;
    }
    if head2.next != null {
      head1.prev.next := head2.next;
      head2.next.prev := head1.prev;
      head1.prev := head2.prev;
      Init(head2);
    }
  }

  /** TAILQ_SWAP: the heads exchange their elements. */
  method Swap(head1: Cell, head2: Cell, ghost s1: seq<Cell>, ghost s2: seq<Cell>)
    requires Linked(head1, s1) && Linked(head2, s2)
    requires (head1 == head2 && s1 == s2) || Disjoint(head1, s1, head2, s2)
    modifies head1, s1, head2, s2
    ensures Linked(head1, s2) && Linked(head2, s1)
  {
    var first, last := head1.next, head1.prev;
    head1.next := head2.next;
    head1.prev := head2.prev;
    head2.next := first;
    head2.prev := last;
    first := head1.next;
    if first != null {
      first.prev := head1;
    } else {
      head1.prev := head1;
    }
    first := head2.next;
    if first != null {
      first.prev := head2;
    } else {
      head2.prev := head2;
    }
  }

  /** TAILQ_FOREACH */
  method ForEach(head: Cell, ghost s: seq<Cell>) returns (visited: seq<Cell>)
    requires Linked(head, s)
    ensures visited == s
  {
    visited := [];
    var x := First(head, s);
    while x != null
      invariant visited <= s && x == if |visited| < |s| then s[|visited|] else null
      decreases |s| - |visited|
    {
      ghost var i := |visited|;
      visited := visited + [x];
      x := Next(x, head, s, i);
    }
  }

  /** TAILQ_FOREACH_REVERSE */
  method ForEachReverse(head: Cell, ghost s: seq<Cell>) returns (visited: seq<Cell>)
    requires Linked(head, s)
    ensures |visited| == |s| && forall i :: 0 <= i < |s| ==> visited[i] == s[|s| - 1 - i]
  {
    visited := [];
    var x := Last(head, s);
    while x != null
      invariant |visited| <= |s| && forall i :: 0 <= i < |visited| ==> visited[i] == s[|s| - 1 - i]
      invariant x == if |visited| < |s| then s[|s| - 1 - |visited|] else null
      decreases |s| - |visited|
    {
      ghost var i := |s| - 1 - |visited|;
      visited := visited + [x];
      x := Prev(x, head, s, i);
    }
  }
}
